/** The reactor LatencyProblem02 class: the Greek gods list is fetched once,
    every god's Wikipedia page is fetched and measured, and the god whose
    page is longest is the answer. Among pages of the same greatest length
    the stable sort followed by takeLast(1) picks the god listed last. */
module ReactorLatency02 {
  import opened Base
  import opened Codec
  import opened Streams
  import opened Remote

  /** The apiMap of Config: the GREEK and WIKIPEDIA addresses. */
  datatype Config = Config(greek: Address, wikipedia: JString)

  /** Tuple2<String, Integer>: a god and the length of its page. */
  datatype GodInfo = GodInfo(name: JString, length: nat)

  /** generateWikiAddress: the WIKIPEDIA base, a slash, then the god. */
  function GenerateWikiAddress(cfg: Config, god: JString): (a: Address)
    ensures |a| == |cfg.wikipedia| + 1 + |god|
    ensures a[..|cfg.wikipedia|] == cfg.wikipedia
    ensures a[|cfg.wikipedia|] == '/'
    ensures a[|cfg.wikipedia| + 1..] == god
  {
    cfg.wikipedia + "/" + god
  }

  /** The god a page address names, if it is one of the base's pages. */
  function WikiGod(cfg: Config, a: Address): Option<JString>
  {
    var w := |cfg.wikipedia|;
    if |a| > w && a[..w] == cfg.wikipedia && a[w] == '/' then Some(a[w + 1..]) else None
  }

  /** The page address gives the god back. */
  lemma WikiAddressRoundTrip(cfg: Config, god: JString)
    ensures WikiGod(cfg, GenerateWikiAddress(cfg, god)) == Some(god)
  {
  }

  /** Different gods have different pages. */
  lemma WikiAddressInjective(cfg: Config, g1: JString, g2: JString)
    ensures GenerateWikiAddress(cfg, g1) == GenerateWikiAddress(cfg, g2) <==> g1 == g2
  {
    if GenerateWikiAddress(cfg, g1) == GenerateWikiAddress(cfg, g2) {
      WikiAddressRoundTrip(cfg, g1);
      WikiAddressRoundTrip(cfg, g2);
    }
  }

  /** Reference for the first stage: the names the GREEK address delivers,
      or the exception on the way. The fetch has no timeout here. */
  function GreekGods(env: Env, cfg: Config): Result<seq<JString>>
  {
    if !env.validUrl(cfg.greek) then Err(BadAddress)
    else match Await(env.fetch(cfg.greek))
      case Err(e) => Err(e)
      case Ok(body) => BodyItems(env, body)
  }

  /** fetchGreekGods: Flux.just of the GREEK address, through toURL, fetch
      and serializeFlux. */
  function FetchGreekGods(env: Env, cfg: Config): (t: Trace<JString>)
    ensures GreekGods(env, cfg).Ok? ==> t == Just(GreekGods(env, cfg).value)
    ensures GreekGods(env, cfg).Err? ==> t == Raise(GreekGods(env, cfg).error)
    ensures env.validUrl(cfg.greek) && Await(env.fetch(cfg.greek)) == Ok([]) ==> t == Just([""])
  {
    var url := ToUrl(env, cfg.greek);
    if url.Err? then Raise(url.error)
    else match Await(env.fetch(url.value))
      case Err(e) => Raise(e)
      case Ok(body) => SerializeFlux(env, body)
  }

  /** generateWikiAddress.andThen(toURL).andThen(fetch).andThen(String::length):
      the length, in UTF-16 units, of the god's page. */
  function Measure(env: Env, cfg: Config, god: JString): (r: Result<nat>)
    ensures var a := GenerateWikiAddress(cfg, god);
            r.Err? <==> !env.validUrl(a) || env.fetch(a).Failure?
    ensures var a := GenerateWikiAddress(cfg, god);
            r.Err? ==> r.error == if env.validUrl(a) then FetchError else BadAddress
    ensures var a := GenerateWikiAddress(cfg, god);
            r.Ok? ==> r.value == |Await(env.fetch(a)).value|
  {
    var url := ToUrl(env, GenerateWikiAddress(cfg, god));
    if url.Err? then Err(url.error)
    else match Await(env.fetch(url.value))
      case Err(e) => Err(e)
      case Ok(body) => Ok(|body|)
  }

  /** The tuple the map of fetchWikipediaGodInfo builds for one god. */
  function Info(env: Env, cfg: Config, god: JString): (r: Result<GodInfo>)
    ensures r.Ok? <==> Measure(env, cfg, god).Ok?
    ensures r.Ok? ==> r.value == GodInfo(god, Measure(env, cfg, god).value)
    ensures r.Err? ==> r.error == Measure(env, cfg, god).error
  {
    match Measure(env, cfg, god)
    case Err(e) => Err(e)
    case Ok(n) => Ok(GodInfo(god, n))
  }

  function Informer(env: Env, cfg: Config): JString -> Result<GodInfo>
  {
    god => Info(env, cfg, god)
  }

  /** fetchWikipediaGodInfo */
  function FetchWikipediaGodInfo(env: Env, cfg: Config, gods: Trace<JString>): Trace<GodInfo>
  {
    MapOrFail(gods, Informer(env, cfg))
  }

  // ---------------------------------------------------------------------
  // Flux.sort(Comparator.comparing(Tuple2::_2)): List.sort is stable, so it
  // is modelled by an insertion sort that places every new tuple after the
  // ones already sorted whose length is not greater.

  predicate SortedByLength(s: seq<GodInfo>)
  {
    forall i, j :: 0 <= i < j < |s| ==> s[i].length <= s[j].length
  }

  function Insert(s: seq<GodInfo>, x: GodInfo): (r: seq<GodInfo>)
    ensures |r| == |s| + 1
    ensures multiset(r) == multiset(s) + multiset{x}
    decreases |s|
  {
    if s == [] || s[|s| - 1].length <= x.length then s + [x]
    else
      var front := s[..|s| - 1];
      assert s == front + [s[|s| - 1]];
      Insert(front, x) + [s[|s| - 1]]
  }

  function SortByLength(ps: seq<GodInfo>): (r: seq<GodInfo>)
    ensures |r| == |ps|
    decreases |ps|
  {
    if ps == [] then [] else Insert(SortByLength(ps[..|ps| - 1]), ps[|ps| - 1])
  }

  /** The tuples of one length, in order. */
  function WithLength(s: seq<GodInfo>, n: nat): seq<GodInfo>
    decreases |s|
  {
    if s == [] then []
    else WithLength(s[..|s| - 1], n) + (if s[|s| - 1].length == n then [s[|s| - 1]] else [])
  }

  lemma InsertUnfold(s: seq<GodInfo>, x: GodInfo)
    requires s != [] && s[|s| - 1].length > x.length
    ensures Insert(s, x) == Insert(s[..|s| - 1], x) + [s[|s| - 1]]
  {
  }

  lemma {:induction false} InsertSorted(s: seq<GodInfo>, x: GodInfo)
    requires SortedByLength(s)
    ensures SortedByLength(Insert(s, x))
    decreases |s|
  {
    if s != [] && s[|s| - 1].length > x.length {
      var front, last := s[..|s| - 1], s[|s| - 1];
      var r := Insert(front, x);
      InsertSorted(front, x);
      InsertUnfold(s, x);
      forall i | 0 <= i < |r| ensures r[i].length <= last.length {
        var y := r[i];
        assert y in multiset(r);
        if y != x {
          assert y in multiset(front);
          var k :| 0 <= k < |front| && front[k] == y;
          assert s[k] == y;
        }
      }
    }
  }

  /** The sort orders the tuples by length, ascending. */
  lemma {:induction false} SortByLengthSorted(ps: seq<GodInfo>)
    ensures SortedByLength(SortByLength(ps))
    decreases |ps|
  {
    if ps != [] {
      SortByLengthSorted(ps[..|ps| - 1]);
      InsertSorted(SortByLength(ps[..|ps| - 1]), ps[|ps| - 1]);
    }
  }

  /** The sort is a permutation of its input. */
  lemma {:induction false} SortByLengthPermutation(ps: seq<GodInfo>)
    ensures multiset(SortByLength(ps)) == multiset(ps)
    decreases |ps|
  {
    if ps != [] {
      var front := ps[..|ps| - 1];
      SortByLengthPermutation(front);
      assert ps == front + [ps[|ps| - 1]];
    }
  }

  lemma {:induction false} WithLengthAppend(a: seq<GodInfo>, b: seq<GodInfo>, n: nat)
    ensures WithLength(a + b, n) == WithLength(a, n) + WithLength(b, n)
    decreases |b|
  {
    if b == [] {
      assert a + b == a;
    } else {
      var front := b[..|b| - 1];
      assert (a + b)[..|a + b| - 1] == a + front;
      WithLengthAppend(a, front, n);
    }
  }

  lemma WithLengthOne(x: GodInfo, n: nat)
    ensures WithLength([x], n) == if x.length == n then [x] else []
  {
    assert [x][..0] == [];
  }

  lemma {:induction false} InsertStable(s: seq<GodInfo>, x: GodInfo, n: nat)
    ensures WithLength(Insert(s, x), n) == WithLength(s, n) + WithLength([x], n)
    decreases |s|
  {
    if s == [] || s[|s| - 1].length <= x.length {
      assert Insert(s, x) == s + [x];
      WithLengthAppend(s, [x], n);
    } else {
      var front, last := s[..|s| - 1], s[|s| - 1];
      InsertStable(front, x, n);
      InsertStableStep(s, front, last, x, n);
    }
  }

  lemma InsertStableStep(s: seq<GodInfo>, front: seq<GodInfo>, last: GodInfo, x: GodInfo, n: nat)
    requires s == front + [last] && last.length > x.length
    requires WithLength(Insert(front, x), n) == WithLength(front, n) + WithLength([x], n)
    ensures WithLength(Insert(s, x), n) == WithLength(s, n) + WithLength([x], n)
  {
    var r := Insert(front, x);
    assert s[..|s| - 1] == front;
    InsertUnfold(s, x);
    WithLengthAppend(r, [last], n);
    WithLengthAppend(front, [last], n);
    WithLengthOne(x, n);
    WithLengthOne(last, n);
    var wf, wx, wl := WithLength(front, n), WithLength([x], n), WithLength([last], n);
    if wx == [] {
      assert wf + wx == wf;
      assert wf + wl + wx == wf + wl;
    } else {
      assert wl == [];
      assert wf + wx + wl == wf + wx;
      assert wf + wl == wf;
    }
  }

  /** The sort is stable: the tuples of every length keep their order. */
  lemma {:induction false} SortByLengthStable(ps: seq<GodInfo>, n: nat)
    ensures WithLength(SortByLength(ps), n) == WithLength(ps, n)
    decreases |ps|
  {
    if ps != [] {
      var front, x := ps[..|ps| - 1], ps[|ps| - 1];
      SortByLengthStable(front, n);
      InsertStable(SortByLength(front), x, n);
      WithLengthOne(x, n);
    }
  }

  // ---------------------------------------------------------------------
  // Reference for the tie-break: the last of the longest.

  /** ps[i] is as long as every tuple, and strictly longer than every tuple
      after it. */
  predicate IsLastLongest(ps: seq<GodInfo>, i: nat)
  {
    && i < |ps|
    && (forall j :: 0 <= j < |ps| ==> ps[j].length <= ps[i].length)
    && (forall j :: i < j < |ps| ==> ps[j].length < ps[i].length)
  }

  lemma LastLongestUnique(ps: seq<GodInfo>, i: nat, k: nat)
    requires IsLastLongest(ps, i) && IsLastLongest(ps, k)
    ensures i == k
  {
    assert ps[k].length <= ps[i].length && ps[i].length <= ps[k].length;
  }

  function LastLongest(ps: seq<GodInfo>): (i: nat)
    requires ps != []
    ensures IsLastLongest(ps, i)
    decreases |ps|
  {
    if |ps| == 1 then 0
    else
      var i := LastLongest(ps[..|ps| - 1]);
      if ps[i].length <= ps[|ps| - 1].length then |ps| - 1 else i
  }

  /** The last tuple an insertion leaves: the new one, unless the last
      tuple already sorted is longer. */
  lemma InsertLast(s: seq<GodInfo>, x: GodInfo)
    ensures Insert(s, x)[|s|] == if s != [] && s[|s| - 1].length > x.length then s[|s| - 1] else x
  {
  }

  lemma SortByLengthSnoc(ps: seq<GodInfo>, front: seq<GodInfo>, x: GodInfo)
    requires ps != [] && front == ps[..|ps| - 1] && x == ps[|ps| - 1]
    ensures ps == front + [x]
    ensures SortByLength(ps) == Insert(SortByLength(front), x)
  {
  }

  /** The last tuple of the sort is the last of the longest. */
  lemma {:induction false} SortByLengthLast(ps: seq<GodInfo>, i: nat)
    requires IsLastLongest(ps, i)
    ensures SortByLength(ps)[|ps| - 1] == ps[i]
    decreases |ps|
  {
    var front, x := ps[..|ps| - 1], ps[|ps| - 1];
    var s := SortByLength(front);
    SortByLengthSnoc(ps, front, x);
    InsertLast(s, x);
    if front == [] {
      LastLongestUnique(ps, i, 0);
    } else {
      var k := LastLongest(front);
      SortByLengthLast(front, k);
      LastOfLongerFront(ps, front, x, k, i);
    }
  }

  lemma LastOfLongerFront(ps: seq<GodInfo>, front: seq<GodInfo>, x: GodInfo, k: nat, i: nat)
    requires ps == front + [x] && IsLastLongest(front, k) && IsLastLongest(ps, i)
    ensures front[k].length > x.length ==> i == k
    ensures front[k].length <= x.length ==> i == |front|
  {
    if front[k].length > x.length {
      assert IsLastLongest(ps, k);
      LastLongestUnique(ps, i, k);
    } else {
      assert IsLastLongest(ps, |front|);
      LastLongestUnique(ps, i, |front|);
    }
  }

  /** max: sort, takeLast(1), the name. The sort waits for the whole flux,
      so an exception reaches it before any item leaves. */
  function Max(t: Trace<GodInfo>): (r: Trace<JString>)
    ensures t.end.Failed? ==> r == Raise(t.end.error)
    ensures t.end.Complete? ==> r.end == Complete && |r.items| == if t.items == [] then 0 else 1
  {
    if t.end.Failed? then Raise(t.end.error)
    else
      var sorted := SortByLength(t.items);
      if sorted == [] then Just([]) else Just([sorted[|sorted| - 1].name])
  }

  /** reactorSolution: the first (and only) name max delivers. */
  function ReactorSolution(env: Env, cfg: Config): Result<Option<JString>>
  {
    Next(Max(FetchWikipediaGodInfo(env, cfg, FetchGreekGods(env, cfg))))
  }

  // ---------------------------------------------------------------------

  /** Reference for the whole pipeline, without streams or sorting. */
  function Expected(env: Env, cfg: Config): Result<Option<JString>>
  {
    match GreekGods(env, cfg)
    case Err(e) => Err(e)
    case Ok(gods) =>
      match Traverse(gods, Informer(env, cfg))
      case Err(e) => Err(e)
      case Ok(infos) => if infos == [] then Ok(None) else Ok(Some(infos[LastLongest(infos)].name))
  }

  /** One tuple per god, in list order, or the first exception. */
  lemma GodInfoPairs(env: Env, cfg: Config, gods: seq<JString>)
    ensures (forall i :: 0 <= i < |gods| ==> Measure(env, cfg, gods[i]).Ok?) ==>
              var t := FetchWikipediaGodInfo(env, cfg, Just(gods));
              && t.end == Complete && |t.items| == |gods|
              && forall i :: 0 <= i < |gods| ==>
                   t.items[i] == GodInfo(gods[i], Measure(env, cfg, gods[i]).value)
    ensures (exists i :: 0 <= i < |gods| && Measure(env, cfg, gods[i]).Err?) ==>
              FetchWikipediaGodInfo(env, cfg, Just(gods)).end.Failed?
    ensures Traverse(gods, Informer(env, cfg)).Err? ==>
              FetchWikipediaGodInfo(env, cfg, Just(gods)).end == Failed(Traverse(gods, Informer(env, cfg)).error)
  {
    var f := Informer(env, cfg);
    assert forall i :: 0 <= i < |gods| ==> f(gods[i]) == Info(env, cfg, gods[i]);
    MapOrFailJust(gods, f);
  }

  /** The pipeline computes the reference. */
  lemma SolutionMeaning(env: Env, cfg: Config)
    ensures ReactorSolution(env, cfg) == Expected(env, cfg)
  {
    var gods := GreekGods(env, cfg);
    if gods.Ok? {
      var f := Informer(env, cfg);
      MapOrFailJust(gods.value, f);
      var infos := Traverse(gods.value, f);
      if infos.Ok? && infos.value != [] {
        SortByLengthLast(infos.value, LastLongest(infos.value));
      }
    }
  }

  /** gods[i]'s page is at least as long as every god's, and strictly
      longer than the page of every god listed after it. */
  predicate IsLongestGod(env: Env, cfg: Config, gods: seq<JString>, i: nat)
  {
    && i < |gods|
    && (forall j :: 0 <= j < |gods| ==> Measure(env, cfg, gods[j]).Ok?)
    && (forall j :: 0 <= j < |gods| ==>
          Measure(env, cfg, gods[j]).value <= Measure(env, cfg, gods[i]).value)
    && (forall j :: i < j < |gods| ==>
          Measure(env, cfg, gods[j]).value < Measure(env, cfg, gods[i]).value)
  }

  /** The tuples of a list that is measured throughout. */
  lemma InfosOfGods(env: Env, cfg: Config, gods: seq<JString>)
    requires Traverse(gods, Informer(env, cfg)).Ok?
    ensures var infos := Traverse(gods, Informer(env, cfg)).value;
            forall j :: 0 <= j < |gods| ==>
              Measure(env, cfg, gods[j]).Ok? && infos[j] == GodInfo(gods[j], Measure(env, cfg, gods[j]).value)
  {
    var f := Informer(env, cfg);
    assert forall j :: 0 <= j < |gods| ==> f(gods[j]) == Info(env, cfg, gods[j]);
  }

  /** The answer is a god of the list whose page is longest, and the last
      such god in list order. */
  lemma SolutionIsLongest(env: Env, cfg: Config)
    ensures ReactorSolution(env, cfg).Ok? && ReactorSolution(env, cfg).value.Some? ==>
              && GreekGods(env, cfg).Ok?
              && exists i: nat :: IsLongestGod(env, cfg, GreekGods(env, cfg).value, i)
                   && GreekGods(env, cfg).value[i] == ReactorSolution(env, cfg).value.value
  {
    SolutionMeaning(env, cfg);
    if ReactorSolution(env, cfg).Ok? && ReactorSolution(env, cfg).value.Some? {
      var gods := GreekGods(env, cfg).value;
      var infos := Traverse(gods, Informer(env, cfg)).value;
      InfosOfGods(env, cfg, gods);
      var i := LastLongest(infos);
      assert IsLongestGod(env, cfg, gods, i);
    }
  }

  /** A god whose page is strictly longer than every other god's page is
      the answer, wherever it stands in the list. */
  lemma UniqueLongestWins(env: Env, cfg: Config, k: nat)
    requires GreekGods(env, cfg).Ok? && k < |GreekGods(env, cfg).value|
    requires var gods := GreekGods(env, cfg).value;
             forall j :: 0 <= j < |gods| ==> Measure(env, cfg, gods[j]).Ok?
    requires var gods := GreekGods(env, cfg).value;
             forall j :: 0 <= j < |gods| && j != k ==>
               Measure(env, cfg, gods[j]).value < Measure(env, cfg, gods[k]).value
    ensures ReactorSolution(env, cfg) == Ok(Some(GreekGods(env, cfg).value[k]))
  {
    var gods := GreekGods(env, cfg).value;
    var f := Informer(env, cfg);
    assert forall j :: 0 <= j < |gods| ==> f(gods[j]) == Info(env, cfg, gods[j]);
    var infos := Traverse(gods, f);
    assert infos.Ok?;
    InfosOfGods(env, cfg, gods);
    assert IsLastLongest(infos.value, k);
    LastLongestUnique(infos.value, k, LastLongest(infos.value));
    SolutionMeaning(env, cfg);
  }

  /** An empty list of gods makes no tuple, and the solution completes
      without a value; a non-empty list that is measured gives a value. */
  lemma NoGodsNoValue(env: Env, cfg: Config)
    ensures ReactorSolution(env, cfg) == Ok(None) <==> GreekGods(env, cfg) == Ok([])
  {
    SolutionMeaning(env, cfg);
    var gods := GreekGods(env, cfg);
    if gods.Ok? && Traverse(gods.value, Informer(env, cfg)).Ok? {
      assert |Traverse(gods.value, Informer(env, cfg)).value| == |gods.value|;
    }
  }

  /** The solution fails exactly when reading the list fails or some god's
      page cannot be fetched; there is no fallback. */
  lemma SolutionFails(env: Env, cfg: Config)
    ensures ReactorSolution(env, cfg).Err? <==>
              || GreekGods(env, cfg).Err?
              || exists i :: 0 <= i < |GreekGods(env, cfg).value| && Measure(env, cfg, GreekGods(env, cfg).value[i]).Err?
  {
    SolutionMeaning(env, cfg);
    var gods := GreekGods(env, cfg);
    if gods.Ok? {
      var f := Informer(env, cfg);
      assert forall j :: 0 <= j < |gods.value| ==> f(gods.value[j]) == Info(env, cfg, gods.value[j]);
    }
  }
}
