/** The reactor LatencyProblem01 class: the sources are fetched one after
    the other in list order, a source that does not answer in time switches
    the flux to DEFAULT_FALLBACK, and the four entry points differ in what
    they do with an exception. */
module ReactorLatency01 {
  import opened Base
  import opened Codec
  import opened Streams
  import opened Remote

  /** DEFAULT_FALLBACK: a text that is not a JSON array. */
  const DefaultFallback: JString := "{[]}"

  /** Flux.range(0, limit).map(i -> toURL.andThen(fetch).apply(list.get(i)))
      followed by timeout(d, DEFAULT_FALLBACK): the bodies in list order. An
      index past the list, a bad address or a failed fetch ends the flux
      with its exception; a source that does not answer in time cancels the
      rest and the fallback delivers "{[]}" and completes. */
  function FetchFlux(env: Env, addrs: seq<Address>, limit: nat): Trace<JString>
    decreases limit
  {
    if limit == 0 then Just([])
    else if addrs == [] then Raise(IndexOutOfBounds)
    else match ToUrl(env, addrs[0])
      case Err(e) => Raise(e)
      case Ok(url) =>
        match env.fetch(url)
        case Failure => Raise(FetchError)
        case Late(_) => Just([DefaultFallback])
        case Response(b) => Then(Just([b]), FetchFlux(env, addrs[1..], limit - 1))
  }

  /** asyncFetchFlux: the fetched bodies through serializeFlux, with the
      first exception replaced by the fallback flux. */
  function AsyncFetchFlux(env: Env, addrs: seq<Address>, limit: nat): Trace<JString>
  {
    OnErrorResume(FlatMap(FetchFlux(env, addrs, limit), FluxSerializer(env)), Just([DefaultFallback]))
  }

  /** filterGodsFlux: the guarded godStartingByn. */
  function FilterGodsFlux(t: Trace<JString>): Trace<JString>
  {
    Filter(t, GodStartingByNGuarded)
  }

  /** sumFlux: the encodings added up from zero. */
  function SumFlux(t: Trace<JString>): Result<nat>
  {
    SumEncodings(t)
  }

  /** reactorSolution: any exception becomes zero (onErrorReturn), and
      next() takes the one value. */
  function ReactorSolution(env: Env, addrs: seq<Address>): nat
  {
    OrElse(SumFlux(FilterGodsFlux(FlatMap(FetchFlux(env, addrs, |addrs|), FluxSerializer(env)))), 0)
  }

  /** reactorSolutionLarge: the first exception is replaced by the fallback
      flux before the filter. */
  function ReactorSolutionLarge(env: Env, addrs: seq<Address>): nat
  {
    var recovered := OnErrorResume(FlatMap(FetchFlux(env, addrs, |addrs|), FluxSerializer(env)), Just([DefaultFallback]));
    OrElse(Reduce(MapOrFail(Filter(recovered, GodStartingByNGuarded), EncodeOrFail), 0), 0)
  }

  /** reactorSolutionSequential: no recovery at all. */
  function ReactorSolutionSequential(env: Env, addrs: seq<Address>): Result<nat>
  {
    Reduce(MapOrFail(Filter(FlatMap(FetchFlux(env, addrs, |addrs|), FluxSerializer(env)), GodStartingByNGuarded), EncodeOrFail), 0)
  }

  /** reactorSolutionFunctionalComposition:
      asyncFetchFlux.andThen(filterGodsFlux).andThen(sumFlux). */
  function ReactorSolutionFunctionalComposition(env: Env, addrs: seq<Address>): Result<nat>
  {
    SumFlux(FilterGodsFlux(AsyncFetchFlux(env, addrs, |addrs|)))
  }

  // ---------------------------------------------------------------------
  // Reference: what each source contributes, without fluxes.

  /** The names one source delivers, or the exception it raises; a source
      that does not answer in time raises the one reading "{[]}" raises. */
  function SourceItems(env: Env, a: Address): Result<seq<JString>>
  {
    if !env.validUrl(a) then Err(BadAddress)
    else match env.fetch(a)
      case Failure => Err(FetchError)
      case Late(_) => Err(BadSerialization)
      case Response(b) => BodyItems(env, b)
  }

  function SourceSum(env: Env, a: Address): Result<nat>
  {
    match SourceItems(env, a)
    case Err(e) => Err(e)
    case Ok(items) => Ok(MatchSum(items))
  }

  /** Every source's contribution added in list order; the first exception
      wins. */
  function Expected(env: Env, addrs: seq<Address>): Result<nat>
  {
    if addrs == [] then Ok(0) else Plus(SourceSum(env, addrs[0]), Expected(env, addrs[1..]))
  }

  /** The contributions of the sources before the first one that raises. */
  function PrefixSum(env: Env, addrs: seq<Address>): nat
  {
    if addrs == [] then 0
    else match SourceSum(env, addrs[0])
      case Err(_) => 0
      case Ok(v) => v + PrefixSum(env, addrs[1..])
  }

  /** The serialized flux of the whole list is, source by source, the
      reference names, and stops at the first source that raises. */
  lemma SerializedHead(env: Env, addrs: seq<Address>)
    requires ConformingParser(env.parse)
    requires addrs != []
    ensures SourceItems(env, addrs[0]).Err? ==>
              FlatMap(FetchFlux(env, addrs, |addrs|), FluxSerializer(env)) == Raise(SourceItems(env, addrs[0]).error)
    ensures SourceItems(env, addrs[0]).Ok? ==>
              FlatMap(FetchFlux(env, addrs, |addrs|), FluxSerializer(env))
              == Then(Just(SourceItems(env, addrs[0]).value), FlatMap(FetchFlux(env, addrs[1..], |addrs[1..]|), FluxSerializer(env)))
  {
    var f := FetchFlux(env, addrs, |addrs|);
    var a := addrs[0];
    if env.validUrl(a) {
      match env.fetch(a)
      case Failure =>
      case Late(_) =>
        var none: seq<JString> := [];
        assert f.items[1..] == none;
        assert FluxSerializer(env)(DefaultFallback) == Raise(BadSerialization);
      case Response(b) =>
        var rest := FetchFlux(env, addrs[1..], |addrs[1..]|);
        assert |addrs[1..]| == |addrs| - 1;
        assert Trace(f.items[1..], f.end) == rest;
        assert FluxSerializer(env)(b) == SerializeFlux(env, b);
        SerializeFluxItems(env, b);
    }
  }

  lemma {:induction false} SerializedSum(env: Env, addrs: seq<Address>)
    requires ConformingParser(env.parse)
    ensures SumFlux(FilterGodsFlux(FlatMap(FetchFlux(env, addrs, |addrs|), FluxSerializer(env)))) == Expected(env, addrs)
    decreases |addrs|
  {
    if addrs == [] {
      ReduceSeed(MapOrFail(Just([]), EncodeOrFail), 0);
    } else {
      SerializedHead(env, addrs);
      match SourceItems(env, addrs[0])
      case Err(e) =>
        ReduceSeed(MapOrFail(Raise(e), EncodeOrFail), 0);
      case Ok(items) =>
        var tail := FlatMap(FetchFlux(env, addrs[1..], |addrs[1..]|), FluxSerializer(env));
        FilterThen(Just(items), tail, GodStartingByNGuarded);
        SumEncodingsThen(FilterGodsFlux(Just(items)), FilterGodsFlux(tail));
        SumOfFilter(items);
        SerializedSum(env, addrs[1..]);
    }
  }

  /** Which end a stream has does not change which items a filter keeps. */
  lemma {:induction false} FilterItems(xs: seq<JString>, e1: End, e2: End)
    ensures Filter(Trace(xs, e1), GodStartingByNGuarded).items == Filter(Trace(xs, e2), GodStartingByNGuarded).items
    decreases |xs|
  {
    if xs != [] {
      FilterItems(xs[1..], e1, e2);
    }
  }

  /** After onErrorResume with the fallback, the filter sees the items
      before the exception and then "{[]}", which it drops. */
  lemma FilterRecovered(t: Trace<JString>)
    ensures FilterGodsFlux(OnErrorResume(t, Just([DefaultFallback]))) == Trace(FilterGodsFlux(t).items, Complete)
  {
    if t.end.Failed? {
      var a := Trace(t.items, Complete);
      var fb := Just([DefaultFallback]);
      assert OnErrorResume(t, fb) == Then(a, fb);
      FilterThen(a, fb, GodStartingByNGuarded);
      FilterItems(t.items, Complete, t.end);
      var none: seq<JString> := [];
      assert fb.items[1..] == none;
      assert FilterGodsFlux(fb) == Just(none);
    }
  }

  /** What the filter keeps of one source's names, followed by the rest. */
  lemma RecoveredThen(items: seq<JString>, tail: Trace<JString>)
    ensures SumFlux(Trace(FilterGodsFlux(Then(Just(items), tail)).items, Complete))
         == Plus(Ok(MatchSum(items)), SumFlux(Trace(FilterGodsFlux(tail).items, Complete)))
  {
    var x := FilterGodsFlux(Just(items));
    var y := Trace(FilterGodsFlux(tail).items, Complete);
    FilterThen(Just(items), tail, GodStartingByNGuarded);
    assert Trace(FilterGodsFlux(Then(Just(items), tail)).items, Complete) == Then(x, y);
    SumEncodingsThen(x, y);
    SumOfFilter(items);
  }

  /** The serialized flux of the list, filtered and recovered, names by
      names. */
  function Kept(env: Env, addrs: seq<Address>): Trace<JString>
  {
    Trace(FilterGodsFlux(FlatMap(FetchFlux(env, addrs, |addrs|), FluxSerializer(env))).items, Complete)
  }

  lemma KeptHeadFails(env: Env, addrs: seq<Address>)
    requires ConformingParser(env.parse)
    requires addrs != [] && SourceItems(env, addrs[0]).Err?
    ensures SumFlux(Kept(env, addrs)) == Ok(0) && PrefixSum(env, addrs) == 0
  {
    SerializedHead(env, addrs);
    var none: seq<JString> := [];
    assert Kept(env, addrs) == Just(none);
    ReduceSeed(MapOrFail(Just(none), EncodeOrFail), 0);
  }

  lemma KeptHeadSucceeds(env: Env, addrs: seq<Address>)
    requires ConformingParser(env.parse)
    requires addrs != [] && SourceItems(env, addrs[0]).Ok?
    ensures SumFlux(Kept(env, addrs)) == Plus(Ok(MatchSum(SourceItems(env, addrs[0]).value)), SumFlux(Kept(env, addrs[1..])))
    ensures PrefixSum(env, addrs) == MatchSum(SourceItems(env, addrs[0]).value) + PrefixSum(env, addrs[1..])
  {
    var items := SourceItems(env, addrs[0]).value;
    var rest := addrs[1..];
    var tail := FlatMap(FetchFlux(env, rest, |rest|), FluxSerializer(env));
    SerializedHead(env, addrs);
    assert FlatMap(FetchFlux(env, addrs, |addrs|), FluxSerializer(env)) == Then(Just(items), tail);
    RecoveredThen(items, tail);
    assert Kept(env, rest) == Trace(FilterGodsFlux(tail).items, Complete);
    assert SourceSum(env, addrs[0]) == Ok(MatchSum(items));
  }

  lemma KeptEmpty(env: Env)
    ensures SumFlux(Kept(env, [])) == Ok(0)
  {
    var none: seq<JString> := [];
    assert Kept(env, []) == Just(none);
    ReduceSeed(MapOrFail(Just(none), EncodeOrFail), 0);
  }

  /** The arithmetic of one induction step, on values alone. */
  lemma AddHead(k: Result<nat>, kr: Result<nat>, m: nat, pr: nat, p: nat)
    requires k == Plus(Ok(m), kr) && kr == Ok(pr) && p == m + pr
    ensures k == Ok(p)
  {
  }

  lemma {:induction false} RecoveredSum(env: Env, addrs: seq<Address>)
    requires ConformingParser(env.parse)
    ensures SumFlux(Kept(env, addrs)) == Ok(PrefixSum(env, addrs))
    decreases |addrs|
  {
    if addrs == [] {
      KeptEmpty(env);
    } else {
      var k, p := SumFlux(Kept(env, addrs)), PrefixSum(env, addrs);
      var src := SourceItems(env, addrs[0]);
      if src.Ok? {
        var rest := addrs[1..];
        var kr, pr := SumFlux(Kept(env, rest)), PrefixSum(env, rest);
        KeptHeadSucceeds(env, addrs);
        RecoveredSum(env, rest);
        AddHead(k, kr, MatchSum(src.value), pr, p);
      } else {
        KeptHeadFails(env, addrs);
        assert k == Ok(0) && p == 0;
      }
    }
  }

  // ---------------------------------------------------------------------
  // The four entry points.

  /** reactorSolutionSequential propagates the first exception and
      otherwise adds every source's names starting with n. */
  lemma SequentialMeaning(env: Env, addrs: seq<Address>)
    requires ConformingParser(env.parse)
    ensures ReactorSolutionSequential(env, addrs) == Expected(env, addrs)
  {
    SerializedSum(env, addrs);
  }

  /** reactorSolution is the same sum when nothing fails and exactly zero,
      not a partial sum, when anything does. */
  lemma SolutionMeaning(env: Env, addrs: seq<Address>)
    requires ConformingParser(env.parse)
    ensures Expected(env, addrs).Ok? ==> ReactorSolution(env, addrs) == Expected(env, addrs).value
    ensures Expected(env, addrs).Err? ==> ReactorSolution(env, addrs) == 0
  {
    SerializedSum(env, addrs);
  }

  /** asyncFetchFlux, filtered and summed, never fails: it adds the sources
      before the first one that raises. */
  lemma FunctionalCompositionMeaning(env: Env, addrs: seq<Address>)
    requires ConformingParser(env.parse)
    ensures ReactorSolutionFunctionalComposition(env, addrs) == Ok(PrefixSum(env, addrs))
  {
    FilterRecovered(FlatMap(FetchFlux(env, addrs, |addrs|), FluxSerializer(env)));
    RecoveredSum(env, addrs);
    assert FilterGodsFlux(AsyncFetchFlux(env, addrs, |addrs|)) == Kept(env, addrs);
  }

  /** reactorSolutionLarge truncates at the first exception. */
  lemma LargeMeaning(env: Env, addrs: seq<Address>)
    requires ConformingParser(env.parse)
    ensures ReactorSolutionLarge(env, addrs) == PrefixSum(env, addrs)
  {
    FunctionalCompositionMeaning(env, addrs);
  }

  /** When every source succeeds, the prefix before the first failure is
      the whole list. */
  lemma {:induction false} PrefixSumOfSuccess(env: Env, addrs: seq<Address>)
    requires Expected(env, addrs).Ok?
    ensures PrefixSum(env, addrs) == Expected(env, addrs).value
    decreases |addrs|
  {
    if addrs != [] {
      PrefixSumOfSuccess(env, addrs[1..]);
    }
  }

  /** The four entry points agree when nothing fails. */
  lemma EntryPointsAgree(env: Env, addrs: seq<Address>)
    requires ConformingParser(env.parse)
    requires Expected(env, addrs).Ok?
    ensures ReactorSolution(env, addrs) == ReactorSolutionLarge(env, addrs) == Expected(env, addrs).value
    ensures ReactorSolutionSequential(env, addrs) == ReactorSolutionFunctionalComposition(env, addrs) == Expected(env, addrs)
  {
    SolutionMeaning(env, addrs);
    SequentialMeaning(env, addrs);
    LargeMeaning(env, addrs);
    FunctionalCompositionMeaning(env, addrs);
    PrefixSumOfSuccess(env, addrs);
  }

  /** A first source that misses its deadline: three entry points give 0,
      and reactorSolutionSequential throws, because the timeout's fallback
      "{[]}" is not a JSON array. */
  lemma SlowFirstSource(env: Env, addrs: seq<Address>)
    requires ConformingParser(env.parse)
    requires addrs != [] && env.validUrl(addrs[0]) && env.fetch(addrs[0]).Late?
    ensures ReactorSolution(env, addrs) == ReactorSolutionLarge(env, addrs) == 0
    ensures ReactorSolutionFunctionalComposition(env, addrs) == Ok(0)
    ensures ReactorSolutionSequential(env, addrs) == Err(BadSerialization)
  {
  }
}
