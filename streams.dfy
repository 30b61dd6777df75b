/** What a java.util.stream.Stream or a Reactor Flux delivers when it is
    consumed: its items in order, then either completion or the exception
    that ended it. Both kinds of stream are pulled (or pushed) one item at a
    time, so an operator sees the items before a failure, and the first
    failure in that order is the one the consumer gets. The operators below
    are the ones the pipelines chain, each on a finished trace. */
module Streams {
  import opened Base
  import opened Codec

  datatype End = Complete | Failed(error: Error)

  datatype Trace<T> = Trace(items: seq<T>, end: End)

  /** Flux.just / Stream.of: the items, then completion. */
  function Just<T>(items: seq<T>): Trace<T>
  {
    Trace(items, Complete)
  }

  /** A stream that fails before delivering anything. */
  function Raise<T>(e: Error): Trace<T>
  {
    Trace([], Failed(e))
  }

  /** One stream followed by another: the second is reached only when the
      first completes. */
  function Then<T>(a: Trace<T>, b: Trace<T>): Trace<T>
  {
    if a.end.Failed? then a else Trace(a.items + b.items, b.end)
  }

  /** flatMap: the inner stream of every item, one after the other. */
  function FlatMap<T, U>(t: Trace<T>, f: T -> Trace<U>): (r: Trace<U>)
    ensures t.end.Failed? ==> r.end.Failed?
    decreases |t.items|
  {
    if t.items == [] then Trace([], t.end)
    else Then(f(t.items[0]), FlatMap(Trace(t.items[1..], t.end), f))
  }

  /** filter with a predicate that cannot throw. */
  function Filter<T>(t: Trace<T>, p: T -> bool): (r: Trace<T>)
    ensures r.end == t.end
    ensures |r.items| <= |t.items|
    decreases |t.items|
  {
    if t.items == [] then t
    else
      var rest := Filter(Trace(t.items[1..], t.end), p);
      if p(t.items[0]) then Trace([t.items[0]] + rest.items, rest.end) else rest
  }

  /** filter with a predicate that may throw: the first item it throws on
      ends the stream with that exception. */
  function FilterOrFail<T>(t: Trace<T>, p: T -> Result<bool>): (r: Trace<T>)
    ensures |r.items| <= |t.items|
    ensures t.end.Failed? ==> r.end.Failed?
    decreases |t.items|
  {
    if t.items == [] then t
    else match p(t.items[0])
      case Err(e) => Raise(e)
      case Ok(keep) =>
        var rest := FilterOrFail(Trace(t.items[1..], t.end), p);
        if keep then Trace([t.items[0]] + rest.items, rest.end) else rest
  }

  /** map with a function that may throw. */
  function MapOrFail<T, U>(t: Trace<T>, f: T -> Result<U>): (r: Trace<U>)
    ensures |r.items| <= |t.items|
    ensures t.end.Failed? ==> r.end.Failed?
    decreases |t.items|
  {
    if t.items == [] then Trace([], t.end)
    else match f(t.items[0])
      case Err(e) => Raise(e)
      case Ok(v) =>
        var rest := MapOrFail(Trace(t.items[1..], t.end), f);
        Trace([v] + rest.items, rest.end)
  }

  /** reduce(seed, add): a left fold that reports the exception that ended
      the stream instead of a value. */
  function Reduce(t: Trace<nat>, seed: nat): Result<nat>
    decreases |t.items|
  {
    if t.items == [] then (if t.end.Complete? then Ok(seed) else Err(t.end.error))
    else Reduce(Trace(t.items[1..], t.end), seed + t.items[0])
  }

  /** onErrorResume with a constant fallback stream. */
  function OnErrorResume<T>(t: Trace<T>, fallback: Trace<T>): (r: Trace<T>)
    ensures t.end.Complete? ==> r == t
    ensures t.end.Failed? ==> r.items == t.items + fallback.items && r.end == fallback.end
  {
    if t.end.Failed? then Trace(t.items + fallback.items, fallback.end) else t
  }

  /** next(): the first item, nothing for a stream that completes empty,
      or the exception that ends an empty stream. */
  function Next<T>(t: Trace<T>): (r: Result<Option<T>>)
    ensures r.Ok? && r.value.Some? <==> t.items != []
    ensures r == Ok(None) <==> t == Trace([], Complete)
    ensures t.items != [] ==> r == Ok(Some(t.items[0]))
    ensures t.items == [] && t.end.Failed? ==> r == Err(t.end.error)
  {
    if t.items != [] then Ok(Some(t.items[0]))
    else if t.end.Complete? then Ok(None)
    else Err(t.end.error)
  }

  /** The sum of a list of numbers. */
  function Total(xs: seq<nat>): nat
  {
    if xs == [] then 0 else xs[0] + Total(xs[1..])
  }

  /** toDigits.andThen(concatDigits).andThen(BigInteger::new) as a step that
      may throw. */
  function EncodeOrFail(s: JString): (r: Result<nat>)
    ensures r.Err? <==> s == []
    ensures r.Ok? ==> r.value == Code(s)
  {
    match Encode(s)
    case None => Err(NumberFormat)
    case Some(v) => Ok(v)
  }

  /** map(encode).reduce(BigInteger.ZERO, BigInteger::add): the sum step of
      every LatencyProblem01 pipeline. */
  function SumEncodings(t: Trace<JString>): Result<nat>
  {
    Reduce(MapOrFail(t, EncodeOrFail), 0)
  }

  // ---------------------------------------------------------------------
  // flatMap, both filters, map and the sum are compatible with Then: each
  // treats the first part of a stream and then the rest, which is how one
  // source after another passes through a pipeline. reduce is described by
  // ReduceSeed; onErrorResume and next are stated by their own contracts.

  lemma {:induction false} TotalAppend(a: seq<nat>, b: seq<nat>)
    ensures Total(a + b) == Total(a) + Total(b)
    decreases |a|
  {
    if a == [] {
      assert a + b == b;
    } else {
      assert (a + b)[1..] == a[1..] + b;
      TotalAppend(a[1..], b);
    }
  }

  /** The seed of the fold only shifts the result. */
  lemma {:induction false} ReduceSeed(t: Trace<nat>, seed: nat)
    ensures Reduce(t, seed) == if t.end.Failed? then Err(t.end.error) else Ok(seed + Total(t.items))
    decreases |t.items|
  {
    if t.items != [] {
      ReduceSeed(Trace(t.items[1..], t.end), seed + t.items[0]);
    }
  }

  /** Then is associative: the parts of a stream can be grouped either way. */
  lemma ThenAssoc<T>(p: Trace<T>, q: Trace<T>, r: Trace<T>)
    ensures Then(Then(p, q), r) == Then(p, Then(q, r))
  {
    if !p.end.Failed? && !q.end.Failed? {
      assert p.items + q.items + r.items == p.items + (q.items + r.items);
    }
  }

  /** flatMap distributes over a stream made of two parts. */
  lemma {:induction false} FlatMapThen<T, U>(a: Trace<T>, b: Trace<T>, f: T -> Trace<U>)
    ensures FlatMap(Then(a, b), f) == Then(FlatMap(a, f), FlatMap(b, f))
    decreases |a.items|
  {
    if a.items == [] && !a.end.Failed? {
      assert Then(a, b) == b;
      assert FlatMap(a, f).items + FlatMap(b, f).items == FlatMap(b, f).items;
    } else if a.items != [] && !a.end.Failed? {
      var x, rest, ab := a.items[0], Trace(a.items[1..], a.end), Then(a, b);
      assert ab.items[0] == x && ab.items[1..] == rest.items + b.items;
      assert Trace(ab.items[1..], ab.end) == Then(rest, b);
      assert FlatMap(ab, f) == Then(f(x), FlatMap(Then(rest, b), f));
      FlatMapThen(rest, b, f);
      ThenAssoc(f(x), FlatMap(rest, f), FlatMap(b, f));
    }
  }

  lemma {:induction false} FilterThen<T>(a: Trace<T>, b: Trace<T>, p: T -> bool)
    ensures Filter(Then(a, b), p) == Then(Filter(a, p), Filter(b, p))
    decreases |a.items|
  {
    if a.end.Complete? && a.items == [] {
      assert Then(a, b) == b;
    } else if a.end.Complete? {
      var h := a.items[0];
      var a' := Trace(a.items[1..], a.end);
      var ab := Then(a, b);
      assert ab.items[0] == h;
      assert Trace(ab.items[1..], ab.end) == Then(a', b);
      FilterThen(a', b, p);
      var fa', fb := Filter(a', p), Filter(b, p);
      if p(h) {
        assert Filter(a, p) == Trace([h] + fa'.items, Complete);
        assert Filter(ab, p).items == [h] + (fa'.items + fb.items);
        assert [h] + (fa'.items + fb.items) == ([h] + fa'.items) + fb.items;
      } else {
        assert Filter(a, p) == fa';
      }
    }
  }

  lemma {:induction false} FilterOrFailThen<T>(a: Trace<T>, b: Trace<T>, p: T -> Result<bool>)
    ensures FilterOrFail(Then(a, b), p) == Then(FilterOrFail(a, p), FilterOrFail(b, p))
    decreases |a.items|
  {
    if a.end.Complete? && a.items == [] {
      assert Then(a, b) == b;
    } else if a.end.Complete? {
      var h := a.items[0];
      var a' := Trace(a.items[1..], a.end);
      var ab := Then(a, b);
      assert ab.items[0] == h;
      assert Trace(ab.items[1..], ab.end) == Then(a', b);
      if p(h).Ok? {
        FilterOrFailThen(a', b, p);
        var fa', fb := FilterOrFail(a', p), FilterOrFail(b, p);
        if p(h).value {
          assert FilterOrFail(a, p) == Trace([h] + fa'.items, fa'.end);
          if fa'.end.Complete? {
            assert FilterOrFail(ab, p).items == [h] + (fa'.items + fb.items);
            assert [h] + (fa'.items + fb.items) == ([h] + fa'.items) + fb.items;
          }
        } else {
          assert FilterOrFail(a, p) == fa';
        }
      }
    }
  }

  lemma {:induction false} MapOrFailThen<T, U>(a: Trace<T>, b: Trace<T>, f: T -> Result<U>)
    ensures MapOrFail(Then(a, b), f) == Then(MapOrFail(a, f), MapOrFail(b, f))
    decreases |a.items|
  {
    if a.end.Complete? && a.items == [] {
      assert Then(a, b) == b;
    } else if a.end.Complete? {
      var h := a.items[0];
      var a' := Trace(a.items[1..], a.end);
      var ab := Then(a, b);
      assert ab.items[0] == h;
      assert Trace(ab.items[1..], ab.end) == Then(a', b);
      if f(h).Ok? {
        var v := f(h).value;
        MapOrFailThen(a', b, f);
        var ma', mb := MapOrFail(a', f), MapOrFail(b, f);
        assert MapOrFail(a, f) == Trace([v] + ma'.items, ma'.end);
        if ma'.end.Complete? {
          assert MapOrFail(ab, f).items == [v] + (ma'.items + mb.items);
          assert [v] + (ma'.items + mb.items) == ([v] + ma'.items) + mb.items;
        }
      }
    }
  }

  /** Summing a stream made of two parts adds the two partial sums, and an
      exception in the first part wins over everything after it. */
  lemma SumEncodingsThen(a: Trace<JString>, b: Trace<JString>)
    ensures SumEncodings(Then(a, b)) == Plus(SumEncodings(a), SumEncodings(b))
  {
    var ma := MapOrFail(a, EncodeOrFail);
    var mb := MapOrFail(b, EncodeOrFail);
    MapOrFailThen(a, b, EncodeOrFail);
    ReduceSeed(ma, 0);
    ReduceSeed(mb, 0);
    ReduceSeed(Then(ma, mb), 0);
    TotalAppend(ma.items, mb.items);
  }

  /** A single non-empty name sums to its code. */
  lemma SumEncodingsOne(x: JString)
    requires x != []
    ensures SumEncodings(Just([x])) == Ok(Code(x))
  {
    var t := Just([x]);
    var none: seq<JString> := [];
    assert t.items[1..] == none;
    assert MapOrFail(Trace(t.items[1..], Complete), EncodeOrFail) == Just([]);
    var m := MapOrFail(t, EncodeOrFail);
    assert m == Just([Code(x)]);
    ReduceSeed(m, 0);
    assert Total([Code(x)]) == Code(x) + Total([]);
  }

  predicate HasEmpty(items: seq<JString>)
  {
    exists i :: 0 <= i < |items| && items[i] == []
  }

  /** The position of the first empty name, or the length of the list when
      there is none. */
  function BeforeEmpty(items: seq<JString>): (k: nat)
    ensures k <= |items|
    ensures forall j :: 0 <= j < k ==> items[j] != []
    ensures k < |items| ==> items[k] == []
    ensures k < |items| <==> HasEmpty(items)
    decreases |items|
  {
    if items == [] then 0
    else if items[0] == [] then 0
    else 1 + BeforeEmpty(items[1..])
  }

  /** filter(godStartingByn) in the reactor form, on a flux of names: it
      delivers exactly the selected names and ends as the flux does. */
  lemma {:induction false} FilterNames(items: seq<JString>, e: End)
    ensures Filter(Trace(items, e), GodStartingByNGuarded) == Trace(Select(items), e)
    decreases |items|
  {
    if items != [] {
      assert Trace(items, e).items[1..] == items[1..];
      FilterNames(items[1..], e);
    }
  }

  /** filter(godStartingByn) in the java and rxjava form, on a list of
      names: the selected names before the first empty one, then the
      exception charAt(0) throws on it; with no empty name, exactly the
      selected names, then completion. */
  lemma {:induction false} FilterOrFailNames(items: seq<JString>)
    ensures var k := BeforeEmpty(items);
            FilterOrFail(Just(items), GodStartingByN)
            == Trace(Select(items[..k]), if k < |items| then Failed(StringIndexOutOfBounds) else Complete)
    ensures !HasEmpty(items) ==> FilterOrFail(Just(items), GodStartingByN) == Just(Select(items))
    decreases |items|
  {
    if items != [] {
      var x, rest := items[0], items[1..];
      assert Trace(items[1..], Complete) == Just(rest);
      if x != [] {
        FilterOrFailNames(rest);
        var k := BeforeEmpty(rest);
        assert items[..1 + k] == [x] + rest[..k];
        assert ([x] + rest[..k])[1..] == rest[..k];
      }
    }
    assert items[..|items|] == items;
  }

  /** filter(godStartingByn) then the sum, in the java and rxjava form: the
      first empty name throws, otherwise the result is the reference sum. */
  lemma {:induction false} SumOfFilterOrFail(items: seq<JString>)
    ensures SumEncodings(FilterOrFail(Just(items), GodStartingByN))
         == if HasEmpty(items) then Err(StringIndexOutOfBounds) else Ok(MatchSum(items))
    decreases |items|
  {
    if items != [] {
      var x := items[0];
      var rest := items[1..];
      assert Trace(items[1..], Complete) == Just(rest);
      assert HasEmpty(items) <==> x == [] || HasEmpty(rest) by {
        if HasEmpty(rest) {
          var i :| 0 <= i < |rest| && rest[i] == [];
          assert items[i + 1] == [];
        }
        if HasEmpty(items) && x != [] {
          var i :| 0 <= i < |items| && items[i] == [];
          assert rest[i - 1] == [];
        }
      }
      if x != [] {
        var r := FilterOrFail(Just(rest), GodStartingByN);
        SumOfFilterOrFail(rest);
        if IsNName(x) {
          assert Trace([x] + r.items, r.end) == Then(Just([x]), r);
          SumEncodingsThen(Just([x]), r);
          SumEncodingsOne(x);
        }
      }
    }
  }

  /** filter(godStartingByn) then the sum, in the reactor form: the guard
      drops the empty names, so the result is always the reference sum. */
  lemma {:induction false} SumOfFilter(items: seq<JString>)
    ensures SumEncodings(Filter(Just(items), GodStartingByNGuarded)) == Ok(MatchSum(items))
    decreases |items|
  {
    if items == [] {
      ReduceSeed(MapOrFail(Just(items), EncodeOrFail), 0);
    } else {
      var x := items[0];
      var rest := items[1..];
      assert Trace(items[1..], Complete) == Just(rest);
      var r := Filter(Just(rest), GodStartingByNGuarded);
      SumOfFilter(rest);
      if IsNName(x) {
        assert Trace([x] + r.items, r.end) == Then(Just([x]), r);
        SumEncodingsThen(Just([x]), r);
        SumEncodingsOne(x);
      }
    }
  }

  /** Reference for a map that may throw, over a list: every value, or the
      first exception in list order. */
  function Traverse<T, U>(xs: seq<T>, f: T -> Result<U>): (r: Result<seq<U>>)
    ensures r.Ok? ==> |r.value| == |xs| && forall i :: 0 <= i < |xs| ==> f(xs[i]) == Ok(r.value[i])
    ensures r.Err? <==> exists i :: 0 <= i < |xs| && f(xs[i]).Err?
    ensures r.Err? ==> exists k :: 0 <= k < |xs| && f(xs[k]) == Err(r.error) &&
                                   forall i :: 0 <= i < k ==> f(xs[i]).Ok?
    decreases |xs|
  {
    if xs == [] then Ok([])
    else
      var rest := Traverse(xs[1..], f);
      assert forall i :: 1 <= i < |xs| ==> xs[i] == xs[1..][i - 1];
      match f(xs[0])
      case Err(e) => Err(e)
      case Ok(v) =>
        if rest.Err? then Err(rest.error) else Ok([v] + rest.value)
  }

  /** map over a list that may throw delivers exactly the reference values,
      or ends with the first exception. */
  lemma {:induction false} MapOrFailJust<T, U>(xs: seq<T>, f: T -> Result<U>)
    ensures Traverse(xs, f).Ok? ==> MapOrFail(Just(xs), f) == Just(Traverse(xs, f).value)
    ensures Traverse(xs, f).Err? ==> MapOrFail(Just(xs), f).end == Failed(Traverse(xs, f).error)
    decreases |xs|
  {
    if xs != [] {
      assert Trace(xs[1..], Complete) == Just(xs[1..]);
      MapOrFailJust(xs[1..], f);
    }
  }
}
