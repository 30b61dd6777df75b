/** The pipeline the java and the rxjava LatencyProblem01 classes share:
    fetchListAsync, then filterGods, then sum, composed with andThen. The
    two classes differ only in how their fetchAsync turns the outcome of a
    fetch into a payload, which is a parameter here. */
module JavaPipeline {
  import opened Base
  import opened Codec
  import opened Streams
  import opened Remote

  /** The payload fetchAsync yields for every address, joined in address
      order. */
  function Payloads(env: Env, addrs: seq<Address>, fetchAsync: FetchOutcome -> JString): (ps: seq<JString>)
    ensures |ps| == |addrs|
    ensures forall i :: 0 <= i < |addrs| ==> ps[i] == fetchAsync(env.fetch(addrs[i]))
  {
    if addrs == [] then []
    else
      var rest := Payloads(env, addrs[1..], fetchAsync);
      assert forall i :: 1 <= i < |addrs| ==> addrs[i] == addrs[1..][i - 1];
      [fetchAsync(env.fetch(addrs[0]))] + rest
  }

  /** fetchListAsync: every address passes through toURL while the futures
      are collected into a list, so one bad address fails the call before
      any payload is read; the payloads are then joined in address order
      and flattened through serialize. */
  function FetchListAsync(env: Env, addrs: seq<Address>, fetchAsync: FetchOutcome -> JString): (t: Trace<JString>)
    ensures !AllValid(env, addrs) ==> t == Raise(BadAddress)
  {
    if !AllValid(env, addrs) then Raise(BadAddress)
    else FlatMap(Just(Payloads(env, addrs, fetchAsync)), Serializer(env))
  }

  /** filterGods: godStartingByn without a guard, so an empty name throws. */
  function FilterGods(t: Trace<JString>): Trace<JString>
  {
    FilterOrFail(t, GodStartingByN)
  }

  /** sum: the encodings added up from zero. */
  function Sum(t: Trace<JString>): Result<nat>
  {
    SumEncodings(t)
  }

  /** fetchListAsync.andThen(filterGods).andThen(sum). */
  function Solution(env: Env, addrs: seq<Address>, fetchAsync: FetchOutcome -> JString): Result<nat>
  {
    Sum(FilterGods(FetchListAsync(env, addrs, fetchAsync)))
  }

  // ---------------------------------------------------------------------
  // Reference: what the pipeline computes, payload by payload, without
  // streams.

  /** What one payload adds: the codes of its names starting with n, or the
      exception reading it (not an array) or filtering it (an empty name)
      raises. */
  function PayloadResult(env: Env, p: JString): Result<nat>
  {
    match env.parse(p)
    case None => Err(BadSerialization)
    case Some(items) => if HasEmpty(items) then Err(StringIndexOutOfBounds) else Ok(MatchSum(items))
  }

  /** The payloads' contributions added in address order; the first
      exception wins. */
  function SourcesResult(env: Env, addrs: seq<Address>, fetchAsync: FetchOutcome -> JString): Result<nat>
  {
    if addrs == [] then Ok(0)
    else Plus(PayloadResult(env, fetchAsync(env.fetch(addrs[0]))), SourcesResult(env, addrs[1..], fetchAsync))
  }

  function Expected(env: Env, addrs: seq<Address>, fetchAsync: FetchOutcome -> JString): Result<nat>
  {
    if !AllValid(env, addrs) then Err(BadAddress) else SourcesResult(env, addrs, fetchAsync)
  }

  /** One payload, serialized, filtered and summed. */
  lemma SumOfPayload(env: Env, p: JString)
    ensures Sum(FilterGods(Serialize(env, p))) == PayloadResult(env, p)
  {
    match env.parse(p)
    case None =>
    case Some(items) => SumOfFilterOrFail(items);
  }

  lemma {:induction false} SumOfPayloads(env: Env, addrs: seq<Address>, fetchAsync: FetchOutcome -> JString)
    ensures Sum(FilterGods(FlatMap(Just(Payloads(env, addrs, fetchAsync)), Serializer(env))))
         == SourcesResult(env, addrs, fetchAsync)
    decreases |addrs|
  {
    var ps := Payloads(env, addrs, fetchAsync);
    if addrs == [] {
      ReduceSeed(MapOrFail(FilterGods(Just(ps)), EncodeOrFail), 0);
    } else {
      var rest := Payloads(env, addrs[1..], fetchAsync);
      assert ps[1..] == rest;
      var head := Serialize(env, ps[0]);
      var tail := FlatMap(Just(rest), Serializer(env));
      assert Serializer(env)(ps[0]) == head;
      assert FlatMap(Just(ps), Serializer(env)) == Then(head, tail);
      FilterOrFailThen(head, tail, GodStartingByN);
      SumEncodingsThen(FilterGods(head), FilterGods(tail));
      SumOfPayload(env, ps[0]);
      SumOfPayloads(env, addrs[1..], fetchAsync);
    }
  }

  /** The pipeline computes the reference: a bad address anywhere is an
      exception, otherwise the payloads' contributions in address order. */
  lemma SolutionMeaning(env: Env, addrs: seq<Address>, fetchAsync: FetchOutcome -> JString)
    ensures Solution(env, addrs, fetchAsync) == Expected(env, addrs, fetchAsync)
  {
    if AllValid(env, addrs) {
      SumOfPayloads(env, addrs, fetchAsync);
    }
  }

  lemma {:induction false} SourcesResultAppend(env: Env, a: seq<Address>, b: seq<Address>, fetchAsync: FetchOutcome -> JString)
    ensures SourcesResult(env, a + b, fetchAsync)
         == Plus(SourcesResult(env, a, fetchAsync), SourcesResult(env, b, fetchAsync))
    decreases |a|
  {
    if a == [] {
      assert a + b == b;
    } else {
      assert (a + b)[1..] == a[1..] + b;
      SourcesResultAppend(env, a[1..], b, fetchAsync);
    }
  }

  /** The result is an exception exactly when some payload raises one. */
  lemma {:induction false} SourcesResultFails(env: Env, addrs: seq<Address>, fetchAsync: FetchOutcome -> JString)
    ensures SourcesResult(env, addrs, fetchAsync).Err?
        <==> exists i :: 0 <= i < |addrs| && PayloadResult(env, fetchAsync(env.fetch(addrs[i]))).Err?
    decreases |addrs|
  {
    if addrs != [] {
      SourcesResultFails(env, addrs[1..], fetchAsync);
      assert forall i :: 1 <= i < |addrs| ==> addrs[i] == addrs[1..][i - 1];
    }
  }

  lemma AllValidWithout(env: Env, addrs: seq<Address>, i: nat)
    requires i < |addrs| && env.validUrl(addrs[i])
    ensures AllValid(env, addrs) <==> AllValid(env, addrs[..i] + addrs[i + 1..])
  {
    var rest := addrs[..i] + addrs[i + 1..];
    assert forall j :: 0 <= j < |rest| ==> rest[j] == addrs[if j < i then j else j + 1];
    assert forall j :: 0 <= j < |addrs| && j != i ==> addrs[j] == rest[if j < i then j else j - 1];
  }

  lemma SourcesResultWithout(env: Env, addrs: seq<Address>, i: nat, fetchAsync: FetchOutcome -> JString)
    requires i < |addrs|
    requires PayloadResult(env, fetchAsync(env.fetch(addrs[i]))) == Ok(0)
    ensures SourcesResult(env, addrs, fetchAsync) == SourcesResult(env, addrs[..i] + addrs[i + 1..], fetchAsync)
  {
    var front, back := addrs[..i], addrs[i + 1..];
    var none: seq<Address> := [];
    assert addrs == front + ([addrs[i]] + back);
    assert [addrs[i]][1..] == none;
    SourcesResultAppend(env, front, [addrs[i]] + back, fetchAsync);
    SourcesResultAppend(env, [addrs[i]], back, fetchAsync);
    SourcesResultAppend(env, front, back, fetchAsync);
  }

  /** A source whose payload adds nothing can be taken out of the list:
      "the process will calculate with the rest of the lists". */
  lemma NeutralSourceIgnored(env: Env, addrs: seq<Address>, i: nat, fetchAsync: FetchOutcome -> JString)
    requires i < |addrs|
    requires env.validUrl(addrs[i])
    requires PayloadResult(env, fetchAsync(env.fetch(addrs[i]))) == Ok(0)
    ensures Solution(env, addrs, fetchAsync) == Solution(env, addrs[..i] + addrs[i + 1..], fetchAsync)
  {
    SolutionMeaning(env, addrs, fetchAsync);
    SolutionMeaning(env, addrs[..i] + addrs[i + 1..], fetchAsync);
    AllValidWithout(env, addrs, i);
    SourcesResultWithout(env, addrs, i, fetchAsync);
  }

  /** Two ways of turning outcomes into payloads that agree on every
      outcome give the same pipeline. */
  lemma {:induction false} SameFetchAsync(env: Env, addrs: seq<Address>, f: FetchOutcome -> JString, g: FetchOutcome -> JString)
    requires forall o :: f(o) == g(o)
    ensures FetchListAsync(env, addrs, f) == FetchListAsync(env, addrs, g)
  {
    assert Payloads(env, addrs, f) == Payloads(env, addrs, g);
  }

  /** Two ways of turning outcomes into payloads whose payloads contribute
      the same on every address of the list give the same result. */
  lemma {:induction false} SameContributions(env: Env, addrs: seq<Address>, f: FetchOutcome -> JString, g: FetchOutcome -> JString)
    requires forall i :: 0 <= i < |addrs| ==>
               PayloadResult(env, f(env.fetch(addrs[i]))) == PayloadResult(env, g(env.fetch(addrs[i])))
    ensures Solution(env, addrs, f) == Solution(env, addrs, g)
  {
    SolutionMeaning(env, addrs, f);
    SolutionMeaning(env, addrs, g);
    SameSourcesResult(env, addrs, f, g);
  }

  lemma {:induction false} SameSourcesResult(env: Env, addrs: seq<Address>, f: FetchOutcome -> JString, g: FetchOutcome -> JString)
    requires forall i :: 0 <= i < |addrs| ==>
               PayloadResult(env, f(env.fetch(addrs[i]))) == PayloadResult(env, g(env.fetch(addrs[i])))
    ensures SourcesResult(env, addrs, f) == SourcesResult(env, addrs, g)
    decreases |addrs|
  {
    if addrs != [] {
      assert forall i :: 1 <= i < |addrs| ==> addrs[i] == addrs[1..][i - 1];
      SameSourcesResult(env, addrs[1..], f, g);
    }
  }
}
