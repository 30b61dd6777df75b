/** The java LatencyProblem01 class: three ways of fetching the god lists,
    each followed by filterGods and sum. Two of them replace a failed or
    late fetch by DEFAULT_FETCH_ERROR; the composition of two futures has no
    fallback and fetches only the first two lists. */
module JavaLatency01 {
  import opened Base
  import opened Codec
  import opened Streams
  import opened Remote
  import JavaPipeline

  /** DEFAULT_FETCH_ERROR: a JSON array whose one name does not start with n. */
  const DefaultFetchError: JString := "[\"FETCH_BAD_RESULT\"]"

  /** fetchAsync: exceptionally and completeOnTimeout both complete the
      future with the default payload. */
  function FetchAsync(o: FetchOutcome): JString
  {
    match o
    case Response(b) => b
    case Failure => DefaultFetchError
    case Late(_) => DefaultFetchError
  }

  /** The value of a future after orTimeout: nothing when it completed with
      an exception, the fetch's own or the timeout's. */
  function OrTimeout(o: FetchOutcome): Option<JString>
  {
    if o.Response? then Some(o.body) else None
  }

  /** fetchAsyncJ9: handle puts the default payload in place of any
      exception. */
  function FetchAsyncJ9(o: FetchOutcome): JString
  {
    match OrTimeout(o)
    case None => DefaultFetchError
    case Some(b) => b
  }

  /** fetchAsyncJ8: handle replaces the fetch's exception, but nothing bounds
      the wait, so a late fetch is still pending when its payload is asked
      for. */
  function FetchAsyncJ8(o: FetchOutcome): Option<JString>
  {
    match o
    case Response(b) => Some(b)
    case Failure => Some(DefaultFetchError)
    case Late(_) => None
  }

  /** cf.get(TIMEOUT, SECONDS) in fetchListAsyncJ8: a future still pending at
      the deadline gives the default payload. */
  function GetWithTimeout(f: Option<JString>): JString
  {
    if f.Some? then f.value else DefaultFetchError
  }

  function FetchJoinJ8(o: FetchOutcome): JString
  {
    GetWithTimeout(FetchAsyncJ8(o))
  }

  /** The three fallback policies agree on every outcome: a response is kept,
      anything else becomes DEFAULT_FETCH_ERROR. */
  lemma FallbacksAgree(o: FetchOutcome)
    ensures FetchAsync(o) == FetchAsyncJ9(o) == FetchJoinJ8(o)
    ensures FetchAsyncJ9(o) == if o.Response? then o.body else DefaultFetchError
  {
  }

  /** The default payload reads as one name, which the filter drops, so a
      failed or late source adds nothing. */
  lemma FallbackAddsNothing(env: Env, o: FetchOutcome)
    requires ConformingParser(env.parse)
    requires !o.Response?
    ensures JavaPipeline.PayloadResult(env, FetchAsyncJ9(o)) == Ok(0)
  {
    var items: seq<JString> := ["FETCH_BAD_RESULT"];
    assert !IsNName(items[0]);
    assert items[1..] == [];
    assert !HasEmpty(items);
  }

  /** fetchListAsync */
  function FetchListAsync(env: Env, addrs: seq<Address>): Trace<JString>
  {
    JavaPipeline.FetchListAsync(env, addrs, FetchAsyncJ9)
  }

  /** fetchListAsyncJ8 */
  function FetchListAsyncJ8(env: Env, addrs: seq<Address>): Trace<JString>
  {
    JavaPipeline.FetchListAsync(env, addrs, FetchJoinJ8)
  }

  /** list.get(i) followed by toURL. */
  function UrlAt(env: Env, addrs: seq<Address>, i: nat): (r: Result<Address>)
    ensures r.Ok? <==> i < |addrs| && env.validUrl(addrs[i])
    ensures r.Ok? ==> r.value == addrs[i]
    ensures r.Err? ==> r.error == if i < |addrs| then BadAddress else IndexOutOfBounds
  {
    if i >= |addrs| then Err(IndexOutOfBounds) else ToUrl(env, addrs[i])
  }

  /** fetchListAsyncCFComposition: the first three addresses are read and
      converted, in order; the first two are fetched and combined with no
      fallback; the third is never fetched. */
  function FetchListAsyncCFComposition(env: Env, addrs: seq<Address>): Trace<JString>
  {
    var url1 := UrlAt(env, addrs, 0);
    var url2 := UrlAt(env, addrs, 1);
    var url3 := UrlAt(env, addrs, 2);
    if url1.Err? then Raise(url1.error)
    else if url2.Err? then Raise(url2.error)
    else if url3.Err? then Raise(url3.error)
    else
      var s1 := Await(env.fetch(url1.value));
      var s2 := Await(env.fetch(url2.value));
      if s1.Err? then Raise(s1.error)
      else if s2.Err? then Raise(s2.error)
      else FlatMap(Just([s1.value, s2.value]), Serializer(env))
  }

  function JavaStreamSolution(env: Env, addrs: seq<Address>): Result<nat>
  {
    JavaPipeline.Sum(JavaPipeline.FilterGods(FetchListAsync(env, addrs)))
  }

  function Java8StreamSolution(env: Env, addrs: seq<Address>): Result<nat>
  {
    JavaPipeline.Sum(JavaPipeline.FilterGods(FetchListAsyncJ8(env, addrs)))
  }

  function JavaCFCompositionSolution(env: Env, addrs: seq<Address>): Result<nat>
  {
    JavaPipeline.Sum(JavaPipeline.FilterGods(FetchListAsyncCFComposition(env, addrs)))
  }

  // ---------------------------------------------------------------------

  /** JavaStreamSolution computes the reference: one bad address is an
      exception; otherwise every payload, with the fallback in place of a
      failed or late fetch, is read, filtered and summed in address order. */
  lemma JavaStreamSolutionMeaning(env: Env, addrs: seq<Address>)
    ensures JavaStreamSolution(env, addrs) == JavaPipeline.Expected(env, addrs, FetchAsyncJ9)
  {
    JavaPipeline.SolutionMeaning(env, addrs, FetchAsyncJ9);
  }

  /** The Java 8 variant computes the same result on every input. */
  lemma Java8SameAsJava9(env: Env, addrs: seq<Address>)
    ensures Java8StreamSolution(env, addrs) == JavaStreamSolution(env, addrs)
  {
    forall o: FetchOutcome ensures FetchJoinJ8(o) == FetchAsyncJ9(o) {
      FallbacksAgree(o);
    }
    JavaPipeline.SameFetchAsync(env, addrs, FetchJoinJ8, FetchAsyncJ9);
  }

  /** A source whose fetch fails or is late can be left out of the list:
      the result is computed with the rest of the lists. */
  lemma FailedSourceIgnored(env: Env, addrs: seq<Address>, i: nat)
    requires ConformingParser(env.parse)
    requires i < |addrs| && env.validUrl(addrs[i]) && !env.fetch(addrs[i]).Response?
    ensures JavaStreamSolution(env, addrs) == JavaStreamSolution(env, addrs[..i] + addrs[i + 1..])
  {
    FallbackAddsNothing(env, env.fetch(addrs[i]));
    JavaPipeline.NeutralSourceIgnored(env, addrs, i, FetchAsyncJ9);
  }

  /** When no fetch answers in time the result is zero, not an exception. */
  lemma {:induction false} NoResponseIsZero(env: Env, addrs: seq<Address>)
    requires ConformingParser(env.parse)
    requires AllValid(env, addrs)
    requires forall i :: 0 <= i < |addrs| ==> !env.fetch(addrs[i]).Response?
    ensures JavaStreamSolution(env, addrs) == Ok(0)
    decreases |addrs|
  {
    if addrs != [] {
      var rest := addrs[1..];
      FailedSourceIgnored(env, addrs, 0);
      assert addrs[..0] + addrs[1..] == rest;
      assert forall i :: 0 <= i < |rest| ==> rest[i] == addrs[i + 1];
      NoResponseIsZero(env, rest);
    } else {
      JavaStreamSolutionMeaning(env, addrs);
    }
  }

  /** The composition needs three valid addresses, fetches only the first
      two, and has no fallback: a failed fetch is an exception and a late
      one is waited for. */
  lemma CFCompositionMeaning(env: Env, addrs: seq<Address>)
    ensures JavaCFCompositionSolution(env, addrs).Ok? ==>
              |addrs| >= 3 && env.validUrl(addrs[0]) && env.validUrl(addrs[1]) && env.validUrl(addrs[2])
    ensures |addrs| < 3 ==> JavaCFCompositionSolution(env, addrs).Err?
    ensures |addrs| >= 3 && env.validUrl(addrs[0]) && env.validUrl(addrs[1]) && env.validUrl(addrs[2]) ==>
              JavaCFCompositionSolution(env, addrs)
              == if env.fetch(addrs[0]).Failure? || env.fetch(addrs[1]).Failure? then Err(FetchError)
                 else Plus(JavaPipeline.PayloadResult(env, Await(env.fetch(addrs[0])).value),
                           JavaPipeline.PayloadResult(env, Await(env.fetch(addrs[1])).value))
  {
    var t := FetchListAsyncCFComposition(env, addrs);
    if !(|addrs| >= 3 && env.validUrl(addrs[0]) && env.validUrl(addrs[1]) && env.validUrl(addrs[2]))
       || env.fetch(addrs[0]).Failure? || env.fetch(addrs[1]).Failure? {
      assert t.items == [] && t.end.Failed?;
    } else {
      var b1, b2 := Await(env.fetch(addrs[0])).value, Await(env.fetch(addrs[1])).value;
      assert t == FlatMap(Just([b1, b2]), Serializer(env));
      SumOfTwoPayloads(env, b1, b2);
    }
  }

  /** Two payloads, serialized one after the other, filtered and summed. */
  lemma SumOfTwoPayloads(env: Env, b1: JString, b2: JString)
    ensures JavaPipeline.Sum(JavaPipeline.FilterGods(FlatMap(Just([b1, b2]), Serializer(env))))
         == Plus(JavaPipeline.PayloadResult(env, b1), JavaPipeline.PayloadResult(env, b2))
  {
    var s1, s2 := Serialize(env, b1), Serialize(env, b2);
    var none: seq<JString> := [];
    var tail := FlatMap(Just([b2]), Serializer(env));
    assert Serializer(env)(b1) == s1 && Serializer(env)(b2) == s2;
    assert [b1, b2][1..] == [b2] && [b2][1..] == none;
    assert FlatMap(Just([b1, b2]), Serializer(env)) == Then(s1, tail);
    assert Trace([b2][1..], Complete) == Just(none);
    assert FlatMap(Just(none), Serializer(env)) == Just(none);
    assert tail == Then(s2, Just(none));
    FilterOrFailThen(s1, tail, GodStartingByN);
    SumEncodingsThen(JavaPipeline.FilterGods(s1), JavaPipeline.FilterGods(tail));
    FilterOrFailThen(s2, Just(none), GodStartingByN);
    SumEncodingsThen(JavaPipeline.FilterGods(s2), JavaPipeline.FilterGods(Just(none)));
    ReduceSeed(MapOrFail(JavaPipeline.FilterGods(Just(none)), EncodeOrFail), 0);
    JavaPipeline.SumOfPayload(env, b1);
    JavaPipeline.SumOfPayload(env, b2);
  }

  /** Addresses after the third play no part in the composition. */
  lemma CFCompositionReadsThree(env: Env, addrs: seq<Address>)
    requires |addrs| >= 3
    ensures JavaCFCompositionSolution(env, addrs) == JavaCFCompositionSolution(env, addrs[..3])
  {
    assert FetchListAsyncCFComposition(env, addrs) == FetchListAsyncCFComposition(env, addrs[..3]);
  }
}
