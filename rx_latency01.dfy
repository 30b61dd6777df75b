/** The rxjava LatencyProblem01 class, for the parts that compute, composed
    as the java class composes them: its
    fetchAsync gives a timeout a harmless payload but an exception a text
    that is not JSON, and its filter has no guard against the empty name. */
module RxLatency01 {
  import opened Base
  import opened Codec
  import opened Streams
  import opened Remote
  import JavaPipeline
  import JavaLatency01

  /** The payload in place of a fetch that threw: not a JSON array. */
  const FetchBadResult: JString := "FETCH_BAD_RESULT"

  /** The payload in place of a fetch that did not answer in time. */
  const FetchBadResultTimeout: JString := "[\"FETCH_BAD_RESULT_TIMEOUT\"]"

  /** fetchAsync: exceptionally, then completeOnTimeout. */
  function FetchAsync(o: FetchOutcome): JString
  {
    match o
    case Response(b) => b
    case Failure => FetchBadResult
    case Late(_) => FetchBadResultTimeout
  }

  /** fetchListAsync */
  function FetchListAsync(env: Env, addrs: seq<Address>): Trace<JString>
  {
    JavaPipeline.FetchListAsync(env, addrs, FetchAsync)
  }

  /** fetchListAsync.andThen(filterGods).andThen(sum): the composition of
      the class's own parts, which no method of the class calls (its public
      methods go through rxFetchListAsync instead). */
  function SumOfFetchList(env: Env, addrs: seq<Address>): Result<nat>
  {
    JavaPipeline.Sum(JavaPipeline.FilterGods(FetchListAsync(env, addrs)))
  }

  /** The timeout payload is one name that the filter drops; the failure
      payload cannot be read at all. */
  lemma FallbackPayloads(env: Env, b: JString)
    requires ConformingParser(env.parse)
    ensures JavaPipeline.PayloadResult(env, FetchAsync(Late(b))) == Ok(0)
    ensures JavaPipeline.PayloadResult(env, FetchAsync(Failure)) == Err(BadSerialization)
  {
    var items: seq<JString> := ["FETCH_BAD_RESULT_TIMEOUT"];
    assert !IsNName(items[0]);
    assert items[1..] == [];
    assert !HasEmpty(items);
  }

  /** The pipeline computes the reference with this class's payloads. */
  lemma SumOfFetchListMeaning(env: Env, addrs: seq<Address>)
    ensures SumOfFetchList(env, addrs) == JavaPipeline.Expected(env, addrs, FetchAsync)
  {
    JavaPipeline.SolutionMeaning(env, addrs, FetchAsync);
  }

  /** A source that times out can be left out of the list. */
  lemma TimeoutIgnored(env: Env, addrs: seq<Address>, i: nat)
    requires ConformingParser(env.parse)
    requires i < |addrs| && env.validUrl(addrs[i]) && env.fetch(addrs[i]).Late?
    ensures SumOfFetchList(env, addrs) == SumOfFetchList(env, addrs[..i] + addrs[i + 1..])
  {
    FallbackPayloads(env, env.fetch(addrs[i]).lateBody);
    JavaPipeline.NeutralSourceIgnored(env, addrs, i, FetchAsync);
  }

  /** One fetch that throws before the deadline makes the whole
      computation throw. */
  lemma FailureIsFatal(env: Env, addrs: seq<Address>, i: nat)
    requires ConformingParser(env.parse)
    requires i < |addrs| && env.fetch(addrs[i]).Failure?
    ensures SumOfFetchList(env, addrs).Err?
  {
    SumOfFetchListMeaning(env, addrs);
    FallbackPayloads(env, []);
    JavaPipeline.SourcesResultFails(env, addrs, FetchAsync);
  }

  /** Without a fetch that throws, this class computes what the java class
      computes. */
  lemma SameAsJavaWithoutFailures(env: Env, addrs: seq<Address>)
    requires ConformingParser(env.parse)
    requires forall i :: 0 <= i < |addrs| ==> !env.fetch(addrs[i]).Failure?
    ensures SumOfFetchList(env, addrs) == JavaLatency01.JavaStreamSolution(env, addrs)
  {
    forall i | 0 <= i < |addrs|
      ensures JavaPipeline.PayloadResult(env, FetchAsync(env.fetch(addrs[i])))
           == JavaPipeline.PayloadResult(env, JavaLatency01.FetchAsyncJ9(env.fetch(addrs[i])))
    {
      var o := env.fetch(addrs[i]);
      if o.Late? {
        FallbackPayloads(env, o.lateBody);
        JavaLatency01.FallbackAddsNothing(env, o);
      }
    }
    JavaPipeline.SameContributions(env, addrs, FetchAsync, JavaLatency01.FetchAsyncJ9);
  }
}
