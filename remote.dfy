/** The collaborators every pipeline calls but does not define: the check
    java.net.URL makes of an address, the HTTP fetch, and Jackson's reading
    of a JSON array of strings (section 5 of RFC 8259). They are parameters
    of the model, gathered in one environment. */
module Remote {
  import opened Base
  import opened Codec
  import opened Streams

  type Address = JString

  /** What one fetch of an address delivers, seen from the pipeline's
      deadline: a body in time, an exception thrown before the deadline,
      or a body that arrives only after it. An exception thrown after the
      deadline has no outcome of its own. */
  datatype FetchOutcome = Response(body: JString) | Failure | Late(lateBody: JString)

  datatype Env = Env(
    validUrl: Address -> bool,
    fetch: Address -> FetchOutcome,
    parse: JString -> Option<seq<JString>>)

  /** Jackson's answers on the texts the pipelines themselves produce: the
      empty text, the reactor fallback "{[]}" and a bare word are not JSON
      arrays, and the two fallback arrays hold one string each. */
  predicate ConformingParser(parse: JString -> Option<seq<JString>>)
  {
    && parse("") == None
    && parse("{[]}") == None
    && parse("FETCH_BAD_RESULT") == None
    && parse("[\"FETCH_BAD_RESULT\"]") == Some(["FETCH_BAD_RESULT"])
    && parse("[\"FETCH_BAD_RESULT_TIMEOUT\"]") == Some(["FETCH_BAD_RESULT_TIMEOUT"])
  }

  /** toURL: new URL(address), whose failure is rethrown as "Bad address". */
  function ToUrl(env: Env, a: Address): (r: Result<Address>)
    ensures r.Ok? <==> env.validUrl(a)
    ensures r.Ok? ==> r.value == a
    ensures r.Err? ==> r.error == BadAddress
  {
    if env.validUrl(a) then Ok(a) else Err(BadAddress)
  }

  /** The fetch with nothing bounding the wait (join on a bare future, or
      the blocking call itself): a late body is waited for, and the fetch's
      exception is rethrown. */
  function Await(o: FetchOutcome): Result<JString>
  {
    match o
    case Response(b) => Ok(b)
    case Late(b) => Ok(b)
    case Failure => Err(FetchError)
  }

  predicate AllValid(env: Env, addrs: seq<Address>)
  {
    forall i :: 0 <= i < |addrs| ==> env.validUrl(addrs[i])
  }

  /** serialize of the java and rxjava modules: the strings of the array,
      or a stream that fails at once when Jackson rejects the text. */
  function Serialize(env: Env, body: JString): (t: Trace<JString>)
    ensures t.end.Failed? <==> env.parse(body).None?
    ensures t.end.Failed? ==> t == Raise(BadSerialization)
    ensures t.end.Complete? ==> t.items == env.parse(body).value
  {
    match env.parse(body)
    case None => Raise(BadSerialization)
    case Some(items) => Just(items)
  }

  /** serialize as the function value flatMap receives. */
  function Serializer(env: Env): JString -> Trace<JString>
  {
    body => Serialize(env, body)
  }

  /** serializeFlux of the reactor modules: the empty body is the single
      item "" and is never handed to Jackson. */
  function SerializeFlux(env: Env, body: JString): (t: Trace<JString>)
    ensures body == [] ==> t == Just([""])
    ensures t.end.Failed? <==> body != [] && env.parse(body).None?
    ensures t.end.Failed? ==> t == Raise(BadSerialization)
  {
    if |body| == 0 then Just([""])
    else match env.parse(body)
      case None => Raise(BadSerialization)
      case Some(items) => Just(items)
  }

  function FluxSerializer(env: Env): JString -> Trace<JString>
  {
    body => SerializeFlux(env, body)
  }

  /** Reference for serializeFlux as a value: the items of a body, or the
      exception reading it raises. */
  function BodyItems(env: Env, body: JString): Result<seq<JString>>
  {
    if body == [] then Ok([""])
    else if env.parse(body).None? then Err(BadSerialization)
    else Ok(env.parse(body).value)
  }

  /** The empty body needs the reactor guard: the java serialize fails on
      it, the reactor one yields a single item that no filter keeps. */
  lemma EmptyBody(env: Env)
    requires ConformingParser(env.parse)
    ensures Serialize(env, "") == Raise(BadSerialization)
    ensures SerializeFlux(env, "") == Just([""])
    ensures BodyItems(env, "") == Ok([""]) && MatchSum([""]) == 0
  {
    assert !IsNName("");
  }

  /** serializeFlux delivers exactly the reference items of the body. */
  lemma SerializeFluxItems(env: Env, body: JString)
    ensures BodyItems(env, body).Ok? ==> SerializeFlux(env, body) == Just(BodyItems(env, body).value)
    ensures BodyItems(env, body).Err? ==> SerializeFlux(env, body) == Raise(BodyItems(env, body).error)
  {
  }
}
