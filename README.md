# Latency problems: god lists, decimal encodings and the longest page

This project models the computing core of the latency-rosetta-stone
exercises in Dafny. Each class of the repository answers the same question
with a different concurrency library.

In problem 1, the classes load three god lists (Greek, Roman, Nordic) from
REST addresses. They keep the names that start with `n`, encode every name
as the concatenation of the decimal values of its UTF-16 code units, and
add the encodings up. Three classes do this:

- the java class, with `CompletableFuture`;
- the rxjava class, with `CompletableFuture` and its own fallbacks;
- the reactor class, with `Flux`.

In problem 2, the reactor `LatencyProblem02` class loads the Greek list. It
fetches every god's Wikipedia page, sorts the gods by page length and
answers the god with the longest page.

The futures, schedulers and timeouts are gone from the model. What remains
is what each pipeline delivers:

- A stream or flux is a `Streams.Trace`: the items it delivers, then
  completion or the exception that ended it.
- Every operator the classes use (`flatMap`, `filter`, `map`, `reduce`,
  `onErrorResume`, `next`) is a function on traces.
- Lemmas show how `flatMap`, both forms of `filter`, `map` and the
  map-and-reduce sum distribute over a trace made of two parts (`Then`).
  `reduce` is described by `ReduceSeed`. `onErrorResume` and `next` are
  stated by their own contracts.

The network, `java.net.URL` and Jackson are parameters, gathered in
`Remote.Env`:

- `validUrl` decides whether `new URL(address)` succeeds;
- `fetch` tells what one fetch of an address gives: a body in time, an
  exception, or a body that arrives too late;
- `parse` is Jackson reading a JSON array of strings.

The few facts about Jackson that the fallbacks rely on are collected in
`Remote.ConformingParser`. The text `{[]}`, a bare word and the empty text
are not arrays, and the two fallback arrays read as their single name.

Modules, one concern each:

- `Base`: `Option`, the exceptions, and `Result`.
- `Decimal`: `String.valueOf` and `new BigInteger` on digit strings.
- `Codec`: `toDigits`, `concatDigits`, the encoding, and the two forms of
  `godStartingByn`.
- `Streams`: traces and their operators.
- `Remote`: the collaborators, `toURL`, `serialize` and `serializeFlux`.
- `JavaPipeline`: the pipeline that the java and rxjava classes share.
- `JavaLatency01`, `RxLatency01`, `ReactorLatency01`, `ReactorLatency02`:
  the four classes.
- `Scenarios`: the stubbed servers of the classes' tests, with the answers
  those tests expect.

Every entry point is paired with a reference definition that uses no
streams. The reference adds, source by source, what each source
contributes. A lemma proves that the entry point computes its reference.
The properties the documentation and the tests promise are then proved
about the reference.

Where the documentation and the code disagree, the model follows the code:

- The class comments say `Zeus = 122101117115`. That number is the encoding
  of `zeus`. The code keeps the capital and encodes `Zeus` as
  `90101117115`. Both values are proved (`Codec.EncodeLowerZeus`,
  `Codec.EncodeCapitalZeus`).
- The comments promise that a slow source is skipped and the rest are
  summed. That holds for `JavaStreamSolution` and `Java8StreamSolution`,
  and for a timeout in the rxjava class's parts. It does not hold in these
  cases:
  - `fetchListAsyncCFComposition` has no fallback: a failed fetch throws
    and a late one is waited for;
  - in the rxjava class, a fetch that throws before the deadline makes the
    composition of `fetchListAsync`, `filterGods` and `sum` throw;
  - `reactorSolution` collapses any exception to zero;
  - `reactorSolutionLarge` stops at the first exception;
  - `reactorSolutionSequential` has no recovery, so a late source makes it
    throw;
  - `reactorSolutionFunctionalComposition` drops the late source and every
    source after it, as `reactorSolutionLarge` does.

  In the reactor class a late source is itself an exception. The timeout
  switches to the fallback `{[]}`, which is not a JSON array, so
  `serializeFlux` throws on it. When the first source is late, three reactor
  entry points give 0 and `reactorSolutionSequential` throws
  (`ReactorLatency01.SlowFirstSource`).
- In problem 2, a god whose page cannot be fetched makes the whole answer
  an exception. It is not measured as length zero.
- `fetchListAsyncCFComposition` converts three addresses but fetches only
  the first two. On the test lists it therefore misses `Njord`
  (`Scenarios.CFCompositionScenario`).

## Model

Source cells are paths relative to the repository root.

| member | source | states |
|---|---|---|
| Decimal.Text | java/src/main/java/org/fundamentals/latency/LatencyProblem01.java:74 | String.valueOf of a number is a non-empty digit string without a leading zero |
| Decimal.Parse | java/src/main/java/org/fundamentals/latency/LatencyProblem01.java:172 | new BigInteger fails exactly on the empty text, and reads back every canonical digit string as the number it renders |
| Decimal.TextValue | java/src/main/java/org/fundamentals/latency/LatencyProblem01.java:172 | reading back what String.valueOf wrote gives the number again |
| Decimal.ValueText | java/src/main/java/org/fundamentals/latency/LatencyProblem01.java:172 | rendering the value of a canonical digit string gives the string back (the other half of the round trip) |
| Decimal.ValueAppend | java/src/main/java/org/fundamentals/latency/LatencyProblem01.java:73-75 | the value of a concatenation is the left value shifted by the right part's length plus the right value |
| Codec.ConcatDigits | java/src/main/java/org/fundamentals/latency/LatencyProblem01.java:73-75 | joining yields at least one digit per value |
| Codec.ConcatDigitsHead | java/src/main/java/org/fundamentals/latency/LatencyProblem01.java:73-75 | the joined text starts with the decimal text of the first value |
| Codec.ConcatDigitsAppend | java/src/main/java/org/fundamentals/latency/LatencyProblem01.java:73-75 | joining maps the concatenation of value lists to the concatenation of digit strings |
| Codec.Encode | java/src/main/java/org/fundamentals/latency/LatencyProblem01.java:69-75 | the encoding fails exactly on the empty name; otherwise it is the number whose decimal text is the concatenated decimal values of the code units |
| Codec.EncodeUnit | java/src/main/java/org/fundamentals/latency/LatencyProblem01.java:69-75 | a one-unit name encodes to the unit's value |
| Codec.EncodeSnoc | java/src/main/java/org/fundamentals/latency/LatencyProblem01.java:69-75 | appending a unit shifts the encoding left by the unit's digit count and adds the unit |
| Codec.CodeSnoc | java/src/main/java/org/fundamentals/latency/LatencyProblem01.java:69-75 | the same shift law for the total code of every name |
| Codec.EncodeIsCode | java/src/main/java/org/fundamentals/latency/LatencyProblem01.java:172 | on a non-empty name the encoding is its code |
| Codec.CodeUnitName | java/src/main/java/org/fundamentals/latency/LatencyProblem01.java:69-71 | the code of a one-unit name is that unit's value |
| Codec.CodeStep2 | java/src/main/java/org/fundamentals/latency/LatencyProblem01.java:69-75 | appending a unit of two decimal digits multiplies the code by 100 and adds the unit |
| Codec.CodeStep3 | java/src/main/java/org/fundamentals/latency/LatencyProblem01.java:69-75 | appending a unit of three decimal digits multiplies the code by 1000 and adds the unit |
| Codec.EncodeLowerZeus | java/src/main/java/org/fundamentals/latency/LatencyProblem01.java:29-30 | the documented value 122101117115 is the encoding of "zeus" |
| Codec.EncodeCapitalZeus | java/src/main/java/org/fundamentals/latency/LatencyProblem01.java:69-71 | the encoding keeps the original casing: "Zeus" encodes to 90101117115 |
| Codec.ToLowerCase | java/src/main/java/org/fundamentals/latency/LatencyProblem01.java:67 | lowercasing keeps the length, unit for unit |
| Codec.GodStartingByN | java/src/main/java/org/fundamentals/latency/LatencyProblem01.java:67 | the unguarded predicate throws StringIndexOutOfBounds exactly on the empty name, and otherwise holds iff the first unit is n or N |
| Codec.GodStartingByNGuarded | reactor/src/main/java/org/fundamentals/latency/LatencyProblem01.java:82-85 | the guarded predicate is false on the empty name and holds exactly when the unguarded one answers true |
| Codec.Select | java/src/main/java/org/fundamentals/latency/LatencyProblem01.java:67 | the reference for the filter: only names starting with n or N, never more than the list holds |
| Codec.SelectMembers | java/src/main/java/org/fundamentals/latency/LatencyProblem01.java:167-168 | a name is selected iff it is in the list and starts with n or N |
| Codec.SelectAppend | java/src/main/java/org/fundamentals/latency/LatencyProblem01.java:167-168 | selecting from a concatenation selects from each part, in order |
| Codec.MatchSumAppend | java/src/main/java/org/fundamentals/latency/LatencyProblem01.java:171-173 | the sum over two lists of names is the sum of their sums |
| Codec.MatchSumNone | java/src/main/java/org/fundamentals/latency/LatencyProblem01.java:167-173 | a list without names starting with n sums to 0 |
| Codec.MultisetWithout | java/src/main/java/org/fundamentals/latency/LatencyProblem01.java:171-173 | removing one position removes exactly that element from the multiset |
| Codec.MatchSumWithout | java/src/main/java/org/fundamentals/latency/LatencyProblem01.java:171-173 | removing one name removes exactly its term from the sum |
| Codec.MatchSumPermutation | java/src/main/java/org/fundamentals/latency/LatencyProblem01.java:171-173 | the sum is invariant under any reordering of the names |
| Codec.TextOfTwoDigits | java/src/main/java/org/fundamentals/latency/LatencyProblem01.java:74 | values from 10 to 99 render as two digits |
| Codec.TextOfThreeDigits | java/src/main/java/org/fundamentals/latency/LatencyProblem01.java:74 | values from 100 to 999 render as three digits |
| Streams.Filter | reactor/src/main/java/org/fundamentals/latency/LatencyProblem01.java:87-89 | a filter that cannot throw keeps the end of the stream and never adds items; which names it keeps is Streams.FilterNames |
| Streams.FilterOrFail | java/src/main/java/org/fundamentals/latency/LatencyProblem01.java:167-169 | a filter that may throw never adds items and never hides an upstream exception; which names it keeps and where it throws is Streams.FilterOrFailNames |
| Streams.BeforeEmpty | java/src/main/java/org/fundamentals/latency/LatencyProblem01.java:67 | the position of the first empty name: every earlier name is non-empty, and it is inside the list iff the list holds an empty name |
| Streams.FilterNames | reactor/src/main/java/org/fundamentals/latency/LatencyProblem01.java:82-89 | filterGodsFlux delivers exactly the names starting with n or N, unchanged and in order, and ends as its input does |
| Streams.FilterOrFailNames | java/src/main/java/org/fundamentals/latency/LatencyProblem01.java:167-169 | filterGods delivers the selected names before the first empty name and then throws StringIndexOutOfBounds; with no empty name, exactly the selected names, then completion |
| Streams.MapOrFail | java/src/main/java/org/fundamentals/latency/LatencyProblem01.java:172 | a map that may throw never adds items and never hides an upstream exception |
| Streams.OnErrorResume | reactor/src/main/java/org/fundamentals/latency/LatencyProblem01.java:114 | a completed flux passes unchanged; a failed one keeps its items and continues with the fallback |
| Streams.Next | reactor/src/main/java/org/fundamentals/latency/LatencyProblem01.java:132 | next() is the first item of a flux that delivers one, is empty iff the flux completes with no item, and is the exception of a flux that fails before any item |
| Streams.EncodeOrFail | java/src/main/java/org/fundamentals/latency/LatencyProblem01.java:172 | the encoding step throws exactly on the empty name and otherwise yields the name's code |
| Streams.TotalAppend | java/src/main/java/org/fundamentals/latency/LatencyProblem01.java:173 | the total of two lists is the sum of their totals |
| Streams.ReduceSeed | java/src/main/java/org/fundamentals/latency/LatencyProblem01.java:173 | reduce from a seed is the seed plus the total of the items, or the exception that ended the stream |
| Streams.ThenAssoc | java/src/main/java/org/fundamentals/latency/LatencyProblem01.java:148 | the parts of a stream can be grouped either way |
| Streams.FlatMapThen | java/src/main/java/org/fundamentals/latency/LatencyProblem01.java:148 | flatMap distributes over a stream made of two parts: the inner streams of the first part, then those of the second |
| Streams.FilterThen | reactor/src/main/java/org/fundamentals/latency/LatencyProblem01.java:128 | filtering distributes over a stream made of two parts |
| Streams.FilterOrFailThen | java/src/main/java/org/fundamentals/latency/LatencyProblem01.java:168 | filtering with a throwing predicate distributes over two parts |
| Streams.MapOrFailThen | java/src/main/java/org/fundamentals/latency/LatencyProblem01.java:172 | mapping with a throwing function distributes over two parts |
| Streams.SumEncodingsThen | java/src/main/java/org/fundamentals/latency/LatencyProblem01.java:171-173 | the sum of two parts is the sum of the partial sums, the first exception winning |
| Streams.SumEncodingsOne | java/src/main/java/org/fundamentals/latency/LatencyProblem01.java:171-173 | a single non-empty name sums to its code |
| Streams.SumOfFilterOrFail | java/src/main/java/org/fundamentals/latency/LatencyProblem01.java:167-173 | filterGods then sum over a list throws StringIndexOutOfBounds iff the list holds an empty name, and otherwise is the sum of the codes of the names starting with n |
| Streams.SumOfFilter | reactor/src/main/java/org/fundamentals/latency/LatencyProblem01.java:87-101 | filterGodsFlux then sumFlux over a list is the sum of the codes of the names starting with n (0 when none does) |
| Streams.Traverse | reactor/src/main/java/org/fundamentals/latency/LatencyProblem02.java:94-100 | the reference for a throwing map: one value per element in order, or an exception iff some element throws, and then the exception of the first element in list order that throws |
| Streams.MapOrFailJust | reactor/src/main/java/org/fundamentals/latency/LatencyProblem02.java:92-100 | map over a list delivers exactly the reference values, or ends with the reference's exception |
| Remote.ToUrl | java/src/main/java/org/fundamentals/latency/LatencyProblem01.java:52-56 | toURL succeeds iff the address is valid, returns it unchanged, and otherwise throws Bad address |
| Remote.Serialize | java/src/main/java/org/fundamentals/latency/LatencyProblem01.java:58-65 | serialize delivers the array's strings in order, and fails iff the body is not a JSON string array |
| Remote.SerializeFlux | reactor/src/main/java/org/fundamentals/latency/LatencyProblem01.java:72-80 | serializeFlux turns the empty body into the single item "" and fails only on a non-empty body that is not an array |
| Remote.EmptyBody | reactor/src/main/java/org/fundamentals/latency/LatencyProblem01.java:73 | on the empty body the unguarded serialize throws while serializeFlux delivers "" and adds nothing |
| Remote.SerializeFluxItems | reactor/src/main/java/org/fundamentals/latency/LatencyProblem01.java:72-80 | serializeFlux delivers exactly the reference items of a body, or its exception |
| JavaPipeline.Payloads | java/src/main/java/org/fundamentals/latency/LatencyProblem01.java:123-129 | one payload per address, in address order, each the fallback policy applied to that address's fetch |
| JavaPipeline.FetchListAsync | java/src/main/java/org/fundamentals/latency/LatencyProblem01.java:123-131 | one bad address anywhere in the list throws before any payload is read |
| JavaPipeline.SumOfPayload | java/src/main/java/org/fundamentals/latency/LatencyProblem01.java:167-173 | one payload, serialized, filtered and summed, gives its reference contribution |
| JavaPipeline.SumOfPayloads | java/src/main/java/org/fundamentals/latency/LatencyProblem01.java:123-131 | the flattened payloads, filtered and summed, give the contributions of the addresses added in order |
| JavaPipeline.SolutionMeaning | java/src/main/java/org/fundamentals/latency/LatencyProblem01.java:175-181 | fetchListAsync.andThen(filterGods).andThen(sum) equals the reference: Bad address if any address is bad, else the per-payload contributions added in order |
| JavaPipeline.SourcesResultAppend | java/src/main/java/org/fundamentals/latency/LatencyProblem01.java:171-173 | the reference over two lists of addresses is the sum of the two references |
| JavaPipeline.SourcesResultFails | java/src/main/java/org/fundamentals/latency/LatencyProblem01.java:167-173 | the result is an exception iff some payload raises one |
| JavaPipeline.AllValidWithout | java/src/main/java/org/fundamentals/latency/LatencyProblem01.java:124-126 | removing a valid address does not change whether every address is valid |
| JavaPipeline.SourcesResultWithout | java/src/main/java/org/fundamentals/latency/LatencyProblem01.java:171-173 | a payload that adds 0 can be taken out of the reference |
| JavaPipeline.NeutralSourceIgnored | java/src/main/java/org/fundamentals/latency/LatencyProblem01.java:35-36 | a valid source whose payload adds 0 can be removed from the list without changing the result |
| JavaPipeline.SameFetchAsync | java/src/main/java/org/fundamentals/latency/LatencyProblem01.java:151-165 | two fallback policies that agree on every outcome yield the same stream |
| JavaPipeline.SameContributions | java/src/main/java/org/fundamentals/latency/LatencyProblem01.java:151-165 | two fallback policies whose payloads contribute the same on every address yield the same result |
| JavaPipeline.SameSourcesResult | java/src/main/java/org/fundamentals/latency/LatencyProblem01.java:171-173 | equal contributions address by address give equal references |
| JavaLatency01.FallbacksAgree | java/src/main/java/org/fundamentals/latency/LatencyProblem01.java:81-121 | fetchAsync, fetchAsyncJ9 and fetchAsyncJ8 read under get(TIMEOUT) all keep a body in time and replace everything else by DEFAULT_FETCH_ERROR |
| JavaLatency01.FallbackAddsNothing | java/src/main/java/org/fundamentals/latency/LatencyProblem01.java:79 | DEFAULT_FETCH_ERROR reads as one name the filter drops, so a failed or late source adds 0 |
| JavaLatency01.UrlAt | java/src/main/java/org/fundamentals/latency/LatencyProblem01.java:137-139 | list.get(i) then toURL: IndexOutOfBounds past the list, Bad address on a bad address, the address otherwise |
| JavaLatency01.JavaStreamSolutionMeaning | java/src/main/java/org/fundamentals/latency/LatencyProblem01.java:175-181 | JavaStreamSolution is the reference with fetchAsyncJ9's payloads |
| JavaLatency01.Java8SameAsJava9 | java/src/main/java/org/fundamentals/latency/LatencyProblem01.java:183-189 | with one deadline per fetch for both variants, Java8StreamSolution gives the same result as JavaStreamSolution on every input |
| JavaLatency01.FailedSourceIgnored | java/src/main/java/org/fundamentals/latency/LatencyProblem01.java:93-106 | a valid source whose fetch fails or is late can be removed from the list without changing the result |
| JavaLatency01.NoResponseIsZero | java/src/main/java/org/fundamentals/latency/LatencyProblem01.java:93-106 | when no valid source answers in time the result is 0, not an exception |
| JavaLatency01.CFCompositionMeaning | java/src/main/java/org/fundamentals/latency/LatencyProblem01.java:135-149 | the composition needs three valid addresses; it throws if either of the first two fetches throws; otherwise it is the first two payloads' contributions added |
| JavaLatency01.SumOfTwoPayloads | java/src/main/java/org/fundamentals/latency/LatencyProblem01.java:148 | two joined payloads, serialized, filtered and summed, add their contributions |
| JavaLatency01.CFCompositionReadsThree | java/src/main/java/org/fundamentals/latency/LatencyProblem01.java:137-139 | addresses after the third play no part in the composition |
| RxLatency01.FallbackPayloads | rxjava/src/main/java/org/fundamentals/latency/LatencyProblem01.java:80-90 | the timeout payload adds 0, while the failure payload FETCH_BAD_RESULT is not an array and throws |
| RxLatency01.SumOfFetchListMeaning | rxjava/src/main/java/org/fundamentals/latency/LatencyProblem01.java:92-100 | the composition of the class's fetchListAsync, filterGods and sum, which no method of the class calls, is the shared reference with this class's payloads |
| RxLatency01.TimeoutIgnored | rxjava/src/main/java/org/fundamentals/latency/LatencyProblem01.java:89 | a valid source that times out can be removed from the list without changing the result |
| RxLatency01.FailureIsFatal | rxjava/src/main/java/org/fundamentals/latency/LatencyProblem01.java:85-88 | one fetch that throws before the deadline makes that composition throw |
| RxLatency01.SameAsJavaWithoutFailures | rxjava/src/main/java/org/fundamentals/latency/LatencyProblem01.java:80-100 | without a fetch that throws before the deadline, that composition computes what the java JavaStreamSolution computes |
| ReactorLatency01.SerializedHead | reactor/src/main/java/org/fundamentals/latency/LatencyProblem01.java:119-126 | the serialized flux of a list is the first source's names followed by the rest, or that source's exception |
| ReactorLatency01.SerializedSum | reactor/src/main/java/org/fundamentals/latency/LatencyProblem01.java:152-161 | the serialized, filtered and summed flux is the per-source reference, the first exception winning |
| ReactorLatency01.FilterItems | reactor/src/main/java/org/fundamentals/latency/LatencyProblem01.java:128 | the names the filter keeps do not depend on how the flux ends |
| ReactorLatency01.FilterRecovered | reactor/src/main/java/org/fundamentals/latency/LatencyProblem01.java:143-144 | after onErrorResume(DEFAULT_FALLBACK) the filter sees the names delivered before the exception, and then completes |
| ReactorLatency01.RecoveredThen | reactor/src/main/java/org/fundamentals/latency/LatencyProblem01.java:143-147 | the recovered sum of one source's names followed by the rest adds the source's contribution |
| ReactorLatency01.KeptHeadFails | reactor/src/main/java/org/fundamentals/latency/LatencyProblem01.java:141-147 | when the first source throws, the recovered sum and the prefix reference are both 0 |
| ReactorLatency01.KeptHeadSucceeds | reactor/src/main/java/org/fundamentals/latency/LatencyProblem01.java:141-147 | when the first source delivers, both the recovered sum and the prefix reference add its contribution to the rest |
| ReactorLatency01.KeptEmpty | reactor/src/main/java/org/fundamentals/latency/LatencyProblem01.java:99-101 | the recovered sum over no source is 0 |
| ReactorLatency01.RecoveredSum | reactor/src/main/java/org/fundamentals/latency/LatencyProblem01.java:141-147 | with the fallback in place, the sum never fails and adds the sources before the first one that throws |
| ReactorLatency01.SequentialMeaning | reactor/src/main/java/org/fundamentals/latency/LatencyProblem01.java:152-162 | reactorSolutionSequential is the per-source reference: the contributions added in list order, or the first exception |
| ReactorLatency01.SolutionMeaning | reactor/src/main/java/org/fundamentals/latency/LatencyProblem01.java:117-133 | reactorSolution is the reference sum when no source throws, and exactly 0 when any does |
| ReactorLatency01.FunctionalCompositionMeaning | reactor/src/main/java/org/fundamentals/latency/LatencyProblem01.java:107-115 | asyncFetchFlux, filterGodsFlux and sumFlux never fail and add the sources before the first one that throws |
| ReactorLatency01.LargeMeaning | reactor/src/main/java/org/fundamentals/latency/LatencyProblem01.java:135-150 | reactorSolutionLarge adds the sources before the first one that throws |
| ReactorLatency01.PrefixSumOfSuccess | reactor/src/main/java/org/fundamentals/latency/LatencyProblem01.java:44-45 | when no source throws, the prefix before the first failure is the whole reference sum |
| ReactorLatency01.SlowFirstSource | reactor/src/main/java/org/fundamentals/latency/LatencyProblem01.java:105-172 | when the first source misses its deadline, reactorSolution, reactorSolutionLarge and reactorSolutionFunctionalComposition give 0, and reactorSolutionSequential throws because the fallback {[]} is not a JSON array |
| ReactorLatency01.EntryPointsAgree | reactor/src/main/java/org/fundamentals/latency/LatencyProblem01.java:117-172 | when no source throws, the four entry points give the same sum |
| ReactorLatency02.GenerateWikiAddress | reactor/src/main/java/org/fundamentals/latency/LatencyProblem02.java:78 | the page address is the WIKIPEDIA base, then '/', then the god, position by position |
| ReactorLatency02.WikiAddressRoundTrip | reactor/src/main/java/org/fundamentals/latency/LatencyProblem02.java:78 | the god can be read back from its page address |
| ReactorLatency02.WikiAddressInjective | reactor/src/main/java/org/fundamentals/latency/LatencyProblem02.java:78 | two gods share a page address iff they are the same god |
| ReactorLatency02.FetchGreekGods | reactor/src/main/java/org/fundamentals/latency/LatencyProblem02.java:80-88 | fetchGreekGods delivers exactly the reference list of the GREEK address, or its exception; an empty body gives the single god "" |
| ReactorLatency02.Measure | reactor/src/main/java/org/fundamentals/latency/LatencyProblem02.java:95-99 | measuring a god fails iff its page address is bad (Bad address) or its fetch throws; otherwise it is the length of the page |
| ReactorLatency02.Info | reactor/src/main/java/org/fundamentals/latency/LatencyProblem02.java:94-100 | the tuple of a god pairs the god with its page length, or carries the measurement's exception |
| ReactorLatency02.Insert | reactor/src/main/java/org/fundamentals/latency/LatencyProblem02.java:108 | inserting a tuple adds exactly that tuple to the multiset |
| ReactorLatency02.SortByLength | reactor/src/main/java/org/fundamentals/latency/LatencyProblem02.java:108 | the sort keeps the number of tuples |
| ReactorLatency02.InsertUnfold | reactor/src/main/java/org/fundamentals/latency/LatencyProblem02.java:108 | inserting before a longer last tuple leaves that tuple last |
| ReactorLatency02.InsertSorted | reactor/src/main/java/org/fundamentals/latency/LatencyProblem02.java:108 | insertion keeps a list sorted by length |
| ReactorLatency02.SortByLengthSorted | reactor/src/main/java/org/fundamentals/latency/LatencyProblem02.java:108 | the sort orders the tuples by length, ascending |
| ReactorLatency02.SortByLengthPermutation | reactor/src/main/java/org/fundamentals/latency/LatencyProblem02.java:108 | the sort is a permutation of its input |
| ReactorLatency02.WithLengthAppend | reactor/src/main/java/org/fundamentals/latency/LatencyProblem02.java:108 | the tuples of one length in a concatenation are those of each part, in order |
| ReactorLatency02.WithLengthOne | reactor/src/main/java/org/fundamentals/latency/LatencyProblem02.java:108 | a single tuple is kept iff it has the given length |
| ReactorLatency02.InsertStable | reactor/src/main/java/org/fundamentals/latency/LatencyProblem02.java:108 | insertion puts a tuple after every tuple of its length already present |
| ReactorLatency02.InsertStableStep | reactor/src/main/java/org/fundamentals/latency/LatencyProblem02.java:108 | insertion stays stable when it passes a longer last tuple |
| ReactorLatency02.SortByLengthStable | reactor/src/main/java/org/fundamentals/latency/LatencyProblem02.java:108 | the sort is stable: the tuples of every length keep their input order |
| ReactorLatency02.LastLongestUnique | reactor/src/main/java/org/fundamentals/latency/LatencyProblem02.java:108-109 | at most one position is the last of the longest tuples |
| ReactorLatency02.LastLongest | reactor/src/main/java/org/fundamentals/latency/LatencyProblem02.java:108-109 | a non-empty list has a last longest tuple: no tuple is longer, and no later tuple is as long |
| ReactorLatency02.InsertLast | reactor/src/main/java/org/fundamentals/latency/LatencyProblem02.java:108 | after an insertion the last tuple is the new one, unless the old last tuple is strictly longer |
| ReactorLatency02.SortByLengthSnoc | reactor/src/main/java/org/fundamentals/latency/LatencyProblem02.java:108 | sorting a list is sorting its front and inserting its last tuple |
| ReactorLatency02.SortByLengthLast | reactor/src/main/java/org/fundamentals/latency/LatencyProblem02.java:108-109 | takeLast(1) after the sort picks the last of the longest tuples in input order |
| ReactorLatency02.LastOfLongerFront | reactor/src/main/java/org/fundamentals/latency/LatencyProblem02.java:108-109 | appending a tuple moves the last longest to it iff it is at least as long |
| ReactorLatency02.Max | reactor/src/main/java/org/fundamentals/latency/LatencyProblem02.java:104-112 | max passes an exception through; a completed flux gives one name, or none when it held no tuple |
| ReactorLatency02.GodInfoPairs | reactor/src/main/java/org/fundamentals/latency/LatencyProblem02.java:90-102 | fetchWikipediaGodInfo gives exactly one tuple per god, in list order, when every god can be measured; otherwise it fails, with exactly the exception of the first god in list order that cannot be measured |
| ReactorLatency02.InfosOfGods | reactor/src/main/java/org/fundamentals/latency/LatencyProblem02.java:90-102 | the tuple at every position names the god at that position with its page length |
| ReactorLatency02.SolutionMeaning | reactor/src/main/java/org/fundamentals/latency/LatencyProblem02.java:114-121 | reactorSolution equals the reference: the name of the last longest tuple, none for no gods, or the first exception |
| ReactorLatency02.SolutionIsLongest | reactor/src/main/java/org/fundamentals/latency/LatencyProblem02.java:104-121 | the answer is a god of the list whose page is at least as long as every god's and strictly longer than every later god's |
| ReactorLatency02.UniqueLongestWins | reactor/src/main/java/org/fundamentals/latency/LatencyProblem02.java:104-121 | a god whose page is strictly longer than every other god's is the answer |
| ReactorLatency02.NoGodsNoValue | reactor/src/main/java/org/fundamentals/latency/LatencyProblem02.java:116-120 | reactorSolution completes without a value iff the Greek list is empty |
| ReactorLatency02.SolutionFails | reactor/src/main/java/org/fundamentals/latency/LatencyProblem02.java:80-121 | reactorSolution fails iff reading the list fails or some god's page cannot be measured |
| Scenarios.CodeNike | rxjava/src/test/java/org/fundamentals/latency/LatencyProblem011Test.java:64 | "Nike" encodes to 78105107101 |
| Scenarios.CodeNemesis | rxjava/src/test/java/org/fundamentals/latency/LatencyProblem011Test.java:64 | "Nemesis" encodes to 78101109101115105115 |
| Scenarios.CodeNeptun | rxjava/src/test/java/org/fundamentals/latency/LatencyProblem011Test.java:65 | "Neptun" encodes to 78101112116117110 |
| Scenarios.CodeNjord | rxjava/src/test/java/org/fundamentals/latency/LatencyProblem011Test.java:66 | "Njord" encodes to 78106111114100 |
| Scenarios.GreekCSum | rxjava/src/test/java/org/fundamentals/latency/LatencyProblem011Test.java:64 | Nike and Nemesis are the names of their part of the Greek list that count |
| Scenarios.NoNameInGreekA | rxjava/src/test/java/org/fundamentals/latency/LatencyProblem011Test.java:64 | no name of the first part of the Greek list starts with n |
| Scenarios.NoNameInGreekB | rxjava/src/test/java/org/fundamentals/latency/LatencyProblem011Test.java:64 | no name of the second part of the Greek list starts with n |
| Scenarios.NoNameInGreekD | rxjava/src/test/java/org/fundamentals/latency/LatencyProblem011Test.java:64 | no name of the last part of the Greek list starts with n |
| Scenarios.GreekSum | rxjava/src/test/java/org/fundamentals/latency/LatencyProblem011Test.java:64 | the Greek list adds Nike and Nemesis |
| Scenarios.RomanSum | rxjava/src/test/java/org/fundamentals/latency/LatencyProblem011Test.java:65 | the Roman list adds Neptun |
| Scenarios.NordicSum | rxjava/src/test/java/org/fundamentals/latency/LatencyProblem011Test.java:66 | the Nordic list adds Njord |
| Scenarios.NoNameInRomanA | rxjava/src/test/java/org/fundamentals/latency/LatencyProblem011Test.java:65 | Venus and Mars add nothing |
| Scenarios.NoNameInNordicA | rxjava/src/test/java/org/fundamentals/latency/LatencyProblem011Test.java:66 | the Nordic names before Njord add nothing |
| Scenarios.NoNameAfterFirst | rxjava/src/test/java/org/fundamentals/latency/LatencyProblem011Test.java:65-66 | the names after Neptun and after Njord add nothing |
| Scenarios.ListsSum | rxjava/src/test/java/org/fundamentals/latency/LatencyProblem011Test.java:80 | the three lists add up to 78179288397447443426 |
| Scenarios.NoEmptyName | rxjava/src/test/java/org/fundamentals/latency/LatencyProblem011Test.java:64-66 | no list holds an empty name, so the unguarded filter never throws on them |
| Scenarios.ServedContribution | java/src/test/java/org/fundamentals/latency/LatencyProblem01Test.java:40-56 | a served list contributes the sum of its names starting with n in the java and reactor pipelines |
| Scenarios.ThreeSources | java/src/test/java/org/fundamentals/latency/LatencyProblem01Test.java:72-75 | the java and reactor references over three addresses are the three contributions added |
| Scenarios.JavaScenario | java/src/test/java/org/fundamentals/latency/LatencyProblem01Test.java:72-105 | on the test servers JavaStreamSolution, Java8StreamSolution and the composition of the rxjava parts are 78179288397447443426 |
| Scenarios.ReactorScenario | reactor/src/test/java/org/fundamentals/latency/LatencyProblem01Test.java:60-100 | on the test servers the four reactor entry points give 78179288397447443426 |
| Scenarios.CFCompositionScenario | java/src/main/java/org/fundamentals/latency/LatencyProblem01.java:135-149 | on the test servers the composition misses Njord: 78179288397447443426 minus 78106111114100 |
| Scenarios.ApolloOnce | reactor/src/test/java/org/fundamentals/latency/LatencyProblem02Test.java:42-47 | Apollo is in the Greek list exactly once |
| Scenarios.ApolloScenario | reactor/src/test/java/org/fundamentals/latency/LatencyProblem02Test.java:42-77 | when Apollo's page is longer than the page every other god shares, the answer is "Apollo" |

## Left out

- Concurrency and timing are left out: `CompletableFuture`, executors, `orTimeout`, `completeOnTimeout`, `get(timeout)`, Reactor schedulers and `timeout`, RxJava `observeOn` and `Thread.sleep`. A fetch that misses its deadline is the outcome tag `Late`, carrying the body that would arrive later. `Failure` is an exception thrown before the deadline.
- A fetch that never answers at all is not modelled. Every fetch ends with a body, an exception or a late body.
- `SimpleCurl.fetch` is not part of this model. It, `java.net.URL` validation and Jackson's `readValue` are parameters of `Remote.Env`. Only the facts in `Remote.ConformingParser` are assumed about Jackson.
- Logging has no effect on results and is left out: `LOGGER`, `peek(print)`, `log()` and `doOnError`.
- `rxFetchListAsync` is left out (rxjava LatencyProblem01.java lines 102-130), and so are the two rxjava public methods built on it (lines 140-154). The function calls `subscribe` on a `String`, sleeps and returns a constant list, so it computes nothing to model.
- The playground `Demo` class is left out. It only prints thread names and random numbers.
- `toLowerCase` is modelled only for the Basic Latin letters. Surrogate pairs are left out. Strings are sequences of 16-bit code units, and the filter asks whether the first unit is `n` or `N`.
- A JSON array holding `null` is not modelled. Jackson reads it as a list with a `null` element, and the pipelines then throw a NullPointerException (`toLowerCase` in the java filter, `Flux.fromIterable` in reactor). `Remote.Env.parse` returns strings only, so the model has no such element.
- `Config.timeout` of the reactor `LatencyProblem02` class is read by no code and is not modelled. A missing key in its `apiMap` (a `null` lookup) is not modelled: `Config` holds both addresses.
- ReactorLatency01.FunctionalCompositionMeaning: `asyncFetchFlux` takes a `limit`, and the model keeps it. Its meaning is proved only for the one limit the class passes, the size of the list. For a larger limit the flux ends with IndexOutOfBounds, which `onErrorResume` turns into the fallback.
- JavaLatency01.Java8SameAsJava9: the model gives each fetch one deadline, the same for both variants. In the code, `fetchAsyncJ9` starts its deadline when the fetch starts (`orTimeout`, java LatencyProblem01.java line 98). `fetchListAsyncJ8` calls `get(TIMEOUT)` on one future after another (lines 156-163), so each deadline starts when the previous `get` returned. A fetch that is late for J9 but in time for its J8 `get` is not modelled, and the two variants can differ on it.
- A fetch that throws after its deadline is not modelled. In the rxjava `fetchAsync` (rxjava LatencyProblem01.java lines 84-89) such an exception is harmless, because `completeOnTimeout` has already completed the future. RxLatency01.FailureIsFatal is about an exception before the deadline only.
- The rxjava class's public methods never compose `fetchListAsync`, `filterGods` and `sum`. `RxLatency01.SumOfFetchList` is that composition of the class's parts, built by the model.
- The body files served by the `LatencyProblem01` tests of the java and reactor modules are not shown, and neither is the Greek list served by the reactor `LatencyProblem02` test. `Scenarios` uses the lists inlined in the rxjava test (`LatencyProblem011Test.java` lines 64-66) instead. They give the sum the java and reactor tests assert, and the Greek list matches the gods named in the `LatencyProblem02` test's page stubs.
- ReactorLatency02.Max: the contract states the shape of the result. What the name is, is proved by `SortByLengthLast` and `SolutionIsLongest`.
- JavaLatency01.FallbacksAgree and Remote.SerializeFluxItems hold by unfolding the definitions. They are kept because the pipeline lemmas use them.
