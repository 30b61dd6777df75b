/** The stubbed servers of the classes' tests: three god lists for
    LatencyProblem01, and the Greek list with one page longer than the
    others for LatencyProblem02. */
module Scenarios {
  import opened Base
  import opened Codec
  import opened Streams
  import opened Remote
  import JavaPipeline
  import JavaLatency01
  import RxLatency01
  import ReactorLatency01
  import ReactorLatency02

  /** The god lists inlined in the rxjava test's stubs, in order; the
      LatencyProblem01 tests of the java and reactor modules serve body
      files instead, and assert the sum these lists give. Each is cut where
      a name starting with N begins. */
  const GreekA: seq<JString> := ["Zeus", "Hera", "Poseidon", "Demeter", "Ares", "Athena", "Apollo"]
  const GreekB: seq<JString> := ["Artemis", "Hephaestus", "Aphrodite", "Hermes", "Dionysus", "Hades", "Hypnos"]
  const GreekC: seq<JString> := ["Nike", "Janus", "Nemesis"]
  const GreekD: seq<JString> := ["Iris", "Hecate", "Tyche"]
  const Greek: seq<JString> := GreekA + GreekB + GreekC + GreekD
  const RomanA: seq<JString> := ["Venus", "Mars"]
  const RomanB: seq<JString> := ["Neptun", "Mercury", "Pluto", "Jupiter"]
  const Roman: seq<JString> := RomanA + RomanB
  const NordicA: seq<JString> := ["Baldur", "Freyja", "Heimdall", "Frigga", "Hel", "Loki"]
  const NordicB: seq<JString> := ["Njord", "Odin", "Thor", "Tyr"]
  const Nordic: seq<JString> := NordicA + NordicB

  /** The encodings of the four names that start with N. */
  lemma CodeNike()
    ensures Code("Nike") == 78105107101
  {
    var s1: JString := ['N'];
    var s2 := s1 + ['i'];
    var s3 := s2 + ['k'];
    var s4 := s3 + ['e'];
    CodeUnitName('N');
    CodeStep3(s1, 'i');
    CodeStep3(s2, 'k');
    CodeStep3(s3, 'e');
    assert s4 == "Nike";
  }

  lemma CodeNemesis()
    ensures Code("Nemesis") == 78101109101115105115
  {
    var s1: JString := ['N'];
    var s2 := s1 + ['e'];
    var s3 := s2 + ['m'];
    var s4 := s3 + ['e'];
    var s5 := s4 + ['s'];
    var s6 := s5 + ['i'];
    var s7 := s6 + ['s'];
    CodeUnitName('N');
    CodeStep3(s1, 'e');
    CodeStep3(s2, 'm');
    CodeStep3(s3, 'e');
    CodeStep3(s4, 's');
    CodeStep3(s5, 'i');
    CodeStep3(s6, 's');
    assert s7 == "Nemesis";
  }

  lemma CodeNeptun()
    ensures Code("Neptun") == 78101112116117110
  {
    var s1: JString := ['N'];
    var s2 := s1 + ['e'];
    var s3 := s2 + ['p'];
    var s4 := s3 + ['t'];
    var s5 := s4 + ['u'];
    var s6 := s5 + ['n'];
    CodeUnitName('N');
    CodeStep3(s1, 'e');
    CodeStep3(s2, 'p');
    CodeStep3(s3, 't');
    CodeStep3(s4, 'u');
    CodeStep3(s5, 'n');
    assert s6 == "Neptun";
  }

  lemma CodeNjord()
    ensures Code("Njord") == 78106111114100
  {
    var s1: JString := ['N'];
    var s2 := s1 + ['j'];
    var s3 := s2 + ['o'];
    var s4 := s3 + ['r'];
    var s5 := s4 + ['d'];
    CodeUnitName('N');
    CodeStep3(s1, 'j');
    CodeStep3(s2, 'o');
    CodeStep3(s3, 'r');
    CodeStep3(s4, 'd');
    assert s5 == "Njord";
  }

  lemma GreekCSum()
    ensures MatchSum(GreekC) == 78105107101 + 78101109101115105115
  {
    CodeNike();
    CodeNemesis();
    var nike, janus, nemesis: JString := "Nike", "Janus", "Nemesis";
    assert GreekC == [nike] + ([janus] + [nemesis]);
    MatchSumAppend([nike], [janus] + [nemesis]);
    MatchSumAppend([janus], [nemesis]);
  }

  lemma NoNameInGreekA()
    ensures MatchSum(GreekA) == 0
  {
    MatchSumNone(GreekA);
  }

  lemma NoNameInGreekB()
    ensures MatchSum(GreekB) == 0
  {
    MatchSumNone(GreekB);
  }

  lemma NoNameInGreekD()
    ensures MatchSum(GreekD) == 0
  {
    MatchSumNone(GreekD);
  }

  /** Each list's names that start with N, added up. */
  lemma GreekSum()
    ensures MatchSum(Greek) == 78105107101 + 78101109101115105115
  {
    GreekCSum();
    NoNameInGreekA();
    NoNameInGreekB();
    NoNameInGreekD();
    var ab := GreekA + GreekB;
    MatchSumAppend(GreekA, GreekB);
    MatchSumAppend(ab, GreekC);
    MatchSumAppend(ab + GreekC, GreekD);
  }

  lemma RomanSum()
    ensures MatchSum(Roman) == 78101112116117110
  {
    CodeNeptun();
    NoNameInRomanA();
    NoNameAfterFirst(RomanB);
    MatchSumAppend([RomanB[0]], RomanB[1..]);
    assert RomanB == [RomanB[0]] + RomanB[1..];
    MatchSumAppend(RomanA, RomanB);
  }

  lemma NordicSum()
    ensures MatchSum(Nordic) == 78106111114100
  {
    CodeNjord();
    NoNameInNordicA();
    NoNameAfterFirst(NordicB);
    MatchSumAppend([NordicB[0]], NordicB[1..]);
    assert NordicB == [NordicB[0]] + NordicB[1..];
    MatchSumAppend(NordicA, NordicB);
  }

  lemma NoNameInRomanA()
    ensures MatchSum(RomanA) == 0
  {
    MatchSumNone(RomanA);
  }

  lemma NoNameInNordicA()
    ensures MatchSum(NordicA) == 0
  {
    MatchSumNone(NordicA);
  }

  lemma NoNameAfterFirst(items: seq<JString>)
    requires items == RomanB || items == NordicB
    ensures MatchSum(items[1..]) == 0
  {
    MatchSumNone(items[1..]);
  }

  // ---------------------------------------------------------------------
  // LatencyProblem01: the three lists, served in time.

  const GreekUrl: Address := "http://localhost:8090/greek"
  const RomanUrl: Address := "http://localhost:8090/roman"
  const NordicUrl: Address := "http://localhost:8090/nordic"
  const Urls: seq<Address> := [GreekUrl, RomanUrl, NordicUrl]

  /** The sum every tested entry point is expected to give. */
  const Answer: nat := 78179288397447443426

  /** The address is valid and answers in time with a JSON array holding
      the names. */
  predicate Serves(env: Env, a: Address, items: seq<JString>)
  {
    && env.validUrl(a)
    && env.fetch(a).Response?
    && env.fetch(a).body != []
    && env.parse(env.fetch(a).body) == Some(items)
  }

  predicate TestServers(env: Env)
  {
    && ConformingParser(env.parse)
    && Serves(env, GreekUrl, Greek)
    && Serves(env, RomanUrl, Roman)
    && Serves(env, NordicUrl, Nordic)
  }

  lemma ListsSum()
    ensures MatchSum(Greek) + MatchSum(Roman) + MatchSum(Nordic) == Answer
  {
    GreekSum();
    RomanSum();
    NordicSum();
  }

  lemma NoEmptyName()
    ensures !HasEmpty(Greek) && !HasEmpty(Roman) && !HasEmpty(Nordic)
  {
    assert forall i :: 0 <= i < |Greek| ==> |Greek[i]| > 0;
    assert forall i :: 0 <= i < |Roman| ==> |Roman[i]| > 0;
    assert forall i :: 0 <= i < |Nordic| ==> |Nordic[i]| > 0;
  }

  /** What a served list contributes, in the java and rxjava pipelines and
      in the reactor one. */
  lemma ServedContribution(env: Env, a: Address, items: seq<JString>)
    requires Serves(env, a, items) && !HasEmpty(items)
    ensures JavaPipeline.PayloadResult(env, JavaLatency01.FetchAsyncJ9(env.fetch(a))) == Ok(MatchSum(items))
    ensures ReactorLatency01.SourceSum(env, a) == Ok(MatchSum(items))
  {
  }

  /** The reference results of a list of three addresses, address by
      address. */
  lemma ThreeSources(env: Env, a: Address, b: Address, c: Address)
    ensures var f := JavaLatency01.FetchAsyncJ9;
            JavaPipeline.SourcesResult(env, [a, b, c], f)
            == Plus(JavaPipeline.PayloadResult(env, f(env.fetch(a))),
                 Plus(JavaPipeline.PayloadResult(env, f(env.fetch(b))),
                   Plus(JavaPipeline.PayloadResult(env, f(env.fetch(c))), Ok(0))))
    ensures ReactorLatency01.Expected(env, [a, b, c])
            == Plus(ReactorLatency01.SourceSum(env, a),
                 Plus(ReactorLatency01.SourceSum(env, b), Plus(ReactorLatency01.SourceSum(env, c), Ok(0))))
  {
    var none: seq<Address> := [];
    assert [a, b, c][1..] == [b, c] && [b, c][1..] == [c] && [c][1..] == none;
    var f := JavaLatency01.FetchAsyncJ9;
    assert JavaPipeline.SourcesResult(env, none, f) == Ok(0);
    var j1 := JavaPipeline.SourcesResult(env, [c], f);
    assert j1 == Plus(JavaPipeline.PayloadResult(env, f(env.fetch(c))), Ok(0));
    var j2 := JavaPipeline.SourcesResult(env, [b, c], f);
    assert j2 == Plus(JavaPipeline.PayloadResult(env, f(env.fetch(b))), j1);
    assert ReactorLatency01.Expected(env, none) == Ok(0);
    var r1 := ReactorLatency01.Expected(env, [c]);
    assert r1 == Plus(ReactorLatency01.SourceSum(env, c), Ok(0));
    var r2 := ReactorLatency01.Expected(env, [b, c]);
    assert r2 == Plus(ReactorLatency01.SourceSum(env, b), r1);
  }

  lemma JavaScenario(env: Env)
    requires TestServers(env)
    ensures JavaLatency01.JavaStreamSolution(env, Urls) == Ok(Answer)
    ensures JavaLatency01.Java8StreamSolution(env, Urls) == Ok(Answer)
    ensures RxLatency01.SumOfFetchList(env, Urls) == Ok(Answer)
  {
    NoEmptyName();
    ListsSum();
    ServedContribution(env, GreekUrl, Greek);
    ServedContribution(env, RomanUrl, Roman);
    ServedContribution(env, NordicUrl, Nordic);
    ThreeSources(env, GreekUrl, RomanUrl, NordicUrl);
    assert JavaPipeline.Expected(env, Urls, JavaLatency01.FetchAsyncJ9) == Ok(Answer);
    JavaLatency01.JavaStreamSolutionMeaning(env, Urls);
    JavaLatency01.Java8SameAsJava9(env, Urls);
    RxLatency01.SameAsJavaWithoutFailures(env, Urls);
  }

  lemma ReactorScenario(env: Env)
    requires TestServers(env)
    ensures ReactorLatency01.ReactorSolution(env, Urls) == Answer
    ensures ReactorLatency01.ReactorSolutionLarge(env, Urls) == Answer
    ensures ReactorLatency01.ReactorSolutionSequential(env, Urls) == Ok(Answer)
    ensures ReactorLatency01.ReactorSolutionFunctionalComposition(env, Urls) == Ok(Answer)
  {
    NoEmptyName();
    ListsSum();
    ServedContribution(env, GreekUrl, Greek);
    ServedContribution(env, RomanUrl, Roman);
    ServedContribution(env, NordicUrl, Nordic);
    ThreeSources(env, GreekUrl, RomanUrl, NordicUrl);
    assert ReactorLatency01.Expected(env, Urls) == Ok(Answer);
    ReactorLatency01.EntryPointsAgree(env, Urls);
  }

  /** The composition of two futures reads the three addresses but sums
      only the first two lists, so Njord is missing from its result. */
  lemma CFCompositionScenario(env: Env)
    requires TestServers(env)
    ensures JavaLatency01.JavaCFCompositionSolution(env, Urls) == Ok(Answer - 78106111114100)
  {
    NoEmptyName();
    ListsSum();
    NordicSum();
    ServedContribution(env, GreekUrl, Greek);
    ServedContribution(env, RomanUrl, Roman);
    JavaLatency01.CFCompositionMeaning(env, Urls);
  }

  // ---------------------------------------------------------------------
  // LatencyProblem02: Apollo's page is longer than every other god's.

  const Wiki: JString := "http://localhost:8090/wiki"
  const Wikipedia: ReactorLatency02.Config := ReactorLatency02.Config(GreekUrl, Wiki)

  function Page(god: JString): Address
  {
    ReactorLatency02.GenerateWikiAddress(Wikipedia, god)
  }

  /** Apollo stands at index 6 of the Greek list, and only there. */
  lemma ApolloOnce()
    ensures Greek[6] == "Apollo"
    ensures forall j :: 0 <= j < |Greek| && j != 6 ==> Greek[j] != "Apollo"
  {
    assert GreekA[6] == "Apollo";
    forall j | 0 <= j < |Greek| && j != 6
      ensures Greek[j] != "Apollo"
    {
      assert |Greek[j]| != 6 || Greek[j][0] != 'A' || Greek[j][1] != 'p';
    }
  }

  lemma ApolloScenario(env: Env, apollo: JString, other: JString)
    requires Serves(env, GreekUrl, Greek)
    requires forall j :: 0 <= j < |Greek| ==> env.validUrl(Page(Greek[j]))
    requires env.fetch(Page("Apollo")) == Response(apollo)
    requires forall j :: 0 <= j < |Greek| && Greek[j] != "Apollo" ==> env.fetch(Page(Greek[j])) == Response(other)
    requires |other| < |apollo|
    ensures ReactorLatency02.ReactorSolution(env, Wikipedia) == Ok(Some("Apollo"))
  {
    ApolloOnce();
    assert ReactorLatency02.GreekGods(env, Wikipedia) == Ok(Greek);
    forall j | 0 <= j < |Greek|
      ensures ReactorLatency02.Measure(env, Wikipedia, Greek[j])
              == Ok(if j == 6 then |apollo| else |other|)
    {
    }
    ReactorLatency02.UniqueLongestWins(env, Wikipedia, 6);
  }
}
