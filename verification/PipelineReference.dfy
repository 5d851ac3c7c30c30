/** What a fresh run comes to, case by case, without its nodes. */
module PipelineReference {
  import opened Wrappers
  import opened JsonValues
  import opened Documents
  import opened Confidence
  import opened Guardrails
  import opened Pipeline
  import opened PipelineRuns
  import Text

  /** The outcome of the text-quality guardrail on a text that is not blank. */
  function Quality(w: World, text: string): GuardOutcome {
    if w.weak(text).Some? then GuardOutcome("text_quality", Warn, w.weak(text).value, 0.8)
    else GuardOutcome("text_quality", Pass, "", 1.0)
  }

  function Failed(s: State, reason: Reason, error: Option<string>): State {
    s.(status := Some(Rejected), routing := Some(LOW), currentStep := Some("dlq"),
       failureReason := Some(reason), error := error)
  }

  /** A run that has its text. */
  function WithText(s: State, text: string, how: string): State {
    s.(text := Some(ParsedText(text, how)))
  }

  /** A run that the guardrails have let through. */
  function Guarded(s: State, w: World, text: string, how: string): State {
    WithText(s, text, how).(
      reports := Some([GuardOutcome("injection", Pass, "", 1.0), Quality(w, text)]),
      multiplier := Some(if w.weak(text).Some? then 0.8 else 1.0))
  }

  function Answered(s: State, seed: Seed, multiplier: real, fields: Fields, confidence: real, low: seq<string>): State {
    var b := BreakdownOf(fields, seed.required, seed.props, confidence, multiplier);
    var scored := s.(
      extracted := Some(Extracted(fields, "primary", confidence, low)),
      missing := Some(MissingRequired(fields, seed.required)),
      scored := Some(Scored(b.adjusted, b)));
    if b.adjusted >= seed.high then
      scored.(status := Some(Completed), routing := Some(HIGH), currentStep := Some("deliver"))
    else if b.adjusted >= seed.medium then
      scored.(status := Some(InReview), routing := Some(MEDIUM), currentStep := Some("create_review"))
    else Failed(scored, LOW_CONFIDENCE, None)
  }

  function Reference(s: State, w: World, llm: Llm): State
    requires Seeded(s)
  {
    if s.isCancelled.value then
      s.(status := Some(Cancelled), routing := Some(LOW), currentStep := Some("dlq"))
    else
      match w.parse
      case ParseRaised(message) => Failed(s, PARSE_FAILED, Some(message))
      case Parsed(text, how) =>
        if IsEmpty(text) then Failed(WithText(s, text, how), PARSE_EMPTY_OUTPUT, None)
        else if w.injection(text).Some? then
          var hit := w.injection(text).value;
          Failed(WithText(s, text, how), INJECTION_DETECTED, Some(if hit == "" then "guardrail blocked" else hit)).(
            reports := Some([GuardOutcome("injection", Block, hit, 1.0), Quality(w, text)]))
        else
          match llm
          case Raised(message) => Failed(Guarded(s, w, text, how), EXTRACTION_FAILED, Some(message))
          case Answer(fields, confidence, low, _) =>
            Answered(Guarded(s, w, text, how), s.seed.value, if w.weak(text).Some? then 0.8 else 1.0,
                     fields, confidence, low)
  }

  lemma ReportsAre(w: World, text: string)
    requires !IsEmpty(text)
    ensures RunGuardrails(w, text) ==
            [if w.injection(text).Some? then GuardOutcome("injection", Block, w.injection(text).value, 1.0)
             else GuardOutcome("injection", Pass, "", 1.0),
             Quality(w, text)]
  {
    ParsedTextHasInk(text);
  }

  /** The multiplier of such a text. */
  lemma PenaltyIs(w: World, text: string)
    requires !IsEmpty(text) && w.injection(text).None?
    ensures Aggregate(RunGuardrails(w, text)) == if w.weak(text).Some? then 0.8 else 1.0
  {
    ReportsAre(w, text);
    var outcomes := RunGuardrails(w, text);
    assert outcomes == [] + [outcomes[0]] + [outcomes[1]];
    AggregateOfOneMore([], outcomes[0]);
    AggregateOfOneMore([] + [outcomes[0]], outcomes[1]);
    assert RoundHalfEven(8000.0) == 8000 && RoundHalfEven(10000.0) == 10000;
  }

  lemma FrontReference(s: State, w: World)
    requires Seeded(s) && !s.isCancelled.value && w.parse.Parsed? && !IsEmpty(w.parse.text)
    requires w.injection(w.parse.text).None?
    ensures Front(s, w) == Guarded(s, w, w.parse.text, w.parse.how).(
              status := Some(Extracting), currentStep := Some("guardrail"))
  {
    GuardsBlockOnInjection(w, w.parse.text);
    ReportsAre(w, w.parse.text);
    PenaltyIs(w, w.parse.text);
  }

  lemma InjectedReference(s: State, w: World)
    requires Seeded(s) && !s.isCancelled.value && w.parse.Parsed? && !IsEmpty(w.parse.text)
    requires w.injection(w.parse.text).Some?
    ensures var hit := w.injection(w.parse.text).value;
            Front(s, w) == WithText(s, w.parse.text, w.parse.how).(
              status := Some(Error), currentStep := Some("guardrail"), failureReason := Some(INJECTION_DETECTED),
              error := Some(if hit == "" then "guardrail blocked" else hit),
              reports := Some([GuardOutcome("injection", Block, hit, 1.0), Quality(w, w.parse.text)]))
  {
    GuardsBlockOnInjection(w, w.parse.text);
    ReportsAre(w, w.parse.text);
  }

  /** The last nodes on a halted state, written out. */
  lemma FinishReference(x: State)
    requires x.status == Some(Error) || x.status == Some(Cancelled)
    ensures Finish(x) ==
            if x.status == Some(Cancelled) then x.(routing := Some(LOW), currentStep := Some("dlq"))
            else x.(routing := Some(LOW), currentStep := Some("dlq"), status := Some(Rejected),
                    failureReason := Some(x.failureReason.GetOr(LOW_CONFIDENCE)))
  {
    assert AfterScore(x) == x;
  }

  lemma AnsweredReference(g: State, seed: Seed, fields: Fields, confidence: real, low: seq<string>,
      missing: seq<string>)
    requires g.seed == Some(seed) && g.status == Some(Extracting) && g.multiplier.Some? && g.extracted == None
    requires g.failureReason == None && g.error == None
    ensures Finish(Merge(g, ExtractNode(g, Answer(fields, confidence, low, missing))))
            == Answered(g, seed, g.multiplier.value, fields, confidence, low)
  {
  }

  lemma StoppedIsReference(s: State, w: World, llm: Llm)
    requires Seeded(s) && !ReachesModel(s, w)
    ensures Run(s, w, llm) == Reference(s, w, llm)
  {
    var g := Front(s, w);
    if !s.isCancelled.value && w.parse.Parsed? && !IsEmpty(w.parse.text) {
      InjectedReference(s, w);
    }
    NothingToExtract(g, llm);
    FinishReference(g);
  }

  /** Every fresh run ends in just the state that the reference gives, in every key. */
  lemma RunIsReference(s: State, w: World, llm: Llm)
    requires Seeded(s)
    ensures Run(s, w, llm) == Reference(s, w, llm)
  {
    if ReachesModel(s, w) {
      FrontReference(s, w);
      var g := Front(s, w);
      match llm
      case Raised(message) => FinishReference(Merge(g, ExtractNode(g, llm)));
      case Answer(fields, confidence, low, missing) =>
        AnsweredReference(g, s.seed.value, fields, confidence, low, missing);
    } else {
      StoppedIsReference(s, w, llm);
    }
  }

  lemma EmptyReason(s: State, w: World, llm: Llm)
    requires Seeded(s)
    ensures Run(s, w, llm).failureReason == Some(PARSE_EMPTY_OUTPUT)
            <==> !s.isCancelled.value && w.parse.Parsed? && IsEmpty(w.parse.text)
  {
    RunIsReference(s, w, llm);
  }

  // ---- Which texts are empty ----------------------------------------------------------------

  /** A text without newlines, cut into whitespace, what is left of it, and whitespace: an
      uncancelled fresh run ends PARSE_EMPTY_OUTPUT exactly when fewer than ten characters
      are left. */
  lemma EmptyExactlyWhenShort(s: State, w: World, llm: Llm, a: string, core: string, b: string)
    requires Seeded(s) && !s.isCancelled.value && w.parse.Parsed? && w.parse.text == a + core + b
    requires '\n' !in a + core + b
    requires (forall c | c in a :: c in Text.Spaces) && (forall c | c in b :: c in Text.Spaces)
    requires core != "" ==> core[0] !in Text.Spaces && core[|core| - 1] !in Text.Spaces
    ensures Run(s, w, llm).failureReason == Some(PARSE_EMPTY_OUTPUT) <==> |core| < 10
  {
    EmptyReason(s, w, llm);
    Text.NoNewlinesToDrop(a + core + b);
    Text.StripFindsCore(a, core, b);
  }

  /** And newlines are not counted, wherever they are. */
  lemma NewlinesAreNotCounted(s: State, w: World, llm: Llm, x: string, y: string, how: string)
    requires Seeded(s)
    ensures Run(s, w.(parse := Parsed(x + "\n" + y, how)), llm).failureReason == Some(PARSE_EMPTY_OUTPUT)
            <==> Run(s, w.(parse := Parsed(x + y, how)), llm).failureReason == Some(PARSE_EMPTY_OUTPUT)
  {
    EmptyReason(s, w.(parse := Parsed(x + "\n" + y, how)), llm);
    EmptyReason(s, w.(parse := Parsed(x + y, how)), llm);
    Text.NewlineDoesNotCount(x, y);
  }

  // ---- The checkpoints on the way -----------------------------------------------------------

  datatype Mark = Mark(status: Status, step: Option<string>)

  /** The marks of the first six checkpoints of a fresh run: as seeded, and after parse,
      guardrail, extract, score and route. */
  function Marks(s: State, w: World, llm: Llm): seq<Mark>
    requires Seeded(s)
  {
    [Mark(Pending, None)] +
    if s.isCancelled.value then
      [Mark(Cancelled, Some("parse")), Mark(Cancelled, Some("parse")), Mark(Cancelled, Some("parse")),
       Mark(Cancelled, Some("parse")), Mark(Cancelled, Some("route"))]
    else if w.parse.ParseRaised? then
      [Mark(Error, None), Mark(Error, None), Mark(Error, None), Mark(Error, None), Mark(Error, Some("route"))]
    else if IsEmpty(w.parse.text) then
      [Mark(Error, Some("parse")), Mark(Error, Some("parse")), Mark(Error, Some("parse")),
       Mark(Error, Some("parse")), Mark(Error, Some("route"))]
    else if w.injection(w.parse.text).Some? then
      [Mark(Guarding, Some("parse")), Mark(Error, Some("guardrail")), Mark(Error, Some("guardrail")),
       Mark(Error, Some("guardrail")), Mark(Error, Some("route"))]
    else if llm.Raised? then
      [Mark(Guarding, Some("parse")), Mark(Extracting, Some("guardrail")), Mark(Error, Some("guardrail")),
       Mark(Error, Some("guardrail")), Mark(Error, Some("route"))]
    else
      [Mark(Guarding, Some("parse")), Mark(Extracting, Some("guardrail")), Mark(Scoring, Some("extract")),
       Mark(Routing, Some("score")), Mark(Routing, Some("route"))]
  }

  predicate Bears(s: State, m: Mark) {
    s.status == Some(m.status) && s.currentStep == m.step
  }

  lemma LateMarks(x: State)
    requires x.status.Some?
    ensures Halted(x) ==> Bears(Late(4, x), Mark(x.status.value, x.currentStep))
    ensures !Halted(x) ==> Bears(Late(4, x), Mark(Routing, Some("score")))
    ensures Bears(Late(5, x), Mark(if Halted(x) then x.status.value else Routing, Some("route")))
  {
  }

  lemma StoppedMarks(s: State, w: World, llm: Llm)
    requires Seeded(s) && !ReachesModel(s, w)
    ensures Bears(Merge(s, ParseNode(s, w)), Marks(s, w, llm)[1]) && Bears(Front(s, w), Marks(s, w, llm)[2])
    ensures AfterExtract(s, w, llm) == Front(s, w)
  {
    NothingToExtract(Front(s, w), llm);
    if !s.isCancelled.value && w.parse.Parsed? && !IsEmpty(w.parse.text) {
      InjectedReference(s, w);
    }
  }

  lemma ModelMarks(s: State, w: World, llm: Llm)
    requires Seeded(s) && ReachesModel(s, w)
    ensures Bears(Merge(s, ParseNode(s, w)), Marks(s, w, llm)[1]) && Bears(Front(s, w), Marks(s, w, llm)[2])
    ensures Bears(AfterExtract(s, w, llm), Marks(s, w, llm)[3])
  {
    FrontReference(s, w);
  }

  /** Every checkpoint of a fresh run says how far the run is and how it stands. */
  lemma CheckpointsAreMarked(s: State, w: World, llm: Llm, n: nat)
    requires Seeded(s) && n <= 5
    ensures Bears(After(n, s, w, llm), Marks(s, w, llm)[n])
  {
    if ReachesModel(s, w) {
      ModelMarks(s, w, llm);
    } else {
      StoppedMarks(s, w, llm);
    }
    LateMarks(AfterExtract(s, w, llm));
  }

  /** The guardrails block a text that is absent or blank, after the injection scan had its say. */
  lemma NoTextIsBlocked(s: State, w: World)
    requires !Halted(s)
    requires s.text.Some? ==> forall c | c in s.text.value.raw :: c in Text.Spaces
    ensures var hit := w.injection(if s.text.Some? then s.text.value.raw else "");
            GuardrailNode(s, w) == Nothing.(
              status := Some(Error),
              currentStep := Some("guardrail"),
              failureReason := Some(if hit.Some? then INJECTION_DETECTED else GUARDRAIL_BLOCK),
              error := Some(if hit.None? then "parsed text is empty"
                            else if hit.value == "" then "guardrail blocked" else hit.value),
              reports := Some([
                if hit.Some? then GuardOutcome("injection", Block, hit.value, 1.0)
                else GuardOutcome("injection", Pass, "", 1.0),
                GuardOutcome("text_quality", Block, "parsed text is empty", 1.0)]))
  {
    var raw := if s.text.Some? then s.text.value.raw else "";
    Text.StripKeepsInk(raw);
    var outcomes := RunGuardrails(w, raw);
    assert outcomes[1].result == Block && outcomes[1..] == [outcomes[1]];
    assert HasBlock(outcomes) && HasBlock(outcomes[1..]);
    assert FirstBlock(outcomes[1..]) == outcomes[1];
  }

  // ---- What stands in for an absent key -----------------------------------------------------

  /** A state without a score is routed as one of score 0, and one without a schema at the
      default thresholds; a state that has been given nothing scores nothing. */
  lemma DefaultsApply(s: State)
    requires !Halted(s)
    ensures var confidence := if s.scored.Some? then s.scored.value.confidence else 0.0;
            RouteDecision(s) ==
            if confidence >= (if s.seed.Some? then s.seed.value.high else 0.85) then Deliver
            else if confidence >= (if s.seed.Some? then s.seed.value.medium else 0.6) then Review
            else Dlq
    ensures s.seed == None && s.extracted == None && s.multiplier == None ==>
              && AfterScore(s).missing == Some([])
              && AfterScore(s).scored == Some(Scored(0.0, Breakdown(0.0, 1.0, 0.0, 0.0)))
    ensures s.seed == None && s.extracted.Some? && s.multiplier == None ==>
              && AfterScore(s).scored.Some?
              && AfterScore(s).scored.value.breakdown
                 == BreakdownOf(s.extracted.value.json, [], 0, s.extracted.value.confidence, 1.0)
  {
    ConfidenceIsExactly(map[], [], 0, 0.0, 1.0);
    FillIsExactly(map[], 0);
    assert RoundHalfEven(0.0) == 0 && RoundHalfEven(10000.0) == 10000;
  }
}
