/** The extraction graph: nodes that answer a state with a partial update, merged key
    by key, and runs that crash and start again on the last checkpoint. */
module Pipeline {
  import opened Wrappers
  import opened JsonValues
  import opened Documents
  import opened Confidence
  import opened Guardrails
  import Text

  datatype Reason =
    | PARSE_FAILED | PARSE_EMPTY_OUTPUT | GUARDRAIL_BLOCK | INJECTION_DETECTED | EXTRACTION_FAILED | LOW_CONFIDENCE

  /** Keys that are only ever written together are one field here. */
  datatype Seed = Seed(fileKey: string, high: real, medium: real, props: nat, required: seq<string>)

  datatype ParsedText = ParsedText(raw: string, how: string)

  datatype Extracted = Extracted(json: Fields, model: string, confidence: real, low: seq<string>)

  datatype Scored = Scored(confidence: real, breakdown: Breakdown)

  /** The state dictionary; None is an absent key. */
  datatype State = State(
    seed: Option<Seed>,
    isCancelled: Option<bool>,
    status: Option<Status>,
    currentStep: Option<string>,
    text: Option<ParsedText>,
    reports: Option<seq<GuardOutcome>>,
    multiplier: Option<real>,
    extracted: Option<Extracted>,
    missing: Option<seq<string>>,
    scored: Option<Scored>,
    routing: Option<Tier>,
    failureReason: Option<Reason>,
    error: Option<string>)

  const Nothing := State(None, None, None, None, None, None, None, None, None, None, None, None, None)

  const Defaults := Seed("", 0.85, 0.60, 0, [])

  function Or<T>(update: Option<T>, kept: Option<T>): Option<T> {
    if update.Some? then update else kept
  }

  function Merge(s: State, u: State): State {
    State(
      Or(u.seed, s.seed),
      Or(u.isCancelled, s.isCancelled),
      Or(u.status, s.status),
      Or(u.currentStep, s.currentStep),
      Or(u.text, s.text),
      Or(u.reports, s.reports),
      Or(u.multiplier, s.multiplier),
      Or(u.extracted, s.extracted),
      Or(u.missing, s.missing),
      Or(u.scored, s.scored),
      Or(u.routing, s.routing),
      Or(u.failureReason, s.failureReason),
      Or(u.error, s.error))
  }

  // ---- What the nodes ask of the world ---------------------------------------------

  datatype ParseAnswer = Parsed(text: string, how: string) | ParseRaised(message: string)

  /** The parser's answer, the injection scan, and whether a text looks too short or
      too garbled; all are functions of the stored file. */
  datatype World = World(parse: ParseAnswer, injection: string -> Option<string>, weak: string -> Option<string>)

  /** One answer of the extraction chain; each call may get another. */
  datatype Llm = Answer(fields: Fields, confidence: real, low: seq<string>, missing: seq<string>)
      | Raised(message: string)

  predicate IsEmpty(text: string) {
    |Text.Strip(Text.WithoutNewlines(text))| < 10
  }

  function RunGuardrails(w: World, text: string): seq<GuardOutcome> {
    [match w.injection(text)
     case Some(hit) => GuardOutcome("injection", Block, hit, 1.0)
     case None => GuardOutcome("injection", Pass, "", 1.0),
     if Text.Strip(text) == "" then GuardOutcome("text_quality", Block, "parsed text is empty", 1.0)
     else match w.weak(text)
       case Some(why) => GuardOutcome("text_quality", Warn, why, WARN_MULTIPLIER)
       case None => GuardOutcome("text_quality", Pass, "", 1.0)]
  }

  // ---- The nodes ----------------------------------------------------------------------

  predicate Halted(s: State) {
    s.status in {Some(Error), Some(Cancelled)}
  }

  function ParseNode(s: State, w: World): State {
    if s.isCancelled == Some(true) then
      Nothing.(status := Some(Cancelled), currentStep := Some("parse"))
    else
      match w.parse
      case ParseRaised(message) =>
        Nothing.(status := Some(Error), failureReason := Some(PARSE_FAILED), error := Some(message))
      case Parsed(text, how) =>
        if IsEmpty(text) then
          Nothing.(status := Some(Error), failureReason := Some(PARSE_EMPTY_OUTPUT),
              text := Some(ParsedText(text, how)),
                   currentStep := Some("parse"))
        else
          Nothing.(text := Some(ParsedText(text, how)), currentStep := Some("parse"), status := Some(Guarding))
  }

  /** The first blocking outcome, in the order the guardrails run. */
  function FirstBlock(outcomes: seq<GuardOutcome>): GuardOutcome
    requires HasBlock(outcomes)
  {
    if outcomes[0].result == Block then outcomes[0] else FirstBlock(outcomes[1..])
  }

  function GuardrailNode(s: State, w: World): State {
    if Halted(s) then Nothing
    else
      var outcomes := RunGuardrails(w, if s.text.Some? then s.text.value.raw else "");
      if HasBlock(outcomes) then
        var blocked := FirstBlock(outcomes);
        Nothing.(reports := Some(outcomes), status := Some(Error),
                 failureReason := Some(if blocked.name == "injection" then INJECTION_DETECTED else GUARDRAIL_BLOCK),
                 error := Some(if blocked.detail != "" then blocked.detail else "guardrail blocked"),
                 currentStep := Some("guardrail"))
      else
        Nothing.(reports := Some(outcomes), multiplier := Some(Aggregate(outcomes)),
                 currentStep := Some("guardrail"), status := Some(Extracting))
  }

  predicate HasExtraction(s: State) {
    s.extracted.Some? && s.extracted.value.json != map[]
  }

  predicate CallsLlm(s: State) {
    !Halted(s) && !HasExtraction(s)
  }

  function ExtractNode(s: State, llm: Llm): State {
    if !CallsLlm(s) then Nothing
    else
      match llm
      case Raised(message) =>
        Nothing.(status := Some(Error), failureReason := Some(EXTRACTION_FAILED), error := Some(message))
      case Answer(fields, confidence, low, missing) =>
        Nothing.(extracted := Some(Extracted(fields, "primary", confidence, low)), missing := Some(missing),
                 currentStep := Some("extract"), status := Some(Scoring))
  }

  function ScoreNode(s: State): State {
    if Halted(s) then Nothing
    else
      var extracted := s.extracted.GetOr(Extracted(map[], "", 0.0, []));
      var seed := s.seed.GetOr(Defaults);
      var b := BreakdownOf(extracted.json, seed.required, seed.props, extracted.confidence, s.multiplier.GetOr(1.0));
      Nothing.(scored := Some(Scored(b.adjusted, b)), missing := Some(MissingRequired(extracted.json, seed.required)),
               currentStep := Some("score"), status := Some(Routing))
  }

  datatype Branch = Deliver | Review | Dlq

  function RouteDecision(s: State): Branch {
    if Halted(s) then Dlq
    else
      var seed := s.seed.GetOr(Defaults);
      match Rank(if s.scored.Some? then s.scored.value.confidence else 0.0, seed.high, seed.medium)
      case 2 => Deliver
      case 1 => Review
      case _ => Dlq
  }

  function RouteNode(s: State): State {
    Nothing.(routing := Some(match RouteDecision(s) case Deliver => HIGH case Review => MEDIUM case Dlq => LOW),
             currentStep := Some("route"))
  }

  function TerminalNode(s: State): State {
    match RouteDecision(s)
    case Deliver => Nothing.(status := Some(Completed), currentStep := Some("deliver"))
    case Review => Nothing.(status := Some(InReview), currentStep := Some("create_review"))
    case Dlq =>
      if s.status == Some(Cancelled) then Nothing.(currentStep := Some("dlq"))
      else Nothing.(status := Some(Rejected), failureReason := Some(s.failureReason.GetOr(LOW_CONFIDENCE)),
          currentStep := Some("dlq"))
  }

  // ---- A run ------------------------------------------------------------------------------

  /** START, parse, guardrail. */
  function Front(s: State, w: World): State {
    var parsed := Merge(s, ParseNode(s, w));
    Merge(parsed, GuardrailNode(parsed, w))
  }

  function AfterExtract(s: State, w: World, llm: Llm): State {
    var guarded := Front(s, w);
    Merge(guarded, ExtractNode(guarded, llm))
  }

  function AfterScore(s: State): State {
    Merge(s, ScoreNode(s))
  }

  function AfterRoute(s: State): State {
    Merge(s, RouteNode(s))
  }

  function AfterEnd(s: State): State {
    Merge(s, TerminalNode(s))
  }

  /** Score, route and the terminal node. */
  function Finish(s: State): State {
    AfterEnd(AfterRoute(AfterScore(s)))
  }

  /** The checkpoint after the first n of the six nodes, from what extract left on. */
  function Late(n: nat, extracted: State): State
    requires n >= 3
  {
    match n
    case 3 => extracted
    case 4 => AfterScore(extracted)
    case 5 => AfterRoute(AfterScore(extracted))
    case _ => Finish(extracted)
  }

  /** The checkpoint after the first n of the six nodes. */
  function After(n: nat, s: State, w: World, llm: Llm): State {
    match n
    case 0 => s
    case 1 => Merge(s, ParseNode(s, w))
    case 2 => Front(s, w)
    case _ => Late(n, AfterExtract(s, w, llm))
  }

  /** An uninterrupted run from state s. */
  function Run(s: State, w: World, llm: Llm): State {
    Finish(AfterExtract(s, w, llm))
  }

  /** What the runner seeds: the schema's thresholds and fields, and a clean slate. */
  function Initial(seed: Seed, cancelled: bool): State {
    Nothing.(seed := Some(seed), isCancelled := Some(cancelled), status := Some(Pending))
  }

  /** A state as the runner seeds it. */
  predicate Seeded(s: State) {
    s.seed.Some? && s.isCancelled.Some? && s == Initial(s.seed.value, s.isCancelled.value)
  }
}
