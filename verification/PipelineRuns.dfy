/** What every run of the extraction graph comes to, and what a crash cannot change. */
module PipelineRuns {
  import opened Wrappers
  import opened JsonValues
  import opened Documents
  import opened Confidence
  import opened Guardrails
  import opened Pipeline
  import Text

  // ---- How a fresh run ends -----------------------------------------------------------

  predicate Injected(w: World) {
    w.parse.Parsed? && w.injection(w.parse.text).Some?
  }

  /** The run gets as far as the model: not cancelled, some text, no guardrail block. */
  predicate ReachesModel(s: State, w: World) {
    s.isCancelled != Some(true) && w.parse.Parsed? && !IsEmpty(w.parse.text) && !Injected(w)
  }

  /** Text the parser accepts is never blank to the text-quality guardrail. */
  lemma ParsedTextHasInk(text: string)
    requires !IsEmpty(text)
    ensures Text.Strip(text) != ""
  {
    Text.StripKeepsInk(Text.WithoutNewlines(text));
    Text.NewlinesAreNotInk(text);
    Text.StripKeepsInk(text);
  }

  lemma GuardsBlockOnInjection(w: World, text: string)
    requires !IsEmpty(text)
    ensures HasBlock(RunGuardrails(w, text)) <==> w.injection(text).Some?
    ensures HasBlock(RunGuardrails(w, text)) ==> FirstBlock(RunGuardrails(w, text)).name == "injection"
    ensures Penalties(RunGuardrails(w, text))
  {
    ParsedTextHasInk(text);
    var outcomes := RunGuardrails(w, text);
    assert outcomes[0] in outcomes && outcomes[1] in outcomes;
    assert forall o | o in outcomes :: o == outcomes[0] || o == outcomes[1];
  }

  /** Where parse and guardrails leave a run. */
  lemma FrontEnds(s: State, w: World)
    requires s.isCancelled.Some?
    ensures var g := Front(s, w);
            && (Halted(g) <==> !ReachesModel(s, w))
            && (g.status == Some(Cancelled) <==> s.isCancelled.value)
            && (g.status == Some(Error) ==>
                  g.failureReason in {Some(PARSE_FAILED), Some(PARSE_EMPTY_OUTPUT), Some(INJECTION_DETECTED)})
            && (!(g.status == Some(Error)) ==> g.failureReason == s.failureReason)
            && (!Halted(g) ==> g.multiplier == Some(Aggregate(RunGuardrails(w, w.parse.text))))
            && g.seed == s.seed && g.extracted == s.extracted
  {
    if w.parse.Parsed? && !IsEmpty(w.parse.text) {
      GuardsBlockOnInjection(w, w.parse.text);
    }
  }

  /** The last three nodes, from any state: a halted one is rejected or stays cancelled. */
  lemma FinishEnds(x: State)
    ensures var f := Finish(x);
            && f.seed == x.seed && f.extracted == x.extracted && f.multiplier == x.multiplier
            && (Halted(x) ==> f.routing == Some(LOW) && f.scored == x.scored)
            && (x.status == Some(Cancelled) ==> f.status == Some(Cancelled) && f.failureReason == x.failureReason)
            && (x.status == Some(Error) ==>
                  f.status == Some(Rejected) && f.failureReason == Some(x.failureReason.GetOr(LOW_CONFIDENCE)))
            && (!Halted(x) ==> (f.status, f.routing) in {(Some(Completed), Some(HIGH)), (Some(InReview), Some(MEDIUM)),
                                                         (Some(Rejected), Some(LOW))})
            && (!Halted(x) ==>
                  f.failureReason == if f.status == Some(Rejected) then Some(x.failureReason.GetOr(LOW_CONFIDENCE))
                                     else x.failureReason)
  {
  }

  /** The extract node halts a run only by the model raising, and says so. */
  lemma ExtractEnds(g: State, llm: Llm)
    ensures var x := Merge(g, ExtractNode(g, llm));
            && (Halted(g) ==> x == g)
            && (!Halted(g) ==> x.status != Some(Cancelled))
            && (!Halted(g) && x.status == Some(Error) ==> x.failureReason == Some(EXTRACTION_FAILED))
            && (!Halted(g) && !Halted(x) ==> x.failureReason == g.failureReason)
            && x.seed == g.seed && x.multiplier == g.multiplier && x.scored == g.scored
  {
  }

  /** Every run on a fresh thread ends completed, in review, rejected or cancelled, with
      the matching tier, with a failure reason exactly when rejected (never
      GUARDRAIL_BLOCK), and calls the model exactly when it gets that far. */
  lemma FreshRunEnds(s: State, w: World, llm: Llm)
    requires Seeded(s)
    ensures EndsWell(Run(s, w, llm), s.isCancelled.value)
    ensures CallsLlm(Front(s, w)) <==> ReachesModel(s, w)
  {
    var g := Front(s, w);
    FrontEnds(s, w);
    ExtractEnds(g, llm);
    FinishEndsWell(Merge(g, ExtractNode(g, llm)), s.isCancelled.value);
  }

  predicate EndsWell(f: State, cancelled: bool) {
    && (f.status, f.routing) in {(Some(Completed), Some(HIGH)), (Some(InReview), Some(MEDIUM)),
                                 (Some(Rejected), Some(LOW)), (Some(Cancelled), Some(LOW))}
    && (f.status == Some(Cancelled) <==> cancelled)
    && (f.failureReason.Some? <==> f.status == Some(Rejected))
    && f.failureReason != Some(GUARDRAIL_BLOCK)
  }

  lemma FinishEndsWell(x: State, cancelled: bool)
    requires x.status == Some(Cancelled) <==> cancelled
    requires x.failureReason.Some? <==> x.status == Some(Error)
    requires x.failureReason != Some(GUARDRAIL_BLOCK)
    ensures EndsWell(Finish(x), cancelled)
  {
    FinishEnds(x);
  }

  /** What a run that reaches the model, and gets an answer, ends with. */
  lemma ScoreOfRun(s: State, w: World, llm: Llm)
    requires Seeded(s) && ReachesModel(s, w) && llm.Answer?
    ensures var f := Run(s, w, llm);
            && f.scored.Some? && f.scored.value.confidence == RunConfidence(s, w, llm)
            && f.extracted.Some? && f.extracted.value.json == llm.fields
            && f.multiplier == Some(Aggregate(RunGuardrails(w, w.parse.text)))
            && TierRank(f.routing.GetOr(LOW)) == Rank(RunConfidence(s, w, llm), s.seed.value.high, s.seed.value.medium)
            && (f.status == Some(Completed) <==> f.routing == Some(HIGH))
  {
    FrontEnds(s, w);
  }

  lemma RunConfidenceIsBounded(s: State, w: World, llm: Llm)
    requires Seeded(s) && ReachesModel(s, w) && llm.Answer?
    ensures var m := Aggregate(RunGuardrails(w, w.parse.text));
            && 0.0 <= RunConfidence(s, w, llm) <= 1.0
            && RunConfidence(s, w, llm) <= PenalisedCompleteness(llm.fields, s.seed.value.required, m) + 0.00005
            && RunConfidence(s, w, llm) <= Round4(m)
  {
    GuardsBlockOnInjection(w, w.parse.text);
    AggregateIsBounded(RunGuardrails(w, w.parse.text));
    ConfidenceIsBounded(llm.fields, s.seed.value.required, s.seed.value.props, llm.confidence,
                        Aggregate(RunGuardrails(w, w.parse.text)));
  }

  /** A fresh run's confidence lies in [0, 1], and it is delivered only if the fraction of
      required fields present, times the guardrail multiplier, reaches the high
      threshold up to the rounding. */
  lemma DeliveredRunsAreComplete(s: State, w: World, llm: Llm)
    requires Seeded(s)
    ensures var f := Run(s, w, llm);
            && (f.scored.Some? ==> 0.0 <= f.scored.value.confidence <= 1.0)
            && (f.status == Some(Completed) ==>
                  && f.extracted.Some? && f.multiplier.Some? && f.scored.Some?
                  && f.scored.value.confidence >= s.seed.value.high
                  && PenalisedCompleteness(f.extracted.value.json, s.seed.value.required, f.multiplier.value)
                     >= s.seed.value.high - 0.00005)
  {
    FrontEnds(s, w);
    FinishEnds(AfterExtract(s, w, llm));
    if ReachesModel(s, w) && llm.Answer? {
      ScoreOfRun(s, w, llm);
      RunConfidenceIsBounded(s, w, llm);
    } else {
      assert Front(s, w).scored == None;
    }
  }

  /** At any high threshold above 0.8, as the default of 0.85 is, a document whose text
      drew a WARN is never delivered. */
  lemma WarnedIsNotDelivered(s: State, w: World, llm: Llm)
    requires Seeded(s) && s.seed.value.high > 0.8
    requires w.parse.Parsed? && w.weak(w.parse.text).Some?
    ensures Run(s, w, llm).status != Some(Completed)
  {
    FrontEnds(s, w);
    FinishEnds(AfterExtract(s, w, llm));
    if ReachesModel(s, w) && llm.Answer? {
      ScoreOfRun(s, w, llm);
      RunConfidenceIsBounded(s, w, llm);
      WarnBoundsAggregate(w);
    }
  }

  lemma WarnBoundsAggregate(w: World)
    requires w.parse.Parsed? && !IsEmpty(w.parse.text) && w.weak(w.parse.text).Some?
    ensures Round4(Aggregate(RunGuardrails(w, w.parse.text))) <= 0.8
  {
    var outcomes := RunGuardrails(w, w.parse.text);
    GuardsBlockOnInjection(w, w.parse.text);
    ParsedTextHasInk(w.parse.text);
    assert outcomes[1] in outcomes;
    AggregateIsBounded(outcomes);
    assert RoundHalfEven(8000.0) == 8000;
    Round4IsMonotone(Aggregate(outcomes), 0.8);
  }

  // ---- Tiers move the right way -----------------------------------------------------------

  function TierRank(t: Tier): nat {
    match t case HIGH => 2 case MEDIUM => 1 case LOW => 0
  }

  function ReachedTier(s: State, w: World, llm: Llm): nat {
    TierRank(Run(s, w, llm).routing.GetOr(LOW))
  }

  function RunConfidence(s: State, w: World, llm: Llm): real
    requires Seeded(s) && w.parse.Parsed? && llm.Answer?
  {
    BreakdownOf(llm.fields, s.seed.value.required, s.seed.value.props, llm.confidence,
               Aggregate(RunGuardrails(w, w.parse.text))).adjusted
  }

  /** One more non-empty field never lowers the tier a fresh run reaches. */
  lemma MoreFieldsNeverLowerTier(s: State, w: World, llm: Llm, f: string, v: Json)
    requires Seeded(s) && llm.Answer? && IsPresent(Some(v))
    ensures ReachedTier(s, w, llm) <= ReachedTier(s, w, llm.(fields := llm.fields[f := v]))
  {
    FrontEnds(s, w);
    if ReachesModel(s, w) {
      var m := Aggregate(RunGuardrails(w, w.parse.text));
      GuardsBlockOnInjection(w, w.parse.text);
      AggregateIsBounded(RunGuardrails(w, w.parse.text));
      var more := llm.(fields := llm.fields[f := v]);
      ScoreOfRun(s, w, llm);
      ScoreOfRun(s, w, more);
      MoreFieldsNeverHurt(llm.fields, f, v, s.seed.value.required, s.seed.value.props, llm.confidence, m);
      RankIsMonotone(RunConfidence(s, w, llm), RunConfidence(s, w, more), s.seed.value.high, s.seed.value.medium);
    }
  }

  /** Turning a PASS into a WARN with a multiplier of at most 1 never raises the tier,
      for any list of guardrails. */
  lemma WarnNeverRaisesTier(outcomes: seq<GuardOutcome>, i: nat, warn: GuardOutcome,
                            extracted: Fields, required: seq<string>, props: nat, llm: real, high: real, medium: real)
    requires i < |outcomes| && outcomes[i].result == Pass && warn.result == Warn && warn.multiplier <= 1.0
    requires forall o | o in outcomes :: 0.0 <= Factor(o)
    ensures Rank(BreakdownOf(extracted, required, props, llm, Aggregate(outcomes[i := warn])).adjusted, high, medium)
            <= Rank(BreakdownOf(extracted, required, props, llm, Aggregate(outcomes)).adjusted, high, medium)
  {
    WarnLowersAggregate(outcomes, i, warn);
    PenaltyNeverHelps(extracted, required, props, llm, Aggregate(outcomes), Aggregate(outcomes[i := warn]));
    RankIsMonotone(BreakdownOf(extracted, required, props, llm, Aggregate(outcomes[i := warn])).adjusted,
                   BreakdownOf(extracted, required, props, llm, Aggregate(outcomes)).adjusted, high, medium);
  }

  function Weakened(w: World, why: string): World {
    w.(weak := _ => Some(why))
  }

  lemma WarnLowersRank(w: World, text: string, why: string, extracted: Fields, seed: Seed, llm: real)
    requires !IsEmpty(text) && w.weak(text).None?
    ensures Rank(BreakdownOf(extracted, seed.required, seed.props, llm,
        Aggregate(RunGuardrails(Weakened(w, why), text))).adjusted,
                 seed.high, seed.medium)
            <= Rank(BreakdownOf(extracted, seed.required, seed.props, llm, Aggregate(RunGuardrails(w, text))).adjusted,
                    seed.high, seed.medium)
  {
    ParsedTextHasInk(text);
    GuardsBlockOnInjection(w, text);
    var outcomes, warn := RunGuardrails(w, text), RunGuardrails(Weakened(w, why), text)[1];
    assert RunGuardrails(Weakened(w, why), text) == outcomes[1 := warn];
    WarnNeverRaisesTier(outcomes, 1, warn, extracted, seed.required, seed.props, llm, seed.high, seed.medium);
  }

  lemma HaltedRunIsLow(s: State, w: World, llm: Llm)
    requires Seeded(s) && !ReachesModel(s, w)
    ensures ReachedTier(s, w, llm) == 0
  {
    FrontEnds(s, w);
    FinishEnds(AfterExtract(s, w, llm));
  }

  /** And in a run: had the text drawn a WARN it did not draw, its tier would be no higher. */
  lemma WarnedRunRanksNoHigher(s: State, w: World, llm: Llm, why: string)
    requires Seeded(s) && llm.Answer? && w.parse.Parsed? && w.weak(w.parse.text).None?
    ensures ReachedTier(s, Weakened(w, why), llm) <= ReachedTier(s, w, llm)
  {
    if ReachesModel(s, w) {
      ScoreOfRun(s, w, llm);
      ScoreOfRun(s, Weakened(w, why), llm);
      WarnLowersRank(w, w.parse.text, why, llm.fields, s.seed.value, llm.confidence);
    } else {
      HaltedRunIsLow(s, Weakened(w, why), llm);
    }
  }

  // ---- Crash and re-entry --------------------------------------------------------------------

  /** One invocation: the answer the model would give, and how many nodes were
      checkpointed before the process died. */
  datatype Invocation = Invocation(llm: Llm, nodes: nat)

  /** Re-entry starts again from START on the last checkpoint overridden by the seed. */
  function Reenter(checkpoint: State, seed: State): State {
    Merge(checkpoint, seed)
  }

  function Checkpoint(checkpoint: State, seed: State, w: World, crashes: seq<Invocation>): State
    decreases |crashes|
  {
    if crashes == [] then checkpoint
    else
      Checkpoint(After(crashes[0].nodes, Reenter(checkpoint, seed), w, crashes[0].llm), seed, w, crashes[1..])
  }

  predicate Settles(llm: Llm) {
    llm.Answer? && llm.fields != map[]
  }

  /** Parse and guardrail together, as one update that depends on the seed alone. */
  function FrontUpdate(cancelled: bool, w: World): State {
    var seed := Nothing.(isCancelled := Some(cancelled));
    var parsed := ParseNode(seed, w);
    Merge(parsed, GuardrailNode(Merge(seed, parsed), w))
  }

  lemma MergeIsAssociative(s: State, u: State, v: State)
    ensures Merge(Merge(s, u), v) == Merge(s, Merge(u, v))
  {
  }

  /** The guardrail reads only what parse has just written. */
  lemma GuardrailReadsParsed(s: State, s': State, w: World)
    requires s.isCancelled == Some(true) <==> s'.isCancelled == Some(true)
    ensures ParseNode(s, w) == ParseNode(s', w)
    ensures GuardrailNode(Merge(s, ParseNode(s, w)), w) == GuardrailNode(Merge(s', ParseNode(s', w)), w)
  {
  }

  lemma FrontIsUpdate(s: State, w: World)
    ensures Front(s, w) == Merge(s, FrontUpdate(s.isCancelled == Some(true), w))
  {
    var seed := Nothing.(isCancelled := Some(s.isCancelled == Some(true)));
    GuardrailReadsParsed(s, seed, w);
    MergeIsAssociative(s, ParseNode(s, w), GuardrailNode(Merge(s, ParseNode(s, w)), w));
  }

  /** A repeated seed changes nothing, and neither does an update that is made again. */
  lemma MadeAgain(checkpoint: State, seed: State, u: State, front: State)
    requires Merge(u, front) == front
    ensures Merge(Merge(Merge(Merge(checkpoint, seed), u), seed), front) == Merge(Merge(checkpoint, seed), front)
  {
  }

  lemma MergeTwice(u: State, v: State)
    ensures Merge(u, Merge(u, v)) == Merge(u, v) && Merge(v, v) == v && Merge(Nothing, v) == v && Merge(v, Nothing) == v
  {
  }

  /** A crash before the extraction is checkpointed: what parse and guardrail wrote
      they write again. */
  lemma EarlyCrashIsForgotten(checkpoint: State, seed: State, w: World, n: nat, llm: Llm)
    requires Seeded(seed) && n < 3
    ensures Front(Reenter(After(n, Reenter(checkpoint, seed), w, llm), seed), w) == Front(Reenter(checkpoint, seed), w)
  {
    var s := Reenter(checkpoint, seed);
    var x := After(n, s, w, llm);
    var front := FrontUpdate(seed.isCancelled == Some(true), w);
    FrontIsUpdate(s, w);
    FrontIsUpdate(Reenter(x, seed), w);
    var parsed := ParseNode(Nothing.(isCancelled := Some(seed.isCancelled == Some(true))), w);
    assert parsed == ParseNode(s, w);
    var u := if n == 0 then Nothing else if n == 1 then parsed else front;
    MergeTwice(s, Nothing);
    assert x == Merge(s, u);
    MergeTwice(parsed, GuardrailNode(Merge(Nothing.(isCancelled := Some(seed.isCancelled == Some(true))), parsed), w));
    MergeTwice(Nothing, front);
    MergeTwice(front, front);
    MadeAgain(checkpoint, seed, u, front);
  }

  /** The keys that scoring and routing never write. */
  predicate SameInputs(a: State, b: State) {
    && a.seed == b.seed && a.isCancelled == b.isCancelled && a.text == b.text && a.reports == b.reports
    && a.multiplier == b.multiplier && a.extracted == b.extracted && a.error == b.error
  }

  /** State a goes to its end as b does: a LOW_CONFIDENCE that it found is one that b gets. */
  predicate Redoes(a: State, b: State) {
    && !Halted(a) && !Halted(b) && SameInputs(a, b)
    && (a.failureReason == b.failureReason
        || (a.failureReason == Some(LOW_CONFIDENCE) && b.failureReason == None
            && RouteDecision(AfterRoute(AfterScore(b))) == Dlq))
  }

  lemma FinishIgnoresLeftovers(a: State, b: State)
    requires Redoes(a, b)
    ensures Finish(a) == Finish(b)
  {
    assert ScoreNode(a) == ScoreNode(b);
    var x, y := AfterRoute(AfterScore(a)), AfterRoute(AfterScore(b));
    assert RouteDecision(AfterScore(a)) == RouteDecision(AfterScore(b));
    assert x.(failureReason := None) == y.(failureReason := None);
    assert RouteDecision(x) == RouteDecision(y);
  }

  /** What the last nodes leave of the inputs, and of the failure reason. */
  lemma LateKeeps(b: State, n: nat)
    requires !Halted(b) && n >= 3
    ensures SameInputs(Late(n, b), b)
    ensures Late(n, b).failureReason == b.failureReason
            || (n >= 6 && b.failureReason == None && Late(n, b).failureReason == Some(LOW_CONFIDENCE)
                && RouteDecision(AfterRoute(AfterScore(b))) == Dlq)
  {
    LateNodesKeepInputs(b);
  }

  /** A crash after the extraction is checkpointed: the extraction stays, and the rest
      is worked out again from the same inputs. */
  lemma LateCrashIsRedone(checkpoint: State, seed: State, w: World, n: nat, llm: Llm, next: Llm)
    requires Seeded(seed) && n >= 3
    requires HasExtraction(checkpoint) || Settles(llm)
    requires !Halted(Front(Reenter(checkpoint, seed), w))
    ensures Run(Reenter(After(n, Reenter(checkpoint, seed), w, llm), seed), w, next)
            == Run(Reenter(checkpoint, seed), w, llm)
    ensures !CallsLlm(Front(Reenter(After(n, Reenter(checkpoint, seed), w, llm), seed), w))
  {
    var b := AfterExtract(Reenter(checkpoint, seed), w, llm);
    var again := Reenter(Late(n, b), seed);
    assert After(n, Reenter(checkpoint, seed), w, llm) == Late(n, b);
    BackAtModel(checkpoint, seed, w, n, llm);
    AbsorbedByFront(again, w, b, next);
  }

  /** A re-entry on a late checkpoint comes back to the model with its inputs. */
  lemma BackAtModel(checkpoint: State, seed: State, w: World, n: nat, llm: Llm)
    requires Seeded(seed) && n >= 3
    requires HasExtraction(checkpoint) || Settles(llm)
    requires !Halted(Front(Reenter(checkpoint, seed), w))
    ensures var b := AfterExtract(Reenter(checkpoint, seed), w, llm);
            var a := Front(Reenter(Late(n, b), seed), w);
            !CallsLlm(a) && Redoes(a, b)
  {
    var b := AfterExtract(Reenter(checkpoint, seed), w, llm);
    ExtractionIsMade(Reenter(checkpoint, seed), w, llm);
    LateKeeps(b, n);
    FrontRestoresInputs(checkpoint, seed, w, llm, Late(n, b));
  }

  lemma AbsorbedByFront(s: State, w: World, b: State, llm: Llm)
    requires !CallsLlm(Front(s, w)) && Redoes(Front(s, w), b)
    ensures Run(s, w, llm) == Finish(b)
  {
    NothingToExtract(Front(s, w), llm);
    FinishIgnoresLeftovers(Front(s, w), b);
  }

  lemma NothingToExtract(a: State, llm: Llm)
    requires !CallsLlm(a)
    ensures Merge(a, ExtractNode(a, llm)) == a
  {
  }

  lemma ExtractionIsMade(s: State, w: World, llm: Llm)
    requires !Halted(Front(s, w))
    requires HasExtraction(Front(s, w)) || Settles(llm)
    ensures var b := AfterExtract(s, w, llm); !Halted(b) && HasExtraction(b)
  {
  }

  /** Going through parse and guardrail again on a later checkpoint of the same run. */
  lemma FrontRestoresInputs(checkpoint: State, seed: State, w: World, llm: Llm, x: State)
    requires Seeded(seed) && !Halted(Front(Reenter(checkpoint, seed), w))
    requires var b := AfterExtract(Reenter(checkpoint, seed), w, llm);
             !Halted(b) && HasExtraction(b) && SameInputs(x, b)
    ensures var a := Front(Reenter(x, seed), w);
            && !Halted(a) && HasExtraction(a) && a.failureReason == x.failureReason
            && SameInputs(a, AfterExtract(Reenter(checkpoint, seed), w, llm))
  {
    FrontIsUpdate(Reenter(checkpoint, seed), w);
    FrontIsUpdate(Reenter(x, seed), w);
  }

  lemma LateNodesKeepInputs(b: State)
    requires !Halted(b)
    ensures SameInputs(AfterScore(b), b) && SameInputs(AfterRoute(AfterScore(b)), b) && SameInputs(Finish(b), b)
    ensures AfterScore(b).failureReason == b.failureReason && AfterRoute(AfterScore(b)).failureReason == b.failureReason
    ensures Finish(b).failureReason ==
            if RouteDecision(AfterRoute(AfterScore(b))) == Dlq then Some(b.failureReason.GetOr(LOW_CONFIDENCE))
                else b.failureReason
  {
  }

  /** What a halted state still takes from the last nodes. */
  lemma HaltedTail(g: State, n: nat, llm: Llm)
    requires Halted(g) && n >= 3
    ensures var x := Late(n, g);
            && SameInputs(x, g) && x.missing == g.missing && x.scored == g.scored
            && (x.failureReason == g.failureReason || (g.status == Some(Error) && g.failureReason == None))
  {
    assert AfterScore(g) == g;
  }

  lemma FinishOfHalted(a: State, b: State)
    requires Halted(a) && a.status == b.status && SameInputs(a, b)
    requires a.missing == b.missing && a.scored == b.scored && a.failureReason == b.failureReason
    ensures Finish(a) == Finish(b)
  {
    assert AfterScore(a) == a && AfterScore(b) == b;
    assert AfterRoute(a) == AfterRoute(b);
  }

  /** A run that parse or guardrail stops never uses the model's answer, and stops the
      same way every time. */
  lemma HaltedRunIsRepeated(checkpoint: State, seed: State, w: World, n: nat, llm: Llm, next: Llm)
    requires Seeded(seed) && n >= 3 && Halted(Front(Reenter(checkpoint, seed), w))
    ensures Run(Reenter(After(n, Reenter(checkpoint, seed), w, llm), seed), w, next)
            == Run(Reenter(checkpoint, seed), w, llm)
  {
    var s := Reenter(checkpoint, seed);
    var g, x := Front(s, w), After(n, s, w, llm);
    FrontIsUpdate(s, w);
    FrontIsUpdate(Reenter(x, seed), w);
    assert AfterExtract(s, w, llm) == g && AfterScore(g) == g;
    HaltedTail(g, n, llm);
    var a := Front(Reenter(x, seed), w);
    assert a.status == g.status;
    assert AfterExtract(Reenter(x, seed), w, next) == a;
    FinishOfHalted(a, g);
  }

  /** Nothing more will be asked of the model: it has answered, or is never reached. */
  predicate Decided(checkpoint: State, seed: State, w: World) {
    HasExtraction(checkpoint) || !ReachesModel(seed, w)
  }

  /** A crash leaves no trace in the final state: one that came before the extraction
      was checkpointed is forgotten, and one that came after it leaves the extraction
      it made. */
  lemma CrashIsAbsorbed(checkpoint: State, seed: State, w: World, n: nat, llm: Llm, next: Llm)
    requires Seeded(seed)
    requires n < 3 || Decided(checkpoint, seed, w) || Settles(llm)
    ensures var x := After(n, Reenter(checkpoint, seed), w, llm);
            && Run(Reenter(x, seed), w, next) == Run(Reenter(checkpoint, seed), w, if n < 3 then next else llm)
            && (n < 3 ==> HasExtraction(x) == HasExtraction(checkpoint))
            && (n >= 3 ==> Decided(x, seed, w))
  {
    FrontEnds(Reenter(checkpoint, seed), w);
    if n < 3 {
      EarlyCrashIsForgotten(checkpoint, seed, w, n, llm);
    } else if Halted(Front(Reenter(checkpoint, seed), w)) {
      HaltedRunIsRepeated(checkpoint, seed, w, n, llm, next);
    } else {
      LateCrashIsRedone(checkpoint, seed, w, n, llm, next);
      ExtractionIsMade(Reenter(checkpoint, seed), w, llm);
      LateNodesKeepInputs(AfterExtract(Reenter(checkpoint, seed), w, llm));
    }
  }

  /** The answer in effect: the first whose extract node was checkpointed, or else the
      one the last invocation gets. */
  function Effective(crashes: seq<Invocation>, last: Llm): Llm {
    if crashes == [] then last
    else if crashes[0].nodes >= 3 then crashes[0].llm
    else Effective(crashes[1..], last)
  }

  /** The first answer to be checkpointed, if any is, is a non-empty extraction. */
  predicate FirstAnswerSettles(crashes: seq<Invocation>) {
    crashes != [] ==>
      if crashes[0].nodes >= 3 then Settles(crashes[0].llm) else FirstAnswerSettles(crashes[1..])
  }

  lemma {:induction false} CrashesAreAbsorbed(checkpoint: State, seed: State, w: World, crashes: seq<Invocation>,
      last: Llm)
    requires Seeded(seed)
    requires Decided(checkpoint, seed, w) || FirstAnswerSettles(crashes)
    ensures Run(Reenter(Checkpoint(checkpoint, seed, w, crashes), seed), w, last)
            == Run(Reenter(checkpoint, seed), w, Effective(crashes, last))
    ensures Decided(checkpoint, seed, w) || (exists i :: i in crashes && i.nodes >= 3) ==>
              Decided(Checkpoint(checkpoint, seed, w, crashes), seed, w)
    decreases |crashes|
  {
    if crashes != [] {
      var i := crashes[0];
      var x := After(i.nodes, Reenter(checkpoint, seed), w, i.llm);
      CrashesAreAbsorbed(x, seed, w, crashes[1..], last) by {
        CrashIsAbsorbed(checkpoint, seed, w, i.nodes, i.llm, last);
      }
      CrashIsAbsorbed(checkpoint, seed, w, i.nodes, i.llm, Effective(crashes[1..], last));
      assert forall j | j in crashes :: j == i || j in crashes[1..];
    }
  }

  /** However often a run crashes and is re-entered with its seed merged over the last
      checkpoint, it ends in the full state of one uninterrupted run on the first
      checkpointed extraction, if that was not empty or the model is never reached; and
      once that extraction is checkpointed the model is not called again. */
  lemma CrashesLeaveNoTrace(seed: State, w: World, crashes: seq<Invocation>, last: Llm)
    requires Seeded(seed) && (FirstAnswerSettles(crashes) || !ReachesModel(seed, w))
    ensures var checkpoint := Checkpoint(Nothing, seed, w, crashes);
            && Run(Reenter(checkpoint, seed), w, last) == Run(seed, w, Effective(crashes, last))
            && ((exists i :: i in crashes && i.nodes >= 3) ==> !CallsLlm(Front(Reenter(checkpoint, seed), w)))
  {
    assert Reenter(Nothing, seed) == seed;
    CrashesAreAbsorbed(Nothing, seed, w, crashes, last);
    FrontEnds(Reenter(Checkpoint(Nothing, seed, w, crashes), seed), w);
  }

  // ---- Crashes after an answer that did not settle -------------------------------------------

  /** What earlier answers have left behind: an error message, an empty extraction, and the
      LOW_CONFIDENCE of a run that finished on one. */
  datatype Leftover = Leftover(raised: bool, emptied: bool, low: bool)

  const Clean := Leftover(false, false, false)

  predicate EndsRejected(seed: State, w: World, llm: Llm) {
    Run(seed, w, llm).status == Some(Rejected)
  }

  function Leave(lo: Leftover, seed: State, w: World, i: Invocation): Leftover {
    if i.nodes < 3 then lo
    else if i.llm.Raised? then lo.(raised := true)
    else lo.(emptied := true, low := lo.low || (i.nodes >= 6 && EndsRejected(seed, w, i.llm)))
  }

  /** The state in which a re-entry reaches the model, against that of a fresh run. */
  predicate Carries(a: State, g: State, lo: Leftover) {
    && CallsLlm(a) && CallsLlm(g)
    && g.error == None && g.extracted == None && g.missing == None && g.scored == None && g.failureReason == None
    && SameInputs(a.(extracted := None, error := None), g)
    && (a.error.Some? <==> lo.raised)
    && (a.extracted.Some? <==> lo.emptied)
    && (!lo.emptied ==> a.missing == None && a.scored == None)
    && (!lo.raised ==> a.failureReason == if lo.low then Some(LOW_CONFIDENCE) else None)
  }

  lemma FreshCarriesNothing(seed: State, w: World)
    requires Seeded(seed) && ReachesModel(seed, w)
    ensures Carries(Front(seed, w), Front(seed, w), Clean)
  {
    FrontEnds(seed, w);
  }

  /** How an answer that did not settle ends, on what it finds: its confidence, and so its
      route, are those of a fresh run. */
  lemma SameRoute(a: State, g: State, lo: Leftover, llm: Llm)
    requires Carries(a, g, lo) && llm.Answer?
    ensures var x, y := Merge(a, ExtractNode(a, llm)), Merge(g, ExtractNode(g, llm));
            && !Halted(x) && !Halted(y) && ScoreNode(x) == ScoreNode(y)
            && RouteDecision(AfterRoute(AfterScore(x))) == RouteDecision(AfterRoute(AfterScore(y)))
            && (RouteDecision(AfterRoute(AfterScore(y))) == Dlq <==> Finish(y).status == Some(Rejected))
  {
  }

  lemma FinishKeepsInputs(x: State)
    ensures SameInputs(Finish(x), x)
  {
  }

  /** What a checkpoint keeps of an answer that raised. */
  lemma RaisedLeaves(a: State, g: State, lo: Leftover, n: nat, llm: Llm)
    requires Carries(a, g, lo) && n >= 3 && llm.Raised?
    ensures var b := Merge(a, ExtractNode(a, llm));
            var x := Late(n, b);
            && SameInputs(x.(error := None), a.(error := None)) && x.error.Some?
            && x.missing == a.missing && x.scored == a.scored
  {
    HaltedTail(Merge(a, ExtractNode(a, llm)), n, llm);
  }

  /** What a checkpoint keeps of an empty answer. */
  lemma EmptyLeaves(a: State, g: State, lo: Leftover, n: nat, llm: Llm)
    requires Carries(a, g, lo) && n >= 3 && llm.Answer? && llm.fields == map[]
    ensures var b := Merge(a, ExtractNode(a, llm));
            var x := Late(n, b);
            && SameInputs(x.(extracted := None), a.(extracted := None)) && x.extracted.Some?
                && x.extracted.value.json == map[]
            && x.failureReason ==
               if n >= 6 && Finish(Merge(g, ExtractNode(g, llm))).status == Some(Rejected)
               then Some(a.failureReason.GetOr(LOW_CONFIDENCE)) else a.failureReason
  {
    var b := Merge(a, ExtractNode(a, llm));
    SameRoute(a, g, lo, llm);
    LateNodesKeepInputs(b);
    assert Late(n, b).extracted == b.extracted;
  }

  /** Parse and guardrail make a late checkpoint reach the model as before. */
  lemma FrontCarries(s: State, seed: State, w: World, x: State, lo: Leftover, lo': Leftover)
    requires Seeded(seed) && Carries(Front(Reenter(s, seed), w), Front(seed, w), lo)
    requires var a := Front(Reenter(s, seed), w);
             && x.seed == a.seed && x.isCancelled == a.isCancelled && x.text == a.text && x.reports == a.reports
             && x.multiplier == a.multiplier
    requires x.extracted.Some? ==> x.extracted.value.json == map[]
    requires (x.error.Some? <==> lo'.raised) && (x.extracted.Some? <==> lo'.emptied)
    requires !lo'.emptied ==> x.missing == None && x.scored == None
    requires !lo'.raised ==> x.failureReason == if lo'.low then Some(LOW_CONFIDENCE) else None
    ensures Carries(Front(Reenter(x, seed), w), Front(seed, w), lo')
  {
    FrontIsUpdate(Reenter(s, seed), w);
    FrontIsUpdate(Reenter(x, seed), w);
    FrontIsUpdate(seed, w);
  }

  lemma CrashCarries(s: State, seed: State, w: World, lo: Leftover, i: Invocation)
    requires Seeded(seed) && Carries(Front(Reenter(s, seed), w), Front(seed, w), lo)
    requires i.nodes < 3 || !Settles(i.llm)
    ensures Carries(Front(Reenter(After(i.nodes, Reenter(s, seed), w, i.llm), seed), w), Front(seed, w),
        Leave(lo, seed, w, i))
  {
    var a, g := Front(Reenter(s, seed), w), Front(seed, w);
    var x := After(i.nodes, Reenter(s, seed), w, i.llm);
    if i.nodes < 3 {
      EarlyCrashIsForgotten(s, seed, w, i.nodes, i.llm);
    } else {
      if i.llm.Raised? {
        RaisedLeaves(a, g, lo, i.nodes, i.llm);
      } else {
        EmptyLeaves(a, g, lo, i.nodes, i.llm);
      }
      FrontCarries(s, seed, w, x, lo, Leave(lo, seed, w, i));
    }
  }

  /** Whether an answer that meets leftovers comes out as in a fresh run. */
  predicate Washes(lo: Leftover, seed: State, w: World, llm: Llm) {
    if llm.Raised? then !lo.emptied else !lo.raised && (lo.low ==> EndsRejected(seed, w, llm))
  }

  lemma RaisedOnLeftovers(a: State, g: State, lo: Leftover, llm: Llm)
    requires Carries(a, g, lo) && llm.Raised?
    ensures Finish(Merge(a, ExtractNode(a, llm))) == Finish(Merge(g, ExtractNode(g, llm))) <==> !lo.emptied
  {
    var x, y := Merge(a, ExtractNode(a, llm)), Merge(g, ExtractNode(g, llm));
    FinishKeepsInputs(x);
    FinishKeepsInputs(y);
    if !lo.emptied {
      FinishOfHalted(x, y);
    }
  }

  lemma AnsweredOnLeftovers(a: State, g: State, lo: Leftover, llm: Llm)
    requires Carries(a, g, lo) && llm.Answer?
    ensures Finish(Merge(a, ExtractNode(a, llm))) == Finish(Merge(g, ExtractNode(g, llm)))
            <==> !lo.raised && (lo.low ==> Finish(Merge(g, ExtractNode(g, llm))).status == Some(Rejected))
  {
    var x, y := Merge(a, ExtractNode(a, llm)), Merge(g, ExtractNode(g, llm));
    FinishKeepsInputs(x);
    FinishKeepsInputs(y);
    SameRoute(a, g, lo, llm);
    LateNodesKeepInputs(x);
    LateNodesKeepInputs(y);
    if !lo.raised && (lo.low ==> Finish(y).status == Some(Rejected)) {
      FinishIgnoresLeftovers(x, y);
    }
  }

  lemma OnLeftovers(s: State, seed: State, w: World, lo: Leftover, llm: Llm)
    requires Seeded(seed) && Carries(Front(Reenter(s, seed), w), Front(seed, w), lo)
    ensures Run(Reenter(s, seed), w, llm) == Run(seed, w, llm) <==> Washes(lo, seed, w, llm)
  {
    var a, g := Front(Reenter(s, seed), w), Front(seed, w);
    if llm.Raised? {
      RaisedOnLeftovers(a, g, lo, llm);
    } else {
      AnsweredOnLeftovers(a, g, lo, llm);
    }
  }

  /** The answer in the end: the first non-empty extraction to be checkpointed, or else what
      the last invocation gets. */
  function Final(crashes: seq<Invocation>, last: Llm): Llm {
    if crashes == [] then last
    else if crashes[0].nodes >= 3 && Settles(crashes[0].llm) then crashes[0].llm
    else Final(crashes[1..], last)
  }

  function Leftovers(lo: Leftover, seed: State, w: World, crashes: seq<Invocation>): Leftover
    decreases |crashes|
  {
    if crashes == [] || (crashes[0].nodes >= 3 && Settles(crashes[0].llm)) then lo
    else Leftovers(Leave(lo, seed, w, crashes[0]), seed, w, crashes[1..])
  }

  lemma {:induction false} ExactFrom(s: State, seed: State, w: World, lo: Leftover, crashes: seq<Invocation>, last: Llm)
    requires Seeded(seed) && Carries(Front(Reenter(s, seed), w), Front(seed, w), lo)
    ensures Run(Reenter(Checkpoint(s, seed, w, crashes), seed), w, last) == Run(seed, w, Final(crashes, last))
            <==> Washes(Leftovers(lo, seed, w, crashes), seed, w, Final(crashes, last))
    decreases |crashes|
  {
    if crashes == [] {
      OnLeftovers(s, seed, w, lo, last);
    } else {
      var i := crashes[0];
      if i.nodes >= 3 && Settles(i.llm) {
        assert FirstAnswerSettles(crashes);
        CrashesAreAbsorbed(s, seed, w, crashes, last);
        OnLeftovers(s, seed, w, lo, i.llm);
      } else {
        CrashCarries(s, seed, w, lo, i);
        ExactFrom(After(i.nodes, Reenter(s, seed), w, i.llm), seed, w, Leave(lo, seed, w, i), crashes[1..], last);
      }
    }
  }

  /** The answers that were checkpointed and did not settle, before the one in the end. */
  function Unsettled(crashes: seq<Invocation>): seq<Invocation> {
    if crashes == [] || (crashes[0].nodes >= 3 && Settles(crashes[0].llm)) then []
    else (if crashes[0].nodes >= 3 then [crashes[0]] else []) + Unsettled(crashes[1..])
  }

  lemma {:induction false} LeftoversOf(lo: Leftover, seed: State, w: World, crashes: seq<Invocation>)
    ensures var end, us := Leftovers(lo, seed, w, crashes), Unsettled(crashes);
            && (end.raised <==> lo.raised || exists u :: u in us && u.llm.Raised?)
            && (end.emptied <==> lo.emptied || exists u :: u in us && u.llm.Answer?)
            && (end.low <==> lo.low || exists u :: u in us && FinishedLow(seed, w, u))
    decreases |crashes|
  {
    if crashes != [] && !(crashes[0].nodes >= 3 && Settles(crashes[0].llm)) {
      var i := crashes[0];
      var us, rest := Unsettled(crashes), Unsettled(crashes[1..]);
      LeftoversOf(Leave(lo, seed, w, i), seed, w, crashes[1..]);
      assert forall u :: u in us <==> u in rest || (i.nodes >= 3 && u == i);
      assert Leave(lo, seed, w, i).low <==> lo.low || FinishedLow(seed, w, i);
    }
  }

  /** A run that went all the way to its end on an empty answer and was rejected. */
  predicate FinishedLow(seed: State, w: World, u: Invocation) {
    u.nodes >= 6 && u.llm.Answer? && EndsRejected(seed, w, u.llm)
  }

  lemma {:induction false} UnsettledAre(crashes: seq<Invocation>)
    ensures forall u | u in Unsettled(crashes) :: u.nodes >= 3 && !Settles(u.llm)
    decreases |crashes|
  {
    if crashes != [] {
      UnsettledAre(crashes[1..]);
    }
  }

  /** The confidence of an answer is below both thresholds of the schema. */
  predicate RanksLow(seed: State, w: World, llm: Llm)
    requires Seeded(seed) && w.parse.Parsed?
  {
    llm.Answer? && Rank(RunConfidence(seed, w, llm), seed.seed.value.high, seed.seed.value.medium) == 0
  }

  lemma RejectedExactlyWhenLow(seed: State, w: World, llm: Llm)
    requires Seeded(seed) && ReachesModel(seed, w) && llm.Answer?
    ensures EndsRejected(seed, w, llm) <==> RanksLow(seed, w, llm)
  {
    ScoreOfRun(seed, w, llm);
    FreshRunEnds(seed, w, llm);
  }

  /** A confidence of zero, that of an empty extraction, is below both thresholds. */
  predicate CanReject(seed: State)
    requires seed.seed.Some?
  {
    seed.seed.value.high > 0.0 && seed.seed.value.medium > 0.0
  }

  /** Exactly when crashes leave no trace, for any number of them at any nodes and for any
      answers: the model is never reached, or every answer that was checkpointed without
      settling raised if and only if the answer in the end raises, and if a run finished on
      one of them without a raise and zero confidence is rejected, then the confidence of
      the answer in the end is below both thresholds too. */
  lemma CrashesAreExact(seed: State, w: World, crashes: seq<Invocation>, last: Llm)
    requires Seeded(seed)
    ensures var final, us := Final(crashes, last), Unsettled(crashes);
            Run(Reenter(Checkpoint(Nothing, seed, w, crashes), seed), w, last) == Run(seed, w, final)
            <==> || !ReachesModel(seed, w)
                 || (&& (forall u | u in us :: u.llm.Raised? == final.Raised?)
                     && (CanReject(seed) && (exists u :: u in us && u.nodes >= 6 && u.llm.Answer?) ==>
                           RanksLow(seed, w, final)))
  {
    var final, us := Final(crashes, last), Unsettled(crashes);
    assert Reenter(Nothing, seed) == seed;
    if ReachesModel(seed, w) {
      FreshCarriesNothing(seed, w);
      ExactFrom(Nothing, seed, w, Clean, crashes, last);
      LeftoversOf(Clean, seed, w, crashes);
      UnsettledAre(crashes);
      forall u | u in us && u.llm.Answer? ensures EndsRejected(seed, w, u.llm) <==> CanReject(seed) {
        EmptyIsRejected(seed, w, u.llm);
      }
      if final.Answer? {
        RejectedExactlyWhenLow(seed, w, final);
      }
    } else {
      CrashesLeaveNoTrace(seed, w, crashes, last);
      UnreachedIgnoresAnswer(seed, w, Effective(crashes, last), final);
    }
  }

  lemma UnreachedIgnoresAnswer(seed: State, w: World, a: Llm, b: Llm)
    requires Seeded(seed) && !ReachesModel(seed, w)
    ensures Run(seed, w, a) == Run(seed, w, b)
  {
    FrontEnds(seed, w);
    NothingToExtract(Front(seed, w), a);
    NothingToExtract(Front(seed, w), b);
  }

  /** For one crash after the model has answered: a re-entry ends as an uninterrupted run on
      the answer in the end exactly when the first one settled, or both raised, or neither
      did and, if the first run went to its end and zero confidence is rejected, that of the
      second answer is below both thresholds too. */
  lemma ReentryIsExact(seed: State, w: World, n: nat, first: Llm, next: Llm)
    requires Seeded(seed) && ReachesModel(seed, w) && n >= 3
    ensures var whole := Run(seed, w, if Settles(first) then first else next);
            Run(Reenter(After(n, seed, w, first), seed), w, next) == whole
            <==> || Settles(first)
                 || (first.Raised? && next.Raised?)
                 || (first.Answer? && next.Answer?
                     && (n >= 6 && CanReject(seed) ==> RanksLow(seed, w, next)))
  {
    var i := Invocation(first, n);
    OneCrash(seed, w, i, next);
    CrashesAreExact(seed, w, [i], next);
    if !Settles(first) {
      assert i in Unsettled([i]);
    }
  }

  lemma OneCrash(seed: State, w: World, i: Invocation, last: Llm)
    requires Seeded(seed) && i.nodes >= 3
    ensures Checkpoint(Nothing, seed, w, [i]) == After(i.nodes, seed, w, i.llm)
    ensures Final([i], last) == if Settles(i.llm) then i.llm else last
    ensures Unsettled([i]) == if Settles(i.llm) then [] else [i]
  {
    assert Reenter(Nothing, seed) == seed;
    assert [i][1..] == [];
  }

  /** An empty extraction fills none of the schema, so unless a threshold is at or below
      zero, finishing on one is a rejection. */
  lemma EmptyIsRejected(seed: State, w: World, llm: Llm)
    requires Seeded(seed) && ReachesModel(seed, w) && llm.Answer? && llm.fields == map[]
    ensures EndsRejected(seed, w, llm) <==> CanReject(seed)
  {
    FrontEnds(seed, w);
    ScoreOfRun(seed, w, llm);
    var m := Aggregate(RunGuardrails(w, w.parse.text));
    FillGrows(llm.fields, llm.fields, seed.seed.value.props);
    NothingFilled(seed.seed.value.required, seed.seed.value.props, llm.confidence, m);
    FinishEnds(AfterExtract(seed, w, llm));
    assert !Halted(AfterExtract(seed, w, llm));
  }

  lemma NothingFilled(required: seq<string>, props: nat, llm: real, m: real)
    ensures BreakdownOf(map[], required, props, llm, m).adjusted == 0.0
  {
    BaseIsUnit(map[], required, props, llm);
    AdjustedIsRoundedBase(map[], required, props, llm, m);
    assert FillRate(map[], props) == 0.0;
    assert Base(map[], required, props, llm) == 0.0;
    assert RoundHalfEven(0.0) == 0;
  }
}
