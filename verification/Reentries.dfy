/** Two re-entries that leave a trace of the run before them. */
module Reentries {
  import opened Wrappers
  import opened JsonValues
  import opened Documents
  import opened Confidence
  import opened Guardrails
  import opened Pipeline
  import opened PipelineRuns
  import Text

  const SEED := Initial(Seed("k", 0.85, 0.6, 0, []), false)

  const WORLD := World(Parsed("abcdefghij", "native"), _ => None, _ => None)

  const TIMEOUT := Llm.Raised("timeout")

  const EMPTY := Answer(map[], 0.9, [], [])

  const GOOD := Answer(map["f" := Str("x")], 0.9, [], [])

  lemma EnoughText(text: string)
    requires |text| >= 10 && '\n' !in text
    requires text[0] !in Text.Spaces && text[|text| - 1] !in Text.Spaces
    ensures !IsEmpty(text)
  {
    Text.NoNewlinesToDrop(text);
    Text.NothingToStrip(text);
  }

  lemma ReachesTheModel()
    ensures ReachesModel(SEED, WORLD)
  {
    EnoughText(WORLD.parse.text);
  }

  /** A text that draws nothing is not penalised. */
  lemma QuietTextHasNoPenalty(w: World, text: string)
    requires !IsEmpty(text) && w.injection(text).None? && w.weak(text).None?
    ensures Aggregate(RunGuardrails(w, text)) == 1.0
  {
    ParsedTextHasInk(text);
    var outcomes := RunGuardrails(w, text);
    assert outcomes[..1][..0] == [] && Factor(outcomes[0]) == 1.0 && Factor(outcomes[1]) == 1.0;
    assert Product(outcomes[..1]) == Times(1.0, 1.0);
    assert Product(outcomes) == Times(Product(outcomes[..1]), 1.0);
    assert RoundHalfEven(10000.0) == 10000;
  }

  lemma OneFieldScores(fields: Fields)
    requires |fields| == 1
    ensures BreakdownOf(fields, [], 0, 0.9, 1.0).adjusted == 0.9
  {
    assert FillRate(fields, 0) == 1.0;
    assert Times(0.9, 1.0) == 0.9 && RoundHalfEven(9000.0) == 9000;
  }

  lemma GoodRanksHigh()
    ensures !RanksLow(SEED, WORLD, GOOD)
  {
    EnoughText(WORLD.parse.text);
    QuietTextHasNoPenalty(WORLD, WORLD.parse.text);
    OneFieldScores(GOOD.fields);
  }

  /** A model that times out, and answers well when the dead letter is retried: the run is
      not what an uninterrupted one on the good answer would have been. */
  lemma RaisedLeavesItsError()
    ensures Run(Reenter(After(6, SEED, WORLD, TIMEOUT), SEED), WORLD, GOOD) != Run(SEED, WORLD, GOOD)
  {
    ReachesTheModel();
    ReentryIsExact(SEED, WORLD, 6, TIMEOUT, GOOD);
  }

  /** So is a run that finished on an empty extraction and is delivered on its retry. */
  lemma EmptyLeavesItsReason()
    ensures Run(Reenter(After(6, SEED, WORLD, EMPTY), SEED), WORLD, GOOD) != Run(SEED, WORLD, GOOD)
  {
    ReachesTheModel();
    GoodRanksHigh();
    ReentryIsExact(SEED, WORLD, 6, EMPTY, GOOD);
  }
}
