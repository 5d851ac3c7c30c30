/** Text helpers, confidence arithmetic over exact rationals, and guardrail outcomes. */
module Text {
  /** The characters str.strip removes. */
  const Spaces: set<char> := {
    '\t', '\n', '\U{0B}', '\U{0C}', '\r', '\U{1C}', '\U{1D}', '\U{1E}', '\U{1F}', ' ', '\U{85}', '\U{A0}',
    '\U{1680}', '\U{2000}', '\U{2001}', '\U{2002}', '\U{2003}', '\U{2004}', '\U{2005}', '\U{2006}', '\U{2007}',
    '\U{2008}', '\U{2009}', '\U{200A}', '\U{2028}', '\U{2029}', '\U{202F}', '\U{205F}', '\U{3000}'}

  /** As code points. */
  lemma SpacesAreTheseCodePoints(c: char)
    ensures c in Spaces <==>
              var n := c as int;
              || 9 <= n <= 13 || 28 <= n <= 32 || n == 133 || n == 160 || n == 5760 || 8192 <= n <= 8202
              || n == 8232 || n == 8233 || n == 8239 || n == 8287 || n == 12288
  {
  }

  function StripLeft(s: string): string {
    if s != "" && s[0] in Spaces then StripLeft(s[1..]) else s
  }

  function StripRight(s: string): string {
    if s != "" && s[|s| - 1] in Spaces then StripRight(s[..|s| - 1]) else s
  }

  function Strip(s: string): string {
    StripRight(StripLeft(s))
  }

  function WithoutNewlines(s: string): string {
    if s == "" then ""
    else if s[0] == '\n' then WithoutNewlines(s[1..])
    else [s[0]] + WithoutNewlines(s[1..])
  }

  lemma {:induction false} StripLeftKeeps(s: string)
    ensures (exists c :: c in s && c !in Spaces) <==> StripLeft(s) != ""
    ensures StripLeft(s) != "" ==> StripLeft(s)[0] !in Spaces
    ensures forall c | c in StripLeft(s) :: c in s
  {
    if s != "" && s[0] in Spaces {
      assert forall c :: c in s <==> c == s[0] || c in s[1..];
      StripLeftKeeps(s[1..]);
    } else if s != "" {
      assert s[0] in s;
    }
  }

  lemma {:induction false} StripRightKeeps(s: string)
    ensures s != "" && s[0] !in Spaces ==> StripRight(s) != ""
    ensures forall c | c in StripRight(s) :: c in s
    ensures StripRight(s) != "" ==> StripRight(s)[|StripRight(s)| - 1] !in Spaces
  {
    if s != "" && s[|s| - 1] in Spaces {
      StripRightKeeps(s[..|s| - 1]);
    }
  }

  /** Stripping leaves something exactly when there is something to leave. */
  lemma StripKeepsInk(s: string)
    ensures Strip(s) != "" <==> exists c :: c in s && c !in Spaces
  {
    StripLeftKeeps(s);
    StripRightKeeps(StripLeft(s));
    if Strip(s) != "" {
      var c := Strip(s)[|Strip(s)| - 1];
      assert c in Strip(s);
      assert c in StripLeft(s);
    }
  }

  /** What neither the parser nor the guardrail would strip. */
  lemma {:induction false} NoNewlinesToDrop(s: string)
    requires '\n' !in s
    ensures WithoutNewlines(s) == s
  {
    if s != "" {
      NoNewlinesToDrop(s[1..]);
      assert s == [s[0]] + s[1..];
    }
  }

  lemma NothingToStrip(s: string)
    requires s != "" && s[0] !in Spaces && s[|s| - 1] !in Spaces
    ensures Strip(s) == s
  {
    assert StripLeft(s) == s;
    assert StripRight(s) == s;
  }

  /** Stripping takes off just the whitespace at both ends. */
  lemma StripFindsCore(a: string, core: string, b: string)
    requires (forall c | c in a :: c in Spaces) && (forall c | c in b :: c in Spaces)
    requires core != "" ==> core[0] !in Spaces && core[|core| - 1] !in Spaces
    ensures Strip(a + core + b) == core
  {
    DropsLeft(a, core + b);
    assert a + core + b == a + (core + b);
    if core == "" {
      DropsLeft(b, "");
      assert core + b == b + "" == b;
    } else {
      assert StripLeft(core + b) == core + b;
      DropsRight(core, b);
    }
  }

  lemma {:induction false} DropsLeft(a: string, s: string)
    requires forall c | c in a :: c in Spaces
    ensures StripLeft(a + s) == StripLeft(s)
  {
    if a == "" {
      assert a + s == s;
    } else {
      assert a[0] in a && (a + s)[1..] == a[1..] + s;
      assert forall c | c in a[1..] :: c in a;
      DropsLeft(a[1..], s);
    }
  }

  lemma {:induction false} DropsRight(s: string, b: string)
    requires (forall c | c in b :: c in Spaces) && s != "" && s[|s| - 1] !in Spaces
    ensures StripRight(s + b) == s
  {
    if b == "" {
      assert s + b == s;
    } else {
      var n := |b| - 1;
      assert b[n] in b && (s + b)[..|s| + n] == s + b[..n] && (s + b)[|s| + n] == b[n];
      assert forall c | c in b[..n] :: c in b;
      DropsRight(s, b[..n]);
    }
  }

  /** A newline anywhere is as good as none. */
  lemma {:induction false} NewlineDoesNotCount(x: string, y: string)
    ensures WithoutNewlines(x + "\n" + y) == WithoutNewlines(x + y)
  {
    if x == "" {
      assert x + "\n" + y == "\n" + y && ("\n" + y)[1..] == y && x + y == y;
    } else {
      assert (x + "\n" + y)[1..] == x[1..] + "\n" + y && (x + y)[1..] == x[1..] + y;
      NewlineDoesNotCount(x[1..], y);
    }
  }

  lemma {:induction false} NewlinesAreNotInk(s: string)
    ensures forall c | c in WithoutNewlines(s) :: c in s
  {
    if s != "" {
      NewlinesAreNotInk(s[1..]);
      assert forall c | c in s[1..] :: c in s;
    }
  }
}

module Confidence {
  import opened Wrappers
  import opened JsonValues
  import Text

  /** The nearest integer, to even when two are equally near. */
  function RoundHalfEven(x: real): int {
    var f := x.Floor;
    var d := x - f as real;
    if d < 0.5 || (d == 0.5 && f % 2 == 0) then f else f + 1
  }

  /** round(x, 4). */
  function Round4(x: real): real {
    RoundHalfEven(x * 10000.0) as real / 10000.0
  }

  /** The nearest integer, and of two equally near ones the even one. */
  lemma RoundingIsHalfEven(x: real, n: int)
    ensures RoundHalfEven(x) == n <==>
              -0.5 <= x - n as real <= 0.5 && (x - n as real == 0.5 || x - n as real == -0.5 ==> n % 2 == 0)
  {
    var f := x.Floor;
    assert f as real <= x < f as real + 1.0;
    if n < f {
      assert n as real + 1.0 <= f as real;
    } else if n > f + 1 {
      assert n as real >= f as real + 2.0;
    }
  }

  lemma Round4IsInPlaces(x: real)
    ensures Round4(x) * 10000.0 == RoundHalfEven(x * 10000.0) as real
  {
  }

  lemma RoundIsMonotone(x: real, y: real)
    requires x <= y
    ensures RoundHalfEven(x) <= RoundHalfEven(y)
  {
    if x.Floor != y.Floor {
      assert x.Floor < y.Floor;
      assert RoundHalfEven(x) <= x.Floor + 1;
    }
  }

  lemma Round4IsMonotone(x: real, y: real)
    requires x <= y
    ensures Round4(x) <= Round4(y)
  {
    RoundIsMonotone(x * 10000.0, y * 10000.0);
  }

  lemma Round4IsClose(x: real)
    ensures x - 0.00005 <= Round4(x) <= x + 0.00005
  {
    var y := x * 10000.0;
    assert y - 0.5 <= RoundHalfEven(y) as real <= y + 0.5;
  }

  lemma Round4OfUnit(x: real)
    requires 0.0 <= x <= 1.0
    ensures 0.0 <= Round4(x) <= 1.0
  {
    Round4IsMonotone(0.0, x);
    Round4IsMonotone(x, 1.0);
    assert RoundHalfEven(0.0) == 0 && RoundHalfEven(10000.0) == 10000;
  }

  function Min(x: real, y: real): real {
    if x <= y then x else y
  }

  // Products of variables go by this name, and what is known of them by these lemmas.

  function Times(a: real, b: real): real {
    a * b
  }

  /** On either side. */
  lemma TimesMonotone(a: real, b: real, m: real)
    requires a <= b && m >= 0.0
    ensures Times(a, m) <= Times(b, m) && Times(m, a) <= Times(m, b)
  {
  }

  lemma TimesOfUnits(a: real, b: real)
    requires 0.0 <= a <= 1.0 && 0.0 <= b <= 1.0
    ensures 0.0 <= Times(a, b) <= 1.0 && Times(a, b) <= a && Times(a, b) <= b
  {
    TimesMonotone(0.0, b, a);
    TimesMonotone(b, 1.0, a);
    TimesMonotone(a, 1.0, b);
    assert Times(a, 0.0) == 0.0 && Times(a, 1.0) == a && Times(1.0, b) == b;
  }

  lemma TimesOfDifference(a: real, b: real, m: real)
    ensures Times(a - b, m) == Times(a, m) - Times(b, m)
  {
  }

  function Lookup(extracted: Fields, f: string): Option<Json> {
    if f in extracted then Some(extracted[f]) else None
  }

  predicate IsPresent(v: Option<Json>) {
    match v
    case None => false
    case Some(Null) => false
    case Some(Str(s)) => Text.Strip(s) != ""
    case Some(_) => true
  }

  function PresentCount(extracted: Fields, required: seq<string>): (n: nat)
    ensures n <= |required|
  {
    if required == [] then 0
    else (if IsPresent(Lookup(extracted, required[0])) then 1 else 0) + PresentCount(extracted, required[1..])
  }

  function Completeness(extracted: Fields, required: seq<string>): real {
    if required == [] then 1.0
    else PresentCount(extracted, required) as real / |required| as real
  }

  function MissingRequired(extracted: Fields, required: seq<string>): seq<string> {
    if required == [] then []
    else
      var rest := MissingRequired(extracted, required[1..]);
      if IsPresent(Lookup(extracted, required[0])) then rest else [required[0]] + rest
  }

  datatype Breakdown = Breakdown(llm: real, completeness: real, semantic: real, adjusted: real)

  function Weakest(llmSelf: real, completeness: real, semantic: real): real {
    Min(llmSelf, Min(completeness, semantic))
  }

  function Scaled(base: real, multiplier: real): real {
    Round4(Times(base, multiplier))
  }

  function Score(llmSelf: real, completeness: real, semantic: real, multiplier: real): Breakdown {
    Breakdown(Round4(llmSelf), Round4(completeness), Round4(semantic),
              Scaled(Weakest(llmSelf, completeness, semantic), multiplier))
  }

  /** Fields extracted over fields in the schema; a schema without any counts what was extracted. */
  function FillRate(extracted: Fields, props: nat): real {
    var total := if props > 0 then props else if |extracted| > 1 then |extracted| else 1;
    Min(1.0, |extracted| as real / total as real)
  }

  /** The model's own confidence, or the structural signals when it reports none. */
  function LlmSignal(llm: real, completeness: real, fill: real): real {
    if llm > 0.0 then llm else Min(completeness, fill)
  }

  function BreakdownOf(extracted: Fields, required: seq<string>, props: nat, llm: real, multiplier: real): Breakdown {
    var completeness := Completeness(extracted, required);
    var fill := FillRate(extracted, props);
    Score(LlmSignal(llm, completeness, fill), completeness, fill, multiplier)
  }

  // ---- Completeness ---------------------------------------------------------------

  lemma {:induction false} MissingAreTheRest(extracted: Fields, required: seq<string>)
    ensures PresentCount(extracted, required) + |MissingRequired(extracted, required)| == |required|
    ensures forall f :: f in MissingRequired(extracted, required) <==> f in required && !IsPresent(Lookup(extracted, f))
  {
    if required != [] {
      MissingAreTheRest(extracted, required[1..]);
      assert forall f :: f in required <==> f == required[0] || f in required[1..];
    }
  }

  /** A document is complete exactly when no required field is reported missing. */
  lemma CompleteExactlyWhenNothingMissing(extracted: Fields, required: seq<string>)
    ensures 0.0 <= Completeness(extracted, required) <= 1.0
    ensures Completeness(extracted, required) == 1.0 <==> MissingRequired(extracted, required) == []
    ensures required != [] ==>
              Completeness(extracted, required)
                  == 1.0 - |MissingRequired(extracted, required)| as real / |required| as real
  {
    MissingAreTheRest(extracted, required);
    if required != [] {
      Ratio(PresentCount(extracted, required), |MissingRequired(extracted, required)|, |required|);
    }
  }

  lemma Ratio(p: nat, m: nat, n: nat)
    requires p + m == n && n > 0
    ensures p as real / n as real == 1.0 - m as real / n as real
    ensures 0.0 <= p as real / n as real <= 1.0
    ensures p as real / n as real == 1.0 <==> m == 0
  {
    var x := 1.0 / n as real;
    assert p as real / n as real == p as real * x && m as real / n as real == m as real * x;
    assert n as real * x == 1.0;
    assert p as real * x + m as real * x == n as real * x;
    if m > 0 {
      assert m as real * x > 0.0;
    }
  }

  lemma {:induction false} CountGrows(extracted: Fields, more: Fields, required: seq<string>)
    requires forall f | IsPresent(Lookup(extracted, f)) :: IsPresent(Lookup(more, f))
    ensures PresentCount(extracted, required) <= PresentCount(more, required)
  {
    if required != [] {
      CountGrows(extracted, more, required[1..]);
    }
  }

  lemma DivideMonotone(a: real, b: real, n: real)
    requires a <= b && n > 0.0
    ensures a / n <= b / n
  {
  }

  lemma FillGrows(extracted: Fields, more: Fields, props: nat)
    requires |extracted| <= |more|
    ensures 0.0 <= FillRate(extracted, props) <= FillRate(more, props) <= 1.0
  {
    var a, b := |extracted| as real, |more| as real;
    if props > 0 {
      DivideMonotone(0.0, a, props as real);
      DivideMonotone(a, b, props as real);
    } else {
      assert |more| > 0 ==> FillRate(more, props) == 1.0;
    }
  }

  // ---- The exact confidence ---------------------------------------------------------------

  /** What counts as present: anything but a missing value, null, or a blank string. */
  lemma PresentExactlyWhen(v: Option<Json>)
    ensures IsPresent(v) <==>
              v.Some? && v.value != Null && (v.value.Str? ==> exists c :: c in v.value.s && c !in Text.Spaces)
  {
    if v.Some? && v.value.Str? {
      Text.StripKeepsInk(v.value.s);
    }
  }

  /** The fill rate: of a schema with properties, the part of them that the extraction could
      fill; of one without, all or nothing. */
  lemma FillIsExactly(extracted: Fields, props: nat)
    ensures props > 0 ==>
              FillRate(extracted, props) * props as real == (if |extracted| < props then |extracted| else props) as real
    ensures props == 0 ==> FillRate(extracted, props) == if extracted == map[] then 0.0 else 1.0
  {
    var n := |extracted| as real;
    if props > 0 {
      TimesQuotient(n, props as real);
    } else if extracted == map[] {
      assert |extracted| == 0;
    } else {
      assert |extracted| > 0;
      TimesQuotient(n, n);
    }
  }

  lemma TimesQuotient(a: real, b: real)
    requires b > 0.0
    ensures a / b * b == a
    ensures a == b ==> a / b == 1.0
    ensures a <= b ==> a / b <= 1.0
    ensures a >= b ==> a / b >= 1.0
  {
  }

  /** The least of the model's own confidence, where it reports any, of one less the fraction
      of required fields missing, and of the fill rate; times the multiplier, rounded. */
  lemma ConfidenceIsExactly(extracted: Fields, required: seq<string>, props: nat, llm: real, m: real)
    ensures var b := BreakdownOf(extracted, required, props, llm, m);
            var complete := if required == [] then 1.0
                            else 1.0 - |MissingRequired(extracted, required)| as real / |required| as real;
            var fill := FillRate(extracted, props);
            var least := if complete <= fill then complete else fill;
            && (llm > 0.0 ==>
                  b.adjusted == Round4(Times(if llm <= least then llm else least, m)) && b.llm == Round4(llm))
            && (llm <= 0.0 ==> b.adjusted == Round4(Times(least, m)) && b.llm == Round4(least))
            && b.completeness == Round4(complete) && b.semantic == Round4(fill)
  {
    var fill := FillRate(extracted, props);
    CompleteExactlyWhenNothingMissing(extracted, required);
    WeakestIsLeast(LlmSignal(llm, Completeness(extracted, required), fill), Completeness(extracted, required), fill);
  }

  lemma WeakestIsLeast(a: real, b: real, c: real)
    ensures var least := if b <= c then b else c; Weakest(a, b, c) == if a <= least then a else least
  {
  }

  /** A model that reports no confidence is taken at the structural signals, as one that
      reports full confidence is. */
  lemma NoReportIsFullReport(extracted: Fields, required: seq<string>, props: nat, llm: real, m: real)
    requires llm <= 0.0
    ensures BreakdownOf(extracted, required, props, llm, m).adjusted
            == BreakdownOf(extracted, required, props, 1.0, m).adjusted
  {
    CompleteExactlyWhenNothingMissing(extracted, required);
    FillGrows(extracted, extracted, props);
  }

  // ---- Bounds and monotonicity of the overall confidence -----------------------------

  function Base(extracted: Fields, required: seq<string>, props: nat, llm: real): real {
    var completeness := Completeness(extracted, required);
    var fill := FillRate(extracted, props);
    Weakest(LlmSignal(llm, completeness, fill), completeness, fill)
  }

  function PenalisedCompleteness(extracted: Fields, required: seq<string>, m: real): real {
    Times(Completeness(extracted, required), m)
  }

  lemma BaseIsUnit(extracted: Fields, required: seq<string>, props: nat, llm: real)
    ensures 0.0 <= Base(extracted, required, props, llm) <= Completeness(extracted, required) <= 1.0
  {
    CompleteExactlyWhenNothingMissing(extracted, required);
    FillGrows(extracted, extracted, props);
  }

  /** Confidence lies in [0, 1] whatever the model claims, and cannot exceed completeness
      times the guardrail multiplier by more than the rounding. */
  lemma ConfidenceIsBounded(extracted: Fields, required: seq<string>, props: nat, llm: real, m: real)
    requires 0.0 <= m <= 1.0
    ensures var conf := BreakdownOf(extracted, required, props, llm, m).adjusted;
            && 0.0 <= conf <= 1.0
            && conf <= PenalisedCompleteness(extracted, required, m) + 0.00005
            && conf <= Round4(m)
  {
    BaseIsUnit(extracted, required, props, llm);
    AdjustedIsRoundedBase(extracted, required, props, llm, m);
    ScaledUnit(Base(extracted, required, props, llm), Completeness(extracted, required), m);
  }

  /** The reported breakdown accounts for the overall confidence: the least of the three
      rounded signals times the multiplier, up to the two roundings. */
  lemma BreakdownExplains(llmSelf: real, completeness: real, semantic: real, m: real)
    requires 0.0 <= m <= 1.0
    ensures var b := Score(llmSelf, completeness, semantic, m);
            var least := Times(Weakest(b.llm, b.completeness, b.semantic), m);
            least - 0.0001 <= b.adjusted <= least + 0.0001
  {
    var x := Weakest(llmSelf, completeness, semantic);
    RoundedWeakest(llmSelf, completeness, semantic);
    Round4IsClose(x);
    CloseFactors(Round4(x), x, m);
    ScaledIsClose(x, m);
  }

  lemma CloseFactors(a: real, b: real, m: real)
    requires a - 0.00005 <= b <= a + 0.00005 && 0.0 <= m <= 1.0
    ensures Times(a, m) - 0.00005 <= Times(b, m) <= Times(a, m) + 0.00005
  {
    TimesMonotone(a - 0.00005, b, m);
    TimesMonotone(b, a + 0.00005, m);
    TimesOfDifference(a, 0.00005, m);
    TimesOfDifference(a, -0.00005, m);
    TimesOfUnits(0.00005, m);
    assert Times(-0.00005, m) == -Times(0.00005, m);
    assert a - (-0.00005) == a + 0.00005;
  }

  lemma ScaledIsClose(base: real, m: real)
    ensures Times(base, m) - 0.00005 <= Scaled(base, m) <= Times(base, m) + 0.00005
  {
    Round4IsClose(Times(base, m));
  }

  lemma RoundedWeakest(a: real, b: real, c: real)
    ensures Weakest(Round4(a), Round4(b), Round4(c)) == Round4(Weakest(a, b, c))
  {
    RoundedMin(b, c);
    RoundedMin(a, Min(b, c));
  }

  lemma RoundedMin(a: real, b: real)
    ensures Min(Round4(a), Round4(b)) == Round4(Min(a, b))
  {
    if a <= b {
      Round4IsMonotone(a, b);
    } else {
      Round4IsMonotone(b, a);
    }
  }

  lemma AdjustedIsRoundedBase(extracted: Fields, required: seq<string>, props: nat, llm: real, m: real)
    ensures BreakdownOf(extracted, required, props, llm, m).adjusted == Scaled(Base(extracted, required, props, llm), m)
  {
  }

  lemma ScaledUnit(base: real, completeness: real, m: real)
    requires 0.0 <= base <= completeness <= 1.0 && 0.0 <= m <= 1.0
    ensures 0.0 <= Scaled(base, m) <= 1.0
    ensures Scaled(base, m) <= Times(completeness, m) + 0.00005
    ensures Scaled(base, m) <= Round4(m)
  {
    var x := Times(base, m);
    TimesOfUnits(base, m);
    TimesMonotone(base, completeness, m);
    Round4OfUnit(x);
    Round4IsClose(x);
    Round4IsMonotone(x, m);
  }

  lemma ScaledMonotone(a: real, b: real, m: real)
    requires a <= b && 0.0 <= m
    ensures Scaled(a, m) <= Scaled(b, m)
  {
    TimesMonotone(a, b, m);
    Round4IsMonotone(Times(a, m), Times(b, m));
  }

  /** A further non-empty field never lowers the confidence, through the fallback for a
      missing self-report and the rounding. */
  lemma MoreFieldsNeverHurt(extracted: Fields, f: string, v: Json, required: seq<string>, props: nat, llm: real,
      m: real)
    requires IsPresent(Some(v)) && m >= 0.0
    ensures BreakdownOf(extracted, required, props, llm, m).adjusted
            <= BreakdownOf(extracted[f := v], required, props, llm, m).adjusted
  {
    var more := extracted[f := v];
    BaseGrows(extracted, f, v, required, props, llm);
    BaseIsUnit(extracted, required, props, llm);
    AdjustedIsRoundedBase(extracted, required, props, llm, m);
    AdjustedIsRoundedBase(more, required, props, llm, m);
    ScaledMonotone(Base(extracted, required, props, llm), Base(more, required, props, llm), m);
  }

  lemma CompletenessGrows(extracted: Fields, f: string, v: Json, required: seq<string>)
    requires IsPresent(Some(v))
    ensures Completeness(extracted, required) <= Completeness(extracted[f := v], required)
  {
    var more := extracted[f := v];
    assert forall g | IsPresent(Lookup(extracted, g)) :: IsPresent(Lookup(more, g));
    CountGrows(extracted, more, required);
    if required != [] {
      DivideMonotone(PresentCount(extracted, required) as real, PresentCount(more, required) as real,
          |required| as real);
    }
  }

  lemma BaseGrows(extracted: Fields, f: string, v: Json, required: seq<string>, props: nat, llm: real)
    requires IsPresent(Some(v))
    ensures Base(extracted, required, props, llm) <= Base(extracted[f := v], required, props, llm)
  {
    CompletenessGrows(extracted, f, v, required);
    assert extracted.Keys <= extracted[f := v].Keys;
    SubsetIsSmaller(extracted.Keys, extracted[f := v].Keys);
    FillGrows(extracted, extracted[f := v], props);
  }

  /** A smaller multiplier never raises the confidence. */
  lemma PenaltyNeverHelps(extracted: Fields, required: seq<string>, props: nat, llm: real, m: real, m': real)
    requires m' <= m
    ensures BreakdownOf(extracted, required, props, llm, m').adjusted
            <= BreakdownOf(extracted, required, props, llm, m).adjusted
  {
    var base := Base(extracted, required, props, llm);
    BaseIsUnit(extracted, required, props, llm);
    AdjustedIsRoundedBase(extracted, required, props, llm, m);
    AdjustedIsRoundedBase(extracted, required, props, llm, m');
    LowerFactor(base, m', m);
  }

  lemma LowerFactor(base: real, m: real, m': real)
    requires 0.0 <= base && m <= m'
    ensures Scaled(base, m) <= Scaled(base, m')
  {
    TimesMonotone(m, m', base);
    Round4IsMonotone(Times(base, m), Times(base, m'));
  }

  // ---- Routing ----------------------------------------------------------------------

  /** 2 for HIGH, 1 for MEDIUM, 0 for LOW; both thresholds are inclusive. */
  function Rank(confidence: real, high: real, medium: real): nat {
    if confidence >= high then 2 else if confidence >= medium then 1 else 0
  }

  lemma RankIsMonotone(c: real, c': real, high: real, medium: real)
    requires c <= c'
    ensures Rank(c, high, medium) <= Rank(c', high, medium)
  {
  }
}

module Guardrails {
  import opened Confidence

  datatype Result = Pass | Warn | Block

  datatype GuardOutcome = GuardOutcome(name: string, result: Result, detail: string, multiplier: real)

  const WARN_MULTIPLIER := 0.8

  predicate HasBlock(outcomes: seq<GuardOutcome>) {
    exists o :: o in outcomes && o.result == Block
  }

  function Factor(o: GuardOutcome): real {
    if o.result == Warn then o.multiplier else 1.0
  }

  function Product(outcomes: seq<GuardOutcome>): real {
    if outcomes == [] then 1.0 else Times(Product(outcomes[..|outcomes| - 1]), Factor(outcomes[|outcomes| - 1]))
  }

  function Aggregate(outcomes: seq<GuardOutcome>): real {
    Round4(Product(outcomes))
  }

  method AggregateMultiplier(outcomes: seq<GuardOutcome>) returns (rounded: real)
    ensures rounded == Aggregate(outcomes)
  {
    var multiplier := 1.0;
    for i := 0 to |outcomes|
      invariant multiplier == Product(outcomes[..i])
    {
      assert outcomes[..i + 1][..i] == outcomes[..i];
      if outcomes[i].result == Warn {
        multiplier := multiplier * outcomes[i].multiplier;
      }
    }
    assert outcomes[..|outcomes|] == outcomes;
    rounded := Round4(multiplier);
  }

  /** The product of the WARN multipliers, one factor at a time, to four places. */
  lemma AggregateOfOneMore(outcomes: seq<GuardOutcome>, o: GuardOutcome)
    ensures Product([]) == 1.0
    ensures Product(outcomes + [o]) == if o.result == Warn then Product(outcomes) * o.multiplier else Product(outcomes)
    ensures Aggregate(outcomes) == Round4(Product(outcomes))
  {
    assert (outcomes + [o])[..|outcomes|] == outcomes;
  }

  predicate Penalties(outcomes: seq<GuardOutcome>) {
    forall o | o in outcomes :: 0.0 <= Factor(o) <= 1.0
  }

  /** Each WARN bounds the aggregate, in whatever position it comes. */
  lemma {:induction false} ProductIsBounded(outcomes: seq<GuardOutcome>)
    requires Penalties(outcomes)
    ensures 0.0 <= Product(outcomes) <= 1.0
    ensures forall o | o in outcomes :: Product(outcomes) <= Factor(o)
  {
    if outcomes != [] {
      var init, last := outcomes[..|outcomes| - 1], outcomes[|outcomes| - 1];
      assert forall o :: o in outcomes <==> o in init || o == last;
      ProductIsBounded(init);
      assert last in outcomes;
      TimesOfUnits(Product(init), Factor(last));
      forall o | o in outcomes ensures Product(outcomes) <= Factor(o) {
        assert o == last || Product(init) <= Factor(o);
      }
    }
  }

  lemma AggregateIsBounded(outcomes: seq<GuardOutcome>)
    requires Penalties(outcomes)
    ensures 0.0 <= Aggregate(outcomes) <= 1.0
    ensures forall o | o in outcomes :: Aggregate(outcomes) <= Round4(Factor(o))
  {
    ProductIsBounded(outcomes);
    Round4OfUnit(Product(outcomes));
    forall o | o in outcomes ensures Aggregate(outcomes) <= Round4(Factor(o)) {
      Round4IsMonotone(Product(outcomes), Factor(o));
    }
  }

  /** Turning a PASS into a WARN with a multiplier of at most 1 never raises the product. */
  lemma {:induction false} WarnLowersProduct(outcomes: seq<GuardOutcome>, i: nat, w: GuardOutcome)
    requires i < |outcomes| && outcomes[i].result == Pass && w.result == Warn && w.multiplier <= 1.0
    requires forall o | o in outcomes :: 0.0 <= Factor(o)
    ensures 0.0 <= Product(outcomes)
    ensures Product(outcomes[i := w]) <= Product(outcomes)
  {
    var n := |outcomes| - 1;
    var init := outcomes[..n];
    assert forall o | o in init :: o in outcomes;
    ProductNonNegative(init);
    var warned := outcomes[i := w];
    if i == n {
      assert warned[..n] == init && warned[n] == w;
      TimesMonotone(w.multiplier, 1.0, Product(init));
    } else {
      assert warned[..n] == init[i := w] && warned[n] == outcomes[n];
      WarnLowersProduct(init, i, w);
      assert outcomes[n] in outcomes;
      TimesMonotone(Product(init[i := w]), Product(init), Factor(outcomes[n]));
    }
    ProductNonNegative(outcomes);
  }

  lemma {:induction false} ProductNonNegative(outcomes: seq<GuardOutcome>)
    requires forall o | o in outcomes :: 0.0 <= Factor(o)
    ensures 0.0 <= Product(outcomes)
  {
    if outcomes != [] {
      assert forall o | o in outcomes[..|outcomes| - 1] :: o in outcomes;
      ProductNonNegative(outcomes[..|outcomes| - 1]);
      TimesMonotone(0.0, Product(outcomes[..|outcomes| - 1]), Factor(outcomes[|outcomes| - 1]));
      assert Times(0.0, Factor(outcomes[|outcomes| - 1])) == 0.0;
    }
  }

  lemma WarnLowersAggregate(outcomes: seq<GuardOutcome>, i: nat, w: GuardOutcome)
    requires i < |outcomes| && outcomes[i].result == Pass && w.result == Warn && w.multiplier <= 1.0
    requires forall o | o in outcomes :: 0.0 <= Factor(o)
    ensures Aggregate(outcomes[i := w]) <= Aggregate(outcomes)
  {
    WarnLowersProduct(outcomes, i, w);
    Round4IsMonotone(Product(outcomes[i := w]), Product(outcomes));
  }
}
