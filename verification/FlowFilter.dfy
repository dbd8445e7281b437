/** flow_filter.py: the features read from a flow text, and the supply-demand score. */
module FlowFilter {
  import opened FlowText
  import opened Numerals
  import opened Options

  const INSTITUTION := "기관합계"
  const FOREIGN := "외국인"
  const PENSION := "연기금 등"
  const INDIVIDUAL := "개인"
  const NET_BUYING := " 순매수:"
  const SHORT_BALANCE := "잔고 수량:"
  const SHORT_VOLUME := "당일 공매도 거래량:"
  const SHARES := "주"

  datatype Features = Features(
    institution: Option<int>,
    foreigner: Option<int>,
    pension: Option<int>,
    individual: Option<int>,
    shortBalance: Option<int>,
    shortVolume: Option<int>)

  datatype Parsed = Parsed(features: Features) | ValueError

  function Field(r: Reading): Option<int> {
    if r.Number? then Some(r.value) else None
  }

  function Fields(inst: Reading, frgn: Reading, pens: Reading, indiv: Reading, balance: Reading, volume: Reading): Parsed {
    if inst.Invalid? || frgn.Invalid? || pens.Invalid? || indiv.Invalid? || balance.Invalid? || volume.Invalid? then ValueError
    else Parsed(Features(Field(inst), Field(frgn), Field(pens), Field(indiv), Field(balance), Field(volume)))
  }

  function ParseFlowText(text: string): Parsed {
    var inst := FindInt(INSTITUTION + NET_BUYING, "", text);
    var frgn := FindInt(FOREIGN + NET_BUYING, "", text);
    var pens := FindInt(PENSION + NET_BUYING, "", text);
    var indiv := FindInt(INDIVIDUAL + NET_BUYING, "", text);
    var balance := FindInt(SHORT_BALANCE, SHARES, text);
    var volume := FindInt(SHORT_VOLUME, SHARES, text);
    Fields(inst, frgn, pens, indiv, balance, volume)
  }

  /** The six readings, taken together. */
  lemma ParsedFrom(text: string, inst: Reading, frgn: Reading, pens: Reading, indiv: Reading, balance: Reading, volume: Reading)
    requires FindInt(INSTITUTION + NET_BUYING, "", text) == inst
    requires FindInt(FOREIGN + NET_BUYING, "", text) == frgn
    requires FindInt(PENSION + NET_BUYING, "", text) == pens
    requires FindInt(INDIVIDUAL + NET_BUYING, "", text) == indiv
    requires FindInt(SHORT_BALANCE, SHARES, text) == balance
    requires FindInt(SHORT_VOLUME, SHARES, text) == volume
    ensures ParseFlowText(text) == Fields(inst, frgn, pens, indiv, balance, volume)
  {
  }

  function FeaturesFromStructured(inst: Option<int>, frgn: Option<int>, indiv: Option<int>, pens: Option<int>,
                                  volume: Option<int>): Features {
    Features(inst, frgn, pens, indiv, None, volume)
  }

  // ---------- the score ----------

  function OrZero(a: Option<int>): int {
    match a
    case None => 0
    case Some(v) => v
  }

  function Abs(n: int): nat {
    if n < 0 then -n else n
  }

  function Smart(f: Features): int {
    OrZero(f.institution) + OrZero(f.foreigner)
  }

  function Activity(f: Features): nat {
    Abs(OrZero(f.institution)) + Abs(OrZero(f.foreigner)) + Abs(OrZero(f.individual))
  }

  function Clamp(x: real): real {
    if x < -1.0 then -1.0 else if x > 1.0 then 1.0 else x
  }

  function Ratio(smart: int, activity: nat): real {
    if activity == 0 then 0.0 else smart as real / activity as real
  }

  function FlowScore(f: Features): real {
    if f.institution.None? && f.foreigner.None? then 0.0
    else if Activity(f) == 0 then 0.0
    else Clamp(Ratio(Smart(f), Activity(f)))
  }

  lemma RatioBetween(a: real, b: real)
    requires b > 0.0 && -b <= a <= b
    ensures -1.0 <= a / b <= 1.0
    ensures a / b == 1.0 <==> a == b
    ensures a / b == -1.0 <==> a == -b
  {
    var q := a / b;
    assert a == q * b;
    assert q > 1.0 ==> (q - 1.0) * b > 0.0;
    assert q < -1.0 ==> (-1.0 - q) * b > 0.0;
  }

  /**
   * The clamp never acts: the score is the plain ratio. It is 1 exactly when all the activity is
   * institutional and foreign buying, -1 exactly when it is all their selling.
   */
  lemma ScoreIsTheRatio(f: Features)
    ensures FlowScore(f) == Ratio(Smart(f), Activity(f))
    ensures -1.0 <= FlowScore(f) <= 1.0
    ensures FlowScore(f) == 1.0 <==> Smart(f) > 0 && OrZero(f.individual) == 0
                                     && OrZero(f.institution) >= 0 && OrZero(f.foreigner) >= 0
    ensures FlowScore(f) == -1.0 <==> Smart(f) < 0 && OrZero(f.individual) == 0
                                      && OrZero(f.institution) <= 0 && OrZero(f.foreigner) <= 0
  {
    if Activity(f) > 0 {
      RatioBetween(Smart(f) as real, Activity(f) as real);
    }
  }

  lemma RatioTimes(smart: int, activity: nat)
    requires activity == 0 ==> smart == 0
    ensures Ratio(smart, activity) * activity as real == smart as real
  {
  }

  /** The score, times the three amounts without their signs, is what institutions and foreigners bought net. */
  lemma ScoreTimesActivity(f: Features)
    ensures
      var i, g, d := if f.institution.Some? then f.institution.value else 0,
                     if f.foreigner.Some? then f.foreigner.value else 0,
                     if f.individual.Some? then f.individual.value else 0;
      var total := (if i < 0 then -i else i) + (if g < 0 then -g else g) + (if d < 0 then -d else d);
      FlowScore(f) * total as real == (i + g) as real
  {
    ScoreIsTheRatio(f);
    RatioTimes(Smart(f), Activity(f));
  }

  function Scaled(k: int, a: Option<int>): Option<int> {
    match a
    case None => None
    case Some(v) => Some(k * v)
  }

  /** The same flows in another unit. */
  function InUnits(k: int, f: Features): Features {
    f.(institution := Scaled(k, f.institution), foreigner := Scaled(k, f.foreigner),
       individual := Scaled(k, f.individual))
  }

  lemma AbsScales(k: int, n: int)
    requires k > 0
    ensures Abs(k * n) == k * Abs(n)
  {
    if n < 0 {
      assert k * n < 0;
    } else {
      assert k * n >= 0;
    }
  }

  lemma OrZeroScales(k: int, a: Option<int>)
    ensures OrZero(Scaled(k, a)) == k * OrZero(a)
  {
  }

  lemma TotalsScale(k: int, f: Features)
    requires k > 0
    ensures Smart(InUnits(k, f)) == k * Smart(f) && Activity(InUnits(k, f)) == k * Activity(f)
  {
    var i, g, d := OrZero(f.institution), OrZero(f.foreigner), OrZero(f.individual);
    OrZeroScales(k, f.institution);
    OrZeroScales(k, f.foreigner);
    OrZeroScales(k, f.individual);
    AbsScales(k, i);
    AbsScales(k, g);
    AbsScales(k, d);
    assert k * (i + g) == k * i + k * g;
    assert k * (Abs(i) + Abs(g) + Abs(d)) == k * Abs(i) + k * Abs(g) + k * Abs(d);
  }

  lemma RatioScales(k: int, s: int, a: nat)
    requires k > 0
    ensures k * a >= 0 && Ratio(k * s, k * a) == Ratio(s, a)
  {
    if a > 0 {
      var q := s as real / a as real;
      assert k * a > 0;
      assert (k * s) as real == k as real * s as real && (k * a) as real == k as real * a as real;
      assert k as real * s as real == q * (k as real * a as real) by {
        assert s as real == q * a as real;
      }
    }
  }

  /** The score does not depend on the unit: won or shares, any positive scale. */
  lemma ScoreIgnoresUnits(k: int, f: Features)
    requires k > 0
    ensures FlowScore(InUnits(k, f)) == FlowScore(f)
  {
    ScoreIsTheRatio(f);
    ScoreIsTheRatio(InUnits(k, f));
    TotalsScale(k, f);
    RatioScales(k, Smart(f), Activity(f));
  }

  lemma TotalsFlip(f: Features)
    ensures Smart(InUnits(-1, f)) == -Smart(f) && Activity(InUnits(-1, f)) == Activity(f)
  {
  }

  lemma RatioFlips(s: int, a: nat)
    ensures Ratio(-s, a) == -Ratio(s, a)
  {
  }

  /** Changing sides flips the sign. */
  lemma ScoreIsOdd(f: Features)
    ensures FlowScore(InUnits(-1, f)) == -FlowScore(f)
  {
    ScoreIsTheRatio(f);
    ScoreIsTheRatio(InUnits(-1, f));
    TotalsFlip(f);
    RatioFlips(Smart(f), Activity(f));
  }

  /** Structured amounts, in any unit and with any short volume, score as features read from text do. */
  lemma StructuredScore(k: int, f: Features, volume: Option<int>)
    requires k > 0
    ensures FlowScore(f) == FlowScore(FeaturesFromStructured(f.institution, f.foreigner, f.individual, f.pension, volume))
    ensures FlowScore(f) == FlowScore(FeaturesFromStructured(Scaled(k, f.institution), Scaled(k, f.foreigner),
                                                             Scaled(k, f.individual), f.pension, volume))
  {
    ScoreIgnoresUnits(k, f);
    ScoreUsesThree(f, FeaturesFromStructured(f.institution, f.foreigner, f.individual, f.pension, volume));
    var g := InUnits(k, f);
    ScoreUsesThree(g, FeaturesFromStructured(g.institution, g.foreigner, g.individual, g.pension, volume));
  }

  /** Pension and short-selling figures have no effect. */
  lemma ScoreUsesThree(f: Features, g: Features)
    requires f.institution == g.institution && f.foreigner == g.foreigner && f.individual == g.individual
    ensures FlowScore(f) == FlowScore(g)
  {
    assert Smart(f) == Smart(g) && Activity(f) == Activity(g);
  }
}
