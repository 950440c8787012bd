/**
  The older money module at the root of the repository (money.py): the same seven regular
  expressions without fraction glyphs and without a £.d. form, whole pence only, and a
  six-template pennies_to_psd. Its expressions accept a subset of what the newer ones accept,
  so each is modelled as the newer recogniser restricted to the readings it can produce.
*/
module LegacyMoney {
  import opened Wrappers
  import opened Strings
  import opened Money

  // ---------------------------------------------------------------------------------------
  // The expressions
  // ---------------------------------------------------------------------------------------

  /** A mark quantity of `(\d+|½|one|a)`. */
  predicate IsLegacyQuantity(q: string) {
    IsNumber(q) || q == "½" || q == "one" || q == "a"
  }

  /**
    The readings the older expressions can produce: no fraction glyph after the pence, no £.d.
    form, and a mark quantity of digits, ½, one or a.
  */
  predicate Legacy(r: Reading) {
    match r
    case MarksReading(q, _, _) => IsLegacyQuantity(q)
    case PsdReading(_, _, _, f) => f.None?
    case PsReading(_, _) => true
    case PdReading(_, _, _) => false
    case SdReading(_, _, f) => f.None?
    case SReading(_) => true
    case DReading(_, f) => f.None?
    case PReading(_) => true
  }

  /**
    The older expression of form `f` matched at the start of `s`. Where the newer expression
    reads a fraction glyph, a capitalised One or a ¼/¾ quantity, the older one fails at that
    point, because no alternative of it can consume that character.
  */
  function Match(f: Form, s: string): (r: Option<Reading>)
    ensures r.Some? ==> FormOf(r.value) == f && Valid(r.value) && Legacy(r.value)
    ensures r.Some? ==> StartsWith(s, Text(r.value))
    ensures r.None? ==> MatchForm(f, s).None? || !Legacy(MatchForm(f, s).value)
  {
    var m := MatchForm(f, s);
    if m.Some? && Legacy(m.value) then m else None
  }

  /**
    The older expression of each form accepts the text of every reading it can produce, followed
    by anything that does not extend the match, and reads back the same groups. With the
    soundness ensures of Match, the older recognisers accept exactly the texts of the older
    readings.
  */
  lemma MatchComplete(r: Reading, rest: string)
    requires Valid(r) && Legacy(r) && NoExtension(r, rest)
    ensures Match(FormOf(r), Text(r) + rest) == Some(r)
  {
    Money.MatchComplete(r, rest);
  }

  // ---------------------------------------------------------------------------------------
  // value_to_pennies
  // ---------------------------------------------------------------------------------------

  /**
    The reading value_to_pennies takes from `v`: the first expression, in the order marks,
    £.s.d., £.s., s.d., d., s., £, that matches at the start of `v`.
  */
  function ValueReading(v: string): (r: Option<Reading>)
    ensures r.Some? ==> Valid(r.value) && Legacy(r.value) && StartsWith(v, Text(r.value))
  {
    if Match(Marks, v).Some? then Match(Marks, v)
    else if Match(Psd, v).Some? then Match(Psd, v)
    else if Match(Ps, v).Some? then Match(Ps, v)
    else if Match(Sd, v).Some? then Match(Sd, v)
    else if Match(D, v).Some? then Match(D, v)
    else if Match(S, v).Some? then Match(S, v)
    else if Match(P, v).Some? then Match(P, v)
    else None
  }

  /** The number of marks a quantity stands for, in half marks. */
  function QuantityInHalves(q: string): nat
    requires IsLegacyQuantity(q)
  {
    if q == "½" then 1 else if q == "one" || q == "a" then 2 else 2 * DigitsValue(q)
  }

  /**
    The pence value_to_pennies computes from the groups, as written: the £.s. expression
    `£(\d+)\.(\d)+s\.` repeats a one-digit group, so its shilling group holds only the last
    digit of the shillings.
  */
  function Pennies(r: Reading): nat
    requires Valid(r) && Legacy(r)
  {
    match r
    case MarksReading(q, _, _) => QuantityInHalves(q) * (MarkAsPence / 2)
    case PsdReading(p, s, d, _) => DigitsValue(p) * PoundAsPence + DigitsValue(s) * ShillingAsPence + DigitsValue(d)
    case PsReading(p, s) => DigitsValue(p) * PoundAsPence + DigitValue(s[|s| - 1]) * ShillingAsPence
    case SdReading(s, d, _) => DigitsValue(s) * ShillingAsPence + DigitsValue(d)
    case DReading(d, _) => DigitsValue(d)
    case SReading(s) => DigitsValue(s) * ShillingAsPence
    case PReading(p) => DigitsValue(p) * PoundAsPence
  }

  /** The pence of a reading with the whole shilling group read in the £.s. form. */
  function PenniesFixed(r: Reading): nat
    requires Valid(r) && Legacy(r)
  {
    match r
    case PsReading(p, s) => DigitsValue(p) * PoundAsPence + DigitsValue(s) * ShillingAsPence
    case _ => Pennies(r)
  }

  /**
    money.py's value_to_pennies, as written: the pence of the first reading; exactly "NOTHING"
    is zero and anything else has no amount.
  */
  function ValueToPennies(v: string): Option<nat> {
    match ValueReading(v)
    case Some(r) => Some(Pennies(r))
    case None => if v == "NOTHING" then Some(0) else None
  }

  /** value_to_pennies with the £.s. shilling group read whole, `(\d+)`. */
  function ValueToPenniesFixed(v: string): Option<nat> {
    match ValueReading(v)
    case Some(r) => Some(PenniesFixed(r))
    case None => if v == "NOTHING" then Some(0) else None
  }

  /** The last digit of a number is its value modulo ten, and is its value exactly when below ten. */
  lemma LastDigit(s: string)
    requires IsNumber(s)
    ensures DigitValue(s[|s| - 1]) == DigitsValue(s) % 10
    ensures DigitValue(s[|s| - 1]) == DigitsValue(s) <==> DigitsValue(s) < 10
  {
  }

  /**
    Reading only the last shilling digit changes the amount exactly for a £.s. value of ten
    shillings or more.
  */
  lemma PenniesAsWritten(r: Reading)
    requires Valid(r) && Legacy(r)
    ensures Pennies(r) == PenniesFixed(r) <==> !(r.PsReading? && DigitsValue(r.shilling) >= 10)
  {
    if r.PsReading? {
      LastDigit(r.shilling);
    }
  }

  /** A legacy quantity counted in quarter marks is twice its count in half marks. */
  lemma QuartersOfHalves(q: string)
    requires IsLegacyQuantity(q)
    ensures IsQuantity(q) && QuantityInQuarters(q) == 2 * QuantityInHalves(q)
  {
    if q == "½" {
      assert |q| == 1 && q[0] == '½';
    } else if q == "one" || q == "a" {
      assert q[0] == 'o' || q[0] == 'a';
    } else {
      assert IsDigit(q[0]) && !IsVulgarFraction(q[0]);
      assert q != "One" && q != "one" && q != "a";
    }
  }

  /** With the whole shilling group, the older module values a reading as the newer one does. */
  lemma PenniesAgree(r: Reading)
    requires Valid(r) && Legacy(r)
    ensures InFarthings(PenniesFixed(r)) == Farthings(r)
  {
    match r
    case MarksReading(q, _, _) =>
      QuartersOfHalves(q);
      var h := QuantityInHalves(q);
      assert MarkAsPence == 160 && MarkAsPence / 2 == 80;
      assert InFarthings(h * 80) == (2 * h) * 160;
    case PsdReading(_, _, _, f) =>
      assert FractionFarthings(f) == 0;
    case PsReading(_, _) =>
    case SdReading(_, _, f) =>
      assert FractionFarthings(f) == 0;
    case DReading(_, f) =>
      assert FractionFarthings(f) == 0;
    case SReading(_) =>
    case PReading(_) =>
  }

  /**
    The text of every reading the older expressions produce is read back as that reading:
    every expression tried earlier rejects it, as it does in value_to_pence's order, of which
    value_to_pennies' order is a part.
  */
  lemma ReadingRoundTrip(r: Reading)
    requires Valid(r) && Legacy(r)
    ensures ValueReading(Text(r)) == Some(r)
    ensures ValueToPenniesFixed(Text(r)) == Some(PenniesFixed(r))
    ensures ValueToPennies(Text(r)) == Some(Pennies(r))
  {
    ValueReadingOf(r);
  }

  lemma ValueReadingOf(r: Reading)
    requires Valid(r) && Legacy(r)
    ensures ValueReading(Text(r)) == Some(r)
  {
    ReadingConverts(r);
    ValueReadingStep(Text(r), FormOf(r), r);
  }

  /** Where value_to_pence's order picks a reading the older expressions produce, so does value_to_pennies'. */
  lemma ValueReadingStep(v: string, f: Form, r: Reading)
    requires FirstInValueOrder(v, f, r) && Legacy(r)
    ensures ValueReading(v) == Some(r)
  {
    var k := ValueRank(f);
    assert k > 0 ==> Match(Marks, v).None?;
    assert k > 1 ==> Match(Psd, v).None?;
    assert k > 2 ==> Match(Ps, v).None?;
    assert k > 4 ==> Match(Sd, v).None?;
    assert k > 5 ==> Match(D, v).None?;
    assert k > 6 ==> Match(S, v).None?;
    assert Match(f, v) == Some(r);
  }

  // ---------------------------------------------------------------------------------------
  // pennies_to_psd
  // ---------------------------------------------------------------------------------------

  /** The pound, shilling and pence counts of an amount in pence. */
  function Parts(q: nat): (nat, nat, nat) {
    (q / PoundAsPence, q % PoundAsPence / ShillingAsPence, q % PoundAsPence % ShillingAsPence)
  }

  /**
    money.py's pennies_to_psd: six templates chosen by which of pounds, shillings and pence are
    non-zero; a lone pound count has no trailing dot, and zero and pounds with pence but no
    shillings are "Unmatched".
  */
  function PenniesToPsd(q: nat): string {
    var (pounds, shillings, pennies) := Parts(q);
    var p, s, d := NatToString(pounds), NatToString(shillings), NatToString(pennies);
    if pounds > 0 && shillings > 0 && pennies > 0 then "£" + p + "." + s + "s." + d + "d."
    else if pounds > 0 && shillings > 0 && pennies == 0 then "£" + p + "." + s + "s."
    else if pounds > 0 && shillings == 0 && pennies == 0 then "£" + p
    else if pounds == 0 && shillings > 0 && pennies > 0 then s + "s." + d + "d."
    else if pounds == 0 && shillings > 0 && pennies == 0 then s + "s."
    else if pounds == 0 && shillings == 0 && pennies > 0 then d + "d."
    else "Unmatched"
  }

  /** The amounts one of the six templates covers. */
  predicate Renders(q: nat) {
    var (pounds, shillings, pennies) := Parts(q);
    q > 0 && !(pounds > 0 && shillings == 0 && pennies > 0)
  }

  /** The reading whose text pennies_to_psd writes for an amount it renders. */
  function RenderedReading(q: nat): (r: Reading)
    requires Renders(q)
    ensures Valid(r) && Legacy(r)
  {
    var (pounds, shillings, pennies) := Parts(q);
    var p, s, d := NatToString(pounds), NatToString(shillings), NatToString(pennies);
    if pounds > 0 && shillings > 0 && pennies > 0 then PsdReading(p, s, d, None)
    else if pounds > 0 && shillings > 0 then PsReading(p, s)
    else if pounds > 0 then PReading(p)
    else if shillings > 0 && pennies > 0 then SdReading(s, d, None)
    else if shillings > 0 then SReading(s)
    else DReading(d, None)
  }

  /** The rendered reading is worth the amount, once the shilling group is read whole. */
  lemma RenderedValue(q: nat)
    requires Renders(q)
    ensures PenniesFixed(RenderedReading(q)) == q
  {
    var (pounds, shillings, pennies) := Parts(q);
    assert DigitsValue(NatToString(pounds)) == pounds;
    assert DigitsValue(NatToString(shillings)) == shillings;
    assert DigitsValue(NatToString(pennies)) == pennies;
  }

  /** The text pennies_to_psd writes is that of the rendered reading. */
  lemma RenderedText(q: nat)
    requires Renders(q)
    ensures PenniesToPsd(q) == Text(RenderedReading(q))
  {
    var (pounds, shillings, pennies) := Parts(q);
    var d := NatToString(pennies);
    assert PenceText(d, None) == d + "d.";
  }

  /** "Unmatched" is written exactly for the amounts no template covers. */
  lemma UnmatchedExactly(q: nat)
    ensures PenniesToPsd(q) == "Unmatched" <==> !Renders(q)
  {
    if Renders(q) {
      RenderedNotUnmatched(q);
    } else {
      UnrenderedUnmatched(q);
    }
  }

  lemma RenderedNotUnmatched(q: nat)
    requires Renders(q)
    ensures PenniesToPsd(q) != "Unmatched"
  {
    RenderedText(q);
    var t := Text(RenderedReading(q));
    assert t[0] == '£' || IsDigit(t[0]);
    assert "Unmatched"[0] == 'U';
  }

  lemma UnrenderedUnmatched(q: nat)
    requires !Renders(q)
    ensures PenniesToPsd(q) == "Unmatched"
  {
    var (pounds, shillings, pennies) := Parts(q);
    assert q == 0 || (pounds > 0 && shillings == 0 && pennies > 0);
    assert q == 0 ==> pounds == 0 && shillings == 0 && pennies == 0;
  }

  /**
    With the whole shilling group, value_to_pennies reads back every amount pennies_to_psd
    renders.
  */
  lemma RoundTripFixed(q: nat)
    requires Renders(q)
    ensures ValueToPenniesFixed(PenniesToPsd(q)) == Some(q)
  {
    RenderedText(q);
    RenderedValue(q);
    ReadingRoundTrip(RenderedReading(q));
  }

  /**
    As written, the round trip holds for a rendered amount exactly when it is not pounds and ten
    or more shillings with no pence.
  */
  lemma RoundTripAsWritten(q: nat)
    requires Renders(q)
    ensures ValueToPennies(PenniesToPsd(q)) == Some(q) <==>
      !(Parts(q).0 > 0 && Parts(q).1 >= 10 && Parts(q).2 == 0)
  {
    var r := RenderedReading(q);
    RenderedText(q);
    RenderedValue(q);
    ReadingRoundTrip(r);
    PenniesAsWritten(r);
    var (pounds, shillings, pennies) := Parts(q);
    if r.PsReading? {
      assert DigitsValue(r.shilling) == shillings;
    }
  }

  /** pennies_to_psd(432) is £1.16s., which value_to_pennies reads as 312 pence. */
  lemma ShillingDigitExample()
    ensures PenniesToPsd(432) == "£1.16s."
    ensures ValueToPennies("£1.16s.") == Some(312)
    ensures ValueToPenniesFixed("£1.16s.") == Some(432)
  {
    assert Parts(432) == (1, 16, 0);
    var r := PsReading("1", "16");
    assert NatToString(1) == "1" && NatToString(16) == "16";
    assert RenderedReading(432) == r;
    RenderedText(432);
    assert Text(r) == "£1.16s.";
    ReadingRoundTrip(r);
  }

  /** pennies_to_psd(241) is "Unmatched": one pound and one penny has no template. */
  lemma PoundPenceExample()
    ensures PenniesToPsd(241) == "Unmatched"
  {
    assert Parts(241) == (1, 0, 1);
  }

  // ---------------------------------------------------------------------------------------
  // extract_value
  // ---------------------------------------------------------------------------------------

  /** The older expression of form `f` matched at position `j` of `text`. */
  function MatchAt(f: Form, text: string, j: nat): Option<Reading>
    requires j <= |text|
  {
    Match(f, text[j..])
  }

  /** The older expression of form `f` matches somewhere in `text`. */
  ghost predicate Occurs(f: Form, text: string) {
    exists j: nat :: j <= |text| && MatchAt(f, text, j).Some?
  }

  /** No match of `f` starts at any position in `lo..hi`. */
  ghost predicate NoMatchIn(f: Form, text: string, lo: nat, hi: nat) {
    forall j: nat :: lo <= j < hi && j <= |text| ==> MatchAt(f, text, j).None?
  }

  /**
    The outcome of the older expression at every position of `text`, end included. The newer
    module's search scaffolding is built over its own `MatchAt`; this one runs the older
    recognisers, which accept only the older readings, so the scaffolding is restated here.
  */
  function MatchesAt(f: Form, text: string): (ms: seq<Option<Reading>>)
    ensures |ms| == |text| + 1
    ensures forall j :: 0 <= j <= |text| ==> ms[j] == MatchAt(f, text, j)
  {
    seq(|text| + 1, j requires 0 <= j <= |text| => MatchAt(f, text, j))
  }

  /** `regex.search(text)` with the older expression. */
  function Search(f: Form, text: string): (r: Option<Hit>)
    ensures r.Some? ==> r.value.pos <= |text|
  {
    FirstFrom(MatchesAt(f, text), 0)
  }

  /** Search finds a match exactly when the expression occurs, and then the leftmost one. */
  lemma SearchSpec(f: Form, text: string)
    ensures Search(f, text).None? <==> !Occurs(f, text)
    ensures Search(f, text).Some? ==>
      (MatchAt(f, text, Search(f, text).value.pos) == Some(Search(f, text).value.reading)
      && NoMatchIn(f, text, 0, Search(f, text).value.pos))
  {
    var ms := MatchesAt(f, text);
    FirstFromSpec(ms, 0);
    if Occurs(f, text) {
      var j: nat :| j <= |text| && MatchAt(f, text, j).Some?;
      assert ms[j].Some?;
    }
  }

  /** `regex.search` finds the leftmost match, whatever way that position is established. */
  lemma SearchLeftmost(f: Form, text: string, j: nat)
    requires j <= |text| && MatchAt(f, text, j).Some? && NoMatchIn(f, text, 0, j)
    ensures Search(f, text) == Some(Hit(j, MatchAt(f, text, j).value))
  {
    SearchSpec(f, text);
  }

  /** The number of forms the older extract_value tries. */
  const Forms: nat := 7

  /** The position of each form in the older extract_value's order; the £.d. form is never tried. */
  function ExtractionRank(f: Form): nat {
    match f
    case Marks => 0
    case Psd => 1
    case Ps => 2
    case Sd => 3
    case S => 4
    case D => 5
    case P => 6
    case Pd => Forms
  }

  /** The form the older extract_value tries at position `k` of its order. */
  function FormOfRank(k: nat): (f: Form)
    requires k < Forms
    ensures forall g :: ExtractionRank(g) == k <==> g == f
  {
    if k == 0 then Marks else if k == 1 then Psd else if k == 2 then Ps else if k == 3 then Sd
    else if k == 4 then S else if k == 5 then D else P
  }

  /** The first form from rank `k` on, in the older order, that occurs in the text. */
  function FirstFormFrom(text: string, k: nat): (r: Option<Form>)
    requires k <= Forms
    ensures r.Some? ==> Search(r.value, text).Some? && ExtractionRank(r.value) < Forms
    decreases Forms - k
  {
    if k == Forms then None
    else if Search(FormOfRank(k), text).Some? then Some(FormOfRank(k))
    else FirstFormFrom(text, k + 1)
  }

  /**
    money.py's extract_value: the matched text of the first form, in the order marks, £.s.d.,
    £.s., s.d., s., d., £, that occurs anywhere in the text, at its leftmost position; failing
    all, "NOTHING" if the text contains it.
  */
  function ExtractValue(text: string): Option<string> {
    match FirstFormFrom(text, 0)
    case Some(f) => Some(Text(Search(f, text).value.reading))
    case None => if Contains(text, "NOTHING") then Some("NOTHING") else None
  }

  /** Searching the order from rank `k` stops at the first form found. */
  lemma {:induction false} FirstFormFromSpec(text: string, k: nat, f: Form)
    requires k <= ExtractionRank(f) < Forms && Search(f, text).Some?
    requires forall j :: k <= j < ExtractionRank(f) ==> Search(FormOfRank(j), text).None?
    ensures FirstFormFrom(text, k) == Some(f)
    decreases ExtractionRank(f) - k
  {
    if k < ExtractionRank(f) {
      assert Search(FormOfRank(k), text).None?;
      FirstFormFromSpec(text, k + 1, f);
    } else {
      assert FormOfRank(k) == f;
    }
  }

  /** Searching the order from rank `k` finds nothing when no form from there on occurs. */
  lemma {:induction false} FirstFormFromNone(text: string, k: nat)
    requires k <= Forms
    requires forall j :: k <= j < Forms ==> Search(FormOfRank(j), text).None?
    ensures FirstFormFrom(text, k).None?
    decreases Forms - k
  {
    if k < Forms {
      FirstFormFromNone(text, k + 1);
    }
  }

  /** A form that is found with none before it in the order is the one extract_value takes. */
  lemma ExtractStep(text: string, f: Form)
    requires ExtractionRank(f) < Forms && Search(f, text).Some?
    requires forall g :: ExtractionRank(g) < ExtractionRank(f) ==> Search(g, text).None?
    ensures FirstFormFrom(text, 0) == Some(f)
  {
    forall j | 0 <= j < ExtractionRank(f) ensures Search(FormOfRank(j), text).None? {
      assert ExtractionRank(FormOfRank(j)) == j;
    }
    FirstFormFromSpec(text, 0, f);
  }

  /**
    The older extract_value returns the text of the leftmost match of the first form, in its
    order, that occurs anywhere in the text.
  */
  lemma ExtractLeftmost(text: string, f: Form, j: nat)
    requires j <= |text| && f != Pd
    requires forall g :: ExtractionRank(g) < ExtractionRank(f) ==> !Occurs(g, text)
    requires MatchAt(f, text, j).Some? && NoMatchIn(f, text, 0, j)
    ensures ExtractValue(text) == Some(Text(MatchAt(f, text, j).value))
  {
    SearchLeftmost(f, text, j);
    forall g | ExtractionRank(g) < ExtractionRank(f) ensures Search(g, text).None? {
      SearchSpec(g, text);
    }
    ExtractStep(text, f);
  }

  /** The first form in the order from rank `k` that is found, given that `f` is. */
  lemma FirstFoundFrom(text: string, k: nat, f: Form) returns (g: Form)
    requires k <= ExtractionRank(f) < Forms && Search(f, text).Some?
    requires forall h :: ExtractionRank(h) < k ==> Search(h, text).None?
    ensures Search(g, text).Some? && ExtractionRank(g) <= ExtractionRank(f)
    ensures forall h :: ExtractionRank(h) < ExtractionRank(g) ==> Search(h, text).None?
    decreases ExtractionRank(f) - k
  {
    var h := FormOfRank(k);
    if Search(h, text).Some? {
      g := h;
    } else {
      g := FirstFoundFrom(text, k + 1, f);
    }
  }

  /** What extract_value returns when some form is found. */
  lemma ExtractFound(text: string, f: Form) returns (g: Form)
    requires Search(f, text).Some?
    ensures Search(g, text).Some?
    ensures ExtractValue(text) == Some(Text(Search(g, text).value.reading))
  {
    SearchSpec(f, text);
    var h := Search(f, text).value;
    assert Legacy(h.reading) && FormOf(h.reading) == f;
    g := FirstFoundFrom(text, 0, f);
    ExtractStep(text, g);
  }

  /**
    The older extract_value returns NOTHING exactly when no form occurs and the text contains
    the word, and returns no value exactly when neither does.
  */
  lemma ExtractNothing(text: string)
    ensures ExtractValue(text) == Some("NOTHING") <==>
      (forall f :: !Occurs(f, text)) && Contains(text, "NOTHING")
    ensures ExtractValue(text).None? <==>
      (forall f :: !Occurs(f, text)) && !Contains(text, "NOTHING")
  {
    if f :| Search(f, text).Some? {
      var g := ExtractFound(text, f);
      SearchSpec(g, text);
      TextNotNothing(Search(g, text).value.reading);
    } else {
      FirstFormFromNone(text, 0);
      forall g ensures !Occurs(g, text) {
        SearchSpec(g, text);
      }
    }
  }

  /** Whatever the older extract_value returns, value_to_pennies gives an amount for. */
  lemma ExtractConverts(text: string)
    ensures ExtractValue(text).Some? ==> ValueToPennies(ExtractValue(text).value).Some?
  {
    if f :| Search(f, text).Some? {
      var g := ExtractFound(text, f);
      SearchSpec(g, text);
      ReadingRoundTrip(Search(g, text).value.reading);
    } else {
      FirstFormFromNone(text, 0);
    }
  }
}
