/**
  The monetary grammar of receipt_roll/money.py: eight surface forms of pre-decimal money,
  their conversion to pence and the rendering of pence back to pounds, shillings and pence.

  Amounts are counted in farthings (quarter pence), so that the vulgar fractions ¼, ½ and ¾
  that the source holds in Python floats are exact integers here.
*/
module Money {
  import opened Wrappers
  import opened Strings

  const ShillingAsPence: nat := 12
  const PoundAsPence: nat := 20 * ShillingAsPence
  const MarkAsPence: nat := ShillingAsPence * 13 + 4
  const FarthingsPerPenny: nat := 4

  /** A whole number of pence, in farthings. */
  function InFarthings(pence: nat): nat { pence * FarthingsPerPenny }

  predicate IsVulgarFraction(c: char) { c == '¼' || c == '½' || c == '¾' }

  /** The value of a fraction glyph, in farthings (¼d. is one farthing). */
  function VulgarFractionToDecimal(c: char): (r: Option<nat>)
    ensures r.Some? <==> IsVulgarFraction(c)
    ensures r.Some? ==> 1 <= r.value < FarthingsPerPenny
  {
    if c == '¼' then Some(1)
    else if c == '½' then Some(2)
    else if c == '¾' then Some(3)
    else None
  }

  /** The glyph for a fraction of a penny given in farthings; only quarters have one. */
  function DecimalToVulgarFraction(q: nat): (r: Option<char>)
    ensures r.Some? <==> 1 <= q < FarthingsPerPenny
    ensures r.Some? ==> IsVulgarFraction(r.value)
  {
    if q == 1 then Some('¼')
    else if q == 2 then Some('½')
    else if q == 3 then Some('¾')
    else None
  }

  // ---------------------------------------------------------------------------------------
  // Readings: what each surface form's regular expression captures
  // ---------------------------------------------------------------------------------------

  /** The surface forms, one per regular expression of the source. */
  datatype Form = Marks | Psd | Ps | Pd | Sd | S | D | P

  /**
    The groups captured by a successful match. Digit groups are kept as the digit strings
    the source passes to `int()`; `fraction` is the optional ¼/½/¾ after the pence.
  */
  datatype Reading =
    | MarksReading(quantity: string, sep: char, plural: bool)                  // 2 marks
    | PsdReading(pound: string, shilling: string, pence: string, fraction: Option<char>) // £1.6s.4¼d.
    | PsReading(pound: string, shilling: string)                               // £1.6s.
    | PdReading(pound: string, pence: string, fraction: Option<char>)          // £1.4d.
    | SdReading(shilling: string, pence: string, fraction: Option<char>)       // 6s.4d.
    | SReading(shilling: string)                                               // 6s.
    | DReading(pence: string, fraction: Option<char>)                          // 4½d.
    | PReading(pound: string)                                                  // £12

  function FormOf(r: Reading): Form {
    match r
    case MarksReading(_, _, _) => Marks
    case PsdReading(_, _, _, _) => Psd
    case PsReading(_, _) => Ps
    case PdReading(_, _, _) => Pd
    case SdReading(_, _, _) => Sd
    case SReading(_) => S
    case DReading(_, _) => D
    case PReading(_) => P
  }

  /** The words a mark quantity may be, besides a number. */
  const QuantityWords: seq<string> := ["¼", "½", "¾", "One", "one", "a"]

  predicate IsNumber(s: string) { |s| > 0 && AllDigits(s) }

  predicate IsQuantity(q: string) { IsNumber(q) || q in QuantityWords }

  predicate ValidFraction(f: Option<char>) { f.Some? ==> IsVulgarFraction(f.value) }

  /** The groups of a reading are ones its regular expression can capture. */
  predicate Valid(r: Reading) {
    match r
    case MarksReading(q, sep, _) => IsQuantity(q) && IsSpace(sep)
    case PsdReading(p, s, d, f) => IsNumber(p) && IsNumber(s) && IsNumber(d) && ValidFraction(f)
    case PsReading(p, s) => IsNumber(p) && IsNumber(s)
    case PdReading(p, d, f) => IsNumber(p) && IsNumber(d) && ValidFraction(f)
    case SdReading(s, d, f) => IsNumber(s) && IsNumber(d) && ValidFraction(f)
    case SReading(s) => IsNumber(s)
    case DReading(d, f) => IsNumber(d) && ValidFraction(f)
    case PReading(p) => IsNumber(p)
  }

  function FractionText(f: Option<char>): string {
    if f.Some? then [f.value] else ""
  }

  /** The pence part shared by four forms: `(\d+)(¼|½|¾)?d\.` */
  function PenceText(d: string, f: Option<char>): string {
    d + FractionText(f) + "d."
  }

  /** The text a reading was matched from (group 1 of its regular expression). */
  function Text(r: Reading): string {
    match r
    case MarksReading(q, sep, plural) => q + [sep] + "mark" + (if plural then "s" else "")
    case PsdReading(p, s, d, f) => "£" + p + "." + s + "s." + PenceText(d, f)
    case PsReading(p, s) => "£" + p + "." + s + "s."
    case PdReading(p, d, f) => "£" + p + "." + PenceText(d, f)
    case SdReading(s, d, f) => s + "s." + PenceText(d, f)
    case SReading(s) => s + "s."
    case DReading(d, f) => PenceText(d, f)
    case PReading(p) => "£" + p
  }

  // ---------------------------------------------------------------------------------------
  // The *_to_pence converters
  // ---------------------------------------------------------------------------------------

  /** A mark quantity in quarter marks, as marks_to_pence reads it. */
  function QuantityInQuarters(q: string): nat
    requires IsQuantity(q)
  {
    if |q| == 1 && IsVulgarFraction(q[0]) then VulgarFractionToDecimal(q[0]).value
    else if q == "One" || q == "one" || q == "a" then 4
    else 4 * DigitsValue(q)
  }

  function FractionFarthings(f: Option<char>): nat
    requires ValidFraction(f)
  {
    if f.Some? then VulgarFractionToDecimal(f.value).value else 0
  }

  /**
    The value of a reading in farthings: pound x 240 + shilling x 12 + pence + fraction, or
    quantity x 160 for marks. A quarter mark is 40d., that is 160 farthings, so a quantity in
    quarter marks times MarkAsPence is already in farthings.
  */
  function Farthings(r: Reading): nat
    requires Valid(r)
  {
    match r
    case MarksReading(q, _, _) => QuantityInQuarters(q) * MarkAsPence
    case PsdReading(p, s, d, f) =>
      InFarthings(DigitsValue(p) * PoundAsPence + DigitsValue(s) * ShillingAsPence + DigitsValue(d))
      + FractionFarthings(f)
    case PsReading(p, s) => InFarthings(DigitsValue(p) * PoundAsPence + DigitsValue(s) * ShillingAsPence)
    case PdReading(p, d, f) => InFarthings(DigitsValue(p) * PoundAsPence + DigitsValue(d)) + FractionFarthings(f)
    case SdReading(s, d, f) => InFarthings(DigitsValue(s) * ShillingAsPence + DigitsValue(d)) + FractionFarthings(f)
    case SReading(s) => InFarthings(DigitsValue(s) * ShillingAsPence)
    case DReading(d, f) => InFarthings(DigitsValue(d)) + FractionFarthings(f)
    case PReading(p) => InFarthings(DigitsValue(p) * PoundAsPence)
  }

  // ---------------------------------------------------------------------------------------
  // Recognisers, anchored at the start of the string (`regex.match`)
  // ---------------------------------------------------------------------------------------

  /** A greedy `(\d+)`. */
  function Number(s: string): (r: Option<string>)
    ensures r.None? <==> s == [] || !IsDigit(s[0])
    ensures r.Some? ==> IsNumber(r.value) && StartsWith(s, r.value)
    ensures r.Some? && |r.value| < |s| ==> !IsDigit(s[|r.value|])
  {
    var n := DigitRun(s);
    if n == 0 then None else Some(s[..n])
  }

  /** An optional `(¼|½|¾)?`. */
  function Fraction(s: string): (f: Option<char>)
    ensures ValidFraction(f) && StartsWith(s, FractionText(f))
    ensures f.None? ==> s == [] || !IsVulgarFraction(s[0])
  {
    if s != [] && IsVulgarFraction(s[0]) then Some(s[0]) else None
  }

  /** `(\d+|¼|½|¾|One|one|a)`: the alternatives in order; at most one can apply. */
  function Quantity(s: string): (r: Option<string>)
    ensures r.Some? ==> IsQuantity(r.value) && StartsWith(s, r.value)
  {
    var n := DigitRun(s);
    if n > 0 then Some(s[..n])
    else if StartsWith(s, "¼") then Some("¼")
    else if StartsWith(s, "½") then Some("½")
    else if StartsWith(s, "¾") then Some("¾")
    else if StartsWith(s, "One") then Some("One")
    else if StartsWith(s, "one") then Some("one")
    else if StartsWith(s, "a") then Some("a")
    else None
  }

  /** marks_regex: `(\d+|¼|½|¾|One|one|a)\smark(s?)` */
  function MatchMarks(s: string): (r: Option<Reading>)
    ensures r.Some? ==> r.value.MarksReading? && Valid(r.value) && StartsWith(s, Text(r.value))
  {
    var q :- Quantity(s);
    var i := |q|;
    if i < |s| && IsSpace(s[i]) && StartsWith(s[i + 1..], "mark") then
      var plural := StartsWith(s[i + 5..], "s");
      StartsWithJoin(s, q, [s[i]]);
      StartsWithJoin(s, q + [s[i]], "mark");
      var r := MarksReading(q, s[i], plural);
      if plural then
        StartsWithJoin(s, q + [s[i]] + "mark", "s");
        Some(r)
      else
        assert q + [s[i]] + "mark" + "" == q + [s[i]] + "mark";
        Some(r)
    else
      None
  }

  /** d_regex: `((\d+)(¼|½|¾)?)d\.` */
  function MatchD(s: string): (r: Option<Reading>)
    ensures r.Some? ==> r.value.DReading? && Valid(r.value) && StartsWith(s, Text(r.value))
  {
    var d :- Number(s);
    var f := Fraction(s[|d|..]);
    var k := |d| + |FractionText(f)|;
    if StartsWith(s[k..], "d.") then
      StartsWithJoin(s, d, FractionText(f));
      StartsWithJoin(s, d + FractionText(f), "d.");
      Some(DReading(d, f))
    else
      None
  }

  /** s_regex: `(\d+)s\.` */
  function MatchS(s: string): (r: Option<Reading>)
    ensures r.Some? ==> r.value.SReading? && Valid(r.value) && StartsWith(s, Text(r.value))
  {
    var sh :- Number(s);
    if StartsWith(s[|sh|..], "s.") then
      StartsWithJoin(s, sh, "s.");
      Some(SReading(sh))
    else
      None
  }

  /** sd_regex: `(\d+)s\.((\d+)(¼|½|¾)?d\.)`, an s. reading followed by a d. reading. */
  function MatchSd(s: string): (r: Option<Reading>)
    ensures r.Some? ==> r.value.SdReading? && Valid(r.value) && StartsWith(s, Text(r.value))
  {
    var sh :- MatchS(s);
    var d :- MatchD(s[|Text(sh)|..]);
    StartsWithJoin(s, Text(sh), Text(d));
    assert Text(sh) + Text(d) == Text(SdReading(sh.shilling, d.pence, d.fraction));
    Some(SdReading(sh.shilling, d.pence, d.fraction))
  }

  lemma PsTextSplit(p: string, sh: string)
    ensures Text(PsReading(p, sh)) == "£" + p + "." + Text(SReading(sh))
  {
  }

  lemma PsdTextSplit(p: string, sh: string, d: string, f: Option<char>)
    ensures Text(PsdReading(p, sh, d, f)) == "£" + p + "." + Text(SdReading(sh, d, f))
  {
  }

  /** The `£(\d+)\.` head shared by psd_regex, ps_regex and pd_regex. */
  function PoundDotHead(s: string): (r: Option<string>)
    ensures r.Some? ==> IsNumber(r.value) && StartsWith(s, "£" + r.value + ".")
  {
    var p :- MatchP(s);
    if StartsWith(s[|Text(p)|..], ".") then
      StartsWithJoin(s, Text(p), ".");
      Some(p.pound)
    else
      None
  }

  /** psd_regex: `£(\d+)\.(\d+)s\.((\d+)(¼|½|¾)?)d\.`, the head followed by an s.d. reading. */
  function MatchPsd(s: string): (r: Option<Reading>)
    ensures r.Some? ==> r.value.PsdReading? && Valid(r.value) && StartsWith(s, Text(r.value))
  {
    var p :- PoundDotHead(s);
    var head := "£" + p + ".";
    var sd :- MatchSd(s[|head|..]);
    StartsWithJoin(s, head, Text(sd));
    PsdTextSplit(p, sd.shilling, sd.pence, sd.fraction);
    Some(PsdReading(p, sd.shilling, sd.pence, sd.fraction))
  }

  /** ps_regex: `£(\d+)\.(\d+)+s\.` (the repeated group captures the whole digit run) */
  function MatchPs(s: string): (r: Option<Reading>)
    ensures r.Some? ==> r.value.PsReading? && Valid(r.value) && StartsWith(s, Text(r.value))
  {
    var p :- PoundDotHead(s);
    var head := "£" + p + ".";
    var sh :- MatchS(s[|head|..]);
    StartsWithJoin(s, head, Text(sh));
    PsTextSplit(p, sh.shilling);
    Some(PsReading(p, sh.shilling))
  }

  /** pd_regex: `£(\d+)\.((\d+)(¼|½|¾)?)d\.` */
  function MatchPd(s: string): (r: Option<Reading>)
    ensures r.Some? ==> r.value.PdReading? && Valid(r.value) && StartsWith(s, Text(r.value))
  {
    var p :- PoundDotHead(s);
    var head := "£" + p + ".";
    var d :- MatchD(s[|head|..]);
    StartsWithJoin(s, head, Text(d));
    Some(PdReading(p, d.pence, d.fraction))
  }

  /** p_regex: `£(\d+)` */
  function MatchP(s: string): (r: Option<Reading>)
    ensures r.Some? ==> r.value.PReading? && Valid(r.value) && StartsWith(s, Text(r.value))
    ensures r.Some? && |Text(r.value)| < |s| ==> !IsDigit(s[|Text(r.value)|])
  {
    if StartsWith(s, "£") then
      var p :- Number(s[1..]);
      StartsWithJoin(s, "£", p);
      Some(PReading(p))
    else
      None
  }

  /** `regex.match(s)` for the regular expression of form `f`. */
  function MatchForm(f: Form, s: string): (r: Option<Reading>)
    ensures r.Some? ==> FormOf(r.value) == f && Valid(r.value) && StartsWith(s, Text(r.value))
  {
    match f
    case Marks => MatchMarks(s)
    case Psd => MatchPsd(s)
    case Ps => MatchPs(s)
    case Pd => MatchPd(s)
    case Sd => MatchSd(s)
    case S => MatchS(s)
    case D => MatchD(s)
    case P => MatchP(s)
  }

  // ---------------------------------------------------------------------------------------
  // value_to_pence
  // ---------------------------------------------------------------------------------------

  function MarksToPence(v: string): nat requires MatchMarks(v).Some? { Farthings(MatchMarks(v).value) }
  function PsdToPence(v: string): nat requires MatchPsd(v).Some? { Farthings(MatchPsd(v).value) }
  function PsToPence(v: string): nat requires MatchPs(v).Some? { Farthings(MatchPs(v).value) }
  function PdToPence(v: string): nat requires MatchPd(v).Some? { Farthings(MatchPd(v).value) }
  function SdToPence(v: string): nat requires MatchSd(v).Some? { Farthings(MatchSd(v).value) }
  function DToPence(v: string): nat requires MatchD(v).Some? { Farthings(MatchD(v).value) }
  function SToPence(v: string): nat requires MatchS(v).Some? { Farthings(MatchS(v).value) }
  function PToPence(v: string): nat requires MatchP(v).Some? { Farthings(MatchP(v).value) }

  /**
    The amount in farthings of a value string: the first form, in the order marks, £.s.d.,
    £.s., £.d., s.d., d., s., £, whose expression matches at the start of `v`; exactly
    "NOTHING" is zero and anything else has no amount.
  */
  function ValueToPence(v: string): Option<nat> {
    if MatchMarks(v).Some? then Some(MarksToPence(v))
    else if MatchPsd(v).Some? then Some(PsdToPence(v))
    else if MatchPs(v).Some? then Some(PsToPence(v))
    else if MatchPd(v).Some? then Some(PdToPence(v))
    else if MatchSd(v).Some? then Some(SdToPence(v))
    else if MatchD(v).Some? then Some(DToPence(v))
    else if MatchS(v).Some? then Some(SToPence(v))
    else if MatchP(v).Some? then Some(PToPence(v))
    else if v == "NOTHING" then Some(0)
    else None
  }

  /** The position of each form in value_to_pence's order. */
  function ValueRank(f: Form): nat {
    match f
    case Marks => 0
    case Psd => 1
    case Ps => 2
    case Pd => 3
    case Sd => 4
    case D => 5
    case S => 6
    case P => 7
  }

  /** `f`'s expression reads `r` from the start of `v`, and every expression tried before it rejects `v`. */
  predicate FirstInValueOrder(v: string, f: Form, r: Reading) {
    && MatchForm(f, v) == Some(r)
    && (ValueRank(f) > 0 ==> MatchMarks(v).None?)
    && (ValueRank(f) > 1 ==> MatchPsd(v).None?)
    && (ValueRank(f) > 2 ==> MatchPs(v).None?)
    && (ValueRank(f) > 3 ==> MatchPd(v).None?)
    && (ValueRank(f) > 4 ==> MatchSd(v).None?)
    && (ValueRank(f) > 5 ==> MatchD(v).None?)
    && (ValueRank(f) > 6 ==> MatchS(v).None?)
  }

  // ---------------------------------------------------------------------------------------
  // extract_value
  // ---------------------------------------------------------------------------------------

  /** A match of some form's expression at position `pos` of a text. */
  datatype Hit = Hit(pos: nat, reading: Reading)

  /** The form's expression matched at position `j` of `text`. */
  function MatchAt(f: Form, text: string, j: nat): Option<Reading>
    requires j <= |text|
  {
    MatchForm(f, text[j..])
  }

  /** The form's expression matches somewhere in `text` (`regex.search(text)` succeeds). */
  ghost predicate Occurs(f: Form, text: string) {
    exists j: nat :: j <= |text| && MatchAt(f, text, j).Some?
  }

  /** No match of `f` starts at any position in `lo..hi`. */
  ghost predicate NoMatchIn(f: Form, text: string, lo: nat, hi: nat) {
    forall j: nat :: lo <= j < hi && j <= |text| ==> MatchAt(f, text, j).None?
  }

  /** The outcome of the form's expression at every position of `text`, end included. */
  function MatchesAt(f: Form, text: string): (ms: seq<Option<Reading>>)
    ensures |ms| == |text| + 1
    ensures forall j :: 0 <= j <= |text| ==> ms[j] == MatchAt(f, text, j)
  {
    seq(|text| + 1, j requires 0 <= j <= |text| => MatchAt(f, text, j))
  }

  /** The first match among the outcomes from position `i` on. */
  function FirstFrom(ms: seq<Option<Reading>>, i: nat): (r: Option<Hit>)
    requires i <= |ms|
    ensures r.Some? ==> i <= r.value.pos < |ms|
    decreases |ms| - i
  {
    if i == |ms| then None
    else if ms[i].Some? then Some(Hit(i, ms[i].value))
    else FirstFrom(ms, i + 1)
  }

  /** FirstFrom finds the first match from `i` on, and finds none only if there is none. */
  lemma {:induction false} FirstFromSpec(ms: seq<Option<Reading>>, i: nat)
    requires i <= |ms|
    ensures FirstFrom(ms, i).Some? ==>
      (ms[FirstFrom(ms, i).value.pos] == Some(FirstFrom(ms, i).value.reading)
      && forall j :: i <= j < FirstFrom(ms, i).value.pos ==> ms[j].None?)
    ensures FirstFrom(ms, i).None? ==> forall j :: i <= j < |ms| ==> ms[j].None?
    decreases |ms| - i
  {
    if i < |ms| && ms[i].None? {
      FirstFromSpec(ms, i + 1);
    }
  }

  /** `regex.search(text)`: the first position, from the start, where the expression matches. */
  function Search(f: Form, text: string): (r: Option<Hit>)
    ensures r.Some? ==> r.value.pos <= |text|
  {
    FirstFrom(MatchesAt(f, text), 0)
  }

  /**
    Search finds a match exactly when the form's expression occurs, and then the leftmost one
    with its groups.
  */
  lemma SearchSpec(f: Form, text: string)
    ensures Search(f, text).None? <==> !Occurs(f, text)
    ensures Search(f, text).Some? ==>
      (MatchAt(f, text, Search(f, text).value.pos) == Some(Search(f, text).value.reading)
      && NoMatchIn(f, text, 0, Search(f, text).value.pos))
  {
    SearchFound(f, text);
    if Occurs(f, text) {
      var j: nat :| j <= |text| && MatchAt(f, text, j).Some?;
      SearchMisses(f, text, j);
    }
  }

  /** A hit of Search is a match, and the leftmost one. */
  lemma SearchFound(f: Form, text: string)
    ensures Search(f, text).Some? ==>
      (MatchAt(f, text, Search(f, text).value.pos) == Some(Search(f, text).value.reading)
      && NoMatchIn(f, text, 0, Search(f, text).value.pos))
  {
    FirstFromSpec(MatchesAt(f, text), 0);
  }

  /** Search misses no match. */
  lemma SearchMisses(f: Form, text: string, j: nat)
    requires j <= |text| && MatchAt(f, text, j).Some?
    ensures Search(f, text).Some?
  {
    var ms := MatchesAt(f, text);
    FirstFromSpec(ms, 0);
    assert ms[j].Some?;
  }

  /** The text of the leftmost match of form `f`, given that it occurs. */
  function Found(f: Form, text: string): string
    requires Search(f, text).Some?
  {
    Text(Search(f, text).value.reading)
  }

  /**
    The monetary value written in a text: the matched text of the first form, in the order
    marks, £.s.d., £.s., £.d., s.d., s., d., £, that occurs anywhere in the text, at its
    leftmost position; failing all forms, "NOTHING" if the text contains it. The order of
    s. and d. is the reverse of ValueToPence's.
  */
  function ExtractValue(text: string): Option<string> {
    match FirstForm(text)
    case Some(f) => Some(Found(f, text))
    case None => if Contains(text, "NOTHING") then Some("NOTHING") else None
  }

  /** The first form, in extract_value's order, whose expression occurs in the text. */
  function FirstForm(text: string): (r: Option<Form>)
    ensures r.Some? ==> Search(r.value, text).Some?
  {
    FirstFormFrom(text, 0)
  }

  /** The first form from rank `k` on, in extract_value's order, that occurs in the text. */
  function FirstFormFrom(text: string, k: nat): (r: Option<Form>)
    requires k <= Forms
    ensures r.Some? ==> Search(r.value, text).Some?
    decreases Forms - k
  {
    if k == Forms then None
    else if Search(FormOfRank(k), text).Some? then Some(FormOfRank(k))
    else FirstFormFrom(text, k + 1)
  }

  // ---------------------------------------------------------------------------------------
  // pence_to_psd
  // ---------------------------------------------------------------------------------------

  /** The farthings of one pound and of one shilling. */
  const PoundFarthings: nat := InFarthings(PoundAsPence)
  const ShillingFarthings: nat := InFarthings(ShillingAsPence)

  /**
    Renders an amount in farthings as pounds, shillings and pence by division and remainder,
    leaving out every zero component: £P. then Ss. then D with its fraction glyph and d.
    Zero renders as the empty string.
  */
  function PenceToPsd(q: nat): string {
    var pounds := q / PoundFarthings;
    var rest := q % PoundFarthings;
    PsdFormat(pounds, rest / ShillingFarthings, rest % ShillingFarthings)
  }

  /** The formatting half of pence_to_psd, given the pound and shilling counts and the farthings left. */
  function PsdFormat(pounds: nat, shillings: nat, pennies: nat): string {
    PoundsFormat(pounds) + ShillingsFormat(shillings) + PenniesFormat(pennies)
  }

  function PoundsFormat(pounds: nat): string {
    if pounds > 0 then "£" + NatToString(pounds) + "." else ""
  }

  function ShillingsFormat(shillings: nat): string {
    if shillings > 0 then NatToString(shillings) + "s." else ""
  }

  /** The pence part of pence_to_psd's text: whole pence, the fraction glyph, then "d.". */
  function PenniesFormat(pennies: nat): string {
    var fraction := pennies % FarthingsPerPenny;
    var fractionFmt :=
      if fraction > 0 then
        match DecimalToVulgarFraction(fraction)
        case Some(c) => [c]
        case None => ""
      else "";
    if pennies > 0 then NatToString(pennies / FarthingsPerPenny) + fractionFmt + "d." else ""
  }

  // ---------------------------------------------------------------------------------------
  // Completeness of the recognisers
  // ---------------------------------------------------------------------------------------

  /** What follows a reading's text does not let the greedy parts of its expression go on. */
  predicate NoExtension(r: Reading, rest: string) {
    match r
    case MarksReading(_, _, plural) => plural || rest == [] || rest[0] != 's'
    case PReading(_) => rest == [] || !IsDigit(rest[0])
    case _ => true
  }

  lemma NumberOf(ds: string, rest: string)
    requires IsNumber(ds)
    requires rest == [] || !IsDigit(rest[0])
    ensures Number(ds + rest) == Some(ds)
  {
    DigitRunConcat(ds, rest);
    assert (ds + rest)[..|ds|] == ds;
  }

  lemma FractionOf(f: Option<char>, rest: string)
    requires ValidFraction(f)
    requires f.None? ==> rest == [] || !IsVulgarFraction(rest[0])
    ensures Fraction(FractionText(f) + rest) == f
  {
  }

  lemma MatchDStep(s: string, d: string, f: Option<char>)
    requires Number(s) == Some(d)
    requires Fraction(s[|d|..]) == f
    requires StartsWith(s[|d| + |FractionText(f)|..], "d.")
    ensures MatchD(s) == Some(DReading(d, f))
  {
  }

  lemma MatchDOf(d: string, f: Option<char>, rest: string)
    requires IsNumber(d) && ValidFraction(f)
    ensures MatchD(PenceText(d, f) + rest) == Some(DReading(d, f))
  {
    var s := PenceText(d, f) + rest;
    var tail := FractionText(f) + ("d." + rest);
    assert s == d + tail;
    NumberOf(d, tail);
    DropJoin(d, tail, 0);
    FractionOf(f, "d." + rest);
    DropJoin(d, tail, |FractionText(f)|);
    DropJoin(FractionText(f), "d." + rest, 0);
    MatchDStep(s, d, f);
  }

  lemma MatchPOf(p: string, rest: string)
    requires IsNumber(p)
    requires rest == [] || !IsDigit(rest[0])
    ensures MatchP("£" + p + rest) == Some(PReading(p))
  {
    var s := "£" + p + rest;
    assert s[1..] == p + rest;
    NumberOf(p, rest);
  }

  lemma PoundDotHeadOf(p: string, rest: string)
    requires IsNumber(p)
    ensures PoundDotHead("£" + p + "." + rest) == Some(p)
  {
    var s := "£" + p + "." + rest;
    assert s == "£" + p + ("." + rest);
    MatchPOf(p, "." + rest);
    assert s[|"£" + p|..] == "." + rest;
  }

  lemma MatchMarksStep(s: string, q: string, sep: char, plural: bool)
    requires Quantity(s) == Some(q)
    requires |q| < |s| && s[|q|] == sep && IsSpace(sep)
    requires StartsWith(s[|q| + 1..], "mark")
    requires plural == StartsWith(s[|q| + 5..], "s")
    ensures MatchMarks(s) == Some(MarksReading(q, sep, plural))
  {
  }

  lemma QuantityOf(q: string, tail: string)
    requires IsQuantity(q)
    requires tail != [] && IsSpace(tail[0])
    ensures Quantity(q + tail) == Some(q)
  {
    var s := q + tail;
    if IsNumber(q) {
      DigitRunConcat(q, tail);
      assert s[..|q|] == q;
    } else {
      assert s[..|q|] == q;
      assert DigitRun(s) == 0;
    }
  }

  lemma MatchMarksOf(q: string, sep: char, plural: bool, rest: string)
    requires IsQuantity(q) && IsSpace(sep)
    requires plural || rest == [] || rest[0] != 's'
    ensures MatchMarks(Text(MarksReading(q, sep, plural)) + rest) == Some(MarksReading(q, sep, plural))
  {
    var s := Text(MarksReading(q, sep, plural)) + rest;
    var tail := [sep] + ("mark" + ((if plural then "s" else "") + rest));
    assert s == q + tail;
    QuantityOf(q, tail);
    DropJoin(q, tail, 0);
    DropJoin(q, tail, 1);
    DropJoin(q, tail, 5);
    MatchMarksStep(s, q, sep, plural);
  }

  lemma MatchPsdOf(p: string, sh: string, d: string, f: Option<char>, rest: string)
    requires Valid(PsdReading(p, sh, d, f))
    ensures MatchPsd(Text(PsdReading(p, sh, d, f)) + rest) == Some(PsdReading(p, sh, d, f))
  {
    var s := Text(PsdReading(p, sh, d, f)) + rest;
    var head := "£" + p + ".";
    var t := Text(SdReading(sh, d, f)) + rest;
    assert s == head + t;
    PoundDotHeadOf(p, t);
    DropJoin(head, t, 0);
    MatchSdOf(sh, d, f, rest);
  }

  lemma MatchPsOf(p: string, sh: string, rest: string)
    requires Valid(PsReading(p, sh))
    ensures MatchPs(Text(PsReading(p, sh)) + rest) == Some(PsReading(p, sh))
  {
    var s := Text(PsReading(p, sh)) + rest;
    var head := "£" + p + ".";
    var t := Text(SReading(sh)) + rest;
    assert s == head + t;
    PoundDotHeadOf(p, t);
    DropJoin(head, t, 0);
    MatchSOf(sh, rest);
  }

  lemma MatchPdOf(p: string, d: string, f: Option<char>, rest: string)
    requires Valid(PdReading(p, d, f))
    ensures MatchPd(Text(PdReading(p, d, f)) + rest) == Some(PdReading(p, d, f))
  {
    var s := Text(PdReading(p, d, f)) + rest;
    var head := "£" + p + ".";
    assert s == head + (PenceText(d, f) + rest);
    PoundDotHeadOf(p, PenceText(d, f) + rest);
    assert s[|head|..] == PenceText(d, f) + rest;
    MatchDOf(d, f, rest);
  }

  lemma MatchSdOf(sh: string, d: string, f: Option<char>, rest: string)
    requires Valid(SdReading(sh, d, f))
    ensures MatchSd(Text(SdReading(sh, d, f)) + rest) == Some(SdReading(sh, d, f))
  {
    var s := Text(SdReading(sh, d, f)) + rest;
    var t := PenceText(d, f) + rest;
    assert s == Text(SReading(sh)) + t;
    MatchSOf(sh, t);
    DropJoin(Text(SReading(sh)), t, 0);
    MatchDOf(d, f, rest);
  }

  lemma MatchSOf(sh: string, rest: string)
    requires Valid(SReading(sh))
    ensures MatchS(Text(SReading(sh)) + rest) == Some(SReading(sh))
  {
    var s := Text(SReading(sh)) + rest;
    assert s == sh + ("s." + rest);
    NumberOf(sh, "s." + rest);
    assert s[|sh|..] == "s." + rest;
  }

  /**
    Every valid reading is recognised, with the same groups, in its own text followed by
    anything that does not extend it: with the ensures of MatchForm, the recognisers accept
    exactly the texts of their readings.
  */
  lemma MatchComplete(r: Reading, rest: string)
    requires Valid(r) && NoExtension(r, rest)
    ensures MatchForm(FormOf(r), Text(r) + rest) == Some(r)
  {
    match r
    case MarksReading(q, sep, plural) => MatchMarksOf(q, sep, plural, rest);
    case PsdReading(p, sh, d, f) => MatchPsdOf(p, sh, d, f, rest);
    case PsReading(p, sh) => MatchPsOf(p, sh, rest);
    case PdReading(p, d, f) => MatchPdOf(p, d, f, rest);
    case SdReading(sh, d, f) => MatchSdOf(sh, d, f, rest);
    case SReading(sh) => MatchSOf(sh, rest);
    case DReading(d, f) => MatchDOf(d, f, rest);
    case PReading(p) => MatchPOf(p, rest);
  }

  /** A reading written inside a longer text is matched where it starts. */
  lemma MatchAtOf(pre: string, r: Reading, post: string)
    requires Valid(r) && NoExtension(r, post)
    ensures MatchAt(FormOf(r), pre + Text(r) + post, |pre|) == Some(r)
  {
    var text := pre + Text(r) + post;
    assert text[|pre|..] == Text(r) + post;
    MatchComplete(r, post);
  }

  // ---------------------------------------------------------------------------------------
  // Which expressions reject which texts
  // ---------------------------------------------------------------------------------------

  /** A text starting with the pound sign is no marks, s.d., s. or d. value. */
  lemma PoundStartRejects(s: string)
    requires s != [] && s[0] == '£'
    ensures MatchMarks(s).None? && MatchSd(s).None? && MatchS(s).None? && MatchD(s).None?
  {
    assert DigitRun(s) == 0;
  }

  /** A text not starting with the pound sign is no £ value of any kind. */
  lemma NoPoundRejects(s: string)
    requires s == [] || s[0] != '£'
    ensures MatchPsd(s).None? && MatchPs(s).None? && MatchPd(s).None? && MatchP(s).None?
  {
  }

  /** What may follow the digits at the start of a text decides which expressions can match. */
  lemma AfterDigitsRejects(s: string, ds: string)
    requires Number(s) == Some(ds) && |ds| < |s|
    ensures s[|ds|] != 's' ==> MatchS(s).None? && MatchSd(s).None?
    ensures !IsSpace(s[|ds|]) ==> MatchMarks(s).None?
    ensures s[|ds|] != 'd' && !IsVulgarFraction(s[|ds|]) ==> MatchD(s).None?
  {
    assert Quantity(s) == Some(ds);
  }

  /** Digits followed by a fraction or "d." are neither a marks nor a shilling value. */
  lemma PenceRejects(d: string, f: Option<char>, rest: string)
    requires IsNumber(d) && ValidFraction(f)
    ensures MatchMarks(PenceText(d, f) + rest).None?
    ensures MatchS(PenceText(d, f) + rest).None?
    ensures MatchSd(PenceText(d, f) + rest).None?
  {
    var s := PenceText(d, f) + rest;
    var tail := FractionText(f) + "d." + rest;
    assert s == d + tail;
    NumberOf(d, tail);
    assert s[|d|] == tail[0];
    assert !IsSpace(tail[0]);
    AfterDigitsRejects(s, d);
  }

  /** Digits followed by "s." are neither a marks nor a pence value. */
  lemma ShillingRejects(sh: string, rest: string)
    requires IsNumber(sh)
    ensures MatchMarks(Text(SReading(sh)) + rest).None?
    ensures MatchD(Text(SReading(sh)) + rest).None?
  {
    var s := Text(SReading(sh)) + rest;
    var tail := "s." + rest;
    assert s == sh + tail;
    NumberOf(sh, tail);
    assert s[|sh|] == 's';
    assert !IsSpace('s');
    AfterDigitsRejects(s, sh);
  }

  /** A lone s. value has no pence after it. */
  lemma ShillingAloneRejects(sh: string)
    requires IsNumber(sh)
    ensures MatchSd(Text(SReading(sh))).None?
  {
    MatchSOf(sh, []);
    assert Text(SReading(sh)) + [] == Text(SReading(sh));
  }

  lemma MarksConverts(q: string, sep: char, plural: bool)
    requires Valid(MarksReading(q, sep, plural))
    ensures ValueToPence(Text(MarksReading(q, sep, plural))) == Some(Farthings(MarksReading(q, sep, plural)))
    ensures FirstInValueOrder(Text(MarksReading(q, sep, plural)), FormOf(MarksReading(q, sep, plural)), MarksReading(q, sep, plural))
  {
    var r := MarksReading(q, sep, plural);
    assert Text(r) + [] == Text(r);
    MatchMarksOf(q, sep, plural, []);
  }

  lemma PsdConverts(p: string, sh: string, d: string, f: Option<char>)
    requires Valid(PsdReading(p, sh, d, f))
    ensures ValueToPence(Text(PsdReading(p, sh, d, f))) == Some(Farthings(PsdReading(p, sh, d, f)))
    ensures FirstInValueOrder(Text(PsdReading(p, sh, d, f)), FormOf(PsdReading(p, sh, d, f)), PsdReading(p, sh, d, f))
  {
    var r := PsdReading(p, sh, d, f);
    assert Text(r) + [] == Text(r);
    PoundStartRejects(Text(r));
    MatchPsdOf(p, sh, d, f, []);
  }

  lemma PsConverts(p: string, sh: string)
    requires Valid(PsReading(p, sh))
    ensures ValueToPence(Text(PsReading(p, sh))) == Some(Farthings(PsReading(p, sh)))
    ensures FirstInValueOrder(Text(PsReading(p, sh)), FormOf(PsReading(p, sh)), PsReading(p, sh))
  {
    var r := PsReading(p, sh);
    var v := Text(r);
    var t := Text(SReading(sh));
    assert v + [] == v;
    PoundStartRejects(v);
    assert v == "£" + p + "." + t;
    PoundDotHeadOf(p, t);
    DropJoin("£" + p + ".", t, 0);
    ShillingAloneRejects(sh);
    assert MatchPsd(v).None?;
    MatchPsOf(p, sh, []);
  }

  lemma PdConverts(p: string, d: string, f: Option<char>)
    requires Valid(PdReading(p, d, f))
    ensures ValueToPence(Text(PdReading(p, d, f))) == Some(Farthings(PdReading(p, d, f)))
    ensures FirstInValueOrder(Text(PdReading(p, d, f)), FormOf(PdReading(p, d, f)), PdReading(p, d, f))
  {
    var r := PdReading(p, d, f);
    var v := Text(r);
    var t := PenceText(d, f);
    assert v + [] == v;
    assert t + [] == t;
    PoundStartRejects(v);
    assert v == "£" + p + "." + t;
    PoundDotHeadOf(p, t);
    DropJoin("£" + p + ".", t, 0);
    PenceRejects(d, f, []);
    assert MatchPsd(v).None? && MatchPs(v).None?;
    MatchPdOf(p, d, f, []);
  }

  lemma SdConverts(sh: string, d: string, f: Option<char>)
    requires Valid(SdReading(sh, d, f))
    ensures ValueToPence(Text(SdReading(sh, d, f))) == Some(Farthings(SdReading(sh, d, f)))
    ensures FirstInValueOrder(Text(SdReading(sh, d, f)), FormOf(SdReading(sh, d, f)), SdReading(sh, d, f))
  {
    var r := SdReading(sh, d, f);
    var v := Text(r);
    assert v + [] == v;
    NoPoundRejects(v);
    assert v == Text(SReading(sh)) + PenceText(d, f);
    ShillingRejects(sh, PenceText(d, f));
    MatchSdOf(sh, d, f, []);
  }

  lemma DConverts(d: string, f: Option<char>)
    requires Valid(DReading(d, f))
    ensures ValueToPence(Text(DReading(d, f))) == Some(Farthings(DReading(d, f)))
    ensures FirstInValueOrder(Text(DReading(d, f)), FormOf(DReading(d, f)), DReading(d, f))
  {
    var v := Text(DReading(d, f));
    assert v + [] == v;
    NoPoundRejects(v);
    PenceRejects(d, f, []);
    MatchDOf(d, f, []);
  }

  lemma SConverts(sh: string)
    requires Valid(SReading(sh))
    ensures ValueToPence(Text(SReading(sh))) == Some(Farthings(SReading(sh)))
    ensures FirstInValueOrder(Text(SReading(sh)), FormOf(SReading(sh)), SReading(sh))
  {
    var v := Text(SReading(sh));
    assert v + [] == v;
    NoPoundRejects(v);
    ShillingRejects(sh, []);
    ShillingAloneRejects(sh);
    MatchSOf(sh, []);
  }

  lemma PConverts(p: string)
    requires Valid(PReading(p))
    ensures ValueToPence(Text(PReading(p))) == Some(Farthings(PReading(p)))
    ensures FirstInValueOrder(Text(PReading(p)), FormOf(PReading(p)), PReading(p))
  {
    var v := Text(PReading(p));
    assert v + [] == v;
    PoundStartRejects(v);
    MatchPOf(p, []);
  }

  /**
    The text of every valid reading converts, under value_to_pence's order of expressions, to
    that reading's amount: no expression tried earlier matches it, and its own expression
    recovers its groups.
  */
  lemma ReadingConverts(r: Reading)
    requires Valid(r)
    ensures ValueToPence(Text(r)) == Some(Farthings(r))
    ensures FirstInValueOrder(Text(r), FormOf(r), r)
  {
    match r
    case MarksReading(q, sep, plural) => MarksConverts(q, sep, plural);
    case PsdReading(p, sh, d, f) => PsdConverts(p, sh, d, f);
    case PsReading(p, sh) => PsConverts(p, sh);
    case PdReading(p, d, f) => PdConverts(p, d, f);
    case SdReading(sh, d, f) => SdConverts(sh, d, f);
    case DReading(d, f) => DConverts(d, f);
    case SReading(sh) => SConverts(sh);
    case PReading(p) => PConverts(p);
  }

  // ---------------------------------------------------------------------------------------
  // pence_to_psd and value_to_pence are inverse on positive amounts
  // ---------------------------------------------------------------------------------------

  lemma FractionGlyphRoundTrip(k: nat)
    requires 1 <= k < FarthingsPerPenny
    ensures VulgarFractionToDecimal(DecimalToVulgarFraction(k).value) == Some(k)
  {
  }

  lemma FractionValueRoundTrip(c: char)
    requires IsVulgarFraction(c)
    ensures DecimalToVulgarFraction(VulgarFractionToDecimal(c).value) == Some(c)
  {
  }

  /** The pence group and glyph pence_to_psd writes for `pennies` farthings below a shilling. */
  function PenceGroups(pennies: nat): (r: (string, Option<char>))
    ensures IsNumber(r.0) && ValidFraction(r.1)
    ensures InFarthings(DigitsValue(r.0)) + FractionFarthings(r.1) == pennies
  {
    var k := pennies % FarthingsPerPenny;
    var f := if k > 0 then DecimalToVulgarFraction(k) else None;
    FractionGlyphRoundTrip(if k > 0 then k else 1);
    (NatToString(pennies / FarthingsPerPenny), f)
  }

  /**
    The reading that pence_to_psd writes for pound and shilling counts and the farthings left:
    its non-zero components, with a lone pound count written as the £ form.
  */
  function PartsReading(pounds: nat, shillings: nat, pennies: nat): (r: Reading)
    requires pounds > 0 || shillings > 0 || pennies > 0
    ensures Valid(r)
  {
    var (d, f) := PenceGroups(pennies);
    var p := NatToString(pounds);
    var s := NatToString(shillings);
    if pounds > 0 && shillings > 0 && pennies > 0 then PsdReading(p, s, d, f)
    else if pounds > 0 && shillings > 0 then PsReading(p, s)
    else if pounds > 0 && pennies > 0 then PdReading(p, d, f)
    else if pounds > 0 then PReading(p)
    else if shillings > 0 && pennies > 0 then SdReading(s, d, f)
    else if shillings > 0 then SReading(s)
    else DReading(d, f)
  }

  /** The value of that reading is the amount the parts make up. */
  lemma PartsFarthings(pounds: nat, shillings: nat, pennies: nat)
    requires pounds > 0 || shillings > 0 || pennies > 0
    ensures Farthings(PartsReading(pounds, shillings, pennies))
      == pounds * PoundFarthings + shillings * ShillingFarthings + pennies
  {
    var (d, f) := PenceGroups(pennies);
    var p := NatToString(pounds);
    var s := NatToString(shillings);
    var r := PartsReading(pounds, shillings, pennies);
    var total := pounds * PoundFarthings + shillings * ShillingFarthings + pennies;
    assert DigitsValue(p) == pounds && DigitsValue(s) == shillings;
    assert InFarthings(DigitsValue(d)) + FractionFarthings(f) == pennies;
    if pounds > 0 && shillings > 0 && pennies > 0 {
      assert Farthings(r) == total by { assert r == PsdReading(p, s, d, f); }
    } else if pounds > 0 && shillings > 0 {
      assert Farthings(r) == total by { assert r == PsReading(p, s) && pennies == 0; }
    } else if pounds > 0 && pennies > 0 {
      assert Farthings(r) == total by { assert r == PdReading(p, d, f) && shillings == 0; }
    } else if pounds > 0 {
      assert Farthings(r) == total by { assert r == PReading(p) && shillings == 0 && pennies == 0; }
    } else if shillings > 0 && pennies > 0 {
      assert Farthings(r) == total by { assert r == SdReading(s, d, f); }
    } else if shillings > 0 {
      assert Farthings(r) == total by { assert r == SReading(s) && pennies == 0; }
    } else {
      assert Farthings(r) == total by { assert r == DReading(d, f); }
    }
  }

  /** The pence part written is the pence text of the pence groups. */
  lemma PenniesFormatText(pennies: nat)
    requires pennies > 0
    ensures PenniesFormat(pennies) == PenceText(PenceGroups(pennies).0, PenceGroups(pennies).1)
  {
  }

  /** The formatted text is the text of that reading, with a dot after a lone pound count. */
  lemma PartsText(pounds: nat, shillings: nat, pennies: nat)
    requires pounds > 0 || shillings > 0 || pennies > 0
    ensures PsdFormat(pounds, shillings, pennies) ==
      Text(PartsReading(pounds, shillings, pennies))
      + (if PartsReading(pounds, shillings, pennies).PReading? then "." else "")
  {
    if pounds > 0 && shillings > 0 && pennies > 0 {
      PsdFormatPsd(pounds, shillings, pennies);
    } else if pounds > 0 && shillings > 0 {
      PsdFormatPs(pounds, shillings, pennies);
    } else if pounds > 0 && pennies > 0 {
      PsdFormatPd(pounds, shillings, pennies);
    } else if pounds > 0 {
      PsdFormatP(pounds, shillings, pennies);
    } else if shillings > 0 && pennies > 0 {
      PsdFormatSd(pounds, shillings, pennies);
    } else if shillings > 0 {
      PsdFormatS(pounds, shillings, pennies);
    } else {
      PsdFormatD(pounds, shillings, pennies);
    }
  }

  // One lemma per shape of the formatted text.

  lemma PsdFormatPsd(pounds: nat, shillings: nat, pennies: nat)
    requires pounds > 0 && shillings > 0 && pennies > 0
    ensures PsdFormat(pounds, shillings, pennies) == Text(PsdReading(NatToString(pounds), NatToString(shillings), PenceGroups(pennies).0, PenceGroups(pennies).1))
  {
    PenniesFormatText(pennies);
  }

  lemma PsdFormatPs(pounds: nat, shillings: nat, pennies: nat)
    requires pounds > 0 && shillings > 0 && pennies == 0
    ensures PsdFormat(pounds, shillings, pennies) == Text(PsReading(NatToString(pounds), NatToString(shillings)))
  {
    assert PenniesFormat(pennies) == "";
  }

  lemma PsdFormatPd(pounds: nat, shillings: nat, pennies: nat)
    requires pounds > 0 && shillings == 0 && pennies > 0
    ensures PsdFormat(pounds, shillings, pennies) == Text(PdReading(NatToString(pounds), PenceGroups(pennies).0, PenceGroups(pennies).1))
  {
    PenniesFormatText(pennies);
  }

  lemma PsdFormatP(pounds: nat, shillings: nat, pennies: nat)
    requires pounds > 0 && shillings == 0 && pennies == 0
    ensures PsdFormat(pounds, shillings, pennies) == Text(PReading(NatToString(pounds))) + "."
  {
    assert PenniesFormat(pennies) == "";
  }

  lemma PsdFormatSd(pounds: nat, shillings: nat, pennies: nat)
    requires pounds == 0 && shillings > 0 && pennies > 0
    ensures PsdFormat(pounds, shillings, pennies) == Text(SdReading(NatToString(shillings), PenceGroups(pennies).0, PenceGroups(pennies).1))
  {
    PenniesFormatText(pennies);
  }

  lemma PsdFormatS(pounds: nat, shillings: nat, pennies: nat)
    requires pounds == 0 && shillings > 0 && pennies == 0
    ensures PsdFormat(pounds, shillings, pennies) == Text(SReading(NatToString(shillings)))
  {
    assert PenniesFormat(pennies) == "";
  }

  lemma PsdFormatD(pounds: nat, shillings: nat, pennies: nat)
    requires pounds == 0 && shillings == 0 && pennies > 0
    ensures PsdFormat(pounds, shillings, pennies) == Text(DReading(PenceGroups(pennies).0, PenceGroups(pennies).1))
  {
    PenniesFormatText(pennies);
  }

  /** The reading pence_to_psd writes for a positive amount; its value is that amount. */
  function RenderedReading(q: nat): (r: Reading)
    requires q > 0
    ensures Valid(r) && Farthings(r) == q
  {
    var rest := q % PoundFarthings;
    PartsFarthings(q / PoundFarthings, rest / ShillingFarthings, rest % ShillingFarthings);
    PartsReading(q / PoundFarthings, rest / ShillingFarthings, rest % ShillingFarthings)
  }

  /** A positive amount renders as the text of its reading, with a dot after a lone pound count. */
  lemma RenderedText(q: nat)
    requires q > 0
    ensures PenceToPsd(q) == Text(RenderedReading(q)) + (if RenderedReading(q).PReading? then "." else "")
  {
    var rest := q % PoundFarthings;
    PartsText(q / PoundFarthings, rest / ShillingFarthings, rest % ShillingFarthings);
  }

  /** A lone pound count written with its dot, "£P.", still reads as P pounds. */
  lemma PoundsDotConverts(p: string)
    requires IsNumber(p)
    ensures ValueToPence(Text(PReading(p)) + ".") == Some(Farthings(PReading(p)))
  {
    var v := Text(PReading(p)) + ".";
    assert v == "£" + p + "." + [];
    PoundStartRejects(v);
    PoundDotHeadOf(p, []);
    assert v[|"£" + p + "."|..] == [];
    MatchPOf(p, ".");
  }

  /** Zero renders as the empty string, which value_to_pence gives no amount. */
  lemma ZeroRendersEmpty()
    ensures PenceToPsd(0) == "" && ValueToPence("").None?
  {
    NoPoundRejects("");
  }

  /**
    value_to_pence reads back every positive amount that pence_to_psd renders. Zero renders as
    the empty string, which has no amount.
  */
  lemma PenceRoundTrip(q: nat)
    ensures q > 0 ==> ValueToPence(PenceToPsd(q)) == Some(q)
    ensures q == 0 ==> PenceToPsd(q) == "" && ValueToPence(PenceToPsd(q)).None?
  {
    if q > 0 {
      var r := RenderedReading(q);
      RenderedText(q);
      if r.PReading? {
        PoundsDotConverts(r.pound);
      } else {
        assert PenceToPsd(q) == Text(r) + "";
        assert Text(r) + "" == Text(r);
        ReadingConverts(r);
      }
    } else {
      ZeroRendersEmpty();
    }
  }

  // ---------------------------------------------------------------------------------------
  // extract_value: what it finds and that what it finds converts
  // ---------------------------------------------------------------------------------------

  /** The forms in the order in which extract_value tries them. */
  const Forms: nat := 8

  /** The position of each form in the order in which extract_value tries them. */
  function ExtractionRank(f: Form): (k: nat)
    ensures k < Forms
  {
    match f
    case Marks => 0
    case Psd => 1
    case Ps => 2
    case Pd => 3
    case Sd => 4
    case S => 5
    case D => 6
    case P => 7
  }

  /** The form extract_value tries at position `k` of its order. */
  function FormOfRank(k: nat): (f: Form)
    requires k < Forms
    ensures forall g :: ExtractionRank(g) == k <==> g == f
  {
    if k == 0 then Marks else if k == 1 then Psd else if k == 2 then Ps else if k == 3 then Pd
    else if k == 4 then Sd else if k == 5 then S else if k == 6 then D else P
  }


  /** `regex.search` finds the leftmost match, whatever way that position is established. */
  lemma SearchLeftmost(f: Form, text: string, j: nat)
    requires j <= |text| && MatchAt(f, text, j).Some? && NoMatchIn(f, text, 0, j)
    ensures Search(f, text) == Some(Hit(j, MatchAt(f, text, j).value))
  {
    SearchSpec(f, text);
  }

  /** No reading's text is the word NOTHING: each ends in 'k', 's', '.' or a digit. */
  lemma TextNotNothing(r: Reading)
    requires Valid(r)
    ensures Text(r) != "NOTHING"
  {
    var t := Text(r);
    match r
    case PReading(p) => assert t[|t| - 1] == p[|p| - 1];
    case MarksReading(q, sep, plural) => assert t[|t| - 1] == (if plural then 's' else 'k');
    case _ => assert t[|t| - 1] == '.';
  }

  /** Searching the order from rank `k` stops at the first form found. */
  lemma {:induction false} FirstFormFromSpec(text: string, k: nat, f: Form)
    requires k <= ExtractionRank(f) && Search(f, text).Some?
    requires forall j :: k <= j < ExtractionRank(f) ==> Search(FormOfRank(j), text).None?
    ensures FirstFormFrom(text, k) == Some(f)
    decreases ExtractionRank(f) - k
  {
    if k < ExtractionRank(f) {
      assert Search(FormOfRank(k), text).None?;
      FirstFormFromSpec(text, k + 1, f);
    } else {
      assert FormOfRank(k) == f;
    }
  }

  /** Searching the order from rank `k` finds nothing when no form from there on occurs. */
  lemma {:induction false} FirstFormFromNone(text: string, k: nat)
    requires k <= Forms
    requires forall j :: k <= j < Forms ==> Search(FormOfRank(j), text).None?
    ensures FirstFormFrom(text, k).None?
    decreases Forms - k
  {
    if k < Forms {
      FirstFormFromNone(text, k + 1);
    }
  }

  lemma ExtractStep(text: string, f: Form)
    requires forall g :: ExtractionRank(g) < ExtractionRank(f) ==> Search(g, text).None?
    requires Search(f, text).Some?
    ensures FirstForm(text) == Some(f)
  {
    forall j | 0 <= j < ExtractionRank(f) ensures Search(FormOfRank(j), text).None? {
      assert ExtractionRank(FormOfRank(j)) == j;
    }
    FirstFormFromSpec(text, 0, f);
  }

  /**
    extract_value returns the text of the leftmost match of the first form, in extraction order,
    that occurs anywhere in the text.
  */
  lemma ExtractLeftmost(text: string, f: Form, j: nat)
    requires j <= |text|
    requires forall g :: ExtractionRank(g) < ExtractionRank(f) ==> !Occurs(g, text)
    requires MatchAt(f, text, j).Some? && NoMatchIn(f, text, 0, j)
    ensures ExtractValue(text) == Some(Text(MatchAt(f, text, j).value))
  {
    SearchLeftmost(f, text, j);
    forall g | ExtractionRank(g) < ExtractionRank(f) ensures Search(g, text).None? {
      SearchSpec(g, text);
    }
    ExtractStep(text, f);
  }

  lemma ExtractNone(text: string)
    requires forall g :: Search(g, text).None?
    ensures FirstForm(text).None?
    ensures ExtractValue(text) == if Contains(text, "NOTHING") then Some("NOTHING") else None
  {
    FirstFormFromNone(text, 0);
  }

  /** The first form in extraction order that is found, given that none before rank `k` is and `f` is. */
  lemma FirstFoundFrom(text: string, k: nat, f: Form) returns (g: Form)
    requires k <= ExtractionRank(f) && Search(f, text).Some?
    requires forall h :: ExtractionRank(h) < k ==> Search(h, text).None?
    ensures Search(g, text).Some? && ExtractionRank(g) <= ExtractionRank(f)
    ensures forall h :: ExtractionRank(h) < ExtractionRank(g) ==> Search(h, text).None?
    decreases ExtractionRank(f) - k
  {
    var h := FormOfRank(k);
    if Search(h, text).Some? {
      g := h;
    } else {
      g := FirstFoundFrom(text, k + 1, f);
    }
  }

  /** The first form in extraction order that is found, given that `f` is. */
  lemma FirstFound(text: string, f: Form) returns (g: Form)
    requires Search(f, text).Some?
    ensures Search(g, text).Some? && ExtractionRank(g) <= ExtractionRank(f)
    ensures forall h :: ExtractionRank(h) < ExtractionRank(g) ==> Search(h, text).None?
  {
    g := FirstFoundFrom(text, 0, f);
  }

  /**
    extract_value returns NOTHING exactly when no form occurs and the text contains the word,
    and returns no value exactly when neither does.
  */
  lemma ExtractNothing(text: string)
    ensures ExtractValue(text) == Some("NOTHING") <==>
      (forall f :: !Occurs(f, text)) && Contains(text, "NOTHING")
    ensures ExtractValue(text).None? <==>
      (forall f :: !Occurs(f, text)) && !Contains(text, "NOTHING")
  {
    if f :| Search(f, text).Some? {
      var g := FirstFound(text, f);
      ExtractStep(text, g);
      SearchSpec(g, text);
      TextNotNothing(Search(g, text).value.reading);
    } else {
      ExtractNone(text);
      forall g ensures !Occurs(g, text) {
        SearchSpec(g, text);
      }
    }
  }

  /** The word NOTHING is worth nothing. */
  lemma NothingConverts()
    ensures ValueToPence("NOTHING") == Some(0)
  {
    NoPoundRejects("NOTHING");
    assert DigitRun("NOTHING") == 0;
    assert Quantity("NOTHING").None?;
  }

  /** Whatever extract_value returns, value_to_pence gives an amount for. */
  lemma ExtractConverts(text: string)
    ensures ExtractValue(text).Some? ==> ValueToPence(ExtractValue(text).value).Some?
  {
    if f :| Search(f, text).Some? {
      var g := FirstFound(text, f);
      ExtractStep(text, g);
      SearchSpec(g, text);
      ReadingConverts(Search(g, text).value.reading);
    } else {
      ExtractNone(text);
      NothingConverts();
    }
  }
}
