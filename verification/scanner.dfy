/**
  The line scanner of parse_roll in receipt_roll/create_data_csv.py: each line of the
  transcript is classified by a first-match-wins cascade, heading lines update the sticky
  context (membrane, place, date, weekday, term), daily-sum lines add a daily-sum row and
  detail lines add an entry row carrying the context. The whole scan is a left fold of Step
  over the lines.
*/
module Scanner {
  import opened Wrappers
  import opened Strings
  import opened Headings
  import Money

  // ---------------------------------------------------------------------------------------
  // The cascade
  // ---------------------------------------------------------------------------------------

  datatype LineKind =
    | MembraneLine
    | PlaceLine
    | DateLine
    | GrossReceiptLine
    | DailySumLine
    | IgnoredLine
    | DetailLine

  /** `'DAILY SUM RECEIVED' in line or re.match('^SUM:', line)`. */
  predicate IsDailySumLine(line: string) {
    Contains(line, "DAILY SUM RECEIVED") || StartsWith(line, "SUM:")
  }

  /** The running totals and headings the scan passes over without effect. */
  predicate IsIgnoredLine(line: string) {
    || StartsWith(line, "SUM OF") || StartsWith(line, "SUM FOR") || StartsWith(line, "SUM MEDII")
    || StartsWith(line, "WEEKLY SUM") || StartsWith(line, "WEEKLY RECEIPT")
    || Contains(line, "MONTHLY SUM") || Contains(line, "TOTAL")
    || StartsWith(line, "NOTHING")
    || DayAt(line).Some?
    || StartsWith(line, "Receipt")
  }

  /** The tests of the cascade, one per kind, in the order they are tried. */
  predicate Test(k: LineKind, line: string) {
    match k
    case MembraneLine => IsMembraneLine(line)
    case PlaceLine => IsPlaceLine(line)
    case DateLine => DateMatch(line).Some?
    case GrossReceiptLine => Contains(line, "Gross receipt")
    case DailySumLine => IsDailySumLine(line)
    case IgnoredLine => IsIgnoredLine(line)
    case DetailLine => true
  }

  function KindRank(k: LineKind): nat {
    match k
    case MembraneLine => 0
    case PlaceLine => 1
    case DateLine => 2
    case GrossReceiptLine => 3
    case DailySumLine => 4
    case IgnoredLine => 5
    case DetailLine => 6
  }

  /** The kind tried at each step of the cascade. */
  function KindOfRank(r: nat): (k: LineKind)
    requires r <= 6
    ensures KindRank(k) == r
  {
    if r == 0 then MembraneLine
    else if r == 1 then PlaceLine
    else if r == 2 then DateLine
    else if r == 3 then GrossReceiptLine
    else if r == 4 then DailySumLine
    else if r == 5 then IgnoredLine
    else DetailLine
  }

  lemma RankRoundTrip(k: LineKind)
    ensures KindOfRank(KindRank(k)) == k
  {
  }

  /** The outcome of each test of the cascade, in the order they are tried. */
  function Tests(line: string): (b: seq<bool>)
    ensures |b| == 7 && b[6]
  {
    seq(7, r requires 0 <= r < 7 => Test(KindOfRank(r), line))
  }

  /** The position of the first true entry of `b` from `i` on. */
  function FirstTrue(b: seq<bool>, i: nat): (r: nat)
    requires i < |b| && b[|b| - 1]
    ensures i <= r < |b| && b[r]
    decreases |b| - i
  {
    if b[i] then i else FirstTrue(b, i + 1)
  }

  /** `FirstTrue` is the one true position with nothing true before it. */
  lemma {:induction false} FirstTrueSpec(b: seq<bool>, i: nat, r: nat)
    requires i < |b| && b[|b| - 1]
    ensures FirstTrue(b, i) == r <==> i <= r < |b| && b[r] && forall q :: i <= q < r ==> !b[q]
    decreases |b| - i
  {
    if !b[i] {
      FirstTrueSpec(b, i + 1, r);
    }
  }

  /** The branch of the if/elif chain a line takes. */
  function Classify(line: string): (k: LineKind)
    ensures Test(k, line)
  {
    KindOfRank(FirstTrue(Tests(line), 0))
  }

  /** First match wins: a line takes the branch of the first test it passes, and only that one. */
  lemma ClassifyFirstMatch(line: string, k: LineKind)
    ensures Classify(line) == k <==>
      Test(k, line) && forall j: LineKind :: KindRank(j) < KindRank(k) ==> !Test(j, line)
  {
    var b := Tests(line);
    FirstTrueSpec(b, 0, KindRank(k));
    RankRoundTrip(k);
    assert b[KindRank(k)] == Test(k, line);
    if Classify(line) == k {
      forall j: LineKind | KindRank(j) < KindRank(k)
        ensures !Test(j, line)
      {
        RankRoundTrip(j);
        assert b[KindRank(j)] == Test(j, line);
      }
    }
  }

  // ---------------------------------------------------------------------------------------
  // Scan state and rows
  // ---------------------------------------------------------------------------------------

  /** The sticky context: each field is set by its own heading and kept until the next one. */
  datatype Context = Context(
    membrane: Option<string>,
    place: Option<string>,
    date: Option<string>,
    day: Option<Weekday>,
    term: Option<Term>)

  /** A row of the entries table: the context, the trimmed line, its value and the value in farthings. */
  datatype Entry = Entry(
    membrane: string,
    term: Option<Term>,
    date: Option<string>,
    day: Option<Weekday>,
    place: string,
    details: string,
    value: Option<string>,
    farthings: Option<nat>)

  /** A row of the daily-sums table. */
  datatype DailySum = DailySum(date: Option<string>, value: string, farthings: Option<nat>)

  datatype Scan = Scan(context: Context, entries: seq<Entry>, sums: seq<DailySum>)

  /** The lines on which the source fails, each with the line that makes it fail. */
  datatype ScanError =
    | MembraneWithoutNumber(line: string)
    | SumWithoutColon(line: string)
    | SameWithoutPrevious(line: string)

  const Start: Scan := Scan(Context(None, None, None, None, None), [], [])

  // ---------------------------------------------------------------------------------------
  // What a line says
  // ---------------------------------------------------------------------------------------

  /** What a line asks of the scan, read off the line by the branch of the cascade it takes. */
  datatype Action =
    | SetMembrane(number: Option<string>)
    | SetPlace(name: string)
    | SetDate(day: Weekday, date: string)
    | SetTerm(named: Option<Term>)
    | AddSum(field: Option<(string, Option<nat>)>)
    | Skip
    | AddEntry(details: string, value: Option<string>, farthings: Option<nat>, same: bool)

  /** `'the same' in line.lower()`: the entry refers to the value of the entry above. */
  predicate SaysTheSame(line: string) {
    Contains(ToLower(line), "the same")
  }

  /** The value a detail line names, and that value in farthings. */
  function LineValue(line: string): (Option<string>, Option<nat>) {
    var value := Money.ExtractValue(line);
    (value, if value.Some? then Money.ValueToPence(value.value) else None)
  }

  /** The text after the first ':' of a daily-sum line, trimmed, with its value in farthings. */
  function SumField(line: string): Option<(string, Option<nat>)> {
    match SecondColonField(line)
    case None => None
    case Some(field) => Some((Strip(field), Money.ValueToPence(Strip(field))))
  }

  /** The string work of the loop body: classify the line and read what its branch needs. */
  function LineAction(line: string): Action {
    match Classify(line)
    case MembraneLine => SetMembrane(MembraneNumber(line))
    case PlaceLine => SetPlace(PlaceName(line))
    case DateLine =>
      var (day, date) := DateValues(DateMatch(line).value);
      SetDate(day, date)
    case GrossReceiptLine => SetTerm(TermNamed(line))
    case DailySumLine => AddSum(SumField(line))
    case IgnoredLine => Skip
    case DetailLine =>
      var (value, farthings) := LineValue(line);
      AddEntry(Strip(line), value, farthings, SaysTheSame(line))
  }

  // ---------------------------------------------------------------------------------------
  // What the scan does with it
  // ---------------------------------------------------------------------------------------

  /**
    The entry of a detail line, given the entries so far: the value found in the line, or, when
    none is found and the line says "the same", the value of the entry above; an error when
    there is no entry above.
  */
  function NewEntry(c: Context, entries: seq<Entry>, line: string, a: Action): Result<Entry, ScanError>
    requires a.AddEntry? && c.membrane.Some? && c.place.Some?
  {
    if a.value.None? && a.same then
      if entries == [] then Err(SameWithoutPrevious(line))
      else
        var above := entries[|entries| - 1];
        Ok(Entry(c.membrane.value, c.term, c.date, c.day, c.place.value, a.details,
                 above.value, above.farthings))
    else
      Ok(Entry(c.membrane.value, c.term, c.date, c.day, c.place.value, a.details, a.value, a.farthings))
  }

  /** The state work of the loop body. */
  function Apply(sc: Scan, line: string, a: Action): Result<Scan, ScanError> {
    var c := sc.context;
    match a
    case SetMembrane(number) =>
      if number.None? then Err(MembraneWithoutNumber(line))
      else Ok(sc.(context := c.(membrane := number)))
    case SetPlace(name) => Ok(sc.(context := c.(place := Some(name))))
    case SetDate(day, date) => Ok(sc.(context := c.(date := Some(date), day := Some(day))))
    case SetTerm(named) => Ok(sc.(context := c.(term := if named.Some? then named else c.term)))
    case AddSum(field) =>
      if field.None? then Err(SumWithoutColon(line))
      else
        var (value, farthings) := field.value;
        Ok(sc.(sums := sc.sums + [DailySum(c.date, value, farthings)]))
    case Skip => Ok(sc)
    case AddEntry(details, _, _, _) =>
      if c.membrane.Some? && c.place.Some? && details != [] then
        match NewEntry(c, sc.entries, line, a)
        case Err(e) => Err(e)
        case Ok(entry) => Ok(sc.(entries := sc.entries + [entry]))
      else
        Ok(sc)
  }

  /** The body of parse_roll's loop for one line. */
  function Step(sc: Scan, line: string): Result<Scan, ScanError> {
    Apply(sc, line, LineAction(line))
  }

  /** The scan of `lines` from `sc`, stopping at the first line the source fails on. */
  function ScanFrom(sc: Scan, lines: seq<string>): Result<Scan, ScanError>
    decreases |lines|
  {
    if lines == [] then Ok(sc)
    else
      match Step(sc, lines[0])
      case Err(e) => Err(e)
      case Ok(next) => ScanFrom(next, lines[1..])
  }

  /** parse_roll's loop over the whole transcript. */
  function ParseRoll(lines: seq<string>): Result<Scan, ScanError> {
    ScanFrom(Start, lines)
  }

  // ---------------------------------------------------------------------------------------
  // What one line does
  // ---------------------------------------------------------------------------------------

  /** The kind of heading that may set each field. */
  predicate Sets(a: Action, c: Context, c': Context) {
    && (c'.membrane != c.membrane ==> a.SetMembrane?)
    && (c'.place != c.place ==> a.SetPlace?)
    && (c'.date != c.date || c'.day != c.day ==> a.SetDate?)
    && (c'.term != c.term ==> a.SetTerm?)
  }

  /** No field of the context is cleared: a field once set stays set. */
  predicate Keeps(c: Context, c': Context) {
    && (c.membrane.Some? ==> c'.membrane.Some?)
    && (c.place.Some? ==> c'.place.Some?)
    && (c.date.Some? ==> c'.date.Some?)
    && (c.day.Some? ==> c'.day.Some?)
    && (c.term.Some? ==> c'.term.Some?)
  }

  /** Each field of the context changes only by its own kind of heading, and is never cleared. */
  lemma ApplyContext(sc: Scan, line: string, a: Action)
    requires Apply(sc, line, a).Ok?
    ensures Keeps(sc.context, Apply(sc, line, a).value.context)
    ensures Sets(a, sc.context, Apply(sc, line, a).value.context)
  {
  }

  /**
    The tables only grow: a daily sum adds exactly one daily-sum row, a detail line at most one
    entry, and nothing else adds a row.
  */
  lemma ApplyRows(sc: Scan, line: string, a: Action)
    requires Apply(sc, line, a).Ok?
    ensures var sc' := Apply(sc, line, a).value;
      && sc'.entries[..|sc.entries|] == sc.entries && sc'.sums[..|sc.sums|] == sc.sums
      && |sc'.sums| == |sc.sums| + (if a.AddSum? then 1 else 0)
      && |sc.entries| <= |sc'.entries| <= |sc.entries| + 1
      && (|sc'.entries| > |sc.entries| <==>
            a.AddEntry? && sc.context.membrane.Some? && sc.context.place.Some? && a.details != [])
  {
  }

  /**
    The entry a detail line adds carries the context and the line's text and value; one that
    names no value but says "the same" carries the value of the entry above.
  */
  lemma ApplyEntry(sc: Scan, line: string, a: Action)
    requires Apply(sc, line, a).Ok? && |Apply(sc, line, a).value.entries| > |sc.entries|
    ensures a.AddEntry?
    ensures var e := Apply(sc, line, a).value.entries[|sc.entries|];
      var c := sc.context;
      && Some(e.membrane) == c.membrane && Some(e.place) == c.place
      && e.term == c.term && e.date == c.date && e.day == c.day
      && e.details == a.details
      && (a.value.Some? || !a.same ==> e.value == a.value && e.farthings == a.farthings)
      && (a.value.None? && a.same ==>
            sc.entries != [] && e.value == sc.entries[|sc.entries| - 1].value
            && e.farthings == sc.entries[|sc.entries| - 1].farthings)
  {
    ApplyRows(sc, line, a);
  }

  /**
    A daily sum that goes through has its field, and appends the row of the current date, that
    field and its amount; nothing else changes.
  */
  lemma ApplySum(sc: Scan, line: string, a: Action)
    requires a.AddSum? && Apply(sc, line, a).Ok?
    ensures a.field.Some?
    ensures Apply(sc, line, a).value
         == sc.(sums := sc.sums + [DailySum(sc.context.date, a.field.value.0, a.field.value.1)])
  {
  }

  /**
    A daily-sum line appends the row of the current date, the trimmed text after its first colon
    up to the next, and that text's value_to_pence amount; without a colon it fails.
  */
  lemma StepSum(sc: Scan, line: string)
    requires Classify(line) == DailySumLine
    ensures ':' !in line ==> Step(sc, line) == Err(SumWithoutColon(line))
    ensures ':' in line ==>
      var f := Strip(SecondColonField(line).value);
      Step(sc, line) == Ok(sc.(sums := sc.sums + [DailySum(sc.context.date, f, Money.ValueToPence(f))]))
  {
    SumAction(line);
    SumFieldSpec(line);
  }

  /** The lines that stop the scan. */
  lemma ApplyFails(sc: Scan, line: string, a: Action)
    ensures Apply(sc, line, a).Err? <==>
      || a == SetMembrane(None)
      || a == AddSum(None)
      || (a.AddEntry? && a.value.None? && a.same && sc.entries == []
          && sc.context.membrane.Some? && sc.context.place.Some? && a.details != [])
  {
  }

  // ---------------------------------------------------------------------------------------
  // What a line says, read back
  // ---------------------------------------------------------------------------------------

  /** A membrane heading names the membrane number it carries; "[m. ]" names none. */
  lemma MembraneAction(line: string)
    requires Classify(line) == MembraneLine
    ensures IsMembraneLine(line) && LineAction(line).SetMembrane?
    ensures LineAction(line).number.Some? ==> line == "[m. " + LineAction(line).number.value + "]"
    ensures LineAction(line).number.None? <==> line == "[m. ]"
  {
    ClassifyFirstMatch(line, MembraneLine);
  }

  /** A place heading names DUBLIN when it mentions [DUBLIN], and otherwise its trimmed text. */
  lemma PlaceAction(line: string)
    requires Classify(line) == PlaceLine
    ensures IsPlaceLine(line) && LineAction(line).SetPlace?
    ensures LineAction(line).name == if Contains(Strip(line), "[DUBLIN]") then "DUBLIN" else Strip(line)
  {
    ClassifyFirstMatch(line, PlaceLine);
  }

  /** A day heading names its weekday, and a date whose year follows from its month. */
  lemma DateAction(line: string)
    requires Classify(line) == DateLine
    ensures DateMatch(line).Some? && LineAction(line).SetDate?
    ensures var h := DateMatch(line).value;
      var a := LineAction(line);
      && a.day == h.day && |a.date| >= 10 && a.date[4] == '-' && a.date[7] == '-'
      && a.date[..4] == (if MonthIndex(h.month) >= 8 then "1301" else "1302")
      && AllDigits(a.date[5..7]) && DigitsValue(a.date[5..7]) == MonthIndex(h.month) + 1
  {
    ClassifyFirstMatch(line, DateLine);
    var h := DateMatch(line).value;
    DateMatchSpec(line);
    DateValuesReadBack(h);
  }

  /** The field of a daily-sum line: the trimmed text after its first ':', read as an amount. */
  lemma SumFieldSpec(line: string)
    ensures SumField(line).None? <==> ':' !in line
    ensures SumField(line).Some? ==>
      var (value, farthings) := SumField(line).value;
      var f := SecondColonField(line).value;
      && value == Strip(f) && farthings == Money.ValueToPence(value)
      && ':' !in f && Contains(line, ":" + f)
  {
    if ':' in line {
      var f := SecondColonField(line).value;
      var i := IndexOf(line, ':').value;
      assert InfixAt(line, ":" + f, i) by {
        assert line[i..i + 1 + |f|] == [line[i]] + line[i + 1..i + 1 + |f|];
      }
    }
  }

  /** A daily-sum line gives its field. */
  lemma SumAction(line: string)
    requires Classify(line) == DailySumLine
    ensures LineAction(line) == AddSum(SumField(line))
  {
  }

  /** A detail line gives its trimmed text and the value extract_value finds in it. */
  lemma DetailAction(line: string)
    requires LineAction(line).AddEntry?
    ensures Classify(line) == DetailLine
    ensures var a := LineAction(line);
      && a.details == Strip(line)
      && (a.details != [] ==> !IsSpace(a.details[0]) && !IsSpace(a.details[|a.details| - 1]))
      && a.value == Money.ExtractValue(line)
      && (a.value.Some? ==> a.farthings == Money.ValueToPence(a.value.value))
      && (a.value.None? ==> a.farthings.None?)
      && a.same == Contains(ToLower(line), "the same")
  {
  }

  // ---------------------------------------------------------------------------------------
  // The whole transcript
  // ---------------------------------------------------------------------------------------

  /** The number of lines that take the daily-sum branch. */
  function DailySumLines(lines: seq<string>): nat
    decreases |lines|
  {
    if lines == [] then 0
    else (if Classify(lines[0]) == DailySumLine then 1 else 0) + DailySumLines(lines[1..])
  }

  /** Scanning two pieces of a transcript one after the other is scanning the whole. */
  lemma {:induction false} ScanFromAppend(sc: Scan, xs: seq<string>, ys: seq<string>)
    ensures ScanFrom(sc, xs + ys) ==
      match ScanFrom(sc, xs)
      case Err(e) => Err(e)
      case Ok(mid) => ScanFrom(mid, ys)
    decreases |xs|
  {
    if xs == [] {
      assert xs + ys == ys;
    } else {
      assert (xs + ys)[0] == xs[0] && (xs + ys)[1..] == xs[1..] + ys;
      match Step(sc, xs[0])
      case Err(_) =>
      case Ok(next) => ScanFromAppend(next, xs[1..], ys);
    }
  }

  /**
    Over a whole scan the tables only grow, the context keeps every field it had, and there is
    one daily-sum row for each daily-sum line.
  */
  lemma {:induction false} ScanFromGrows(sc: Scan, lines: seq<string>)
    requires ScanFrom(sc, lines).Ok?
    ensures var sc' := ScanFrom(sc, lines).value;
      && |sc.entries| <= |sc'.entries| && sc'.entries[..|sc.entries|] == sc.entries
      && |sc.sums| <= |sc'.sums| && sc'.sums[..|sc.sums|] == sc.sums
      && |sc'.sums| == |sc.sums| + DailySumLines(lines)
      && Keeps(sc.context, sc'.context)
    decreases |lines|
  {
    if lines != [] {
      var a := LineAction(lines[0]);
      var next := Apply(sc, lines[0], a).value;
      ApplyRows(sc, lines[0], a);
      ApplyContext(sc, lines[0], a);
      assert a.AddSum? <==> Classify(lines[0]) == DailySumLine;
      ScanFromGrows(next, lines[1..]);
    }
  }

  /** An entry's text is the trimmed line: not blank, no space at either end. */
  predicate Trimmed(e: Entry) {
    e.details != [] && !IsSpace(e.details[0]) && !IsSpace(e.details[|e.details| - 1])
  }

  /** The text a detail line gives is trimmed, when it is not blank. */
  predicate TrimmedAction(a: Action) {
    a.AddEntry? && a.details != [] ==> !IsSpace(a.details[0]) && !IsSpace(a.details[|a.details| - 1])
  }

  lemma ActionTrimmed(line: string)
    ensures TrimmedAction(LineAction(line))
  {
    if LineAction(line).AddEntry? {
      DetailAction(line);
    }
  }

  /** Applying a trimmed action keeps every entry trimmed. */
  lemma ApplyTrimmed(sc: Scan, line: string, a: Action)
    requires Apply(sc, line, a).Ok? && TrimmedAction(a)
    requires forall i :: 0 <= i < |sc.entries| ==> Trimmed(sc.entries[i])
    ensures var es := Apply(sc, line, a).value.entries;
      forall i :: 0 <= i < |es| ==> Trimmed(es[i])
  {
    var es := Apply(sc, line, a).value.entries;
    ApplyRows(sc, line, a);
    if |es| > |sc.entries| {
      ApplyEntry(sc, line, a);
      assert es == sc.entries + [es[|sc.entries|]];
    } else {
      assert es == sc.entries;
    }
  }

  lemma {:induction false} ScanFromTrimmed(sc: Scan, lines: seq<string>)
    requires ScanFrom(sc, lines).Ok?
    requires forall i :: 0 <= i < |sc.entries| ==> Trimmed(sc.entries[i])
    ensures var es := ScanFrom(sc, lines).value.entries;
      forall i :: 0 <= i < |es| ==> Trimmed(es[i])
    decreases |lines|
  {
    if lines != [] {
      var a := LineAction(lines[0]);
      ActionTrimmed(lines[0]);
      ApplyTrimmed(sc, lines[0], a);
      ScanFromTrimmed(Apply(sc, lines[0], a).value, lines[1..]);
    }
  }

  /** The rows of a successful parse_roll: one daily-sum row per daily-sum line, trimmed entries. */
  lemma ParseRollRows(lines: seq<string>)
    requires ParseRoll(lines).Ok?
    ensures |ParseRoll(lines).value.sums| == DailySumLines(lines)
    ensures var es := ParseRoll(lines).value.entries;
      forall i :: 0 <= i < |es| ==> Trimmed(es[i])
  {
    ScanFromGrows(Start, lines);
    ScanFromTrimmed(Start, lines);
  }

  // ---------------------------------------------------------------------------------------
  // The latest heading
  // ---------------------------------------------------------------------------------------

  /** The fields of the sticky context that headings set. */
  datatype Field = MembraneField | PlaceField | DateField | TermField

  /** The line sets field `f`: a heading of its kind, a "Gross receipt" line only when it names a term. */
  predicate SetsField(f: Field, line: string) {
    match f
    case MembraneField => Classify(line) == MembraneLine
    case PlaceField => Classify(line) == PlaceLine
    case DateField => Classify(line) == DateLine
    case TermField => Classify(line) == GrossReceiptLine && TermNamed(line).Some?
  }

  /** Field `f` is the same in both contexts. */
  predicate SameField(f: Field, c: Context, c': Context) {
    match f
    case MembraneField => c'.membrane == c.membrane
    case PlaceField => c'.place == c.place
    case DateField => c'.date == c.date && c'.day == c.day
    case TermField => c'.term == c.term
  }

  /** Field `f` of the context holds what the heading `h` says. */
  predicate ContextHolds(f: Field, h: string, c: Context) {
    match f
    case MembraneField => IsMembraneLine(h) && c.membrane == MembraneNumber(h)
    case PlaceField => c.place == Some(PlaceName(h))
    case DateField =>
      DateMatch(h).Some?
      && c.day == Some(DateValues(DateMatch(h).value).0)
      && c.date == Some(DateValues(DateMatch(h).value).1)
    case TermField => c.term == TermNamed(h)
  }

  /** Field `f` of the entry holds what the heading `h` says. */
  predicate EntryHolds(f: Field, h: string, e: Entry) {
    match f
    case MembraneField => IsMembraneLine(h) && MembraneNumber(h) == Some(e.membrane)
    case PlaceField => e.place == PlaceName(h)
    case DateField =>
      DateMatch(h).Some?
      && e.day == Some(DateValues(DateMatch(h).value).0)
      && e.date == Some(DateValues(DateMatch(h).value).1)
    case TermField => e.term == TermNamed(h)
  }

  /** A heading that sets field `f` leaves in it what it says. */
  lemma StepSetsField(sc: Scan, h: string, f: Field)
    requires Step(sc, h).Ok? && SetsField(f, h)
    ensures ContextHolds(f, h, Step(sc, h).value.context)
  {
    assert Test(Classify(h), h);
  }

  /** A line that does not set field `f` leaves it as it was. */
  lemma StepKeepsField(sc: Scan, line: string, f: Field)
    requires Step(sc, line).Ok? && !SetsField(f, line)
    ensures SameField(f, sc.context, Step(sc, line).value.context)
  {
    var a := LineAction(line);
    ApplyContext(sc, line, a);
    if f == TermField && Classify(line) == GrossReceiptLine {
      assert a == SetTerm(TermNamed(line));
    }
  }

  /** Lines none of which sets field `f` leave it as it was. */
  lemma {:induction false} ScanKeepsField(sc: Scan, lines: seq<string>, f: Field)
    requires ScanFrom(sc, lines).Ok?
    requires forall j :: 0 <= j < |lines| ==> !SetsField(f, lines[j])
    ensures SameField(f, sc.context, ScanFrom(sc, lines).value.context)
    decreases |lines|
  {
    if lines != [] {
      var next := Step(sc, lines[0]).value;
      StepKeepsField(sc, lines[0], f);
      assert forall j :: 0 <= j < |lines[1..]| ==> !SetsField(f, lines[1..][j]) by {
        forall j | 0 <= j < |lines[1..]| ensures !SetsField(f, lines[1..][j]) {
          assert lines[1..][j] == lines[j + 1];
        }
      }
      ScanKeepsField(next, lines[1..], f);
    }
  }

  /**
    After a scan, each field of the context holds what the latest heading that sets it says:
    the membrane number, the place, the day and date, and the term.
  */
  lemma LatestHeading(sc: Scan, xs: seq<string>, h: string, ys: seq<string>, f: Field)
    requires ScanFrom(sc, xs + [h] + ys).Ok? && SetsField(f, h)
    requires forall j :: 0 <= j < |ys| ==> !SetsField(f, ys[j])
    ensures ContextHolds(f, h, ScanFrom(sc, xs + [h] + ys).value.context)
  {
    assert xs + [h] + ys == xs + ([h] + ys);
    ScanFromAppend(sc, xs, [h] + ys);
    var mid := ScanFrom(sc, xs).value;
    assert ([h] + ys)[0] == h && ([h] + ys)[1..] == ys;
    var next := Step(mid, h).value;
    StepSetsField(mid, h, f);
    ScanKeepsField(next, ys, f);
  }

  /** The scan of a transcript with one more line is one more step. */
  lemma ScanLast(sc: Scan, xs: seq<string>, l: string)
    requires ScanFrom(sc, xs + [l]).Ok?
    ensures ScanFrom(sc, xs).Ok? && Step(ScanFrom(sc, xs).value, l) == ScanFrom(sc, xs + [l])
  {
    ScanFromAppend(sc, xs, [l]);
    assert [l][0] == l && [l][1..] == [];
  }

  /** An entry that carries the context carries what the context's headings say. */
  lemma HoldsCarried(f: Field, h: string, c: Context, e: Entry)
    requires ContextHolds(f, h, c)
    requires Some(e.membrane) == c.membrane && Some(e.place) == c.place
    requires e.term == c.term && e.date == c.date && e.day == c.day
    ensures EntryHolds(f, h, e)
  {
  }

  /**
    An entry carries, in each field, what the latest heading above it that sets that field says:
    the entry of detail line `l` under heading `h`, with no heading of the same kind between them.
  */
  lemma EntryUnderHeading(sc: Scan, xs: seq<string>, h: string, ys: seq<string>, l: string, f: Field)
    requires ScanFrom(sc, xs + [h] + ys + [l]).Ok? && SetsField(f, h)
    requires forall j :: 0 <= j < |ys| ==> !SetsField(f, ys[j])
    ensures var before := ScanFrom(sc, xs + [h] + ys);
      var after := ScanFrom(sc, xs + [h] + ys + [l]).value;
      before.Ok?
      && (|after.entries| > |before.value.entries| ==>
            EntryHolds(f, h, after.entries[|after.entries| - 1]))
  {
    var upto := xs + [h] + ys;
    ScanLast(sc, upto, l);
    LatestHeading(sc, xs, h, ys, f);
    StepCarries(ScanFrom(sc, upto).value, l, f, h);
  }

  /** The entry a step adds carries what the context held before it. */
  lemma StepCarries(sc: Scan, l: string, f: Field, h: string)
    requires Step(sc, l).Ok? && ContextHolds(f, h, sc.context)
    ensures var after := Step(sc, l).value;
      |after.entries| > |sc.entries| ==> EntryHolds(f, h, after.entries[|after.entries| - 1])
  {
    var a := LineAction(l);
    var after := Apply(sc, l, a).value;
    if |after.entries| > |sc.entries| {
      ApplyRows(sc, l, a);
      ApplyEntry(sc, l, a);
      HoldsCarried(f, h, sc.context, after.entries[|sc.entries|]);
    }
  }

  /** A detail line that opens with a capitalised "The same" refers to the entry above. */
  lemma CapitalSame(rest: string)
    ensures SaysTheSame("The same" + rest)
  {
    var line := "The same" + rest;
    var lower := ToLower(line);
    assert lower[..8] == "the same" by {
      forall i | 0 <= i < 8 ensures lower[i] == "the same"[i] {
        assert line[i] == "The same"[i];
      }
    }
    assert InfixAt(lower, "the same", 0);
  }
}
