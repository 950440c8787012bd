/**
  Small transcripts run through parse_roll's loop (receipt_roll/create_data_csv.py): the
  context is sticky, a detail line before the headings is passed over, and "the same" copies
  the value of the entry above.
*/
module ScannerExamples {
  import opened Wrappers
  import opened Strings
  import opened Headings
  import opened Money
  import opened MoneyExamples
  import opened Scanner

  const MembraneThree: string := "[m. 3]"
  const Dublin: string := "DUBLIN"
  const Trespass: string := "John, 6s.8d. for trespass."
  const TheSame: string := "The same, for the same offence."

  /** The reading of the value in the trespass line. */
  const SixEight: Reading := SdReading("6", "8", None)

  // ---------------------------------------------------------------------------------------
  // The lines
  // ---------------------------------------------------------------------------------------

  lemma MembraneThreeAction()
    ensures LineAction(MembraneThree) == SetMembrane(Some("3"))
  {
    ClassifyFirstMatch(MembraneThree, MembraneLine);
    MembraneRoundTrip("3");
    assert "[m. " + "3" + "]" == MembraneThree;
  }

  lemma DublinHeadings()
    ensures !IsMembraneLine(Dublin) && IsPlaceLine(Dublin)
  {
  }

  /** What a place heading asks of the scan. */
  lemma PlaceActionOf(line: string)
    requires Classify(line) == PlaceLine
    ensures LineAction(line) == SetPlace(PlaceName(line))
  {
  }

  lemma DublinName()
    ensures PlaceName(Dublin) == "DUBLIN"
  {
    assert Strip(Dublin) == Dublin;
    assert Lacks(Dublin, '[');
    MissingChar(Dublin, "[DUBLIN]", 0);
  }

  lemma DublinAction()
    ensures LineAction(Dublin) == SetPlace("DUBLIN")
  {
    DublinHeadings();
    ClassifyFirstMatch(Dublin, PlaceLine);
    PlaceActionOf(Dublin);
    DublinName();
  }

  /** No test before the detail branch passes: the line is a detail line. */
  lemma DetailByTests(line: string)
    requires !IsMembraneLine(line) && !IsPlaceLine(line) && DateMatch(line).None?
    requires !Contains(line, "Gross receipt") && !IsDailySumLine(line) && !IsIgnoredLine(line)
    ensures Classify(line) == DetailLine
  {
    ClassifyFirstMatch(line, DetailLine);
    forall j: LineKind | KindRank(j) < KindRank(DetailLine) ensures !Test(j, line) {
    }
  }

  /** What a detail line asks of the scan. */
  lemma DetailActionOf(line: string)
    requires Classify(line) == DetailLine
    ensures LineAction(line) == AddEntry(Strip(line), LineValue(line).0, LineValue(line).1, SaysTheSame(line))
  {
  }

  lemma TrespassHeadings()
    ensures !IsMembraneLine(Trespass) && !IsPlaceLine(Trespass)
    ensures DayAt(Trespass).None? && DateMatch(Trespass).None?
  {
    NoDayAt(Trespass);
  }

  /** No character of `s` is `c`. */
  predicate Lacks(s: string, c: char) {
    forall i :: 0 <= i < |s| ==> s[i] != c
  }

  /** A text that lacks a character of `w` does not contain `w`. */
  lemma MissingChar(s: string, w: string, k: nat)
    requires k < |w| && Lacks(s, w[k])
    ensures !Contains(s, w)
  {
  }

  /** A text whose first character differs from that of `w` does not start with `w`. */
  lemma FirstCharDiffers(s: string, w: string)
    requires |w| > 0 && (s == [] || s[0] != w[0])
    ensures !StartsWith(s, w)
  {
  }

  /** A line whose first two letters are no weekday's is no day heading. */
  lemma NoDayAt(s: string)
    requires |s| >= 2 && WeekdayOfKey(s[0], s[1]).None?
    ensures DayAt(s).None? && DateMatch(s).None?
  {
    if DayAt(s).Some? {
      WeekdayKey(DayAt(s).value);
    }
  }

  /** A line whose first character opens none of the sum and total prefixes starts with none of them. */
  lemma NoSumPrefix(line: string)
    requires line != [] && line[0] != 'S' && line[0] != 'W' && line[0] != 'N' && line[0] != 'R'
    ensures !StartsWith(line, "SUM:") && !StartsWith(line, "SUM OF") && !StartsWith(line, "SUM FOR")
    ensures !StartsWith(line, "SUM MEDII") && !StartsWith(line, "WEEKLY SUM")
    ensures !StartsWith(line, "WEEKLY RECEIPT") && !StartsWith(line, "NOTHING") && !StartsWith(line, "Receipt")
  {
    FirstCharDiffers(line, "SUM:");
    FirstCharDiffers(line, "SUM OF");
    FirstCharDiffers(line, "SUM FOR");
    FirstCharDiffers(line, "SUM MEDII");
    FirstCharDiffers(line, "WEEKLY SUM");
    FirstCharDiffers(line, "WEEKLY RECEIPT");
    FirstCharDiffers(line, "NOTHING");
    FirstCharDiffers(line, "Receipt");
  }

  /** A line without the capitals of the sum and total words is no daily sum and no ignored total. */
  lemma NoSumLine(line: string)
    requires Lacks(line, 'G') && Lacks(line, 'D') && Lacks(line, 'M') && Lacks(line, 'O')
    requires line != [] && line[0] != 'S' && line[0] != 'W' && line[0] != 'N' && line[0] != 'R'
    requires DayAt(line).None?
    ensures !Contains(line, "Gross receipt") && !IsDailySumLine(line) && !IsIgnoredLine(line)
  {
    MissingChar(line, "Gross receipt", 0);
    MissingChar(line, "DAILY SUM RECEIVED", 0);
    MissingChar(line, "MONTHLY SUM", 0);
    MissingChar(line, "TOTAL", 1);
    NoSumPrefix(line);
  }

  lemma TrespassCapitals()
    ensures Lacks(Trespass, 'G') && Lacks(Trespass, 'D') && Lacks(Trespass, 'M') && Lacks(Trespass, 'O')
  {
  }

  lemma TrespassSums()
    ensures !Contains(Trespass, "Gross receipt") && !IsDailySumLine(Trespass) && !IsIgnoredLine(Trespass)
  {
    TrespassCapitals();
    TrespassHeadings();
    NoSumLine(Trespass);
  }

  lemma TrespassIsDetail()
    ensures Classify(Trespass) == DetailLine
  {
    TrespassHeadings();
    TrespassSums();
    DetailByTests(Trespass);
  }

  lemma SixEightText()
    ensures Valid(SixEight) && Text(SixEight) == "6s.8d."
  {
  }

  lemma SixEightValue()
    ensures ValueToPence("6s.8d.") == Some(320)
  {
    SixEightText();
    SdConverts("6", "8", None);
    assert Farthings(SixEight) == 320;
  }

  lemma TrespassPieces()
    ensures "John, " + Text(SixEight) + " for trespass." == Trespass
  {
    SixEightText();
  }

  lemma TrespassFree()
    ensures Lacks(Trespass, '£') && Lacks(Trespass, 'k')
  {
  }

  lemma TrespassValue()
    ensures ExtractValue(Trespass) == Some("6s.8d.")
  {
    var pre, post := "John, ", " for trespass.";
    assert forall i :: 0 <= i < |pre| ==> !IsDigit(pre[i]);
    TrespassPieces();
    TrespassFree();
    MissingChar(Trespass, "mark", 3);
    SixEightText();
    ExtractSdWhole(pre, SixEight, post);
  }

  lemma TrespassStrip()
    ensures Strip(Trespass) == Trespass
  {
  }

  lemma TrespassLineValue()
    ensures LineValue(Trespass) == (Some("6s.8d."), Some(320))
  {
    TrespassValue();
    SixEightValue();
  }

  lemma TrespassAction()
    ensures LineAction(Trespass) == AddEntry(Trespass, Some("6s.8d."), Some(320), SaysTheSame(Trespass))
  {
    TrespassIsDetail();
    DetailActionOf(Trespass);
    TrespassStrip();
    TrespassLineValue();
  }

  /** A line that opens with "Th" but not "Thu" is no day heading. */
  lemma NoThursday(s: string)
    requires |s| >= 3 && WeekdayOfKey(s[0], s[1]) == Some(Thursday) && s[2] != 'u'
    ensures DayAt(s).None? && DateMatch(s).None?
  {
    assert DayText(Thursday)[2] == 'u';
    if DayAt(s).Some? {
      WeekdayKey(DayAt(s).value);
    }
  }

  /** "The" is no "Thursday": the line is no day heading. */
  lemma TheSameHeadings()
    ensures !IsMembraneLine(TheSame) && !IsPlaceLine(TheSame)
    ensures DayAt(TheSame).None? && DateMatch(TheSame).None?
  {
    NoThursday(TheSame);
  }

  lemma TheSameCapitals()
    ensures Lacks(TheSame, 'G') && Lacks(TheSame, 'D') && Lacks(TheSame, 'M') && Lacks(TheSame, 'O')
  {
  }

  lemma TheSameIsDetail()
    ensures Classify(TheSame) == DetailLine
  {
    TheSameHeadings();
    TheSameCapitals();
    NoSumLine(TheSame);
    DetailByTests(TheSame);
  }

  lemma TheSameFree()
    ensures Lacks(TheSame, '£') && Lacks(TheSame, 'k') && Lacks(TheSame, 'N')
  {
  }

  lemma TheSameNoDigit()
    ensures forall i :: 0 <= i < |TheSame| ==> !IsDigit(TheSame[i])
  {
  }

  /** A line without digits, pound signs, a "k" or an "N" names no value at all. */
  lemma NoValueLine(line: string)
    requires Lacks(line, '£') && Lacks(line, 'k') && Lacks(line, 'N')
    requires forall i :: 0 <= i < |line| ==> !IsDigit(line[i])
    ensures ExtractValue(line).None?
  {
    MissingChar(line, "mark", 3);
    MissingChar(line, "NOTHING", 0);
    forall f: Form ensures !Occurs(f, line) {
      if f == Marks {
        NoMarks(line);
      } else if f == Sd || f == S || f == D {
        NoDigitForm(f, line);
      } else {
        NoPoundForm(f, line);
      }
    }
    ExtractNothing(line);
  }

  /** No value is written in the line. */
  lemma TheSameValue()
    ensures ExtractValue(TheSame).None?
  {
    TheSameFree();
    TheSameNoDigit();
    NoValueLine(TheSame);
  }

  lemma TheSameStrip()
    ensures Strip(TheSame) == TheSame
  {
  }

  /** A line that opens with "The same" says so. */
  lemma OpensTheSame(line: string)
    requires |line| >= 8 && line[..8] == "The same"
    ensures SaysTheSame(line)
  {
    CapitalSame(line[8..]);
    assert line == "The same" + line[8..];
  }

  lemma TheSameSays()
    ensures SaysTheSame(TheSame)
  {
    assert TheSame[..8] == "The same";
    OpensTheSame(TheSame);
  }

  lemma TheSameAction()
    ensures LineAction(TheSame) == AddEntry(TheSame, None, None, true)
  {
    TheSameIsDetail();
    DetailActionOf(TheSame);
    TheSameValue();
    TheSameSays();
    TheSameStrip();
  }

  // ---------------------------------------------------------------------------------------
  // The transcripts
  // ---------------------------------------------------------------------------------------

  /** The context after "[m. 3]" and after "DUBLIN". */
  const AfterMembrane: Scan := Scan(Context(Some("3"), None, None, None, None), [], [])
  const AfterPlace: Scan := Scan(Context(Some("3"), Some("DUBLIN"), None, None, None), [], [])

  /** The entry of the trespass line under membrane 3 and Dublin. */
  const TrespassEntry: Entry := Entry("3", None, None, None, "DUBLIN", Trespass, Some("6s.8d."), Some(320))

  /** The entry of "The same, …" right below it: the trespass line's value and farthings. */
  const SameEntry: Entry := Entry("3", None, None, None, "DUBLIN", TheSame, Some("6s.8d."), Some(320))

  /** A line that the scan takes from `sc` to `next` leaves the rest of the scan to `next`. */
  lemma ScanOn(sc: Scan, line: string, rest: seq<string>, next: Scan)
    requires Step(sc, line) == Ok(next)
    ensures ScanFrom(sc, [line] + rest) == ScanFrom(next, rest)
  {
    assert ([line] + rest)[0] == line;
    assert ([line] + rest)[1..] == rest;
  }

  lemma MembraneThreeStep(sc: Scan)
    ensures Step(sc, MembraneThree) == Ok(sc.(context := sc.context.(membrane := Some("3"))))
  {
    MembraneThreeAction();
  }

  lemma DublinStep(sc: Scan)
    ensures Step(sc, Dublin) == Ok(sc.(context := sc.context.(place := Some("DUBLIN"))))
  {
    DublinAction();
  }

  /** Before the headings, the trespass line is passed over. */
  lemma TrespassStepAtStart()
    ensures Step(Start, Trespass) == Ok(Start)
  {
    TrespassAction();
  }

  /** Under a membrane and a place, a detail line with a value adds its entry. */
  lemma ValueStep(sc: Scan, line: string, value: string, farthings: Option<nat>, same: bool)
    requires LineAction(line) == AddEntry(line, Some(value), farthings, same) && line != []
    requires sc.context.membrane.Some? && sc.context.place.Some?
    ensures var c := sc.context;
      Step(sc, line) == Ok(sc.(entries := sc.entries + [Entry(c.membrane.value, c.term, c.date, c.day,
                                                              c.place.value, line, Some(value), farthings)]))
  {
  }

  /** Under a membrane and a place, a "the same" line without a value copies the entry above. */
  lemma CopyStep(sc: Scan, line: string)
    requires LineAction(line) == AddEntry(line, None, None, true) && line != []
    requires sc.context.membrane.Some? && sc.context.place.Some? && sc.entries != []
    ensures var c := sc.context; var above := sc.entries[|sc.entries| - 1];
      Step(sc, line) == Ok(sc.(entries := sc.entries + [Entry(c.membrane.value, c.term, c.date, c.day,
                                                              c.place.value, line, above.value, above.farthings)]))
  {
  }

  /** Under a membrane and a place, the trespass line adds its entry with 6s. 8d. */
  lemma TrespassStep(sc: Scan)
    requires sc.context.membrane.Some? && sc.context.place.Some?
    ensures var c := sc.context;
      Step(sc, Trespass) == Ok(sc.(entries := sc.entries + [Entry(c.membrane.value, c.term, c.date, c.day,
                                                                  c.place.value, Trespass, Some("6s.8d."), Some(320))]))
  {
    var a := LineAction(Trespass);
    TrespassAction();
    ValueStep(sc, Trespass, "6s.8d.", Some(320), a.same);
  }

  lemma TheSameStep()
    ensures Step(AfterPlace.(entries := [TrespassEntry]), TheSame)
         == Ok(AfterPlace.(entries := [TrespassEntry, SameEntry]))
  {
    TheSameAction();
    CopyStep(AfterPlace.(entries := [TrespassEntry]), TheSame);
    assert [TrespassEntry] + [SameEntry] == [TrespassEntry, SameEntry];
  }

  /**
    The context is sticky: a detail line below a membrane heading and a place heading becomes one
    entry carrying membrane 3, place DUBLIN, the line, its value and its 320 farthings (6s. 8d.).
  */
  lemma StickyExample()
    ensures ParseRoll([MembraneThree, Dublin, Trespass]) == Ok(AfterPlace.(entries := [TrespassEntry]))
  {
    var done := AfterPlace.(entries := [TrespassEntry]);
    MembraneThreeStep(Start);
    DublinStep(AfterMembrane);
    TrespassStep(AfterPlace);
    assert [] + [TrespassEntry] == [TrespassEntry];
    ScanOn(Start, MembraneThree, [Dublin, Trespass], AfterMembrane);
    ScanOn(AfterMembrane, Dublin, [Trespass], AfterPlace);
    ScanOn(AfterPlace, Trespass, [], done);
    assert [MembraneThree, Dublin, Trespass] == [MembraneThree] + [Dublin, Trespass];
    assert [Dublin, Trespass] == [Dublin] + [Trespass];
    assert [Trespass] == [Trespass] + [];
  }

  /** The same detail line before any heading yields no entry; the headings still take effect. */
  lemma EarlyDetailExample()
    ensures ParseRoll([Trespass, MembraneThree, Dublin]) == Ok(AfterPlace)
  {
    TrespassStepAtStart();
    MembraneThreeStep(Start);
    DublinStep(AfterMembrane);
    ScanOn(Start, Trespass, [MembraneThree, Dublin], Start);
    ScanOn(Start, MembraneThree, [Dublin], AfterMembrane);
    ScanOn(AfterMembrane, Dublin, [], AfterPlace);
    assert [Trespass, MembraneThree, Dublin] == [Trespass] + [MembraneThree, Dublin];
    assert [MembraneThree, Dublin] == [MembraneThree] + [Dublin];
    assert [Dublin] == [Dublin] + [];
  }

  /** "The same, …" below an entry takes that entry's value and farthings. */
  lemma SameExample()
    ensures ParseRoll([MembraneThree, Dublin, Trespass, TheSame])
         == Ok(AfterPlace.(entries := [TrespassEntry, SameEntry]))
  {
    var one := AfterPlace.(entries := [TrespassEntry]);
    var two := AfterPlace.(entries := [TrespassEntry, SameEntry]);
    MembraneThreeStep(Start);
    DublinStep(AfterMembrane);
    TrespassStep(AfterPlace);
    assert [] + [TrespassEntry] == [TrespassEntry];
    TheSameStep();
    ScanOn(Start, MembraneThree, [Dublin, Trespass, TheSame], AfterMembrane);
    ScanOn(AfterMembrane, Dublin, [Trespass, TheSame], AfterPlace);
    ScanOn(AfterPlace, Trespass, [TheSame], one);
    ScanOn(one, TheSame, [], two);
    assert [MembraneThree, Dublin, Trespass, TheSame] == [MembraneThree] + [Dublin, Trespass, TheSame];
    assert [Dublin, Trespass, TheSame] == [Dublin] + [Trespass, TheSame];
    assert [Trespass, TheSame] == [Trespass] + [TheSame];
    assert [TheSame] == [TheSame] + [];
  }
}
