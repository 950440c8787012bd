/**
  The docstring and unit-test examples of receipt_roll/money.py, and the precedence of extract_value over
  values written in running text.
*/
module MoneyExamples {
  import opened Wrappers
  import opened Strings
  import opened Money

  /** A marks match contains the word "mark". */
  lemma MarksNeedWord(text: string, j: nat)
    requires j <= |text| && MatchAt(Marks, text, j).Some?
    ensures Contains(text, "mark")
  {
    var r := MatchAt(Marks, text, j).value;
    var n := |r.quantity| + 1;
    assert Text(r)[n..n + 4] == "mark";
    InfixOfPrefix(text, j, Text(r), "mark", n);
  }

  /** A text without the word "mark" holds no marks value. */
  lemma NoMarks(text: string)
    requires !Contains(text, "mark")
    ensures !Occurs(Marks, text)
  {
    if Occurs(Marks, text) {
      var j: nat :| j <= |text| && MatchAt(Marks, text, j).Some?;
      MarksNeedWord(text, j);
    }
  }

  /** Every £ form's match starts at a pound sign. */
  lemma PoundFormNeedsPound(f: Form, text: string, j: nat)
    requires f == Psd || f == Ps || f == Pd || f == P
    requires j <= |text| && MatchAt(f, text, j).Some?
    ensures j < |text| && text[j] == '£'
  {
    var r := MatchAt(f, text, j).value;
    assert Text(r)[0] == '£';
    assert text[j..][..|Text(r)|] == Text(r);
  }

  /** Every s.d. match starts at a digit. */
  lemma SdNeedsDigit(text: string, j: nat)
    requires j <= |text| && MatchAt(Sd, text, j).Some?
    ensures j < |text| && IsDigit(text[j])
  {
    var r := MatchAt(Sd, text, j).value;
    assert Text(r)[0] == r.shilling[0];
    assert text[j..][..|Text(r)|] == Text(r);
  }

  /** Every s.d., s. and d. match starts at a digit. */
  lemma DigitFormNeedsDigit(f: Form, text: string, j: nat)
    requires f == Sd || f == S || f == D
    requires j <= |text| && MatchAt(f, text, j).Some?
    ensures j < |text| && IsDigit(text[j])
  {
    var r := MatchAt(f, text, j).value;
    if f == Sd {
      SdNeedsDigit(text, j);
    } else {
      var ds := if r.SReading? then r.shilling else r.pence;
      assert Text(r)[0] == ds[0];
      assert text[j..][..|Text(r)|] == Text(r);
    }
  }

  /** A text without a digit holds no s.d., s. or d. value. */
  lemma NoDigitForm(f: Form, text: string)
    requires f == Sd || f == S || f == D
    requires forall i :: 0 <= i < |text| ==> !IsDigit(text[i])
    ensures !Occurs(f, text)
  {
    if Occurs(f, text) {
      var j: nat :| j <= |text| && MatchAt(f, text, j).Some?;
      DigitFormNeedsDigit(f, text, j);
    }
  }

  /** A text without a pound sign holds no £ value. */
  lemma NoPoundForm(f: Form, text: string)
    requires f == Psd || f == Ps || f == Pd || f == P
    requires forall i :: 0 <= i < |text| ==> text[i] != '£'
    ensures !Occurs(f, text)
  {
    if Occurs(f, text) {
      var j: nat :| j <= |text| && MatchAt(f, text, j).Some?;
      PoundFormNeedsPound(f, text, j);
    }
  }

  /** No £.s.d. match starts inside a prefix without a pound sign. */
  lemma NoPsdBefore(text: string, n: nat)
    requires n <= |text|
    requires forall i :: 0 <= i < n ==> text[i] != '£'
    ensures NoMatchIn(Psd, text, 0, n)
  {
    forall j: nat | j < n ensures MatchAt(Psd, text, j).None? {
      if MatchAt(Psd, text, j).Some? {
        PoundFormNeedsPound(Psd, text, j);
      }
    }
  }

  /** No s.d. match starts inside a prefix without a digit. */
  lemma NoSdBefore(text: string, n: nat)
    requires n <= |text|
    requires forall i :: 0 <= i < n ==> !IsDigit(text[i])
    ensures NoMatchIn(Sd, text, 0, n)
  {
    forall j: nat | j < n ensures MatchAt(Sd, text, j).None? {
      if MatchAt(Sd, text, j).Some? {
        SdNeedsDigit(text, j);
      }
    }
  }

  /**
    The case of the docstring of extract_value: a £.s.d. value in prose that has no pound sign
    before it and no word "mark" is extracted whole.
  */
  lemma ExtractPsdFromProse(pre: string, r: Reading, post: string)
    requires r.PsdReading? && Valid(r)
    requires forall i :: 0 <= i < |pre| ==> pre[i] != '£'
    requires !Contains(pre + Text(r) + post, "mark")
    ensures ExtractValue(pre + Text(r) + post) == Some(Text(r))
  {
    var text := pre + Text(r) + post;
    MatchAtOf(pre, r, post);
    NoMarks(text);
    NoPsdBefore(text, |pre|);
    ExtractPsdAt(text, |pre|, r);
  }

  /** extract_value finds the leftmost £.s.d. value of a text with no marks value. */
  lemma ExtractPsdAt(text: string, j: nat, r: Reading)
    requires j <= |text| && !Occurs(Marks, text)
    requires MatchAt(Psd, text, j) == Some(r) && NoMatchIn(Psd, text, 0, j)
    ensures ExtractValue(text) == Some(Text(r))
  {
    ExtractLeftmost(text, Psd, j);
  }

  /** extract_value finds the leftmost s.d. value of a text with no marks or £ value. */
  lemma ExtractSdAt(text: string, j: nat, r: Reading)
    requires j <= |text| && !Occurs(Marks, text)
    requires !Occurs(Psd, text) && !Occurs(Ps, text) && !Occurs(Pd, text)
    requires MatchAt(Sd, text, j) == Some(r) && NoMatchIn(Sd, text, 0, j)
    ensures ExtractValue(text) == Some(Text(r))
  {
    ExtractLeftmost(text, Sd, j);
  }

  /**
    A shillings-and-pence value such as 16s.9d. is extracted whole, not as its 16s. part,
    when the prose before it has no digit and the text has no pound sign or word "mark".
  */
  lemma ExtractSdWhole(pre: string, r: Reading, post: string)
    requires r.SdReading? && Valid(r)
    requires forall i :: 0 <= i < |pre| ==> !IsDigit(pre[i])
    requires forall i :: 0 <= i < |pre + Text(r) + post| ==> (pre + Text(r) + post)[i] != '£'
    requires !Contains(pre + Text(r) + post, "mark")
    ensures ExtractValue(pre + Text(r) + post) == Some(Text(r))
  {
    var text := pre + Text(r) + post;
    MatchAtOf(pre, r, post);
    NoMarks(text);
    NoPoundForm(Psd, text);
    NoPoundForm(Ps, text);
    NoPoundForm(Pd, text);
    NoSdBefore(text, |pre|);
    ExtractSdAt(text, |pre|, r);
  }

  /** The docstring of value_to_pence: £8.13s.4d. is 2080 pence. */
  lemma ValueToPenceExample()
    ensures ValueToPence("£8.13s.4d.") == Some(InFarthings(2080))
  {
    var r := PsdReading("8", "13", "4", None);
    assert Text(r) == "£8.13s.4d.";
    assert Farthings(r) == InFarthings(2080);
    ReadingConverts(r);
  }

  /** pence_to_psd writes 2080 pence back as £8.13s.4d. */
  lemma PenceToPsdExample()
    ensures PenceToPsd(InFarthings(2080)) == "£8.13s.4d."
  {
    assert InFarthings(2080) / PoundFarthings == 8;
    assert InFarthings(2080) % PoundFarthings / ShillingFarthings == 13;
    assert InFarthings(2080) % PoundFarthings % ShillingFarthings == 16;
    assert PenceGroups(16) == ("4", None);
    assert NatToString(8) == "8" && NatToString(13) == "13";
    assert RenderedReading(InFarthings(2080)) == PsdReading("8", "13", "4", None);
    RenderedText(InFarthings(2080));
  }

  /** Fractions of a penny, and a zero pound component left out: 15½ pence is 1s.3½d. */
  lemma FractionExample()
    ensures PenceToPsd(62) == "1s.3½d."
  {
    assert 62 / PoundFarthings == 0;
    assert 62 % PoundFarthings / ShillingFarthings == 1;
    assert 62 % PoundFarthings % ShillingFarthings == 14;
    assert PenceGroups(14) == ("3", Some('½'));
    assert NatToString(1) == "1";
    assert RenderedReading(62) == SdReading("1", "3", Some('½'));
    RenderedText(62);
  }

  /** And 1s.3½d. reads back as 15½ pence. */
  lemma FractionValueExample()
    ensures ValueToPence("1s.3½d.") == Some(62)
  {
    var r := SdReading("1", "3", Some('½'));
    assert Text(r) == "1s.3½d.";
    assert Farthings(r) == 62;
    ReadingConverts(r);
  }

  /** Half a mark is 80 pence. */
  lemma MarksExample()
    ensures ValueToPence("½ mark") == Some(InFarthings(80))
  {
    var r := MarksReading("½", ' ', false);
    assert Text(r) == "½ mark";
    assert QuantityInQuarters("½") == 2;
    assert Farthings(r) == InFarthings(80);
    ReadingConverts(r);
  }

  /** Two marks are 320 pence. */
  lemma TwoMarksExample()
    ensures ValueToPence("2 marks") == Some(InFarthings(320))
  {
    var r := MarksReading("2", ' ', true);
    assert Text(r) == "2 marks";
    assert Farthings(r) == InFarthings(320) by {
      assert QuantityInQuarters("2") == 8;
    }
    ReadingConverts(r);
  }

  /** One mark, written as a word, is 160 pence. */
  lemma OneMarkExample()
    ensures ValueToPence("one mark") == Some(InFarthings(160))
  {
    var r := MarksReading("one", ' ', false);
    assert Text(r) == "one mark";
    assert Farthings(r) == InFarthings(160) by {
      assert QuantityInQuarters("one") == 4;
    }
    ReadingConverts(r);
  }

  /** £1.6s.4¼d. is 316¼ pence. */
  lemma QuarterPennyValue()
    ensures ValueToPence("£1.6s.4¼d.") == Some(1265)
  {
    var r := PsdReading("1", "6", "4", Some('¼'));
    assert Text(r) == "£1.6s.4¼d.";
    assert Farthings(r) == 1265;
    ReadingConverts(r);
  }

  /** 316¼ pence is written £1.6s.4¼d. */
  lemma QuarterPennyText()
    ensures PenceToPsd(1265) == "£1.6s.4¼d."
  {
    assert 1265 / PoundFarthings == 1;
    assert 1265 % PoundFarthings / ShillingFarthings == 6;
    assert 1265 % PoundFarthings % ShillingFarthings == 17;
    assert PenceGroups(17) == ("4", Some('¼'));
    assert NatToString(1) == "1" && NatToString(6) == "6";
    assert RenderedReading(1265) == PsdReading("1", "6", "4", Some('¼'));
    RenderedText(1265);
  }

  /** A pound is written £1. and 2880 pence £12. */
  lemma PoundTexts()
    ensures PenceToPsd(InFarthings(240)) == "£1."
    ensures PenceToPsd(InFarthings(2880)) == "£12."
  {
    assert PenceToPsd(InFarthings(240)) == "£1." by {
      assert InFarthings(240) / PoundFarthings == 1;
      assert InFarthings(240) % PoundFarthings == 0;
      assert NatToString(1) == "1";
      assert RenderedReading(InFarthings(240)) == PReading("1");
      RenderedText(InFarthings(240));
    }
    assert InFarthings(2880) / PoundFarthings == 12;
    assert InFarthings(2880) % PoundFarthings == 0;
    assert NatToString(12) == "12";
    assert RenderedReading(InFarthings(2880)) == PReading("12");
    RenderedText(InFarthings(2880));
  }

  /** £1., written with the dot, reads as 240 pence. */
  lemma OnePoundValue()
    ensures ValueToPence("£1.") == Some(InFarthings(240))
  {
    assert NatToString(1) == "1";
    assert Text(PReading("1")) + "." == "£1.";
    PoundsDotConverts("1");
  }

  /** £12. reads as 2880 pence. */
  lemma TwelvePoundsValue()
    ensures ValueToPence("£12.") == Some(InFarthings(2880))
  {
    assert NatToString(12) == "12";
    assert Text(PReading("12")) + "." == "£12.";
    PoundsDotConverts("12");
  }
}
