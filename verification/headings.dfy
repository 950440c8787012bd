/**
  The heading lines of the transcript that receipt_roll/create_data_csv.py recognises: membrane
  numbers `[m. N]`, place names, dated day headings, and the financial term named in a
  "Gross receipt" line; and date_values, which turns a day heading into a YYYY-MM-DD date.
  A line is the text of one line of the transcript without its line terminator.
*/
module Headings {
  import opened Wrappers
  import opened Strings

  predicate NoNewline(s: string) { forall i :: 0 <= i < |s| ==> s[i] != '\n' }

  // ---------------------------------------------------------------------------------------
  // Membrane numbers: `^\[m\. \d*\]$`
  // ---------------------------------------------------------------------------------------

  /** The line is a membrane heading: "[m. ", digits (possibly none), "]". */
  predicate IsMembraneLine(line: string) {
    |line| >= 5 && line[..4] == "[m. " && line[|line| - 1] == ']' && AllDigits(line[4..|line| - 1])
  }

  /**
    The membrane number of a membrane heading, `re.search(r"\d+", line).group(0)`: its digits;
    None when it has none, where the source fails on a missing match.
  */
  function MembraneNumber(line: string): (r: Option<string>)
    requires IsMembraneLine(line)
    ensures r.Some? ==> line == "[m. " + r.value + "]" && |r.value| > 0 && AllDigits(r.value)
    ensures r.None? <==> line == "[m. ]"
  {
    var digits := line[4..|line| - 1];
    assert line == line[..4] + digits + [line[|line| - 1]];
    if digits == [] then None else Some(digits)
  }

  /** Every "[m. N]" is a membrane heading, and N is the number read from it. */
  lemma MembraneRoundTrip(n: string)
    requires |n| > 0 && AllDigits(n)
    ensures IsMembraneLine("[m. " + n + "]")
    ensures MembraneNumber("[m. " + n + "]") == Some(n)
  {
    var line := "[m. " + n + "]";
    assert line[..4] == "[m. ";
    assert line[4..|line| - 1] == n;
  }

  // ---------------------------------------------------------------------------------------
  // Place headings: `^((\[)?[A-Z]{2,})(\])?(( .*)?( [A-Z]{2,}))?(\])?$`
  // ---------------------------------------------------------------------------------------

  /** Two or more upper-case letters, `[A-Z]{2,}`. */
  predicate UpperWord(z: string) { |z| >= 2 && AllUpper(z) }

  /** `(( .*)?( [A-Z]{2,}))?`: nothing, or optional text after a space, then a space and a word. */
  ghost predicate PlaceSuffix(d: string) {
    d == [] ||
    exists w, z :: (w == [] || (w[0] == ' ' && NoNewline(w))) && UpperWord(z) && d == w + " " + z
  }

  /**
    The pieces of the place expression cut the line at `i`, `j`, `k` and `l`: an optional "[",
    a word, an optional "]", the suffix, an optional "]".
  */
  ghost predicate PlaceParse(s: string, i: nat, j: nat, k: nat, l: nat)
    requires i <= j <= k <= l <= |s|
  {
    && (i == 0 || (i == 1 && s[0] == '['))
    && UpperWord(s[i..j])
    && (k == j || (k == j + 1 && s[j] == ']'))
    && PlaceSuffix(s[k..l])
    && (l == |s| || (l + 1 == |s| && s[l] == ']'))
  }

  /** The language of the place expression, matched against the whole line. */
  ghost predicate PlaceLanguage(s: string) {
    exists i: nat, j: nat, k: nat, l: nat :: i <= j <= k <= l <= |s| && PlaceParse(s, i, j, k, l)
  }

  /** Length of the run of upper-case letters starting at `i`. */
  function UpperRunFrom(s: string, i: nat): (n: nat)
    requires i <= |s|
    ensures i + n <= |s|
    ensures forall t :: i <= t < i + n ==> IsUpper(s[t])
    ensures i + n < |s| ==> !IsUpper(s[i + n])
    decreases |s| - i
  {
    if i < |s| && IsUpper(s[i]) then 1 + UpperRunFrom(s, i + 1) else 0
  }

  /** Length of the run of upper-case letters ending just before `e`. */
  function UpperRunTo(s: string, e: nat): (n: nat)
    requires e <= |s|
    ensures n <= e
    ensures forall t :: e - n <= t < e ==> IsUpper(s[t])
    ensures n < e ==> !IsUpper(s[e - n - 1])
  {
    if e > 0 && IsUpper(s[e - 1]) then 1 + UpperRunTo(s, e - 1) else 0
  }

  /** `s[k..l]` is a space, then text without a newline, then a space and a word. */
  predicate SuffixAt(s: string, k: nat, l: nat)
    requires k <= l <= |s|
  {
    var m := UpperRunTo(s, l);
    k < l && s[k] == ' ' && NoNewline(s[k..l]) && m >= 2 && k + m + 1 <= l && s[l - m - 1] == ' '
  }

  /**
    The place expression decided left to right: the "[" and the word are determined by the
    first characters, a "]" right after the word is the first optional bracket, a "]" at the
    end is the last, and what lies between must be empty or a suffix.
  */
  predicate IsPlaceLine(s: string) {
    var i := if s != [] && s[0] == '[' then 1 else 0;
    var j := i + UpperRunFrom(s, i);
    var k := if j < |s| && s[j] == ']' then j + 1 else j;
    var l := if k < |s| && s[|s| - 1] == ']' then |s| - 1 else |s|;
    j - i >= 2 && (k == l || SuffixAt(s, k, l))
  }

  lemma SuffixAtIsSuffix(s: string, k: nat, l: nat)
    requires k <= l <= |s| && SuffixAt(s, k, l)
    ensures PlaceSuffix(s[k..l])
  {
    var m := UpperRunTo(s, l);
    var w, z := s[k..l - m - 1], s[l - m..l];
    assert s[k..l] == w + " " + z;
    assert w == [] || (w[0] == ' ' && NoNewline(w)) by {
      if w != [] {
        assert w[0] == s[k];
        forall t | 0 <= t < |w| ensures w[t] != '\n' {
          assert w[t] == s[k..l][t];
        }
      }
    }
    assert UpperWord(z) by {
      forall t | 0 <= t < |z| ensures IsUpper(z[t]) {
        assert z[t] == s[l - m + t];
      }
    }
  }

  lemma SuffixIsSuffixAt(s: string, k: nat, l: nat, w: string, z: string)
    requires k <= l <= |s|
    requires (w == [] || (w[0] == ' ' && NoNewline(w))) && UpperWord(z) && s[k..l] == w + " " + z
    ensures SuffixAt(s, k, l)
  {
    var d := s[k..l];
    assert l - |z| - 1 == k + |w|;
    assert s[k + |w|] == d[|w|] == ' ';
    forall t | l - |z| <= t < l ensures IsUpper(s[t]) {
      assert s[t] == d[t - k] == z[t - k - |w| - 1];
    }
    var m := UpperRunTo(s, l);
    assert m == |z|;
    assert s[k] == ' ' by {
      if w != [] {
        assert s[k] == d[0] == w[0];
      }
    }
    forall t | 0 <= t < |d| ensures d[t] != '\n' {
      if t < |w| {
        assert d[t] == w[t];
      } else if t > |w| {
        assert IsUpper(d[t]) by { assert d[t] == s[k + t]; }
      }
    }
  }

  /** The decision procedure accepts exactly the language of the place expression. */
  lemma PlaceLineIsLanguage(s: string)
    ensures IsPlaceLine(s) <==> PlaceLanguage(s)
  {
    if IsPlaceLine(s) {
      PlaceSound(s);
    }
    if PlaceLanguage(s) {
      var i: nat, j: nat, k: nat, l: nat :| i <= j <= k <= l <= |s| && PlaceParse(s, i, j, k, l);
      PlaceComplete(s, i, j, k, l);
    }
  }

  lemma PlaceSound(s: string)
    requires IsPlaceLine(s)
    ensures PlaceLanguage(s)
  {
    var i := if s != [] && s[0] == '[' then 1 else 0;
    var j := i + UpperRunFrom(s, i);
    var k := if j < |s| && s[j] == ']' then j + 1 else j;
    var l := if k < |s| && s[|s| - 1] == ']' then |s| - 1 else |s|;
    assert UpperWord(s[i..j]) by {
      forall t | 0 <= t < j - i ensures IsUpper(s[i..j][t]) {
        assert s[i..j][t] == s[i + t];
      }
    }
    if k == l {
      assert s[k..l] == [];
    } else {
      SuffixAtIsSuffix(s, k, l);
    }
    assert PlaceParse(s, i, j, k, l);
  }

  lemma PlaceComplete(s: string, i: nat, j: nat, k: nat, l: nat)
    requires i <= j <= k <= l <= |s| && PlaceParse(s, i, j, k, l)
    ensures IsPlaceLine(s)
  {
    var d := s[k..l];
    if d != [] {
      var w, z :| (w == [] || (w[0] == ' ' && NoNewline(w))) && UpperWord(z) && d == w + " " + z;
      SuffixEnds(s, k, l, w, z);
      SuffixIsSuffixAt(s, k, l, w, z);
    }
    PlaceWord(s, i, j, k, l);
    PlaceBrackets(s, i, j, k, l);
  }

  /** Given the word, the brackets and the suffix of a parse, the decision procedure accepts. */
  lemma PlaceBrackets(s: string, i: nat, j: nat, k: nat, l: nat)
    requires i <= j <= k <= l <= |s| && j - i >= 2
    requires (if s != [] && s[0] == '[' then 1 else 0) == i && i + UpperRunFrom(s, i) == j
    requires k == j || (k == j + 1 && s[j] == ']')
    requires l == |s| || (l + 1 == |s| && s[l] == ']')
    requires k == l || (SuffixAt(s, k, l) && s[k] == ' ' && IsUpper(s[l - 1]))
    ensures IsPlaceLine(s)
  {
    var k' := if j < |s| && s[j] == ']' then j + 1 else j;
    var l' := if k' < |s| && s[|s| - 1] == ']' then |s| - 1 else |s|;
    if k < l {
      assert k' == k && l' == l;
    } else {
      assert k' == l';
    }
  }

  /** A non-empty suffix starts with a space and ends with a letter. */
  lemma SuffixEnds(s: string, k: nat, l: nat, w: string, z: string)
    requires k <= l <= |s|
    requires (w == [] || (w[0] == ' ' && NoNewline(w))) && UpperWord(z) && s[k..l] == w + " " + z
    ensures k < l && s[k] == ' ' && IsUpper(s[l - 1])
  {
    var d := s[k..l];
    assert d[0] == ' ' by {
      if w != [] { assert d[0] == w[0]; }
    }
    assert s[k] == d[0];
    assert s[l - 1] == d[|d| - 1] == z[|z| - 1];
  }

  /** The optional "[" and the word of a parse are the ones the decision procedure finds. */
  lemma PlaceWord(s: string, i: nat, j: nat, k: nat, l: nat)
    requires i <= j <= k <= l <= |s| && PlaceParse(s, i, j, k, l)
    requires k < l ==> s[k] == ' ' && IsUpper(s[l - 1])
    ensures var i' := if s != [] && s[0] == '[' then 1 else 0;
      i' == i && i + UpperRunFrom(s, i) == j
  {
    assert forall t :: i <= t < j ==> IsUpper(s[t]) by {
      forall t | i <= t < j ensures IsUpper(s[t]) {
        assert s[t] == s[i..j][t - i];
      }
    }
    assert IsUpper(s[i]);
    assert j < |s| ==> !IsUpper(s[j]);
  }

  /** The place stored for a place heading: DUBLIN for a heading naming [DUBLIN], else the trimmed line. */
  function PlaceName(line: string): (r: string)
    ensures Contains(Strip(line), "[DUBLIN]") ==> r == "DUBLIN"
    ensures !Contains(Strip(line), "[DUBLIN]") ==> r == Strip(line)
  {
    var place := Strip(line);
    if Contains(place, "[DUBLIN]") then "DUBLIN" else place
  }

  // ---------------------------------------------------------------------------------------
  // Day headings:
  // `^(Monday|...|Sunday)(.+)? (\d+) (January|...|December)`
  // ---------------------------------------------------------------------------------------

  datatype Weekday = Monday | Tuesday | Wednesday | Thursday | Friday | Saturday | Sunday

  datatype Month =
    January | February | March | April | May | June | July | August | September | October
    | November | December

  const WeekdayNames: seq<string> := ["Monday", "Tuesday", "Wednesday", "Thursday", "Friday", "Saturday", "Sunday"]

  function DayText(d: Weekday): string {
    WeekdayNames[WeekdayIndex(d)]
  }

  const MonthNames: seq<string> := ["January", "February", "March", "April", "May", "June", "July", "August", "September", "October", "November", "December"]

  function MonthText(m: Month): string {
    MonthNames[MonthIndex(m)]
  }

  /** The weekday names in the order the expression's alternation tries them. */
  const Weekdays: seq<Weekday> := [Monday, Tuesday, Wednesday, Thursday, Friday, Saturday, Sunday]

  /** The month names in the order the expression's alternation tries them. */
  const Months: seq<Month> :=
    [January, February, March, April, May, June, July, August, September, October, November, December]

  /** A weekday is known by the first two letters of its name. */
  function WeekdayOfKey(a: char, b: char): Option<Weekday> {
    if a == 'M' && b == 'o' then Some(Monday)
    else if a == 'T' && b == 'u' then Some(Tuesday)
    else if a == 'W' && b == 'e' then Some(Wednesday)
    else if a == 'T' && b == 'h' then Some(Thursday)
    else if a == 'F' && b == 'r' then Some(Friday)
    else if a == 'S' && b == 'a' then Some(Saturday)
    else if a == 'S' && b == 'u' then Some(Sunday)
    else None
  }

  /** A month is known by the first three letters of its name. */
  function MonthOfKey(a: char, b: char, c: char): Option<Month> {
    if a == 'J' && b == 'a' && c == 'n' then Some(January)
    else if a == 'F' && b == 'e' && c == 'b' then Some(February)
    else if a == 'M' && b == 'a' && c == 'r' then Some(March)
    else if a == 'A' && b == 'p' && c == 'r' then Some(April)
    else if a == 'M' && b == 'a' && c == 'y' then Some(May)
    else if a == 'J' && b == 'u' && c == 'n' then Some(June)
    else if a == 'J' && b == 'u' && c == 'l' then Some(July)
    else if a == 'A' && b == 'u' && c == 'g' then Some(August)
    else if a == 'S' && b == 'e' && c == 'p' then Some(September)
    else if a == 'O' && b == 'c' && c == 't' then Some(October)
    else if a == 'N' && b == 'o' && c == 'v' then Some(November)
    else if a == 'D' && b == 'e' && c == 'c' then Some(December)
    else None
  }

  /** Where a weekday stands in `Weekdays`. */
  function WeekdayIndex(d: Weekday): nat {
    match d
    case Monday => 0
    case Tuesday => 1
    case Wednesday => 2
    case Thursday => 3
    case Friday => 4
    case Saturday => 5
    case Sunday => 6
  }

  lemma WeekdayKey(d: Weekday)
    ensures |DayText(d)| >= 2 && WeekdayOfKey(DayText(d)[0], DayText(d)[1]) == Some(d)
    ensures WeekdayIndex(d) < |Weekdays| && Weekdays[WeekdayIndex(d)] == d
  {
    match d
    case Monday => assert DayText(d)[0] == 'M' && DayText(d)[1] == 'o';
    case Tuesday => assert DayText(d)[0] == 'T' && DayText(d)[1] == 'u';
    case Wednesday => assert DayText(d)[0] == 'W' && DayText(d)[1] == 'e';
    case Thursday => assert DayText(d)[0] == 'T' && DayText(d)[1] == 'h';
    case Friday => assert DayText(d)[0] == 'F' && DayText(d)[1] == 'r';
    case Saturday => assert DayText(d)[0] == 'S' && DayText(d)[1] == 'a';
    case Sunday => assert DayText(d)[0] == 'S' && DayText(d)[1] == 'u';
  }

  /** Where a month stands in `Months`. */
  function MonthIndex(m: Month): nat {
    match m
    case January => 0
    case February => 1
    case March => 2
    case April => 3
    case May => 4
    case June => 5
    case July => 6
    case August => 7
    case September => 8
    case October => 9
    case November => 10
    case December => 11
  }

  lemma MonthKey(m: Month)
    ensures |MonthText(m)| >= 3 && MonthOfKey(MonthText(m)[0], MonthText(m)[1], MonthText(m)[2]) == Some(m)
    ensures MonthIndex(m) < |Months| && Months[MonthIndex(m)] == m
  {
    match m
    case January => assert MonthText(m)[0] == 'J' && MonthText(m)[1] == 'a' && MonthText(m)[2] == 'n';
    case February => assert MonthText(m)[0] == 'F' && MonthText(m)[1] == 'e' && MonthText(m)[2] == 'b';
    case March => assert MonthText(m)[0] == 'M' && MonthText(m)[1] == 'a' && MonthText(m)[2] == 'r';
    case April => assert MonthText(m)[0] == 'A' && MonthText(m)[1] == 'p' && MonthText(m)[2] == 'r';
    case May => assert MonthText(m)[0] == 'M' && MonthText(m)[1] == 'a' && MonthText(m)[2] == 'y';
    case June => assert MonthText(m)[0] == 'J' && MonthText(m)[1] == 'u' && MonthText(m)[2] == 'n';
    case July => assert MonthText(m)[0] == 'J' && MonthText(m)[1] == 'u' && MonthText(m)[2] == 'l';
    case August => assert MonthText(m)[0] == 'A' && MonthText(m)[1] == 'u' && MonthText(m)[2] == 'g';
    case September => assert MonthText(m)[0] == 'S' && MonthText(m)[1] == 'e' && MonthText(m)[2] == 'p';
    case October => assert MonthText(m)[0] == 'O' && MonthText(m)[1] == 'c' && MonthText(m)[2] == 't';
    case November => assert MonthText(m)[0] == 'N' && MonthText(m)[1] == 'o' && MonthText(m)[2] == 'v';
    case December => assert MonthText(m)[0] == 'D' && MonthText(m)[1] == 'e' && MonthText(m)[2] == 'c';
  }

  /** Two weekday names that both begin `s` are the same name. */
  lemma WeekdayPrefixUnique(s: string, a: Weekday, b: Weekday)
    requires StartsWith(s, DayText(a)) && StartsWith(s, DayText(b))
    ensures a == b
  {
    WeekdayKey(a);
    WeekdayKey(b);
    assert s[..|DayText(a)|] == DayText(a) && s[..|DayText(b)|] == DayText(b);
    assert DayText(a)[0] == s[0] == DayText(b)[0];
    assert DayText(a)[1] == s[1] == DayText(b)[1];
  }

  /** Two month names that both begin `s` are the same name. */
  lemma MonthPrefixUnique(s: string, a: Month, b: Month)
    requires StartsWith(s, MonthText(a)) && StartsWith(s, MonthText(b))
    ensures a == b
  {
    MonthKey(a);
    MonthKey(b);
    assert s[..|MonthText(a)|] == MonthText(a) && s[..|MonthText(b)|] == MonthText(b);
    assert MonthText(a)[0] == s[0] == MonthText(b)[0];
    assert MonthText(a)[1] == s[1] == MonthText(b)[1];
    assert MonthText(a)[2] == s[2] == MonthText(b)[2];
  }

  /** The first weekday from `Weekdays[i..]` whose name begins `s`. */
  function WeekdayFrom(s: string, i: nat): (r: Option<Weekday>)
    requires i <= |Weekdays|
    ensures r.Some? ==> StartsWith(s, DayText(r.value))
    decreases |Weekdays| - i
  {
    if i == |Weekdays| then None
    else if StartsWith(s, DayText(Weekdays[i])) then Some(Weekdays[i])
    else WeekdayFrom(s, i + 1)
  }

  /** The first month from `Months[i..]` whose name begins `s`. */
  function MonthFrom(s: string, i: nat): (r: Option<Month>)
    requires i <= |Months|
    ensures r.Some? ==> StartsWith(s, MonthText(r.value))
    decreases |Months| - i
  {
    if i == |Months| then None
    else if StartsWith(s, MonthText(Months[i])) then Some(Months[i])
    else MonthFrom(s, i + 1)
  }

  /** The weekday alternative that matches at the start of `s`. */
  function DayAt(s: string): (r: Option<Weekday>)
    ensures r.Some? ==> StartsWith(s, DayText(r.value))
  {
    WeekdayFrom(s, 0)
  }

  /** The month alternative that matches at the start of `s`. */
  function MonthAt(s: string): (r: Option<Month>)
    ensures r.Some? ==> StartsWith(s, MonthText(r.value))
  {
    MonthFrom(s, 0)
  }

  lemma {:induction false} WeekdayFromFinds(s: string, d: Weekday, i: nat)
    requires i <= WeekdayIndex(d) < |Weekdays| && Weekdays[WeekdayIndex(d)] == d
    requires StartsWith(s, DayText(d))
    ensures WeekdayFrom(s, i) == Some(d)
    decreases |Weekdays| - i
  {
    if StartsWith(s, DayText(Weekdays[i])) {
      WeekdayPrefixUnique(s, Weekdays[i], d);
    } else {
      WeekdayFromFinds(s, d, i + 1);
    }
  }

  lemma {:induction false} MonthFromFinds(s: string, m: Month, i: nat)
    requires i <= MonthIndex(m) < |Months| && Months[MonthIndex(m)] == m
    requires StartsWith(s, MonthText(m))
    ensures MonthFrom(s, i) == Some(m)
    decreases |Months| - i
  {
    if StartsWith(s, MonthText(Months[i])) {
      MonthPrefixUnique(s, Months[i], m);
    } else {
      MonthFromFinds(s, m, i + 1);
    }
  }

  /** No weekday name begins another: the alternative that matches is the only one that can. */
  lemma DayAtUnique(s: string, d: Weekday)
    requires StartsWith(s, DayText(d))
    ensures DayAt(s) == Some(d)
  {
    WeekdayKey(d);
    WeekdayFromFinds(s, d, 0);
  }

  /** No month name begins another: the alternative that matches is the only one that can. */
  lemma MonthAtUnique(s: string, m: Month)
    requires StartsWith(s, MonthText(m))
    ensures MonthAt(s) == Some(m)
  {
    MonthKey(m);
    MonthFromFinds(s, m, 0);
  }

  /** ` (\d+) ` matched at position `k`: where the text after the second space begins. */
  function NumberAt(s: string, k: nat): (e: Option<nat>)
    ensures e.Some? ==> k + 3 <= e.value <= |s|
  {
    if k < |s| && s[k] == ' ' then
      var n := DigitRun(s[k + 1..]);
      if n > 0 && k + 1 + n < |s| && s[k + 1 + n] == ' ' then Some(k + 2 + n) else None
    else None
  }

  /** NumberAt finds exactly a space, digits and a space at `k`. */
  lemma NumberAtSpec(s: string, k: nat, digits: string)
    ensures NumberAt(s, k) == Some(k + 2 + |digits|) && s[k + 1..k + 1 + |digits|] == digits
      <==> |digits| > 0 && AllDigits(digits) && InfixAt(s, " " + digits + " ", k)
  {
    if NumberAt(s, k) == Some(k + 2 + |digits|) && s[k + 1..k + 1 + |digits|] == digits {
      NumberAtSound(s, k, digits);
    }
    if |digits| > 0 && AllDigits(digits) && InfixAt(s, " " + digits + " ", k) {
      NumberAtComplete(s, k, digits);
    }
  }

  lemma NumberAtSound(s: string, k: nat, digits: string)
    requires NumberAt(s, k) == Some(k + 2 + |digits|) && s[k + 1..k + 1 + |digits|] == digits
    ensures |digits| > 0 && AllDigits(digits) && InfixAt(s, " " + digits + " ", k)
  {
    var n := |digits|;
    assert s[k + 1..][..n] == digits;
    assert s[k..k + n + 2] == [s[k]] + s[k + 1..k + 1 + n] + [s[k + 1 + n]];
  }

  lemma NumberAtComplete(s: string, k: nat, digits: string)
    requires |digits| > 0 && AllDigits(digits) && InfixAt(s, " " + digits + " ", k)
    ensures NumberAt(s, k) == Some(k + 2 + |digits|) && s[k + 1..k + 1 + |digits|] == digits
  {
    var n := |digits|;
    var w := " " + digits + " ";
    assert s[k..k + |w|] == w;
    assert s[k] == w[0] && s[k + 1 + n] == w[1 + n];
    forall i | 0 <= i < n ensures s[k + 1 + i] == digits[i] {
      assert s[k..k + |w|][1 + i] == w[1 + i];
    }
    assert s[k + 1..k + 1 + n] == digits;
    var rest := s[k + 1 + n..];
    assert s[k + 1..] == digits + rest;
    DigitRunConcat(digits, rest);
  }

  /** A word after ` digits ` at `k`, piece by piece. */
  lemma SpacedWord(s: string, k: nat, digits: string, t: string)
    ensures InfixAt(s, " " + digits + " " + t, k) <==>
      InfixAt(s, " " + digits + " ", k) && StartsWith(s[k + 2 + |digits|..], t)
  {
    var u := " " + digits + " ";
    if InfixAt(s, u + t, k) {
      assert s[k..k + |u|] == (u + t)[..|u|] == u;
      assert s[k + |u|..][..|t|] == (u + t)[|u|..] == t;
    }
    if InfixAt(s, u, k) && StartsWith(s[k + |u|..], t) {
      assert s[k..k + |u| + |t|] == s[k..k + |u|] + s[k + |u|..][..|t|];
    }
  }

  /** ` (\d+) (January|...|December)` matched at position `k`: the day digits and the month. */
  function DayMonthAt(s: string, k: nat): Option<(string, Month)>
    requires k <= |s|
  {
    match NumberAt(s, k)
    case None => None
    case Some(e) =>
      match MonthAt(s[e..])
      case None => None
      case Some(m) => Some((s[k + 1..e - 1], m))
  }

  /** The text at `k` is a space, the day digits, a space and the month's name. */
  ghost predicate DayMonthParse(s: string, k: nat, digits: string, m: Month) {
    |digits| > 0 && AllDigits(digits) && InfixAt(s, " " + digits + " " + MonthText(m), k)
  }

  /** DayMonthAt reads exactly the day digits and month written at `k`. */
  lemma DayMonthAtSpec(s: string, k: nat, digits: string, m: Month)
    requires k <= |s|
    ensures DayMonthAt(s, k) == Some((digits, m)) <==> DayMonthParse(s, k, digits, m)
  {
    if DayMonthAt(s, k) == Some((digits, m)) {
      DayMonthAtSound(s, k, digits, m);
    }
    if DayMonthParse(s, k, digits, m) {
      DayMonthAtComplete(s, k, digits, m);
    }
  }

  lemma DayMonthAtSound(s: string, k: nat, digits: string, m: Month)
    requires k <= |s| && DayMonthAt(s, k) == Some((digits, m))
    ensures DayMonthParse(s, k, digits, m)
  {
    var e := NumberAt(s, k).value;
    assert e == k + 2 + |digits|;
    NumberAtSound(s, k, digits);
    SpacedWord(s, k, digits, MonthText(m));
  }

  lemma DayMonthAtComplete(s: string, k: nat, digits: string, m: Month)
    requires k <= |s| && DayMonthParse(s, k, digits, m)
    ensures DayMonthAt(s, k) == Some((digits, m))
  {
    SpacedWord(s, k, digits, MonthText(m));
    NumberAtComplete(s, k, digits);
    MonthAtUnique(s[k + 2 + |digits|..], m);
  }

  /** Where a day heading's `(.+)?` may end: after the weekday, with no newline before `k`. */
  ghost predicate DateParse(s: string, d: Weekday, k: nat, digits: string, m: Month) {
    StartsWith(s, DayText(d)) && |DayText(d)| <= k <= |s| && NoNewline(s[|DayText(d)|..k])
    && DayMonthParse(s, k, digits, m)
  }

  /** Where the line ends: the first newline at or after `i`, or the end of the text. */
  function LineEnd(s: string, i: nat): (j: nat)
    requires i <= |s|
    ensures i <= j <= |s| && NoNewline(s[i..j]) && (j < |s| ==> s[j] == '\n')
    decreases |s| - i
  {
    if i == |s| || s[i] == '\n' then i
    else
      var j := LineEnd(s, i + 1);
      assert s[i..j] == [s[i]] + s[i + 1..j];
      j
  }

  /** `.` may run from `lo` to `k` exactly when `k` is within the line. */
  lemma NoNewlineUpTo(s: string, lo: nat, k: nat)
    requires lo <= k <= |s|
    ensures NoNewline(s[lo..k]) <==> k <= LineEnd(s, lo)
  {
    var j := LineEnd(s, lo);
    if k > j {
      assert s[lo..k][j - lo] == s[j];
    } else {
      assert forall i :: 0 <= i < k - lo ==> s[lo..k][i] == s[lo..j][i];
    }
  }

  /** The last index in `[lo, p)` where `b` holds. */
  function LastTrue(b: seq<bool>, lo: nat, p: nat): (r: Option<nat>)
    requires lo <= p <= |b|
    ensures r.Some? ==> lo <= r.value < p && b[r.value]
    ensures r.Some? ==> forall q :: r.value < q < p ==> !b[q]
    ensures r.None? ==> forall q :: lo <= q < p ==> !b[q]
    decreases p
  {
    if p == lo then None
    else if b[p - 1] then Some(p - 1)
    else LastTrue(b, lo, p - 1)
  }

  /** The positions of `s` where a day and month begin. */
  function DayMonthStarts(s: string): (b: seq<bool>)
    ensures |b| == |s| && forall q :: 0 <= q < |s| ==> b[q] == DayMonthAt(s, q).Some?
  {
    seq(|s|, q requires 0 <= q < |s| => DayMonthAt(s, q).Some?)
  }

  /** The groups of a day heading: weekday, day of the month as written, month. */
  datatype DateHeading = DateHeading(day: Weekday, dayDigits: string, month: Month)

  /** `date_regex.match(line)`: the groups of the match, if the line is a day heading. */
  function DateMatch(s: string): Option<DateHeading> {
    match DayAt(s)
    case None => None
    case Some(d) =>
      var lo := |DayText(d)|;
      // greedy `(.+)?` backtracks from the longest text it can take: the rightmost day and month
      match LastTrue(DayMonthStarts(s), lo, LineEnd(s, lo))
      case None => None
      case Some(k) =>
        var (digits, m) := DayMonthAt(s, k).value;
        Some(DateHeading(d, digits, m))
  }

  /** Every parse is seen by DateMatch's search: its weekday, and a day and month inside the line. */
  lemma DateParseSeen(s: string, d: Weekday, k: nat, digits: string, m: Month)
    requires DateParse(s, d, k, digits, m)
    ensures DayAt(s) == Some(d) && k < LineEnd(s, |DayText(d)|)
    ensures DayMonthAt(s, k) == Some((digits, m))
  {
    assert DayAt(s) == Some(d) by {
      DayAtUnique(s, d);
    }
    assert DayMonthAt(s, k) == Some((digits, m)) by {
      DayMonthAtSpec(s, k, digits, m);
    }
    assert k <= LineEnd(s, |DayText(d)|) by {
      NoNewlineUpTo(s, |DayText(d)|, k);
    }
  }

  /** What DateMatch returns is a parse. */
  lemma DateMatchSound(s: string)
    requires DateMatch(s).Some?
    ensures var h := DateMatch(s).value;
      exists k :: DateParse(s, h.day, k, h.dayDigits, h.month)
        && forall k', digits', m' :: DateParse(s, h.day, k', digits', m') ==> k' <= k
  {
    var d := DayAt(s).value;
    var lo := |DayText(d)|;
    var k := LastTrue(DayMonthStarts(s), lo, LineEnd(s, lo)).value;
    var (digits, m) := DayMonthAt(s, k).value;
    DayMonthAtSpec(s, k, digits, m);
    NoNewlineUpTo(s, lo, k);
    assert DateParse(s, d, k, digits, m);
    forall k', digits', m' | DateParse(s, d, k', digits', m') ensures k' <= k {
      DateParseSeen(s, d, k', digits', m');
    }
  }

  /**
    A line is a day heading exactly when it has some parse, and then its groups are those of
    the parse whose `(.+)?` is longest.
  */
  lemma DateMatchSpec(s: string)
    ensures DateMatch(s).None? <==>
      forall d, k, digits, m :: !DateParse(s, d, k, digits, m)
    ensures DateMatch(s).Some? ==>
      var h := DateMatch(s).value;
      exists k :: DateParse(s, h.day, k, h.dayDigits, h.month)
        && forall k', digits', m' :: DateParse(s, h.day, k', digits', m') ==> k' <= k
  {
    if DateMatch(s).Some? {
      DateMatchSound(s);
    } else {
      forall d, k, digits, m | DateParse(s, d, k, digits, m) ensures false {
        DateParseSeen(s, d, k, digits, m);
      }
    }
  }

  // ---------------------------------------------------------------------------------------
  // date_values: a day heading as a weekday and a YYYY-MM-DD date
  // ---------------------------------------------------------------------------------------

  /** The `months_numerical` table. */
  function MonthDigits(m: Month): string {
    match m
    case January => "01"
    case February => "02"
    case March => "03"
    case April => "04"
    case May => "05"
    case June => "06"
    case July => "07"
    case August => "08"
    case September => "09"
    case October => "10"
    case November => "11"
    case December => "12"
  }

  /** The table gives each month its number in the calendar, as two digits. */
  lemma MonthDigitsNumber(m: Month)
    ensures |MonthDigits(m)| == 2 && AllDigits(MonthDigits(m))
    ensures DigitsValue(MonthDigits(m)) == MonthIndex(m) + 1
  {
    TwoDigitsValue(MonthDigits(m));
  }

  /** Different months get different numbers. */
  lemma MonthDigitsInjective(a: Month, b: Month)
    requires MonthDigits(a) == MonthDigits(b)
    ensures a == b
  {
    MonthDigitsNumber(a);
    MonthDigitsNumber(b);
    MonthKey(a);
    MonthKey(b);
  }

  /** The accounting year begins at Michaelmas: September to December are 1301, the rest 1302. */
  function YearOf(mm: string): string {
    if mm == "09" || mm == "10" || mm == "11" || mm == "12" then "1301" else "1302"
  }

  /** A one-digit day of the month gets a leading zero. */
  function PadDay(digits: string): string {
    if |digits| == 1 then "0" + digits else digits
  }

  /** date_values: the weekday and the date of a day heading. */
  function DateValues(h: DateHeading): (Weekday, string) {
    var mm := MonthDigits(h.month);
    (h.day, YearOf(mm) + "-" + mm + "-" + PadDay(h.dayDigits))
  }

  /** Padding keeps the day's value and gives it at least two digits. */
  lemma PadDayValue(digits: string)
    requires |digits| > 0 && AllDigits(digits)
    ensures |PadDay(digits)| >= 2 && AllDigits(PadDay(digits))
    ensures DigitsValue(PadDay(digits)) == DigitsValue(digits)
  {
    if |digits| == 1 {
      var p := PadDay(digits);
      assert p[..1] == "0" && p[..1][..0] == [] && digits[..0] == [];
    }
  }

  /**
    Reading back the date of a day heading: the year is 1301 exactly for the months from
    September, then the month's number, then the day's digits, zero-padded to two when a single
    digit, so the day always takes at least two characters.
  */
  lemma DateValuesReadBack(h: DateHeading)
    requires |h.dayDigits| > 0 && AllDigits(h.dayDigits)
    ensures var date := DateValues(h).1;
      && |date| >= 10 && date[4] == '-' && date[7] == '-'
      && date[..4] == (if MonthIndex(h.month) >= 8 then "1301" else "1302")
      && AllDigits(date[5..7]) && DigitsValue(date[5..7]) == MonthIndex(h.month) + 1
      && AllDigits(date[8..]) && DigitsValue(date[8..]) == DigitsValue(h.dayDigits)
      && |date[8..]| >= 2
      && (|h.dayDigits| == 1 ==> date[8..] == ['0', h.dayDigits[0]])
      && (|h.dayDigits| >= 2 ==> date[8..] == h.dayDigits)
  {
    var mm := MonthDigits(h.month);
    var date := DateValues(h).1;
    MonthDigitsNumber(h.month);
    PadDayValue(h.dayDigits);
    assert date[5..7] == mm;
    assert date[8..] == PadDay(h.dayDigits);
    assert date[..4] == YearOf(mm);
  }

  // ---------------------------------------------------------------------------------------
  // The financial term named in a "Gross receipt" line
  // ---------------------------------------------------------------------------------------

  datatype Term = Michaelmas | Trinity | Hilary | Easter

  function TermText(t: Term): string {
    match t
    case Michaelmas => "Michaelmas"
    case Trinity => "Trinity"
    case Hilary => "Hilary"
    case Easter => "Easter"
  }

  /** The order in which a "Gross receipt" line is searched for a term's name. */
  function TermRank(t: Term): nat {
    match t
    case Michaelmas => 0
    case Trinity => 1
    case Hilary => 2
    case Easter => 3
  }

  /**
    The term a "Gross receipt" line names: the first of Michaelmas, Trinity, Hilary and Easter
    found in it, if any.
  */
  function TermNamed(line: string): (r: Option<Term>)
    ensures r.Some? <==> exists t :: Contains(line, TermText(t))
    ensures r.Some? ==>
      && Contains(line, TermText(r.value))
      && forall t :: TermRank(t) < TermRank(r.value) ==> !Contains(line, TermText(t))
  {
    if Contains(line, "Michaelmas") then
      assert Contains(line, TermText(Michaelmas));
      Some(Michaelmas)
    else if Contains(line, "Trinity") then
      assert Contains(line, TermText(Trinity));
      Some(Trinity)
    else if Contains(line, "Hilary") then
      assert Contains(line, TermText(Hilary));
      Some(Hilary)
    else if Contains(line, "Easter") then
      assert Contains(line, TermText(Easter));
      Some(Easter)
    else
      NoTermNamed(line);
      None
  }

  lemma NoTermNamed(line: string)
    requires !Contains(line, "Michaelmas") && !Contains(line, "Trinity")
    requires !Contains(line, "Hilary") && !Contains(line, "Easter")
    ensures forall t :: !Contains(line, TermText(t))
  {
    forall t ensures !Contains(line, TermText(t)) {
      match t
      case Michaelmas =>
      case Trinity =>
      case Hilary =>
      case Easter =>
    }
  }
}
