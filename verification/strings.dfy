/**
  Character classes and string helpers with the meaning Python 3 gives them on `str`:
  `\s` and `str.strip()` use the Unicode whitespace set of `str.isspace()`, `[A-Z]` is
  ASCII upper case, and `\d`/`int()` are modelled on the ASCII digits.
*/
module Strings {
  import opened Wrappers

  /** Python's `str.isspace()`, which is also what `\s` matches in a `str` pattern. */
  predicate IsSpace(c: char) {
    || '\t' <= c <= '\r'
    || '\U{1C}' <= c <= '\U{1F}'
    || c == ' ' || c == '\U{85}' || c == '\U{A0}' || c == '\U{1680}'
    || '\U{2000}' <= c <= '\U{200A}'
    || c == '\U{2028}' || c == '\U{2029}' || c == '\U{202F}' || c == '\U{205F}' || c == '\U{3000}'
  }

  predicate IsDigit(c: char) { '0' <= c <= '9' }

  predicate IsUpper(c: char) { 'A' <= c <= 'Z' }

  predicate AllDigits(s: string) { forall i :: 0 <= i < |s| ==> IsDigit(s[i]) }

  predicate AllSpace(s: string) { forall i :: 0 <= i < |s| ==> IsSpace(s[i]) }

  predicate AllUpper(s: string) { forall i :: 0 <= i < |s| ==> IsUpper(s[i]) }

  /** `s` begins with `w`. */
  predicate StartsWith(s: string, w: string) { |w| <= |s| && s[..|w|] == w }

  /** `w` occurs in `s` at position `i`. */
  predicate InfixAt(s: string, w: string, i: int) {
    0 <= i && i + |w| <= |s| && s[i..i + |w|] == w
  }

  /** Python's `w in s` for strings. */
  function Contains(s: string, w: string): (b: bool)
    ensures b <==> exists i :: InfixAt(s, w, i)
    decreases |s|
  {
    if |s| < |w| then
      false
    else if s[..|w|] == w then
      assert InfixAt(s, w, 0);
      true
    else
      var b := Contains(s[1..], w);
      assert forall i :: InfixAt(s[1..], w, i) ==> InfixAt(s, w, i + 1) by {
        forall i | InfixAt(s[1..], w, i) ensures InfixAt(s, w, i + 1) {
          assert s[1..][i..i + |w|] == s[i + 1..i + 1 + |w|];
        }
      }
      assert forall i :: InfixAt(s, w, i) ==> i == 0 || InfixAt(s[1..], w, i - 1) by {
        forall i | InfixAt(s, w, i) && i != 0 ensures InfixAt(s[1..], w, i - 1) {
          assert s[1..][i - 1..i - 1 + |w|] == s[i..i + |w|];
        }
      }
      b
  }

  /** Length of the longest all-digit prefix: what a greedy `\d+` consumes. */
  function DigitRun(s: string): (n: nat)
    ensures n <= |s| && AllDigits(s[..n])
    ensures n < |s| ==> !IsDigit(s[n])
    decreases |s|
  {
    if s != [] && IsDigit(s[0]) then
      var n := 1 + DigitRun(s[1..]);
      assert s[..n] == [s[0]] + s[1..][..n - 1];
      n
    else
      0
  }

  function DigitValue(c: char): (d: nat)
    requires IsDigit(c)
    ensures d < 10
  {
    c as int - '0' as int
  }

  function DigitChar(d: nat): (c: char)
    requires d < 10
    ensures IsDigit(c) && DigitValue(c) == d
  {
    ('0' as int + d) as char
  }

  /** Python's `int(s)` on a string of decimal digits. */
  function DigitsValue(s: string): nat
    requires AllDigits(s)
    decreases |s|
  {
    if s == [] then 0 else DigitsValue(s[..|s| - 1]) * 10 + DigitValue(s[|s| - 1])
  }

  /** The value of a two-digit string. */
  lemma TwoDigitsValue(t: string)
    requires |t| == 2 && AllDigits(t)
    ensures DigitsValue(t) == DigitValue(t[0]) * 10 + DigitValue(t[1])
  {
    assert t[..1][..0] == [];
    assert DigitsValue(t[..1]) == DigitValue(t[0]);
  }

  /** Python's `"{}".format(n)` for a non-negative integer. */
  function NatToString(n: nat): (r: string)
    ensures |r| > 0 && AllDigits(r) && DigitsValue(r) == n
    ensures r[0] == '0' ==> r == "0"
    decreases n
  {
    if n < 10 then
      [DigitChar(n)]
    else
      var prefix := NatToString(n / 10);
      var r := prefix + [DigitChar(n % 10)];
      assert r[..|r| - 1] == prefix;
      r
  }

  /** Length of the run of whitespace starting at `i`. */
  function SpaceRunFrom(s: string, i: nat): (n: nat)
    requires i <= |s|
    ensures i + n <= |s|
    ensures forall k :: i <= k < i + n ==> IsSpace(s[k])
    ensures i + n < |s| ==> !IsSpace(s[i + n])
    decreases |s| - i
  {
    if i < |s| && IsSpace(s[i]) then 1 + SpaceRunFrom(s, i + 1) else 0
  }

  /** Length of the run of whitespace ending just before `e`. */
  function SpaceRunTo(s: string, e: nat): (n: nat)
    requires e <= |s|
    ensures n <= e
    ensures forall k :: e - n <= k < e ==> IsSpace(s[k])
    ensures n < e ==> !IsSpace(s[e - n - 1])
  {
    if e > 0 && IsSpace(s[e - 1]) then 1 + SpaceRunTo(s, e - 1) else 0
  }

  /** Python's `s.strip()`: `s` is whitespace, then the result, then whitespace. */
  function Strip(s: string): (r: string)
    ensures var k := SpaceRunFrom(s, 0);
      k + |r| <= |s| && s[k..k + |r|] == r
      && forall i :: k + |r| <= i < |s| ==> IsSpace(s[i])
    ensures r != [] ==> !IsSpace(r[0]) && !IsSpace(r[|r| - 1])
    ensures r == [] <==> AllSpace(s)
  {
    var k := SpaceRunFrom(s, 0);
    if k == |s| then
      assert AllSpace(s);
      []
    else
      var t := SpaceRunTo(s, |s|);
      assert !IsSpace(s[k]);
      assert t <= |s| - k - 1;
      var r := s[k..|s| - t];
      assert k + |r| == |s| - t;
      assert r[0] == s[k] && r[|r| - 1] == s[|s| - t - 1];
      r
  }

  function LowerChar(c: char): char {
    if IsUpper(c) then (c as int + 32) as char else c
  }

  /** `s.lower()` on the ASCII letters; every other character is kept. */
  function ToLower(s: string): (r: string)
    ensures |r| == |s|
    ensures forall i :: 0 <= i < |s| ==> r[i] == LowerChar(s[i])
  {
    seq(|s|, i requires 0 <= i < |s| => LowerChar(s[i]))
  }

  /** Position of the first `c` in `s`. */
  function IndexOf(s: string, c: char): (r: Option<nat>)
    ensures r.None? <==> c !in s
    ensures r.Some? ==> r.value < |s| && s[r.value] == c && c !in s[..r.value]
    decreases |s|
  {
    if s == [] then
      None
    else if s[0] == c then
      Some(0)
    else
      match IndexOf(s[1..], c)
      case None => None
      case Some(i) =>
        assert s[..i + 1] == [s[0]] + s[1..][..i];
        Some(i + 1)
  }

  /**
    Python's `s.split(':')[1]`: the text between the first colon and the next one (or the
    end of `s`). `None` stands for the IndexError raised when `s` holds no colon.
  */
  function SecondColonField(s: string): (r: Option<string>)
    ensures r.Some? <==> ':' in s
    ensures r.Some? ==>
      var i := IndexOf(s, ':').value;
      var f := r.value;
      InfixAt(s, f, i + 1) && ':' !in f && (i + 1 + |f| == |s| || s[i + 1 + |f|] == ':')
  {
    match IndexOf(s, ':')
    case None => None
    case Some(i) =>
      var t := s[i + 1..];
      match IndexOf(t, ':')
      case None =>
        assert s[i + 1..i + 1 + |t|] == t;
        Some(t)
      case Some(j) =>
        assert s[i + 1..i + 1 + j] == t[..j];
        Some(t[..j])
  }

  /** A greedy `\d+` over `ds + rest` stops exactly at the end of `ds`. */
  lemma {:induction false} DigitRunConcat(ds: string, rest: string)
    requires AllDigits(ds)
    requires rest == [] || !IsDigit(rest[0])
    ensures DigitRun(ds + rest) == |ds|
    decreases |ds|
  {
    if ds != [] {
      assert (ds + rest)[1..] == ds[1..] + rest;
      DigitRunConcat(ds[1..], rest);
    }
  }

  /** Two consecutive prefixes make one. */
  lemma StartsWithJoin(s: string, a: string, b: string)
    requires StartsWith(s, a) && StartsWith(s[|a|..], b)
    ensures StartsWith(s, a + b)
  {
    assert s[..|a| + |b|] == s[..|a|] + s[|a|..][..|b|];
  }

  /** Dropping a prefix and then `n` more characters. */
  lemma DropJoin(a: string, b: string, n: nat)
    requires n <= |b|
    ensures (a + b)[|a| + n..] == b[n..]
  {
  }

  /** A word inside a prefix of the text at `j` occurs in the text itself. */
  lemma InfixOfPrefix(s: string, j: nat, w: string, v: string, k: nat)
    requires j <= |s| && StartsWith(s[j..], w) && InfixAt(w, v, k)
    ensures InfixAt(s, v, j + k)
  {
    assert s[j + k..j + k + |v|] == s[j..][..|w|][k..k + |v|];
  }
}
