/** `strip_formatting`: removal of IRC bold and colour codes from a feed
    line, written as the left-to-right scan that a substitution with the
    pattern `\x02|\x03(\d{1,2}(,\d{1,2})?)?` performs. */
module Formatting {
  import opened Strings

  /** The IRC bold toggle, byte 0x02. */
  const Bold: char := 2 as char
  /** The IRC colour introducer, byte 0x03. */
  const Color: char := 3 as char

  /** Length of the greedy `\d{1,2}` at the start of `t` (0 when none). */
  function DigitRun(t: string): (n: nat)
    ensures n <= 2 && n <= |t|
    ensures forall k :: 0 <= k < n ==> IsDigit(t[k])
    ensures n < 2 && n < |t| ==> !IsDigit(t[n])
  {
    if |t| >= 1 && IsDigit(t[0]) then
      (if |t| >= 2 && IsDigit(t[1]) then 2 else 1)
    else 0
  }

  /** One or two decimal digits: `\d{1,2}`. */
  predicate IsDigits12(t: string) {
    1 <= |t| <= 2 && forall k :: 0 <= k < |t| ==> IsDigit(t[k])
  }

  /** The code that may follow a colour introducer: `\d{1,2}(,\d{1,2})?`. */
  predicate IsColorCode(t: string) {
    IsDigits12(t) || exists i :: 0 < i < |t| && t[i] == ',' && IsDigits12(t[..i]) && IsDigits12(t[i + 1..])
  }

  /** Number of characters after a colour introducer that belong to its
      optional `fg[,bg]` code: the longest prefix of `t` that is a colour
      code, or none when `t` does not start with a digit. */
  function ColorCodeLength(t: string): (n: nat)
    ensures n <= 5 && n <= |t|
    ensures forall k :: 0 <= k < n ==> IsDigit(t[k]) || t[k] == ','
    ensures n == 0 <==> t == [] || !IsDigit(t[0])
    ensures n > 0 ==> IsColorCode(t[..n])
    ensures forall m :: n < m <= |t| ==> !IsColorCode(t[..m])
  {
    var fg := DigitRun(t);
    if fg == 0 then 0
    else if fg < |t| && t[fg] == ',' && DigitRun(t[fg + 1..]) > 0 then
      var bg := DigitRun(t[fg + 1..]);
      assert t[..fg + 1 + bg][..fg] == t[..fg];
      assert t[..fg + 1 + bg][fg + 1..] == t[fg + 1..][..bg];
      LongestColorCode(t, fg, bg);
      fg + 1 + bg
    else
      LongestColorCode(t, fg, 0);
      fg
  }

  /** A colour code at the start of `t` is no longer than `fg` digits,
      then, when `bg > 0`, a comma and `bg` digits, where `fg` and `bg` are
      the greedy digit runs. */
  lemma LongestColorCode(t: string, fg: nat, bg: nat)
    requires fg == DigitRun(t) > 0
    requires bg > 0 ==> fg < |t| && t[fg] == ',' && bg == DigitRun(t[fg + 1..])
    requires bg == 0 ==> !(fg < |t| && t[fg] == ',' && DigitRun(t[fg + 1..]) > 0)
    ensures forall m :: (if bg > 0 then fg + 1 + bg else fg) < m <= |t| ==> !IsColorCode(t[..m])
  {
    var n := if bg > 0 then fg + 1 + bg else fg;
    forall m | n < m <= |t| ensures !IsColorCode(t[..m]) {
      var c := t[..m];
      if IsDigits12(c) {
        assert false;
      } else if IsColorCode(c) {
        var i :| 0 < i < |c| && c[i] == ',' && IsDigits12(c[..i]) && IsDigits12(c[i + 1..]);
        assert false;
      }
    }
  }

  /** `strip_formatting(message)` */
  function StripFormatting(s: string): (r: string)
    ensures |r| <= |s|
    ensures Bold !in r && Color !in r
    decreases |s|
  {
    if s == [] then []
    else if s[0] == Bold then StripFormatting(s[1..])
    else if s[0] == Color then StripFormatting(s[1 + ColorCodeLength(s[1..])..])
    else [s[0]] + StripFormatting(s[1..])
  }

  /** A line without formatting bytes passes unchanged. */
  lemma {:induction false} StripKeepsPlainLine(s: string)
    requires Bold !in s && Color !in s
    ensures StripFormatting(s) == s
    decreases |s|
  {
    if s != [] {
      StripKeepsPlainLine(s[1..]);
      assert [s[0]] + s[1..] == s;
    }
  }

  /** Stripping twice is stripping once. */
  lemma StripIdempotent(s: string)
    ensures StripFormatting(StripFormatting(s)) == StripFormatting(s)
  {
    StripKeepsPlainLine(StripFormatting(s));
  }

  /** A colour introducer with its code holds no other character. */
  lemma ColorCodeFree(s: string, x: char)
    requires s != [] && s[0] == Color
    requires x != Color && !IsDigit(x) && x != ','
    ensures multiset(s[..1 + ColorCodeLength(s[1..])])[x] == 0
  {
    var n := ColorCodeLength(s[1..]);
    var code := s[..1 + n];
    forall k | 0 <= k < |code| ensures code[k] != x {
      if k > 0 {
        assert code[k] == s[1..][k - 1];
      }
    }
  }

  /** Only formatting bytes, digits and commas can be removed: every other
      character occurs in the result exactly as often as in the line. */
  lemma {:induction false} StripKeepsText(s: string, x: char)
    requires x != Bold && x != Color && !IsDigit(x) && x != ','
    ensures multiset(StripFormatting(s))[x] == multiset(s)[x]
    decreases |s|
  {
    if s != [] {
      var k := if s[0] == Color then 1 + ColorCodeLength(s[1..]) else 1;
      StripKeepsText(s[k..], x);
      assert s == s[..k] + s[k..];
      assert multiset(s) == multiset(s[..k]) + multiset(s[k..]);
      if s[0] == Color {
        ColorCodeFree(s, x);
      } else {
        assert s[..k] == [s[0]];
      }
    }
  }

  /** A colour code with foreground and background and a bold toggle are
      removed, the text between them stays. */
  lemma StripExampleColorAndBold()
    ensures StripFormatting([Color] + "04,12hi" + [Bold] + "!") == "hi!"
  {
    var s := [Color] + "04,12hi" + [Bold] + "!";
    var t := "hi" + [Bold] + "!";
    assert s[1..] == "04,12hi" + [Bold] + "!";
    assert ColorCodeLength(s[1..]) == 5;
    assert s[6..] == t;
    assert StripFormatting(s) == StripFormatting(t);
    assert t[1..] == "i" + [Bold] + "!";
    assert t[2..] == [Bold] + "!";
    assert t[3..] == "!";
    StripKeepsPlainLine("!");
    assert StripFormatting(t[2..]) == "!";
    assert StripFormatting(t[1..]) == "i!";
    assert StripFormatting(t) == "hi!";
  }

  /** A comma not followed by a digit, and a third digit, are not part of
      the colour code. */
  lemma StripExampleShortCodes()
    ensures StripFormatting([Color] + "7,x") == ",x"
    ensures StripFormatting([Color] + "123") == "3"
  {
    var a := [Color] + "7,x";
    assert a[1..] == "7,x";
    assert DigitRun(a[1..][2..]) == 0;
    assert ColorCodeLength(a[1..]) == 1;
    assert a[2..] == ",x";
    StripKeepsPlainLine(",x");
    var b := [Color] + "123";
    assert b[1..] == "123";
    assert ColorCodeLength(b[1..]) == 2;
    assert b[3..] == "3";
    StripKeepsPlainLine("3");
  }
}
