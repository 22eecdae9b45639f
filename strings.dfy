/** An optional value, for the places where PHP returns null. */
module Options {
  datatype Option<T> = None | Some(value: T)
}

/**
 * The string primitives of PHP that the sprite tools rely on, on strings of
 * single-byte characters: implode, sprintf padding, %d and %03d, trim,
 * strtolower and the string case of empty().
 */
module Strings {

  /** PHP's implode(sep, parts): the parts with sep between neighbours. */
  function Join(sep: string, parts: seq<string>): (r: string)
    ensures |parts| == 0 ==> r == ""
    ensures |parts| == 1 ==> r == parts[0]
  {
    if |parts| == 0 then ""
    else if |parts| == 1 then parts[0]
    else parts[0] + sep + Join(sep, parts[1..])
  }

  /** The concatenation of all the strings of a sequence. */
  function Concat(parts: seq<string>): (r: string)
    ensures |parts| == 0 ==> r == ""
  {
    if |parts| == 0 then "" else parts[0] + Concat(parts[1..])
  }

  /** Joining with a separator and then appending one more separator is the
      same as terminating every part with the separator. */
  lemma {:induction false} JoinThenTerminate(sep: string, parts: seq<string>)
    requires |parts| >= 1
    ensures Join(sep, parts) + sep == Concat(seq(|parts|, i requires 0 <= i < |parts| => parts[i] + sep))
  {
    var terminated := seq(|parts|, i requires 0 <= i < |parts| => parts[i] + sep);
    if |parts| == 1 {
      assert Concat(terminated) == terminated[0] + Concat(terminated[1..]);
      assert terminated[1..] == [];
    } else {
      JoinThenTerminate(sep, parts[1..]);
      var rest := seq(|parts| - 1, i requires 0 <= i < |parts| - 1 => parts[1..][i] + sep);
      assert terminated[1..] == rest;
      calc {
        Join(sep, parts) + sep;
        parts[0] + sep + (Join(sep, parts[1..]) + sep);
        parts[0] + sep + Concat(rest);
        Concat(terminated);
      }
    }
  }

  /** How often the character c occurs in s. */
  function Count(c: char, s: string): (k: nat)
    ensures k <= |s|
  {
    if |s| == 0 then 0 else (if s[0] == c then 1 else 0) + Count(c, s[1..])
  }

  lemma {:induction false} CountAppend(c: char, a: string, b: string)
    ensures Count(c, a + b) == Count(c, a) + Count(c, b)
  {
    if |a| > 0 {
      assert (a + b)[1..] == a[1..] + b;
      CountAppend(c, a[1..], b);
    } else {
      assert a + b == b;
    }
  }

  /** Terminating every part with a separator that none of the parts contains
      yields exactly one separator per part: the result has one line per part. */
  lemma {:induction false} TerminatedLineCount(sep: char, parts: seq<string>)
    requires forall i :: 0 <= i < |parts| ==> sep !in parts[i]
    ensures Count(sep, Concat(seq(|parts|, i requires 0 <= i < |parts| => parts[i] + [sep]))) == |parts|
  {
    var terminated := seq(|parts|, i requires 0 <= i < |parts| => parts[i] + [sep]);
    if |parts| > 0 {
      var rest := seq(|parts| - 1, i requires 0 <= i < |parts| - 1 => parts[1..][i] + [sep]);
      assert terminated[1..] == rest;
      TerminatedLineCount(sep, parts[1..]);
      CountAppend(sep, parts[0] + [sep], Concat(rest));
      CountAppend(sep, parts[0], [sep]);
      NotInCountZero(sep, parts[0]);
      assert Count(sep, [sep]) == 1 + Count(sep, []);
    }
  }

  lemma {:induction false} NotInCountZero(c: char, s: string)
    requires c !in s
    ensures Count(c, s) == 0
  {
    if |s| > 0 {
      assert c !in s[1..];
      NotInCountZero(c, s[1..]);
    }
  }

  /** n copies of the character c. */
  function Repeat(c: char, n: nat): (r: string)
    ensures |r| == n
    ensures forall i :: 0 <= i < n ==> r[i] == c
  {
    if n == 0 then "" else [c] + Repeat(c, n - 1)
  }

  function Max(a: int, b: int): int { if a < b then b else a }

  /** sprintf("%-Ns", s) with pad character c: s followed by enough c's to
      reach width w; s is never cut. */
  function PadRight(s: string, w: nat, c: char): (r: string)
    ensures |r| == Max(|s|, w)
    ensures r[..|s|] == s
    ensures forall i :: |s| <= i < |r| ==> r[i] == c
  {
    if |s| < w then s + Repeat(c, w - |s|) else s
  }

  /** sprintf("%Ns", s) with pad character c: enough c's to reach width w,
      then s; s is never cut. */
  function PadLeft(s: string, w: nat, c: char): (r: string)
    ensures |r| == Max(|s|, w)
    ensures r[|r| - |s|..] == s
    ensures forall i :: 0 <= i < |r| - |s| ==> r[i] == c
  {
    if |s| < w then Repeat(c, w - |s|) + s else s
  }

  predicate IsDigit(c: char) { '0' <= c <= '9' }

  predicate AllDigits(s: string) { forall i :: 0 <= i < |s| ==> IsDigit(s[i]) }

  /** The number a string of decimal digits denotes. */
  ghost function DecimalValue(s: string): nat
    requires AllDigits(s)
  {
    if |s| == 0 then 0
    else 10 * DecimalValue(s[..|s| - 1]) + (s[|s| - 1] as int - '0' as int)
  }

  function DigitChar(d: nat): (c: char)
    requires d < 10
    ensures IsDigit(c) && c as int - '0' as int == d
  {
    (d + '0' as int) as char
  }

  /** PHP's %d of a non-negative integer: its shortest decimal numeral. */
  function NatToString(n: nat): (r: string)
    ensures |r| >= 1 && AllDigits(r)
    ensures DecimalValue(r) == n
    ensures |r| > 1 ==> r[0] != '0'
    ensures n < 10 <==> |r| == 1
    ensures n < 1000 ==> |r| <= 3
  {
    if n < 10 then [DigitChar(n)]
    else
      var r := NatToString(n / 10) + [DigitChar(n % 10)];
      assert r[..|r| - 1] == NatToString(n / 10);
      r
  }

  /** Leading zeros do not change the value of a numeral. */
  lemma {:induction false} LeadingZeros(k: nat, s: string)
    requires AllDigits(s)
    ensures AllDigits(Repeat('0', k) + s)
    ensures DecimalValue(Repeat('0', k) + s) == DecimalValue(s)
  {
    var z := Repeat('0', k);
    if |s| == 0 {
      assert z + s == z;
      ZerosValue(k);
    } else {
      assert (z + s)[..|z + s| - 1] == z + s[..|s| - 1];
      LeadingZeros(k, s[..|s| - 1]);
    }
  }

  lemma {:induction false} ZerosValue(k: nat)
    ensures AllDigits(Repeat('0', k))
    ensures DecimalValue(Repeat('0', k)) == 0
  {
    if k > 0 {
      var z := Repeat('0', k);
      assert z[..k - 1] == Repeat('0', k - 1);
      ZerosValue(k - 1);
    }
  }

  /** PHP's sprintf("%0Nd", n) for non-negative n: the numeral of n,
      zero-padded on the left to at least w digits. */
  function ZeroPad(n: nat, w: nat): (r: string)
    ensures AllDigits(r) && DecimalValue(r) == n
    ensures |r| == Max(w, |NatToString(n)|)
  {
    var digits := NatToString(n);
    if |digits| < w then
      LeadingZeros(w - |digits|, digits);
      Repeat('0', w - |digits|) + digits
    else digits
  }

  predicate StartsWith(s: string, prefix: string) {
    |prefix| <= |s| && s[..|prefix|] == prefix
  }

  /** PHP's empty() on a string: true for "" and for "0". */
  predicate PhpEmpty(s: string) { s == "" || s == "0" }

  /** The characters PHP's trim() strips by default: space, tab, line feed,
      carriage return, NUL and vertical tab. */
  predicate IsTrimChar(c: char) {
    c == ' ' || c == '\t' || c == '\n' || c == '\r' || c == '\0' || c == '\U{000B}'
  }

  function TrimLeft(s: string): (r: string)
    ensures |r| <= |s| && r == s[|s| - |r|..]
    ensures forall i :: 0 <= i < |s| - |r| ==> IsTrimChar(s[i])
    ensures |r| > 0 ==> !IsTrimChar(r[0])
  {
    if |s| > 0 && IsTrimChar(s[0]) then TrimLeft(s[1..]) else s
  }

  function TrimRight(s: string): (r: string)
    ensures |r| <= |s| && r == s[..|r|]
    ensures forall i :: |r| <= i < |s| ==> IsTrimChar(s[i])
    ensures |r| > 0 ==> !IsTrimChar(r[|r| - 1])
  {
    if |s| > 0 && IsTrimChar(s[|s| - 1]) then TrimRight(s[..|s| - 1]) else s
  }

  /** PHP's trim(s): s without the trim characters at either end. */
  function Trim(s: string): (r: string)
    ensures |r| <= |s|
    ensures |r| > 0 ==> !IsTrimChar(r[0]) && !IsTrimChar(r[|r| - 1])
  {
    TrimRight(TrimLeft(s))
  }

  function LowerChar(c: char): char {
    if 'A' <= c <= 'Z' then (c as int - 'A' as int + 'a' as int) as char else c
  }

  /** PHP's strtolower: ASCII letters mapped to lower case, every other
      character kept. */
  function ToLower(s: string): (r: string)
    ensures |r| == |s|
    ensures forall i :: 0 <= i < |s| ==> r[i] == LowerChar(s[i])
    ensures forall i :: 0 <= i < |s| ==> !('A' <= r[i] <= 'Z')
  {
    if |s| == 0 then "" else [LowerChar(s[0])] + ToLower(s[1..])
  }

  /** trim() leaves a string alone whose ends are not blanks. */
  lemma TrimUnchanged(s: string)
    requires |s| > 0 && !IsTrimChar(s[0]) && !IsTrimChar(s[|s| - 1])
    ensures Trim(s) == s
  {
    assert TrimLeft(s) == s;
  }

  /** trim() drops a trailing space. */
  lemma TrimTrailingSpace(s: string)
    requires |s| > 0 && !IsTrimChar(s[0]) && !IsTrimChar(s[|s| - 1])
    ensures Trim(s + " ") == s
  {
    var t := s + " ";
    assert TrimLeft(t) == t;
    assert t[..|t| - 1] == s;
    assert TrimRight(t) == TrimRight(s);
    assert TrimLeft(s) == s;
  }

  /** strtolower leaves a string alone that has no capital letters. */
  lemma ToLowerUnchanged(s: string)
    requires forall i :: 0 <= i < |s| ==> !('A' <= s[i] <= 'Z')
    ensures ToLower(s) == s
  {
    assert forall i :: 0 <= i < |s| ==> ToLower(s)[i] == s[i];
  }

  /** The text after the last '.' of s, or all of s when it has no '.':
      end(explode('.', s)) in PHP. */
  function AfterLastDot(s: string): (r: string)
    ensures |r| <= |s| && r == s[|s| - |r|..]
    ensures '.' !in r
    ensures |r| < |s| ==> s[|s| - |r| - 1] == '.'
  {
    if |s| == 0 then ""
    else if s[|s| - 1] == '.' then ""
    else
      var init := s[..|s| - 1];
      var prev := AfterLastDot(init);
      assert init[|init| - |prev|..] + [s[|s| - 1]] == s[|s| - |prev| - 1..];
      prev + [s[|s| - 1]]
  }

  /** The replacement htmlspecialchars uses for one character. */
  function EscapeChar(c: char): string {
    if c == '&' then "&amp;"
    else if c == '<' then "&lt;"
    else if c == '>' then "&gt;"
    else if c == '"' then "&quot;"
    else [c]
  }

  predicate HtmlSpecial(c: char) { c == '&' || c == '<' || c == '>' || c == '"' }

  /** PHP's htmlspecialchars with the default flags of PHP before 8.1
      (ENT_COMPAT): &, <, > and " become entities; every other character,
      the single quote included, is kept. */
  function HtmlSpecialChars(s: string): (r: string)
    ensures |r| >= |s|
    ensures forall i :: 0 <= i < |r| ==> r[i] != '<' && r[i] != '>' && r[i] != '"'
    ensures (forall i :: 0 <= i < |s| ==> !HtmlSpecial(s[i])) ==> r == s
  {
    if |s| == 0 then "" else EscapeChar(s[0]) + HtmlSpecialChars(s[1..])
  }

  /** The extension of a name that has a '.' is what follows its last '.'. */
  lemma {:induction false} AfterLastDotOf(a: string, b: string)
    requires '.' !in b
    ensures AfterLastDot(a + "." + b) == b
  {
    var s := a + "." + b;
    if |b| > 0 {
      assert s[..|s| - 1] == a + "." + b[..|b| - 1];
      AfterLastDotOf(a, b[..|b| - 1]);
    }
  }

  /** A name without a '.' is its own extension. */
  lemma {:induction false} AfterLastDotNoDot(s: string)
    requires '.' !in s
    ensures AfterLastDot(s) == s
  {
    if |s| > 0 {
      AfterLastDotNoDot(s[..|s| - 1]);
    }
  }
}
