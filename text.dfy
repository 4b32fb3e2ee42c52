/** String helpers with the semantics of the JavaScript built-ins the
    front end and the Node servers use: decimal rendering of a number,
    `padStart`, `trim`, `toUpperCase`, `split` on one character, and the
    fixed-length letter patterns `/^[A-Z]{60}$/` and `/^[a-z]{60}$/`. */
module Text {

  predicate IsDigit(c: char) { '0' <= c <= '9' }

  predicate AllDigits(s: string) { forall i :: 0 <= i < |s| ==> IsDigit(s[i]) }

  function DigitChar(d: nat): (c: char)
    requires d < 10
    ensures IsDigit(c) && (c as int) - ('0' as int) == d
  {
    (('0' as int) + d) as char
  }

  function DigitValue(c: char): (d: nat)
    requires IsDigit(c)
    ensures d < 10
  {
    (c as int) - ('0' as int)
  }

  /** The decimal rendering of a non-negative integer, as `String(n)` gives it. */
  function NatToString(n: nat): (s: string)
    ensures |s| >= 1 && AllDigits(s)
    ensures |s| > 1 ==> s[0] != '0'
    decreases n
  {
    if n < 10 then [DigitChar(n)] else NatToString(n / 10) + [DigitChar(n % 10)]
  }

  /** The value of a string of decimal digits. */
  function DigitsValue(s: string): nat
    requires AllDigits(s)
  {
    if s == [] then 0 else DigitsValue(s[..|s| - 1]) * 10 + DigitValue(s[|s| - 1])
  }

  /** Reading back a rendered number gives the number. */
  lemma {:induction false} NatToStringRoundTrip(n: nat)
    ensures DigitsValue(NatToString(n)) == n
    decreases n
  {
    if n >= 10 {
      NatToStringRoundTrip(n / 10);
      var s := NatToString(n);
      assert s[..|s| - 1] == NatToString(n / 10);
    }
  }

  /** Rendering is injective: two numbers with the same text are equal. */
  lemma NatToStringInjective(a: nat, b: nat)
    requires NatToString(a) == NatToString(b)
    ensures a == b
  {
    NatToStringRoundTrip(a);
    NatToStringRoundTrip(b);
  }

  /** A number below 10 renders as one digit, one below 100 as at most two. */
  lemma NatToStringShort(n: nat)
    ensures n < 10 ==> |NatToString(n)| == 1
    ensures 10 <= n < 100 ==> |NatToString(n)| == 2
  {
    if 10 <= n < 100 {
      assert NatToString(n) == NatToString(n / 10) + [DigitChar(n % 10)];
    }
  }

  /** A leading zero does not change the value of a digit string. */
  lemma {:induction false} LeadingZero(s: string)
    requires AllDigits(s)
    ensures AllDigits(['0'] + s) && DigitsValue(['0'] + s) == DigitsValue(s)
    decreases |s|
  {
    var t := ['0'] + s;
    if s != [] {
      assert t[..|t| - 1] == ['0'] + s[..|s| - 1];
      LeadingZero(s[..|s| - 1]);
    }
  }

  /** `s.padStart(width, fill)` for a one-character fill. */
  function PadStart(s: string, width: nat, fill: char): (r: string)
    ensures |r| == if |s| >= width then |s| else width
    ensures r[|r| - |s|..] == s
    ensures forall i :: 0 <= i < |r| - |s| ==> r[i] == fill
  {
    if |s| >= width then s
    else
      var pad := seq(width - |s|, _ => fill);
      assert (pad + s)[|pad|..] == s;
      pad + s
  }

  /** `String(n).padStart(2, '0')`, the two-digit fields of a clock. */
  function Pad2(n: nat): string
  {
    PadStart(NatToString(n), 2, '0')
  }

  /** A two-digit field reads back as its number, and is two characters long. */
  lemma Pad2RoundTrip(n: nat)
    requires n < 100
    ensures |Pad2(n)| == 2 && AllDigits(Pad2(n)) && DigitsValue(Pad2(n)) == n
  {
    NatToStringShort(n);
    NatToStringRoundTrip(n);
    if n < 10 {
      assert Pad2(n) == ['0'] + NatToString(n);
      LeadingZero(NatToString(n));
    } else {
      assert Pad2(n) == NatToString(n);
    }
  }

  /** The characters `String.prototype.trim` removes: the ECMAScript
      WhiteSpace and LineTerminator code points. */
  predicate IsJsWhitespace(c: char)
  {
    c == ' ' || c == '\t' || c == '\n' || c == '\r' || c == '\U{000B}' || c == '\U{000C}'
    || c == '\U{00A0}' || c == '\U{1680}' || ('\U{2000}' <= c <= '\U{200A}')
    || c == '\U{2028}' || c == '\U{2029}' || c == '\U{202F}' || c == '\U{205F}'
    || c == '\U{3000}' || c == '\U{FEFF}'
  }

  predicate AllWhitespace(s: string) { forall i :: 0 <= i < |s| ==> IsJsWhitespace(s[i]) }

  function TrimStart(s: string): (r: string)
    ensures |r| <= |s| && r == s[|s| - |r|..]
    ensures AllWhitespace(s[..|s| - |r|])
    ensures r != [] ==> !IsJsWhitespace(r[0])
  {
    if s != [] && IsJsWhitespace(s[0]) then
      var r := TrimStart(s[1..]);
      assert s[..|s| - |r|] == [s[0]] + s[1..][..|s[1..]| - |r|];
      r
    else s
  }

  function TrimEnd(s: string): (r: string)
    ensures |r| <= |s| && r == s[..|r|]
    ensures AllWhitespace(s[|r|..])
    ensures r != [] ==> !IsJsWhitespace(r[|r| - 1])
    ensures s != [] && !IsJsWhitespace(s[0]) ==> r != []
  {
    if s != [] && IsJsWhitespace(s[|s| - 1]) then
      var t := s[..|s| - 1];
      var r := TrimEnd(t);
      assert s[..|r|] == t[..|r|];
      assert s[|r|..] == t[|r|..] + [s[|s| - 1]];
      assert |s| > 1 ==> t[0] == s[0];
      r
    else s
  }

  /** `s.trim()`: the string without its leading and trailing white space. */
  function Trim(s: string): string
  {
    TrimEnd(TrimStart(s))
  }

  /** Trimming removes exactly the white space written around a string that
      neither starts nor ends with white space. */
  lemma TrimPadded(before: string, w: string, after: string)
    requires AllWhitespace(before) && AllWhitespace(after)
    requires w != [] && !IsJsWhitespace(w[0]) && !IsJsWhitespace(w[|w| - 1])
    ensures Trim(before + w + after) == w
  {
    assert TrimStart(before + w + after) == w + after by {
      assert before + w + after == before + (w + after);
      TrimStartPadded(before, w + after);
    }
    TrimEndPadded(w, after);
  }

  lemma {:induction false} TrimStartPadded(ws: string, s: string)
    requires AllWhitespace(ws) && s != [] && !IsJsWhitespace(s[0])
    ensures TrimStart(ws + s) == s
    decreases |ws|
  {
    if ws == [] {
      assert ws + s == s;
    } else {
      assert (ws + s)[0] == ws[0];
      assert (ws + s)[1..] == ws[1..] + s;
      TrimStartPadded(ws[1..], s);
    }
  }

  lemma {:induction false} TrimEndPadded(s: string, ws: string)
    requires AllWhitespace(ws) && s != [] && !IsJsWhitespace(s[|s| - 1])
    ensures TrimEnd(s + ws) == s
    decreases |ws|
  {
    if ws == [] {
      assert s + ws == s;
    } else {
      var n := |ws| - 1;
      assert (s + ws)[|s + ws| - 1] == ws[n];
      assert (s + ws)[..|s + ws| - 1] == s + ws[..n];
      TrimEndPadded(s, ws[..n]);
    }
  }

  /** Trimming leaves nothing exactly when the string is all white space. */
  lemma TrimEmptyIff(s: string)
    ensures Trim(s) == [] <==> AllWhitespace(s)
  {
    var t := TrimStart(s);
    if t != [] {
      assert t[0] == s[|s| - |t|];
    } else {
      assert s[..|s|] == s;
    }
  }

  /** What `toUpperCase` turns one character into, for every character whose
      upper case consists of the letters A to Z; any other character is kept
      as it is (its real upper case contains a character outside A to Z
      exactly when it does itself, which is all the callers observe). */
  function UpperChar(c: char): string
  {
    if 'a' <= c <= 'z' then [((c as int) - 32) as char]
    else if c == '\U{0131}' then "I"      // dotless i
    else if c == '\U{017F}' then "S"      // long s
    else if c == '\U{00DF}' then "SS"     // sharp s
    else if c == '\U{FB00}' then "FF"
    else if c == '\U{FB01}' then "FI"
    else if c == '\U{FB02}' then "FL"
    else if c == '\U{FB03}' then "FFI"
    else if c == '\U{FB04}' then "FFL"
    else if c == '\U{FB05}' || c == '\U{FB06}' then "ST"
    else [c]
  }

  /** `s.toUpperCase()`, character by character. */
  function ToUpper(s: string): string
  {
    if s == [] then [] else UpperChar(s[0]) + ToUpper(s[1..])
  }

  lemma {:induction false} ToUpperAppend(a: string, b: string)
    ensures ToUpper(a + b) == ToUpper(a) + ToUpper(b)
    decreases |a|
  {
    if a != [] {
      assert (a + b)[0] == a[0];
      assert (a + b)[1..] == a[1..] + b;
      ToUpperAppend(a[1..], b);
      assert ToUpper(a) == UpperChar(a[0]) + ToUpper(a[1..]);
      assert ToUpper(a + b) == UpperChar(a[0]) + (ToUpper(a[1..]) + ToUpper(b));
    } else {
      assert a + b == b;
    }
  }

  predicate IsUpperLetter(c: char) { 'A' <= c <= 'Z' }

  predicate IsLowerLetter(c: char) { 'a' <= c <= 'z' }

  /** `/^[A-Z]{60}$/.test(s)`: exactly sixty upper-case Latin letters. */
  predicate IsWalletId(s: string)
  {
    |s| == 60 && forall i :: 0 <= i < |s| ==> IsUpperLetter(s[i])
  }

  /** `/^[a-z]{60}$/.test(s)`: exactly sixty lower-case Latin letters. */
  predicate IsTxId(s: string)
  {
    |s| == 60 && forall i :: 0 <= i < |s| ==> IsLowerLetter(s[i])
  }

  /** Upper-casing keeps a string of upper-case letters as it is, and maps a
      string of lower-case letters to its upper-case twin of the same length. */
  lemma {:induction false} ToUpperOfLetters(s: string)
    ensures (forall i :: 0 <= i < |s| ==> IsUpperLetter(s[i])) ==> ToUpper(s) == s
    ensures (forall i :: 0 <= i < |s| ==> IsLowerLetter(s[i])) ==>
      |ToUpper(s)| == |s| && forall i :: 0 <= i < |s| ==> ToUpper(s)[i] as int == s[i] as int - 32
    decreases |s|
  {
    if s != [] {
      ToUpperOfLetters(s[1..]);
    }
  }

  /** `s.split(sep)` for a one-character separator: the pieces between the
      separators, in order, including empty ones. */
  function Split(s: string, sep: char): (parts: seq<string>)
    ensures |parts| >= 1
    ensures forall i :: 0 <= i < |parts| ==> sep !in parts[i]
  {
    if s == [] then [[]]
    else if s[0] == sep then [[]] + Split(s[1..], sep)
    else
      var rest := Split(s[1..], sep);
      [[s[0]] + rest[0]] + rest[1..]
  }

  /** `parts.join(sep)`. */
  function Join(parts: seq<string>, sep: char): string
    requires |parts| >= 1
  {
    if |parts| == 1 then parts[0] else parts[0] + [sep] + Join(parts[1..], sep)
  }

  /** Joining the pieces of a split gives back the string. */
  lemma {:induction false} JoinSplit(s: string, sep: char)
    ensures Join(Split(s, sep), sep) == s
    decreases |s|
  {
    if s != [] {
      JoinSplit(s[1..], sep);
      var rest := Split(s[1..], sep);
      if s[0] == sep {
        assert Split(s, sep)[1..] == rest;
      } else {
        var parts := Split(s, sep);
        assert parts[1..] == rest[1..];
        if |rest| > 1 {
          assert rest[0] + [sep] + Join(rest[1..], sep) == s[1..];
        }
      }
    }
  }

  /** Splitting a join of separator-free pieces gives back the pieces. */
  lemma {:induction false} SplitJoin(parts: seq<string>, sep: char)
    requires |parts| >= 1
    requires forall i :: 0 <= i < |parts| ==> sep !in parts[i]
    ensures Split(Join(parts, sep), sep) == parts
    decreases |parts|, |parts[0]|
  {
    var p := parts[0];
    if p == [] {
      if |parts| > 1 {
        SplitJoin(parts[1..], sep);
        assert Join(parts, sep) == [sep] + Join(parts[1..], sep);
        assert Join(parts, sep)[1..] == Join(parts[1..], sep);
        assert parts == [[]] + parts[1..];
      }
    } else {
      var shorter := [p[1..]] + parts[1..];
      assert sep !in p[1..] by { assert forall c :: c in p[1..] ==> c in p; }
      assert forall i :: 0 <= i < |shorter| ==> sep !in shorter[i] by {
        forall i | 0 <= i < |shorter| ensures sep !in shorter[i] {
          if i > 0 { assert shorter[i] == parts[i]; }
        }
      }
      SplitJoin(shorter, sep);
      var j := Join(parts, sep);
      assert shorter[1..] == parts[1..];
      assert Join(shorter, sep) == j[1..] by {
        if |parts| == 1 {
        } else {
          assert j == p + [sep] + Join(parts[1..], sep);
        }
      }
      assert j[0] == p[0];
      assert p == [p[0]] + p[1..];
      assert parts == [[p[0]] + p[1..]] + parts[1..];
    }
  }
}
