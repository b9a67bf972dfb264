/** The string handling the analyser borrows from Python: `str.split()`,
    `str.split('\n')`, `str.strip()`, `str.lower()`, `str.endswith`, the
    `int()` and `float()` literal parsers, and decimal rendering of integers. */
module Text {
  import opened Common

  /** The characters Python's `str.split()` and `str.strip()` treat as whitespace. */
  predicate IsSpace(c: char)
  {
    var k := c as int;
    (9 <= k <= 13) || (28 <= k <= 32) || k == 0x85 || k == 0xA0 || k == 0x1680
    || (0x2000 <= k <= 0x200A) || k == 0x2028 || k == 0x2029 || k == 0x202F
    || k == 0x205F || k == 0x3000
  }

  /** A token of `str.split()`: non-empty, no whitespace in it. */
  predicate IsWord(t: string)
  {
    t != [] && forall k :: 0 <= k < |t| ==> !IsSpace(t[k])
  }

  /** The length of the leading run of non-space characters. */
  function WordLength(s: string): (n: nat)
    ensures n <= |s|
    ensures forall k :: 0 <= k < n ==> !IsSpace(s[k])
    ensures n < |s| ==> IsSpace(s[n])
  {
    if s == [] || IsSpace(s[0]) then 0 else 1 + WordLength(s[1..])
  }

  /** `s.split()`: the maximal runs of non-whitespace characters, in order. */
  function Tokens(s: string): (ts: seq<string>)
    ensures forall k :: 0 <= k < |ts| ==> IsWord(ts[k])
    decreases |s|
  {
    if s == [] then []
    else if IsSpace(s[0]) then Tokens(s[1..])
    else
      var n := WordLength(s);
      [s[..n]] + Tokens(s[n..])
  }

  /** Words separated by single spaces: `" ".join(ws)`. */
  function JoinSpaced(ws: seq<string>): string
  {
    JoinOn(ws, ' ')
  }

  lemma {:induction false} WordLengthOfWord(w: string, rest: string)
    requires IsWord(w)
    requires rest == [] || IsSpace(rest[0])
    ensures WordLength(w + rest) == |w|
    decreases |w|
  {
    if |w| > 1 {
      assert (w + rest)[1..] == w[1..] + rest;
      WordLengthOfWord(w[1..], rest);
    } else {
      assert (w + rest)[1..] == rest;
    }
  }

  /** A word followed by whitespace or nothing is the first token. */
  lemma TokensOfWord(w: string, rest: string)
    requires IsWord(w)
    requires rest == [] || IsSpace(rest[0])
    ensures Tokens(w + rest) == [w] + Tokens(rest)
  {
    var s := w + rest;
    WordLengthOfWord(w, rest);
    assert s[..|w|] == w;
    assert s[|w|..] == rest;
  }

  /** `split()` recovers the words of a space-joined list: tokens are exactly
      the whitespace-free pieces between runs of whitespace. */
  lemma {:induction false} TokensOfJoin(ws: seq<string>)
    requires forall k :: 0 <= k < |ws| ==> IsWord(ws[k])
    ensures Tokens(JoinSpaced(ws)) == ws
  {
    if |ws| == 1 {
      TokensOfWord(ws[0], []);
      assert ws[0] + [] == ws[0];
    } else if |ws| > 1 {
      var tail := " " + JoinSpaced(ws[1..]);
      assert JoinSpaced(ws) == ws[0] + tail;
      TokensOfWord(ws[0], tail);
      assert tail[1..] == JoinSpaced(ws[1..]);
      TokensOfJoin(ws[1..]);
      assert ws == [ws[0]] + ws[1..];
    }
  }

  /** The index of the first `sep` in `s`, or `|s|` when there is none. */
  function IndexOf(s: string, sep: char): (i: nat)
    ensures i <= |s|
    ensures i < |s| ==> s[i] == sep
    ensures forall k :: 0 <= k < i ==> s[k] != sep
  {
    if s == [] then 0 else if s[0] == sep then 0 else 1 + IndexOf(s[1..], sep)
  }

  /** `s.split(sep)` for a one-character separator: the pieces between the
      separators, empty pieces included; `"".split(sep)` is `[""]`. */
  function SplitOn(s: string, sep: char): (parts: seq<string>)
    ensures |parts| >= 1
    ensures forall k :: 0 <= k < |parts| ==> sep !in parts[k]
    decreases |s|
  {
    var i := IndexOf(s, sep);
    if i == |s| then [s] else [s[..i]] + SplitOn(s[i + 1..], sep)
  }

  /** `sep.join(parts)`. */
  function JoinOn(parts: seq<string>, sep: char): string
  {
    if parts == [] then [] else if |parts| == 1 then parts[0] else parts[0] + [sep] + JoinOn(parts[1..], sep)
  }

  lemma JoinOnCons(p: string, rest: seq<string>, sep: char)
    requires rest != []
    ensures JoinOn([p] + rest, sep) == p + [sep] + JoinOn(rest, sep)
  {
    assert ([p] + rest)[1..] == rest;
  }

  /** Joining the pieces with the separator gives the original text back. */
  lemma {:induction false} JoinSplit(s: string, sep: char)
    ensures JoinOn(SplitOn(s, sep), sep) == s
    decreases |s|
  {
    var i := IndexOf(s, sep);
    if i < |s| {
      var rest := SplitOn(s[i + 1..], sep);
      assert SplitOn(s, sep) == [s[..i]] + rest;
      JoinSplit(s[i + 1..], sep);
      JoinOnCons(s[..i], rest, sep);
      assert s == s[..i] + [sep] + s[i + 1..];
    }
  }

  lemma IndexOfJoined(a: string, sep: char, b: string)
    requires sep !in a
    ensures IndexOf(a + [sep] + b, sep) == |a|
  {
    var s := a + [sep] + b;
    assert s[|a|] == sep;
  }

  /** Splitting a join of separator-free pieces gives the pieces back. */
  lemma {:induction false} SplitJoin(parts: seq<string>, sep: char)
    requires |parts| >= 1
    requires forall k :: 0 <= k < |parts| ==> sep !in parts[k]
    ensures SplitOn(JoinOn(parts, sep), sep) == parts
    decreases |parts|
  {
    if |parts| > 1 {
      var rest := JoinOn(parts[1..], sep);
      var s := parts[0] + [sep] + rest;
      assert JoinOn(parts, sep) == s;
      IndexOfJoined(parts[0], sep, rest);
      assert s[..|parts[0]|] == parts[0];
      assert s[|parts[0]| + 1..] == rest;
      SplitJoin(parts[1..], sep);
      assert parts == [parts[0]] + parts[1..];
    }
  }

  /** A join starts with the first piece's first character and ends with
      the last piece's last character. */
  lemma JoinOnEnds(parts: seq<string>, sep: char)
    requires |parts| >= 1 && parts[0] != [] && parts[|parts| - 1] != []
    ensures JoinOn(parts, sep) != []
    ensures JoinOn(parts, sep)[0] == parts[0][0]
    ensures JoinOn(parts, sep)[|JoinOn(parts, sep)| - 1] == parts[|parts| - 1][|parts[|parts| - 1]| - 1]
  {
    JoinOnLast(parts, sep);
  }

  lemma {:induction false} JoinOnLast(parts: seq<string>, sep: char)
    requires |parts| >= 1 && parts[|parts| - 1] != []
    ensures JoinOn(parts, sep) != []
    ensures JoinOn(parts, sep)[|JoinOn(parts, sep)| - 1] == parts[|parts| - 1][|parts[|parts| - 1]| - 1]
    decreases |parts|
  {
    if |parts| > 1 {
      var rest := parts[1..];
      assert rest[|rest| - 1] == parts[|parts| - 1];
      JoinOnLast(rest, sep);
    }
  }

  /** Every character of a join is the separator or a character of a piece. */
  lemma {:induction false} JoinOnChars(parts: seq<string>, sep: char, c: char)
    requires c in JoinOn(parts, sep)
    ensures c == sep || exists k :: 0 <= k < |parts| && c in parts[k]
    decreases |parts|
  {
    if |parts| > 1 {
      if c !in parts[0] && c != sep {
        JoinOnChars(parts[1..], sep, c);
        var k :| 0 <= k < |parts[1..]| && c in parts[1..][k];
        assert c in parts[k + 1];
      }
    }
  }

  /** `strip()` leaves a text alone that neither starts nor ends with
      whitespace. */
  lemma StripNoop(s: string)
    requires s == [] || (!IsSpace(s[0]) && !IsSpace(s[|s| - 1]))
    ensures Strip(s) == s
  {
  }

  /** The length of the leading run of whitespace. */
  function LeadingSpaces(s: string): (n: nat)
    ensures n <= |s|
    ensures forall k :: 0 <= k < n ==> IsSpace(s[k])
    ensures n < |s| ==> !IsSpace(s[n])
  {
    if s != [] && IsSpace(s[0]) then 1 + LeadingSpaces(s[1..]) else 0
  }

  /** The length of the trailing run of whitespace. */
  function TrailingSpaces(s: string): (n: nat)
    ensures n <= |s|
    ensures forall k :: |s| - n <= k < |s| ==> IsSpace(s[k])
    ensures n < |s| ==> !IsSpace(s[|s| - n - 1])
  {
    if s != [] && IsSpace(s[|s| - 1]) then 1 + TrailingSpaces(s[..|s| - 1]) else 0
  }

  /** `s.strip()`: `s` without its leading and trailing whitespace; empty
      exactly when `s` is all whitespace. */
  function Strip(s: string): (r: string)
    ensures r == [] || (!IsSpace(r[0]) && !IsSpace(r[|r| - 1]))
    ensures r == [] <==> forall k :: 0 <= k < |s| ==> IsSpace(s[k])
  {
    var l := s[LeadingSpaces(s)..];
    var r := l[..|l| - TrailingSpaces(l)];
    StripEmpty(s, l, r);
    r
  }

  lemma StripEmpty(s: string, l: string, r: string)
    requires l == s[LeadingSpaces(s)..] && r == l[..|l| - TrailingSpaces(l)]
    ensures r == [] || (!IsSpace(r[0]) && !IsSpace(r[|r| - 1]))
    ensures r == [] <==> forall k :: 0 <= k < |s| ==> IsSpace(s[k])
  {
    var n := LeadingSpaces(s);
    if r == [] {
      assert n == |s|;
    } else {
      assert r[0] == l[0] == s[n];
    }
  }

  // ---------------------------------------------------------------------
  // Case folding and suffixes (ASCII letters only)

  function LowerChar(c: char): char
  {
    if 'A' <= c <= 'Z' then (c as int + 32) as char else c
  }

  /** `s.lower()` on ASCII letters. */
  function Lower(s: string): (r: string)
    ensures |r| == |s|
    ensures forall k :: 0 <= k < |s| ==> r[k] == LowerChar(s[k])
  {
    seq(|s|, k requires 0 <= k < |s| => LowerChar(s[k]))
  }

  predicate EndsWith(s: string, suffix: string)
  {
    |suffix| <= |s| && s[|s| - |suffix|..] == suffix
  }

  // ---------------------------------------------------------------------
  // Decimal literals

  predicate IsDigit(c: char)
  {
    '0' <= c <= '9'
  }

  predicate AllDigits(s: string)
  {
    forall k :: 0 <= k < |s| ==> IsDigit(s[k])
  }

  /** The value of a string of decimal digits (0 for the empty string), or
      `None` when a character is not a digit. */
  function Digits(s: string): Option<nat>
  {
    if s == [] then Some(0)
    else if !IsDigit(s[|s| - 1]) then None
    else
      match Digits(s[..|s| - 1])
      case None => None
      case Some(v) => Some(v * 10 + (s[|s| - 1] as int - '0' as int))
  }

  /** `Digits` reads exactly the strings of digits. */
  lemma {:induction false} DigitsAccepts(s: string)
    ensures Digits(s).Some? <==> AllDigits(s)
  {
    if s != [] {
      var p := s[..|s| - 1];
      DigitsAccepts(p);
      assert forall k :: 0 <= k < |p| ==> p[k] == s[k];
    }
  }

  function DigitChar(d: nat): (c: char)
    requires d < 10
    ensures IsDigit(c) && c as int - '0' as int == d
  {
    ('0' as int + d) as char
  }

  /** The decimal digits of a natural number, no leading zeros. */
  function NatToString(n: nat): (s: string)
    ensures s != [] && AllDigits(s)
  {
    if n < 10 then [DigitChar(n)] else NatToString(n / 10) + [DigitChar(n % 10)]
  }

  /** `str(n)` for an integer: a word of digits, after a minus sign when n is
      negative, that ends in a digit. */
  function IntToString(n: int): (s: string)
    ensures IsWord(s)
    ensures forall k :: 0 <= k < |s| ==> IsDigit(s[k]) || s[k] == '-'
    ensures IsDigit(s[|s| - 1])
  {
    if n < 0 then "-" + NatToString(-n) else NatToString(n)
  }

  lemma {:induction false} NatToStringValue(n: nat)
    ensures Digits(NatToString(n)) == Some(n)
  {
    var s := NatToString(n);
    if n >= 10 {
      assert s[..|s| - 1] == NatToString(n / 10);
      NatToStringValue(n / 10);
    } else {
      assert s[..|s| - 1] == [];
    }
  }

  /** Splits an optional leading sign off a literal: (is negative, the rest). */
  function SplitSign(t: string): (bool, string)
  {
    if t != [] && (t[0] == '-' || t[0] == '+') then (t[0] == '-', t[1..]) else (false, t)
  }

  /** Python's `int(t)` on a token: an optional sign and at least one digit;
      `None` is the `ValueError` it raises otherwise. */
  function ParseInt(t: string): Option<int>
  {
    var (neg, body) := SplitSign(t);
    if body == [] then None
    else
      match Digits(body)
      case None => None
      case Some(v) => Some(if neg then -(v as int) else v as int)
  }

  /** `int()` accepts exactly an optional sign followed by at least one
      digit. */
  lemma ParseIntAccepts(t: string)
    ensures ParseInt(t).Some? <==> (SplitSign(t).1 != [] && AllDigits(SplitSign(t).1))
  {
    DigitsAccepts(SplitSign(t).1);
  }

  /** `int(str(n)) == n`: what `str` prints, `int` reads back. */
  lemma IntRoundTrip(n: int)
    ensures ParseInt(IntToString(n)) == Some(n)
  {
    if n < 0 {
      var s := IntToString(n);
      assert s[0] == '-' && s[1..] == NatToString(-n);
      NatToStringValue(-n);
    } else {
      var s := NatToString(n);
      assert IsDigit(s[0]);
      NatToStringValue(n);
    }
  }

  function Pow10(k: nat): (p: nat)
    ensures p >= 1
  {
    if k == 0 then 1 else 10 * Pow10(k - 1)
  }

  /** Python's `float(t)` on a token written as an optional sign, digits and at
      most one decimal point, with at least one digit; the value is exact. */
  function ParseReal(t: string): Option<real>
  {
    var (neg, body) := SplitSign(t);
    var dot := IndexOf(body, '.');
    var whole, frac := body[..dot], if dot < |body| then body[dot + 1..] else [];
    if |whole| + |frac| == 0 then None
    else
      match (Digits(whole), Digits(frac))
      case (Some(w), Some(f)) =>
        var v := w as real + f as real / Pow10(|frac|) as real;
        Some(if neg then -v else v)
      case _ => None
  }

  /** Every literal `int()` accepts, `float()` accepts with the same value. */
  lemma ParseIntThenReal(t: string)
    requires ParseInt(t).Some?
    ensures ParseReal(t) == Some(ParseInt(t).value as real)
  {
    var body := SplitSign(t).1;
    DigitsAccepts(body);
    var dot := IndexOf(body, '.');
    assert dot == |body|;
    assert body[..dot] == body;
  }
}
