/** The JavaScript string and number built-ins the parser calls (`indexOf`, `substr`,
    `toLowerCase`, `parseInt`), on Dafny strings. */
module JsString {
  import opened Wrappers

  /** `d` occurs in `s` starting at index `i`. */
  predicate OccursAt(s: string, d: string, i: int)
  {
    0 <= i && i + |d| <= |s| && s[i..i + |d|] == d
  }

  /** `s.indexOf(d, from)` for `from` within `s`: the first index at or after `from` where `d`
      occurs, or -1. */
  function IndexFrom(s: string, d: string, from: nat): (r: int)
    requires from <= |s|
    ensures r == -1 || (from <= r && OccursAt(s, d, r))
    ensures forall i :: from <= i && (r == -1 || i < r) ==> !OccursAt(s, d, i)
    decreases |s| - from
  {
    if from + |d| > |s| then -1
    else if s[from..from + |d|] == d then from
    else IndexFrom(s, d, from + 1)
  }

  /** `s.indexOf(d)`: the first index where `d` occurs in `s`, or -1 when it does not occur. */
  function IndexOf(s: string, d: string): (r: int)
    ensures r == -1 <==> forall i :: !OccursAt(s, d, i)
    ensures r != -1 ==> OccursAt(s, d, r) && forall i :: 0 <= i < r ==> !OccursAt(s, d, i)
  {
    IndexFrom(s, d, 0)
  }

  /** For a one-character needle, an occurrence is just that character. */
  lemma OccursAtChar(s: string, c: char, i: int)
    ensures OccursAt(s, [c], i) <==> 0 <= i < |s| && s[i] == c
  {
    if 0 <= i < |s| {
      assert s[i..i + 1] == [s[i]];
    }
  }

  /** `s.indexOf(c)` for a one-character needle `c`: the first index holding `c`, or -1. */
  function IndexOfChar(s: string, c: char): (r: int)
    ensures r == -1 <==> c !in s
    ensures r != -1 ==> 0 <= r < |s| && s[r] == c && c !in s[..r]
  {
    if s == [] then -1
    else if s[0] == c then 0
    else
      var k := IndexOfChar(s[1..], c);
      assert s == [s[0]] + s[1..];
      if k == -1 then -1
      else
        assert s[..k + 1] == [s[0]] + s[1..][..k];
        k + 1
  }

  /** The one-character search is the general search with a one-character needle. */
  lemma IndexOfCharAgrees(s: string, c: char)
    ensures IndexOfChar(s, c) == IndexOf(s, [c])
  {
    var r := IndexOf(s, [c]);
    var k := IndexOfChar(s, c);
    if r == -1 {
      forall i | 0 <= i < |s| ensures s[i] != c {
        OccursAtChar(s, c, i);
      }
    } else {
      OccursAtChar(s, c, r);
      forall i | 0 <= i < r ensures s[i] != c {
        OccursAtChar(s, c, i);
      }
      if k != -1 {
        assert forall i :: 0 <= i < k ==> s[..k][i] == s[i];
      }
    }
  }

  /** `s.substr(start)` for a non-negative start: the text from `start` on, empty past the end. */
  function Substr(s: string, start: nat): (r: string)
    ensures |r| == if start <= |s| then |s| - start else 0
    ensures forall i :: 0 <= i < |r| ==> r[i] == s[start + i]
  {
    if start <= |s| then s[start..] else ""
  }

  /** `toLowerCase` on one character; letters outside A-Z are left as they are. */
  function LowerChar(c: char): char
  {
    if 'A' <= c <= 'Z' then (c as int + 32) as char else c
  }

  /** `toLowerCase`: the same length, no capital ASCII letter left, and each character either kept
      or a capital replaced by its lower-case letter. */
  function ToLowerCase(s: string): (r: string)
    ensures |r| == |s|
    ensures forall i :: 0 <= i < |r| ==> !('A' <= r[i] <= 'Z')
    ensures forall i :: 0 <= i < |r| ==> r[i] == s[i] || ('A' <= s[i] <= 'Z' && r[i] as int == s[i] as int + 32)
  {
    seq(|s|, i requires 0 <= i < |s| => LowerChar(s[i]))
  }

  /** The white space and line terminators that `parseInt` skips before the number:
      TAB, VT, FF, SP, NBSP, ZWNBSP, LF, CR, LS, PS and the other space separators. */
  predicate IsWhitespace(c: char)
  {
    || c == '\t' || c == '\U{000B}' || c == '\U{000C}' || c == ' ' || c == '\U{00A0}' || c == '\U{FEFF}'
    || c == '\n' || c == '\r' || c == '\U{2028}' || c == '\U{2029}'
    || c == '\U{1680}' || ('\U{2000}' <= c <= '\U{200A}') || c == '\U{202F}' || c == '\U{205F}' || c == '\U{3000}'
  }

  predicate IsDigit(c: char)
  {
    '0' <= c <= '9'
  }

  predicate AllDigits(s: string)
  {
    forall i :: 0 <= i < |s| ==> IsDigit(s[i])
  }

  /** `s` without its leading white space. */
  function TrimStart(s: string): (r: string)
    ensures |r| <= |s| && r == s[|s| - |r|..]
    ensures forall i :: 0 <= i < |s| - |r| ==> IsWhitespace(s[i])
    ensures r == [] || !IsWhitespace(r[0])
  {
    if s != [] && IsWhitespace(s[0]) then TrimStart(s[1..]) else s
  }

  /** The longest prefix of `s` made of decimal digits. */
  function DigitPrefix(s: string): (r: string)
    ensures |r| <= |s| && r == s[..|r|]
    ensures AllDigits(r)
    ensures |r| == |s| || !IsDigit(s[|r|])
  {
    if s != [] && IsDigit(s[0]) then [s[0]] + DigitPrefix(s[1..]) else []
  }

  /** The number a string of decimal digits denotes, most significant digit first. */
  function DecimalValue(z: string): nat
    requires AllDigits(z)
  {
    if z == [] then 0 else DecimalValue(z[..|z| - 1]) * 10 + (z[|z| - 1] as int - '0' as int)
  }

  /** `parseInt(s, 10)`: skip leading white space, take an optional sign, then the longest run of
      decimal digits; `None` stands for NaN, the result when there is no digit at that point. */
  function ParseInt(s: string): Option<int>
  {
    ParseSigned(TrimStart(s))
  }

  /** The sign and digits step of `parseInt(t, 10)`, on text that no longer starts with white space. */
  function ParseSigned(t: string): Option<int>
  {
    if t != [] && t[0] == '-' then
      match ParseDigits(t[1..])
      case None => None
      case Some(v) => Some(-v)
    else if t != [] && t[0] == '+' then ParseDigits(t[1..])
    else ParseDigits(t)
  }

  /** The digits step of `parseInt(u, 10)`: the value of the leading digits, `None` when there is none. */
  function ParseDigits(u: string): Option<int>
  {
    var z := DigitPrefix(u);
    if z == [] then None else Some(DecimalValue(z))
  }

  // A reference rendering of integers in base 10, the inverse that ParseInt is checked against.

  function DigitChar(d: nat): char
    requires d < 10
  {
    ('0' as int + d) as char
  }

  /** The canonical decimal digits of `m`: no leading zero, "0" for zero. */
  function DecimalDigits(m: nat): string
    decreases m
  {
    if m < 10 then [DigitChar(m)] else DecimalDigits(m / 10) + [DigitChar(m % 10)]
  }

  /** How JavaScript writes an integer: a minus sign for negative values, then its digits. */
  function ToDecimal(n: int): string
  {
    if n < 0 then "-" + DecimalDigits(-n) else DecimalDigits(n)
  }

  /** The digits of `m` are digits, start with a digit and denote `m`. */
  lemma {:induction false} DecimalDigitsValue(m: nat)
    ensures DecimalDigits(m) != [] && AllDigits(DecimalDigits(m))
    ensures DecimalValue(DecimalDigits(m)) == m
    decreases m
  {
    var z := DecimalDigits(m);
    if m >= 10 {
      DecimalDigitsValue(m / 10);
      var p := DecimalDigits(m / 10);
      assert z == p + [DigitChar(m % 10)];
      assert z[..|z| - 1] == p;
    }
  }

  /** Stripping white space from text that does not start with white space changes nothing,
      whatever white space is put in front of it. */
  lemma {:induction false} TrimStartAfterWhitespace(ws: string, t: string)
    requires forall i :: 0 <= i < |ws| ==> IsWhitespace(ws[i])
    requires t == [] || !IsWhitespace(t[0])
    ensures TrimStart(ws + t) == t
    decreases |ws|
  {
    if ws != [] {
      assert (ws + t)[1..] == ws[1..] + t;
      TrimStartAfterWhitespace(ws[1..], t);
    } else {
      assert ws + t == t;
    }
  }

  /** The digit prefix of digits followed by text that does not start with a digit is those digits. */
  lemma DigitPrefixOfDigits(z: string, tail: string)
    requires AllDigits(z)
    requires tail == [] || !IsDigit(tail[0])
    ensures DigitPrefix(z + tail) == z
  {
    assert (z + tail)[..|z|] == z;
  }

  /** Leading white space does not change what parseInt reads. */
  lemma ParseIntSkipsWhitespace(ws: string, t: string)
    requires forall i :: 0 <= i < |ws| ==> IsWhitespace(ws[i])
    requires t == [] || !IsWhitespace(t[0])
    ensures ParseInt(ws + t) == ParseSigned(t)
  {
    TrimStartAfterWhitespace(ws, t);
  }

  /** Text that does not start with white space goes straight to the sign and digits step. */
  lemma ParseIntUntrimmed(t: string)
    requires t == [] || !IsWhitespace(t[0])
    ensures ParseInt(t) == ParseSigned(t)
  {
    assert "" + t == t;
    ParseIntSkipsWhitespace("", t);
  }

  /** After a minus sign, parseInt reads the digits and negates them. */
  lemma ParseSignedMinus(u: string)
    ensures ParseSigned("-" + u) == match ParseDigits(u) case None => None case Some(v) => Some(-v)
  {
    assert ("-" + u)[0] == '-' && ("-" + u)[1..] == u;
  }

  /** After a plus sign, parseInt reads the digits as they are. */
  lemma ParseSignedPlus(u: string)
    ensures ParseSigned("+" + u) == ParseDigits(u)
  {
    assert ("+" + u)[0] == '+' && ("+" + u)[1..] == u;
  }

  /** Text that starts with a digit has no sign to read. */
  lemma ParseSignedDigit(t: string)
    requires t != [] && IsDigit(t[0])
    ensures ParseSigned(t) == ParseDigits(t)
  {
  }

  /** The digits step reads a run of digits up to the first non-digit as its decimal value. */
  lemma ParseDigitsOf(z: string, tail: string)
    requires z != [] && AllDigits(z)
    requires tail == [] || !IsDigit(tail[0])
    ensures ParseDigits(z + tail) == Some(DecimalValue(z))
  {
    DigitPrefixOfDigits(z, tail);
  }

  /** parseInt reads a run of digits up to the first non-digit as its decimal value. */
  lemma ParseIntDigits(z: string, tail: string)
    requires z != [] && AllDigits(z)
    requires tail == [] || !IsDigit(tail[0])
    ensures ParseSigned(z + tail) == Some(DecimalValue(z))
    ensures ParseInt(z + tail) == Some(DecimalValue(z))
  {
    ParseDigitsOf(z, tail);
    ParseSignedDigit(z + tail);
    ParseIntUntrimmed(z + tail);
  }

  /** The sign and digits step reads a minus sign and a run of digits up to the first non-digit as the
      negated value; `ParseIntRoundTrip` carries this over to parseInt itself. */
  lemma ParseIntNegativeDigits(z: string, tail: string)
    requires z != [] && AllDigits(z)
    requires tail == [] || !IsDigit(tail[0])
    ensures ParseSigned("-" + z + tail) == Some(-(DecimalValue(z) as int))
  {
    ParseDigitsOf(z, tail);
    assert "-" + z + tail == "-" + (z + tail);
    ParseSignedMinus(z + tail);
  }

  /** The sign and digits step reads a plus sign and a run of digits up to the first non-digit as
      the value of the digits: the sign is dropped. */
  lemma ParseIntPlusDigits(z: string, tail: string)
    requires z != [] && AllDigits(z)
    requires tail == [] || !IsDigit(tail[0])
    ensures ParseSigned("+" + z + tail) == Some(DecimalValue(z))
  {
    ParseDigitsOf(z, tail);
    assert "+" + z + tail == "+" + (z + tail);
    ParseSignedPlus(z + tail);
  }

  /** parseInt reads back every integer written in base 10, after any leading white space and
      before any text that does not continue the number. */
  lemma ParseIntRoundTrip(ws: string, n: int, tail: string)
    requires forall i :: 0 <= i < |ws| ==> IsWhitespace(ws[i])
    requires tail == [] || !IsDigit(tail[0])
    ensures ParseInt(ws + ToDecimal(n) + tail) == Some(n)
  {
    var m: nat := if n < 0 then -n else n;
    var z := DecimalDigits(m);
    DecimalDigitsValue(m);
    var t := ToDecimal(n) + tail;
    assert ParseSigned(t) == Some(n) && !IsWhitespace(t[0]) by {
      if n < 0 {
        ParseIntNegativeDigits(z, tail);
        assert t == "-" + z + tail;
      } else {
        ParseIntDigits(z, tail);
        assert t == z + tail;
      }
    }
    assert ws + ToDecimal(n) + tail == ws + t;
    ParseIntSkipsWhitespace(ws, t);
  }

  /** parseInt gives NaN exactly when no digit follows the leading white space and the optional sign. */
  lemma ParseIntNaN(s: string)
    ensures ParseInt(s) == None <==>
              var t := TrimStart(s);
              var k := if t != [] && (t[0] == '-' || t[0] == '+') then 1 else 0;
              k == |t| || !IsDigit(t[k])
  {
  }
}
