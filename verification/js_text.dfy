/** The few JavaScript string built-ins that lib/request.js relies on:
    `toLowerCase`, `toUpperCase` (restricted to ASCII), `String(n)` for an
    integer and the global `parseInt` with no radix argument. */
module JsText {
  import opened Wrappers

  function LowerChar(c: char): char {
    if 'A' <= c <= 'Z' then (c as int + 32) as char else c
  }

  function UpperChar(c: char): char {
    if 'a' <= c <= 'z' then (c as int - 32) as char else c
  }

  /** `s.toLowerCase()` on ASCII letters: no upper-case ASCII letter is
      left, and every other character is kept. */
  function Lower(s: string): (r: string)
    ensures |r| == |s|
    ensures forall i :: 0 <= i < |r| ==> !('A' <= r[i] <= 'Z')
    ensures forall i :: 0 <= i < |s| && !('A' <= s[i] <= 'Z') ==> r[i] == s[i]
    ensures forall i :: 0 <= i < |s| ==> UpperChar(r[i]) == UpperChar(s[i])
  {
    seq(|s|, i requires 0 <= i < |s| => LowerChar(s[i]))
  }

  /** `s.toUpperCase()` on ASCII letters: no lower-case ASCII letter is
      left, and every other character is kept. */
  function Upper(s: string): (r: string)
    ensures |r| == |s|
    ensures forall i :: 0 <= i < |r| ==> !('a' <= r[i] <= 'z')
    ensures forall i :: 0 <= i < |s| && !('a' <= s[i] <= 'z') ==> r[i] == s[i]
    ensures forall i :: 0 <= i < |s| ==> LowerChar(r[i]) == LowerChar(s[i])
  {
    seq(|s|, i requires 0 <= i < |s| => UpperChar(s[i]))
  }

  /** Upper-casing twice is upper-casing once. */
  lemma UpperIdempotent(s: string)
    ensures Upper(Upper(s)) == Upper(s)
  {
    var u := Upper(s);
    assert forall i :: 0 <= i < |u| ==> UpperChar(u[i]) == u[i];
  }

  // ---------------------------------------------------------------------
  // Integers as decimal text

  function DigitChar(d: nat): char
    requires d < 10
  {
    ('0' as int + d) as char
  }

  /** The value of an alphanumeric character as a digit in bases up to 36;
      36 for any other character, so that it is a digit in no base. */
  function DigitValue(c: char): nat {
    if '0' <= c <= '9' then c as int - '0' as int
    else if 'a' <= c <= 'z' then c as int - 'a' as int + 10
    else if 'A' <= c <= 'Z' then c as int - 'A' as int + 10
    else 36
  }

  /** `String(n)` for a natural number: its decimal digits, most
      significant first, with no leading zero. */
  function NatText(n: nat): (s: string)
    ensures |s| >= 1
    ensures forall i :: 0 <= i < |s| ==> '0' <= s[i] <= '9'
    ensures |s| > 1 ==> s[0] != '0'
    decreases n
  {
    if n < 10 then [DigitChar(n)] else NatText(n / 10) + [DigitChar(n % 10)]
  }

  /** `String(n)` for an integer of moderate size. */
  function DecimalText(n: int): (s: string)
    ensures |s| >= 1
    ensures s[0] == '-' <==> n < 0
  {
    if n < 0 then "-" + NatText(-n) else NatText(n)
  }

  // ---------------------------------------------------------------------
  // parseInt

  /** The white space that `parseInt` skips (the ASCII ones and the
      non-ASCII ones named by ECMAScript; the Unicode space separators are
      not listed). */
  predicate IsSpace(c: char) {
    c == ' ' || c == '\t' || c == '\n' || c == '\r' || c == '\U{B}' || c == '\U{C}'
    || c == '\U{A0}' || c == '\U{FEFF}' || c == '\U{2028}' || c == '\U{2029}'
  }

  function TrimStart(s: string): (t: string)
    ensures |t| <= |s| && t == s[|s| - |t|..]
    ensures t == [] || !IsSpace(t[0])
    ensures forall i :: 0 <= i < |s| - |t| ==> IsSpace(s[i])
  {
    if s != [] && IsSpace(s[0]) then TrimStart(s[1..]) else s
  }

  /** Length of the longest prefix of `s` made of digits in base `radix`. */
  function DigitPrefixLength(s: string, radix: nat): (n: nat)
    ensures n <= |s|
    ensures forall i :: 0 <= i < n ==> DigitValue(s[i]) < radix
    ensures n < |s| ==> DigitValue(s[n]) >= radix
  {
    if s != [] && DigitValue(s[0]) < radix then 1 + DigitPrefixLength(s[1..], radix) else 0
  }

  /** The number that the digits `d` denote in base `radix`. */
  function DigitsValue(d: string, radix: nat): nat {
    if d == [] then 0 else DigitsValue(d[..|d| - 1], radix) * radix + DigitValue(d[|d| - 1])
  }

  /** The digits after the sign: an optional `0x`/`0X` selects base 16,
      then the longest run of digits is read; `None` when there is none. */
  function ParseUnsigned(u: string): (r: Option<nat>)
  {
    var hex := |u| >= 2 && u[0] == '0' && (u[1] == 'x' || u[1] == 'X');
    var radix := if hex then 16 else 10;
    var body := if hex then u[2..] else u;
    var n := DigitPrefixLength(body, radix);
    if n == 0 then None else Some(DigitsValue(body[..n], radix))
  }

  /** `parseInt(s)`: skip leading white space, read an optional sign, then
      the unsigned part; `None` stands for JavaScript's NaN. Blank text,
      and text whose first non-blank character is neither a sign nor a
      decimal digit, is NaN; only a minus sign gives a negative number. */
  function ParseInt(s: string): (r: Option<int>)
    ensures TrimStart(s) == [] ==> r.None?
    ensures (TrimStart(s) != [] && TrimStart(s)[0] != '-' && TrimStart(s)[0] != '+'
             && DigitValue(TrimStart(s)[0]) >= 10) ==> r.None?
    ensures r.Some? && r.value < 0 ==> TrimStart(s)[0] == '-'
  {
    var t := TrimStart(s);
    if t != [] && (t[0] == '-' || t[0] == '+') then
      match ParseUnsigned(t[1..])
      case None => None
      case Some(m) => Some(if t[0] == '-' then -(m as int) else m as int)
    else
      match ParseUnsigned(t)
      case None => None
      case Some(m) => Some(m)
  }

  lemma {:induction false} DigitsValueOfNatText(n: nat)
    ensures DigitsValue(NatText(n), 10) == n
    decreases n
  {
    var s := NatText(n);
    if n < 10 {
      assert s[..0] == [];
    } else {
      DigitsValueOfNatText(n / 10);
      assert s[..|s| - 1] == NatText(n / 10);
    }
  }

  lemma ParseUnsignedOfNatText(n: nat)
    ensures ParseUnsigned(NatText(n)) == Some(n)
  {
    var s := NatText(n);
    assert |s| >= 2 ==> s[1] != 'x' && s[1] != 'X';
    assert DigitPrefixLength(s, 10) == |s|;
    assert s[..|s|] == s;
    DigitsValueOfNatText(n);
  }

  /** Reading back what `String(n)` wrote gives `n`. */
  lemma ParseIntOfDecimalText(n: int)
    ensures ParseInt(DecimalText(n)) == Some(n)
  {
    var s := DecimalText(n);
    var digits := NatText(if n < 0 then -n else n);
    assert s[0] == '-' || '0' <= s[0] <= '9';
    assert !IsSpace(s[0]);
    assert TrimStart(s) == s;
    ParseUnsignedOfNatText(if n < 0 then -n else n);
    if n < 0 {
      assert s[1..] == digits;
    } else {
      assert s == digits;
    }
  }
}
