/** Decimal text: rendering an integer the way `printf("%d")` does and reading
    one back the way `strtol(s, &end, 10)` does (section 7.22.1.4 of ISO C11).
    Integers are unbounded here, so the `long` range and `ERANGE` do not arise. */
module Decimal {

  predicate IsDigit(c: char) {
    '0' <= c <= '9'
  }

  /** The characters `isspace` accepts in the "C" locale. */
  predicate IsSpace(c: char) {
    c == ' ' || c == '\t' || c == '\n' || c == '\U{0B}' || c == '\U{0C}' || c == '\r'
  }

  predicate AllDigits(s: string) {
    forall i | 0 <= i < |s| :: IsDigit(s[i])
  }

  function DigitValue(c: char): (d: nat)
    requires IsDigit(c)
    ensures d < 10
  {
    (c as int) - ('0' as int)
  }

  function DigitChar(d: nat): (c: char)
    requires d < 10
    ensures IsDigit(c) && DigitValue(c) == d
  {
    (('0' as int) + d) as char
  }

  /** The number a string of decimal digits denotes, most significant digit first. */
  function Value(ds: string): nat
    requires AllDigits(ds)
  {
    if |ds| == 0 then 0 else 10 * Value(ds[..|ds| - 1]) + DigitValue(ds[|ds| - 1])
  }

  /** Shortest decimal rendering of a natural number. */
  function NatToString(n: nat): (s: string)
    ensures |s| > 0 && AllDigits(s)
    ensures |s| > 1 ==> s[0] != '0'
  {
    if n < 10 then [DigitChar(n)] else NatToString(n / 10) + [DigitChar(n % 10)]
  }

  /** `%d`: a minus sign for negative values, then the digits of the magnitude. */
  function IntToString(n: int): (s: string)
    ensures |s| > 0 && IsDigit(s[|s| - 1])
    ensures forall i | 0 <= i < |s| :: IsDigit(s[i]) || (i == 0 && s[i] == '-')
    ensures s[0] == '-' <==> n < 0
    ensures var ds := if n < 0 then s[1..] else s;
      |ds| > 0 && (|ds| > 1 ==> ds[0] != '0')
  {
    if n < 0 then
      assert ("-" + NatToString(-n))[1..] == NatToString(-n);
      "-" + NatToString(-n)
    else NatToString(n)
  }

  /** Number of leading characters of `s` that satisfy `isspace`. */
  function SpacePrefix(s: string): (k: nat)
    ensures k <= |s|
    ensures forall i | 0 <= i < k :: IsSpace(s[i])
    ensures k < |s| ==> !IsSpace(s[k])
  {
    if |s| > 0 && IsSpace(s[0]) then 1 + SpacePrefix(s[1..]) else 0
  }

  /** Number of leading characters of `s` that are decimal digits. */
  function DigitPrefix(s: string): (k: nat)
    ensures k <= |s|
    ensures AllDigits(s[..k])
    ensures k < |s| ==> !IsDigit(s[k])
  {
    if |s| > 0 && IsDigit(s[0]) then 1 + DigitPrefix(s[1..]) else 0
  }

  /** `strtol(s, &end, 10)`: skip white space, accept one optional sign, then the
      longest run of digits; whatever follows is ignored, and a string with no
      digits in that position converts to 0. */
  function Strtol(s: string): (v: int)
    ensures (forall i | 0 <= i < |s| :: !IsDigit(s[i])) ==> v == 0
    ensures v < 0 ==> exists i | 0 <= i < |s| :: s[i] == '-'
  {
    var t := s[SpacePrefix(s)..];
    var negative := |t| > 0 && t[0] == '-';
    var u := if |t| > 0 && (t[0] == '-' || t[0] == '+') then t[1..] else t;
    var magnitude: int := Value(u[..DigitPrefix(u)]);
    if negative then -magnitude else magnitude
  }

  /** `Strtol` applied to every token, in order. */
  function ParseAll(tokens: seq<string>): (ns: seq<int>)
    ensures |ns| == |tokens|
    ensures forall i | 0 <= i < |ns| :: ns[i] == Strtol(tokens[i])
  {
    if |tokens| == 0 then [] else [Strtol(tokens[0])] + ParseAll(tokens[1..])
  }

  /** `IntToString` applied to every value, in order. */
  function Renders(ns: seq<int>): (ts: seq<string>)
    ensures |ts| == |ns|
    ensures forall i | 0 <= i < |ts| :: ts[i] == IntToString(ns[i])
  {
    if |ns| == 0 then [] else [IntToString(ns[0])] + Renders(ns[1..])
  }

  lemma {:induction false} ValueOfNatToString(n: nat)
    ensures Value(NatToString(n)) == n
  {
    if n >= 10 {
      var s := NatToString(n);
      assert s[..|s| - 1] == NatToString(n / 10);
      ValueOfNatToString(n / 10);
    }
  }

  lemma {:induction false} DigitPrefixOfDigits(ds: string, rest: string)
    requires AllDigits(ds)
    requires rest == [] || !IsDigit(rest[0])
    ensures DigitPrefix(ds + rest) == |ds|
  {
    if |ds| > 0 {
      assert (ds + rest)[1..] == ds[1..] + rest;
      DigitPrefixOfDigits(ds[1..], rest);
    }
  }

  /** Reading back what `%d` printed gives the number again, whatever non-digit
      text follows it. */
  lemma StrtolRoundTrip(n: int, rest: string)
    requires rest == [] || !IsDigit(rest[0])
    ensures Strtol(IntToString(n) + rest) == n
  {
    var m: nat := if n < 0 then -n else n;
    var ds := NatToString(m);
    var s := IntToString(n) + rest;
    assert SpacePrefix(s) == 0;
    var u := ds + rest;
    if n < 0 {
      assert s == "-" + u;
      assert s[1..] == u;
    } else {
      assert s == u;
    }
    DigitPrefixOfDigits(ds, rest);
    assert u[..|ds|] == ds;
    ValueOfNatToString(m);
  }

  /** A token whose first character is neither white space, a sign nor a digit
      converts to 0 (no conversion is performed). */
  lemma StrtolNoLeadingNumber(s: string)
    requires |s| > 0 && !IsSpace(s[0]) && !IsDigit(s[0]) && s[0] != '-' && s[0] != '+'
    ensures Strtol(s) == 0
  {
    assert "" + "" + "" + s == s;
    StrtolReads("", "", "", s);
  }

  /** What `strtol` reads from a token: white space, at most one sign, then
      the digits up to the first non-digit. A sign followed by no digit, or
      nothing number-like at all, reads as 0. */
  lemma StrtolReads(ws: string, sign: string, ds: string, rest: string)
    requires forall i | 0 <= i < |ws| :: IsSpace(ws[i])
    requires sign == "" || sign == "+" || sign == "-"
    requires AllDigits(ds)
    requires rest == [] || !IsDigit(rest[0])
    requires sign == "" && ds == [] && rest != [] ==> !IsSpace(rest[0]) && rest[0] != '+' && rest[0] != '-'
    ensures Strtol(ws + sign + ds + rest) == if sign == "-" then -(Value(ds) as int) else Value(ds)
  {
    var t := sign + ds + rest;
    assert ws + sign + ds + rest == ws + t;
    StrtolAfterSpaces(ws, t);
    StrtolSigned(sign, ds, rest);
  }

  /** Leading white space is skipped. */
  lemma StrtolAfterSpaces(ws: string, t: string)
    requires forall i | 0 <= i < |ws| :: IsSpace(ws[i])
    requires t == [] || !IsSpace(t[0])
    ensures Strtol(ws + t) == Strtol(t)
  {
    SpacePrefixOfSpaces(ws, t);
    assert (ws + t)[|ws|..] == t;
    assert SpacePrefix(t) == 0;
    assert t[0..] == t;
  }

  lemma StrtolSigned(sign: string, ds: string, rest: string)
    requires sign == "" || sign == "+" || sign == "-"
    requires AllDigits(ds)
    requires rest == [] || !IsDigit(rest[0])
    requires sign == "" && ds == [] && rest != [] ==> !IsSpace(rest[0]) && rest[0] != '+' && rest[0] != '-'
    ensures Strtol(sign + ds + rest) == if sign == "-" then -(Value(ds) as int) else Value(ds)
  {
    if sign == "" {
      assert sign + ds + rest == ds + rest;
      StrtolUnsigned(ds, rest);
    } else {
      var c := sign[0];
      assert sign == [c];
      StrtolAfterSign(c, ds, rest);
    }
  }

  /** Without white space or a sign in front, the leading digits are the value. */
  lemma StrtolUnsigned(ds: string, rest: string)
    requires AllDigits(ds)
    requires rest == [] || !IsDigit(rest[0])
    requires ds == [] && rest != [] ==> !IsSpace(rest[0]) && rest[0] != '+' && rest[0] != '-'
    ensures Strtol(ds + rest) == Value(ds)
  {
    var u := ds + rest;
    DigitPrefixOfDigits(ds, rest);
    assert u[..|ds|] == ds;
    assert SpacePrefix(u) == 0;
    assert u[0..] == u;
  }

  /** One sign in front: '-' negates the digits that follow, '+' keeps them. */
  lemma StrtolAfterSign(c: char, ds: string, rest: string)
    requires c == '+' || c == '-'
    requires AllDigits(ds)
    requires rest == [] || !IsDigit(rest[0])
    ensures Strtol([c] + ds + rest) == if c == '-' then -(Value(ds) as int) else Value(ds)
  {
    var u := ds + rest;
    var s := [c] + u;
    assert [c] + ds + rest == s;
    assert SpacePrefix(s) == 0;
    assert s[1..] == u;
    DigitPrefixOfDigits(ds, rest);
    assert u[..|ds|] == ds;
  }

  lemma {:induction false} SpacePrefixOfSpaces(ws: string, t: string)
    requires forall i | 0 <= i < |ws| :: IsSpace(ws[i])
    requires t == [] || !IsSpace(t[0])
    ensures SpacePrefix(ws + t) == |ws|
  {
    if |ws| > 0 {
      assert (ws + t)[1..] == ws[1..] + t;
      SpacePrefixOfSpaces(ws[1..], t);
    } else {
      assert ws + t == t;
    }
  }

  lemma {:induction false} ParseAllRenders(ns: seq<int>)
    ensures ParseAll(Renders(ns)) == ns
  {
    if |ns| > 0 {
      StrtolRoundTrip(ns[0], []);
      assert IntToString(ns[0]) + [] == IntToString(ns[0]);
      assert Renders(ns)[1..] == Renders(ns[1..]);
      ParseAllRenders(ns[1..]);
    }
  }
}
