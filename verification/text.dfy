/** Strings the way the scripts use them: splitting at a separator, joining, decimal numbers. */
module Text {
  import opened Options

  // ---------------------------------------------------------------------------
  // indexOf, split and join
  // ---------------------------------------------------------------------------

  /** The first position of `c` in `s`, or |s| when there is none. */
  function IndexOf(s: string, c: char): (i: nat)
    ensures i <= |s| && c !in s[..i]
    ensures i < |s| ==> s[i] == c
    ensures i == |s| <==> c !in s
  {
    if s == "" then 0
    else if s[0] == c then 0
    else
      var i := IndexOf(s[1..], c);
      assert s[..1 + i] == [s[0]] + s[1..][..i];
      1 + i
  }

  /** The pieces between the occurrences of `c`: always at least one. */
  function Split(s: string, c: char): (parts: seq<string>)
    ensures |parts| >= 1
    decreases |s|
  {
    var i := IndexOf(s, c);
    if i == |s| then [s] else [s[..i]] + Split(s[i + 1..], c)
  }

  /** Every part followed by `c`. */
  function Terminate(parts: seq<string>, c: char): string {
    if parts == [] then "" else parts[0] + [c] + Terminate(parts[1..], c)
  }

  ghost predicate Clean(parts: seq<string>, c: char) {
    forall i :: 0 <= i < |parts| ==> c !in parts[i]
  }

  lemma {:induction false} SplitPartsAreClean(s: string, c: char)
    ensures Clean(Split(s, c), c)
    decreases |s|
  {
    var i := IndexOf(s, c);
    if i < |s| {
      SplitPartsAreClean(s[i + 1..], c);
    }
  }

  lemma IndexOfFirst(p: string, c: char, rest: string)
    requires c !in p
    ensures IndexOf(p + [c] + rest, c) == |p|
  {
    var s := p + [c] + rest;
    assert s[|p|] == c && s[..|p|] == p;
  }

  lemma SplitFirst(p: string, c: char, rest: string)
    requires c !in p
    ensures Split(p + [c] + rest, c) == [p] + Split(rest, c)
  {
    var s := p + [c] + rest;
    IndexOfFirst(p, c, rest);
    assert s[..|p|] == p && s[|p| + 1..] == rest;
  }

  lemma SplitNone(p: string, c: char)
    requires c !in p
    ensures Split(p, c) == [p]
  {
  }

  /** Splitting undoes termination; the last piece is what follows the last terminator. */
  lemma {:induction false} SplitTerminated(parts: seq<string>, c: char, rest: string)
    requires Clean(parts, c)
    ensures Split(Terminate(parts, c) + rest, c) == parts + Split(rest, c)
  {
    if parts == [] {
      assert Terminate(parts, c) + rest == rest;
    } else {
      var p, ps := parts[0], parts[1..];
      SplitTerminated(ps, c, rest);
      SplitTerminatedStep(p, Terminate(ps, c), c, rest, ps + Split(rest, c));
      Regroup(p, ps, Split(rest, c));
      assert parts == [p] + ps;
    }
  }

  lemma SplitTerminatedStep(p: string, tail: string, c: char, rest: string, pieces: seq<string>)
    requires c !in p && Split(tail + rest, c) == pieces
    ensures Split(p + [c] + tail + rest, c) == [p] + pieces
  {
    assert p + [c] + tail + rest == p + [c] + (tail + rest);
    SplitFirst(p, c, tail + rest);
  }

  lemma Regroup<T>(x: T, xs: seq<T>, ys: seq<T>)
    ensures [x] + (xs + ys) == ([x] + xs) + ys
  {
  }

  lemma {:induction false} TerminateAppend(a: seq<string>, b: seq<string>, c: char)
    ensures Terminate(a + b, c) == Terminate(a, c) + Terminate(b, c)
  {
    if a == [] {
      assert a + b == b;
    } else {
      assert (a + b)[1..] == a[1..] + b;
      TerminateAppend(a[1..], b, c);
    }
  }

  predicate StartsWith(s: string, prefix: string): (r: bool)
    ensures r ==> |prefix| <= |s|
    ensures r ==> |prefix| > 0 ==> s[0] == prefix[0]
    ensures r ==> |prefix| > 2 ==> s[2] == prefix[2]
  {
    prefix <= s
  }

  // ---------------------------------------------------------------------------
  // Decimal numbers
  // ---------------------------------------------------------------------------

  predicate IsDigit(c: char) {
    '0' <= c <= '9'
  }

  function DigitValue(c: char): (n: nat)
    requires IsDigit(c)
    ensures n < 10
  {
    c as int - '0' as int
  }

  function DigitChar(n: nat): (c: char)
    requires n < 10
    ensures IsDigit(c) && DigitValue(c) == n
  {
    '0' + n as char
  }

  /** A natural number in decimal, without leading zeros. */
  function ShowNat(n: nat): (s: string)
    ensures s != "" && forall i :: 0 <= i < |s| ==> IsDigit(s[i])
  {
    if n < 10 then [DigitChar(n)] else ShowNat(n / 10) + [DigitChar(n % 10)]
  }

  /** A number as it is printed into a template string. */
  function Show(n: int): string {
    if n < 0 then "-" + ShowNat(-n) else ShowNat(n)
  }

  /** How many characters at the start of `s` are digits. */
  function DigitCount(s: string): (n: nat)
    ensures n <= |s|
    ensures forall i :: 0 <= i < n ==> IsDigit(s[i])
    ensures n < |s| ==> !IsDigit(s[n])
  {
    if s == "" || !IsDigit(s[0]) then 0 else 1 + DigitCount(s[1..])
  }

  function NatValue(s: string): nat
    requires forall i :: 0 <= i < |s| ==> IsDigit(s[i])
  {
    if s == "" then 0 else 10 * NatValue(s[..|s| - 1]) + DigitValue(s[|s| - 1])
  }

  /** White space and line ends, as trim() and parseInt() skip them. */
  predicate IsSpace(c: char) {
    var u := c as int;
    9 <= u <= 13 || u == 32 || u == 160 || u == 0x1680 || 0x2000 <= u <= 0x200A
    || u == 0x2028 || u == 0x2029 || u == 0x202F || u == 0x205F || u == 0x3000 || u == 0xFEFF
  }

  function TrimStart(s: string): (t: string)
    ensures t == "" || !IsSpace(t[0])
  {
    if s != "" && IsSpace(s[0]) then TrimStart(s[1..]) else s
  }

  /**
   parseInt(s, 10): leading white space, an optional sign, then the longest run of digits; no
   number at all when that run is empty.
   */
  function ParseInt(s: string): Option<int> {
    var t := TrimStart(s);
    if t == "" then None
    else if t[0] == '-' then
      var r := ParseDigits(t[1..]);
      if r.Some? then Some(-(r.value as int)) else None
    else
      ParseDigits(if t[0] == '+' then t[1..] else t)
  }

  function ParseDigits(s: string): Option<nat> {
    var k := DigitCount(s);
    if k == 0 then None else Some(NatValue(s[..k]))
  }

  /** parseInt(s, 10) || 0 */
  function ParseIntOrZero(s: string): int {
    var r := ParseInt(s);
    if r.Some? then r.value else 0
  }

  lemma {:induction false} DigitCountOf(digits: string, rest: string)
    requires forall i :: 0 <= i < |digits| ==> IsDigit(digits[i])
    requires rest == "" || !IsDigit(rest[0])
    ensures DigitCount(digits + rest) == |digits|
  {
    if digits == "" {
      assert digits + rest == rest;
    } else {
      assert (digits + rest)[1..] == digits[1..] + rest;
      DigitCountOf(digits[1..], rest);
    }
  }

  lemma {:induction false} NatValueOfShow(n: nat)
    ensures NatValue(ShowNat(n)) == n
  {
    var s := ShowNat(n);
    if n >= 10 {
      NatValueOfShow(n / 10);
      assert s[..|s| - 1] == ShowNat(n / 10);
    } else {
      assert s[..0] == "";
    }
  }

  lemma ParseDigitsOf(digits: string, rest: string)
    requires digits != "" && forall i :: 0 <= i < |digits| ==> IsDigit(digits[i])
    requires rest == "" || !IsDigit(rest[0])
    ensures ParseDigits(digits + rest) == Some(NatValue(digits))
  {
    DigitCountOf(digits, rest);
    assert (digits + rest)[..|digits|] == digits;
  }

  lemma ParseSigned(t: string, n: nat)
    requires t != "" && IsDigit(t[0]) && ParseDigits(t) == Some(n)
    ensures ParseInt(t) == Some(n)
    ensures ParseInt("-" + t) == Some(-(n as int))
  {
    assert TrimStart(t) == t;
    var s := "-" + t;
    assert TrimStart(s) == s && s[1..] == t;
  }

  lemma ParseShownDigits(k: nat, digits: string, rest: string)
    requires digits == ShowNat(k)
    requires rest == "" || !IsDigit(rest[0])
    ensures ParseInt(digits + rest) == Some(k)
    ensures ParseInt("-" + (digits + rest)) == Some(-(k as int))
  {
    NatValueOfShow(k);
    ParseDigitsOf(digits, rest);
    ParseSigned(digits + rest, k);
  }

  /** Reading a printed number gives the number back, whatever follows it. */
  lemma ParseShown(n: int, rest: string)
    requires rest == "" || !IsDigit(rest[0])
    ensures ParseInt(Show(n) + rest) == Some(n)
  {
    hide ParseInt, ShowNat;
    if n < 0 {
      var digits := ShowNat(-n);
      ParseShownDigits(-n, digits, rest);
      assert "-" + digits + rest == "-" + (digits + rest);
    } else {
      ParseShownDigits(n, ShowNat(n), rest);
    }
  }

  lemma ParseShownAlone(n: int)
    ensures ParseInt(Show(n)) == Some(n)
  {
    ParseShown(n, "");
    assert Show(n) + "" == Show(n);
  }

  lemma ShowHasOnly(n: int, c: char)
    requires c in Show(n)
    ensures IsDigit(c) || c == '-'
  {
  }

  ghost predicate AllWhite(s: string) {
    forall i :: 0 <= i < |s| ==> IsSpace(s[i])
  }

  lemma {:induction false} TrimPadding(pad: string, s: string)
    requires AllWhite(pad) && (s == "" || !IsSpace(s[0]))
    ensures TrimStart(pad + s) == s
  {
    if pad == "" {
      assert pad + s == s;
    } else {
      assert (pad + s)[1..] == pad[1..] + s;
      TrimPadding(pad[1..], s);
    }
  }

  /** White space and a plus sign in front of a number do not matter. */
  lemma ParsePadded(pad: string, n: nat, rest: string)
    requires AllWhite(pad) && (rest == "" || !IsDigit(rest[0]))
    ensures ParseInt(pad + (ShowNat(n) + rest)) == Some(n)
    ensures ParseInt(pad + ("+" + (ShowNat(n) + rest))) == Some(n)
  {
    hide ShowNat;
    var digits := ShowNat(n);
    NatValueOfShow(n);
    ParseDigitsOf(digits, rest);
    TrimPadding(pad, digits + rest);
    TrimPadding(pad, "+" + (digits + rest));
    assert ("+" + (digits + rest))[1..] == digits + rest;
  }
}
