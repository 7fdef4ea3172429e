/** UTF-8 (section 3 of RFC 3629), decoded the way the runtime decodes a buffer on its own. */
module Utf8 {
  import CesFraming

  type byte = n: int | 0 <= n < 256

  /** What stands for bytes that are not UTF-8. */
  const REPLACEMENT := '\U{FFFD}'

  function Encode(c: char): (bytes: seq<byte>)
    ensures 1 <= |bytes| <= 4
  {
    var n := c as int;
    if n < 0x80 then [n]
    else if n < 0x800 then [0xC0 + n / 64, 0x80 + n % 64]
    else if n < 0x10000 then [0xE0 + n / 4096, 0x80 + n / 64 % 64, 0x80 + n % 64]
    else [0xF0 + n / 262144, 0x80 + n / 4096 % 64, 0x80 + n / 64 % 64, 0x80 + n % 64]
  }

  function EncodeAll(text: string): seq<byte> {
    if text == "" then [] else Encode(text[0]) + EncodeAll(text[1..])
  }

  /** How many bytes a leading byte asks for after itself; none if it cannot lead. */
  function Needs(lead: byte): (n: nat)
    ensures n <= 3
  {
    if 0xC2 <= lead <= 0xDF then 1
    else if 0xE0 <= lead <= 0xEF then 2
    else if 0xF0 <= lead <= 0xF4 then 3
    else 0
  }

  /** Whether `b` may follow: the second byte excludes overlong forms, surrogates and the beyond. */
  predicate Continues(lead: byte, position: nat, b: byte) {
    if position > 1 then 0x80 <= b <= 0xBF
    else if lead == 0xE0 then 0xA0 <= b <= 0xBF
    else if lead == 0xED then 0x80 <= b <= 0x9F
    else if lead == 0xF0 then 0x90 <= b <= 0xBF
    else if lead == 0xF4 then 0x80 <= b <= 0x8F
    else 0x80 <= b <= 0xBF
  }

  /** How many of the bytes from `position` on continue the sequence, up to what the lead needs. */
  function Got(bytes: seq<byte>, position: nat): (n: nat)
    requires |bytes| > 0
    ensures position + n <= |bytes| || n == 0
    ensures n == 0 || position + n <= Needs(bytes[0]) + 1
    decreases |bytes| - position
  {
    if position > Needs(bytes[0]) || position >= |bytes| || !Continues(bytes[0], position, bytes[position]) then 0
    else 1 + Got(bytes, position + 1)
  }

  /** The first character of the bytes, and how many bytes it takes. */
  function DecodeOne(bytes: seq<byte>): (r: (char, nat))
    requires |bytes| > 0
    ensures 1 <= r.1 <= |bytes|
  {
    var lead := bytes[0];
    var needs, got := Needs(lead), Got(bytes, 1);
    if lead < 0x80 then (lead as char, 1)
    else if needs == 0 then (REPLACEMENT, 1)
    else if got < needs then (REPLACEMENT, 1 + got)
    else Whole(bytes, needs)
  }

  function Whole(bytes: seq<byte>, needs: nat): (r: (char, nat))
    requires 1 <= needs <= 3 && |bytes| > 0 && needs == Needs(bytes[0]) && Got(bytes, 1) >= needs
    ensures r.1 == needs + 1 <= |bytes|
  {
    Continued(bytes, needs);
    var lead, b1 := bytes[0] as int, bytes[1] as int - 0x80;
    if needs == 1 then
      (((lead - 0xC0) * 64 + b1) as char, 2)
    else if needs == 2 then
      (((lead - 0xE0) * 4096 + b1 * 64 + (bytes[2] as int - 0x80)) as char, 3)
    else
      (((lead - 0xF0) * 262144 + b1 * 4096 + (bytes[2] as int - 0x80) * 64 + (bytes[3] as int - 0x80)) as char, 4)
  }

  lemma Continued(bytes: seq<byte>, needs: nat)
    requires 1 <= needs <= 3 && |bytes| > 0 && Got(bytes, 1) >= needs
    ensures |bytes| > needs && forall i :: 1 <= i <= needs ==> Continues(bytes[0], i, bytes[i])
  {
    assert needs >= 2 ==> Got(bytes, 2) >= needs - 1;
    assert needs >= 3 ==> Got(bytes, 3) >= needs - 2;
  }

  function Decode(bytes: seq<byte>): string
    decreases |bytes|
  {
    if bytes == [] then ""
    else var (c, n) := DecodeOne(bytes); [c] + Decode(bytes[n..])
  }

  // ---------------------------------------------------------------------------
  // Decoding undoes encoding
  // ---------------------------------------------------------------------------

  lemma EncodedLead(c: char)
    ensures var e := Encode(c);
      (|e| == 1 <==> e[0] < 0x80) && (e[0] >= 0x80 ==> Needs(e[0]) == |e| - 1)
  {
  }

  lemma EncodedContinues(c: char, i: nat)
    requires 1 <= i < |Encode(c)|
    ensures Continues(Encode(c)[0], i, Encode(c)[i]) && 0x80 <= Encode(c)[i] <= 0xBF
  {
    var n := c as int;
    if i == 1 {
      if 0x800 <= n < 0x10000 {
        ThreeByteSecond(n);
      } else if n >= 0x10000 {
        FourByteSecond(n);
      }
    }
  }

  lemma ThreeByteSecond(n: int)
    requires 0x800 <= n < 0xD800 || 0xE000 <= n < 0x10000
    ensures n / 4096 == 0 ==> n / 64 % 64 >= 0x20
    ensures n / 4096 == 13 ==> n / 64 % 64 < 0x20
  {
    assert n / 64 == n / 4096 * 64 + n / 64 % 64;
  }

  lemma FourByteSecond(n: int)
    requires 0x10000 <= n < 0x110000
    ensures n / 262144 == 0 ==> n / 4096 % 64 >= 0x10
    ensures n / 262144 == 4 ==> n / 4096 % 64 < 0x10
  {
    assert n / 4096 == n / 262144 * 64 + n / 4096 % 64;
  }

  lemma {:induction false} GotPrefix(c: char, bytes: seq<byte>, m: nat, i: nat)
    requires 1 <= i <= m <= |Encode(c)| && |Encode(c)| > 1
    requires bytes != [] && m <= |bytes| && bytes[..m] == Encode(c)[..m]
    requires m == |bytes| || m == |Encode(c)|
    ensures Got(bytes, i) == m - i
    decreases m - i
  {
    assert bytes[0] == bytes[..m][0] == Encode(c)[0];
    EncodedLead(c);
    if i < m {
      assert bytes[i] == bytes[..m][i] == Encode(c)[i];
      EncodedContinues(c, i);
      GotPrefix(c, bytes, m, i + 1);
    }
  }

  lemma {:induction false} DecodeEncoded(c: char, rest: seq<byte>)
    ensures DecodeOne(Encode(c) + rest) == (c, |Encode(c)|)
  {
    var e := Encode(c);
    var bytes := e + rest;
    EncodedLead(c);
    assert bytes[..|e|] == e == e[..|e|];
    if |e| > 1 {
      GotPrefix(c, bytes, |e|, 1);
      WholeIs(c, bytes);
    }
  }

  lemma WholeIs(c: char, bytes: seq<byte>)
    requires |Encode(c)| > 1 && |bytes| >= |Encode(c)| && bytes[..|Encode(c)|] == Encode(c)
    requires Needs(bytes[0]) == |Encode(c)| - 1 && Got(bytes, 1) >= |Encode(c)| - 1
    ensures Whole(bytes, |Encode(c)| - 1) == (c, |Encode(c)|)
  {
    hide Got, Encode;
    var e := Encode(c);
    assert bytes[0] == bytes[..|e|][0] && bytes[1] == bytes[..|e|][1];
    assert |e| > 2 ==> bytes[2] == bytes[..|e|][2];
    assert |e| > 3 ==> bytes[3] == bytes[..|e|][3];
    Digits(c);
  }

  /** The bytes carry the number, six bits each. */
  lemma Digits(c: char)
    ensures var e, n := Encode(c), c as int;
      && (|e| == 2 ==> (e[0] as int - 0xC0) * 64 + (e[1] as int - 0x80) == n)
      && (|e| == 3 ==> (e[0] as int - 0xE0) * 4096 + (e[1] as int - 0x80) * 64 + (e[2] as int - 0x80) == n)
      && (|e| == 4 ==> (e[0] as int - 0xF0) * 262144 + (e[1] as int - 0x80) * 4096 + (e[2] as int - 0x80) * 64
                       + (e[3] as int - 0x80) == n)
  {
    var n := c as int;
    assert n / 64 == n / 4096 * 64 + n / 64 % 64;
    assert n / 4096 == n / 262144 * 64 + n / 4096 % 64;
  }

  lemma {:induction false} DecodeText(text: string, rest: seq<byte>)
    ensures Decode(EncodeAll(text) + rest) == text + Decode(rest)
  {
    hide DecodeOne, Encode, Decode;
    if text == "" {
      assert [] + rest == rest;
    } else {
      var more := EncodeAll(text[1..]) + rest;
      assert EncodeAll(text) + rest == Encode(text[0]) + more;
      DecodeFirst(text[0], more);
      DecodeText(text[1..], rest);
      assert text + Decode(rest) == [text[0]] + (text[1..] + Decode(rest));
    }
  }

  lemma DecodeFirst(c: char, more: seq<byte>)
    ensures Decode(Encode(c) + more) == [c] + Decode(more)
  {
    hide DecodeOne, Encode;
    DecodeEncoded(c, more);
    assert (Encode(c) + more)[|Encode(c)|..] == more;
  }

  // ---------------------------------------------------------------------------
  // Cutting the bytes
  // ---------------------------------------------------------------------------

  lemma {:induction false} EncodeAppend(a: string, b: string)
    ensures EncodeAll(a + b) == EncodeAll(a) + EncodeAll(b)
  {
    if a == "" {
      assert a + b == b;
    } else {
      assert (a + b)[1..] == a[1..] + b;
      EncodeAppend(a[1..], b);
    }
  }

  lemma StrayContinuation(b: byte, rest: seq<byte>)
    requires 0x80 <= b <= 0xBF
    ensures Decode([b] + rest) == [REPLACEMENT] + Decode(rest)
  {
    assert ([b] + rest)[1..] == rest;
  }

  function Replacements(n: nat): (text: string)
    ensures |text| == n
  {
    if n == 0 then "" else [REPLACEMENT] + Replacements(n - 1)
  }

  /** Bytes that continue a sequence whose start is missing are replaced one by one. */
  lemma {:induction false} TailIsReplaced(tail: seq<byte>, rest: seq<byte>)
    requires forall i :: 0 <= i < |tail| ==> 0x80 <= tail[i] <= 0xBF
    ensures Decode(tail + rest) == Replacements(|tail|) + Decode(rest)
  {
    hide Decode;
    if tail == [] {
      assert tail + rest == rest;
    } else {
      assert tail + rest == [tail[0]] + (tail[1..] + rest);
      StrayContinuation(tail[0], tail[1..] + rest);
      TailIsReplaced(tail[1..], rest);
      assert [REPLACEMENT] + (Replacements(|tail| - 1) + Decode(rest)) == Replacements(|tail|) + Decode(rest);
    }
  }

  /** A sequence that breaks off is replaced once. */
  lemma {:induction false} HeadIsReplaced(c: char, m: nat)
    requires 0 < m < |Encode(c)|
    ensures Decode(Encode(c)[..m]) == [REPLACEMENT]
  {
    var bytes := Encode(c)[..m];
    EncodedLead(c);
    assert bytes[..m] == bytes;
    GotPrefix(c, bytes, m, 1);
    hide Encode;
    assert bytes[m..] == [];
  }

  /** Position `p` of the encoded text lies between two characters. */
  ghost predicate OnBoundary(text: string, p: nat) {
    exists k :: 0 <= k <= |text| && p == |EncodeAll(text[..k])|
  }

  /** The character that position `p` splits. */
  lemma {:induction false} SplitCharacter(text: string, p: nat, k: nat) returns (j: nat)
    requires k <= |text| && |EncodeAll(text[..k])| < p <= |EncodeAll(text)| && !OnBoundary(text, p)
    ensures j < |text| && |EncodeAll(text[..j])| < p < |EncodeAll(text[..j])| + |Encode(text[j])|
    decreases |text| - k
  {
    assert text[..|text|] == text;
    if k < |text| {
      assert text[..k + 1] == text[..k] + [text[k]];
      EncodeAppend(text[..k], [text[k]]);
      EncodeSingle(text[k]);
      if p < |EncodeAll(text[..k])| + |Encode(text[k])| {
        j := k;
      } else {
        assert p != |EncodeAll(text[..k + 1])|;
        j := SplitCharacter(text, p, k + 1);
      }
    }
  }

  lemma EncodeSingle(c: char)
    ensures EncodeAll([c]) == Encode(c)
  {
    assert [c][1..] == [];
  }

  lemma CutBetweenCharacters(text: string, k: nat)
    requires k <= |text|
    ensures var bytes, p := EncodeAll(text), |EncodeAll(text[..k])|;
      p <= |bytes| && Decode(bytes[..p]) + Decode(bytes[p..]) == text
  {
    var a, b := text[..k], text[k..];
    assert text == a + b;
    EncodeAppend(a, b);
    DecodeText(a, []);
    DecodeText(b, []);
    assert EncodeAll(a) + [] == EncodeAll(a) && EncodeAll(b) + [] == EncodeAll(b);
    assert EncodeAll(text)[..|EncodeAll(a)|] == EncodeAll(a);
    assert EncodeAll(text)[|EncodeAll(a)|..] == EncodeAll(b);
  }

  lemma CutInsideCharacter(text: string, j: nat, m: nat)
    requires j < |text| && 0 < m < |Encode(text[j])|
    ensures var bytes, p := EncodeAll(text), |EncodeAll(text[..j])| + m;
      p <= |bytes| && |Decode(bytes[..p]) + Decode(bytes[p..])| > |text|
  {
    hide Encode, Decode, EncodeAll;
    var a, c, b := text[..j], text[j], text[j + 1..];
    var head, tail := Encode(c)[..m], Encode(c)[m..];
    Cut(a, c, b, m);
    assert text == a + [c] + b;
    DecodeText(a, head);
    HeadIsReplaced(c, m);
    TailContinues(c, m);
    TailIsReplaced(tail, EncodeAll(b));
    DecodeText(b, []);
    DecodeNothing();
    assert EncodeAll(b) + [] == EncodeAll(b);
  }

  lemma TailContinues(c: char, m: nat)
    requires 0 < m < |Encode(c)|
    ensures forall i :: 0 <= i < |Encode(c)[m..]| ==> 0x80 <= Encode(c)[m..][i] <= 0xBF
  {
    hide Encode;
    forall i | 0 <= i < |Encode(c)[m..]|
      ensures 0x80 <= Encode(c)[m..][i] <= 0xBF
    {
      EncodedContinues(c, m + i);
    }
  }

  lemma DecodeNothing()
    ensures Decode([]) == ""
  {
  }

  lemma Cut(a: string, c: char, b: string, m: nat)
    requires m <= |Encode(c)|
    ensures var bytes, p := EncodeAll(a + [c] + b), |EncodeAll(a)| + m;
      && p <= |bytes| && bytes[..p] == EncodeAll(a) + Encode(c)[..m]
      && bytes[p..] == Encode(c)[m..] + EncodeAll(b)
  {
    hide Encode;
    EncodeAppend(a + [c], b);
    EncodeAppend(a, [c]);
    EncodeSingle(c);
  }

  /**
   Two chunks decoded each on its own give the text exactly when the cut between them does not
   split a character's bytes.
   */
  lemma DecodedApart(text: string, p: nat)
    requires p <= |EncodeAll(text)|
    ensures Decode(EncodeAll(text)[..p]) + Decode(EncodeAll(text)[p..]) == text <==> OnBoundary(text, p)
  {
    hide Decode, Encode;
    if OnBoundary(text, p) {
      var k :| 0 <= k <= |text| && p == |EncodeAll(text[..k])|;
      CutBetweenCharacters(text, k);
    } else {
      SplitIsLonger(text, p);
    }
  }

  /** A cut inside a character gives more characters than there were. */
  lemma SplitIsLonger(text: string, p: nat)
    requires p <= |EncodeAll(text)| && !OnBoundary(text, p)
    ensures |Decode(EncodeAll(text)[..p]) + Decode(EncodeAll(text)[p..])| > |text|
  {
    hide Decode, Encode;
    assert text[..0] == "";
    assert |EncodeAll(text[..0])| == 0;
    var j := SplitCharacter(text, p, 0);
    CutInsideCharacter(text, j, p - |EncodeAll(text[..j])|);
  }

  function DecodeEach(chunks: seq<seq<byte>>): seq<string> {
    if chunks == [] then [] else [Decode(chunks[0])] + DecodeEach(chunks[1..])
  }

  /** Any number of chunks, cut between characters, decode to the pieces they encode. */
  lemma {:induction false} WholeCharactersDecode(chunks: seq<seq<byte>>, pieces: seq<string>)
    requires |chunks| == |pieces| && forall i :: 0 <= i < |pieces| ==> chunks[i] == EncodeAll(pieces[i])
    ensures DecodeEach(chunks) == pieces
  {
    hide Decode, EncodeAll;
    if chunks != [] {
      DecodeText(pieces[0], []);
      DecodeNothing();
      assert EncodeAll(pieces[0]) + [] == chunks[0];
      assert pieces[0] + "" == pieces[0];
      WholeCharactersDecode(chunks[1..], pieces[1..]);
    }
  }

  // ---------------------------------------------------------------------------
  // Any number of chunks
  // ---------------------------------------------------------------------------

  function BytesOf(chunks: seq<seq<byte>>): seq<byte> {
    if chunks == [] then [] else chunks[0] + BytesOf(chunks[1..])
  }

  /** The cut before chunk `i`. */
  function CutBefore(chunks: seq<seq<byte>>, i: nat): nat
    requires i <= |chunks|
  {
    |BytesOf(chunks[..i])|
  }

  /** No cut splits the bytes of a character. */
  ghost predicate CutsBetween(text: string, chunks: seq<seq<byte>>) {
    forall i :: 0 <= i <= |chunks| ==> OnBoundary(text, CutBefore(chunks, i))
  }

  lemma {:induction false} GotContinues(bytes: seq<byte>, i: nat, j: nat)
    requires |bytes| > 0 && 1 <= i <= j < i + Got(bytes, i)
    ensures j < |bytes| && 0x80 <= bytes[j] <= 0xBF
    decreases j - i
  {
    if i < j {
      GotContinues(bytes, i + 1, j);
    }
  }

  /** More bytes continue a sequence only if it had not ended. */
  lemma {:induction false} GotMore(a: seq<byte>, b: seq<byte>, i: nat) returns (r: nat)
    requires |a| > 0 && 1 <= i <= |a|
    ensures r <= |b| && Got(a + b, i) == Got(a, i) + r
    ensures r > 0 ==> i + Got(a, i) == |a|
    ensures forall j :: 0 <= j < r ==> 0x80 <= b[j] <= 0xBF
    decreases |a| - i
  {
    var both := a + b;
    assert both[0] == a[0];
    if i == |a| {
      r := Got(both, i);
      forall j | 0 <= j < r
        ensures j < |b| && 0x80 <= b[j] <= 0xBF
      {
        GotContinues(both, i, i + j);
        assert both[i + j] == b[j];
      }
    } else {
      assert both[i] == a[i];
      if i <= Needs(a[0]) && Continues(a[0], i, a[i]) {
        r := GotMore(a, b, i + 1);
      } else {
        r := 0;
      }
    }
  }

  /** The first character takes `r` bytes more when more follow; then it was all of `a`. */
  lemma FirstOfMore(a: seq<byte>, b: seq<byte>) returns (r: nat)
    requires |a| > 0
    ensures r <= |b| && DecodeOne(a + b).1 == DecodeOne(a).1 + r
    ensures r > 0 ==> DecodeOne(a).1 == |a|
    ensures forall j :: 0 <= j < r ==> 0x80 <= b[j] <= 0xBF
  {
    hide Got;
    var both := a + b;
    assert both[0] == a[0];
    r := GotMore(a, b, 1);
    if a[0] < 0x80 || Needs(a[0]) == 0 {
      r := 0;
    }
  }

  /** Cutting never makes fewer characters. */
  lemma {:induction false} CutIsNoShorter(a: seq<byte>, b: seq<byte>)
    ensures |Decode(a + b)| <= |Decode(a)| + |Decode(b)|
    decreases |a|
  {
    hide DecodeOne;
    if a == [] {
      assert a + b == b;
    } else {
      var n := DecodeOne(a).1;
      var r := FirstOfMore(a, b);
      if r == 0 {
        assert (a + b)[n..] == a[n..] + b;
        CutIsNoShorter(a[n..], b);
      } else {
        assert (a + b)[n + r..] == b[r..] && b == b[..r] + b[r..];
        TailIsReplaced(b[..r], b[r..]);
      }
    }
  }

  /** The text that the chunks decode to one by one. */
  function Decoded(chunks: seq<seq<byte>>): string {
    CesFraming.Joined(DecodeEach(chunks))
  }

  lemma DecodedCons(chunks: seq<seq<byte>>)
    requires chunks != []
    ensures Decoded(chunks) == Decode(chunks[0]) + Decoded(chunks[1..])
  {
    hide Decode;
    assert DecodeEach(chunks)[1..] == DecodeEach(chunks[1..]);
  }

  lemma {:induction false} ChunksAreNoShorter(chunks: seq<seq<byte>>)
    ensures |Decode(BytesOf(chunks))| <= |Decoded(chunks)|
  {
    if chunks == [] {
      DecodeNothing();
    } else {
      hide Decode, Decoded;
      DecodedCons(chunks);
      CutIsNoShorter(chunks[0], BytesOf(chunks[1..]));
      ChunksAreNoShorter(chunks[1..]);
    }
  }

  lemma {:induction false} DecodedSplits(chunks: seq<seq<byte>>, i: nat)
    requires i <= |chunks|
    ensures BytesOf(chunks) == BytesOf(chunks[..i]) + BytesOf(chunks[i..])
    ensures |Decoded(chunks)| == |Decoded(chunks[..i])| + |Decoded(chunks[i..])|
  {
    hide Decode, Decoded;
    if i == 0 {
      assert chunks[..0] == [] && chunks[0..] == chunks;
      NothingDecoded();
    } else {
      assert chunks[..i][1..] == chunks[1..][..i - 1] && chunks[1..][i - 1..] == chunks[i..];
      DecodedSplits(chunks[1..], i - 1);
      DecodedCons(chunks);
      DecodedCons(chunks[..i]);
    }
  }

  lemma NothingDecoded()
    ensures Decoded([]) == ""
  {
  }

  /** A single cut inside a character is enough to spoil the text. */
  lemma SplitChunksAreLonger(text: string, chunks: seq<seq<byte>>, i: nat)
    requires BytesOf(chunks) == EncodeAll(text) && i <= |chunks| && !OnBoundary(text, CutBefore(chunks, i))
    ensures |Decoded(chunks)| > |text|
  {
    hide Decode, Decoded, OnBoundary, BytesOf;
    var left, right := BytesOf(chunks[..i]), BytesOf(chunks[i..]);
    DecodedSplits(chunks, i);
    assert EncodeAll(text)[..|left|] == left && EncodeAll(text)[|left|..] == right;
    SplitIsLonger(text, |left|);
    ChunksAreNoShorter(chunks[..i]);
    ChunksAreNoShorter(chunks[i..]);
  }

  lemma {:induction false} EncodedIsNoShorter(text: string)
    ensures |EncodeAll(text)| >= |text|
  {
    hide Encode;
    if text != "" {
      EncodedIsNoShorter(text[1..]);
    }
  }

  lemma EncodeSplits(text: string, k: nat)
    requires k <= |text|
    ensures EncodeAll(text) == EncodeAll(text[..k]) + EncodeAll(text[k..])
  {
    EncodeAppend(text[..k], text[k..]);
    assert text == text[..k] + text[k..];
  }

  /** A boundary at or after that of character `k` is one of the text from there on. */
  lemma BoundaryOfRest(text: string, k: nat, p: nat)
    requires k <= |text| && OnBoundary(text, p) && p >= |EncodeAll(text[..k])|
    ensures OnBoundary(text[k..], p - |EncodeAll(text[..k])|)
  {
    hide EncodeAll;
    var j :| 0 <= j <= |text| && p == |EncodeAll(text[..j])|;
    EarlierIsShorter(text, j, k);
    EncodeSplits(text[..j], k);
    assert text[..j][..k] == text[..k] && text[..j][k..] == text[k..][..j - k];
  }

  lemma EarlierIsShorter(text: string, j: nat, k: nat)
    requires j <= |text| && k <= |text|
    ensures j < k ==> |EncodeAll(text[..j])| < |EncodeAll(text[..k])|
  {
    hide EncodeAll;
    if j < k {
      EncodeSplits(text[..k], j);
      EncodedIsNoShorter(text[..k][j..]);
      assert text[..k][..j] == text[..j];
    }
  }

  lemma {:induction false} WholeCutsDecode(text: string, chunks: seq<seq<byte>>)
    requires BytesOf(chunks) == EncodeAll(text) && CutsBetween(text, chunks)
    ensures Decoded(chunks) == text
    decreases |chunks|
  {
    hide Decode, Encode, Decoded, OnBoundary;
    if chunks == [] {
      EncodedIsNoShorter(text);
      NothingDecoded();
    } else {
      var k := FirstCut(text, chunks);
      forall i | 0 <= i <= |chunks[1..]|
        ensures OnBoundary(text[k..], CutBefore(chunks[1..], i))
      {
        CutOfRest(chunks, i);
        assert OnBoundary(text, CutBefore(chunks, i + 1));
        BoundaryOfRest(text, k, CutBefore(chunks, i + 1));
      }
      WholeCutsDecode(text[k..], chunks[1..]);
      DecodedCons(chunks);
      DecodeWhole(text[..k]);
      assert text == text[..k] + text[k..];
    }
  }

  lemma DecodeWhole(text: string)
    ensures Decode(EncodeAll(text)) == text
  {
    hide Decode, EncodeAll;
    DecodeText(text, []);
    DecodeNothing();
    assert EncodeAll(text) + [] == EncodeAll(text) && text + "" == text;
  }

  lemma CutOfRest(chunks: seq<seq<byte>>, i: nat)
    requires chunks != [] && i < |chunks|
    ensures CutBefore(chunks, i + 1) == |chunks[0]| + CutBefore(chunks[1..], i)
  {
    assert chunks[..i + 1][1..] == chunks[1..][..i];
  }

  lemma FirstCut(text: string, chunks: seq<seq<byte>>) returns (k: nat)
    requires chunks != [] && BytesOf(chunks) == EncodeAll(text) && OnBoundary(text, CutBefore(chunks, 1))
    ensures k <= |text| && chunks[0] == EncodeAll(text[..k]) && BytesOf(chunks[1..]) == EncodeAll(text[k..])
  {
    hide EncodeAll;
    CutOfRest(chunks, 0);
    assert chunks[1..][..0] == [];
    k :| 0 <= k <= |text| && |chunks[0]| == |EncodeAll(text[..k])|;
    EncodeSplits(text, k);
    assert chunks[0] == BytesOf(chunks)[..|chunks[0]|] && BytesOf(chunks[1..]) == BytesOf(chunks)[|chunks[0]|..];
  }

  /**
   Chunks of an encoded text, decoded each on its own, give the text exactly when no cut between
   them splits a character's bytes.
   */
  lemma ChunksDecode(text: string, chunks: seq<seq<byte>>)
    requires BytesOf(chunks) == EncodeAll(text)
    ensures Decoded(chunks) == text <==> CutsBetween(text, chunks)
  {
    hide Decoded, OnBoundary, BytesOf, EncodeAll;
    if CutsBetween(text, chunks) {
      WholeCutsDecode(text, chunks);
    } else {
      var i :| 0 <= i <= |chunks| && !OnBoundary(text, CutBefore(chunks, i));
      SplitChunksAreLonger(text, chunks, i);
    }
  }

  // ---------------------------------------------------------------------------
  // Bytes that are no text
  // ---------------------------------------------------------------------------

  /** Whatever the bytes, what is decoded and not replaced is what the bytes encode: no overlong form, no surrogate. */
  lemma DecodedIsEncoded(bytes: seq<byte>)
    requires bytes != []
    ensures var (c, n) := DecodeOne(bytes); c == REPLACEMENT || bytes[..n] == Encode(c)
  {
    hide Got;
    var lead := bytes[0];
    var needs, got := Needs(lead), Got(bytes, 1);
    if lead >= 0x80 && needs > 0 && got >= needs {
      Continued(bytes, needs);
      if needs == 1 {
        TwoBytes(bytes);
      } else if needs == 2 {
        ThreeBytes(bytes);
      } else {
        FourBytes(bytes);
      }
    }
  }

  lemma TwoBytes(bytes: seq<byte>)
    requires |bytes| >= 2 && 0xC2 <= bytes[0] <= 0xDF && Continues(bytes[0], 1, bytes[1])
    ensures var n := (bytes[0] as int - 0xC0) * 64 + (bytes[1] as int - 0x80);
      0x80 <= n < 0x800 && bytes[..2] == Encode(n as char)
  {
    var n := (bytes[0] as int - 0xC0) * 64 + (bytes[1] as int - 0x80);
    assert n / 64 == bytes[0] as int - 0xC0 && n % 64 == bytes[1] as int - 0x80;
    assert bytes[..2] == [bytes[0], bytes[1]];
  }

  lemma ThreeBytes(bytes: seq<byte>)
    requires |bytes| >= 3 && 0xE0 <= bytes[0] <= 0xEF
    requires Continues(bytes[0], 1, bytes[1]) && Continues(bytes[0], 2, bytes[2])
    ensures var n := (bytes[0] as int - 0xE0) * 4096 + (bytes[1] as int - 0x80) * 64 + (bytes[2] as int - 0x80);
      && 0x800 <= n < 0x10000 && !(0xD800 <= n < 0xE000)
      && bytes[..3] == Encode(n as char)
  {
    var a, b, c := bytes[0] as int - 0xE0, bytes[1] as int - 0x80, bytes[2] as int - 0x80;
    var n := a * 4096 + b * 64 + c;
    assert n / 4096 == a && n / 64 == a * 64 + b && n / 64 % 64 == b && n % 64 == c;
    assert bytes[..3] == [bytes[0], bytes[1], bytes[2]];
  }

  lemma FourBytes(bytes: seq<byte>)
    requires |bytes| >= 4 && 0xF0 <= bytes[0] <= 0xF4
    requires Continues(bytes[0], 1, bytes[1]) && Continues(bytes[0], 2, bytes[2]) && Continues(bytes[0], 3, bytes[3])
    ensures var n := (bytes[0] as int - 0xF0) * 262144 + (bytes[1] as int - 0x80) * 4096
                     + (bytes[2] as int - 0x80) * 64 + (bytes[3] as int - 0x80);
      0x10000 <= n < 0x110000 && bytes[..4] == Encode(n as char)
  {
    var a, b, c, d := bytes[0] as int - 0xF0, bytes[1] as int - 0x80, bytes[2] as int - 0x80, bytes[3] as int - 0x80;
    var n := a * 262144 + b * 4096 + c * 64 + d;
    assert n / 262144 == a && n / 4096 == a * 64 + b && n / 4096 % 64 == b;
    assert n / 64 == a * 4096 + b * 64 + c && n / 64 % 64 == c && n % 64 == d;
    assert bytes[..4] == [bytes[0], bytes[1], bytes[2], bytes[3]];
  }
}
