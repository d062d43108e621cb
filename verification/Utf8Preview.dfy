/**
 Bounded text previews of stored bodies: UTF-8 as in section 3 of RFC 3629, and a decoder
 that drops what it cannot decode.
 */
module Utf8Preview {
  import opened Seqs

  type Byte = b: int | 0 <= b < 256

  /** A character that UTF-8 can carry: surrogates are excluded. */
  type Scalar = c: int | 0 <= c < 0xD800 || 0xE000 <= c <= 0x10FFFF

  type Text = seq<Scalar>

  // ----- encoding -----

  function EncodeOne(c: Scalar): (r: seq<Byte>)
    ensures 1 <= |r| <= 4
  {
    if c < 0x80 then [c]
    else if c < 0x800 then [0xC0 + c / 64, 0x80 + c % 64]
    else if c < 0x10000 then [0xE0 + c / 4096, 0x80 + c / 64 % 64, 0x80 + c % 64]
    else [0xF0 + c / 262144, 0x80 + c / 4096 % 64, 0x80 + c / 64 % 64, 0x80 + c % 64]
  }

  function Encode(t: Text): (r: seq<Byte>) {
    if t == [] then [] else EncodeOne(t[0]) + Encode(t[1..])
  }

  // ----- decoding -----

  datatype Piece = Char(c: Scalar, width: nat) | Bad(width: nat)

  predicate Continuation(b: Byte) { 0x80 <= b < 0xC0 }

  /** Whether `b1` may follow the leading byte `b0` of a longer sequence. */
  predicate SecondOk(b0: Byte, b1: Byte) {
    if b0 == 0xE0 then 0xA0 <= b1 < 0xC0
    else if b0 == 0xED then 0x80 <= b1 < 0xA0
    else if b0 == 0xF0 then 0x90 <= b1 < 0xC0
    else if b0 == 0xF4 then 0x80 <= b1 < 0x90
    else Continuation(b1)
  }

  /** How many bytes the leading byte announces; zero if it cannot lead. */
  function Announced(b0: Byte): (n: nat) {
    if b0 < 0x80 then 1
    else if 0xC2 <= b0 < 0xE0 then 2
    else if 0xE0 <= b0 < 0xF0 then 3
    else if 0xF0 <= b0 < 0xF5 then 4
    else 0
  }

  /** The bits a byte carries besides its marker. */
  function Bits(b: int, marker: int): (r: int) { b - marker }

  function Value(s: seq<Byte>, n: nat): (v: int)
    requires 1 <= n <= 4 && n <= |s|
  {
    if n == 1 then s[0]
    else if n == 2 then Bits(s[0], 0xC0) * 64 + Bits(s[1], 0x80)
    else if n == 3 then Bits(s[0], 0xE0) * 4096 + Bits(s[1], 0x80) * 64 + Bits(s[2], 0x80)
    else Bits(s[0], 0xF0) * 262144 + Bits(s[1], 0x80) * 4096 + Bits(s[2], 0x80) * 64 + Bits(s[3], 0x80)
  }

  /** How far the sequence that starts here is well formed. */
  function Sound(s: seq<Byte>, n: nat): (k: nat)
    requires s != []
    ensures 1 <= k <= 4 && k <= |s|
  {
    if n < 2 || |s| < 2 || !SecondOk(s[0], s[1]) then 1
    else if n < 3 || |s| < 3 || !Continuation(s[2]) then 2
    else if n < 4 || |s| < 4 || !Continuation(s[3]) then 3
    else 4
  }

  /** The next character, or the length of what has to be dropped. */
  function DecodeOne(s: seq<Byte>): (p: Piece)
    requires s != []
    ensures 1 <= p.width <= |s|
  {
    var n := Announced(s[0]);
    var k := Sound(s, n);
    if n != 0 && k == n then
      ValueIsScalar(s, n);
      Char(Value(s, n), n)
    else Bad(k)
  }

  lemma ValueIsScalar(s: seq<Byte>, n: nat)
    requires s != [] && n == Announced(s[0]) && n != 0 && Sound(s, n) == n
    ensures 0 <= Value(s, n) < 0xD800 || 0xE000 <= Value(s, n) <= 0x10FFFF
  {
  }

  /** Decoding that ignores errors. */
  function Decode(s: seq<Byte>): (t: Text) {
    if s == [] then []
    else
      match DecodeOne(s)
      case Char(c, n) => [c] + Decode(s[n..])
      case Bad(n) => Decode(s[n..])
  }

  // ----- one character, whole or cut -----

  /** The bytes of a character announce their number, are well formed and carry its value. */
  lemma EncodedWell(c: Scalar)
    ensures var e := EncodeOne(c);
            Announced(e[0]) == |e| && Sound(e, |e|) == |e| && Value(e, |e|) == c
  {
    if c < 0x80 {
    } else if c < 0x800 {
    } else if c < 0x10000 {
      assert c == c / 4096 * 4096 + c / 64 % 64 * 64 + c % 64;
    } else {
      assert c == c / 262144 * 262144 + c / 4096 % 64 * 4096 + c / 64 % 64 * 64 + c % 64;
    }
  }

  /** A whole character is decoded, whatever follows. */
  lemma WholeCharacter(c: Scalar, rest: seq<Byte>)
    ensures DecodeOne(EncodeOne(c) + rest) == Char(c, |EncodeOne(c)|)
  {
    EncodedWell(c);
    hide EncodeOne, Announced, SecondOk, Continuation;
    var e := EncodeOne(c);
    var s := e + rest;
    assert forall i :: 0 <= i < |e| ==> s[i] == e[i];
    assert Sound(s, |e|) == |e|;
  }

  /** A character cut short is dropped as a whole. */
  lemma CutCharacter(c: Scalar, k: nat)
    requires 0 < k < |EncodeOne(c)|
    ensures DecodeOne(EncodeOne(c)[..k]) == Bad(k)
  {
    var e := EncodeOne(c);
    var s := e[..k];
    assert forall i :: 0 <= i < k ==> s[i] == e[i];
    assert Announced(s[0]) == |e|;
  }

  /** A byte that carries six bits of a character. */
  predicate Tail(b: Byte) { 0x80 <= b <= 0xBF }

  /** The table of section 3 of RFC 3629: which bytes a character is written with. */
  lemma StandardForm(c: Scalar)
    ensures var e := EncodeOne(c);
            && (c <= 0x7F ==> e == [c])
            && (0x80 <= c <= 0x7FF ==>
                  |e| == 2 && 0xC2 <= e[0] <= 0xDF && Tail(e[1]) && c == Bits(e[0], 0xC0) * 0x40 + Bits(e[1], 0x80))
            && (0x800 <= c <= 0xFFFF ==>
                  |e| == 3 && 0xE0 <= e[0] <= 0xEF && Tail(e[1]) && Tail(e[2])
                  && c == Bits(e[0], 0xE0) * 0x1000 + Bits(e[1], 0x80) * 0x40 + Bits(e[2], 0x80))
            && (0x10000 <= c ==>
                  |e| == 4 && 0xF0 <= e[0] <= 0xF4 && Tail(e[1]) && Tail(e[2]) && Tail(e[3])
                  && c == Bits(e[0], 0xF0) * 0x40000 + Bits(e[1], 0x80) * 0x1000 + Bits(e[2], 0x80) * 0x40 + Bits(e[3], 0x80))
  {
    EncodedWell(c);
  }

  /** Six-bit digits, read back. */
  lemma Digits(v: int, high: int, low: int)
    requires v == high * 64 + low && 0 <= high && 0 <= low < 64
    ensures v / 64 == high && v % 64 == low
  {
  }

  lemma Shift(v: int)
    requires v >= 0
    ensures v / 4096 == v / 64 / 64 && v / 262144 == v / 64 / 64 / 64 && v / 4096 % 64 == v / 64 / 64 % 64
  {
  }

  lemma TwoBytes(s: seq<Byte>)
    requires |s| >= 2 && Announced(s[0]) == 2 && Sound(s, 2) == 2
    ensures 0x80 <= Value(s, 2) < 0x800 && EncodeOne(Value(s, 2)) == s[..2]
  {
    Digits(Value(s, 2), Bits(s[0], 0xC0), Bits(s[1], 0x80));
  }

  lemma ThreeBytes(s: seq<Byte>)
    requires |s| >= 3 && Announced(s[0]) == 3 && Sound(s, 3) == 3
    ensures 0x800 <= Value(s, 3) < 0x10000 && !(0xD800 <= Value(s, 3) < 0xE000) && EncodeOne(Value(s, 3)) == s[..3]
  {
    var v, a, b, c := Value(s, 3), Bits(s[0], 0xE0), Bits(s[1], 0x80), Bits(s[2], 0x80);
    assert 0 <= a < 16 && 0 <= b < 64 && 0 <= c < 64;
    assert v == (a * 64 + b) * 64 + c;
    Digits(v, a * 64 + b, c);
    Digits(a * 64 + b, a, b);
    Shift(v);
    hide Sound, Announced;
  }

  lemma FourBytes(s: seq<Byte>)
    requires |s| >= 4 && Announced(s[0]) == 4 && Sound(s, 4) == 4
    ensures 0x10000 <= Value(s, 4) <= 0x10FFFF && EncodeOne(Value(s, 4)) == s[..4]
  {
    var v, a, b, c, d := Value(s, 4), Bits(s[0], 0xF0), Bits(s[1], 0x80), Bits(s[2], 0x80), Bits(s[3], 0x80);
    assert 0 <= a < 5 && 0 <= b < 64 && 0 <= c < 64 && 0 <= d < 64;
    assert v == ((a * 64 + b) * 64 + c) * 64 + d;
    assert 0x10000 <= v <= 0x10FFFF;
    Digits(v, (a * 64 + b) * 64 + c, d);
    Digits((a * 64 + b) * 64 + c, a * 64 + b, c);
    Digits(a * 64 + b, a, b);
    Shift(v);
    hide Sound, Announced;
  }

  /** What decodes to a character is its encoding. */
  lemma CharIsEncoded(s: seq<Byte>)
    requires s != [] && DecodeOne(s).Char?
    ensures var p := DecodeOne(s); s[..p.width] == EncodeOne(p.c)
  {
    var n := Announced(s[0]);
    if n == 2 { TwoBytes(s); }
    if n == 3 { ThreeBytes(s); }
    if n == 4 { FourBytes(s); }
    hide Sound, SecondOk, Continuation;
    if n > 1 { hide EncodeOne; }
  }

  /** The decoder yields a character exactly where its encoding stands. */
  lemma CharIffEncoded(s: seq<Byte>, c: Scalar)
    requires s != []
    ensures DecodeOne(s) == Char(c, |EncodeOne(c)|) <==> EncodeOne(c) <= s
  {
    var e := EncodeOne(c);
    if e <= s {
      WholeCharacter(c, s[|e|..]);
      assert s == e + s[|e|..];
    }
    if DecodeOne(s) == Char(c, |e|) { CharIsEncoded(s); }
  }

  /** Bytes of a character fill up to one, so that a cut-off well-formed start has a continuation. */
  lemma StartExtends(s: seq<Byte>, k: nat) returns (c: Scalar)
    requires s != [] && DecodeOne(s) == Bad(k) && k > 1
    ensures k < |EncodeOne(c)| && EncodeOne(c)[..k] == s[..k]
  {
    var n := Announced(s[0]);
    var filled: seq<Byte> := s[..k] + if n - k == 1 then [0x80] else [0x80, 0x80];
    assert n == 3 || n == 4;
    assert |filled| == n && filled[0] == s[0] && filled[1] == s[1] && (k == 3 ==> filled[2] == s[2]);
    assert Sound(filled, n) == n;
    CharIsEncoded(filled);
    c := DecodeOne(filled).c;
    assert filled[..n] == filled && filled[..k] == s[..k];
  }

  /**
   What the decoder drops: nothing that begins with an encoding, and then one byte, or as much
   as is the start of some character and no more.
   */
  lemma DroppedIs(s: seq<Byte>)
    requires s != []
    ensures DecodeOne(s).Bad? <==> forall c: Scalar :: !(EncodeOne(c) <= s)
    ensures DecodeOne(s).Bad? ==>
              var k := DecodeOne(s).width;
              && (k == 1 || exists c: Scalar :: k < |EncodeOne(c)| && EncodeOne(c)[..k] == s[..k])
              && (k < |s| ==> forall c: Scalar :: !(s[..k + 1] <= EncodeOne(c)))
  {
    if DecodeOne(s).Char? {
      CharIffEncoded(s, DecodeOne(s).c);
      CharIsEncoded(s);
      assert EncodeOne(DecodeOne(s).c) <= s;
    } else {
      var k := DecodeOne(s).width;
      forall c: Scalar ensures !(EncodeOne(c) <= s) { CharIffEncoded(s, c); }
      if k > 1 { var c := StartExtends(s, k); }
      if k < |s| {
        forall c: Scalar ensures !(s[..k + 1] <= EncodeOne(c)) { NoLongerStart(s, k, c); }
      }
    }
  }

  lemma NoLongerStart(s: seq<Byte>, k: nat, c: Scalar)
    requires s != [] && DecodeOne(s) == Bad(k) && k < |s|
    ensures !(s[..k + 1] <= EncodeOne(c))
  {
    var e := EncodeOne(c);
    if s[..k + 1] <= e {
      EncodedWell(c);
      assert forall i :: 0 <= i <= k ==> s[i] == s[..k + 1][i] == e[i];
      hide EncodeOne;
    }
  }

  // ----- whole texts -----

  function Cut(s: seq<Byte>, k: nat): (r: seq<Byte>) {
    if |s| <= k then s else s[..k]
  }

  /** The longest prefix whose encoding fits. */
  ghost predicate LongestFit(t: Text, k: nat, p: Text) {
    && p <= t
    && |Encode(p)| <= k
    && (p == t || |Encode(t[..|p| + 1])| > k)
  }

  lemma EncodeCons(c: Scalar, t: Text)
    ensures Encode([c] + t) == EncodeOne(c) + Encode(t)
  {
    assert ([c] + t)[1..] == t;
  }

  /** A cut behind the first character decodes it and goes on. */
  lemma DecodeHead(t: Text, k: nat)
    requires t != [] && k >= |EncodeOne(t[0])|
    ensures Decode(Cut(Encode(t), k)) == [t[0]] + Decode(Cut(Encode(t[1..]), k - |EncodeOne(t[0])|))
  {
    hide EncodeOne, DecodeOne;
    var e := EncodeOne(t[0]);
    var tail := Cut(Encode(t[1..]), k - |e|);
    assert Cut(Encode(t), k) == e + tail;
    WholeCharacter(t[0], tail);
    assert (e + tail)[|e|..] == tail;
  }

  /** A cut inside the first character leaves nothing. */
  lemma DecodeNothing(t: Text, k: nat)
    requires t != [] && k < |EncodeOne(t[0])|
    ensures Decode(Cut(Encode(t), k)) == []
  {
    var e := EncodeOne(t[0]);
    hide EncodeOne, DecodeOne;
    assert Cut(Encode(t), k) == e[..k];
    if k > 0 {
      CutCharacter(t[0], k);
      assert e[..k][k..] == [];
    }
  }

  lemma FitCons(t: Text, k: nat, q: Text)
    requires t != [] && k >= |EncodeOne(t[0])| && LongestFit(t[1..], k - |EncodeOne(t[0])|, q)
    ensures LongestFit(t, k, [t[0]] + q)
  {
    hide EncodeOne;
    var p, rest := [t[0]] + q, t[1..];
    EncodeCons(t[0], q);
    if q != rest {
      assert t[..|p| + 1] == [t[0]] + rest[..|q| + 1];
      EncodeCons(t[0], rest[..|q| + 1]);
    }
  }

  /** Decoding the first `k` bytes yields the longest prefix of whole characters. */
  lemma {:induction false} DecodeCut(t: Text, k: nat)
    ensures LongestFit(t, k, Decode(Cut(Encode(t), k)))
    decreases |t|
  {
    if t == [] {
    } else if k >= |EncodeOne(t[0])| {
      DecodeCut(t[1..], k - |EncodeOne(t[0])|);
      DecodeHead(t, k);
      FitCons(t, k, Decode(Cut(Encode(t[1..]), k - |EncodeOne(t[0])|)));
      hide LongestFit, EncodeOne, Decode;
    } else {
      DecodeNothing(t, k);
      assert t[..1] == [t[0]] + [];
      EncodeCons(t[0], []);
      hide EncodeOne, Decode;
    }
  }

  /** The encoding of a prefix is a prefix, and the next character adds at most four bytes. */
  lemma {:induction false} EncodeGrows(t: Text, n: nat)
    requires n < |t|
    ensures |Encode(t[..n])| < |Encode(t[..n + 1])| <= |Encode(t[..n])| + 4
    ensures |Encode(t[..n + 1])| <= |Encode(t)|
    decreases |t|
  {
    if n == 0 {
      assert t[..1] == [t[0]] + [] && t[..0] == [];
      EncodeCons(t[0], []);
    } else {
      EncodeGrows(t[1..], n - 1);
      assert t[..n] == [t[0]] + t[1..][..n - 1];
      assert t[..n + 1] == [t[0]] + t[1..][..n];
      EncodeCons(t[0], t[1..][..n - 1]);
      EncodeCons(t[0], t[1..][..n]);
    }
  }

  // ----- the preview -----

  datatype Preview = Preview(text: Text, truncated: bool, sourceBytes: nat, returnedBytes: nat)

  datatype Limited = Limited(content: seq<Byte>, truncated: bool, sourceBytes: nat)

  /** Reads one byte more than the cap to notice that there is more. */
  function ReadBytesLimited(file: seq<Byte>, max: nat): (r: Limited) {
    var content := Cut(file, max + 1);
    Limited(Cut(content, max), |file| > max || |content| > max, |file|)
  }

  /** The preview of a stored body; no path gives an empty preview, and the cap must be positive. */
  function ReadTextPreview(file: Option<seq<Byte>>, max: int): (r: Option<Preview>) {
    if file.None? then Some(Preview([], false, 0, 0))
    else if max < 1 then None
    else
      var l := ReadBytesLimited(file.value, max);
      var text := Decode(l.content);
      Some(Preview(text, l.truncated, l.sourceBytes, |Encode(text)|))
  }

  /**
   For every body the storage layer writes: the preview is the longest prefix of whole
   characters that fits the cap, at most three bytes short of it when something is cut,
   and the whole body, with the flag down, exactly when the encoding fits.
   */
  lemma PreviewRoundTrip(body: Text, max: nat)
    requires max >= 1
    ensures var r := ReadTextPreview(Some(Encode(body)), max);
            && r.Some?
            && LongestFit(body, max, r.value.text)
            && r.value.returnedBytes == |Encode(r.value.text)|
            && r.value.sourceBytes == |Encode(body)|
            && (r.value.truncated <==> |Encode(body)| > max)
            && (r.value.truncated <==> r.value.text != body)
            && (r.value.truncated ==> max - 3 <= r.value.returnedBytes <= max)
  {
    var file := Encode(body);
    assert Cut(Cut(file, max + 1), max) == Cut(file, max);
    DecodeCut(body, max);
    var p := Decode(Cut(file, max));
    if p != body {
      EncodeGrows(body, |p|);
      assert body[..|p|] == p;
    }
  }

  /** For any file: no path gives an empty preview, a cap below one is refused, and the flag says whether there is more. */
  lemma PreviewCases(file: Option<seq<Byte>>, max: int)
    ensures var r := ReadTextPreview(file, max);
            if file.None? then r == Some(Preview([], false, 0, 0))
            else if max <= 0 then r == None
            else
              && r.Some? && r.value.sourceBytes == |file.value| && (r.value.truncated <==> |file.value| > max)
              && r.value.text == Decode(if |file.value| > max then file.value[..max] else file.value)
  {
    if file.Some? && max > 0 { assert Cut(Cut(file.value, max + 1), max) == Cut(file.value, max); }
  }

  /** Decoding undoes encoding. */
  lemma DecodeEncode(t: Text)
    ensures Decode(Encode(t)) == t
  {
    DecodeCut(t, |Encode(t)|);
    var p := Decode(Cut(Encode(t), |Encode(t)|));
    if p != t {
      EncodeGrows(t, |p|);
      assert false;
    }
  }
}
