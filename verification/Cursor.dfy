/**
 Page cursors: the 16 bytes of a UUID in the URL-safe base64 of section 5 of
 RFC 4648, and Python's lenient decoder, which skips characters outside the
 alphabet and stops at the padding. Both sides work on symbols (six bits, a pad,
 or noise); the alphabet only turns symbols into characters and back.
 */
module Cursors {
  import opened Base
  import opened Wallets

  type Six = n: nat | n < 64

  datatype Symbol = Bits(v: Six) | Pad | Noise

  // ----- the alphabet

  /** A-Z, a-z, 0-9, '-' and '_'. */
  function Letter(v: Six): char {
    if v < 26 then ('A' as int + v) as char
    else if v < 52 then ('a' as int + (v - 26)) as char
    else if v < 62 then ('0' as int + (v - 52)) as char
    else if v == 62 then '-' else '_'
  }

  function Glyph(x: Symbol): char {
    match x
    case Bits(v) => Letter(v)
    case Pad => '='
    case Noise => ' '
  }

  /** `-_` are translated to `+/` first, so the decoder takes both. */
  function Meaning(c: char): Symbol {
    if 'A' <= c <= 'Z' then Bits(c as int - 'A' as int)
    else if 'a' <= c <= 'z' then Bits(c as int - 'a' as int + 26)
    else if '0' <= c <= '9' then Bits(c as int - '0' as int + 52)
    else if c == '-' || c == '+' then Bits(62)
    else if c == '_' || c == '/' then Bits(63)
    else if c == '=' then Pad
    else Noise
  }

  function Text(xs: seq<Symbol>): string {
    seq(|xs|, i requires 0 <= i < |xs| => Glyph(xs[i]))
  }

  function Meanings(s: string): seq<Symbol> {
    seq(|s|, i requires 0 <= i < |s| => Meaning(s[i]))
  }

  /** Characters of the URL-safe alphabet, and the pad. */
  predicate Writable(s: string) {
    forall i :: 0 <= i < |s| ==> Meaning(s[i]) != Noise && s[i] != '+' && s[i] != '/'
  }

  lemma MeaningOfGlyph(x: Symbol)
    ensures Meaning(Glyph(x)) == x && Glyph(x) != '+' && Glyph(x) != '/'
  {
  }

  lemma MeaningsOfText(xs: seq<Symbol>, junk: string)
    ensures Meanings(Text(xs) + junk) == xs + Meanings(junk)
    ensures Noise !in xs ==> Writable(Text(xs))
  {
    forall i | 0 <= i < |xs|
      ensures Meaning(Text(xs)[i]) == xs[i] && Text(xs)[i] != '+' && Text(xs)[i] != '/'
    {
      MeaningOfGlyph(xs[i]);
    }
  }

  lemma TextOfMeanings(s: string)
    requires Writable(s)
    ensures Text(Meanings(s)) == s
  {
  }

  // ----- the encoder

  /** Three bytes, four groups of six bits. */
  function Quad(b0: Byte, b1: Byte, b2: Byte): seq<Symbol> {
    [Bits(b0 / 4), Bits(b0 % 4 * 16 + b1 / 16), Bits(b1 % 16 * 4 + b2 / 64), Bits(b2 % 64)]
  }

  function Code(b: seq<Byte>): seq<Symbol> {
    if |b| >= 3 then Quad(b[0], b[1], b[2]) + Code(b[3..])
    else if |b| == 2 then Quad(b[0], b[1], 0)[..3] + [Pad]
    else if |b| == 1 then Quad(b[0], 0, 0)[..2] + [Pad, Pad]
    else []
  }

  /** `base64.urlsafe_b64encode` */
  function Encode(b: seq<Byte>): string {
    Text(Code(b))
  }

  // ----- the decoder

  /** Bytes so far, position in the quad, bits left over, pads seen. */
  datatype Reader = Reader(out: seq<Byte>, quad: nat, left: nat, pads: nat)

  predicate Ready(r: Reader) {
    || (r.quad == 0 && r.left == 0)
    || (r.quad == 1 && r.left < 64)
    || (r.quad == 2 && r.left < 16)
    || (r.quad == 3 && r.left < 4)
  }

  function At(out: seq<Byte>): Reader {
    Reader(out, 0, 0, 0)
  }

  function Push(r: Reader, v: Six): (next: Reader)
    requires Ready(r)
    ensures Ready(next)
  {
    if r.quad == 0 then Reader(r.out, 1, v, 0)
    else if r.quad == 1 then Reader(r.out + [r.left * 4 + v / 16], 2, v % 16, 0)
    else if r.quad == 2 then Reader(r.out + [r.left * 16 + v / 4], 3, v % 4, 0)
    else Reader(r.out + [r.left * 64 + v], 0, 0, 0)
  }

  /** `binascii.a2b_base64`, not strict: None where it raises. */
  function Feed(r: Reader, xs: seq<Symbol>): Option<seq<Byte>>
    requires Ready(r)
    decreases |xs|
  {
    if xs == [] then (if r.quad == 0 then Some(r.out) else None)
    else
      match xs[0]
      case Bits(v) => Feed(Push(r, v), xs[1..])
      case Noise => Feed(r, xs[1..])
      case Pad =>
        if r.quad < 2 then Feed(r, xs[1..])
        else if r.quad + r.pads + 1 >= 4 then Some(r.out)
        else Feed(r.(pads := r.pads + 1), xs[1..])
  }

  function Decode(s: string): Option<seq<Byte>> {
    Feed(At([]), Meanings(s))
  }

  // ----- the encoder's text decodes to its bytes

  lemma FeedTwo(out: seq<Byte>, v0: Six, v1: Six, rest: seq<Symbol>)
    ensures Feed(At(out), [Bits(v0), Bits(v1)] + rest) == Feed(Reader(out + [v0 * 4 + v1 / 16], 2, v1 % 16, 0), rest)
  {
    var xs := [Bits(v0), Bits(v1)] + rest;
    assert xs[1..] == [Bits(v1)] + rest;
    assert ([Bits(v1)] + rest)[1..] == rest;
  }

  lemma FeedThird(out: seq<Byte>, left: nat, v: Six, rest: seq<Symbol>)
    requires left < 16
    ensures Feed(Reader(out, 2, left, 0), [Bits(v)] + rest)
         == Feed(Reader(out + [left * 16 + v / 4], 3, v % 4, 0), rest)
  {
    assert ([Bits(v)] + rest)[1..] == rest;
  }

  lemma FeedFourth(out: seq<Byte>, left: nat, v: Six, rest: seq<Symbol>)
    requires left < 4
    ensures Feed(Reader(out, 3, left, 0), [Bits(v)] + rest) == Feed(At(out + [left * 64 + v]), rest)
  {
    assert ([Bits(v)] + rest)[1..] == rest;
  }

  lemma FeedPads(out: seq<Byte>, left: nat, rest: seq<Symbol>)
    ensures left < 16 ==> Feed(Reader(out, 2, left, 0), [Pad, Pad] + rest) == Some(out)
    ensures left < 4 ==> Feed(Reader(out, 3, left, 0), [Pad] + rest) == Some(out)
  {
    assert ([Pad, Pad] + rest)[1..] == [Pad] + rest;
  }

  /** One full group: three bytes out, and the machine is back where it started. */
  lemma FeedQuad(out: seq<Byte>, b0: Byte, b1: Byte, b2: Byte, rest: seq<Symbol>)
    ensures Feed(At(out), Quad(b0, b1, b2) + rest) == Feed(At(out + [b0, b1, b2]), rest)
  {
    var (v0, v1, v2, v3) := (b0 / 4, b0 % 4 * 16 + b1 / 16, b1 % 16 * 4 + b2 / 64, b2 % 64);
    assert Quad(b0, b1, b2) + rest == [Bits(v0), Bits(v1)] + ([Bits(v2)] + ([Bits(v3)] + rest));
    FeedTwo(out, v0, v1, [Bits(v2)] + ([Bits(v3)] + rest));
    FeedThird(out + [b0], v1 % 16, v2, [Bits(v3)] + rest);
    FeedFourth(out + [b0] + [b1], v2 % 4, v3, rest);
    assert out + [b0] + [b1] + [b2] == out + [b0, b1, b2];
  }

  lemma FeedTail(out: seq<Byte>, b: seq<Byte>, rest: seq<Symbol>)
    requires 1 <= |b| <= 2
    ensures Feed(At(out), Code(b) + rest) == Some(out + b)
  {
    var v1 := b[0] % 4 * 16 + (if |b| == 2 then b[1] / 16 else 0);
    if |b| == 1 {
      assert Code(b) + rest == [Bits(b[0] / 4), Bits(v1)] + ([Pad, Pad] + rest);
      FeedTwo(out, b[0] / 4, v1, [Pad, Pad] + rest);
      FeedPads(out + [b[0]], v1 % 16, rest);
      assert out + [b[0]] == out + b;
    } else {
      var v2 := b[1] % 16 * 4;
      assert Code(b) + rest == [Bits(b[0] / 4), Bits(v1)] + ([Bits(v2)] + ([Pad] + rest));
      FeedTwo(out, b[0] / 4, v1, [Bits(v2)] + ([Pad] + rest));
      FeedThird(out + [b[0]], v1 % 16, v2, [Pad] + rest);
      FeedPads(out + [b[0]] + [b[1]], 0, rest);
      assert out + [b[0]] + [b[1]] == out + b;
    }
  }

  predicate Padded(b: seq<Byte>) {
    if |b| >= 3 then Padded(b[3..]) else b != []
  }

  /** Decoding what the encoder wrote gives its bytes back; junk after padding is never looked at. */
  lemma {:induction false} FeedCode(out: seq<Byte>, b: seq<Byte>, junk: seq<Symbol>)
    requires Padded(b) || junk == []
    ensures Feed(At(out), Code(b) + junk) == Some(out + b)
    decreases |b|
  {
    if |b| >= 3 {
      var (three, rest) := ([b[0], b[1], b[2]], b[3..]);
      assert Code(b) + junk == Quad(b[0], b[1], b[2]) + (Code(rest) + junk);
      FeedQuad(out, b[0], b[1], b[2], Code(rest) + junk);
      FeedCode(out + three, rest, junk);
      assert out + three + rest == out + b;
    } else if b != [] {
      FeedTail(out, b, junk);
    } else {
      assert out + b == out;
    }
  }

  /** Every byte string survives the round trip. */
  lemma DecodeUndoesEncode(b: seq<Byte>)
    ensures Decode(Encode(b)) == Some(b)
  {
    MeaningsOfText(Code(b), "");
    assert Encode(b) + "" == Encode(b) && Code(b) + [] == Code(b) && Meanings("") == [];
    FeedCode([], b, []);
    assert [] + b == b;
  }

  // ----- which texts are what the encoder would write

  predicate FullQuad(xs: seq<Symbol>) {
    |xs| >= 4 && xs[0].Bits? && xs[1].Bits? && xs[2].Bits? && xs[3].Bits?
  }

  /** Zero bits under the padding. */
  predicate PaddedQuad(xs: seq<Symbol>) {
    && |xs| == 4 && xs[0].Bits? && xs[1].Bits? && xs[3].Pad?
    && ((xs[2].Pad? && xs[1].v % 16 == 0) || (xs[2].Bits? && xs[2].v % 4 == 0))
  }

  /** Whole quads, padded only at the end. */
  predicate CanonicalCode(xs: seq<Symbol>) {
    xs == [] || PaddedQuad(xs) || (FullQuad(xs) && CanonicalCode(xs[4..]))
  }

  predicate Canonical(s: string) {
    Writable(s) && CanonicalCode(Meanings(s))
  }

  lemma {:induction false} CodeIsCanonical(b: seq<Byte>)
    ensures CanonicalCode(Code(b)) && Noise !in Code(b)
    decreases |b|
  {
    if |b| >= 3 {
      CodeIsCanonical(b[3..]);
      assert Code(b)[4..] == Code(b[3..]);
    }
  }

  lemma BytesSplit(v0: Six, v1: Six, v2: Six, v3: Six)
    ensures var (b0, b1, b2) := (v0 * 4 + v1 / 16, v1 % 16 * 16 + v2 / 4, v2 % 4 * 64 + v3);
            && b0 / 4 == v0 && b0 % 4 * 16 + b1 / 16 == v1
            && b1 % 16 * 4 + b2 / 64 == v2 && b2 % 64 == v3
  {
    var (b0, b1, b2) := (v0 * 4 + v1 / 16, v1 % 16 * 16 + v2 / 4, v2 % 4 * 64 + v3);
    assert b0 % 4 == v1 / 16 && b1 / 16 == v1 % 16;
    assert b1 % 16 == v2 / 4 && b2 / 64 == v2 % 4;
  }

  lemma BytesOfQuad(v0: Six, v1: Six, v2: Six, v3: Six) returns (b0: Byte, b1: Byte, b2: Byte)
    ensures Quad(b0, b1, b2) == [Bits(v0), Bits(v1), Bits(v2), Bits(v3)]
    ensures v2 % 4 == 0 && v3 == 0 ==> b2 == 0
    ensures v1 % 16 == 0 && v2 == 0 ==> b1 == 0
  {
    BytesSplit(v0, v1, v2, v3);
    b0, b1, b2 := v0 * 4 + v1 / 16, v1 % 16 * 16 + v2 / 4, v2 % 4 * 64 + v3;
  }

  lemma {:induction false} CanonicalIsCode(xs: seq<Symbol>) returns (b: seq<Byte>)
    requires CanonicalCode(xs)
    ensures Code(b) == xs
    decreases |xs|
  {
    if xs == [] {
      b := [];
    } else if PaddedQuad(xs) {
      var b0, b1, b2 := BytesOfQuad(xs[0].v, xs[1].v, if xs[2].Bits? then xs[2].v else 0, 0);
      b := if xs[2].Bits? then [b0, b1] else [b0];
    } else {
      var b0, b1, b2 := BytesOfQuad(xs[0].v, xs[1].v, xs[2].v, xs[3].v);
      var rest := CanonicalIsCode(xs[4..]);
      b := [b0, b1, b2] + rest;
      assert b[3..] == rest;
      assert xs == xs[..4] + xs[4..];
    }
  }

  /** Decoding and encoding again gives back the same text exactly for canonical texts. */
  lemma EncodeUndoesDecodeIff(s: string)
    ensures Decode(s).Some? && Encode(Decode(s).value) == s <==> Canonical(s)
  {
    if Decode(s).Some? && Encode(Decode(s).value) == s {
      var b := Decode(s).value;
      CodeIsCanonical(b);
      MeaningsOfText(Code(b), "");
      assert Encode(b) + "" == Encode(b) && Code(b) + [] == Code(b) && Meanings("") == [];
    }
    if Canonical(s) {
      var b := CanonicalIsCode(Meanings(s));
      TextOfMeanings(s);
      DecodeUndoesEncode(b);
    }
  }

  predicate EndsInTwoPads(xs: seq<Symbol>) {
    |xs| >= 2 && xs[|xs| - 2] == Pad
  }

  /** Four symbols for three bytes, rounded up; two pads exactly when one byte is left over. */
  lemma {:induction false} CodeLength(b: seq<Byte>) returns (quads: nat)
    ensures |Code(b)| == 4 * quads && |b| <= 3 * quads <= |b| + 2
    ensures EndsInTwoPads(Code(b)) <==> 3 * quads == |b| + 2
    decreases |b|
  {
    if |b| >= 3 {
      quads := CodeLength(b[3..]);
      quads := quads + 1;
    } else {
      quads := if b == [] then 0 else 1;
    }
  }

  lemma {:induction false} PaddedUnlessWhole(b: seq<Byte>, whole: nat)
    requires 3 * whole < |b| < 3 * whole + 3
    ensures Padded(b)
    decreases |b|
  {
    if |b| >= 3 {
      PaddedUnlessWhole(b[3..], whole - 1);
    }
  }

  // ----- UUIDs

  /** `n` as `width` bytes, most significant first. */
  function BigEndian(n: nat, width: nat): (b: seq<Byte>)
    ensures |b| == width
  {
    if width == 0 then [] else BigEndian(n / 256, width - 1) + [n % 256]
  }

  function FromBytes(b: seq<Byte>): nat {
    if b == [] then 0 else 256 * FromBytes(b[..|b| - 1]) + b[|b| - 1]
  }

  ghost function Pow256(n: nat): int {
    if n == 0 then 1 else 256 * Pow256(n - 1)
  }

  lemma {:induction false} FromBytesUndoes(n: nat, width: nat)
    requires n < Pow256(width)
    ensures FromBytes(BigEndian(n, width)) == n
  {
    if width > 0 {
      FromBytesUndoes(n / 256, width - 1);
      assert BigEndian(n, width)[..width] == BigEndian(n, width);
      assert BigEndian(n, width)[..width - 1] == BigEndian(n / 256, width - 1);
    }
  }

  lemma {:induction false} BigEndianUndoes(b: seq<Byte>)
    ensures FromBytes(b) < Pow256(|b|) && BigEndian(FromBytes(b), |b|) == b
  {
    if b != [] {
      BigEndianUndoes(b[..|b| - 1]);
    }
  }

  lemma SixteenBytes()
    ensures Pow256(16) == 0x1_0000_0000_0000_0000_0000_0000_0000_0000
  {
    assert Pow256(4) == 0x1_0000_0000;
    assert Pow256(8) == 0x1_0000_0000 * Pow256(4);
    assert Pow256(12) == 0x1_0000_0000 * Pow256(8);
    assert Pow256(16) == 0x1_0000_0000 * Pow256(12);
  }

  function EncodeCursor(id: Id): string {
    Encode(BigEndian(id, 16))
  }

  datatype CursorError = Malformed

  function DecodeCursor(cursor: Option<string>): Result<Option<Id>, CursorError> {
    match cursor
    case None => Ok(None)
    case Some(text) =>
      match Decode(text)
      case None => Err(Malformed)
      case Some(b) =>
        if |b| != 16 then Err(Malformed)
        else
          BigEndianUndoes(b);
          SixteenBytes();
          Ok(Some(FromBytes(b)))
  }

  /** Every id comes back from its cursor; anything after the padding is ignored. */
  lemma CursorRoundTrip(id: Id, junk: string)
    ensures DecodeCursor(Some(EncodeCursor(id) + junk)) == Ok(Some(id))
  {
    SixteenBytes();
    FromBytesUndoes(id, 16);
    var b := BigEndian(id, 16);
    PaddedUnlessWhole(b, 5);
    MeaningsOfText(Code(b), junk);
    FeedCode([], b, Meanings(junk));
    assert [] + b == b;
  }

  lemma CursorOfBytes(b: seq<Byte>)
    requires |b| == 16
    ensures FromBytes(b) < 0x1_0000_0000_0000_0000_0000_0000_0000_0000 && EncodeCursor(FromBytes(b)) == Encode(b)
  {
    BigEndianUndoes(b);
    SixteenBytes();
  }

  /** Of all texts that encode some bytes, the cursors are those of 16 bytes. */
  lemma CursorTexts(text: string, encoded: bool)
    requires encoded <==> Decode(text).Some? && Encode(Decode(text).value) == text
    ensures (DecodeCursor(Some(text)).Ok? && EncodeCursor(DecodeCursor(Some(text)).value.value) == text)
            <==> encoded && |text| == 24 && text[22] == '='
  {
    if Decode(text).Some? {
      var b := Decode(text).value;
      var quads := CodeLength(b);
      if |b| == 16 {
        CursorOfBytes(b);
      }
      if encoded && |text| == 24 {
        MeaningOfGlyph(Code(b)[22]);
        assert Glyph(Pad) == '=' && text[22] == Glyph(Code(b)[22]);
      }
    }
  }

  /** A cursor text is what the encoder writes exactly when it is canonical base64 of 16 bytes. */
  lemma CursorTextRoundTripIff(text: string)
    ensures (DecodeCursor(Some(text)).Ok? && EncodeCursor(DecodeCursor(Some(text)).value.value) == text)
            <==> Canonical(text) && |text| == 24 && text[22] == '='
  {
    EncodeUndoesDecodeIff(text);
    CursorTexts(text, Canonical(text));
  }

  // ----- which texts are cursors at all

  /** How many symbols that carry bits. */
  function Count(xs: seq<Symbol>): nat {
    if xs == [] then 0 else Count(xs[..|xs| - 1]) + if xs[|xs| - 1].Bits? then 1 else 0
  }

  /** How many pads since the last of those. */
  function Trailing(xs: seq<Symbol>): nat {
    if xs == [] || xs[|xs| - 1].Bits? then 0
    else Trailing(xs[..|xs| - 1]) + if xs[|xs| - 1].Pad? then 1 else 0
  }

  /** The pad that completes a quad of which at least two symbols are there; an earlier one is skipped. */
  predicate Closes(xs: seq<Symbol>, i: nat)
    requires i < |xs|
  {
    xs[i].Pad? && Count(xs[..i]) % 4 >= 2 && Count(xs[..i]) % 4 + Trailing(xs[..i]) + 1 >= 4
  }

  predicate FirstCloses(xs: seq<Symbol>, i: nat)
    requires i < |xs|
  {
    Closes(xs, i) && forall j :: 0 <= j < i ==> !Closes(xs, j)
  }

  /** Whole bytes in that many symbols. */
  function WholeBytes(symbols: nat): nat {
    symbols * 6 / 8
  }

  /** The reader has read `before`, none of which closes. */
  ghost predicate HasRead(r: Reader, before: seq<Symbol>) {
    && Ready(r) && r.quad == Count(before) % 4 && |r.out| == WholeBytes(Count(before))
    && (r.quad >= 2 ==> r.pads == Trailing(before))
    && (r.quad < 2 ==> r.pads == 0)
  }

  lemma CountNext(before: seq<Symbol>, x: Symbol)
    ensures Count(before + [x]) == Count(before) + (if x.Bits? then 1 else 0)
    ensures Trailing(before + [x]) == if x.Bits? then 0 else Trailing(before) + if x.Pad? then 1 else 0
  {
    assert (before + [x])[..|before + [x]| - 1] == before;
  }

  lemma FeedOne(xs: seq<Symbol>, k: nat, r: Reader)
    requires k < |xs| && HasRead(r, xs[..k])
    ensures if Closes(xs, k) then Feed(r, xs[k..]) == Some(r.out)
            else HasRead(Read(r, xs[k]), xs[..k + 1]) && Feed(r, xs[k..]) == Feed(Read(r, xs[k]), xs[k + 1..])
  {
    CountNext(xs[..k], xs[k]);
    assert xs[..k + 1] == xs[..k] + [xs[k]];
    assert xs[k..][0] == xs[k] && xs[k..][1..] == xs[k + 1..];
  }

  /** Decoding stops at the first pad that closes; without one the text must end between two quads. */
  lemma {:induction false} FeedIs(xs: seq<Symbol>, k: nat, r: Reader)
    requires k <= |xs| && HasRead(r, xs[..k]) && forall j :: 0 <= j < k ==> !Closes(xs, j)
    ensures var read := Feed(r, xs[k..]);
            && (forall i :: 0 <= i < |xs| && FirstCloses(xs, i) ==>
                  read.Some? && |read.value| == WholeBytes(Count(xs[..i])))
            && ((forall i :: 0 <= i < |xs| ==> !Closes(xs, i)) ==>
                  && (read.Some? <==> Count(xs) % 4 == 0)
                  && (read.Some? ==> |read.value| == WholeBytes(Count(xs))))
    decreases |xs| - k
  {
    if k == |xs| {
      assert xs[..k] == xs && xs[k..] == [];
    } else {
      FeedOne(xs, k, r);
      if !Closes(xs, k) {
        FeedIs(xs, k + 1, Read(r, xs[k]));
      }
    }
  }

  /** The reader after one more symbol that does not close. */
  function Read(r: Reader, x: Symbol): (next: Reader)
    requires Ready(r)
    ensures Ready(next)
  {
    if x.Bits? then Push(r, x.v) else if x.Pad? && r.quad >= 2 then r.(pads := r.pads + 1) else r
  }

  /**
   A text is a cursor if and only if the first pad in it that closes comes after 22 symbols, which
   carry the 128 bits of an id; everything else is malformed.
   */
  lemma IsCursorIff(text: string)
    ensures var xs := Meanings(text);
            DecodeCursor(Some(text)).Ok? <==> exists i :: 0 <= i < |xs| && FirstCloses(xs, i) && Count(xs[..i]) == 22
    ensures DecodeCursor(Some(text)).Ok? ==> DecodeCursor(Some(text)).value.Some?
  {
    var xs := Meanings(text);
    assert xs[..0] == [] && xs[0..] == xs;
    FeedIs(xs, 0, At([]));
    if i :| 0 <= i < |xs| && Closes(xs, i) {
      var _ := SomeFirst(xs, i);
    }
  }

  lemma {:induction false} SomeFirst(xs: seq<Symbol>, i: nat) returns (first: nat)
    requires i < |xs| && Closes(xs, i)
    ensures first <= i && FirstCloses(xs, first)
  {
    if j :| 0 <= j < i && Closes(xs, j) {
      first := SomeFirst(xs, j);
    } else {
      first := i;
    }
  }
}
