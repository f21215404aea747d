/** Base64 as the capture code writes it, and the decoder of RFC 4648, section 4. */
module Base64 {
  import opened Common
  import opened Strings

  type Byte = b: int | 0 <= b < 256

  type Sextet = n: int | 0 <= n < 64

  /** The alphabet: upper-case letters, lower-case letters, digits, plus and slash. */
  function Letter(n: nat): char
    requires n < 64
  {
    if n < 26 then 'A' + n as char
    else if n < 52 then 'a' + (n - 26) as char
    else if n < 62 then '0' + (n - 52) as char
    else if n == 62 then '+' else '/'
  }

  function Value(c: char): (v: Option<nat>)
    ensures v.Some? ==> v.value < 64
  {
    if 'A' <= c <= 'Z' then Some((c - 'A') as nat)
    else if 'a' <= c <= 'z' then Some((c - 'a') as nat + 26)
    else if '0' <= c <= '9' then Some((c - '0') as nat + 52)
    else if c == '+' then Some(62) else if c == '/' then Some(63) else None
  }

  /** Three bytes as four 6-bit fields. */
  datatype Fields = Fields(n0: Sextet, n1: Sextet, n2: Sextet, n3: Sextet) {
    function Byte0(): Byte { n0 * 4 + n1 / 16 }
    function Byte1(): Byte { n1 % 16 * 16 + n2 / 4 }
    function Byte2(): Byte { n2 % 4 * 64 + n3 }
  }

  function FieldsOf(b0: Byte, b1: Byte, b2: Byte): Fields {
    Fields(b0 / 4, b0 % 4 * 16 + b1 / 16, b1 % 16 * 4 + b2 / 64, b2 % 64)
  }

  function ByteAt(chunk: seq<Byte>, i: nat): Byte {
    if i < |chunk| then chunk[i] else 0
  }

  /** The characters that carry the first `n` bytes of a group, padded to four. */
  function Padded(f: Fields, n: nat): string {
    [Letter(f.n0), Letter(f.n1), if n > 1 then Letter(f.n2) else '=', if n > 2 then Letter(f.n3) else '=']
  }

  function EncodeGroup(chunk: seq<Byte>): string {
    Padded(FieldsOf(ByteAt(chunk, 0), ByteAt(chunk, 1), ByteAt(chunk, 2)), |chunk|)
  }

  /** The bytes of one group; only the last may be padded, and padding bits must be zero. */
  function DecodeGroup(s: string, last: bool): Option<seq<Byte>> {
    if |s| != 4 || Value(s[0]).None? || Value(s[1]).None? then None
    else
      var n0, n1 := Value(s[0]).value, Value(s[1]).value;
      if last && s[2] == '=' && s[3] == '=' then
        if n1 % 16 == 0 then Some([Fields(n0, n1, 0, 0).Byte0()]) else None
      else if Value(s[2]).None? then None
      else
        var n2 := Value(s[2]).value;
        if last && s[3] == '=' then
          var f := Fields(n0, n1, n2, 0);
          if n2 % 4 == 0 then Some([f.Byte0(), f.Byte1()]) else None
        else if Value(s[3]).None? then None
        else
          var f := Fields(n0, n1, n2, Value(s[3]).value);
          Some([f.Byte0(), f.Byte1(), f.Byte2()])
  }

  // Texts group by group, for any encoder and decoder of groups.

  type Encoder = seq<Byte> -> string

  type Decoder = (string, bool) -> Option<seq<Byte>>

  function FirstChunk(bytes: seq<Byte>): nat {
    if |bytes| < 3 then |bytes| else 3
  }

  function EncodeWith(encoder: Encoder, bytes: seq<Byte>): string
    decreases |bytes|
  {
    if bytes == [] then []
    else encoder(bytes[..FirstChunk(bytes)]) + EncodeWith(encoder, bytes[FirstChunk(bytes)..])
  }

  function DecodeWith(decoder: Decoder, s: string): Option<seq<Byte>>
    decreases |s|
  {
    if s == [] then Some([])
    else if |s| < 4 then None
    else
      match decoder(s[..4], |s| == 4)
      case None => None
      case Some(head) =>
        match DecodeWith(decoder, s[4..])
        case None => None
        case Some(rest) => Some(head + rest)
  }

  function Encode(bytes: seq<Byte>): string {
    EncodeWith(EncodeGroup, bytes)
  }

  function Decode(s: string): Option<seq<Byte>> {
    DecodeWith(DecodeGroup, s)
  }

  predicate IsChunk(chunk: seq<Byte>) {
    1 <= |chunk| <= 3
  }

  ghost predicate Inverts(encoder: Encoder, decoder: Decoder) {
    forall chunk, last :: IsChunk(chunk) && (last || |chunk| == 3) ==>
      |encoder(chunk)| == 4 && decoder(encoder(chunk), last) == Some(chunk)
  }

  ghost predicate InvertedBy(encoder: Encoder, decoder: Decoder) {
    forall s, last :: decoder(s, last).Some? ==>
      var chunk := decoder(s, last).value;
      IsChunk(chunk) && (last || |chunk| == 3) && encoder(chunk) == s
  }

  lemma {:induction false} DecodeEncoded(encoder: Encoder, decoder: Decoder, bytes: seq<Byte>)
    requires Inverts(encoder, decoder)
    ensures DecodeWith(decoder, EncodeWith(encoder, bytes)) == Some(bytes)
    ensures bytes != [] ==> EncodeWith(encoder, bytes) != []
    decreases |bytes|
  {
    if bytes != [] {
      var n := FirstChunk(bytes);
      var chunk, rest := bytes[..n], bytes[n..];
      DecodeEncoded(encoder, decoder, rest);
      assert IsChunk(chunk) && bytes == chunk + rest;
      var group, tail := encoder(chunk), EncodeWith(encoder, rest);
      assert decoder(group, rest == []) == Some(chunk);
      assert (group + tail)[..4] == group && (group + tail)[4..] == tail;
    }
  }

  lemma {:induction false} EncodeDecoded(encoder: Encoder, decoder: Decoder, s: string)
    requires InvertedBy(encoder, decoder) && DecodeWith(decoder, s).Some?
    ensures EncodeWith(encoder, DecodeWith(decoder, s).value) == s
    decreases |s|
  {
    if s != [] {
      EncodeDecoded(encoder, decoder, s[4..]);
      var chunk, rest := decoder(s[..4], |s| == 4).value, DecodeWith(decoder, s[4..]).value;
      assert s == s[..4] + s[4..];
      var n := FirstChunk(chunk + rest);
      assert s[4..] == [] ==> rest == [];
      assert n == |chunk| && (chunk + rest)[..n] == chunk && (chunk + rest)[n..] == rest;
    }
  }

  /** The padding is exactly the last `pads` characters. */
  predicate PaddedBy(text: string, pads: nat) {
    forall i :: 0 <= i < |text| ==> (text[i] == '=' <==> i >= |text| - pads)
  }

  ghost predicate Pads(encoder: Encoder) {
    forall chunk :: IsChunk(chunk) ==> |encoder(chunk)| == 4 && PaddedBy(encoder(chunk), 3 - |chunk|)
  }

  lemma {:induction false} ShapeWith(encoder: Encoder, bytes: seq<Byte>)
    requires Pads(encoder)
    ensures |EncodeWith(encoder, bytes)| == (|bytes| + 2) / 3 * 4
    ensures PaddedBy(EncodeWith(encoder, bytes), (3 - |bytes| % 3) % 3)
    decreases |bytes|
  {
    if bytes != [] {
      var n := FirstChunk(bytes);
      var chunk, rest := bytes[..n], bytes[n..];
      ShapeWith(encoder, rest);
      assert IsChunk(chunk);
      ChunkNumbers(|bytes|, n);
      PaddedJoin(encoder(chunk), EncodeWith(encoder, rest), 3 - n, (3 - |rest| % 3) % 3);
    }
  }

  lemma ChunkNumbers(length: nat, n: nat)
    requires length > 0 && n == if length < 3 then length else 3
    ensures (length + 2) / 3 * 4 == 4 + (length - n + 2) / 3 * 4
    ensures (3 - length % 3) % 3 == if length == n then 3 - n else (3 - (length - n) % 3) % 3
    ensures length == n ==> (length - n + 2) / 3 * 4 == 0
    ensures length > n ==> n == 3 && (length - n + 2) / 3 * 4 >= 4
  {
  }

  lemma PaddedJoin(group: string, tail: string, pads: nat, more: nat)
    requires |group| == 4 && PaddedBy(group, pads) && PaddedBy(tail, more) && more <= 2
    requires tail != [] ==> pads == 0 && |tail| >= 4
    ensures PaddedBy(group + tail, if tail == [] then pads else more)
  {
  }

  // The base64 group.

  lemma ValueOfLetter(n: nat)
    requires n < 64
    ensures Value(Letter(n)) == Some(n) && Letter(n) != '='
  {
  }

  lemma LetterOfValue(c: char)
    requires Value(c).Some?
    ensures Letter(Value(c).value) == c && c != '='
  {
  }

  lemma FieldsHoldBytes(b0: Byte, b1: Byte, b2: Byte)
    ensures
      var f := FieldsOf(b0, b1, b2);
      f.Byte0() == b0 && f.Byte1() == b1 && f.Byte2() == b2
    ensures b1 == 0 ==> FieldsOf(b0, b1, b2).n1 % 16 == 0
    ensures b2 == 0 ==> FieldsOf(b0, b1, b2).n2 % 4 == 0
  {
    var n1, n2 := b0 % 4 * 16 + b1 / 16, b1 % 16 * 4 + b2 / 64;
    assert n1 / 16 == b0 % 4 && n1 % 16 == b1 / 16;
    assert n2 / 4 == b1 % 16 && n2 % 4 == b2 / 64;
  }

  lemma BytesHoldFields(f: Fields)
    ensures FieldsOf(f.Byte0(), f.Byte1(), f.Byte2()) == f
  {
    var b0, b1, b2 := f.Byte0(), f.Byte1(), f.Byte2();
    assert b0 / 4 == f.n0 && b0 % 4 == f.n1 / 16;
    assert b1 / 16 == f.n1 % 16 && b1 % 16 == f.n2 / 4;
    assert b2 / 64 == f.n2 % 4 && b2 % 64 == f.n3;
  }

  lemma PaddedValues(f: Fields, n: nat)
    requires 1 <= n <= 3
    ensures
      var g := Padded(f, n);
      && Value(g[0]) == Some(f.n0) && Value(g[1]) == Some(f.n1)
      && (n > 1 ==> Value(g[2]) == Some(f.n2)) && (n > 2 ==> Value(g[3]) == Some(f.n3))
      && PaddedBy(g, 3 - n)
  {
    ValueOfLetter(f.n0);
    ValueOfLetter(f.n1);
    ValueOfLetter(f.n2);
    ValueOfLetter(f.n3);
  }

  lemma DecodePadded(f: Fields, n: nat, last: bool)
    requires 1 <= n <= 3 && (last || n == 3)
    requires (n < 3 ==> f.n3 == 0 && f.n2 % 4 == 0) && (n < 2 ==> f.n2 == 0 && f.n1 % 16 == 0)
    ensures DecodeGroup(Padded(f, n), last) == Some([f.Byte0(), f.Byte1(), f.Byte2()][..n])
  {
    PaddedValues(f, n);
    assert PaddedBy(Padded(f, n), 3 - n);
    var bytes := [f.Byte0(), f.Byte1(), f.Byte2()];
    assert bytes[..1] == [bytes[0]] && bytes[..2] == [bytes[0], bytes[1]] && bytes[..3] == bytes;
  }

  lemma GroupDecodes(chunk: seq<Byte>, last: bool)
    requires IsChunk(chunk) && (last || |chunk| == 3)
    ensures DecodeGroup(EncodeGroup(chunk), last) == Some(chunk)
  {
    var b0, b1, b2 := ByteAt(chunk, 0), ByteAt(chunk, 1), ByteAt(chunk, 2);
    FieldsHoldBytes(b0, b1, b2);
    DecodePadded(FieldsOf(b0, b1, b2), |chunk|, last);
    assert [b0, b1, b2][..|chunk|] == chunk;
  }

  lemma GroupEncodes(s: string, last: bool)
    requires DecodeGroup(s, last).Some?
    ensures
      var chunk := DecodeGroup(s, last).value;
      IsChunk(chunk) && (last || |chunk| == 3) && EncodeGroup(chunk) == s
  {
    var chunk := DecodeGroup(s, last).value;
    LetterOfValue(s[0]);
    LetterOfValue(s[1]);
    var n2 := if |chunk| > 1 then Value(s[2]).value else 0;
    var n3 := if |chunk| > 2 then Value(s[3]).value else 0;
    if |chunk| > 1 {
      LetterOfValue(s[2]);
    }
    if |chunk| > 2 {
      LetterOfValue(s[3]);
    }
    var f := Fields(Value(s[0]).value, Value(s[1]).value, n2, n3);
    BytesHoldFields(f);
    assert s == Padded(f, |chunk|);
  }

  lemma GroupCodec()
    ensures Inverts(EncodeGroup, DecodeGroup) && InvertedBy(EncodeGroup, DecodeGroup) && Pads(EncodeGroup)
  {
    forall chunk, last | IsChunk(chunk) && (last || |chunk| == 3)
      ensures |EncodeGroup(chunk)| == 4 && DecodeGroup(EncodeGroup(chunk), last) == Some(chunk)
    {
      GroupDecodes(chunk, last);
    }
    forall s, last | DecodeGroup(s, last).Some?
      ensures
        var chunk := DecodeGroup(s, last).value;
        IsChunk(chunk) && (last || |chunk| == 3) && EncodeGroup(chunk) == s
    {
      GroupEncodes(s, last);
    }
    forall chunk | IsChunk(chunk) ensures PaddedBy(EncodeGroup(chunk), 3 - |chunk|) {
      PaddedValues(FieldsOf(ByteAt(chunk, 0), ByteAt(chunk, 1), ByteAt(chunk, 2)), |chunk|);
    }
  }

  /** Decoding undoes encoding. */
  lemma DecodeUndoesEncode(bytes: seq<Byte>)
    ensures Decode(Encode(bytes)) == Some(bytes)
  {
    GroupCodec();
    DecodeEncoded(EncodeGroup, DecodeGroup, bytes);
  }

  /** Different byte strings have different encodings. */
  lemma EncodeIsInjective(a: seq<Byte>, b: seq<Byte>)
    requires Encode(a) == Encode(b)
    ensures a == b
  {
    DecodeUndoesEncode(a);
    DecodeUndoesEncode(b);
  }

  /** Every string the decoder takes is the encoding of what it gives. */
  lemma EncodeUndoesDecode(s: string)
    requires Decode(s).Some?
    ensures Encode(Decode(s).value) == s
  {
    GroupCodec();
    EncodeDecoded(EncodeGroup, DecodeGroup, s);
  }

  /** Four characters for every three bytes begun, padded only at the very end. */
  lemma EncodedShape(bytes: seq<Byte>)
    ensures |Encode(bytes)| == (|bytes| + 2) / 3 * 4
    ensures PaddedBy(Encode(bytes), (3 - |bytes| % 3) % 3)
  {
    GroupCodec();
    ShapeWith(EncodeGroup, bytes);
  }

  // The loop.

  lemma QuotientRemainder(a: nat, d: nat, q: nat, r: nat)
    requires a == q * d + r && r < d
    ensures a / d == q && a % d == r
  {
    var k := a / d;
    assert a == k * d + a % d;
    var gap: int := q - k;
    assert gap * d == a % d - r;
    assert gap >= 1 ==> gap * d >= d;
    assert gap < 0 ==> gap * d + d <= 0;
  }

  function Packed(b0: Byte, b1: Byte, b2: Byte): nat {
    b0 * 0x1_0000 + b1 * 0x100 + b2
  }

  /** The shifts and masks of a packed value. */
  function Unpacked(packed: nat): Fields {
    Fields(packed / 0x4_0000 % 64, packed / 0x1000 % 64, packed / 0x40 % 64, packed % 64)
  }

  lemma PackedFields(b0: Byte, b1: Byte, b2: Byte)
    ensures Unpacked(Packed(b0, b1, b2)) == FieldsOf(b0, b1, b2)
  {
    var packed := Packed(b0, b1, b2);
    QuotientRemainder(packed, 0x4_0000, b0 / 4, b0 % 4 * 0x1_0000 + b1 * 0x100 + b2);
    QuotientRemainder(packed, 0x1000, b0 * 16 + b1 / 16, b1 % 16 * 0x100 + b2);
    QuotientRemainder(b0 * 16 + b1 / 16, 64, b0 / 4, b0 % 4 * 16 + b1 / 16);
    QuotientRemainder(packed, 0x40, b0 * 0x400 + b1 * 4 + b2 / 64, b2 % 64);
    QuotientRemainder(b0 * 0x400 + b1 * 4 + b2 / 64, 64, b0 * 16 + b1 / 16, b1 % 16 * 4 + b2 / 64);
  }

  /** The characters of one chunk. */
  method WriteGroup(chunk: seq<Byte>) returns (group: string)
    requires IsChunk(chunk)
    ensures group == EncodeGroup(chunk)
  {
    var b0 := chunk[0];
    var b1: Byte := if |chunk| > 1 then chunk[1] else 0;
    var b2: Byte := if |chunk| > 2 then chunk[2] else 0;
    var packed := Packed(b0, b1, b2);
    PackedFields(b0, b1, b2);
    var f := Unpacked(packed);
    group := Padded(f, |chunk|);
  }

  lemma NextChunk(encoder: Encoder, bytes: seq<Byte>, at: nat, end: nat)
    requires at < |bytes| && end == if at + 3 < |bytes| then at + 3 else |bytes|
    ensures EncodeWith(encoder, bytes[at..]) == encoder(bytes[at..end]) + EncodeWith(encoder, bytes[end..])
  {
    var left := bytes[at..];
    assert left[..FirstChunk(left)] == bytes[at..end] && left[FirstChunk(left)..] == bytes[end..];
  }

  method ToBase64(bytes: seq<Byte>) returns (out: string)
    ensures out == Encode(bytes)
  {
    out := [];
    var at := 0;
    while at < |bytes|
      invariant 0 <= at <= |bytes|
      invariant Encode(bytes) == out + Encode(bytes[at..])
    {
      var end := if at + 3 < |bytes| then at + 3 else |bytes|;
      var group := WriteGroup(bytes[at..end]);
      NextChunk(EncodeGroup, bytes, at, end);
      Associative(out, group, Encode(bytes[end..]));
      out := out + group;
      at := end;
    }
  }
}
