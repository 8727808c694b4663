/**
 The `.plur` capsule: a 12-byte preamble, a JSON header, the payload, and a 64-byte trailer when it is signed.
 */
module Capsule {
  import opened Wrappers

  const MAGIC: Bytes := [0x50, 0x4c, 0x55, 0x52]
  const FORMAT_VERSION_V1: nat := 1
  const PREAMBLE_LEN: nat := 12
  const HARD_BYTES: nat := 0x4000_0000
  const ED25519_SIG_LEN: nat := 64

  // ----- numbers in the preamble, little-endian

  function U16(n: nat): Bytes
    requires n < 0x1_0000
  {
    [n % 256, n / 256]
  }

  function ReadU16(b: Bytes, at: nat): (n: nat)
    requires at + 2 <= |b|
    ensures n < 0x1_0000
  {
    b[at] as int + 256 * b[at + 1] as int
  }

  function U32(n: nat): Bytes
    requires n < 0x1_0000_0000
  {
    U16(n % 0x1_0000) + U16(n / 0x1_0000)
  }

  function ReadU32(b: Bytes, at: nat): (n: nat)
    requires at + 4 <= |b|
    ensures n < 0x1_0000_0000
  {
    ReadU16(b, at) + 0x1_0000 * ReadU16(b, at + 2)
  }

  /** Bit 0 of the flags is SIGNED, bit 1 COMPRESSED; the mask 0xfffc covers the rest. */
  predicate Signed(flags: nat) {
    flags % 2 == 1
  }

  predicate Compressed(flags: nat) {
    flags / 2 % 2 == 1
  }

  predicate ReservedSet(flags: nat) {
    flags / 4 != 0
  }

  // ----- headers and their encoding

  type Meta = string

  datatype Compression = Gzip | NoCompression

  datatype Header = Header(meta: Meta, compression: Compression, sizeCompressed: nat, sizeUncompressed: nat,
                           sha256: string,
                           signer: Option<string>)

  /** The schema with its defaults, JSON both ways (`decode` checks the schema too), and SHA-256. */
  datatype Codec = Codec(check: Header -> Option<Header>, encode: Header -> Bytes, decode: Bytes -> Option<Header>,
                         sha: Bytes -> string)

  /** The schema fills in defaults of the metadata only, and what was written reads back. */
  ghost predicate GoodCodec(c: Codec) {
    forall h {:trigger c.check(h)} :: c.check(h).Some? ==>
      var n := c.check(h).value;
      n == h.(meta := n.meta) && c.decode(c.encode(n)) == Some(n) && |c.encode(n)| > 0
  }

  // ----- the preamble

  datatype Error =
    | SignatureMissing | SignerMissing | BadHeader | TooLarge
    | TruncatedPreamble | BadMagic | BadVersion | ReservedFlags | NoHeader | HeaderTooLarge
    | TruncatedHeader | AmbiguousSignature | Underflow | SizeMismatch | IntegrityMismatch | CompressionMismatch

  datatype Preamble = Preamble(formatVersion: nat, flags: nat, headerLen: nat)

  predicate Fits(p: Preamble) {
    p.formatVersion < 0x1_0000 && p.flags < 0x1_0000 && p.headerLen < 0x1_0000_0000
  }

  function SerializePreamble(p: Preamble): (b: Bytes)
    requires Fits(p)
    ensures |b| == PREAMBLE_LEN
  {
    MAGIC + U16(p.formatVersion) + U16(p.flags) + U32(p.headerLen)
  }

  function ParsePreamble(b: Bytes): Result<Preamble, Error> {
    if |b| < PREAMBLE_LEN then Failure(TruncatedPreamble)
    else if b[..4] != MAGIC then Failure(BadMagic)
    else if ReadU16(b, 4) != FORMAT_VERSION_V1 then Failure(BadVersion)
    else if ReservedSet(ReadU16(b, 6)) then Failure(ReservedFlags)
    else if ReadU32(b, 8) == 0 then Failure(NoHeader)
    else if ReadU32(b, 8) > HARD_BYTES then Failure(HeaderTooLarge)
    else Success(Preamble(ReadU16(b, 4), ReadU16(b, 6), ReadU32(b, 8)))
  }

  /** A preamble the reader takes. */
  predicate Readable(p: Preamble) {
    p.formatVersion == FORMAT_VERSION_V1 && p.flags < 4 && 0 < p.headerLen <= HARD_BYTES
  }

  lemma U16Inverse(n: nat, b: Bytes, at: nat)
    requires n < 0x1_0000 && at + 2 <= |b|
    ensures b[at..at + 2] == U16(n) <==> ReadU16(b, at) == n
  {
    assert b[at..at + 2] == [b[at], b[at + 1]];
  }

  lemma SplitPreamble(p: Preamble, b: Bytes)
    requires Fits(p) && |b| >= PREAMBLE_LEN
    ensures b[..PREAMBLE_LEN] == SerializePreamble(p) <==>
      b[..4] == MAGIC && b[4..6] == U16(p.formatVersion) && b[6..8] == U16(p.flags) &&
      b[8..10] == U16(p.headerLen % 0x1_0000) && b[10..12] == U16(p.headerLen / 0x1_0000)
  {
    var s := SerializePreamble(p);
    assert s[..4] == MAGIC && s[4..6] == U16(p.formatVersion) && s[6..8] == U16(p.flags);
    assert s[8..10] == U16(p.headerLen % 0x1_0000) && s[10..12] == U16(p.headerLen / 0x1_0000);
    assert b[..12] == b[..4] + b[4..6] + b[6..8] + b[8..10] + b[10..12];
    assert s == s[..4] + s[4..6] + s[6..8] + s[8..10] + s[10..12];
    if b[..PREAMBLE_LEN] == s {
      assert b[..4] == b[..12][..4] && b[4..6] == b[..12][4..6] && b[6..8] == b[..12][6..8];
      assert b[8..10] == b[..12][8..10] && b[10..12] == b[..12][10..12];
    }
  }

  /** The reader takes exactly the serialized readable preambles, followed by anything. */
  lemma PreambleInverse(p: Preamble, b: Bytes)
    requires Readable(p)
    ensures ParsePreamble(b) == Success(p) <==> |b| >= PREAMBLE_LEN && b[..PREAMBLE_LEN] == SerializePreamble(p)
  {
    if |b| >= PREAMBLE_LEN {
      U16Inverse(p.formatVersion, b, 4);
      U16Inverse(p.flags, b, 6);
      U16Inverse(p.headerLen % 0x1_0000, b, 8);
      U16Inverse(p.headerLen / 0x1_0000, b, 10);
      SplitPreamble(p, b);
    }
  }

  lemma LowHalf(n: nat)
    ensures n % 0x1_0000 % 256 == n % 256 && n % 0x1_0000 / 256 == n / 256 % 256
  {
    var high, low := n / 0x1_0000, n % 0x1_0000;
    assert n == 0x1_0000 * high + low;
    assert n / 256 == 256 * high + low / 256;
  }

  lemma HighHalf(n: nat)
    ensures n / 0x1_0000 / 256 == n / 0x100_0000
  {
  }

  lemma U32Bytes(n: nat)
    requires n < 0x1_0000_0000
    ensures U32(n) == [n % 256, n / 256 % 256, n / 0x1_0000 % 256, n / 0x100_0000]
  {
    LowHalf(n);
    HighHalf(n);
  }

  /** The twelve bytes: the magic, then version, flags and header length with the low byte first. */
  lemma PreambleBytes(p: Preamble)
    requires Fits(p)
    ensures SerializePreamble(p) ==
      [0x50, 0x4c, 0x55, 0x52, p.formatVersion % 256, p.formatVersion / 256, p.flags % 256, p.flags / 256,
       p.headerLen % 256, p.headerLen / 256 % 256, p.headerLen / 0x1_0000 % 256, p.headerLen / 0x100_0000]
  {
    hide U32;
    U32Bytes(p.headerLen);
  }

  lemma ParsedIsReadable(b: Bytes)
    requires ParsePreamble(b).Success?
    ensures Readable(ParsePreamble(b).value)
  {
  }

  // ----- the writer

  datatype WriteOptions = WriteOptions(payload: Bytes, meta: Meta, compression: Option<Compression>,
                                       sizeUncompressed: Option<nat>,
                                       signer: Option<string>, signature: Option<Bytes>)

  function Or<T>(o: Option<T>, d: T): T {
    if o.Some? then o.value else d
  }

  function HeaderOf(c: Codec, o: WriteOptions): Header {
    Header(o.meta, Or(o.compression, Gzip), |o.payload|, Or(o.sizeUncompressed, |o.payload|), c.sha(o.payload),
           o.signer)
  }

  function FlagsOf(h: Header): (flags: nat)
    ensures flags < 4 && (Signed(flags) <==> h.signer.Some?) && (Compressed(flags) <==> h.compression.Gzip?)
  {
    (if h.compression.Gzip? then 2 else 0) + if h.signer.Some? then 1 else 0
  }

  function WriteCapsule(c: Codec, o: WriteOptions): Result<Bytes, Error> {
    if o.signer.Some? && (o.signature.None? || |o.signature.value| != ED25519_SIG_LEN) then Failure(SignatureMissing)
    else if o.signer.None? && o.signature.Some? then Failure(SignerMissing)
    else
      match c.check(HeaderOf(c, o))
      case None => Failure(BadHeader)
      case Some(header) =>
        var json := c.encode(header);
        var total := PREAMBLE_LEN + |json| + |o.payload| + if o.signer.Some? then ED25519_SIG_LEN else 0;
        if total > HARD_BYTES then Failure(TooLarge)
        else
          Success(SerializePreamble(Preamble(FORMAT_VERSION_V1, FlagsOf(HeaderOf(c, o)), |json|)) + json + o.payload +
                  Or(o.signature, []))
  }

  // ----- the reader

  datatype Contents = Contents(header: Header, payload: Bytes, signature: Option<Bytes>)

  function ReadBody(c: Codec, b: Bytes, p: Preamble, header: Header, headerEnd: nat): Result<Contents, Error>
    requires headerEnd <= |b|
  {
    if Signed(p.flags) != header.signer.Some? then Failure(AmbiguousSignature)
    else
      var payloadEnd := |b| - if Signed(p.flags) then ED25519_SIG_LEN else 0;
      if payloadEnd < headerEnd then Failure(Underflow)
      else
        var payload := b[headerEnd..payloadEnd];
        if |payload| != header.sizeCompressed then Failure(SizeMismatch)
        else if c.sha(payload) != header.sha256 then Failure(IntegrityMismatch)
        else if Compressed(p.flags) != header.compression.Gzip? then Failure(CompressionMismatch)
        else Success(Contents(header, payload, if Signed(p.flags) then Some(b[payloadEnd..]) else None))
  }

  function ReadCapsule(c: Codec, b: Bytes): Result<Contents, Error> {
    if |b| > HARD_BYTES then Failure(TooLarge)
    else
      match ParsePreamble(b)
      case Failure(e) => Failure(e)
      case Success(p) =>
        var headerEnd := PREAMBLE_LEN + p.headerLen;
        if |b| < headerEnd then Failure(TruncatedHeader)
        else
          match c.decode(b[PREAMBLE_LEN..headerEnd])
          case None => Failure(BadHeader)
          case Some(header) => ReadBody(c, b, p, header, headerEnd)
  }

  // ----- what a capsule is

  /** The header agrees with the payload and with the signature's presence. */
  predicate Consistent(c: Codec, x: Contents) {
    && x.header.sizeCompressed == |x.payload| && x.header.sha256 == c.sha(x.payload)
    && x.header.signer.Some? == x.signature.Some?
    && (x.signature.Some? ==> |x.signature.value| == ED25519_SIG_LEN)
  }

  /** b is the capsule of x with the header's bytes `json`: four parts, end to end, and nothing more. */
  ghost predicate IsCapsule(c: Codec, b: Bytes, json: Bytes, x: Contents) {
    && Consistent(c, x) && c.decode(json) == Some(x.header) && 0 < |json| <= HARD_BYTES && |b| <= HARD_BYTES
    && b == SerializePreamble(Preamble(FORMAT_VERSION_V1, FlagsOf(x.header), |json|)) + json + x.payload +
       Or(x.signature, [])
  }

  lemma FlagsAre(flags: nat, h: Header)
    requires flags < 4 && (Signed(flags) <==> h.signer.Some?) && (Compressed(flags) <==> h.compression.Gzip?)
    ensures flags == FlagsOf(h)
  {
  }

  /** A reader that accepts has split the whole buffer into the four parts. */
  lemma AcceptedIsCapsule(c: Codec, b: Bytes)
    requires ReadCapsule(c, b).Success?
    ensures ParsePreamble(b).Success? && PREAMBLE_LEN + ParsePreamble(b).value.headerLen <= |b|
    ensures IsCapsule(c, b, b[PREAMBLE_LEN..PREAMBLE_LEN + ParsePreamble(b).value.headerLen], ReadCapsule(c, b).value)
  {
    var p, x := ParsePreamble(b).value, ReadCapsule(c, b).value;
    var headerEnd := PREAMBLE_LEN + p.headerLen;
    ParsedIsReadable(b);
    PreambleInverse(p, b);
    FlagsAre(p.flags, x.header);
    assert b == b[..PREAMBLE_LEN] + b[PREAMBLE_LEN..headerEnd] + x.payload + Or(x.signature, []);
  }

  /** Four consistent parts, end to end, are accepted and split as they were put together. */
  lemma CapsuleIsAccepted(c: Codec, b: Bytes, json: Bytes, x: Contents)
    requires IsCapsule(c, b, json, x)
    ensures ReadCapsule(c, b) == Success(x)
    ensures ParsePreamble(b).Success? && ParsePreamble(b).value.headerLen == |json|
  {
    var p := Preamble(FORMAT_VERSION_V1, FlagsOf(x.header), |json|);
    var head := SerializePreamble(p);
    var headerEnd := PREAMBLE_LEN + |json|;
    assert b[..PREAMBLE_LEN] == head;
    PreambleInverse(p, b);
    assert b[PREAMBLE_LEN..headerEnd] == json;
    assert b[headerEnd..headerEnd + |x.payload|] == x.payload;
    assert b[headerEnd + |x.payload|..] == Or(x.signature, []);
  }

  /** The reader accepts exactly the capsules, and every capsule is one in one way only. */
  lemma ReadsExactlyCapsules(c: Codec, b: Bytes, x: Contents)
    ensures ReadCapsule(c, b) == Success(x) <==> exists json :: IsCapsule(c, b, json, x)
  {
    if ReadCapsule(c, b) == Success(x) {
      AcceptedIsCapsule(c, b);
    }
    if json :| IsCapsule(c, b, json, x) {
      CapsuleIsAccepted(c, b, json, x);
    }
  }

  lemma OneSplit(c: Codec, b: Bytes, json: Bytes, x: Contents, json': Bytes, x': Contents)
    requires IsCapsule(c, b, json, x) && IsCapsule(c, b, json', x')
    ensures json == json' && x == x'
  {
    CapsuleIsAccepted(c, b, json, x);
    CapsuleIsAccepted(c, b, json', x');
    assert b[PREAMBLE_LEN..PREAMBLE_LEN + |json|] == json && b[PREAMBLE_LEN..PREAMBLE_LEN + |json'|] == json';
  }

  /** What was written reads back: the same header, payload and signature. */
  lemma RoundTrip(c: Codec, o: WriteOptions)
    requires GoodCodec(c) && WriteCapsule(c, o).Success?
    ensures c.check(HeaderOf(c, o)).Some?
    ensures ReadCapsule(c, WriteCapsule(c, o).value)
      == Success(Contents(c.check(HeaderOf(c, o)).value, o.payload, o.signature))
    ensures var h := c.check(HeaderOf(c, o)).value;
      && h.compression == (if o.compression.Some? then o.compression.value else Gzip)
      && h.sizeUncompressed == (if o.sizeUncompressed.Some? then o.sizeUncompressed.value else |o.payload|)
      && h.sizeCompressed == |o.payload| && h.sha256 == c.sha(o.payload) && h.signer == o.signer
    ensures HeaderOf(c, o).meta == o.meta
  {
    var header := c.check(HeaderOf(c, o)).value;
    CapsuleIsAccepted(c, WriteCapsule(c, o).value, c.encode(header), Contents(header, o.payload, o.signature));
  }

  /** The bytes written: magic, version 1, a flag for compression and one for the signature, and then the parts. */
  lemma WrittenBytes(c: Codec, o: WriteOptions)
    requires GoodCodec(c) && WriteCapsule(c, o).Success?
    ensures var b, json := WriteCapsule(c, o).value, c.encode(c.check(HeaderOf(c, o)).value);
      && |b| <= HARD_BYTES && |b| == 12 + |json| + |o.payload| + (if o.signer.Some? then 64 else 0)
      && b[..8] == [0x50, 0x4c, 0x55, 0x52, 1, 0,
                    (if o.compression == Some(NoCompression) then 0 else 2) + (if o.signer.Some? then 1 else 0), 0]
      && b[12..] == json + o.payload + (if o.signature.Some? then o.signature.value else [])
  {
    var json := c.encode(c.check(HeaderOf(c, o)).value);
    var p := Preamble(FORMAT_VERSION_V1, FlagsOf(HeaderOf(c, o)), |json|);
    PreambleBytes(p);
  }

  /** When the writer refuses, and why. */
  lemma WriterRefusals(c: Codec, o: WriteOptions)
    ensures WriteCapsule(c, o) == Failure(SignatureMissing) <==>
      o.signer.Some? && (o.signature.None? || |o.signature.value| != 64)
    ensures WriteCapsule(c, o) == Failure(SignerMissing) <==> o.signer.None? && o.signature.Some?
    ensures o.signer.Some? == o.signature.Some? && (o.signer.Some? ==> |o.signature.value| == 64) ==>
      (WriteCapsule(c, o) == Failure(BadHeader) <==> c.check(HeaderOf(c, o)).None?)
    ensures WriteCapsule(c, o).Failure? ==>
      WriteCapsule(c, o).error in {SignatureMissing, SignerMissing, BadHeader, TooLarge}
  {
  }

  /** A payload of the same length and another hash in a capsule's place of it is refused as damaged. */
  lemma DamagedPayloadIsRefused(c: Codec, b: Bytes, json: Bytes, x: Contents, payload: Bytes)
    requires IsCapsule(c, b, json, x) && |payload| == |x.payload| && c.sha(payload) != c.sha(x.payload)
    ensures ReadCapsule(c, b[..PREAMBLE_LEN + |json|] + payload + Or(x.signature, [])) == Failure(IntegrityMismatch)
  {
    var p := Preamble(FORMAT_VERSION_V1, FlagsOf(x.header), |json|);
    var headerEnd := PREAMBLE_LEN + |json|;
    var damaged := b[..headerEnd] + payload + Or(x.signature, []);
    assert b[..PREAMBLE_LEN] == SerializePreamble(p) && b[PREAMBLE_LEN..headerEnd] == json;
    assert damaged[..PREAMBLE_LEN] == b[..PREAMBLE_LEN] && damaged[PREAMBLE_LEN..headerEnd] == json;
    PreambleInverse(p, damaged);
    assert damaged[headerEnd..headerEnd + |payload|] == payload;
  }

  /** The writer refuses nothing that could be a capsule: it succeeds exactly when one of these parts exists. */
  lemma WritesWheneverPossible(c: Codec, o: WriteOptions)
    requires GoodCodec(c)
    ensures WriteCapsule(c, o).Success? <==>
      exists b, json, x :: IsCapsule(c, b, json, x) && x.payload == o.payload && x.signature == o.signature &&
        c.check(HeaderOf(c, o)) == Some(x.header) && json == c.encode(x.header)
  {
    if WriteCapsule(c, o).Success? {
      var header := c.check(HeaderOf(c, o)).value;
      assert IsCapsule(c, WriteCapsule(c, o).value, c.encode(header), Contents(header, o.payload, o.signature));
    }
  }

  /** No capsule starts another: neither a truncated nor an extended capsule is accepted. */
  lemma NoCapsuleStartsAnother(c: Codec, b: Bytes, more: Bytes)
    requires ReadCapsule(c, b).Success? && ReadCapsule(c, b + more).Success?
    ensures more == []
  {
    var longer := b + more;
    AcceptedIsCapsule(c, b);
    AcceptedIsCapsule(c, longer);
    var p := ParsePreamble(b).value;
    assert longer[..PREAMBLE_LEN] == b[..PREAMBLE_LEN];
    ParsedIsReadable(b);
    PreambleInverse(p, b);
    PreambleInverse(p, longer);
    var headerEnd := PREAMBLE_LEN + p.headerLen;
    assert longer[PREAMBLE_LEN..headerEnd] == b[PREAMBLE_LEN..headerEnd];
  }
}
