/** Object envelopes: a strict codec and a bounded reader that verifies what it has delivered. */
module Objects {
  import opened Bundles
  import opened Bytes
  import opened Digests
  import opened Readers
  import opened Wrappers

  const OBJECT_MAGIC: Text := [82, 87, 79, 66]
  const ENVELOPE_VERSION: Byte := 1
  const COMPRESSION_NONE: Byte := 0
  const HEADER_LEN := 16

  datatype ObjectError =
    | Malformed
    | UnsupportedVersion(version: Byte)
    | UnsupportedCompression(compression: Byte)
    | ReadLimit(actual: nat)
    | TooLarge
    | DigestMismatch
    | Io

  function EnvelopeHeader(length: nat): (header: Text)
    ensures |header| == HEADER_LEN
  {
    OBJECT_MAGIC + [ENVELOPE_VERSION, COMPRESSION_NONE, 0, 0] + Le(length, 8)
  }

  function Encode(bytes: Text): Text { EnvelopeHeader(|bytes|) + bytes }

  /** The header checks, in order. */
  function DecodeHeader(header: Text): Result<nat, ObjectError> {
    if |header| != HEADER_LEN || header[..4] != OBJECT_MAGIC then Failure(Malformed)
    else if header[4] != ENVELOPE_VERSION then Failure(ObjectError.UnsupportedVersion(header[4]))
    else if header[5] != COMPRESSION_NONE then Failure(UnsupportedCompression(header[5]))
    else if header[6..8] != [0, 0] then Failure(Malformed)
    else Success(FromLe(header[8..16]))
  }

  function Decode(envelope: Text): Result<Text, ObjectError> {
    if |envelope| < HEADER_LEN || envelope[..4] != OBJECT_MAGIC then Failure(Malformed)
    else
      match DecodeHeader(envelope[..HEADER_LEN])
      case Failure(error) => Failure(error)
      case Success(length) =>
        if |envelope[HEADER_LEN..]| != length then Failure(Malformed) else Success(envelope[HEADER_LEN..])
  }

  lemma {:induction false} HeaderDecodes(length: nat)
    requires length < U64_LIMIT
    ensures DecodeHeader(EnvelopeHeader(length)) == Success(length)
  {
    var header := EnvelopeHeader(length);
    Widths();
    FromLeOfLe(length, 8);
    assert header[8..16] == Le(length, 8) && header[6..8] == [0, 0] && header[..4] == OBJECT_MAGIC;
  }

  /** A header that decodes is the header of the length it decodes to. */
  lemma {:induction false} HeaderEncodes(header: Text)
    requires DecodeHeader(header).Success?
    ensures EnvelopeHeader(DecodeHeader(header).value) == header && DecodeHeader(header).value < U64_LIMIT
  {
    LeOfFromLe(header[8..16]);
    Widths();
    assert header == header[..4] + [header[4], header[5]] + header[6..8] + header[8..16];
  }

  /** The decoder accepts exactly the envelopes of byte strings whose length fits its field. */
  lemma {:induction false} DecodeExact(envelope: Text, bytes: Text)
    ensures Decode(envelope) == Success(bytes) <==> |bytes| < U64_LIMIT && envelope == Encode(bytes)
  {
    hide EnvelopeHeader, DecodeHeader;
    if |bytes| < U64_LIMIT && envelope == Encode(bytes) {
      HeaderDecodes(|bytes|);
      assert envelope[..HEADER_LEN] == EnvelopeHeader(|bytes|) && envelope[HEADER_LEN..] == bytes;
      EncodedMagic(bytes);
    }
    if Decode(envelope) == Success(bytes) {
      HeaderEncodes(envelope[..HEADER_LEN]);
      assert envelope == envelope[..HEADER_LEN] + envelope[HEADER_LEN..];
    }
  }

  lemma {:induction false} EncodedMagic(bytes: Text)
    ensures Encode(bytes)[..4] == OBJECT_MAGIC
  {
  }

  /** The file at an object's path is whole: it decodes to bytes with that digest. */
  ghost predicate Complete(hash: Hasher, id: Digest, file: Text) {
    Decode(file).Success? && hash(Decode(file).value) == id
  }

  // ----- reading -----

  /** `read_exact`: all bytes or an error, however short the single reads are. */
  method ReadExact(source: ByteSource, length: nat) returns (r: Option<Text>)
    modifies source
    ensures r.Some? ==> |r.value| == length && r.value + source.rest == old(source.rest)
    ensures r.None? ==> None in old(source.plans) || |old(source.rest)| < length
    ensures None in source.plans ==> None in old(source.plans)
  {
    var bytes: Text := [];
    while |bytes| < length
      invariant |bytes| <= length && bytes + source.rest == old(source.rest)
      invariant None in source.plans ==> None in old(source.plans)
    {
      var read := source.Read(length - |bytes|);
      if read.None? || read.value == [] {
        return None;
      }
      assert bytes + read.value + source.rest == old(source.rest);
      bytes := bytes + read.value;
    }
    return Some(bytes);
  }

  class ObjectReader {
    const hash: Hasher
    const source: ByteSource
    const id: Digest
    const logicalSize: nat
    var remaining: nat
    /** What the running hasher has been fed. */
    var hashed: Text
    var verified: bool
    /** The bytes behind the header, as they were when the reader was opened. */
    ghost const payload: Text

    ghost predicate Valid()
      reads this, source
    {
      && |hashed| + remaining == logicalSize
      && hashed + source.rest == payload
      && (verified ==> remaining == 0 && source.rest == [] && hash(hashed) == id)
    }

    constructor (hash: Hasher, source: ByteSource, id: Digest, logicalSize: nat)
      ensures Valid() && this.hash == hash && this.source == source && this.id == id && this.logicalSize == logicalSize
      ensures remaining == logicalSize && hashed == [] && !verified && payload == source.rest
    {
      this.hash := hash;
      this.source := source;
      this.id := id;
      this.logicalSize := logicalSize;
      remaining, hashed, verified, payload := logicalSize, [], false, source.rest;
    }

    /**
     * Delivers the next bytes; `Some([])` is the end. The end is reported only for a payload that has
     * the declared length and the requested digest, all of which has been delivered.
     */
    method Read(limit: nat) returns (r: Option<Text>)
      requires Valid()
      modifies this, source
      ensures r.Some? ==> Valid()
      ensures r.Some? ==> hashed == old(hashed) + r.value && |r.value| <= limit
      ensures r.Some? && r.value == [] && limit > 0 ==> verified && hashed == payload
      ensures r.None? ==> hashed == old(hashed)
      ensures old(verified) ==> r == Some([]) && verified
      ensures None in source.plans ==> None in old(source.plans)
      ensures r.None? ==> None in old(source.plans) || |payload| != logicalSize || hash(payload) != id
    {
      if limit == 0 {
        return Some([]);
      }
      if remaining == 0 {
        if verified {
          return Some([]);
        }
        var extra := source.Read(1);
        if extra.None? {
          return None;
        }
        if extra.value != [] {
          return None;
        }
        assert hashed == payload;
        if hash(hashed) != id {
          return None;
        }
        verified := true;
        return Some([]);
      }
      var wanted := if remaining < limit then remaining else limit;
      var read := source.Read(wanted);
      if read.None? || read.value == [] {
        return None;
      }
      assert hashed + read.value + source.rest == old(hashed + source.rest);
      hashed := hashed + read.value;
      remaining := remaining - |read.value|;
      return read;
    }
  }

  // ----- whole objects -----

  /** What every reader refuses before it touches the payload. */
  function OpenError(header: Text, storedSize: nat, maximum: nat): Option<ObjectError> {
    match DecodeHeader(header)
    case Failure(error) => Some(error)
    case Success(length) =>
      if length + HEADER_LEN >= U64_LIMIT then Some(TooLarge)
      else if storedSize != length + HEADER_LEN then Some(Malformed)
      else if length > maximum then Some(ReadLimit(length))
      else None
  }

  /** An object file as one read sees it: its length when it was opened, and what reading it yields. */
  datatype ObjectFile = ObjectFile(storedSize: nat, contents: Text, plans: seq<Option<nat>>)

  ghost predicate Holds(hash: Hasher, file: ObjectFile, id: Digest, maximum: nat, bytes: Text) {
    && file.contents == Encode(bytes) && file.storedSize == |file.contents| < U64_LIMIT
    && hash(bytes) == id && |bytes| <= maximum
  }

  method OpenReader(hash: Hasher, file: ObjectFile, id: Digest, maximum: nat)
    returns (r: Result<ObjectReader, ObjectError>)
    ensures r.Success? ==> fresh(r.value) && fresh(r.value.source) && r.value.Valid()
    ensures r.Success? ==>
        r.value.hash == hash && r.value.id == id && r.value.hashed == [] && r.value.logicalSize <= maximum
    ensures r.Success? ==> file.contents == EnvelopeHeader(r.value.logicalSize) + r.value.payload
    ensures r.Success? ==> file.storedSize == HEADER_LEN + r.value.logicalSize < U64_LIMIT
    ensures r.Success? ==> None in r.value.source.plans ==> None in file.plans
    ensures r.Failure? ==> None in file.plans || forall bytes :: !Holds(hash, file, id, maximum, bytes)
  {
    hide EnvelopeHeader, DecodeHeader, Encode, Decode;
    var source := new ByteSource(file.contents, file.plans);
    var header := ReadExact(source, HEADER_LEN);
    RefusedUnlessHeld(hash, file, id, maximum);
    if header.None? {
      return Failure(Io);
    }
    assert file.contents[..HEADER_LEN] == header.value;
    var refused := OpenError(header.value, file.storedSize, maximum);
    if refused.Some? {
      return Failure(refused.value);
    }
    HeaderEncodes(header.value);
    var reader := new ObjectReader(hash, source, id, DecodeHeader(header.value).value);
    return Success(reader);
  }

  lemma {:induction false} RefusedUnlessHeld(hash: Hasher, file: ObjectFile, id: Digest, maximum: nat)
    ensures (exists bytes :: Holds(hash, file, id, maximum, bytes)) ==>
      |file.contents| >= HEADER_LEN && OpenError(file.contents[..HEADER_LEN], file.storedSize, maximum).None?
  {
    hide EnvelopeHeader, DecodeHeader;
    if exists bytes :: Holds(hash, file, id, maximum, bytes) {
      var bytes :| Holds(hash, file, id, maximum, bytes);
      HeaderDecodes(|bytes|);
      assert file.contents[..HEADER_LEN] == EnvelopeHeader(|bytes|);
    }
  }

  /** Returns bytes for exactly the files that are the envelope of bytes with the requested digest. */
  method Get(hash: Hasher, file: ObjectFile, id: Digest, maximum: nat) returns (r: Result<Text, ObjectError>)
    ensures r.Success? ==> Holds(hash, file, id, maximum, r.value)
    ensures r.Failure? ==> None in file.plans || forall bytes :: !Holds(hash, file, id, maximum, bytes)
  {
    hide EnvelopeHeader, DecodeHeader, Decode;
    var attempt := OpenReader(hash, file, id, maximum);
    if attempt.Failure? {
      return Failure(attempt.error);
    }
    var reader := attempt.value;
    PayloadOnly(hash, file, id, maximum, reader.logicalSize, reader.payload);
    var bytes: Text := [];
    while |bytes| < reader.logicalSize
      invariant reader.Valid() && bytes == reader.hashed
      invariant None in reader.source.plans ==> None in file.plans
    {
      var read := reader.Read(reader.logicalSize - |bytes|);
      if read.None? || read.value == [] {
        return Failure(Io);
      }
      bytes := bytes + read.value;
    }
    var extra := reader.Read(1);
    if extra.None? {
      return Failure(Io);
    }
    assert bytes == reader.payload && |bytes| == reader.logicalSize && file.contents == Encode(bytes);
    return Success(bytes);
  }

  lemma {:induction false} PayloadOnly(hash: Hasher, file: ObjectFile, id: Digest, maximum: nat, length: nat,
      payload: Text)
    requires file.contents == EnvelopeHeader(length) + payload && length < U64_LIMIT
    ensures forall bytes :: Holds(hash, file, id, maximum, bytes) ==>
        bytes == payload && |payload| == length && hash(payload) == id
  {
    hide DecodeHeader;
    forall bytes | Holds(hash, file, id, maximum, bytes) ensures bytes == payload && |payload| == length {
      HeaderDecodes(|bytes|);
      HeaderDecodes(length);
      assert file.contents[..HEADER_LEN] == EnvelopeHeader(|bytes|) == EnvelopeHeader(length);
      assert file.contents[HEADER_LEN..] == bytes == payload;
    }
  }

  const VERIFY_BUFFER := 65536

  /**
   * Verification in constant memory. On a file that does not change while it is read it accepts exactly
   * what reading the object accepts; it does not look for bytes that appear behind the measured length.
   */
  method Verify(hash: Hasher, file: ObjectFile, id: Digest, maximum: nat) returns (r: Result<nat, ObjectError>)
    ensures r.Success? ==> file.storedSize == HEADER_LEN + r.value && r.value <= maximum
    ensures r.Success? ==> exists bytes :: |bytes| == r.value && hash(bytes) == id && Encode(bytes) <= file.contents
    ensures r.Success? && file.storedSize == |file.contents| ==> exists bytes :: Holds(hash, file, id, maximum, bytes)
    ensures r.Failure? ==> None in file.plans || forall bytes :: !Holds(hash, file, id, maximum, bytes)
  {
    hide EnvelopeHeader, DecodeHeader, Decode;
    var source := new ByteSource(file.contents, file.plans);
    var header := ReadExact(source, HEADER_LEN);
    RefusedUnlessHeld(hash, file, id, maximum);
    if header.None? {
      return Failure(Io);
    }
    assert file.contents[..HEADER_LEN] == header.value;
    var refused := OpenError(header.value, file.storedSize, maximum);
    if refused.Some? {
      return Failure(refused.value);
    }
    HeaderEncodes(header.value);
    ghost var payload := source.rest;
    var length := DecodeHeader(header.value).value;
    PayloadOnly(hash, file, id, maximum, length, payload);
    var hashed := HashPayload(source, length);
    if hashed.None? {
      return Failure(Io);
    }
    assert |payload| == length ==> hashed.value == payload;
    if hash(hashed.value) != id {
      return Failure(DigestMismatch);
    }
    PayloadVerified(hash, file, id, maximum, length, payload, hashed.value);
    return Success(length);
  }

  /** Feeds the payload to the hasher through a fixed buffer. */
  method HashPayload(source: ByteSource, length: nat) returns (hashed: Option<Text>)
    modifies source
    ensures hashed.Some? ==> |hashed.value| == length && hashed.value <= old(source.rest)
    ensures hashed.None? ==> None in old(source.plans) || |old(source.rest)| < length
  {
    var remaining, bytes: Text := length, [];
    while remaining > 0
      invariant 0 <= remaining <= length && |bytes| == length - remaining && bytes + source.rest == old(source.rest)
      invariant None in source.plans ==> None in old(source.plans)
    {
      var wanted := if remaining < VERIFY_BUFFER then remaining else VERIFY_BUFFER;
      var read := ReadExact(source, wanted);
      if read.None? {
        return None;
      }
      assert bytes + read.value + source.rest == old(source.rest);
      bytes := bytes + read.value;
      remaining := remaining - wanted;
    }
    return Some(bytes);
  }

  lemma {:induction false} PayloadVerified(
    hash: Hasher, file: ObjectFile, id: Digest, maximum: nat, length: nat, payload: Text, bytes: Text)
    requires file.contents == EnvelopeHeader(length) + payload && bytes <= payload && |bytes| == length
    requires hash(bytes) == id && file.storedSize == length + HEADER_LEN < U64_LIMIT && length <= maximum
    ensures Encode(bytes) <= file.contents
    ensures file.storedSize == |file.contents| ==> Holds(hash, file, id, maximum, bytes)
  {
    assert payload == bytes + payload[length..];
    assert file.contents == Encode(bytes) + payload[length..];
  }
}
