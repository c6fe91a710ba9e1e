/** The RWBN bundle format: its canonical byte layout and its strict decoder. */
module Bundles {
  import opened Bytes
  import opened Digests
  import opened Snapshots
  import opened Sorting
  import opened Wrappers

  const MAGIC: Text := [82, 87, 66, 78]
  const BUNDLE_VERSION := 1
  const HEADER_BYTES := 12
  const ENTRY_HEADER_BYTES := 44
  const U32_LIMIT := 0x1_0000_0000

  datatype BundleEntry = BundleEntry(path: Text, bytes: Text)

  datatype BundleError =
    | InvalidMagic
    | UnsupportedVersion(found: nat)
    | UnsupportedFlags
    | Truncated
    | TrailingBytes
    | NonUtf8Path
    | UnsafePath(path: Text)
    | OutOfOrder(path: Text)
    | TooManyEntries(actual: nat)
    | EntryTooLarge(path: Text, actual: nat)
    | TotalTooLarge
    | ChecksumMismatch(path: Text)
    | NumericRange
    | EntryCountMismatch(declared: nat, written: nat)
    | SourceFailed
    | SourceLengthMismatch(path: Text)

  // ----- little-endian integers -----

  function Pow256(width: nat): (p: nat)
    ensures p > 0
  {
    if width == 0 then 1 else 256 * Pow256(width - 1)
  }

  function Le(n: nat, width: nat): (t: Text)
    ensures |t| == width
  {
    if width == 0 then [] else [(n % 256) as Byte] + Le(n / 256, width - 1)
  }

  function FromLe(t: Text): nat {
    if t == [] then 0 else t[0] as nat + 256 * FromLe(t[1..])
  }

  lemma {:induction false} FromLeOfLe(n: nat, width: nat)
    requires n < Pow256(width)
    ensures FromLe(Le(n, width)) == n
  {
    if width > 0 {
      FromLeOfLe(n / 256, width - 1);
      assert Le(n, width)[1..] == Le(n / 256, width - 1);
    }
  }

  lemma {:induction false} LowByte(b: Byte, rest: nat)
    ensures (b as nat + 256 * rest) % 256 == b as nat && (b as nat + 256 * rest) / 256 == rest
  {
  }

  lemma {:induction false} LeOfFromLe(t: Text)
    ensures FromLe(t) < Pow256(|t|)
    ensures Le(FromLe(t), |t|) == t
  {
    if t != [] {
      LeOfFromLe(t[1..]);
      LowByte(t[0], FromLe(t[1..]));
      assert t == [t[0]] + t[1..];
    }
  }

  lemma {:induction false} Widths()
    ensures Pow256(2) == 0x1_0000 && Pow256(4) == U32_LIMIT && Pow256(8) == U64_LIMIT
  {
    assert Pow256(4) == 256 * (256 * Pow256(2));
    assert Pow256(6) == 256 * (256 * Pow256(4));
    assert Pow256(8) == 256 * (256 * Pow256(6));
  }

  // ----- the one byte sequence of every list of entries -----

  function EntryHeader(pathLength: nat, byteLength: nat, checksum: Digest): (t: Text)
    ensures |t| == ENTRY_HEADER_BYTES
  {
    Le(pathLength, 2) + Le(0, 2) + Le(byteLength, 8) + checksum
  }

  function EntryBytes(hash: Hasher, entry: BundleEntry): Text {
    EntryHeader(|entry.path|, |entry.bytes|, hash(entry.bytes)) + entry.path + entry.bytes
  }

  function Header(count: nat): (t: Text)
    ensures |t| == HEADER_BYTES
  {
    MAGIC + Le(BUNDLE_VERSION, 2) + Le(0, 2) + Le(count, 4)
  }

  function Body(hash: Hasher, entries: seq<BundleEntry>): Text {
    if entries == [] then [] else EntryBytes(hash, entries[0]) + Body(hash, entries[1..])
  }

  function BundleBytes(hash: Hasher, entries: seq<BundleEntry>): Text {
    Header(|entries|) + Body(hash, entries)
  }

  lemma {:induction false} BodyAppend(hash: Hasher, entries: seq<BundleEntry>, entry: BundleEntry)
    ensures Body(hash, entries + [entry]) == Body(hash, entries) + EntryBytes(hash, entry)
  {
    if entries == [] {
      assert entries + [entry] == [entry];
      assert Body(hash, [entry][1..]) == [];
    } else {
      assert (entries + [entry])[1..] == entries[1..] + [entry];
      BodyAppend(hash, entries[1..], entry);
    }
  }

  function EntryPath(): BundleEntry -> Text { (entry: BundleEntry) => entry.path }

  // ----- decoding -----

  datatype Limits = Limits(entries: nat, entryBytes: nat, totalBytes: nat)

  /** The checksum function, the UTF-8 test and the resource ceilings a decoder runs with. */
  datatype Decoder = Decoder(hash: Hasher, utf8: Text -> bool, limits: Limits) {
    /** The ceilings are unsigned machine integers. */
    predicate Valid() {
      limits.entries < U32_LIMIT && limits.entryBytes < U64_LIMIT && limits.totalBytes < U64_LIMIT
    }
  }

  datatype Decoded = Decoded(entry: BundleEntry, size: nat)

  /** The checks on one entry at the front of `rest`, in the order they are made. */
  function DecodeEntry(d: Decoder, rest: Text, total: nat, previous: Option<Text>): (r: Result<Decoded, BundleError>)
    ensures r.Success? ==> 0 < r.value.size <= |rest|
  {
    if |rest| < ENTRY_HEADER_BYTES then Failure(Truncated)
    else if FromLe(rest[2..4]) != 0 then Failure(UnsupportedFlags)
    else
      var pathEnd := ENTRY_HEADER_BYTES + FromLe(rest[0..2]);
      var byteLength := FromLe(rest[4..12]);
      if |rest| < pathEnd then Failure(Truncated)
      else
        var path := rest[ENTRY_HEADER_BYTES..pathEnd];
        if !d.utf8(path) then Failure(NonUtf8Path)
        else if !ValidPath(path) then Failure(UnsafePath(path))
        else if previous.Some? && !Less(previous.value, path) then Failure(OutOfOrder(path))
        else if byteLength > d.limits.entryBytes then Failure(EntryTooLarge(path, byteLength))
        else if total + byteLength >= U64_LIMIT || total + byteLength > d.limits.totalBytes then Failure(TotalTooLarge)
        else if |rest| < pathEnd + byteLength then Failure(Truncated)
        else
          var payload := rest[pathEnd..pathEnd + byteLength];
          if d.hash(payload) != rest[12..44] then Failure(ChecksumMismatch(path))
          else Success(Decoded(BundleEntry(path, payload), pathEnd + byteLength))
  }

  function DecodeEntries(d: Decoder, rest: Text, count: nat, total: nat, previous: Option<Text>)
    : Result<seq<BundleEntry>, BundleError>
    decreases count
  {
    if count == 0 then (if rest == [] then Success([]) else Failure(TrailingBytes))
    else
      match DecodeEntry(d, rest, total, previous)
      case Failure(error) => Failure(error)
      case Success(head) =>
        match DecodeEntries(d, rest[head.size..], count - 1, total + |head.entry.bytes|, Some(head.entry.path))
        case Failure(error) => Failure(error)
        case Success(tail) => Success([head.entry] + tail)
  }

  function Decode(d: Decoder, bytes: Text): Result<seq<BundleEntry>, BundleError> {
    if |bytes| < HEADER_BYTES then Failure(Truncated)
    else if bytes[..4] != MAGIC then Failure(InvalidMagic)
    else if FromLe(bytes[4..6]) != BUNDLE_VERSION then Failure(UnsupportedVersion(FromLe(bytes[4..6])))
    else if FromLe(bytes[6..8]) != 0 then Failure(UnsupportedFlags)
    else if FromLe(bytes[8..12]) > d.limits.entries then Failure(TooManyEntries(FromLe(bytes[8..12])))
    else DecodeEntries(d, bytes[HEADER_BYTES..], FromLe(bytes[8..12]), 0, None)
  }

  /** Splits off the next `length` bytes and moves the cursor past them. */
  method Take(bytes: Text, cursor: nat, length: nat) returns (r: Result<Text, BundleError>, next: nat)
    requires cursor <= |bytes|
    ensures r.Failure? <==> |bytes[cursor..]| < length
    ensures r.Failure? ==> r.error == Truncated && next == cursor
    ensures r.Success? ==> next == cursor + length && r.value == bytes[cursor..][..length]
    ensures r.Success? ==> bytes[next..] == bytes[cursor..][length..]
  {
    if cursor + length > |bytes| {
      return Failure(Truncated), cursor;
    }
    return Success(bytes[cursor..cursor + length]), cursor + length;
  }

  /** What the entries decoded so far and the bytes not yet read must still amount to. */
  ghost function Resumed(entries: seq<BundleEntry>, rest: Result<seq<BundleEntry>, BundleError>)
    : Result<seq<BundleEntry>, BundleError>
  {
    match rest
    case Failure(error) => Failure(error)
    case Success(tail) => Success(entries + tail)
  }

  lemma {:induction false} ResumedFromStart(rest: Result<seq<BundleEntry>, BundleError>)
    ensures Resumed([], rest) == rest
  {
    if rest.Success? { assert [] + rest.value == rest.value; }
  }

  lemma {:induction false} DecodeFirst(d: Decoder, rest: Text, count: nat, total: nat, previous: Option<Text>,
      head: Decoded)
    requires count > 0 && DecodeEntry(d, rest, total, previous) == Success(head)
    ensures DecodeEntries(d, rest, count, total, previous) == Resumed([head.entry],
              DecodeEntries(d, rest[head.size..], count - 1, total + |head.entry.bytes|, Some(head.entry.path)))
  {
  }

  lemma {:induction false} DecodeStops(d: Decoder, rest: Text, count: nat, total: nat, previous: Option<Text>)
    requires count > 0 && DecodeEntry(d, rest, total, previous).Failure?
    ensures DecodeEntries(d, rest, count, total, previous) == Failure(DecodeEntry(d, rest, total, previous).error)
  {
  }

  lemma {:induction false} DecodeEnds(d: Decoder, rest: Text, total: nat, previous: Option<Text>)
    ensures DecodeEntries(d, rest, 0, total, previous) == if rest == [] then Success([]) else Failure(TrailingBytes)
  {
  }

  lemma {:induction false} ResumedAfter(entries: seq<BundleEntry>, entry: BundleEntry,
      rest: Result<seq<BundleEntry>, BundleError>)
    ensures Resumed(entries, Resumed([entry], rest)) == Resumed(entries + [entry], rest)
  {
    if rest.Success? { assert entries + ([entry] + rest.value) == entries + [entry] + rest.value; }
  }

  method DecodeBundle(d: Decoder, bytes: Text) returns (r: Result<seq<BundleEntry>, BundleError>)
    ensures r == Decode(d, bytes)
  {
    if |bytes| < HEADER_BYTES {
      return Failure(Truncated);
    }
    if bytes[..4] != MAGIC {
      return Failure(InvalidMagic);
    }
    var version := FromLe(bytes[4..6]);
    if version != BUNDLE_VERSION {
      return Failure(UnsupportedVersion(version));
    }
    if FromLe(bytes[6..8]) != 0 {
      return Failure(UnsupportedFlags);
    }
    var count := FromLe(bytes[8..12]);
    if count > d.limits.entries {
      return Failure(TooManyEntries(count));
    }
    r := DecodeBody(d, bytes, count);
  }

  method DecodeBody(d: Decoder, bytes: Text, count: nat) returns (r: Result<seq<BundleEntry>, BundleError>)
    requires HEADER_BYTES <= |bytes|
    ensures r == DecodeEntries(d, bytes[HEADER_BYTES..], count, 0, None)
  {
    hide DecodeEntry, DecodeEntries;
    var entries: seq<BundleEntry> := [];
    var cursor: nat, total: nat, previous := HEADER_BYTES, 0, None;
    ghost var whole := DecodeEntries(d, bytes[cursor..], count, total, previous);
    ResumedFromStart(whole);
    for i := 0 to count
      invariant HEADER_BYTES <= cursor <= |bytes|
      invariant whole == Resumed(entries, DecodeEntries(d, bytes[cursor..], count - i, total, previous))
    {
      var decoded, next := ReadEntry(d, bytes, cursor, total, previous);
      if decoded.Failure? {
        DecodeStops(d, bytes[cursor..], count - i, total, previous);
        return Failure(decoded.error);
      }
      ghost var size := next - cursor;
      DecodeFirst(d, bytes[cursor..], count - i, total, previous, Decoded(decoded.value, size));
      assert bytes[cursor..][size..] == bytes[next..];
      total := total + |decoded.value.bytes|;
      previous := Some(decoded.value.path);
      ResumedAfter(entries, decoded.value, DecodeEntries(d, bytes[next..], count - i - 1, total, previous));
      entries := entries + [decoded.value];
      cursor := next;
    }
    DecodeEnds(d, bytes[cursor..], total, previous);
    if cursor != |bytes| {
      assert bytes[cursor..] != [];
      return Failure(TrailingBytes);
    }
    assert bytes[cursor..] == [] && entries + [] == entries;
    return Success(entries);
  }

  lemma {:induction false} HeaderSlices(rest: Text)
    requires |rest| >= ENTRY_HEADER_BYTES
    ensures var header := rest[..ENTRY_HEADER_BYTES];
            && header[0..2] == rest[0..2] && header[2..4] == rest[2..4]
            && header[4..12] == rest[4..12] && header[12..44] == rest[12..44]
  {
  }

  /** One round of the decoding loop. */
  method ReadEntry(d: Decoder, bytes: Text, start: nat, total: nat, previous: Option<Text>)
    returns (r: Result<BundleEntry, BundleError>, cursor: nat)
    requires start <= |bytes|
    ensures match DecodeEntry(d, bytes[start..], total, previous)
            case Failure(error) => r == Failure(error)
            case Success(head) => r == Success(head.entry) && cursor == start + head.size
  {
    hide ValidPath, Less, FromLe;
    ghost var rest := bytes[start..];
    var header;
    header, cursor := Take(bytes, start, ENTRY_HEADER_BYTES);
    if header.Failure? {
      return Failure(header.error), cursor;
    }
    HeaderSlices(rest);
    if FromLe(header.value[2..4]) != 0 {
      return Failure(UnsupportedFlags), cursor;
    }
    r, cursor := ReadBody(d, bytes, cursor, header.value, total, previous);
  }

  /** What follows a header whose flags are clear. */
  method ReadBody(d: Decoder, bytes: Text, start: nat, header: Text, total: nat, previous: Option<Text>)
    returns (r: Result<BundleEntry, BundleError>, cursor: nat)
    requires ENTRY_HEADER_BYTES <= start <= |bytes| && header == bytes[start - ENTRY_HEADER_BYTES..start]
    requires FromLe(header[2..4]) == 0
    ensures match DecodeEntry(d, bytes[start - ENTRY_HEADER_BYTES..], total, previous)
            case Failure(error) => r == Failure(error)
            case Success(head) => r == Success(head.entry) && cursor == start - ENTRY_HEADER_BYTES + head.size
  {
    hide ValidPath, Less, FromLe;
    ghost var rest := bytes[start - ENTRY_HEADER_BYTES..];
    assert header == rest[..ENTRY_HEADER_BYTES];
    HeaderSlices(rest);
    var pathLength, byteLength, checksum := FromLe(header[0..2]), FromLe(header[4..12]), header[12..44];
    var taken;
    taken, cursor := Take(bytes, start, pathLength);
    if taken.Failure? {
      return Failure(taken.error), cursor;
    }
    var path := taken.value;
    assert path == rest[ENTRY_HEADER_BYTES..ENTRY_HEADER_BYTES + pathLength];
    if !d.utf8(path) {
      return Failure(NonUtf8Path), cursor;
    }
    if !ValidPath(path) {
      return Failure(UnsafePath(path)), cursor;
    }
    if previous.Some? && !Less(previous.value, path) {
      return Failure(OutOfOrder(path)), cursor;
    }
    if byteLength > d.limits.entryBytes {
      return Failure(EntryTooLarge(path, byteLength)), cursor;
    }
    if total + byteLength >= U64_LIMIT || total + byteLength > d.limits.totalBytes {
      return Failure(TotalTooLarge), cursor;
    }
    taken, cursor := Take(bytes, cursor, byteLength);
    if taken.Failure? {
      return Failure(taken.error), cursor;
    }
    assert taken.value == rest[ENTRY_HEADER_BYTES + pathLength..ENTRY_HEADER_BYTES + pathLength + byteLength];
    if d.hash(taken.value) != checksum {
      return Failure(ChecksumMismatch(path)), cursor;
    }
    return Success(BundleEntry(path, taken.value)), cursor;
  }

  // ----- the format is canonical -----

  function TotalBytes(entries: seq<BundleEntry>): nat {
    if entries == [] then 0 else |entries[0].bytes| + TotalBytes(entries[1..])
  }

  ghost predicate AcceptedEntry(d: Decoder, entry: BundleEntry) {
    d.utf8(entry.path) && ValidPath(entry.path) && |entry.bytes| <= d.limits.entryBytes
  }

  /** The lists of entries a bundle may hold: safe distinct sorted paths within the ceilings. */
  ghost predicate Accepted(d: Decoder, entries: seq<BundleEntry>) {
    && |entries| <= d.limits.entries
    && TotalBytes(entries) <= d.limits.totalBytes
    && SortedBy(EntryPath(), entries)
    && forall i :: 0 <= i < |entries| ==> AcceptedEntry(d, entries[i])
  }

  /** The same, for the entries still to come after `previous` with `total` bytes already counted. */
  ghost predicate AcceptedAfter(d: Decoder, entries: seq<BundleEntry>, total: nat, previous: Option<Text>) {
    && total + TotalBytes(entries) <= d.limits.totalBytes
    && SortedBy(EntryPath(), entries)
    && (previous.Some? && entries != [] ==> Less(previous.value, entries[0].path))
    && forall i :: 0 <= i < |entries| ==> AcceptedEntry(d, entries[i])
  }

  lemma {:induction false} Layout(a: Text, f: Text, l: Text, c: Text, p: Text, b: Text, t: Text)
    requires |a| == 2 && |f| == 2 && |l| == 8 && |c| == 32
    ensures var r := a + f + l + c + p + b + t;
            && r[0..2] == a && r[2..4] == f && r[4..12] == l && r[12..44] == c
            && r[44..44 + |p|] == p && r[44 + |p|..44 + |p| + |b|] == b && r[44 + |p| + |b|..] == t
  {
  }

  lemma {:induction false} EntryLayout(hash: Hasher, entry: BundleEntry, tail: Text)
    ensures var r := EntryBytes(hash, entry) + tail; var pathEnd := ENTRY_HEADER_BYTES + |entry.path|;
            && |EntryBytes(hash, entry)| == pathEnd + |entry.bytes|
            && r[0..2] == Le(|entry.path|, 2) && r[2..4] == Le(0, 2) && r[4..12] == Le(|entry.bytes|, 8)
            && r[12..44] == hash(entry.bytes) && r[ENTRY_HEADER_BYTES..pathEnd] == entry.path
            && r[pathEnd..pathEnd + |entry.bytes|] == entry.bytes && r[pathEnd + |entry.bytes|..] == tail
  {
    Layout(Le(|entry.path|, 2), Le(0, 2), Le(|entry.bytes|, 8), hash(entry.bytes), entry.path, entry.bytes, tail);
  }

  /** Decoding a printed entry gives it back and stops exactly behind it. */
  lemma {:induction false} DecodePrintedEntry(d: Decoder, entry: BundleEntry, tail: Text, total: nat,
      previous: Option<Text>)
    requires d.Valid() && AcceptedEntry(d, entry)
    requires total + |entry.bytes| <= d.limits.totalBytes
    requires previous.Some? ==> Less(previous.value, entry.path)
    ensures DecodeEntry(d, EntryBytes(d.hash, entry) + tail, total, previous)
         == Success(Decoded(entry, |EntryBytes(d.hash, entry)|))
  {
    EntryLayout(d.hash, entry, tail);
    Widths();
    FromLeOfLe(|entry.path|, 2);
    FromLeOfLe(0, 2);
    FromLeOfLe(|entry.bytes|, 8);
  }

  /** Whatever an entry was decoded from is its printed form. */
  lemma {:induction false} PrintDecodedEntry(d: Decoder, rest: Text, total: nat, previous: Option<Text>)
    requires DecodeEntry(d, rest, total, previous).Success?
    ensures var head := DecodeEntry(d, rest, total, previous).value;
            && rest == EntryBytes(d.hash, head.entry) + rest[head.size..]
            && AcceptedEntry(d, head.entry)
            && total + |head.entry.bytes| <= d.limits.totalBytes
            && (previous.Some? ==> Less(previous.value, head.entry.path))
  {
    var head := DecodeEntry(d, rest, total, previous).value;
    LeOfFromLe(rest[0..2]);
    LeOfFromLe(rest[2..4]);
    LeOfFromLe(rest[4..12]);
    var pathEnd := ENTRY_HEADER_BYTES + |head.entry.path|;
    assert rest == rest[0..2] + rest[2..4] + rest[4..12] + rest[12..44]
                 + rest[ENTRY_HEADER_BYTES..pathEnd] + rest[pathEnd..head.size] + rest[head.size..];
  }

  lemma {:induction false} AcceptedTail(d: Decoder, entries: seq<BundleEntry>, total: nat, previous: Option<Text>)
    requires entries != [] && AcceptedAfter(d, entries, total, previous)
    ensures AcceptedEntry(d, entries[0])
    ensures total + |entries[0].bytes| <= d.limits.totalBytes
    ensures AcceptedAfter(d, entries[1..], total + |entries[0].bytes|, Some(entries[0].path))
  {
    SortedTail(EntryPath(), entries);
    var tail := entries[1..];
    assert tail == [] || tail[0] in tail;
    forall i | 0 <= i < |tail| ensures AcceptedEntry(d, tail[i]) { assert tail[i] == entries[i + 1]; }
  }

  lemma {:induction false} DecodePrepended(d: Decoder, head: BundleEntry, rest: Text, tail: seq<BundleEntry>,
      total: nat, previous: Option<Text>)
    requires d.Valid() && AcceptedEntry(d, head)
    requires total + |head.bytes| <= d.limits.totalBytes
    requires previous.Some? ==> Less(previous.value, head.path)
    requires DecodeEntries(d, rest, |tail|, total + |head.bytes|, Some(head.path)) == Success(tail)
    ensures DecodeEntries(d, EntryBytes(d.hash, head) + rest, |tail| + 1, total, previous) == Success([head] + tail)
  {
    hide DecodeEntry, DecodeEntries, ValidPath, Less;
    var printed := EntryBytes(d.hash, head);
    DecodePrintedEntry(d, head, rest, total, previous);
    assert (printed + rest)[|printed|..] == rest;
    DecodeFirst(d, printed + rest, |tail| + 1, total, previous, Decoded(head, |printed|));
  }

  lemma {:induction false} DecodePrintedStep(d: Decoder, entries: seq<BundleEntry>, total: nat, previous: Option<Text>)
    requires d.Valid() && entries != [] && AcceptedAfter(d, entries, total, previous)
    requires DecodeEntries(d, Body(d.hash, entries[1..]), |entries| - 1, total
        + |entries[0].bytes|, Some(entries[0].path))
          == Success(entries[1..])
    ensures DecodeEntries(d, Body(d.hash, entries), |entries|, total, previous) == Success(entries)
  {
    hide DecodeEntry, DecodeEntries, EntryBytes, ValidPath, Less;
    AcceptedTail(d, entries, total, previous);
    DecodePrepended(d, entries[0], Body(d.hash, entries[1..]), entries[1..], total, previous);
    assert entries == [entries[0]] + entries[1..];
  }

  lemma {:induction false} DecodePrinted(d: Decoder, entries: seq<BundleEntry>, total: nat, previous: Option<Text>)
    requires d.Valid() && AcceptedAfter(d, entries, total, previous)
    ensures DecodeEntries(d, Body(d.hash, entries), |entries|, total, previous) == Success(entries)
    decreases |entries|
  {
    hide DecodeEntry, DecodeEntries, EntryBytes, ValidPath, Less;
    if entries == [] {
      DecodeEnds(d, [], total, previous);
    } else {
      AcceptedTail(d, entries, total, previous);
      DecodePrinted(d, entries[1..], total + |entries[0].bytes|, Some(entries[0].path));
      DecodePrintedStep(d, entries, total, previous);
    }
  }

  lemma {:induction false} AcceptedPrepend(d: Decoder, head: BundleEntry, tail: seq<BundleEntry>, total: nat,
      previous: Option<Text>)
    requires AcceptedEntry(d, head) && AcceptedAfter(d, tail, total + |head.bytes|, Some(head.path))
    requires previous.Some? ==> Less(previous.value, head.path)
    ensures AcceptedAfter(d, [head] + tail, total, previous)
    ensures Body(d.hash, [head] + tail) == EntryBytes(d.hash, head) + Body(d.hash, tail)
  {
    assert ([head] + tail)[1..] == tail;
    PrependEntry(head, tail);
  }

  lemma {:induction false} PrependEntry(head: BundleEntry, tail: seq<BundleEntry>)
    requires SortedBy(EntryPath(), tail) && (tail == [] || Less(head.path, tail[0].path))
    ensures SortedBy(EntryPath(), [head] + tail)
  {
    var all := [head] + tail;
    forall i, j | 0 <= i < j < |all| ensures Less(Keys(EntryPath(), all)[i], Keys(EntryPath(), all)[j]) {
      if i > 0 {
        assert Less(Keys(EntryPath(), tail)[i - 1], Keys(EntryPath(), tail)[j - 1]);
      } else if j > 1 {
        assert Less(Keys(EntryPath(), tail)[0], Keys(EntryPath(), tail)[j - 1]);
        LessTransitive(head.path, tail[0].path, all[j].path);
      }
    }
  }

  /** What a successful decoding of `count` entries shows about the bytes it consumed. */
  ghost predicate Printed(d: Decoder, rest: Text, count: nat, total: nat, previous: Option<Text>,
      entries: seq<BundleEntry>) {
    |entries| == count && Body(d.hash, entries) == rest && AcceptedAfter(d, entries, total, previous)
  }

  lemma {:induction false} PrintedNothing(d: Decoder, total: nat, previous: Option<Text>)
    requires total <= d.limits.totalBytes
    ensures Printed(d, [], 0, total, previous, [])
  {
  }

  lemma {:induction false} PrintDecodedStep(d: Decoder, rest: Text, count: nat, total: nat, previous: Option<Text>,
      tail: seq<BundleEntry>)
    requires count > 0 && total <= d.limits.totalBytes && DecodeEntry(d, rest, total, previous).Success?
    requires var head := DecodeEntry(d, rest, total, previous).value;
             Printed(d, rest[head.size..], count - 1, total + |head.entry.bytes|, Some(head.entry.path), tail)
    ensures Printed(d, rest, count, total, previous, [DecodeEntry(d, rest, total, previous).value.entry] + tail)
  {
    PrintDecodedEntry(d, rest, total, previous);
    hide *;
    var head := DecodeEntry(d, rest, total, previous).value;
    AcceptedPrepend(d, head.entry, tail, total, previous);
  }

  lemma {:induction false} PrintDecoded(d: Decoder, rest: Text, count: nat, total: nat, previous: Option<Text>)
    requires DecodeEntries(d, rest, count, total, previous).Success?
    requires total <= d.limits.totalBytes
    ensures Printed(d, rest, count, total, previous, DecodeEntries(d, rest, count, total, previous).value)
    decreases count
  {
    hide DecodeEntry, DecodeEntries, Printed, EntryBytes;
    if count == 0 {
      DecodeEnds(d, rest, total, previous);
      PrintedNothing(d, total, previous);
    } else {
      if DecodeEntry(d, rest, total, previous).Failure? { DecodeStops(d, rest, count, total, previous); }
      var head := DecodeEntry(d, rest, total, previous).value;
      var after := total + |head.entry.bytes|;
      DecodeFirst(d, rest, count, total, previous, head);
      PrintDecodedEntry(d, rest, total, previous);
      PrintDecoded(d, rest[head.size..], count - 1, after, Some(head.entry.path));
      PrintDecodedStep(d, rest, count, total, previous,
                       DecodeEntries(d, rest[head.size..], count - 1, after, Some(head.entry.path)).value);
    }
  }

  lemma {:induction false} HeaderLayout(count: nat, body: Text)
    ensures var r := Header(count) + body;
            && r[..4] == MAGIC && r[4..6] == Le(BUNDLE_VERSION, 2) && r[6..8] == Le(0, 2)
            && r[8..12] == Le(count, 4) && r[HEADER_BYTES..] == body
  {
  }

  /** Every acceptable list survives printing and decoding. */
  lemma {:induction false} DecodeEncoded(d: Decoder, entries: seq<BundleEntry>)
    requires d.Valid() && Accepted(d, entries)
    ensures Decode(d, BundleBytes(d.hash, entries)) == Success(entries)
  {
    HeaderLayout(|entries|, Body(d.hash, entries));
    Widths();
    FromLeOfLe(BUNDLE_VERSION, 2);
    FromLeOfLe(0, 2);
    FromLeOfLe(|entries|, 4);
    DecodePrinted(d, entries, 0, None);
  }

  /** Accepted bytes re-encode to exactly themselves. */
  lemma {:induction false} EncodeDecoded(d: Decoder, bytes: Text)
    requires Decode(d, bytes).Success?
    ensures Accepted(d, Decode(d, bytes).value)
    ensures BundleBytes(d.hash, Decode(d, bytes).value) == bytes
  {
    hide DecodeEntry, DecodeEntries, ValidPath, Less, EntryBytes;
    var count := FromLe(bytes[8..12]);
    LeOfFromLe(bytes[4..6]);
    LeOfFromLe(bytes[6..8]);
    LeOfFromLe(bytes[8..12]);
    PrintDecoded(d, bytes[HEADER_BYTES..], count, 0, None);
    assert bytes == bytes[..4] + bytes[4..6] + bytes[6..8] + bytes[8..12] + bytes[HEADER_BYTES..];
  }

  /** The decoder accepts exactly the printed forms of acceptable lists. */
  lemma {:induction false} DecodeExact(d: Decoder, bytes: Text, entries: seq<BundleEntry>)
    requires d.Valid()
    ensures Decode(d, bytes) == Success(entries) <==> Accepted(d, entries) && bytes == BundleBytes(d.hash, entries)
  {
    if Decode(d, bytes) == Success(entries) { EncodeDecoded(d, bytes); }
    if Accepted(d, entries) { DecodeEncoded(d, entries); }
  }
}
