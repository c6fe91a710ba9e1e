/** The two bundle encoders: the streaming writer and the one-shot encoder built on it. */
module BundleWriters {
  import opened Bundles
  import opened Bytes
  import opened Digests
  import opened Readers
  import opened Snapshots
  import opened Sorting
  import opened Wrappers

  const COPY_BUFFER := 65536

  /** The refusals of an entry header, in the order they are decided. */
  function HeaderError(path: Text, declared: nat, written: nat, previous: Option<Text>): Option<BundleError> {
    if !ValidPath(path) then Some(UnsafePath(path))
    else if written == declared then
      Some(EntryCountMismatch(declared, if written + 1 < U32_LIMIT then written + 1 else written))
    else if previous.Some? && !Less(previous.value, path) then Some(OutOfOrder(path))
    else None
  }

  ghost predicate SafePaths(entries: seq<BundleEntry>) {
    forall i :: 0 <= i < |entries| ==> ValidPath(entries[i].path)
  }

  function LastPath(entries: seq<BundleEntry>): Option<Text> {
    if entries == [] then None else Some(entries[|entries| - 1].path)
  }

  class BundleStreamWriter {
    const hash: Hasher
    const declared: nat
    var output: Text
    var written: nat
    var previous: Option<Text>
    ghost var entries: seq<BundleEntry>

    /** The output is the declared header followed by the complete entries, and nothing else. */
    ghost predicate Valid()
      reads this
    {
      && declared < U32_LIMIT
      && written == |entries| <= declared
      && previous == LastPath(entries)
      && SafePaths(entries) && SortedBy(EntryPath(), entries)
      && output == Header(declared) + Body(hash, entries)
    }

    constructor (hash: Hasher, count: nat)
      requires count < U32_LIMIT
      ensures Valid() && entries == [] && declared == count && this.hash == hash
    {
      this.hash := hash;
      declared := count;
      output := MAGIC + Le(BUNDLE_VERSION, 2) + Le(0, 2) + Le(count, 4);
      written := 0;
      previous := None;
      entries := [];
      new;
      assert output + [] == output;
    }

    method WriteEntryHeader(path: Text, byteLength: nat, checksum: Digest) returns (error: Option<BundleError>)
      requires Valid() && byteLength < U64_LIMIT
      modifies this`output
      ensures error == HeaderError(path, declared, written, previous)
      ensures output == old(output)
                      + if error.None? then EntryHeader(|path|, byteLength, checksum) + path else []
    {
      if !ValidPath(path) {
        return Some(UnsafePath(path));
      }
      if written == declared {
        return Some(EntryCountMismatch(declared, if written + 1 < U32_LIMIT then written + 1 else written));
      }
      if previous.Some? && !Less(previous.value, path) {
        return Some(OutOfOrder(path));
      }
      output := output + Le(|path|, 2) + Le(0, 2) + Le(byteLength, 8) + checksum + path;
      return None;
    }

    method CompleteEntry(path: Text, ghost bytes: Text)
      requires declared < U32_LIMIT && written == |entries| < declared
      requires previous == LastPath(entries) && SafePaths(entries) && SortedBy(EntryPath(), entries)
      requires ValidPath(path) && (previous.Some? ==> Less(previous.value, path))
      requires output == Header(declared) + Body(hash, entries) + EntryBytes(hash, BundleEntry(path, bytes))
      modifies this`previous, this`written, this`entries
      ensures Valid() && entries == old(entries) + [BundleEntry(path, bytes)]
    {
      hide Header, EntryBytes, ValidPath;
      var entry := BundleEntry(path, bytes);
      BodyAppend(hash, entries, entry);
      StrictlySortedAppend(Keys(EntryPath(), entries), path);
      assert Keys(EntryPath(), entries + [entry]) == Keys(EntryPath(), entries) + [path];
      entries := entries + [entry];
      previous := Some(path);
      written := written + 1;
    }

    /** Writes a whole entry. Refusals leave the output as it was. */
    method WriteEntry(path: Text, bytes: Text) returns (error: Option<BundleError>)
      requires Valid()
      modifies this
      ensures Valid()
      ensures error == if |bytes| >= U64_LIMIT then Some(NumericRange)
                       else HeaderError(path, declared, old(written), old(previous))
      ensures entries == old(entries) + if error.None? then [BundleEntry(path, bytes)] else []
    {
      hide Header, EntryHeader, Le, ValidPath;
      if |bytes| >= U64_LIMIT {
        return Some(NumericRange);
      }
      error := WriteEntryHeader(path, |bytes|, hash(bytes));
      if error.Some? {
        return;
      }
      output := output + bytes;
      assert output == old(output) + (EntryHeader(|path|, |bytes|, hash(bytes)) + path + bytes);
      CompleteEntry(path, bytes);
    }

    /**
     * Copies a declared entry from a reader, whatever the sizes of its reads. The entry is complete
     * only when the reader held exactly the declared length with the declared checksum, and then the
     * output is the one a whole write of the same bytes produces.
     */
    method WritePrehashedEntry(path: Text, byteLength: nat, checksum: Digest, reader: ByteSource)
      returns (error: Option<BundleError>)
      requires Valid() && byteLength < U64_LIMIT
      modifies this, reader
      ensures error.None? ==> Valid() && entries == old(entries) + [BundleEntry(path, old(reader.rest))]
      ensures error == Some(SourceFailed) ==> None in old(reader.plans)
      ensures error != Some(SourceFailed) ==>
                error == if HeaderError(path, declared, old(written), old(previous)).Some?
                           then HeaderError(path, declared, old(written), old(previous))
                         else if |old(reader.rest)| != byteLength then Some(SourceLengthMismatch(path))
                         else if hash(old(reader.rest)) != checksum then Some(ChecksumMismatch(path))
                         else None
      ensures error.Some? ==> entries == old(entries) && written == old(written) && previous == old(previous)
    {
      hide Header, EntryHeader, Body, Le, ValidPath, Less, SafePaths, SortedBy;
      ghost var contents := reader.rest;
      error := WriteEntryHeader(path, byteLength, checksum);
      if error.Some? {
        return;
      }
      ghost var prefix := output;
      var remaining := byteLength;
      var hashed: Text := [];
      while remaining != 0
        invariant 0 <= remaining <= byteLength
        invariant hashed + reader.rest == contents && |hashed| == byteLength - remaining
        invariant output == prefix + hashed
        invariant None in reader.plans ==> None in old(reader.plans)
        invariant entries == old(entries) && written == old(written) && previous == old(previous)
      {
        var wanted := if remaining < COPY_BUFFER then remaining else COPY_BUFFER;
        var read := reader.Read(wanted);
        if read.None? {
          return Some(SourceFailed);
        }
        if read.value == [] {
          return Some(SourceLengthMismatch(path));
        }
        assert contents == hashed + read.value + reader.rest;
        hashed := hashed + read.value;
        output := output + read.value;
        remaining := remaining - |read.value|;
      }
      var extra := reader.Read(1);
      if extra.None? {
        return Some(SourceFailed);
      }
      if extra.value != [] {
        return Some(SourceLengthMismatch(path));
      }
      assert contents == hashed;
      if hash(hashed) != checksum {
        return Some(ChecksumMismatch(path));
      }
      assert output == old(output) + (EntryHeader(|path|, byteLength, checksum) + path + contents);
      CompleteEntry(path, contents);
    }

    /** Hands the bytes over once every declared entry is present. */
    method Finish() returns (r: Result<Text, BundleError>)
      requires Valid()
      ensures r == if |entries| == declared then Success(BundleBytes(hash, entries))
                   else Failure(EntryCountMismatch(declared, |entries|))
    {
      if written != declared {
        return Failure(EntryCountMismatch(declared, written));
      }
      return Success(output);
    }
  }

  // ----- the one-shot encoder -----

  /** The inputs the encoder can represent. */
  ghost predicate Encodable(entries: seq<BundleEntry>) {
    && SafePaths(entries) && DistinctKeys(EntryPath(), entries)
    && |entries| < U32_LIMIT
    && forall i :: 0 <= i < |entries| ==> |entries[i].bytes| < U64_LIMIT
  }

  lemma {:induction false} EncodablePermuted(a: seq<BundleEntry>, b: seq<BundleEntry>)
    requires multiset(a) == multiset(b) && |a| == |b| && Encodable(a)
    ensures Encodable(b)
  {
    PermutedDistinct(EntryPath(), a, b);
    forall i | 0 <= i < |b| ensures b[i] in a { assert b[i] in multiset(b); }
  }

  method EncodeBundle(hash: Hasher, entries: seq<BundleEntry>) returns (r: Result<Text, BundleError>)
    ensures r.Success? <==> Encodable(entries)
    ensures r.Success? ==> r.value == BundleBytes(hash, Sort(EntryPath(), entries))
    ensures r.Failure? ==> match r.error
      case UnsafePath(path) => !ValidPath(path) && exists i :: 0 <= i < |entries| && entries[i].path == path
      case OutOfOrder(path) => SafePaths(entries) && !DistinctKeys(EntryPath(), entries)
      case NumericRange => SafePaths(entries) && DistinctKeys(EntryPath(), entries)
      case _ => false
  {
    hide ValidPath, Less, Header, EntryBytes, Body, Sort, DistinctKeys;
    for i := 0 to |entries|
      invariant forall j :: 0 <= j < i ==> ValidPath(entries[j].path)
    {
      if !ValidPath(entries[i].path) {
        return Failure(UnsafePath(entries[i].path));
      }
    }
    var sorted := Sort(EntryPath(), entries);
    SortAscending(EntryPath(), entries);
    SortPermutes(EntryPath(), entries);
    AscendingDistinct(EntryPath(), sorted);
    var repeated := RepeatedPath(sorted);
    if repeated.Some? {
      if DistinctKeys(EntryPath(), entries) { PermutedDistinct(EntryPath(), entries, sorted); }
      return Failure(OutOfOrder(repeated.value));
    }
    PermutedDistinct(EntryPath(), sorted, entries);
    if |sorted| >= U32_LIMIT {
      return Failure(NumericRange);
    }
    r := WriteSorted(hash, sorted, entries);
  }

  /** A path that occurs twice, if there is one. */
  method RepeatedPath(sorted: seq<BundleEntry>) returns (repeated: Option<Text>)
    ensures repeated.None? <==> DistinctKeys(EntryPath(), sorted)
  {
    var paths: set<Text> := {};
    for i := 0 to |sorted|
      invariant paths == set j | 0 <= j < i :: sorted[j].path
      invariant forall j, k :: 0 <= j < k < i ==> sorted[j].path != sorted[k].path
    {
      if sorted[i].path in paths {
        return Some(sorted[i].path);
      }
      paths := paths + {sorted[i].path};
    }
    return None;
  }

  method WriteSorted(hash: Hasher, sorted: seq<BundleEntry>, ghost entries: seq<BundleEntry>)
    returns (r: Result<Text, BundleError>)
    requires |sorted| < U32_LIMIT && SortedBy(EntryPath(), sorted)
    requires multiset(sorted) == multiset(entries) && |sorted| == |entries|
    requires SafePaths(entries) && DistinctKeys(EntryPath(), entries)
    ensures r.Success? <==> Encodable(entries)
    ensures r.Success? ==> r.value == BundleBytes(hash, sorted)
    ensures r.Failure? ==> r.error == NumericRange
  {
    hide ValidPath, Less, Header, EntryBytes, Body;
    forall i | 0 <= i < |sorted| ensures ValidPath(sorted[i].path) { assert sorted[i] in multiset(entries); }
    var writer := new BundleStreamWriter(hash, |sorted|);
    for i := 0 to |sorted|
      invariant writer.Valid() && writer.entries == sorted[..i] && writer.declared == |sorted| && writer.hash == hash
      invariant forall j :: 0 <= j < i ==> |sorted[j].bytes| < U64_LIMIT
    {
      if i > 0 { assert Less(Keys(EntryPath(), sorted)[i - 1], Keys(EntryPath(), sorted)[i]); }
      var error := writer.WriteEntry(sorted[i].path, sorted[i].bytes);
      if error.Some? {
        assert |sorted[i].bytes| >= U64_LIMIT;
        if Encodable(entries) { EncodablePermuted(entries, sorted); }
        return Failure(error.value);
      }
      assert sorted[..i + 1] == sorted[..i] + [sorted[i]];
    }
    assert sorted[..|sorted|] == sorted;
    DistinctOfSorted(sorted);
    EncodablePermuted(sorted, entries);
    r := writer.Finish();
  }

  lemma {:induction false} DistinctOfSorted(sorted: seq<BundleEntry>)
    requires SortedBy(EntryPath(), sorted)
    ensures DistinctKeys(EntryPath(), sorted)
  {
    forall i, j | 0 <= i < j < |sorted| ensures sorted[i].path != sorted[j].path {
      assert Less(Keys(EntryPath(), sorted)[i], Keys(EntryPath(), sorted)[j]);
      LessIrreflexive(sorted[i].path);
    }
  }

  // ----- any entries, encoded and decoded -----

  lemma {:induction false} TotalInsert(entry: BundleEntry, entries: seq<BundleEntry>)
    ensures TotalBytes(Insert(EntryPath(), entry, entries)) == |entry.bytes| + TotalBytes(entries)
  {
    if entries != [] && Less(entries[0].path, entry.path) { TotalInsert(entry, entries[1..]); }
  }

  lemma {:induction false} TotalSort(entries: seq<BundleEntry>)
    ensures TotalBytes(Sort(EntryPath(), entries)) == TotalBytes(entries)
  {
    if entries != [] {
      TotalSort(entries[1..]);
      TotalInsert(entries[0], Sort(EntryPath(), entries[1..]));
    }
  }

  /** Entries with distinct safe paths, in any order and within the ceilings, come back sorted by path. */
  lemma {:induction false} EncodeDecodeRoundTrip(d: Decoder, entries: seq<BundleEntry>)
    requires d.Valid() && |entries| <= d.limits.entries && TotalBytes(entries) <= d.limits.totalBytes
    requires DistinctKeys(EntryPath(), entries)
    requires forall i :: 0 <= i < |entries| ==> AcceptedEntry(d, entries[i])
    ensures Encodable(entries)
    ensures Decode(d, BundleBytes(d.hash, Sort(EntryPath(), entries))) == Success(Sort(EntryPath(), entries))
  {
    hide ValidPath, Less, BundleBytes, Decode;
    var sorted := Sort(EntryPath(), entries);
    SortPermutes(EntryPath(), entries);
    SortDistinct(EntryPath(), entries);
    TotalSort(entries);
    forall i | 0 <= i < |sorted| ensures AcceptedEntry(d, sorted[i]) { assert sorted[i] in multiset(entries); }
    DecodeEncoded(d, sorted);
  }
}
