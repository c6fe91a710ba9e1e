/** The bounded object cache and the terminal tail that is rebuilt through it. */
module TerminalViews {
  import opened Bytes
  import opened Digests
  import opened Events
  import opened Wrappers

  const MAX_TERMINAL_VIEW_BYTES := 1_048_576

  type Stored = map<Digest, Text>

  ghost predicate Distinct(order: seq<Digest>) {
    forall i, j :: 0 <= i < j < |order| ==> order[i] != order[j]
  }

  /** Each entry once. */
  ghost predicate Ranks(order: seq<Digest>, entries: Stored) {
    Distinct(order) && forall id :: id in order <==> id in entries
  }

  lemma {:induction false} RankedIn(order: seq<Digest>, entries: Stored)
    requires Ranks(order, entries)
    ensures forall i :: 0 <= i < |order| ==> order[i] in entries
  {
    forall i | 0 <= i < |order| ensures order[i] in entries { assert order[i] in order; }
  }

  function Sizes(order: seq<Digest>, entries: Stored): nat
    requires forall i :: 0 <= i < |order| ==> order[i] in entries
  {
    if order == [] then 0 else |entries[order[0]]| + Sizes(order[1..], entries)
  }

  lemma {:induction false} SizesConcat(a: seq<Digest>, b: seq<Digest>, entries: Stored)
    requires forall i :: 0 <= i < |a| ==> a[i] in entries
    requires forall i :: 0 <= i < |b| ==> b[i] in entries
    ensures forall i :: 0 <= i < |a + b| ==> (a + b)[i] in entries
    ensures Sizes(a + b, entries) == Sizes(a, entries) + Sizes(b, entries)
  {
    if a == [] {
      assert a + b == b;
    } else {
      assert (a + b)[1..] == a[1..] + b;
      SizesConcat(a[1..], b, entries);
    }
  }

  lemma {:induction false} SizesAgree(order: seq<Digest>, a: Stored, b: Stored)
    requires forall i :: 0 <= i < |order| ==> order[i] in a && order[i] in b && a[order[i]] == b[order[i]]
    ensures Sizes(order, a) == Sizes(order, b)
  {
    if order != [] { SizesAgree(order[1..], a, b); }
  }

  /** `order` without its single occurrence of `id`. */
  function Without(order: seq<Digest>, id: Digest): seq<Digest> {
    if order == [] then []
    else if order[0] == id then order[1..]
    else [order[0]] + Without(order[1..], id)
  }

  datatype ViewError = Missing(id: Digest) | Length(id: Digest, expected: nat, actual: nat)

  class ObjectCache {
    const capacity: nat
    /** Least recently used first. */
    var order: seq<Digest>
    var entries: Stored
    var used: nat

    ghost predicate Valid()
      reads this
    {
      && Ranks(order, entries)
      && (forall i :: 0 <= i < |order| ==> order[i] in entries)
      && used == Sizes(order, entries) <= capacity
    }

    constructor (capacity: nat)
      ensures Valid() && this.capacity == capacity && order == [] && entries == map[]
    {
      this.capacity := capacity;
      order, entries, used := [], map[], 0;
    }

    /** What is cached is what is stored. */
    ghost predicate Faithful(stored: Stored)
      reads this
    {
      forall id :: id in entries ==> id in stored && entries[id] == stored[id]
    }

    /** Moves an entry to the most recently used end. */
    method Touch(id: Digest)
      requires Valid() && id in entries
      modifies this`order
      ensures Valid() && order == Without(old(order), id) + [id]
    {
      hide Distinct;
      var position := 0;
      while order[position] != id
        invariant 0 <= position < |order| && id in order[position..] && id !in order[..position]
        decreases |order| - position
      {
        assert order[position..] == [order[position]] + order[position + 1..];
        assert order[..position + 1] == order[..position] + [order[position]];
        position := position + 1;
      }
      WithoutAt(order, id, position);
      MovedRanks(order, entries, position);
      MovedSizes(order, entries, position);
      order := order[..position] + order[position + 1..];
      order := order + [id];
      RankedIn(order, entries);
    }

    /**
     * Adds an object, giving up the least recently used ones, but no more of them than it takes. Without
     * room for it in the whole cache nothing changes.
     */
    method Insert(id: Digest, bytes: Text) returns (kept: bool, ghost given: nat)
      requires Valid() && id !in entries
      modifies this`order, this`entries, this`used
      ensures Valid()
      ensures kept <==> |bytes| <= capacity
      ensures !kept ==> order == old(order) && entries == old(entries)
      ensures kept ==> id in entries && entries[id] == bytes
      ensures kept ==> forall other :: other in entries && other != id ==>
          other in old(entries) && entries[other] == old(entries)[other]
      ensures kept ==> given <= |old(order)| && order == old(order)[given..] + [id]
      ensures kept && given > 0 ==> |bytes| + Remaining(old(order), old(entries), given - 1) > capacity
    {
      hide Ranks, Distinct;
      given := 0;
      if |bytes| > capacity {
        return false, 0;
      }
      given := MakeRoom(|bytes|);
      assert id !in entries;
      Appended(order, entries, id, bytes);
      used := used + |bytes|;
      order := order + [id];
      entries := entries[id := bytes];
      return true, given;
    }

    /** Gives up the oldest entries until there is room. */
    method MakeRoom(size: nat) returns (ghost given: nat)
      requires Valid() && size <= capacity
      modifies this`order, this`entries, this`used
      ensures Valid() && used + size <= capacity
      ensures given <= |old(order)| && order == old(order)[given..]
      ensures forall other :: other in entries ==> other in old(entries) && entries[other] == old(entries)[other]
      ensures given > 0 ==> size + Remaining(old(order), old(entries), given - 1) > capacity
    {
      hide Ranks, Distinct, Sizes;
      given := 0;
      NothingUsed();
      assert order == old(order)[0..];
      while used + size > capacity
        invariant given <= |old(order)| && order == old(order)[given..]
        invariant Valid()
        invariant forall other :: other in entries ==> other in old(entries) && entries[other] == old(entries)[other]
        invariant used == Remaining(old(order), old(entries), given)
        invariant given > 0 ==> size + Remaining(old(order), old(entries), given - 1) > capacity
        decreases |order|
      {
        var oldest := order[0];
        OldestLeaves(order, entries);
        RemainingNext(old(order), old(entries), given);
        order := order[1..];
        used := used - |entries[oldest]|;
        entries := entries - {oldest};
        given := given + 1;
        RankedIn(order, entries);
      }
    }

    /** Bytes from the cache, or from the store when they fit; `None` only for objects larger than the cache. */
    method GetOrLoad(stored: Stored, id: Digest, expected: nat) returns (r: Result<Option<Text>, ViewError>)
      requires Valid() && Faithful(stored)
      modifies this`order, this`entries, this`used
      ensures Valid() && Faithful(stored)
      ensures r.Success? && r.value.Some? ==> id in stored && r.value.value == stored[id]
      ensures r.Success? && r.value.Some? ==> id in entries && order[|order| - 1] == id
      ensures r.Success? && r.value.None? ==> expected > capacity
      ensures r.Failure? ==> id !in stored || |stored[id]| != expected
    {
      if id in entries {
        Touch(id);
        return Success(Some(entries[id]));
      }
      if expected > capacity {
        return Success(None);
      }
      if id !in stored {
        return Failure(Missing(id));
      }
      var bytes := stored[id];
      if |bytes| != expected {
        return Failure(Length(id, expected, |bytes|));
      }
      var kept, _ := Insert(id, bytes);
      return Success(Some(entries[id]));
    }
  }

  /** The bytes that remain in use once the first `given` entries have been given up. */
  function Remaining(order: seq<Digest>, entries: Stored, given: nat): nat
    requires given <= |order| && forall i :: 0 <= i < |order| ==> order[i] in entries
  {
    Sizes(order[given..], entries)
  }

  lemma {:induction false} RemainingNext(order: seq<Digest>, entries: Stored, given: nat)
    requires given < |order| && forall i :: 0 <= i < |order| ==> order[i] in entries
    ensures Remaining(order, entries, given) == |entries[order[given]]| + Remaining(order, entries, given + 1)
  {
    assert order[given..][1..] == order[given + 1..];
  }

  lemma {:induction false} NothingUsed()
    ensures Sizes([], map[]) == 0 && forall entries :: Sizes([], entries) == 0
  {
  }

  lemma {:induction false} WithoutAt(order: seq<Digest>, id: Digest, position: nat)
    requires position < |order| && order[position] == id && id !in order[..position]
    ensures Without(order, id) == order[..position] + order[position + 1..]
  {
    if position > 0 {
      assert order[..position] == [order[0]] + order[1..][..position - 1];
      WithoutAt(order[1..], id, position - 1);
    }
  }

  function Moved(order: seq<Digest>, position: nat): seq<Digest>
    requires position < |order|
  {
    order[..position] + order[position + 1..] + [order[position]]
  }

  lemma {:induction false} MovedRanks(order: seq<Digest>, entries: Stored, position: nat)
    requires position < |order| && Ranks(order, entries)
    ensures Ranks(Moved(order, position), entries)
  {
    var moved := Moved(order, position);
    forall i | 0 <= i < |order|
      ensures moved[i] == if i < position then order[i] else if i < |order| - 1 then order[i + 1] else order[position]
    {
    }
    assert order == order[..position] + [order[position]] + order[position + 1..];
    forall id ensures id in moved <==> id in order {}
  }

  lemma {:induction false} MovedSizes(order: seq<Digest>, entries: Stored, position: nat)
    requires position < |order| && forall i :: 0 <= i < |order| ==> order[i] in entries
    ensures forall i :: 0 <= i < |order| ==> Moved(order, position)[i] in entries
    ensures Sizes(Moved(order, position), entries) == Sizes(order, entries)
  {
    hide Sizes;
    var a, x, b := order[..position], [order[position]], order[position + 1..];
    assert order == a + x + b;
    SizesConcat(a, x, entries);
    SizesConcat(a + x, b, entries);
    SizesConcat(a, b, entries);
    SizesConcat(a + b, x, entries);
  }

  lemma {:induction false} OldestLeaves(order: seq<Digest>, entries: Stored)
    requires order != [] && Ranks(order, entries) && forall i :: 0 <= i < |order| ==> order[i] in entries
    ensures Ranks(order[1..], entries - {order[0]})
    ensures forall i :: 0 <= i < |order[1..]| ==> order[1..][i] in entries - {order[0]}
    ensures Sizes(order[1..], entries - {order[0]}) == Sizes(order, entries) - |entries[order[0]]|
  {
    assert order[0] !in order[1..];
    assert order == [order[0]] + order[1..];
    SizesAgree(order[1..], entries, entries - {order[0]});
  }

  lemma {:induction false} Appended(order: seq<Digest>, entries: Stored, id: Digest, bytes: Text)
    requires Ranks(order, entries) && id !in entries && forall i :: 0 <= i < |order| ==> order[i] in entries
    ensures var more := entries[id := bytes];
      Ranks(order + [id], more) && (forall i :: 0 <= i < |order + [id]| ==> (order + [id])[i] in more)
      && Sizes(order + [id], more) == Sizes(order, entries) + |bytes|
  {
    var more := entries[id := bytes];
    SizesAgree(order, entries, more);
    SizesConcat(order, [id], more);
  }

  // ----- the visible tail -----

  datatype View = View(raw: Text, truncated: bool)

  /** The recorded bytes of consecutive output frames. */
  function Contents(stored: Stored, frames: seq<Chunk>): Text {
    if frames == [] then []
    else Contents(stored, frames[..|frames| - 1])
         + if frames[|frames| - 1].objectId in stored then stored[frames[|frames| - 1].objectId] else []
  }

  /** The smaller of the cache's capacity and the view's own limit. */
  function Budget(capacity: nat): (budget: nat)
    ensures budget <= capacity && budget <= MAX_TERMINAL_VIEW_BYTES
    ensures budget == capacity || budget == MAX_TERMINAL_VIEW_BYTES
  {
    if capacity < MAX_TERMINAL_VIEW_BYTES then capacity else MAX_TERMINAL_VIEW_BYTES
  }

  /** `first` is where the longest run of newest frames within the budget begins. */
  ghost predicate LongestTail(frames: seq<Chunk>, budget: nat, first: nat) {
    && first <= |frames| && ChunkBytes(frames[first..]) <= budget
    && (first > 0 ==> ChunkBytes(frames[first - 1..]) > budget)
  }

  lemma {:induction false} TailShrinks(frames: seq<Chunk>, a: nat, b: nat)
    requires a <= b <= |frames|
    ensures ChunkBytes(frames[b..]) <= ChunkBytes(frames[a..])
    decreases b - a
  {
    if a < b {
      assert frames[a..][1..] == frames[a + 1..];
      TailShrinks(frames, a + 1, b);
    }
  }

  /** There is one such place. */
  lemma {:induction false} LongestTailUnique(frames: seq<Chunk>, budget: nat, a: nat, b: nat)
    requires LongestTail(frames, budget, a) && LongestTail(frames, budget, b)
    ensures a == b
  {
    if a < b { TailShrinks(frames, a, b - 1); }
    if b < a { TailShrinks(frames, b, a - 1); }
  }

  lemma {:induction false} ChunksStep(events: seq<Event>, i: nat)
    requires i < |events|
    ensures Chunks(events[..i + 1]) == Chunks(events[..i]) + ChunkOf(events[i])
  {
    assert events[..i + 1] == events[..i] + [events[i]];
    ProjectLast(events[..i], events[i]);
  }

  /** Collects the newest frames of the page, up to the selection, while they fit. */
  method CollectFrames(events: seq<Event>, selected: nat, budget: nat)
    returns (references: seq<Chunk>, cut: bool)
    requires selected < |events|
    ensures var frames := Chunks(events[..selected + 1]);
      && |references| <= |frames| && references == frames[|frames| - |references|..]
      && LongestTail(frames, budget, |frames| - |references|)
      && (cut <==> |references| < |frames|)
  {
    hide Chunks, ChunkBytes;
    references, cut := [], false;
    var total := 0;
    var i := selected + 1;
    ghost var frames := Chunks(events[..i]);
    NoFrames();
    while i > 0
      invariant 0 <= i <= selected + 1
      invariant frames == Chunks(events[..i]) + references
      invariant total == ChunkBytes(references) <= budget
    {
      i := i - 1;
      ChunksStep(events, i);
      var event := events[i];
      if event.payload.TerminalOutput? {
        var chunk := Chunk(event.sequence, event.payload.objectId, event.payload.byteLength);
        PrependBytes(chunk, references);
        if total + event.payload.byteLength > budget {
          ghost var first := |Chunks(events[..i])| + 1;
          assert frames[first - 1..] == [chunk] + references && frames[first..] == references;
          return references, true;
        }
        total := total + event.payload.byteLength;
        references := [chunk] + references;
      }
    }
    assert events[..0] == [];
    assert frames[0..] == references;
    return references, false;
  }

  lemma {:induction false} NoFrames()
    ensures Chunks([]) == [] && ChunkBytes([]) == 0
  {
  }

  lemma {:induction false} PrependBytes(chunk: Chunk, chunks: seq<Chunk>)
    ensures ChunkBytes([chunk] + chunks) == chunk.byteLength + ChunkBytes(chunks)
  {
    assert ([chunk] + chunks)[1..] == chunks;
  }

  lemma {:induction false} FrameWithin(chunks: seq<Chunk>, i: nat)
    requires i < |chunks|
    ensures chunks[i].byteLength <= ChunkBytes(chunks)
  {
    if i > 0 { FrameWithin(chunks[1..], i - 1); }
  }

  /**
   * Rebuilds the terminal from the page: exactly the recorded bytes of the longest run of output frames,
   * up to the selection, that fits the budget. No frame of that run is lost to the cache.
   */
  method RefreshTerminal(cache: ObjectCache, stored: Stored, events: seq<Event>, selected: nat)
    returns (r: Result<View, ViewError>, ghost first: nat)
    requires cache.Valid() && cache.Faithful(stored)
    modifies cache`order, cache`entries, cache`used
    ensures cache.Valid() && cache.Faithful(stored)
    ensures selected < |events| ==> LongestTail(Chunks(events[..selected + 1]), Budget(cache.capacity), first)
    ensures r.Success? && selected < |events| ==>
      r.value == View(Contents(stored, Chunks(events[..selected + 1])[first..]), events[0].sequence != 1 || first > 0)
    ensures r.Success? && selected >= |events| ==> r.value == View([], false)
    ensures r.Failure? ==> selected < |events| && SomeUnreadable(stored, Chunks(events[..selected + 1])[first..])
  {
    hide Chunks, ChunkBytes, Contents;
    if selected >= |events| {
      return Success(View([], false)), 0;
    }
    var references, cut;
    references, cut := CollectFrames(events, selected, Budget(cache.capacity));
    first := |Chunks(events[..selected + 1])| - |references|;
    var truncated := events[0].sequence != 1 || cut;
    var raw: Text := [];
    NoContents(stored);
    assert references[..0] == [];
    for i := 0 to |references|
      invariant cache.Valid() && cache.Faithful(stored)
      invariant raw == Contents(stored, references[..i]) && truncated == (events[0].sequence != 1 || cut)
    {
      FrameWithin(references, i);
      ContentsNext(stored, references, i);
      var loaded := cache.GetOrLoad(stored, references[i].objectId, references[i].byteLength);
      if loaded.Failure? {
        assert Unreadable(stored, references[i]);
        return Failure(loaded.error), first;
      }
      if loaded.value.Some? {
        raw := raw + loaded.value.value;
      } else {
        truncated := true;
      }
    }
    assert references[..|references|] == references;
    return Success(View(raw, truncated)), first;
  }

  ghost predicate SomeUnreadable(stored: Stored, frames: seq<Chunk>) {
    exists i :: 0 <= i < |frames| && Unreadable(stored, frames[i])
  }

  /** The store lacks a frame's object, or holds it with another length. */
  predicate Unreadable(stored: Stored, frame: Chunk) {
    frame.objectId !in stored || |stored[frame.objectId]| != frame.byteLength
  }

  lemma {:induction false} NoContents(stored: Stored)
    ensures Contents(stored, []) == []
  {
  }

  lemma {:induction false} ContentsNext(stored: Stored, frames: seq<Chunk>, i: nat)
    requires i < |frames|
    ensures Contents(stored, frames[..i + 1])
         == Contents(stored, frames[..i]) + if frames[i].objectId in stored then stored[frames[i].objectId] else []
  {
    assert frames[..i + 1][..i] == frames[..i];
  }
}
