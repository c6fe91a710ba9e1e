/** Run ancestry: a forest of parent links, and the nearest common ancestor of two runs. */
module Ancestry {
  import opened Events
  import opened Wrappers

  datatype Parent = Parent(run: RunId, checkpoint: CheckpointId)

  type Parents = map<RunId, Option<Parent>>

  function ParentOf(parents: Parents, id: RunId): Option<RunId> {
    if id in parents && parents[id].Some? then Some(parents[id].value.run) else None
  }

  /** The ancestor `n` links up, if there is one. */
  function Up(parents: Parents, id: RunId, n: nat): Option<RunId> {
    if n == 0 then Some(id)
    else
      var below := Up(parents, id, n - 1);
      if below.None? then None else ParentOf(parents, below.value)
  }

  ghost predicate Acyclic(parents: Parents) {
    forall id: RunId, n: nat :: n > 0 ==> Up(parents, id, n) != Some(id)
  }

  ghost predicate OnChain(parents: Parents, run: RunId, ancestor: RunId) {
    exists n: nat :: Up(parents, run, n) == Some(ancestor)
  }

  /** Every parent is itself a stored run. */
  ghost predicate Closed(parents: Parents) {
    forall id :: id in parents && parents[id].Some? ==> parents[id].value.run in parents
  }

  lemma {:induction false} UpTwice(parents: Parents, id: RunId, m: nat, n: nat)
    requires Up(parents, id, m).Some?
    ensures Up(parents, id, m + n) == Up(parents, Up(parents, id, m).value, n)
  {
    if n > 0 { UpTwice(parents, id, m, n - 1); }
  }

  lemma {:induction false} UpDown(parents: Parents, id: RunId, m: nat, n: nat)
    requires m <= n && Up(parents, id, n).Some?
    ensures Up(parents, id, m).Some?
  {
    if m < n { UpDown(parents, id, m, n - 1); }
  }

  /** Without cycles no run is met twice on the way up. */
  lemma {:induction false} UpInjective(parents: Parents, id: RunId, m: nat, n: nat)
    requires Acyclic(parents) && m < n && Up(parents, id, n).Some?
    ensures Up(parents, id, m) != Up(parents, id, n)
  {
    UpDown(parents, id, m, n);
    UpTwice(parents, id, m, n - m);
  }

  // ----- the walk to the root -----

  /** The runs from `current` upwards that have not been seen, ending where the chain ends or repeats. */
  function Walk(parents: Parents, current: Option<RunId>, seen: set<RunId>): seq<RunId>
    decreases parents.Keys - seen, if current.Some? then 1 else 0
  {
    if current.None? || current.value in seen then []
    else [current.value] + Walk(parents, ParentOf(parents, current.value), seen + {current.value})
  }

  method Ancestors(parents: Parents, run: RunId) returns (result: seq<RunId>)
    ensures result == Walk(parents, Some(run), {})
  {
    result := [];
    var seen: set<RunId> := {};
    var current := Some(run);
    while current.Some? && current.value !in seen
      invariant result + Walk(parents, current, seen) == Walk(parents, Some(run), {})
      decreases parents.Keys - seen, if current.Some? then 1 else 0
    {
      var id := current.value;
      seen := seen + {id};
      result := result + [id];
      current := ParentOf(parents, id);
    }
  }

  /** Whatever the table, the walk climbs link by link, meets no run twice and leaves none out. */
  lemma {:induction false} WalkClimbs(parents: Parents, run: RunId, seen: set<RunId>)
    requires run !in seen
    ensures var walk := Walk(parents, Some(run), seen);
      && walk != []
      && (forall i :: 0 <= i < |walk| ==> Up(parents, run, i) == Some(walk[i]) && walk[i] !in seen)
      && (forall i, j :: 0 <= i < j < |walk| ==> walk[i] != walk[j])
      && (Up(parents, run, |walk|).None? || Up(parents, run, |walk|).value in seen
        || Up(parents, run, |walk|).value in walk)
    decreases parents.Keys - seen, if run in parents then 1 else 0
  {
    var walk := Walk(parents, Some(run), seen);
    var next := ParentOf(parents, run);
    assert Up(parents, run, 0) == Some(run) && Up(parents, run, 1) == next;
    if next.Some? && next.value !in seen + {run} {
      WalkClimbs(parents, next.value, seen + {run});
      var rest := Walk(parents, next, seen + {run});
      assert walk == [run] + rest;
      forall i | 0 < i <= |walk| ensures Up(parents, run, i) == Up(parents, next.value, i - 1) {
        UpTwice(parents, run, 1, i - 1);
      }
    } else {
      assert Walk(parents, next, seen + {run}) == [];
      assert walk == [run];
    }
  }

  /** Whatever the table, the walk meets every ancestor. */
  lemma {:induction false} WalkComplete(parents: Parents, run: RunId, m: nat)
    requires Up(parents, run, m).Some?
    ensures Up(parents, run, m).value in Walk(parents, Some(run), {})
  {
    hide Walk;
    WalkClimbs(parents, run, {});
    var walk := Walk(parents, Some(run), {});
    if m >= |walk| {
      UpDown(parents, run, m - 1, m);
      WalkComplete(parents, run, m - 1);
      var i :| 0 <= i < |walk| && walk[i] == Up(parents, run, m - 1).value;
      assert Up(parents, run, i + 1) == Up(parents, run, m);
    }
  }

  // ----- creating runs -----

  datatype CreateError = ParentCycle | Exists | UnknownCheckpoint

  lemma {:induction false} UpKept(parents: Parents, id: RunId, parent: Option<Parent>, from: RunId, n: nat)
    requires Closed(parents) && id !in parents && from in parents
    ensures Up(parents[id := parent], from, n) == Up(parents, from, n)
    ensures Up(parents, from, n).Some? ==> Up(parents, from, n).value in parents
  {
    if n > 0 { UpKept(parents, id, parent, from, n - 1); }
  }

  lemma {:induction false} UpOutside(parents: Parents, from: RunId, n: nat)
    requires from !in parents && n > 0
    ensures Up(parents, from, n).None?
  {
    if n > 1 { UpOutside(parents, from, n - 1); }
  }

  /** Adding a run below an existing one, or on its own, closes no cycle. */
  lemma {:induction false} CreationKeepsForest(parents: Parents, id: RunId, parent: Option<Parent>)
    requires Acyclic(parents) && Closed(parents) && id !in parents
    requires parent.Some? ==> parent.value.run in parents
    ensures Acyclic(parents[id := parent]) && Closed(parents[id := parent])
  {
    var after := parents[id := parent];
    forall x: RunId, n: nat | n > 0 ensures Up(after, x, n) != Some(x) {
      if x == id {
        if parent.Some? {
          UpTwice(after, id, 1, n - 1);
          UpKept(parents, id, parent, parent.value.run, n - 1);
        } else {
          assert Up(after, id, 1).None?;
          if Up(after, id, n).Some? { UpDown(after, id, 1, n); }
        }
      } else if x in parents {
        UpKept(parents, id, parent, x, n);
      } else {
        UpOutside(after, x, n);
      }
    }
  }

  lemma {:induction false} OnOwnChain(parents: Parents, run: RunId)
    ensures OnChain(parents, run, run)
  {
    var start: nat := 0;
    assert Up(parents, run, start) == Some(run);
  }

  lemma {:induction false} CycleMeetsStored(parents: Parents, from: RunId, n: nat)
    requires Closed(parents) && Up(parents, from, n).Some?
    ensures n == 0 || Up(parents, from, n).value in parents
  {
    if n > 0 { UpDown(parents, from, n - 1, n); }
  }

  class RunTable {
    var parents: Parents
    /** The stored checkpoints, each with its run. */
    var checkpoints: set<(RunId, CheckpointId)>

    /** No cycles, checkpoints of stored runs, and every fork at a stored checkpoint of the parent. */
    ghost predicate Valid()
      reads this
    {
      && Acyclic(parents) && Closed(parents)
      && (forall run, id :: (run, id) in checkpoints ==> run in parents)
      && forall id :: id in parents && parents[id].Some? ==>
           (parents[id].value.run, parents[id].value.checkpoint) in checkpoints
    }

    constructor ()
      ensures Valid() && parents == map[] && checkpoints == {}
    {
      parents := map[];
      checkpoints := {};
      new;
      forall id: RunId, n: nat | n > 0 ensures Up(parents, id, n) != Some(id) { UpOutside(parents, id, n); }
    }

    /** The closure over parent links that the recursive query computes; it ends on any table. */
    method WouldCycle(child: RunId, parent: RunId) returns (r: bool)
      ensures r <==> OnChain(parents, parent, child)
    {
      var closure := Ancestors(parents, parent);
      WalkClimbs(parents, parent, {});
      if OnChain(parents, parent, child) {
        ghost var n: nat :| Up(parents, parent, n) == Some(child);
        WalkComplete(parents, parent, n);
      }
      r := child in closure;
    }

    /** A committed checkpoint of a stored run becomes a place to fork from. */
    method AddCheckpoint(run: RunId, id: CheckpointId)
      requires Valid() && run in parents
      modifies this`checkpoints
      ensures Valid() && checkpoints == old(checkpoints) + {(run, id)}
    {
      checkpoints := checkpoints + {(run, id)};
    }

    /**
     * Refuses a run that would be its own ancestor, a second run of one identity, and a parent without the
     * checkpoint the run is said to fork from.
     */
    method CreateRun(id: RunId, parent: Option<Parent>) returns (error: Option<CreateError>)
      requires Valid()
      modifies this`parents
      ensures Valid()
      ensures error.None? <==>
        id !in old(parents) && (parent.Some? ==> (parent.value.run, parent.value.checkpoint) in checkpoints)
      ensures parents == if error.None? then old(parents)[id := parent] else old(parents)
      ensures error == Some(ParentCycle) <==> parent.Some? && OnChain(old(parents), parent.value.run, id)
    {
      if parent.Some? {
        var cycle := WouldCycle(id, parent.value.run);
        if parent.value.run == id {
          OnOwnChain(parents, id);
          return Some(ParentCycle);
        }
        if cycle {
          ghost var n: nat :| Up(parents, parent.value.run, n) == Some(id);
          CycleMeetsStored(parents, parent.value.run, n);
          return Some(ParentCycle);
        }
      }
      if id in parents {
        return Some(Exists);
      }
      if parent.Some? && (parent.value.run, parent.value.checkpoint) !in checkpoints {
        return Some(UnknownCheckpoint);
      }
      CreationKeepsForest(parents, id, parent);
      parents := parents[id := parent];
      return None;
    }
  }

  // ----- how two runs are related -----

  datatype Relationship =
    | SameRun
    | LeftParentOfRight(fork: CheckpointId)
    | RightParentOfLeft(fork: CheckpointId)
    | CommonAncestor(run: RunId)
    | Unrelated

  function First(candidates: seq<RunId>, others: seq<RunId>): Option<RunId> {
    if candidates == [] then None
    else if candidates[0] in others then Some(candidates[0])
    else First(candidates[1..], others)
  }

  function Relate(parents: Parents, left: RunId, right: RunId): Relationship {
    if left == right then SameRun
    else if right in parents && parents[right].Some? && parents[right].value.run == left
      then LeftParentOfRight(parents[right].value.checkpoint)
    else if left in parents && parents[left].Some? && parents[left].value.run == right
      then RightParentOfLeft(parents[left].value.checkpoint)
    else
      match First(Walk(parents, Some(left), {}), Walk(parents, Some(right), {}))
      case None => Unrelated
      case Some(run) => CommonAncestor(run)
  }

  lemma {:induction false} FirstExact(candidates: seq<RunId>, others: seq<RunId>)
    ensures match First(candidates, others)
      case None => forall i :: 0 <= i < |candidates| ==> candidates[i] !in others
      case Some(run) => exists i :: 0 <= i < |candidates| && candidates[i] == run && run in others
                                    && forall k :: 0 <= k < i ==> candidates[k] !in others
  {
    if candidates != [] && candidates[0] !in others {
      FirstExact(candidates[1..], others);
      if First(candidates[1..], others).Some? {
        var i :| 0 <= i < |candidates[1..]| && candidates[1..][i] == First(candidates, others).value
                 && forall k :: 0 <= k < i ==> candidates[1..][k] !in others;
        forall k | 0 <= k < i + 1 ensures candidates[k] !in others {
          if k > 0 { assert candidates[1..][k - 1] !in others; }
        }
        assert candidates[i + 1] == First(candidates, others).value;
      }
    }
  }

  /** The first of one run's ancestors that is among the other's. */
  method CompareAncestry(parents: Parents, left: RunId, right: RunId) returns (r: Relationship)
    ensures r == Relate(parents, left, right)
  {
    if left == right {
      return SameRun;
    }
    if right in parents && parents[right].Some? && parents[right].value.run == left {
      return LeftParentOfRight(parents[right].value.checkpoint);
    }
    if left in parents && parents[left].Some? && parents[left].value.run == right {
      return RightParentOfLeft(parents[left].value.checkpoint);
    }
    var leftAncestors := Ancestors(parents, left);
    var rightAncestors := Ancestors(parents, right);
    var others := set id | id in rightAncestors;
    for i := 0 to |leftAncestors|
      invariant First(leftAncestors, rightAncestors) == First(leftAncestors[i..], rightAncestors)
    {
      if leftAncestors[i] in others {
        return CommonAncestor(leftAncestors[i]);
      }
    }
    return Unrelated;
  }

  /** Nothing below the `n`th ancestor of `run` is on the chain of `other`. */
  ghost predicate FirstShared(parents: Parents, run: RunId, other: RunId, n: nat) {
    forall k: nat, id: RunId :: k < n && Up(parents, run, k) == Some(id) ==> !OnChain(parents, other, id)
  }

  /** `common` is on both chains, and no run below it on either chain is on the other. */
  ghost predicate Nearest(parents: Parents, left: RunId, right: RunId, common: RunId) {
    && (exists m: nat :: Up(parents, left, m) == Some(common) && FirstShared(parents, left, right, m))
    && (exists n: nat :: Up(parents, right, n) == Some(common) && FirstShared(parents, right, left, n))
  }

  lemma {:induction false} WalkIsChain(parents: Parents, run: RunId, id: RunId)
    ensures id in Walk(parents, Some(run), {}) <==> OnChain(parents, run, id)
  {
    hide Walk, Up;
    WalkClimbs(parents, run, {});
    if OnChain(parents, run, id) {
      var n: nat :| Up(parents, run, n) == Some(id);
      WalkComplete(parents, run, n);
    }
  }

  /** Where two chains of a forest first meet is the same from either side. */
  lemma {:induction false} MeetsOnce(parents: Parents, left: RunId, right: RunId, m: nat, common: RunId)
    requires Acyclic(parents) && Up(parents, left, m) == Some(common) && OnChain(parents, right, common)
    requires FirstShared(parents, left, right, m)
    ensures Nearest(parents, left, right, common)
  {
    hide Acyclic;
    var n: nat :| Up(parents, right, n) == Some(common);
    forall k: nat, id: RunId | k < n && Up(parents, right, k) == Some(id) ensures !OnChain(parents, left, id) {
      if OnChain(parents, left, id) {
        // `id` lies properly below `common` on the right, hence above it on the left: a cycle.
        var j: nat :| Up(parents, left, j) == Some(id);
        assert OnChain(parents, right, id);
        assert j >= m;
        UpTwice(parents, left, m, j - m);
        UpTwice(parents, right, k, n - k);
        ClosedPath(parents, common, id, j - m, n - k);
      }
    }
    assert FirstShared(parents, right, left, n);
  }

  lemma {:induction false} ClosedPath(parents: Parents, a: RunId, b: RunId, up: nat, down: nat)
    requires Up(parents, a, up) == Some(b) && Up(parents, b, down) == Some(a) && down > 0
    ensures !Acyclic(parents)
  {
    UpTwice(parents, a, up, down);
    assert Up(parents, a, up + down) == Some(a);
  }

  /** What each answer means in a forest. */
  lemma {:induction false} RelateExact(parents: Parents, left: RunId, right: RunId)
    requires Acyclic(parents)
    ensures match Relate(parents, left, right)
      case SameRun => left == right
      case LeftParentOfRight(fork) => right in parents && parents[right] == Some(Parent(left, fork))
      case RightParentOfLeft(fork) => left in parents && parents[left] == Some(Parent(right, fork))
      case CommonAncestor(run) => Nearest(parents, left, right, run)
      case Unrelated => forall id: RunId :: !(OnChain(parents, left, id) && OnChain(parents, right, id))
  {
    hide Walk, Acyclic;
    var l, r := Walk(parents, Some(left), {}), Walk(parents, Some(right), {});
    FirstExact(l, r);
    WalkClimbs(parents, left, {});
    forall id: RunId ensures (id in l <==> OnChain(parents, left, id)) && (id in r <==> OnChain(parents, right, id)) {
      WalkIsChain(parents, left, id);
      WalkIsChain(parents, right, id);
    }
    if Relate(parents, left, right).CommonAncestor? {
      var common := First(l, r).value;
      var m :| 0 <= m < |l| && l[m] == common && common in r && forall k :: 0 <= k < m ==> l[k] !in r;
      MeetsOnce(parents, left, right, m, common);
    }
  }

  /** Right is a fork of left, made at this checkpoint. */
  ghost predicate ForkedFrom(parents: Parents, left: RunId, right: RunId, fork: CheckpointId) {
    right in parents && parents[right] == Some(Parent(left, fork))
  }

  /** Which answer is given: in a forest exactly one of the five fits, and that one is given. */
  lemma {:induction false} RelateDecides(parents: Parents, left: RunId, right: RunId)
    requires Acyclic(parents)
    ensures Relate(parents, left, right) == SameRun <==> left == right
    ensures forall fork ::
      Relate(parents, left, right) == LeftParentOfRight(fork) <==> ForkedFrom(parents, left, right, fork)
    ensures forall fork ::
      Relate(parents, left, right) == RightParentOfLeft(fork) <==> ForkedFrom(parents, right, left, fork)
    ensures forall run :: Relate(parents, left, right) == CommonAncestor(run) <==>
      && left != right && Nearest(parents, left, right, run)
      && forall fork :: !ForkedFrom(parents, left, right, fork) && !ForkedFrom(parents, right, left, fork)
    ensures Relate(parents, left, right) == Unrelated <==>
      forall id: RunId :: !(OnChain(parents, left, id) && OnChain(parents, right, id))
  {
    hide Walk, Nearest, First, OnChain;
    RelateExact(parents, left, right);
    OwnParentNever(parents, left);
    OwnParentNever(parents, right);
    assert OnChain(parents, left, left) && OnChain(parents, right, right) by {
      OnOwnChain(parents, left);
      OnOwnChain(parents, right);
    }
    forall fork | ForkedFrom(parents, left, right, fork) ensures OnChain(parents, right, left) {
      ParentOnChain(parents, right, left);
    }
    forall fork | ForkedFrom(parents, right, left, fork) ensures OnChain(parents, left, right) {
      ParentOnChain(parents, left, right);
    }
    forall run, other | Nearest(parents, left, right, run) && Nearest(parents, left, right, other)
      ensures run == other
    {
      NearestUnique(parents, left, right, run, other);
    }
    forall run | Nearest(parents, left, right, run)
      ensures OnChain(parents, left, run) && OnChain(parents, right, run)
    {
      NearestShared(parents, left, right, run);
    }
  }

  lemma {:induction false} OwnParentNever(parents: Parents, run: RunId)
    requires Acyclic(parents)
    ensures ParentOf(parents, run) != Some(run)
    ensures ParentOf(parents, run).Some? ==> ParentOf(parents, ParentOf(parents, run).value) != Some(run)
  {
    var one: nat, two: nat := 1, 2;
    assert Up(parents, run, one) == ParentOf(parents, run);
    assert Up(parents, run, two) ==
      if ParentOf(parents, run).None? then None else ParentOf(parents, ParentOf(parents, run).value);
    assert Up(parents, run, one) != Some(run) && Up(parents, run, two) != Some(run);
  }

  lemma {:induction false} ParentOnChain(parents: Parents, run: RunId, parent: RunId)
    requires ParentOf(parents, run) == Some(parent)
    ensures OnChain(parents, run, parent)
  {
    var one: nat := 1;
    assert Up(parents, run, one) == Some(parent);
  }

  lemma {:induction false} NearestShared(parents: Parents, left: RunId, right: RunId, common: RunId)
    requires Nearest(parents, left, right, common)
    ensures OnChain(parents, left, common) && OnChain(parents, right, common)
  {
    hide Up;
  }

  lemma {:induction false} NearestUnique(parents: Parents, left: RunId, right: RunId, a: RunId, b: RunId)
    requires Nearest(parents, left, right, a) && Nearest(parents, left, right, b)
    ensures a == b
  {
    hide Up;
    var m: nat :| Up(parents, left, m) == Some(a) && FirstShared(parents, left, right, m);
    var n: nat :| Up(parents, left, n) == Some(b) && FirstShared(parents, left, right, n);
    assert OnChain(parents, right, a) && OnChain(parents, right, b);
    assert !(m < n) && !(n < m);
  }

  function Mirrored(r: Relationship): Relationship {
    match r
    case LeftParentOfRight(fork) => RightParentOfLeft(fork)
    case RightParentOfLeft(fork) => LeftParentOfRight(fork)
    case _ => r
  }

  /** In a forest, swapping the runs mirrors the answer. */
  lemma {:induction false} RelateMirrors(parents: Parents, left: RunId, right: RunId)
    requires Acyclic(parents)
    ensures Relate(parents, right, left) == Mirrored(Relate(parents, left, right))
  {
    hide Walk, First;
    RelateExact(parents, left, right);
    RelateExact(parents, right, left);
    var there, back := Relate(parents, left, right), Relate(parents, right, left);
    if there.LeftParentOfRight? {
      if back.LeftParentOfRight? {
        assert Up(parents, left, 1) == Some(right) && Up(parents, right, 1) == Some(left);
        ClosedPath(parents, left, right, 1, 1);
      }
    } else if there.CommonAncestor? {
      NearestShared(parents, left, right, there.run);
      if back.CommonAncestor? {
        NearestUnique(parents, left, right, there.run, back.run);
      }
    } else if back.CommonAncestor? {
      NearestShared(parents, right, left, back.run);
    }
  }

  /** On a cyclic table, which the store never builds, the answer may depend on the order of the runs. */
  lemma {:induction false} CyclesBreakMirror()
    ensures exists parents: Parents, left: RunId, right: RunId ::
      Relate(parents, right, left) != Mirrored(Relate(parents, left, right))
  {
    hide Walk;
    var p: Parents := map[1 := Some(Parent(2, 0)), 2 := Some(Parent(3, 0)), 3 := Some(Parent(4, 0)),
      4 := Some(Parent(1, 0))];
    CycleMember(p, 1, 2, 3, 4);
    CycleMember(p, 3, 4, 1, 2);
    assert Relate(p, 1, 3) == CommonAncestor(1) && Relate(p, 3, 1) == CommonAncestor(3);
  }

  /** Two links up from `a` is `c`, so each is on the other's walk. */
  lemma {:induction false} CycleMember(p: Parents, a: RunId, b: RunId, c: RunId, d: RunId)
    requires p.Keys == {a, b, c, d} && ParentOf(p, a) == Some(b) && ParentOf(p, b) == Some(c)
    ensures Walk(p, Some(a), {}) != [] && Walk(p, Some(a), {})[0] == a && c in Walk(p, Some(a), {})
  {
    hide Walk;
    WalkClimbs(p, a, {});
    assert Up(p, a, 1) == Some(b) && Up(p, a, 2) == Some(c);
    WalkComplete(p, a, 2);
  }
}
