/** Checkout: a snapshot is built beside its destination and renamed into place, with rollback. */
module Checkouts {
  import opened Bytes
  import opened Restores
  import opened Snapshots
  import opened Trees
  import opened Wrappers

  /** Names in the parent directory; private names never equal the destination's. */
  datatype Name = Destination | Other(text: Text) | Private(purpose: Purpose, number: nat)

  datatype Purpose = Temporary | Backup

  datatype Child = Folder(tree: Tree) | File(bytes: Text)

  type Siblings = map<Name, Child>

  datatype ChildState = Absent | EmptyDirectory | Occupied

  function StateOf(children: Siblings, name: Name): ChildState {
    if name !in children then Absent
    else if children[name] == Folder(map[]) then EmptyDirectory
    else Occupied
  }

  datatype CheckoutError =
    | Refused(cause: RestoreError)
    | DestinationNotEmpty
    | NamesExhausted
    | Io
    | InstallRollback

  const NAME_ATTEMPTS := 64

  // ----- calls on the parent directory, with other processes at work -----

  /** What another process does to the destination just before one of the coming calls. */
  datatype Meddle = Nothing | Puts(child: Child) | Takes

  /**
   * The parent directory, and what is in store for the coming calls: what others do first, and which calls
   * fail, each with what a removal that fails half-way leaves behind. `lost` collects what a checkout has
   * destroyed that was not its own, apart from empty directories.
   */
  datatype World = World(
    children: Siblings, meddling: seq<Meddle>, faults: seq<Option<Tree>>, lost: seq<Child>, number: nat)

  function Meddled(children: Siblings, meddle: Meddle): Siblings {
    match meddle
    case Nothing => children
    case Puts(child) => children[Destination := child]
    case Takes => children - {Destination}
  }

  ghost predicate Quiet(meddling: seq<Meddle>) {
    forall i :: 0 <= i < |meddling| ==> meddling[i].Nothing?
  }

  function Rest<T>(s: seq<T>): seq<T> { if s == [] then [] else s[1..] }

  function Failing(w: World): Option<Tree> { if w.faults == [] then None else w.faults[0] }

  /** The world as a call finds it, with the call's share of the schedule used up. */
  function Called(w: World): World {
    w.(children := if w.meddling == [] then w.children else Meddled(w.children, w.meddling[0]),
       meddling := Rest(w.meddling), faults := Rest(w.faults))
  }

  lemma KeepsNumber(w: World)
    ensures Called(w).number == w.number
  {
  }

  function Inspected(w: World, name: Name): Option<ChildState> {
    if Failing(w).Some? then None else Some(StateOf(Called(w).children, name))
  }

  /** A rename replaces an empty directory by a directory and a file by a file, and nothing else. */
  predicate CanRename(children: Siblings, from: Name, to: Name) {
    && from in children && from != to
    && (to in children ==>
          if children[from].Folder? then children[to] == Folder(map[]) else children[to].File?)
  }

  function Destroyed(children: Siblings, name: Name): seq<Child> {
    if StateOf(children, name).Occupied? then [children[name]] else []
  }

  function Renamed(w: World, from: Name, to: Name): (bool, World) {
    var c := Called(w);
    if Failing(w).Some? || !CanRename(c.children, from, to) then (false, c)
    else (true, c.(children := (c.children - {from})[to := c.children[from]],
                   lost := c.lost + Destroyed(c.children, to)))
  }

  /** Removes a child with its contents; a failure may have removed some of them. */
  function Removed(w: World, name: Name, own: bool): (bool, World) {
    var c := Called(w);
    var gone := if own then c.lost else c.lost + Destroyed(c.children, name);
    if name !in c.children then (false, c)
    else if Failing(w).None? then (true, c.(children := c.children - {name}, lost := gone))
    else if c.children[name].Folder?
    then (false, c.(children := c.children[name := Folder(Failing(w).value)], lost := gone))
    else (false, c)
  }

  datatype Search = Found(name: Name) | Exhausted | Unreadable

  /** The first private name, among the next few numbers, that nothing uses. */
  function Unused(w: World, purpose: Purpose, attempts: nat): (Search, World)
    decreases attempts
  {
    if attempts == 0 then (Exhausted, w)
    else
      var candidate := Private(purpose, w.number);
      var after := Called(w).(number := w.number + 1);
      match Inspected(w, candidate)
      case None => (Unreadable, after)
      case Some(state) => if state.Absent? then (Found(candidate), after) else Unused(after, purpose, attempts - 1)
  }

  /** Makes a private directory under the first number that nothing uses. */
  function NewDirectory(w: World, attempts: nat): (Search, World)
    decreases attempts
  {
    if attempts == 0 then (Exhausted, w)
    else
      var candidate := Private(Temporary, w.number);
      var after := Called(w).(number := w.number + 1);
      if Failing(w).Some? then (Unreadable, after)
      else if candidate in after.children then NewDirectory(after, attempts - 1)
      else (Found(candidate), after.(children := after.children[candidate := Folder(map[])]))
  }

  // ----- the final moves -----

  /** What counts as in the way without force: an occupant, or anything that was not there before. */
  predicate Occupies(initial: ChildState, current: ChildState) {
    current.Occupied? || (initial.Absent? && !current.Absent?)
  }

  /** Without force the destination is looked at once more; then whatever is there decides how to install. */
  function Installed(w: World, temporary: Name, initial: ChildState, force: bool): (Option<CheckoutError>, World) {
    if force then Placed(w, temporary)
    else
      match Inspected(w, Destination)
      case None => (Some(Io), Called(w))
      case Some(current) =>
        if Occupies(initial, current) then (Some(DestinationNotEmpty), Called(w)) else Placed(Called(w), temporary)
  }

  function Placed(w: World, temporary: Name): (Option<CheckoutError>, World) {
    match Inspected(w, Destination)
    case None => (Some(Io), Called(w))
    case Some(current) =>
      if current.Absent? then
        var (done, after) := Renamed(Called(w), temporary, Destination);
        (if done then None else Some(Io), after)
      else InstalledOver(Called(w), temporary)
  }

  function InstalledOver(w: World, temporary: Name): (Option<CheckoutError>, World) {
    var (backup, found) := Unused(w, Backup, NAME_ATTEMPTS);
    match backup
    case Exhausted => (Some(NamesExhausted), found)
    case Unreadable => (Some(Io), found)
    case Found(name) =>
      var (aside, moved) := Renamed(found, Destination, name);
      if aside then Swapped(moved, temporary, name) else (Some(Io), moved)
  }

  /** The new tree in and the occupant away, or the occupant back. */
  function Swapped(w: World, temporary: Name, backup: Name): (Option<CheckoutError>, World) {
    var (installed, after) := Renamed(w, temporary, Destination);
    if installed then
      var (cleaned, final) := Removed(after, backup, false);
      (if cleaned then None else Some(Io), final)
    else
      var (restored, final) := Renamed(after, backup, Destination);
      (Some(if restored then Io else InstallRollback), final)
  }

  class ParentDirectory {
    var world: World

    constructor (world: World)
      ensures this.world == world
    {
      this.world := world;
    }

    /** A call that concerns no name other processes use. */
    method Call() returns (done: bool)
      modifies this
      ensures done == Failing(old(world)).None? && world == Called(old(world))
    {
      done := Failing(world).None?;
      world := Called(world);
    }

    method InspectChild(name: Name) returns (state: Option<ChildState>)
      modifies this
      ensures state == Inspected(old(world), name) && world == Called(old(world))
    {
      var done := Call();
      return if done then Some(StateOf(world.children, name)) else None;
    }

    method RenameChild(from: Name, to: Name) returns (done: bool)
      modifies this
      ensures (done, world) == Renamed(old(world), from, to)
    {
      done := Call();
      if !done || !CanRename(world.children, from, to) {
        return false;
      }
      var moved := world.children[from];
      world := world.(children := (world.children - {from})[to := moved],
                      lost := world.lost + Destroyed(world.children, to));
    }

    method RemoveChild(name: Name, own: bool) returns (done: bool)
      modifies this
      ensures (done, world) == Removed(old(world), name, own)
    {
      var left := Failing(world);
      done := Call();
      if name !in world.children {
        return false;
      }
      var gone := if own then world.lost else world.lost + Destroyed(world.children, name);
      if done {
        world := world.(children := world.children - {name}, lost := gone);
      } else if world.children[name].Folder? {
        world := world.(children := world.children[name := Folder(left.value)], lost := gone);
      }
    }

    method UniqueAvailableName(purpose: Purpose) returns (found: Search)
      modifies this
      ensures (found, world) == Unused(old(world), purpose, NAME_ATTEMPTS)
    {
      hide Called, Inspected;
      var attempts: nat := NAME_ATTEMPTS;
      while attempts > 0
        invariant Unused(world, purpose, attempts) == Unused(old(world), purpose, NAME_ATTEMPTS)
      {
        var candidate := Private(purpose, world.number);
        ghost var before := world;
        var state := InspectChild(candidate);
        KeepsNumber(before);
        world := world.(number := world.number + 1);
        if state.None? {
          return Unreadable;
        }
        if state.value.Absent? {
          return Found(candidate);
        }
        attempts := attempts - 1;
      }
      return Exhausted;
    }

    /** Makes the private directory under the first number that nothing uses. */
    method CreateTemporary() returns (found: Search)
      modifies this
      ensures (found, world) == NewDirectory(old(world), NAME_ATTEMPTS)
    {
      hide Called;
      var attempts: nat := NAME_ATTEMPTS;
      while attempts > 0
        invariant NewDirectory(world, attempts) == NewDirectory(old(world), NAME_ATTEMPTS)
      {
        KeepsNumber(world);
        var candidate := Private(Temporary, world.number);
        var done := Call();
        world := world.(number := world.number + 1);
        if !done {
          return Unreadable;
        }
        if candidate !in world.children {
          world := world.(children := world.children[candidate := Folder(map[])]);
          return Found(candidate);
        }
        attempts := attempts - 1;
      }
      return Exhausted;
    }

    /**
     * Moves the occupant aside, the new tree in, and the occupant away. If the new tree cannot be moved in,
     * the occupant is moved back.
     */
    method InstallOverExisting(temporary: Name) returns (error: Option<CheckoutError>)
      modifies this
      ensures (error, world) == InstalledOver(old(world), temporary)
    {
      hide Unused, Renamed, Removed;
      var found := UniqueAvailableName(Backup);
      if !found.Found? {
        return Some(if found.Exhausted? then NamesExhausted else Io);
      }
      var backup := found.name;
      var aside := RenameChild(Destination, backup);
      if !aside {
        return Some(Io);
      }
      var installed := RenameChild(temporary, Destination);
      if installed {
        var cleaned := RemoveChild(backup, false);
        return if cleaned then None else Some(Io);
      }
      var restored := RenameChild(backup, Destination);
      return Some(if restored then Io else InstallRollback);
    }

    /** The final moves of a checkout: two looks at the destination without force, one with it. */
    method Install(temporary: Name, initial: ChildState, force: bool) returns (error: Option<CheckoutError>)
      modifies this
      ensures (error, world) == Installed(old(world), temporary, initial, force)
    {
      hide Renamed, InstalledOver, Called;
      if !force {
        var current := InspectChild(Destination);
        if current.None? {
          return Some(Io);
        }
        if Occupies(initial, current.value) {
          return Some(DestinationNotEmpty);
        }
      }
      var current := InspectChild(Destination);
      if current.None? {
        return Some(Io);
      }
      if current.value.Absent? {
        var done := RenameChild(temporary, Destination);
        return if done then None else Some(Io);
      }
      error := InstallOverExisting(temporary);
    }
  }

  function NewNames(found: Search): set<Name> { if found.Found? then {found.name} else {} }

  // ----- what holds under every schedule -----

  ghost predicate Same(before: Siblings, after: Siblings, name: Name) {
    (name in before <==> name in after) && (name in before ==> after[name] == before[name])
  }

  /** Every name but the destination and `own` stands for the same in both. */
  ghost predicate Apart(before: Siblings, after: Siblings, own: set<Name>) {
    forall name: Name :: name != Destination && name !in own ==> Same(before, after, name)
  }

  /** Every name that is neither the destination nor private stands for the same in both. */
  ghost predicate Bystanders(before: Siblings, after: Siblings) {
    forall name: Name :: name.Other? ==> Same(before, after, name)
  }

  lemma {:induction false} UnusedTouches(w: World, purpose: Purpose, attempts: nat)
    ensures var (found, after) := Unused(w, purpose, attempts);
      && Apart(w.children, after.children, {}) && after.lost == w.lost
      && (found.Found? ==>
            found.name.Private? && found.name.purpose == purpose && found.name !in after.children)
    decreases attempts
  {
    hide Called, Apart;
    CalledTouches(w);
    if attempts > 0 {
      var after := Called(w).(number := w.number + 1);
      UnusedTouches(after, purpose, attempts - 1);
      ApartTrans(w.children, after.children, Unused(after, purpose, attempts - 1).1.children);
    }
  }

  lemma {:induction false} CalledTouches(w: World)
    ensures Apart(w.children, w.children, {}) && Apart(w.children, Called(w).children, {}) && Called(w).lost == w.lost
    ensures forall name: Name :: name != Destination ==> (name in Called(w).children <==> name in w.children)
  {
  }

  lemma {:induction false} ApartTrans(a: Siblings, b: Siblings, c: Siblings)
    requires Apart(a, b, {}) && Apart(b, c, {})
    ensures Apart(a, c, {})
  {
    forall name: Name | name != Destination && name !in {} ensures Same(a, c, name) {
      assert Same(a, b, name) && Same(b, c, name);
    }
  }

  lemma {:induction false} MadeTouches(w: World, attempts: nat)
    ensures var (found, after) := NewDirectory(w, attempts);
      && Apart(w.children, after.children, NewNames(found)) && after.lost == w.lost
      && (found.Found? ==>
            && found.name.Private? && found.name.purpose == Temporary
            && found.name !in w.children && found.name in after.children)
    decreases attempts
  {
    hide Called, Apart;
    CalledTouches(w);
    if attempts > 0 {
      var after := Called(w).(number := w.number + 1);
      MadeTouches(after, attempts - 1);
      var (found, last) := NewDirectory(after, attempts - 1);
      ApartOver(w.children, after.children, last.children, NewNames(found));
      var candidate := Private(Temporary, w.number);
      ApartOver(w.children, after.children, after.children, {});
      ApartWith(w.children, after.children, candidate);
    }
  }

  lemma {:induction false} ApartOver(a: Siblings, b: Siblings, c: Siblings, own: set<Name>)
    requires Apart(a, b, {}) && (Apart(b, c, own) || b == c)
    ensures Apart(a, c, own)
    ensures forall name: Name :: name != Destination ==> (name in a <==> name in b)
  {
    forall name: Name | name != Destination && name !in own ensures Same(a, c, name) {
      assert Same(a, b, name) && Same(b, c, name);
    }
    forall name: Name | name != Destination ensures name in a <==> name in b { assert Same(a, b, name); }
  }

  lemma {:induction false} ApartWith(a: Siblings, b: Siblings, name: Name)
    requires Apart(a, b, {})
    ensures Apart(a, b[name := Folder(map[])], {name})
  {
    var c, own := b[name := Folder(map[])], {name};
    forall other: Name | other != Destination && other !in own ensures Same(a, c, other) {
      assert Same(a, b, other);
    }
  }

  /** Whatever others do and whichever calls fail, no other name in the directory is touched. */
  lemma {:induction false} InstallTouches(w: World, temporary: Name, initial: ChildState, force: bool)
    requires temporary.Private?
    ensures var (error, after) := Installed(w, temporary, initial, force);
      Bystanders(w.children, after.children) && w.lost <= after.lost
  {
    hide Placed;
    PlacedTouches(w, temporary);
    PlacedTouches(Called(w), temporary);
    assert Bystanders(w.children, Called(w).children);
  }

  lemma {:induction false} PlacedTouches(w: World, temporary: Name)
    requires temporary.Private?
    ensures var (error, after) := Placed(w, temporary);
      Bystanders(w.children, after.children) && w.lost <= after.lost
  {
    hide InstalledOver;
    OverTouches(Called(w), temporary);
  }

  lemma {:induction false} OverTouches(w: World, temporary: Name)
    requires temporary.Private?
    ensures var (error, after) := InstalledOver(w, temporary);
      Bystanders(w.children, after.children) && w.lost <= after.lost
  {
    hide Unused, Swapped;
    UnusedTouches(w, Backup, NAME_ATTEMPTS);
    var (backup, found) := Unused(w, Backup, NAME_ATTEMPTS);
    ApartBystanders(w.children, found.children, {});
    if backup.Found? {
      var (aside, moved) := Renamed(found, Destination, backup.name);
      assert Bystanders(found.children, moved.children);
      SwapTouches(moved, temporary, backup.name);
    }
  }

  lemma {:induction false} ApartBystanders(before: Siblings, after: Siblings, own: set<Name>)
    requires Apart(before, after, own) && forall name :: name in own ==> name.Private?
    ensures Bystanders(before, after)
  {
  }

  lemma {:induction false} SwapTouches(w: World, temporary: Name, backup: Name)
    requires temporary.Private? && backup.Private?
    ensures var (error, after) := Swapped(w, temporary, backup);
      Bystanders(w.children, after.children) && w.lost <= after.lost
  {
    hide Renamed, Removed, Bystanders;
    RenameTouches(w, temporary, Destination);
    var (installed, after) := Renamed(w, temporary, Destination);
    RenameTouches(after, backup, Destination);
    RemoveTouches(after, backup);
    if installed {
      BystandersTrans(w.children, after.children, Removed(after, backup, false).1.children);
    } else {
      BystandersTrans(w.children, after.children, Renamed(after, backup, Destination).1.children);
    }
  }

  lemma {:induction false} RenameTouches(w: World, from: Name, to: Name)
    requires !from.Other? && !to.Other?
    ensures Bystanders(w.children, Renamed(w, from, to).1.children) && w.lost <= Renamed(w, from, to).1.lost
  {
  }

  lemma {:induction false} RemoveTouches(w: World, name: Name)
    requires !name.Other?
    ensures Bystanders(w.children, Removed(w, name, false).1.children) && w.lost <= Removed(w, name, false).1.lost
  {
  }

  lemma {:induction false} BystandersTrans(a: Siblings, b: Siblings, c: Siblings)
    requires Bystanders(a, b) && Bystanders(b, c)
    ensures Bystanders(a, c)
  {
  }

  // ----- what holds once nobody meddles any more -----

  /** A world that nobody else will touch: calls find it as it is. */
  ghost predicate Still(w: World) { Quiet(w.meddling) }

  lemma {:induction false} StillCalled(w: World)
    requires Still(w)
    ensures Still(Called(w)) && Called(w).children == w.children && Called(w).lost == w.lost
  {
  }

  lemma {:induction false} StillUnused(w: World, purpose: Purpose, attempts: nat)
    requires Still(w)
    ensures var (found, after) := Unused(w, purpose, attempts);
      && Still(after) && after.children == w.children && after.lost == w.lost
      && (found.Found? ==> found.name.Private? && found.name.purpose == purpose && found.name !in w.children)
    decreases attempts
  {
    hide Still;
    if attempts > 0 {
      StillCalled(w);
      var after := Called(w).(number := w.number + 1);
      assert Still(after) by { StillNumber(Called(w), after); }
      StillUnused(after, purpose, attempts - 1);
    }
  }

  lemma {:induction false} StillNumber(a: World, b: World)
    requires Still(a) && b.meddling == a.meddling
    ensures Still(b)
  {
  }

  /**
   * What an installation may leave when it fails: everything as it was; the new tree in place with a
   * remainder of the old one; or the old one whole under a private name.
   */
  ghost predicate Outcome(before: Siblings, after: Siblings, temporary: Name, error: CheckoutError) {
    || after == before
    || (exists backup: Name ::
          && backup.Private? && backup !in before && backup in after && temporary in before && error.Io?
          && after - {backup} == (before - {temporary})[Destination := before[temporary]])
    || (exists backup: Name ::
          && backup.Private? && backup !in before && Destination in before && error.InstallRollback?
          && after == (before - {Destination})[backup := before[Destination]])
  }

  /** The new tree stands at the destination and its private name is gone. */
  ghost function Replaced(before: Siblings, temporary: Name): Siblings
    requires temporary in before
  {
    (before - {temporary})[Destination := before[temporary]]
  }

  /**
   * From the moment nobody meddles any more an installation either replaces exactly what it last saw, or
   * fails with one of the three outcomes; and all that it can destroy is what it saw standing there.
   */
  lemma {:induction false} StillOver(w: World, temporary: Name)
    requires Still(w) && temporary in w.children && temporary.Private? && temporary.purpose == Temporary
    requires w.children[temporary].Folder? && Destination in w.children
    ensures var (error, after) := InstalledOver(w, temporary);
      && (error.None? ==> after.children == Replaced(w.children, temporary))
      && (error.Some? ==> error.value != DestinationNotEmpty)
      && (error.Some? ==> Outcome(w.children, after.children, temporary, error.value))
      && (after.lost == w.lost || after.lost == w.lost + Destroyed(w.children, Destination))
      && (error.None? ==> after.lost == w.lost + Destroyed(w.children, Destination))
      && Still(after)
  {
    hide Unused, Outcome, Swapped, Still;
    StillUnused(w, Backup, NAME_ATTEMPTS);
    var (backup, found) := Unused(w, Backup, NAME_ATTEMPTS);
    if !backup.Found? {
      Untouched(w.children, found.children, temporary, if backup.Exhausted? then NamesExhausted else Io);
    } else {
      StillCalled(found);
      var (aside, moved) := Renamed(found, Destination, backup.name);
      StillNumber(Called(found), moved);
      if !aside {
        Untouched(w.children, moved.children, temporary, Io);
      } else {
        StillSwap(w, moved, temporary, backup.name);
      }
    }
  }

  lemma {:induction false} StillSwap(w: World, moved: World, temporary: Name, backup: Name)
    requires Still(moved) && temporary in w.children && temporary.Private? && temporary.purpose == Temporary
    requires w.children[temporary].Folder? && Destination in w.children
    requires backup.Private? && backup.purpose == Backup && backup !in w.children && moved.lost == w.lost
    requires moved.children == (w.children - {Destination})[backup := w.children[Destination]]
    ensures var (error, after) := Swapped(moved, temporary, backup);
      && (error.None? ==> after.children == Replaced(w.children, temporary))
      && (error.Some? ==> error.value != DestinationNotEmpty)
      && (error.Some? ==> Outcome(w.children, after.children, temporary, error.value))
      && (after.lost == w.lost || after.lost == w.lost + Destroyed(w.children, Destination))
      && (error.None? ==> after.lost == w.lost + Destroyed(w.children, Destination))
      && Still(after)
  {
    hide Outcome, Still;
    StillCalled(moved);
    var (done, after) := Renamed(moved, temporary, Destination);
    StillNumber(Called(moved), after);
    StillCalled(after);
    if done {
      var (cleaned, final) := Removed(after, backup, false);
      StillNumber(Called(after), final);
      assert after.children - {backup} == Replaced(w.children, temporary);
      if !cleaned { InstalledDirty(w.children, final.children, temporary, backup); }
    } else {
      var (restored, final) := Renamed(after, backup, Destination);
      StillNumber(Called(after), final);
      if restored {
        assert final.children == w.children;
        Untouched(w.children, final.children, temporary, Io);
      } else {
        SetAside(w.children, final.children, temporary, backup);
      }
    }
  }

  lemma {:induction false} Untouched(before: Siblings, after: Siblings, temporary: Name, error: CheckoutError)
    requires after == before
    ensures Outcome(before, after, temporary, error)
  {
  }

  lemma {:induction false} InstalledDirty(before: Siblings, after: Siblings, temporary: Name, backup: Name)
    requires backup.Private? && backup !in before && backup in after && temporary in before
    requires after - {backup} == Replaced(before, temporary)
    ensures Outcome(before, after, temporary, Io)
  {
  }

  lemma {:induction false} SetAside(before: Siblings, after: Siblings, temporary: Name, backup: Name)
    requires backup.Private? && backup !in before && Destination in before
    requires after == (before - {Destination})[backup := before[Destination]]
    ensures Outcome(before, after, temporary, InstallRollback)
  {
  }

  lemma {:induction false} StillPlaced(w: World, temporary: Name)
    requires Quiet(Rest(w.meddling)) && temporary in w.children && temporary.Private?
    requires temporary.purpose == Temporary && w.children[temporary].Folder?
    ensures var (error, after) := Placed(w, temporary);
      var seen := Called(w).children;
      && (error.None? ==> after.children == Replaced(seen, temporary))
      && (error.Some? ==> error.value != DestinationNotEmpty)
      && (error.Some? ==> Outcome(seen, after.children, temporary, error.value))
      && (after.lost == w.lost || after.lost == w.lost + Destroyed(seen, Destination))
      && Still(after)
  {
    hide InstalledOver, Outcome;
    var c := Called(w);
    assert temporary in c.children && c.children[temporary] == w.children[temporary];
    StillCalled(c);
    if Destination in c.children {
      StillOver(c, temporary);
      Untouched(c.children, c.children, temporary, Io);
    } else {
      var (done, after) := Renamed(c, temporary, Destination);
      StillNumber(Called(c), after);
      Untouched(c.children, c.children, temporary, Io);
    }
  }

  /** An installation is refused only when its first look meets something in the way. */
  lemma {:induction false} RefusedFor(w: World, temporary: Name, initial: ChildState, force: bool)
    ensures Installed(w, temporary, initial, force).0 == Some(DestinationNotEmpty) ==>
      !force && Occupies(initial, StateOf(Called(w).children, Destination))
  {
    hide Unused, Renamed;
  }

  /**
   * Without force nothing is destroyed, provided that nothing arrives after the first look: for every
   * pattern of failures, and whatever happened before that look.
   */
  lemma {:induction false} QuietInstallKeeps(w: World, temporary: Name, initial: ChildState, force: bool)
    requires Quiet(Rest(w.meddling)) && temporary in w.children && temporary.Private?
    requires temporary.purpose == Temporary && w.children[temporary].Folder?
    ensures var (error, after) := Installed(w, temporary, initial, force);
      var seen := Called(w).children;
      && (error.None? ==> after.children == Replaced(seen, temporary))
      && (error.Some? ==> Outcome(seen, after.children, temporary, error.value))
      && (!force ==> after.lost == w.lost)
      && (!force && error.None? ==> !Occupies(initial, StateOf(seen, Destination)))
      && (after.lost == w.lost || after.lost == w.lost + Destroyed(seen, Destination))
      && (error == Some(DestinationNotEmpty) ==> !force && Occupies(initial, StateOf(seen, Destination)))
      && Still(after)
  {
    hide Placed, Outcome;
    var c := Called(w);
    Untouched(c.children, c.children, temporary, Io);
    Untouched(c.children, c.children, temporary, DestinationNotEmpty);
    if force {
      StillPlaced(w, temporary);
    } else {
      assert temporary in c.children && c.children[temporary] == w.children[temporary];
      StillCalled(c);
      StillPlaced(c, temporary);
      assert Quiet(Rest(c.meddling));
    }
  }

  // ----- which calls were made -----

  /** The calls made so far have used up the front of the schedule. */
  ghost predicate Consumed<T(!new)>(before: seq<T>, after: seq<T>) {
    |after| <= |before| && after == before[|before| - |after|..]
  }

  /** And none of them failed. */
  ghost predicate Smooth(before: seq<Option<Tree>>, after: seq<Option<Tree>>) {
    Consumed(before, after) && forall i :: 0 <= i < |before| - |after| ==> before[i].None?
  }

  ghost predicate Faultless(faults: seq<Option<Tree>>) {
    forall i :: 0 <= i < |faults| ==> faults[i].None?
  }

  lemma {:induction false} FaultsCalled(w: World)
    ensures Consumed(w.faults, Called(w).faults)
    ensures Smooth(w.faults, Called(w).faults) <==> Failing(w).None?
    ensures Faultless(w.faults) ==> Failing(w).None? && Faultless(Called(w).faults)
  {
  }

  lemma {:induction false} FaultsTrans(a: seq<Option<Tree>>, b: seq<Option<Tree>>, c: seq<Option<Tree>>)
    requires Consumed(a, b) && Consumed(b, c)
    ensures Consumed(a, c) && (Smooth(a, c) <==> Smooth(a, b) && Smooth(b, c))
    ensures Faultless(a) ==> Faultless(c)
  {
    var m, n := |a| - |b|, |b| - |c|;
    assert forall i :: 0 <= i < n ==> b[i] == a[m + i];
    if Smooth(a, c) {
      forall i | 0 <= i < n ensures b[i].None? { assert a[m + i].None?; }
    }
  }

  lemma {:induction false} FaultsUnused(w: World, purpose: Purpose, attempts: nat)
    ensures var (found, after) := Unused(w, purpose, attempts);
      Consumed(w.faults, after.faults) && (found.Found? ==> Smooth(w.faults, after.faults))
    decreases attempts
  {
    hide Consumed, Smooth, Called;
    FaultsCalled(w);
    if attempts > 0 {
      var after := Called(w).(number := w.number + 1);
      FaultsUnused(after, purpose, attempts - 1);
      FaultsTrans(w.faults, after.faults, Unused(after, purpose, attempts - 1).1.faults);
    } else {
      FaultsNone(w.faults);
    }
  }

  lemma {:induction false} FaultsMade(w: World, attempts: nat)
    ensures var (found, after) := NewDirectory(w, attempts);
      Consumed(w.faults, after.faults) && (found.Found? ==> Smooth(w.faults, after.faults))
    decreases attempts
  {
    hide Consumed, Smooth, Called;
    FaultsCalled(w);
    if attempts > 0 {
      var after := Called(w).(number := w.number + 1);
      FaultsMade(after, attempts - 1);
      FaultsTrans(w.faults, after.faults, NewDirectory(after, attempts - 1).1.faults);
    } else {
      FaultsNone(w.faults);
    }
  }

  lemma {:induction false} FaultsNone(faults: seq<Option<Tree>>)
    ensures Smooth(faults, faults) && Consumed(faults, faults)
  {
  }

  // ----- what others have done so far -----

  ghost function AtDestination(children: Siblings): Option<Child> {
    if Destination in children then Some(children[Destination]) else None
  }

  /** What stands at the destination after others have acted on it. */
  ghost function ByOthers(found: Option<Child>, meddling: seq<Meddle>): Option<Child> {
    if meddling == [] then found
    else
      match meddling[|meddling| - 1]
      case Nothing => ByOthers(found, meddling[..|meddling| - 1])
      case Puts(child) => Some(child)
      case Takes => None
  }

  /** Only others have acted on the destination, as the used part of the schedule says. */
  ghost predicate OnlyOthers(before: World, children: Siblings, meddling: seq<Meddle>) {
    && Consumed(before.meddling, meddling)
    && AtDestination(children)
         == ByOthers(AtDestination(before.children), before.meddling[..|before.meddling| - |meddling|])
  }

  lemma {:induction false} OthersCalled(w: World)
    ensures OnlyOthers(w, Called(w).children, Called(w).meddling) && Called(w).meddling == Rest(w.meddling)
  {
    if w.meddling != [] {
      var first := w.meddling[..1];
      assert first[..0] == [] && first[0] == w.meddling[0];
      assert ByOthers(AtDestination(w.children), first[..0]) == AtDestination(w.children);
      assert |w.meddling| - |Called(w).meddling| == 1;
    }
  }

  lemma {:induction false} OthersNone(w: World)
    ensures OnlyOthers(w, w.children, w.meddling)
  {
    assert w.meddling[..0] == [];
  }

  lemma {:induction false} ByOthersConcat(found: Option<Child>, a: seq<Meddle>, b: seq<Meddle>)
    ensures ByOthers(found, a + b) == ByOthers(ByOthers(found, a), b)
  {
    if b == [] {
      assert a + b == a;
    } else {
      assert (a + b)[..|a + b| - 1] == a + b[..|b| - 1];
      ByOthersConcat(found, a, b[..|b| - 1]);
    }
  }

  lemma {:induction false} OthersTrans(a: World, b: World, children: Siblings, meddling: seq<Meddle>)
    requires OnlyOthers(a, b.children, b.meddling) && OnlyOthers(b, children, meddling)
    ensures OnlyOthers(a, children, meddling)
  {
    var m, n := |a.meddling| - |b.meddling|, |b.meddling| - |meddling|;
    assert a.meddling[..m] + b.meddling[..n] == a.meddling[..m + n];
    ByOthersConcat(AtDestination(a.children), a.meddling[..m], b.meddling[..n]);
  }

  /** A private name has nothing to do with the destination. */
  lemma {:induction false} OthersBeside(
    w: World, children: Siblings, name: Name, child: Child, meddling: seq<Meddle>)
    requires name.Private?
    ensures OnlyOthers(w, children[name := child], meddling) <==> OnlyOthers(w, children, meddling)
    ensures OnlyOthers(w, children - {name}, meddling) <==> OnlyOthers(w, children, meddling)
    ensures OnlyOthers(w.(children := children[name := child]), children, meddling)
      <==> OnlyOthers(w.(children := children), children, meddling)
  {
    assert AtDestination(children[name := child]) == AtDestination(children) == AtDestination(children - {name});
  }

  lemma {:induction false} OthersRemoved(w: World, name: Name)
    requires name.Private?
    ensures var after := Removed(w, name, true).1; OnlyOthers(w, after.children, after.meddling)
  {
    hide OnlyOthers, Called;
    OthersCalled(w);
    var left := if Failing(w).Some? then Failing(w).value else map[];
    OthersBeside(w, Called(w).children, name, Folder(left), Called(w).meddling);
  }

  /** Filling a private directory, with one more call, and taking it away with another. */
  lemma {:induction false} OthersFill(w: World, name: Name, tree: Tree)
    requires name.Private?
    ensures var filled := Called(w.(children := w.children[name := Folder(tree)]));
      var after := Removed(filled, name, true).1;
      OnlyOthers(w, filled.children, filled.meddling) && OnlyOthers(w, after.children, after.meddling)
  {
    hide OnlyOthers, Called, Removed;
    var full := w.(children := w.children[name := Folder(tree)]);
    var filled := Called(full);
    var after := Removed(filled, name, true).1;
    OthersNone(w);
    OthersBeside(w, w.children, name, Folder(tree), w.meddling);
    OthersCalled(full);
    OthersTrans(w, full, filled.children, filled.meddling);
    OthersRemoved(filled, name);
    OthersTrans(w, filled, after.children, after.meddling);
  }

  lemma {:induction false} OthersMade(w: World, attempts: nat)
    ensures var after := NewDirectory(w, attempts).1; OnlyOthers(w, after.children, after.meddling)
    decreases attempts
  {
    hide Called, OnlyOthers;
    OthersCalled(w);
    if attempts > 0 {
      var after := Called(w).(number := w.number + 1);
      OthersMade(after, attempts - 1);
      var last := NewDirectory(after, attempts - 1).1;
      OthersTrans(w, after, last.children, last.meddling);
      OthersBeside(w, after.children, Private(Temporary, w.number), Folder(map[]), after.meddling);
    } else {
      OthersNone(w);
    }
  }

  /** An installation that succeeds has made no call in vain, and its private name is in use no more. */
  lemma {:induction false} FaultsInstalled(w: World, temporary: Name, initial: ChildState, force: bool)
    requires temporary.Private? && temporary.purpose == Temporary
    ensures var (error, after) := Installed(w, temporary, initial, force);
      && Consumed(w.faults, after.faults)
      && (error.None? ==> Smooth(w.faults, after.faults) && temporary !in after.children)
  {
    hide Placed, Consumed, Smooth, Called;
    FaultsCalled(w);
    if force {
      FaultsPlaced(w, temporary);
    } else {
      FaultsPlaced(Called(w), temporary);
      FaultsTrans(w.faults, Called(w).faults, Placed(Called(w), temporary).1.faults);
    }
  }

  lemma {:induction false} FaultsPlaced(w: World, temporary: Name)
    requires temporary.Private? && temporary.purpose == Temporary
    ensures var (error, after) := Placed(w, temporary);
      && Consumed(w.faults, after.faults)
      && (error.None? ==> Smooth(w.faults, after.faults) && temporary !in after.children)
  {
    hide InstalledOver, Renamed, Consumed, Smooth, Called;
    FaultsCalled(w);
    var state := Inspected(w, Destination);
    if state.Some? {
      if state.value.Absent? {
        FaultsRenamed(Called(w), temporary, Destination);
        FaultsTrans(w.faults, Called(w).faults, Renamed(Called(w), temporary, Destination).1.faults);
      } else {
        FaultsOver(Called(w), temporary);
        FaultsTrans(w.faults, Called(w).faults, InstalledOver(Called(w), temporary).1.faults);
      }
    }
  }

  lemma {:induction false} FaultsRenamed(w: World, from: Name, to: Name)
    ensures var (done, after) := Renamed(w, from, to);
      && Consumed(w.faults, after.faults) && (done ==> Smooth(w.faults, after.faults) && from !in after.children)
  {
    hide Consumed, Smooth;
    FaultsCalled(w);
  }

  lemma {:induction false} FaultsRemoved(w: World, name: Name)
    ensures var (done, after) := Removed(w, name, false);
      && Consumed(w.faults, after.faults) && (done ==> Smooth(w.faults, after.faults))
      && (name.Private? ==> forall other: Name :: other.Private? && other !in w.children ==> other !in after.children)
  {
    hide Consumed, Smooth;
    FaultsCalled(w);
  }

  lemma {:induction false} FaultsOver(w: World, temporary: Name)
    requires temporary.Private? && temporary.purpose == Temporary
    ensures var (error, after) := InstalledOver(w, temporary);
      && Consumed(w.faults, after.faults)
      && (error.None? ==> Smooth(w.faults, after.faults) && temporary !in after.children)
  {
    hide Unused, Swapped, Renamed, Consumed, Smooth, Called;
    var (backup, found) := Unused(w, Backup, NAME_ATTEMPTS);
    FaultsUnused(w, Backup, NAME_ATTEMPTS);
    UnusedTouches(w, Backup, NAME_ATTEMPTS);
    if backup.Found? {
      var (aside, moved) := Renamed(found, Destination, backup.name);
      FaultsRenamed(found, Destination, backup.name);
      FaultsTrans(w.faults, found.faults, moved.faults);
      FaultsSwapped(moved, temporary, backup.name);
      FaultsTrans(w.faults, moved.faults, Swapped(moved, temporary, backup.name).1.faults);
    }
  }

  lemma {:induction false} FaultsSwapped(w: World, temporary: Name, backup: Name)
    requires temporary.Private? && backup.Private? && temporary != backup
    ensures var (error, after) := Swapped(w, temporary, backup);
      && Consumed(w.faults, after.faults)
      && (error.None? ==> Smooth(w.faults, after.faults) && temporary !in after.children)
  {
    hide Consumed, Smooth, Renamed, Removed, Called;
    var (installed, after) := Renamed(w, temporary, Destination);
    FaultsRenamed(w, temporary, Destination);
    if installed {
      FaultsRemoved(after, backup);
      FaultsTrans(w.faults, after.faults, Removed(after, backup, false).1.faults);
    } else {
      FaultsRenamed(after, backup, Destination);
      FaultsTrans(w.faults, after.faults, Renamed(after, backup, Destination).1.faults);
    }
  }

  // ----- when nothing interferes -----

  /** Nobody meddles and no call fails. */
  ghost predicate Calm(w: World) {
    Quiet(w.meddling) && Faultless(w.faults)
  }

  /** Among the next few numbers one is free for a private name of this purpose. */
  ghost predicate Free(children: Siblings, purpose: Purpose, number: nat, attempts: nat) {
    exists n: nat :: number <= n < number + attempts && Private(purpose, n) !in children
  }

  lemma {:induction false} CalmCalled(w: World)
    requires Calm(w)
    ensures Calm(Called(w)) && Called(w).children == w.children && Called(w).number == w.number
    ensures Called(w).lost == w.lost && Failing(w).None?
  {
  }

  lemma {:induction false} CalmUnused(w: World, purpose: Purpose, attempts: nat)
    requires Calm(w) && Free(w.children, purpose, w.number, attempts)
    ensures var (found, after) := Unused(w, purpose, attempts);
      && found.Found? && found.name.Private? && found.name.purpose == purpose && found.name !in w.children
      && Calm(after) && after.children == w.children
    decreases attempts
  {
    var n: nat :| w.number <= n < w.number + attempts && Private(purpose, n) !in w.children;
    CalmCalled(w);
    var after := Called(w).(number := w.number + 1);
    if Private(purpose, w.number) in w.children {
      assert after.number <= n < after.number + (attempts - 1);
      CalmUnused(after, purpose, attempts - 1);
    }
  }

  lemma {:induction false} CalmMade(w: World, attempts: nat)
    requires Calm(w)
    ensures var (found, after) := NewDirectory(w, attempts);
      && Calm(after) && w.number <= after.number <= w.number + attempts
      && (found.Found? ==> after.children == w.children[found.name := Folder(map[])])
      && (Free(w.children, Temporary, w.number, attempts) ==> found.Found?)
    decreases attempts
  {
    hide Calm, Called;
    CalmCalled(w);
    if attempts > 0 {
      var after := Called(w).(number := w.number + 1);
      CalmKept(Called(w), after);
      if Free(w.children, Temporary, w.number, attempts) && Private(Temporary, w.number) in w.children {
        var n: nat :| w.number <= n < w.number + attempts && Private(Temporary, n) !in w.children;
        assert after.number <= n < after.number + (attempts - 1);
      }
      CalmMade(after, attempts - 1);
      CalmKept(Called(w), after.(children := after.children[Private(Temporary, w.number) := Folder(map[])]));
    }
  }

  /** With nothing in the way an installation succeeds, and only an occupant stops an unforced one. */
  lemma {:induction false} CalmInstalls(w: World, temporary: Name, initial: ChildState, force: bool)
    requires Calm(w) && temporary in w.children && temporary.Private? && temporary.purpose == Temporary
    requires w.children[temporary].Folder? && Free(w.children, Backup, w.number, NAME_ATTEMPTS)
    ensures var (error, after) := Installed(w, temporary, initial, force);
      && (error.None? <==> force || !Occupies(initial, StateOf(w.children, Destination)))
      && (error.Some? ==> error.value == DestinationNotEmpty) && Calm(after)
  {
    hide Placed;
    CalmCalled(w);
    CalmPlaces(w, temporary);
    CalmPlaces(Called(w), temporary);
  }

  lemma {:induction false} CalmPlaces(w: World, temporary: Name)
    requires Calm(w) && temporary in w.children && temporary.Private? && temporary.purpose == Temporary
    requires w.children[temporary].Folder? && Free(w.children, Backup, w.number, NAME_ATTEMPTS)
    ensures Placed(w, temporary).0.None? && Calm(Placed(w, temporary).1)
  {
    hide Unused, Swapped, Calm, Free;
    CalmCalled(w);
    CalmCalled(Called(w));
    var c := Called(w);
    if Destination in c.children {
      CalmUnused(c, Backup, NAME_ATTEMPTS);
      var (backup, found) := Unused(c, Backup, NAME_ATTEMPTS);
      CalmCalled(found);
      var (aside, moved) := Renamed(found, Destination, backup.name);
      CalmKept(Called(found), moved);
      CalmSwaps(moved, temporary, backup.name);
    } else {
      CalmKept(Called(c), Renamed(c, temporary, Destination).1);
    }
  }

  lemma CalmKept(a: World, b: World)
    requires Calm(a) && b.meddling == a.meddling && b.faults == a.faults
    ensures Calm(b)
  {
  }

  lemma {:induction false} CalmSwaps(w: World, temporary: Name, backup: Name)
    requires Calm(w) && temporary in w.children && w.children[temporary].Folder? && Destination !in w.children
    requires backup in w.children && backup != temporary && temporary != Destination && backup != Destination
    ensures Swapped(w, temporary, backup).0.None? && Calm(Swapped(w, temporary, backup).1)
  {
    hide Calm;
    CalmCalled(w);
    var (installed, after) := Renamed(w, temporary, Destination);
    CalmKept(Called(w), after);
    CalmCalled(after);
    CalmKept(Called(after), Removed(after, backup, false).1);
  }

  // ----- what an arrival between the two looks can lose -----

  /** The first number is free for a backup, whatever else the directory holds. */
  lemma {:induction false} FirstUnused(w: World)
    requires w.faults == [] && Private(Backup, w.number) !in Called(w).children
    ensures Unused(w, Backup, NAME_ATTEMPTS) == (Found(Private(Backup, w.number)), Called(w).(number := w.number + 1))
  {
  }

  /**
   * Something that arrives at an absent destination between the first look and the second is moved aside
   * and destroyed, although the checkout was not forced and reports success.
   */
  lemma {:induction false} ArrivalLost(children: Siblings, temporary: Name, arrival: Child, number: nat)
    requires Destination !in children && temporary in children && temporary.Private? && temporary.purpose == Temporary
    requires children[temporary].Folder? && Private(Backup, number) !in children && arrival != Folder(map[])
    ensures var w := World(children, [Nothing, Puts(arrival)], [], [], number);
      var (error, after) := Installed(w, temporary, Absent, false);
      error.None? && after.lost == [arrival] && after.children == Replaced(children, temporary)
  {
    hide Unused;
    var w := World(children, [Nothing, Puts(arrival)], [], [], number);
    var seen := World(children[Destination := arrival], [], [], [], number);
    assert Called(Called(w)) == seen;
    OccupantReplaced(seen, children, temporary, arrival);
  }

  /** An empty directory that is filled after the second look is moved aside and destroyed in the same way. */
  lemma {:induction false} FilledLost(children: Siblings, temporary: Name, filling: Tree, number: nat)
    requires Destination in children && children[Destination] == Folder(map[]) && filling != map[]
    requires temporary in children && temporary.Private? && temporary.purpose == Temporary
    requires children[temporary].Folder? && Private(Backup, number) !in children
    ensures var w := World(children, [Nothing, Nothing, Puts(Folder(filling))], [], [], number);
      var (error, after) := Installed(w, temporary, EmptyDirectory, false);
      error.None? && after.lost == [Folder(filling)] && after.children == Replaced(children, temporary)
  {
    hide Unused, Swapped, Renamed;
    var w := World(children, [Nothing, Nothing, Puts(Folder(filling))], [], [], number);
    var met := World(children, [Puts(Folder(filling))], [], [], number);
    assert Called(Called(w)) == met;
    FirstUnused(met);
    MovedAside(Called(met).(number := number + 1), children - {Destination}, temporary, Folder(filling),
      Private(Backup, number));
  }

  lemma {:induction false} OccupantReplaced(w: World, children: Siblings, temporary: Name, arrival: Child)
    requires w == World(children[Destination := arrival], [], [], [], w.number)
    requires Destination !in children && temporary in children && temporary.Private? && temporary.purpose == Temporary
    requires children[temporary].Folder? && Private(Backup, w.number) !in children && arrival != Folder(map[])
    ensures var (error, after) := InstalledOver(w, temporary);
      error.None? && after.lost == [arrival] && after.children == Replaced(children, temporary)
  {
    hide Unused;
    FirstUnused(w);
    MovedAside(Called(w).(number := w.number + 1), children, temporary, arrival, Private(Backup, w.number));
  }

  lemma {:induction false} MovedAside(w: World, children: Siblings, temporary: Name, arrival: Child, backup: Name)
    requires w == World(children[Destination := arrival], [], [], [], w.number)
    requires Destination !in children && temporary in children && temporary.Private? && temporary.purpose == Temporary
    requires children[temporary].Folder? && backup.Private? && backup.purpose == Backup && backup !in children
    requires arrival != Folder(map[])
    ensures var (aside, moved) := Renamed(w, Destination, backup);
      aside && moved.children == children[backup := arrival] && moved.lost == []
      && var (error, after) := Swapped(moved, temporary, backup);
         error.None? && after.lost == [arrival] && after.children == Replaced(children, temporary)
  {
    var (aside, moved) := Renamed(w, Destination, backup);
    assert w.children - {Destination} == children;
    assert moved == World(children[backup := arrival], [], [], [], w.number);
    var (installed, after) := Renamed(moved, temporary, Destination);
    assert after.children == (children[backup := arrival] - {temporary})[Destination := children[temporary]];
    assert after.children - {backup} == Replaced(children, temporary);
  }

  // ----- the whole checkout -----

  /** What stood at the destination is not lost half-way, and no other name is touched. */
  ghost predicate Safe(world: Siblings, after: Siblings, tree: Tree) {
    && Bystanders(world, after)
    && (|| StandsAs(world, after)
        || (Destination in after && after[Destination] == Folder(tree))
        || (Destination !in after && Destination in world && exists backup: Name ::
              backup.Private? && backup in after && after[backup] == world[Destination]))
  }

  ghost predicate StandsAs(world: Siblings, after: Siblings) {
    (Destination in after <==> Destination in world)
      && (Destination in world ==> after[Destination] == world[Destination])
  }

  lemma {:induction false} SafeOutcome(
    world: Siblings, before: Siblings, after: Siblings, final: Siblings, temporary: Name, tree: Tree,
      error: CheckoutError)
    requires temporary.Private? && temporary.purpose == Temporary && temporary !in world
        && before == world[temporary := Folder(tree)]
    requires Outcome(before, after, temporary, error)
    requires final - {temporary} == after - {temporary}
    ensures Safe(world, final, tree)
  {
    forall name | name != temporary
      ensures (name in final <==> name in after) && (name in after ==> final[name] == after[name]) {
      assert name in final - {temporary} <==> name in after - {temporary};
    }
    if after == before {
    } else if error.Io? {
      var backup: Name :| backup.Private? && backup !in before && backup in after
                          && after - {backup} == (before - {temporary})[Destination := before[temporary]];
      forall name | name != backup && name != Destination && name != temporary
        ensures (name in after <==> name in world) && (name in world ==> after[name] == world[name])
      {
        assert name in after - {backup} <==> name in (before - {temporary})[Destination := before[temporary]];
      }
      assert Destination in after - {backup};
    } else {
      var backup: Name :| backup.Private? && backup !in before && Destination in before
                          && after == (before - {Destination})[backup := before[Destination]];
      assert backup != temporary && final[backup] == world[Destination];
    }
  }

  /** Beside what was seen there is at most the private tree. */
  lemma {:induction false} SafeBeside(seen: Siblings, after: Siblings, temporary: Name, tree: Tree)
    requires temporary.Private? && after - {temporary} == seen - {temporary}
    ensures Safe(seen, after, tree) && Bystanders(seen, after)
  {
    forall name | name != temporary
      ensures (name in after <==> name in seen) && (name in seen ==> after[name] == seen[name]) {
      assert name in after - {temporary} <==> name in seen - {temporary};
    }
  }

  lemma {:induction false} SafeInstalled(seen: Siblings, after: Siblings, tree: Tree)
    requires after == seen[Destination := Folder(tree)]
    ensures Safe(seen, after, tree)
  {
  }

  /** The snapshot can be restored from what is stored. */
  ghost predicate Available(entries: seq<Entry>, stored: Stored, maximum: nat, fold: Fold) {
    FoldDistinct(fold, entries) && ParentsExist(entries) && Ready(entries, stored, maximum)
  }

  /** All the checks that come before anything is created. */
  method Preflight(
    parent: ParentDirectory, entries: seq<Entry>, stored: Stored, maximum: nat, fold: Fold, force: bool)
    returns (error: Option<CheckoutError>, initial: ChildState)
    requires Canonical(entries)
    modifies parent
    ensures Apart(old(parent.world).children, parent.world.children, {}) && parent.world.lost == old(parent.world).lost
    ensures error.None? ==> Available(entries, stored, maximum, fold) && (initial.Occupied? ==> force)
    ensures Consumed(old(parent.world).faults, parent.world.faults)
    ensures OnlyOthers(old(parent.world), parent.world.children, parent.world.meddling)
    ensures error.None? ==> Smooth(old(parent.world).faults, parent.world.faults)
    ensures error.None? ==> initial == StateOf(Called(old(parent.world)).children, Destination)
    ensures error == Some(DestinationNotEmpty) ==>
      !force && StateOf(Called(old(parent.world)).children, Destination).Occupied?
    ensures Calm(old(parent.world)) ==>
      && Calm(parent.world) && parent.world.children == old(parent.world).children
      && parent.world.number == old(parent.world).number
      && (error.None? <==> Available(entries, stored, maximum, fold)
                           && (force || !StateOf(old(parent.world).children, Destination).Occupied?))
  {
    hide FoldDistinct, ParentsExist, Ready, Canonical, Calm, Called, Smooth, Consumed, OnlyOthers;
    FaultsNone(parent.world.faults);
    OthersNone(parent.world);
    OthersCalled(parent.world);
    FaultsCalled(parent.world);
    CalledTouches(parent.world);
    if Calm(parent.world) { CalmCalled(parent.world); }
    initial := Absent;
    var defect := ValidateManifest(fold, entries);
    if defect.Some? {
      return Some(Refused(Structure(defect.value))), initial;
    }
    var state := parent.InspectChild(Destination);
    if state.None? {
      return Some(Io), initial;
    }
    initial := state.value;
    if initial.Occupied? && !force {
      return Some(DestinationNotEmpty), initial;
    }
    var refused := PreflightObjects(entries, stored, maximum);
    if refused.Some? {
      return Some(Refused(refused.value)), initial;
    }
    return None, initial;
  }

  lemma {:induction false} ApartStill(a: Siblings, b: Siblings, c: Siblings, name: Name)
    requires Apart(a, b, {}) || Apart(a, b, {name})
    requires forall other :: other != Destination && other != name ==> Same(b, c, other)
    ensures Apart(a, c, {name})
  {
    forall other | other != Destination && other !in {name} ensures Same(a, c, other) {
      assert Same(a, b, other) && Same(b, c, other);
    }
  }

  lemma {:induction false} ApartOwn(a: Siblings, b: Siblings, name: Name)
    requires Apart(a, b, {}) && name != Destination
    ensures Same(a, b, name)
  {
  }

  /** Builds the snapshot's tree under a private name, or takes it away again. */
  method BuildBeside(
    parent: ParentDirectory, entries: seq<Entry>, stored: Stored, maximum: nat,
    linkMode: Permissions, buildFaults: seq<bool>)
    returns (error: Option<CheckoutError>, name: Name, ghost tree: Tree)
    requires Restorable(entries)
    modifies parent
    ensures name.Private? && name.purpose == Temporary && parent.world.lost == old(parent.world).lost
    ensures error.None? ==>
      && name in parent.world.children && parent.world.children[name] == Folder(tree)
      && Represents(tree, entries, stored, linkMode) && name !in old(parent.world).children
    ensures Apart(old(parent.world).children, parent.world.children, {name})
    ensures error.Some? ==> error.value != DestinationNotEmpty
    ensures Consumed(old(parent.world).faults, parent.world.faults)
    ensures OnlyOthers(old(parent.world), parent.world.children, parent.world.meddling)
    ensures error.None? ==> Smooth(old(parent.world).faults, parent.world.faults)
    ensures error.Some? && Faultless(old(parent.world).faults) ==>
      name !in parent.world.children || name in old(parent.world).children
    ensures Calm(old(parent.world)) && error.None? ==>
      && Calm(parent.world)
      && old(parent.world).number <= parent.world.number <= old(parent.world).number + NAME_ATTEMPTS
      && parent.world.children == old(parent.world).children[name := Folder(tree)]
    ensures Ready(entries, stored, maximum) && !(true in buildFaults) && Calm(old(parent.world)) ==>
      Free(old(parent.world).children, Temporary, old(parent.world).number, NAME_ATTEMPTS) ==> error.None?
  {
    hide Restorable, Represents, Ready, Calm, Free, Smooth, Consumed, Faultless, Apart, NewDirectory;
    hide OnlyOthers;
    name, tree := Private(Temporary, 0), map[];
    OthersMade(parent.world, NAME_ATTEMPTS);
    MadeTouches(parent.world, NAME_ATTEMPTS);
    FaultsMade(parent.world, NAME_ATTEMPTS);
    if Calm(parent.world) { CalmMade(parent.world, NAME_ATTEMPTS); }
    var found := parent.CreateTemporary();
    if !found.Found? {
      ApartOwn(old(parent.world).children, parent.world.children, name);
      ApartStill(old(parent.world).children, parent.world.children, parent.world.children, name);
      return Some(if found.Exhausted? then NamesExhausted else Io), name, tree;
    }
    name := found.name;
    ghost var made, beside := parent.world.children, parent.world;
    var root := new DirectoryRoot(buildFaults, linkMode);
    var failure := BuildTree(root, entries, stored, maximum);
    tree := root.nodes;
    FaultsNone(old(parent.world).faults);
    FaultsTrans(old(parent.world).faults, old(parent.world).faults, parent.world.faults);
    ghost var halfway := parent.world.faults;
    error := Fill(parent, name, root.nodes, failure);
    FaultsTrans(old(parent.world).faults, halfway, parent.world.faults);
    OthersTrans(old(parent.world), beside, parent.world.children, parent.world.meddling);
    ApartStill(old(parent.world).children, made, parent.world.children, name);
  }

  /** The private directory with what was built in it, flushed; taken away again if either failed. */
  method Fill(parent: ParentDirectory, name: Name, tree: Tree, failure: Option<RestoreError>)
    returns (error: Option<CheckoutError>)
    requires name.Private? && name in parent.world.children
    modifies parent
    ensures forall other :: other != Destination && other != name ==>
      Same(old(parent.world).children, parent.world.children, other)
    ensures parent.world.lost == old(parent.world).lost && parent.world.number == old(parent.world).number
    ensures Consumed(old(parent.world).faults, parent.world.faults)
    ensures OnlyOthers(old(parent.world), parent.world.children, parent.world.meddling)
    ensures error.None? ==> Smooth(old(parent.world).faults, parent.world.faults)
    ensures error.Some? && Faultless(old(parent.world).faults) ==> name !in parent.world.children
    ensures error.None? ==>
      failure.None? && name in parent.world.children && parent.world.children[name] == Folder(tree)
    ensures error.Some? ==> error.value != DestinationNotEmpty
    ensures Calm(old(parent.world)) ==> (error.None? <==> failure.None?)
    ensures Calm(old(parent.world)) && error.None? ==>
      Calm(parent.world) && parent.world.children == old(parent.world).children[name := Folder(tree)]
  {
    hide Calm, Smooth, Consumed, Faultless, OnlyOthers;
    ghost var before := parent.world;
    parent.world := parent.world.(children := parent.world.children[name := Folder(tree)]);
    OthersFill(before, name, tree);
    if Calm(before) {
      CalmKept(before, parent.world);
      CalmCalled(parent.world);
    }
    FaultsCalled(parent.world);
    var flushed := parent.Call();
    if failure.None? && flushed {
      return None;
    }
    FaultsCalled(parent.world);
    FaultsTrans(before.faults, parent.world.faults, Called(parent.world).faults);
    var removed := parent.RemoveChild(name, true);
    return Some(if failure.Some? then Refused(failure.value) else Io);
  }

  /** Takes the private tree away, if it is still under its name; a failing removal leaves something of it. */
  method TakeAway(parent: ParentDirectory, name: Name)
    requires name.Private?
    modifies parent
    ensures Bystanders(old(parent.world).children, parent.world.children) && parent.world.lost == old(parent.world).lost
    ensures Consumed(old(parent.world).faults, parent.world.faults)
    ensures Faultless(old(parent.world).faults) ==> name !in parent.world.children
    ensures Still(old(parent.world)) ==> parent.world.children - {name} == old(parent.world).children - {name}
  {
    hide Consumed, Faultless, Smooth, Still;
    FaultsNone(parent.world.faults);
    FaultsCalled(parent.world);
    if Still(parent.world) { StillCalled(parent.world); }
    if name in parent.world.children {
      var removed := parent.RemoveChild(name, true);
    }
  }

  /**
   * Moves the finished tree in, and takes it away again if that fails. `seen` is what the directory holds
   * besides the private tree at the first look, and `late` is what others do after it.
   */
  method Conclude(parent: ParentDirectory, name: Name, initial: ChildState, force: bool, ghost tree: Tree)
    returns (error: Option<CheckoutError>, ghost seen: Siblings, ghost late: seq<Meddle>)
    requires name.Private? && name.purpose == Temporary
    requires name in parent.world.children && parent.world.children[name] == Folder(tree)
    modifies parent
    ensures Bystanders(old(parent.world).children, parent.world.children)
    ensures Apart(old(parent.world).children, seen, {name}) && name !in seen
    ensures OnlyOthers(old(parent.world), seen, late)
    ensures Quiet(late) ==>
      if error.None? then parent.world.children == seen[Destination := Folder(tree)]
      else Safe(seen, parent.world.children, tree)
    ensures Quiet(late) && !force ==> parent.world.lost == old(parent.world).lost
    ensures Quiet(late) && !force && error.None? ==> !Occupies(initial, StateOf(seen, Destination))
    ensures error == Some(DestinationNotEmpty) ==> !force && Occupies(initial, StateOf(seen, Destination))
    ensures Consumed(old(parent.world).faults, parent.world.faults)
    ensures error.None? ==> Smooth(old(parent.world).faults, parent.world.faults)
    ensures error.None? || Faultless(old(parent.world).faults) ==> name !in parent.world.children
    ensures Calm(old(parent.world)) ==>
      Free(old(parent.world).children, Backup, old(parent.world).number, NAME_ATTEMPTS) ==>
      (error.None? <==> force || !Occupies(initial, StateOf(old(parent.world).children, Destination)))
  {
    hide Safe, Outcome, Installed, Still, Quiet, Calm, Free, Occupies, Smooth, Consumed, Faultless, Called;
    hide Bystanders, Apart, OnlyOthers;
    ghost var before := parent.world;
    ghost var met := Called(before).children;
    seen, late := met - {name}, Rest(before.meddling);
    OthersCalled(before);
    OthersBeside(before, met, name, Folder(tree), Called(before).meddling);
    SeenBeside(before, name, tree);
    InstallFacts(before, name, initial, force);
    error := parent.Install(name, initial, force);
    ghost var after := parent.world;
    FaultsNone(before.faults);
    FaultsTrans(before.faults, before.faults, after.faults);
    FaultsCalled(after);
    FaultsTrans(before.faults, after.faults, Called(after).faults);
    if Quiet(late) { StillCalled(after); }
    CalledTouches(after);
    ApartBystanders(after.children, Called(after).children, {});
    if error.Some? {
      TakeAway(parent, name);
      FaultsTrans(before.faults, after.faults, parent.world.faults);
      BystandersTrans(before.children, after.children, parent.world.children);
      if Quiet(late) { SafeOutcome(seen, met, after.children, parent.world.children, name, tree, error.value); }
    } else {
      BystandersTrans(before.children, after.children, Called(after).children);
      if Quiet(late) {
        assert after.children == seen[Destination := Folder(tree)];
        SafeInstalled(seen, after.children, tree);
      }
      var synced := parent.Call();
      error := if synced then None else Some(Io);
    }
  }

  lemma {:induction false} SeenBeside(w: World, name: Name, tree: Tree)
    requires name.Private? && name in w.children && w.children[name] == Folder(tree)
    ensures var seen := Called(w).children - {name};
      Called(w).children == seen[name := Folder(tree)] && Apart(w.children, seen, {name}) && name !in seen
  {
  }

  /** What is known of an installation, gathered. */
  lemma {:induction false} InstallFacts(w: World, name: Name, initial: ChildState, force: bool)
    requires name.Private? && name.purpose == Temporary && name in w.children && w.children[name].Folder?
    ensures var (error, after) := Installed(w, name, initial, force);
      var seen := Called(w).children;
      && Bystanders(w.children, after.children) && Consumed(w.faults, after.faults)
      && (error.None? ==> Smooth(w.faults, after.faults) && name !in after.children)
      && (error == Some(DestinationNotEmpty) ==> !force && Occupies(initial, StateOf(seen, Destination)))
      && (Quiet(Rest(w.meddling)) ==>
            && (error.None? ==> after.children == Replaced(seen, name))
            && (error.Some? ==> Outcome(seen, after.children, name, error.value))
            && (!force ==> after.lost == w.lost)
            && (!force && error.None? ==> !Occupies(initial, StateOf(seen, Destination)))
            && Still(after))
      && (Calm(w) && Free(w.children, Backup, w.number, NAME_ATTEMPTS) ==>
            && (error.None? <==> force || !Occupies(initial, StateOf(w.children, Destination)))
            && Failing(after).None?)
  {
    hide Installed, Outcome, Still, Quiet, Calm, Free, Occupies, Smooth, Consumed, Called, Bystanders;
    CalledTouches(w);
    InstallTouches(w, name, initial, force);
    RefusedFor(w, name, initial, force);
    FaultsInstalled(w, name, initial, force);
    if Quiet(Rest(w.meddling)) { QuietInstallKeeps(w, name, initial, force); }
    if Calm(w) && Free(w.children, Backup, w.number, NAME_ATTEMPTS) {
      CalmInstalls(w, name, initial, force);
      CalmCalled(Installed(w, name, initial, force).1);
    }
  }

  /**
   * No call fails, nobody meddles, and there is a number for the private directory and then one for a backup.
   */
  ghost predicate Unhindered(w: World, buildFaults: seq<bool>) {
    && Calm(w) && !(true in buildFaults) && Free(w.children, Temporary, w.number, NAME_ATTEMPTS)
    && forall n: nat :: w.number <= n <= w.number + NAME_ATTEMPTS ==> Free(w.children, Backup, n, NAME_ATTEMPTS)
  }

  lemma {:induction false} FreeBeside(children: Siblings, temporary: Name, tree: Tree, number: nat)
    requires Free(children, Backup, number, NAME_ATTEMPTS) && temporary.Private? && temporary.purpose == Temporary
    ensures Free(children[temporary := Folder(tree)], Backup, number, NAME_ATTEMPTS)
  {
    var n: nat :| number <= n < number + NAME_ATTEMPTS && Private(Backup, n) !in children;
    assert Private(Backup, n) !in children[temporary := Folder(tree)];
  }

  /**
   * Checks everything before it creates anything, builds in private, and moves the tree in. Other processes
   * may act on the destination before every call.
   *
   * Under every schedule no other name is touched. Unless something arrives late, a success leaves exactly
   * the snapshot's tree in place of what was seen and no private name behind, a failure is safe, and
   * without force nothing is destroyed.
   */
  method Materialize(
    parent: ParentDirectory, entries: seq<Entry>, stored: Stored, maximum: nat, fold: Fold,
    linkMode: Permissions, buildFaults: seq<bool>, force: bool)
    returns (error: Option<CheckoutError>, ghost tree: Tree, ghost seen: Siblings, ghost late: seq<Meddle>,
             ghost own: Name)
    requires Canonical(entries)
    modifies parent
    ensures error.None? ==> Available(entries, stored, maximum, fold) && Represents(tree, entries, stored, linkMode)
    ensures !Available(entries, stored, maximum, fold) ==>
      && error.Some? && Apart(old(parent.world).children, parent.world.children, {})
      && parent.world.lost == old(parent.world).lost
    ensures Bystanders(old(parent.world).children, parent.world.children)
    // `seen` is what others have left at the destination by the first look of the installation, or by the
    // failure before it, and `late` is what they do afterwards.
    ensures OnlyOthers(old(parent.world), seen, late)
    // `own` is the private name in use: it goes with a success, and with a failure unless its removal fails too.
    ensures own.Private? && own.purpose == Temporary && Apart(old(parent.world).children, seen, {own})
    ensures error.None? || Faultless(old(parent.world).faults) ==>
      own !in parent.world.children || own in old(parent.world).children
    ensures error.None? ==> Smooth(old(parent.world).faults, parent.world.faults)
    ensures Quiet(late) ==>
      if error.None? then parent.world.children == seen[Destination := Folder(tree)]
      else Safe(seen, parent.world.children, tree)
    ensures Quiet(late) && !force ==> parent.world.lost == old(parent.world).lost
    ensures Quiet(late) && !force && error.None? ==> !StateOf(seen, Destination).Occupied?
    // A refusal for what is in the way has met it, at the first look or at the one before the installation.
    ensures error == Some(DestinationNotEmpty) ==>
      && !force
      && var first := StateOf(Called(old(parent.world)).children, Destination);
         first.Occupied? || Occupies(first, StateOf(seen, Destination))
    // With nothing interfering, an available snapshot is refused only for an occupant.
    ensures Unhindered(old(parent.world), buildFaults) && Available(entries, stored, maximum, fold) ==>
      (error.None? <==> force || !StateOf(old(parent.world).children, Destination).Occupied?)
  {
    hide Safe, Represents, Canonical, Apart, Bystanders, FoldDistinct, ParentsExist, Ready, Calm, Free, Called;
    hide Smooth, Consumed, Faultless, OnlyOthers;
    tree, late, own := map[], [], Private(Temporary, 0);
    ghost var world := parent.world;
    FaultsNone(world.faults);
    var initial;
    error, initial := Preflight(parent, entries, stored, maximum, fold, force);
    ghost var start, checked := world.children, parent.world;
    ApartBystanders(start, checked.children, {});
    if error.Some? {
      seen, late := checked.children, checked.meddling;
      ApartMore(start, seen, seen, own);
      ApartOwn(start, seen, own);
      SafeBeside(seen, seen, own, tree);
      return;
    }
    var name;
    error, name, tree := BuildBeside(parent, entries, stored, maximum, linkMode, buildFaults);
    own := name;
    ghost var built := parent.world;
    ApartMore(start, checked.children, built.children, name);
    ApartOwn(start, checked.children, name);
    FaultsTrans(world.faults, world.faults, checked.faults);
    FaultsTrans(world.faults, checked.faults, built.faults);
    OthersTrans(world, checked, built.children, built.meddling);
    if error.Some? {
      seen, late := built.children - {name}, built.meddling;
      OthersBeside(world, built.children, name, Folder(tree), late);
      WithoutOwn(start, built.children, name);
      SafeBeside(seen, built.children, name, tree);
      return;
    }
    if Unhindered(world, buildFaults) {
      CalmCalled(world);
      FreeBeside(start, name, tree, built.number);
    }
    error, seen, late := Conclude(parent, name, initial, force, tree);
    ApartBoth(start, built.children, seen, name);
    OthersTrans(world, built, seen, late);
    BystandersTrans(start, built.children, parent.world.children);
    FaultsTrans(world.faults, built.faults, parent.world.faults);
  }

  lemma {:induction false} ApartMore(a: Siblings, b: Siblings, c: Siblings, name: Name)
    requires Apart(a, b, {}) && (Apart(b, c, {name}) || c == b) && name.Private?
    ensures Apart(a, c, {name}) && Bystanders(a, c)
  {
    ApartBystanders(a, c, {name});
  }

  lemma {:induction false} ApartBoth(a: Siblings, b: Siblings, c: Siblings, name: Name)
    requires Apart(a, b, {name}) && Apart(b, c, {name})
    ensures Apart(a, c, {name})
  {
  }

  lemma {:induction false} WithoutOwn(a: Siblings, b: Siblings, name: Name)
    requires Apart(a, b, {name}) && name.Private?
    ensures Apart(a, b - {name}, {name}) && Bystanders(b, b - {name})
  {
  }
}
