/** The supervised processes: what can be reached from the root through sampled parent links. */
module Processes {
  import opened Wrappers

  type Pid = nat

  /** Each listed process with the parent it reported; a sample may be inconsistent, even cyclic. */
  type Table = map<Pid, Option<Pid>>

  /** A descent: each process after the first is listed and names the one before it as its parent. */
  ghost predicate Descent(all: Table, chain: seq<Pid>) {
    && chain != []
    && forall i :: 0 < i < |chain| ==> chain[i] in all && all[chain[i]] == Some(chain[i - 1])
  }

  ghost predicate Reachable(all: Table, root: Pid, pid: Pid) {
    exists chain :: Descent(all, chain) && chain[0] == root && chain[|chain| - 1] == pid
  }

  lemma {:induction false} ReachChild(all: Table, root: Pid, parent: Pid, child: Pid)
    requires Reachable(all, root, parent) && child in all && all[child] == Some(parent)
    ensures Reachable(all, root, child)
  {
    var chain :| Descent(all, chain) && chain[0] == root && chain[|chain| - 1] == parent;
    assert Descent(all, chain + [child]) && (chain + [child])[0] == root;
  }

  lemma {:induction false} ReachRoot(all: Table, root: Pid)
    ensures Reachable(all, root, root)
  {
    assert Descent(all, [root]);
  }

  /** A set that holds the root and, with each process, its children holds everything reachable. */
  lemma {:induction false} ClosedHoldsAll(all: Table, root: Pid, closed: set<Pid>, chain: seq<Pid>)
    requires root in closed && forall child :: child in all && all[child].Some? && all[child].value in closed ==>
        child in closed
    requires Descent(all, chain) && chain[0] == root
    ensures chain[|chain| - 1] in closed
    decreases |chain|
  {
    if |chain| > 1 {
      var front := chain[..|chain| - 1];
      assert Descent(all, front);
      ClosedHoldsAll(all, root, closed, front);
      assert all[chain[|chain| - 1]] == Some(front[|front| - 1]);
    }
  }

  type Children = map<Pid, seq<Pid>>

  ghost predicate ChildrenOf(all: Table, listed: set<Pid>, children: Children) {
    && (forall parent :: parent in children ==> forall child :: child in children[parent] ==>
          child in listed && child in all && all[child] == Some(parent))
    && forall child :: child in listed && child in all && all[child].Some? ==>
         all[child].value in children && child in children[all[child].value]
  }

  method IndexChildren(all: Table) returns (children: Children)
    ensures ChildrenOf(all, all.Keys, children)
  {
    children := map[];
    var rest, listed := all.Keys, {};
    while rest != {}
      invariant rest !! listed && rest + listed == all.Keys && ChildrenOf(all, listed, children)
      decreases rest
    {
      var pid :| pid in rest;
      if all[pid].Some? {
        var parent := all[pid].value;
        children := children[parent := (if parent in children then children[parent] else []) + [pid]];
      }
      rest, listed := rest - {pid}, listed + {pid};
    }
  }

  ghost predicate Ascending(pids: seq<Pid>) {
    forall i, j :: 0 <= i < j < |pids| ==> pids[i] < pids[j]
  }

  ghost predicate IsLeast(pids: set<Pid>, least: Pid) {
    least in pids && forall other :: other in pids ==> least <= other
  }

  method LeastPid(pids: set<Pid>) returns (least: Pid)
    requires pids != {}
    ensures IsLeast(pids, least)
  {
    least :| least in pids;
    var rest := pids - {least};
    while rest != {}
      invariant rest <= pids && least in pids
      invariant forall other :: other in pids ==> other in rest || least <= other
      decreases rest
    {
      var pid :| pid in rest;
      if pid < least {
        least := pid;
      }
      rest := rest - {pid};
    }
  }

  /** Ends on any sample and lists, in order and once each, exactly the reachable listed processes. */
  method SupervisedProcesses(all: Table, root: Pid) returns (selected: seq<Pid>)
    ensures Ascending(selected)
    ensures forall pid :: pid in selected <==> pid in all && Reachable(all, root, pid)
  {
    hide Reachable;
    var children := IndexChildren(all);
    var found := CollectReachable(all, root, children);
    selected := [];
    var rest := found;
    while rest != {}
      invariant rest <= found && Ascending(selected)
      invariant forall pid :: pid in selected <==> pid in found - rest && pid in all
      invariant forall i, pid :: 0 <= i < |selected| && pid in rest ==> selected[i] < pid
      decreases rest
    {
      var pid := LeastPid(rest);
      rest := rest - {pid};
      if pid in all {
        selected := selected + [pid];
      }
    }
  }

  /** Breadth first; a process found again is not expanded again. */
  method CollectReachable(all: Table, root: Pid, children: Children) returns (found: set<Pid>)
    requires ChildrenOf(all, all.Keys, children)
    ensures forall pid :: pid in found <==> Reachable(all, root, pid)
  {
    hide Reachable;
    var queue := [root];
    found := {};
    ReachRoot(all, root);
    while queue != []
      invariant found <= all.Keys + {root}
      invariant forall i :: 0 <= i < |queue| ==> queue[i] in all.Keys + {root} && Reachable(all, root, queue[i])
      invariant forall pid :: pid in found ==> Reachable(all, root, pid)
      invariant root in found || root in queue
      invariant forall child :: child in all && all[child].Some? && all[child].value in found ==>
          child in found || child in queue
      decreases all.Keys + {root} - found, |queue|
    {
      var pid := queue[0];
      queue := queue[1..];
      if pid in found {
        continue;
      }
      found := found + {pid};
      if pid in children {
        forall i | 0 <= i < |children[pid]| ensures Reachable(all, root, children[pid][i]) {
          assert children[pid][i] in children[pid];
          ReachChild(all, root, pid, children[pid][i]);
        }
        queue := queue + children[pid];
      }
    }
    forall pid | Reachable(all, root, pid) ensures pid in found {
      ReachableChain(all, root, pid, found);
    }
  }

  lemma {:induction false} ReachableChain(all: Table, root: Pid, pid: Pid, closed: set<Pid>)
    requires Reachable(all, root, pid)
    requires root in closed && forall child :: child in all && all[child].Some? && all[child].value in closed ==>
        child in closed
    ensures pid in closed
  {
    var chain :| Descent(all, chain) && chain[0] == root && chain[|chain| - 1] == pid;
    ClosedHoldsAll(all, root, closed, chain);
  }
}
