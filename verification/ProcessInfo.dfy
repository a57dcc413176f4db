/** The tree of traced processes and the index its nodes share (src/tracer/ProcessInfo.cc, src/tracer/ProcessInfo.h). */
module ProcessInfo {
  import opened Common

  type Nodes = map<int, ProcessInfo>

  /** `a` is `n` or one of its ancestors. */
  ghost predicate IsAncestor(a: ProcessInfo, n: ProcessInfo)
    decreases n.depth
  {
    n == a || (n.parent != null && n.parent.depth < n.depth && IsAncestor(a, n.parent))
  }

  ghost predicate Holds(nodes: Nodes, n: ProcessInfo) {
    n.pid in nodes && nodes[n.pid] == n
  }

  /** A node's children are in the index, and nodes below it. */
  ghost predicate ChildrenHeld(nodes: Nodes, n: ProcessInfo)
    reads n`children
  {
    forall c | c in n.children ::
      c in nodes && nodes[c] == n.children[c] && nodes[c].pid == c && nodes[c].parent == n && n.depth < nodes[c].depth
  }

  /** A node is a child of its parent, which is in the index. */
  ghost predicate HeldByParent(nodes: Nodes, n: ProcessInfo)
    reads nodes.Values`children
  {
    && n.parent != null && Holds(nodes, n.parent) && n.parent.depth < n.depth
    && n.pid in n.parent.children && n.parent.children[n.pid] == n
  }

  /** The index agrees with the tree under `root`. */
  ghost predicate Valid(nodes: Nodes, index: TreeIndex, root: ProcessInfo)
    reads nodes.Values
  {
    && Holds(nodes, root) && root.parent == null
    && forall p | p in nodes ::
      var n := nodes[p];
      && n.pid == p && n.index == index && n.alive
      && ChildrenHeld(nodes, n)
      && (n != root ==> HeldByParent(nodes, n))
  }

  /** The subtree of an indexed node hangs together, whatever holds the node itself. */
  ghost predicate Detached(nodes: Nodes, index: TreeIndex, top: ProcessInfo)
    reads nodes.Values`children
  {
    && Holds(nodes, top)
    && forall p | p in nodes && IsAncestor(top, nodes[p]) ::
      var n := nodes[p];
      && n.pid == p && n.index == index
      && ChildrenHeld(nodes, n)
      && (n != top ==> HeldByParent(nodes, n))
  }

  lemma {:induction false} AncestorIsHigher(a: ProcessInfo, n: ProcessInfo)
    requires IsAncestor(a, n)
    ensures a.depth <= n.depth && (a.depth == n.depth ==> a == n)
    decreases n.depth
  {
    if n != a {
      AncestorIsHigher(a, n.parent);
    }
  }

  /** Subtrees of different children of a node have no node in common. */
  lemma {:induction false} SiblingsAreDisjoint(a: ProcessInfo, b: ProcessInfo, n: ProcessInfo)
    requires IsAncestor(a, n) && IsAncestor(b, n)
    requires a.parent == b.parent && a.parent != null && a.parent.depth < a.depth && a.parent.depth < b.depth
    ensures a == b
    decreases n.depth
  {
    if n == a && n != b {
      AncestorIsHigher(b, n.parent);
    } else if n == b && n != a {
      AncestorIsHigher(a, n.parent);
    } else if n != a && n != b {
      SiblingsAreDisjoint(a, b, n.parent);
    }
  }

  /** Below a node, every node is in the subtree of one of its children. */
  lemma {:induction false} BelowChild(nodes: Nodes, index: TreeIndex, top: ProcessInfo, n: ProcessInfo) returns (c: int)
    requires Detached(nodes, index, top) && Holds(nodes, n) && IsAncestor(top, n) && n != top
    ensures c in top.children && IsAncestor(top.children[c], n)
    decreases n.depth
  {
    assert HeldByParent(nodes, n);
    if n.parent == top {
      c := n.pid;
    } else {
      c := BelowChild(nodes, index, top, n.parent);
    }
  }

  lemma AncestorOfChild(top: ProcessInfo, child: ProcessInfo, n: ProcessInfo)
    requires child.parent == top && top.depth < child.depth && IsAncestor(child, n)
    ensures IsAncestor(top, n) && n != top
    decreases n.depth
  {
    AncestorIsHigher(child, n);
    if n != child {
      AncestorOfChild(top, child, n.parent);
    }
  }

  /** What is gone once `top` and the subtrees of its children outside `rest` are. */
  ghost predicate Gone(top: ProcessInfo, rest: set<int>, n: ProcessInfo)
    reads top`children
  {
    n == top || exists c | c in top.children && c !in rest :: IsAncestor(top.children[c], n)
  }

  ghost predicate Remaining(left: Nodes, nodes: Nodes, top: ProcessInfo, rest: set<int>)
    reads top`children
  {
    && (forall p :: p in left <==> p in nodes && !Gone(top, rest, nodes[p]))
    && (forall p | p in left :: left[p] == nodes[p])
  }

  /** No shared pointer is left to what is gone. */
  ghost predicate Expired(nodes: Nodes, top: ProcessInfo, rest: set<int>)
    reads nodes.Values, top
  {
    forall p | p in nodes && Gone(top, rest, nodes[p]) :: !nodes[p].alive
  }

  /** The subtree of a child still to go is untouched. */
  lemma NotGoneYet(nodes: Nodes, top: ProcessInfo, rest: set<int>, c: int, n: ProcessInfo)
    requires ChildrenHeld(nodes, top) && c in top.children && c in rest && IsAncestor(top.children[c], n)
    ensures !Gone(top, rest, n) && IsAncestor(top, n)
  {
    var child := top.children[c];
    AncestorOfChild(top, child, n);
    forall b | b in top.children && b !in rest ensures !IsAncestor(top.children[b], n) {
      if IsAncestor(top.children[b], n) {
        SiblingsAreDisjoint(child, top.children[b], n);
      }
    }
  }

  lemma ChildIsDetached(left: Nodes, nodes: Nodes, index: TreeIndex, top: ProcessInfo, rest: set<int>, c: int)
    requires Detached(nodes, index, top) && Remaining(left, nodes, top, rest)
    requires c in top.children && c in rest
    ensures Detached(left, index, top.children[c])
    ensures top.children[c].index == index
  {
    var child := top.children[c];
    assert ChildrenHeld(nodes, top);
    forall n | IsAncestor(child, n) ensures !Gone(top, rest, n) && IsAncestor(top, n) {
      NotGoneYet(nodes, top, rest, c, n);
    }
    forall p | p in left && IsAncestor(child, left[p])
      ensures ChildrenHeld(left, left[p]) && (left[p] != child ==> HeldByParent(left, left[p]))
    {
      var n := nodes[p];
      assert ChildrenHeld(nodes, n);
      forall x | x in n.children ensures x in left {
        assert IsAncestor(child, n.children[x]);
      }
      if n != child {
        assert HeldByParent(nodes, n) && IsAncestor(child, n.parent);
      }
    }
  }

  /** The index without the subtree of `top`. */
  ghost function Without(nodes: Nodes, top: ProcessInfo): Nodes {
    map p | p in nodes && !IsAncestor(top, nodes[p]) :: nodes[p]
  }

  lemma GoneIsBelow(nodes: Nodes, index: TreeIndex, top: ProcessInfo, n: ProcessInfo)
    requires Detached(nodes, index, top) && Holds(nodes, n)
    ensures Gone(top, {}, n) <==> IsAncestor(top, n)
  {
    if IsAncestor(top, n) && n != top {
      var c := BelowChild(nodes, index, top, n);
    } else if Gone(top, {}, n) && n != top {
      var c :| c in top.children && IsAncestor(top.children[c], n);
      assert ChildrenHeld(nodes, top);
      AncestorOfChild(top, top.children[c], n);
    }
  }

  ghost predicate ByPid(nodes: Nodes) {
    forall p | p in nodes :: nodes[p].pid == p
  }

  lemma NothingRemains(left: Nodes, nodes: Nodes, index: TreeIndex, top: ProcessInfo)
    requires Detached(nodes, index, top) && Remaining(left, nodes, top, {}) && ByPid(nodes)
    ensures left == Without(nodes, top)
    ensures forall p | p in nodes :: Gone(top, {}, nodes[p]) <==> IsAncestor(top, nodes[p])
  {
    forall p | p in nodes ensures Gone(top, {}, nodes[p]) <==> IsAncestor(top, nodes[p]) {
      GoneIsBelow(nodes, index, top, nodes[p]);
    }
    var without := Without(nodes, top);
    assert forall p :: p in left <==> p in without;
    assert forall p | p in left :: left[p] == without[p];
    assert left.Keys == without.Keys;
  }

  lemma OneMoreGone(after: Nodes, left: Nodes, nodes: Nodes, index: TreeIndex, top: ProcessInfo, rest: set<int>, c: int)
    requires Detached(nodes, index, top) && Remaining(left, nodes, top, rest)
    requires c in top.children && c in rest && after == Without(left, top.children[c])
    ensures Remaining(after, nodes, top, rest - {c})
  {}

  lemma BelowStaysBelow(top: ProcessInfo, child: ProcessInfo, all: set<ProcessInfo>)
    requires child.parent == top && top.depth < child.depth
    ensures forall n | n in all && IsAncestor(child, n) :: IsAncestor(top, n)
  {
    forall n | n in all && IsAncestor(child, n) ensures IsAncestor(top, n) {
      AncestorOfChild(top, child, n);
    }
  }

  /** As Valid, but that nothing holds `child` any more. */
  ghost predicate Unheld(nodes: Nodes, index: TreeIndex, root: ProcessInfo, child: ProcessInfo)
    reads nodes.Values`children
  {
    && Holds(nodes, root) && root.parent == null && Holds(nodes, child) && child != root
    && child.parent != null && child.parent.depth < child.depth
    && forall p | p in nodes ::
      var n := nodes[p];
      && n.pid == p && n.index == index
      && ChildrenHeld(nodes, n)
      && child.pid !in n.children
      && (n != root && n != child ==> HeldByParent(nodes, n))
  }

  lemma UnheldIsDetached(nodes: Nodes, index: TreeIndex, root: ProcessInfo, child: ProcessInfo)
    requires Unheld(nodes, index, root, child)
    ensures Detached(nodes, index, child)
  {}

  /** Once its subtree is gone, the index agrees with the tree again. */
  lemma WithoutUnheld(nodes: Nodes, left: Nodes, index: TreeIndex, root: ProcessInfo, child: ProcessInfo)
    requires Unheld(nodes, index, root, child) && left == Without(nodes, child)
    requires forall p | p in left :: left[p].alive
    requires Holds(nodes, child.parent)
    ensures Valid(left, index, root) && Holds(left, child.parent)
  {
    if IsAncestor(child, child.parent) {
      AncestorIsHigher(child, child.parent);
    }
    forall p | p in left
      ensures ChildrenHeld(left, left[p]) && (left[p] != root ==> HeldByParent(left, left[p]))
    {
      var n := left[p];
      assert ChildrenHeld(nodes, n);
      forall c | c in n.children ensures c in left {
        var x := n.children[c];
        assert x.parent == n && x.depth > n.depth && x != child;
      }
      if n != root {
        assert HeldByParent(nodes, n);
      }
    }
    assert !IsAncestor(child, root);
  }

  /** wholeTreeInfo_: a weak pointer to the node of every pid. */
  class TreeIndex {
    var nodes: Nodes

    constructor ()
      ensures nodes == map[]
    {
      nodes := map[];
    }
  }

  /** Erasing an entry of a tree that stays breaks the agreement. */
  lemma TakenPidBreaks(nodes: Nodes, index: TreeIndex, root: ProcessInfo, pid: int)
    requires Valid(nodes, index, root) && pid in nodes
    ensures !Valid(nodes - {pid}, index, root)
  {
    var n := nodes[pid];
    if n != root {
      assert HeldByParent(nodes, n);
      assert pid in n.parent.children && pid !in nodes - {pid};
      assert !ChildrenHeld(nodes - {pid}, n.parent);
      assert Holds(nodes - {pid}, n.parent) && (nodes - {pid})[n.parent.pid] == n.parent;
    }
  }

  ghost predicate ChildrenButFor(nodes: Nodes, n: ProcessInfo, child: ProcessInfo)
    reads n`children
  {
    forall c | c in n.children && !(n == child.parent && c == child.pid) ::
      c in nodes && nodes[c] == n.children[c] && nodes[c].pid == c && nodes[c].parent == n && n.depth < nodes[c].depth
  }

  /** As Valid, but that the index does not know `child` yet. */
  ghost predicate Unindexed(nodes: Nodes, index: TreeIndex, root: ProcessInfo, child: ProcessInfo)
    reads nodes.Values, child
  {
    && Holds(nodes, root) && root.parent == null
    && child.pid !in nodes && child.index == index && child.alive && child.children == map[] && child.parent != null
    && HeldByParent(nodes, child)
    && forall p | p in nodes ::
      var n := nodes[p];
      && n.pid == p && n.index == index && n.alive
      && ChildrenButFor(nodes, n, child)
      && (n != root ==> HeldByParent(nodes, n))
  }

  lemma IndexedIsValid(nodes: Nodes, index: TreeIndex, root: ProcessInfo, child: ProcessInfo)
    requires Unindexed(nodes, index, root, child)
    ensures Valid(nodes[child.pid := child], index, root)
  {}

  class ProcessInfo {
    const pid: int
    const parent: ProcessInfo?
    const index: TreeIndex
    ghost const depth: nat
    var children: Nodes
    /** Whether a shared pointer to the node is left: a weak pointer to a node that is not alive has expired. */
    var alive: bool

    constructor (pid: int, parent: ProcessInfo?)
      ensures this.pid == pid && this.parent == parent && children == map[] && alive
      ensures parent == null ==> fresh(index) && index.nodes == map[] && depth == 0
      ensures parent != null ==> index == parent.index && depth == parent.depth + 1
    {
      this.pid, this.parent, children, alive := pid, parent, map[], true;
      if parent == null {
        index := new TreeIndex();
        depth := 0;
      } else {
        index := parent.index;
        depth := parent.depth + 1;
      }
    }

    /** The destructor, run when the last shared pointer goes: the node leaves the index, then its children go. */
    method Destroy(ghost all: set<ProcessInfo>)
      requires Detached(index.nodes, index, this) && ByPid(index.nodes)
      requires forall p | p in index.nodes :: index.nodes[p] in all
      modifies index, all`alive
      ensures index.nodes == Without(old(index.nodes), this)
      ensures forall n | n in all && !IsAncestor(this, n) :: n.alive == old(n.alive)
      ensures forall p | p in old(index.nodes) && IsAncestor(this, old(index.nodes[p])) :: !old(index.nodes[p]).alive
      decreases all, 1
    {
      ghost var nodes := index.nodes;
      alive := false;
      index.nodes := index.nodes - {pid};
      var rest := children.Keys;
      while rest != {}
        invariant rest <= children.Keys
        invariant Detached(nodes, index, this) && Remaining(index.nodes, nodes, this, rest)
        invariant forall n | n in all && !IsAncestor(this, n) :: n.alive == old(n.alive)
        invariant Expired(nodes, this, rest)
        decreases rest
      {
        ghost var some := Member(rest);
        var c :| c in rest;
        DestroyChild(c, rest, nodes, all);
        rest := rest - {c};
      }
      NothingRemains(index.nodes, nodes, index, this);
    }

    /** One child goes, with what is below it. */
    method DestroyChild(c: int, ghost rest: set<int>, ghost nodes: Nodes, ghost all: set<ProcessInfo>)
      requires Detached(nodes, index, this) && Remaining(index.nodes, nodes, this, rest) && ByPid(nodes)
      requires forall p | p in nodes :: nodes[p] in all
      requires c in children && c in rest && Expired(nodes, this, rest)
      modifies index, all`alive
      ensures Remaining(index.nodes, nodes, this, rest - {c})
      ensures forall n | n in all && !IsAncestor(this, n) :: n.alive == old(n.alive)
      ensures Expired(nodes, this, rest - {c})
      decreases all, 0
    {
      assert ChildrenHeld(nodes, this);
      ChildIsDetached(index.nodes, nodes, index, this, rest, c);
      children[c].Destroy(all - {this});
      OneMoreGone(index.nodes, old(index.nodes), nodes, index, this, rest, c);
      BelowStaysBelow(this, children[c], all);
      forall p | p in nodes && Gone(this, rest - {c}, nodes[p]) ensures !nodes[p].alive {
        var n := nodes[p];
        if IsAncestor(children[c], n) {
          NotGoneYet(nodes, this, rest, c, n);
        } else {
          assert Gone(this, rest, n);
        }
      }
    }

    /** ProcessInfo::makeProcessInfo. When the pid is taken the assertion fails, and the destructor of the new node erases
        the entry of the old one. */
    static method MakeProcessInfo(pid: int, parent: ProcessInfo?) returns (process: Option<ProcessInfo>)
      modifies if parent == null then {} else {parent.index}
      ensures process.Some? ==> fresh(process.value) && process.value.pid == pid && process.value.parent == parent
      ensures process.Some? ==> process.value.children == map[] && process.value.alive
      ensures parent == null ==> process.Some? && fresh(process.value.index) && process.value.depth == 0 &&
                                 process.value.index.nodes == map[pid := process.value]
      ensures parent != null ==> (process.Some? <==> pid !in old(parent.index.nodes))
      ensures parent != null && process.Some? ==>
        && process.value.index == parent.index && process.value.depth == parent.depth + 1
        && parent.index.nodes == old(parent.index.nodes)[pid := process.value]
      ensures parent != null && process == None ==> parent.index.nodes == old(parent.index.nodes) - {pid}
    {
      var p := new ProcessInfo(pid, parent);
      if pid in p.index.nodes {
        p.alive := false;
        p.index.nodes := p.index.nodes - {pid};
        return None;
      }
      p.index.nodes := p.index.nodes[pid := p];
      return Some(p);
    }

    /** Adds a child. The index stays in agreement with the tree exactly when the pid is new. */
    method AddChild(pid: int, ghost root: ProcessInfo) returns (child: Option<ProcessInfo>)
      requires Valid(index.nodes, index, root) && Holds(index.nodes, this)
      modifies index, `children
      ensures child.Some? <==> pid !in old(index.nodes)
      ensures child.Some? ==> Valid(index.nodes, index, root)
      ensures child == None ==> !Valid(index.nodes, index, root)
      ensures child.Some? ==>
        && fresh(child.value) && child.value.pid == pid && child.value.parent == this && child.value.children == map[]
        && index.nodes == old(index.nodes)[pid := child.value] && children == old(children)[pid := child.value]
      ensures child == None ==> index.nodes == old(index.nodes) - {pid} && children == old(children)
    {
      child := MakeProcessInfo(pid, this);
      if child == None {
        TakenPidBreaks(old(index.nodes), index, root, pid);
        return;
      }
      Attach(child.value, old(index.nodes), root);
    }

    /** Takes in a child the index is to hold, beside the nodes it held before. */
    method Attach(child: ProcessInfo, ghost nodes: Nodes, ghost root: ProcessInfo)
      requires Valid(nodes, index, root) && Holds(nodes, this) && child.pid !in nodes
      requires child.parent == this && child.index == index && child.depth > depth
      requires child.alive && child.children == map[]
      modifies `children
      ensures children == old(children)[child.pid := child]
      ensures Valid(nodes[child.pid := child], index, root)
    {
      label before:
      children := children[child.pid := child];
      forall p | p in nodes
        ensures ChildrenButFor(nodes, nodes[p], child)
        ensures nodes[p] != root ==> HeldByParent(nodes, nodes[p])
      {
        assert old@before(ChildrenHeld(nodes, nodes[p]));
        assert nodes[p] != root ==> old@before(HeldByParent(nodes, nodes[p]));
      }
      IndexedIsValid(nodes, index, root, child);
    }

    /** Drops a child: exactly its subtree leaves the index. Without such a child the assertion fails. */
    method DelChild(pid: int, ghost root: ProcessInfo, ghost all: set<ProcessInfo>) returns (deleted: bool)
      requires Valid(index.nodes, index, root) && Holds(index.nodes, this)
      requires forall p | p in index.nodes :: index.nodes[p] in all
      modifies index, `children, all`alive
      ensures deleted <==> pid in old(children)
      ensures Valid(index.nodes, index, root) && Holds(index.nodes, this)
      ensures deleted ==> index.nodes == Without(old(index.nodes), old(children)[pid])
      ensures deleted ==> children == old(children) - {pid}
      ensures deleted ==> forall p | p in old(index.nodes) && IsAncestor(old(children)[pid], old(index.nodes[p])) ::
        !old(index.nodes[p]).alive
      ensures !deleted ==> index.nodes == old(index.nodes) && children == old(children)
    {
      if pid !in children {
        return false;
      }
      var child := children[pid];
      children := children - {pid};
      assert Unheld(index.nodes, index, root, child) by {
        assert forall p | p in index.nodes :: old(ChildrenHeld(index.nodes, index.nodes[p]));
        assert forall p | p in index.nodes :: index.nodes[p] != root ==> old(HeldByParent(index.nodes, index.nodes[p]));
      }
      UnheldIsDetached(index.nodes, index, root, child);
      ghost var nodes := index.nodes;
      child.Destroy(all);
      WithoutUnheld(nodes, index.nodes, index, root, child);
      return true;
    }

    /** ProcessInfo::getProcess erases an expired entry. While the index agrees with the tree no entry is expired, so the
        node of the pid is returned and nothing is erased. */
    method GetProcess(pid: int, ghost root: ProcessInfo) returns (process: ProcessInfo?)
      modifies index
      ensures var was := old(index.nodes);
        && process == (if pid in was && was[pid].alive then was[pid] else null)
        && index.nodes == (if pid in was && !was[pid].alive then was - {pid} else was)
      ensures old(Valid(index.nodes, index, root)) ==>
        && index.nodes == old(index.nodes)
        && (pid in index.nodes <==> process != null)
        && (process != null ==> process.pid == pid && Holds(index.nodes, process))
    {
      if pid !in index.nodes {
        return null;
      }
      var entry := index.nodes[pid];
      if !entry.alive {
        index.nodes := index.nodes - {pid};
        return null;
      }
      return entry;
    }
  }

  // ------------------------------------------------------------------ what the index says of the tree

  /** A way down the tree: each node is a child of the one before. */
  ghost predicate IsPath(path: seq<ProcessInfo>)
    reads set n | n in path
  {
    && path != []
    && forall i | 0 <= i < |path| - 1 ::
      path[i + 1].pid in path[i].children && path[i].children[path[i + 1].pid] == path[i + 1]
  }

  /** Every node the root reaches through children is in the index, under its own pid. */
  lemma {:induction false} ReachableIsIndexed(nodes: Nodes, index: TreeIndex, root: ProcessInfo, path: seq<ProcessInfo>)
    requires Valid(nodes, index, root) && IsPath(path) && path[0] == root
    ensures Holds(nodes, path[|path| - 1])
  {
    if |path| > 1 {
      var before := path[..|path| - 1];
      ReachableIsIndexed(nodes, index, root, before);
      assert ChildrenHeld(nodes, before[|before| - 1]);
    }
  }

  lemma PathGrows(path: seq<ProcessInfo>, n: ProcessInfo)
    requires IsPath(path)
    requires var last := path[|path| - 1]; n.pid in last.children && last.children[n.pid] == n
    ensures IsPath(path + [n])
  {}

  /** Every node of the index is reached from the root. */
  lemma {:induction false} IndexedIsReachable(nodes: Nodes, index: TreeIndex, root: ProcessInfo, n: ProcessInfo)
    returns (path: seq<ProcessInfo>)
    requires Valid(nodes, index, root) && Holds(nodes, n)
    ensures IsPath(path) && path[0] == root && path[|path| - 1] == n
    decreases n.depth
  {
    if n == root {
      path := [n];
    } else {
      assert HeldByParent(nodes, n);
      var before := IndexedIsReachable(nodes, index, root, n.parent);
      PathGrows(before, n);
      path := before + [n];
    }
  }

  // ------------------------------------------------------------------ the tree as parent links

  /** The parents of all processes but the root. */
  type Links = map<int, int>

  function Climb(links: Links, pid: int, steps: nat): int
    decreases steps
  {
    if steps == 0 || pid !in links then pid else Climb(links, links[pid], steps - 1)
  }

  ghost predicate Below(links: Links, pid: int, top: int) {
    exists steps: nat :: Climb(links, pid, steps) == top
  }

  /** The links without those of the subtree of `top`. */
  ghost function Prune(links: Links, top: int): Links {
    map p | p in links && !Below(links, p, top) :: links[p]
  }

  ghost function LinksOf(nodes: Nodes): Links {
    map p | p in nodes && nodes[p].parent != null :: nodes[p].parent.pid
  }

  /** The links are those of the nodes, which hold the parents of their own. */
  ghost predicate Linked(nodes: Nodes, links: Links) {
    forall p | p in nodes :: IsLink(nodes, links, nodes[p])
  }

  ghost predicate IsLink(nodes: Nodes, links: Links, n: ProcessInfo) {
    && Holds(nodes, n) && (n.pid in links <==> n.parent != null)
    && (n.parent != null ==>
          Holds(nodes, n.parent) && n.parent.depth < n.depth && links[n.pid] == n.parent.pid)
  }

  lemma ValidIsLinked(nodes: Nodes, index: TreeIndex, root: ProcessInfo)
    requires Valid(nodes, index, root)
    ensures Linked(nodes, LinksOf(nodes))
  {
    forall p | p in nodes ensures IsLink(nodes, LinksOf(nodes), nodes[p]) {
      if nodes[p].parent != null {
        assert HeldByParent(nodes, nodes[p]);
      }
    }
  }

  lemma {:induction false} AncestorIsClimbed(nodes: Nodes, links: Links, a: ProcessInfo, n: ProcessInfo)
    returns (steps: nat)
    requires Linked(nodes, links) && Holds(nodes, n) && IsAncestor(a, n)
    ensures Climb(links, n.pid, steps) == a.pid
    decreases n.depth
  {
    if n == a {
      steps := 0;
    } else {
      assert IsLink(nodes, links, n);
      var rest := AncestorIsClimbed(nodes, links, a, n.parent);
      steps := rest + 1;
    }
  }

  lemma {:induction false} ClimbedIsAncestor(nodes: Nodes, links: Links, a: ProcessInfo, n: ProcessInfo, steps: nat)
    requires Linked(nodes, links) && Holds(nodes, n) && Holds(nodes, a) && Climb(links, n.pid, steps) == a.pid
    ensures IsAncestor(a, n)
    decreases steps
  {
    assert IsLink(nodes, links, n);
    if steps > 0 && n.parent != null {
      ClimbedIsAncestor(nodes, links, a, n.parent, steps - 1);
    }
  }

  lemma BelowIsAncestor(nodes: Nodes, links: Links, top: ProcessInfo, n: ProcessInfo)
    requires Linked(nodes, links) && Holds(nodes, n) && Holds(nodes, top)
    ensures Below(links, n.pid, top.pid) <==> IsAncestor(top, n)
  {
    if IsAncestor(top, n) {
      var steps := AncestorIsClimbed(nodes, links, top, n);
    } else if Below(links, n.pid, top.pid) {
      var steps: nat :| Climb(links, n.pid, steps) == top.pid;
      ClimbedIsAncestor(nodes, links, top, n, steps);
    }
  }

  lemma PrunedLinks(nodes: Nodes, top: ProcessInfo)
    requires forall p | p in nodes :: Below(LinksOf(nodes), p, top.pid) <==> IsAncestor(top, nodes[p])
    ensures LinksOf(Without(nodes, top)) == Prune(LinksOf(nodes), top.pid)
  {
    var left, pruned := LinksOf(Without(nodes, top)), Prune(LinksOf(nodes), top.pid);
    assert forall p :: p in left <==> p in pruned;
    assert forall p | p in left :: left[p] == pruned[p];
  }

  /** Dropping a subtree prunes the links. */
  lemma WithoutIsPrune(nodes: Nodes, index: TreeIndex, root: ProcessInfo, top: ProcessInfo)
    requires Valid(nodes, index, root) && Holds(nodes, top)
    ensures LinksOf(Without(nodes, top)) == Prune(LinksOf(nodes), top.pid)
  {
    var links := LinksOf(nodes);
    ValidIsLinked(nodes, index, root);
    forall p | p in nodes ensures Below(links, p, top.pid) <==> IsAncestor(top, nodes[p]) {
      assert IsLink(nodes, links, nodes[p]);
      BelowIsAncestor(nodes, links, top, nodes[p]);
    }
    PrunedLinks(nodes, top);
  }
}
