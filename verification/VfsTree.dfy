/** The tree of file system nodes: parents, children and mounts. */
module VfsTree {
  import opened Common

  type NodeId = nat

  datatype Kind = Unspec | Reg | Dir | Chr | Blk

  datatype Link = Nil | To(id: NodeId)

  /** A mounted file system: its root, and whether it looks entries up on demand. */
  datatype Mount = NoMount | Mount(root: NodeId, onDemand: bool)

  /** children: the list that child and sibling link, newest first. */
  datatype Node = Node(name: string, kind: Kind, fops: bool, parent: Link, children: seq<NodeId>, mnt: Mount)

  type Tree = map<NodeId, Node>

  /** How far each node is from the top of its tree. */
  type Depths = map<NodeId, nat>

  /** c is where n's child should be. */
  ghost predicate ChildOk(t: Tree, d: Depths, n: NodeId, c: NodeId) {
    n in d && c in t && c in d && t[c].parent == To(n) && d[c] == d[n] + 1
  }

  /** n's links and those of its parent and children agree; its children's names
      differ. */
  ghost predicate NodeOk(t: Tree, d: Depths, n: NodeId) {
    && n in t && n in d
    && (forall c :: c in t[n].children ==> ChildOk(t, d, n, c))
    && (t[n].parent.To? ==> t[n].parent.id in t && n in t[t[n].parent.id].children)
    && NoDup(t[n].children)
    && (forall a, b :: a in t[n].children && b in t[n].children && a in t && b in t && a != b ==> t[a].name != t[b].name)
    && (t[n].children != [] ==> t[n].kind.Dir?)
  }

  ghost predicate Linked(t: Tree, d: Depths) {
    forall n :: n in t ==> NodeOk(t, d, n)
  }

  /** A directory that is no root of a mounted file system may have one mounted
      on it. */
  ghost predicate MountOk(t: Tree, root: NodeId, n: NodeId) {
    n in t && (t[n].mnt.Mount? ==>
      && t[n].kind.Dir? && (n == root || t[n].parent.To?)
      && t[n].mnt.root in t && t[n].mnt.root != root && t[t[n].mnt.root].parent.Nil? && t[t[n].mnt.root].kind.Dir?)
  }

  /** Every mounted file system has a tree of its own. */
  ghost predicate Mounted(t: Tree, root: NodeId) {
    && root in t && t[root].parent.Nil? && t[root].kind.Dir?
    && (forall n :: n in t ==> MountOk(t, root, n))
    && (forall n, m :: n in t && m in t && t[n].mnt.Mount? && t[m].mnt.Mount? && t[m].mnt.root == t[n].mnt.root ==> n == m)
  }

  // ----- being below a node -----

  /** vfs_node_under_root: the parent links lead from n to r. */
  predicate Under(t: Tree, d: Depths, n: NodeId, r: NodeId)
    decreases if n in d then d[n] else 0
  {
    n == r || (n in t && n in d && t[n].parent.To? && t[n].parent.id in d && d[t[n].parent.id] < d[n]
               && Under(t, d, t[n].parent.id, r))
  }

  function Below(t: Tree, d: Depths, r: NodeId): set<NodeId> {
    set n | n in t && Under(t, d, n, r)
  }

  lemma ParentDepth(t: Tree, d: Depths, n: NodeId)
    requires Linked(t, d) && n in t && t[n].parent.To?
    ensures n in d && t[n].parent.id in t && t[n].parent.id in d && d[n] == d[t[n].parent.id] + 1
  {
    assert NodeOk(t, d, n) && NodeOk(t, d, t[n].parent.id);
    assert ChildOk(t, d, t[n].parent.id, n);
  }

  lemma DepthIs(t: Tree, d: Depths, n: NodeId)
    requires Linked(t, d) && n in t
    ensures n in d
  {
    assert NodeOk(t, d, n);
  }

  lemma {:induction false} UnderDepth(t: Tree, d: Depths, n: NodeId, r: NodeId)
    requires Linked(t, d) && n in t && r in t && Under(t, d, n, r)
    ensures n in d && r in d && d[r] <= d[n] && (d[r] == d[n] ==> n == r)
    decreases if n in d then d[n] else 0
  {
    DepthIs(t, d, n);
    DepthIs(t, d, r);
    if n != r {
      ParentDepth(t, d, n);
      UnderDepth(t, d, t[n].parent.id, r);
    }
  }

  /** A node is below at most one of two nodes of the same depth. */
  lemma {:induction false} UnderOne(t: Tree, d: Depths, n: NodeId, a: NodeId, b: NodeId)
    requires Linked(t, d) && n in t && a in t && b in t && Under(t, d, n, a) && Under(t, d, n, b)
    requires a in d && b in d && d[a] == d[b]
    ensures a == b
    decreases if n in d then d[n] else 0
  {
    if n == a {
      UnderDepth(t, d, n, b);
    } else if n == b {
      UnderDepth(t, d, n, a);
    } else {
      ParentDepth(t, d, n);
      UnderOne(t, d, t[n].parent.id, a, b);
    }
  }

  /** What is below a node is the node, or below one of its children. */
  lemma {:induction false} UnderChild(t: Tree, d: Depths, n: NodeId, r: NodeId) returns (c: NodeId)
    requires Linked(t, d) && n in t && r in t && Under(t, d, n, r) && n != r
    ensures c in t[r].children && c in t && Under(t, d, n, c)
    decreases if n in d then d[n] else 0
  {
    ParentDepth(t, d, n);
    assert NodeOk(t, d, n);
    var p := t[n].parent.id;
    if p == r {
      c := n;
    } else {
      c := UnderChild(t, d, p, r);
    }
  }

  lemma ChildUnder(t: Tree, d: Depths, c: NodeId, r: NodeId)
    requires Linked(t, d) && r in t && c in t[r].children
    ensures c in t && Under(t, d, c, r) && c in d && r in d && d[c] == d[r] + 1 && c != r
  {
    assert NodeOk(t, d, r) && ChildOk(t, d, r, c);
    assert Under(t, d, r, r);
  }

  lemma {:induction false} UnderTrans(t: Tree, d: Depths, n: NodeId, m: NodeId, r: NodeId)
    requires Under(t, d, n, m) && Under(t, d, m, r)
    ensures Under(t, d, n, r)
    decreases if n in d then d[n] else 0
  {
    if n != m { UnderTrans(t, d, t[n].parent.id, m, r); }
  }

  /** The subtrees of a node's children are apart, and smaller than its own. */
  lemma BelowChild(t: Tree, d: Depths, r: NodeId, c: NodeId)
    requires Linked(t, d) && r in t && c in t[r].children
    ensures c in t && Below(t, d, c) < Below(t, d, r) && r !in Below(t, d, c)
  {
    ChildUnder(t, d, c, r);
    forall n | n in Below(t, d, c) ensures n in Below(t, d, r) {
      UnderTrans(t, d, n, c, r);
    }
    if Under(t, d, r, c) { UnderDepth(t, d, r, c); }
    assert r in Below(t, d, r);
  }

  lemma BelowApart(t: Tree, d: Depths, r: NodeId, a: NodeId, b: NodeId)
    requires Linked(t, d) && r in t && a in t[r].children && b in t[r].children && a != b
    ensures Below(t, d, a) !! Below(t, d, b)
  {
    ChildUnder(t, d, a, r);
    ChildUnder(t, d, b, r);
    forall n | n in Below(t, d, a) && n in Below(t, d, b) ensures false {
      UnderOne(t, d, n, a, b);
    }
  }

  /** The children's subtrees, for the first k children. */
  function BelowSome(t: Tree, d: Depths, s: seq<NodeId>): set<NodeId> {
    if s == [] then {} else BelowSome(t, d, s[..|s| - 1]) + Below(t, d, s[|s| - 1])
  }

  lemma {:induction false} BelowSomeIs(t: Tree, d: Depths, s: seq<NodeId>, n: NodeId)
    ensures n in BelowSome(t, d, s) <==> exists i :: 0 <= i < |s| && n in Below(t, d, s[i])
  {
    if s != [] {
      BelowSomeIs(t, d, s[..|s| - 1], n);
      assert s == s[..|s| - 1] + [s[|s| - 1]];
    }
  }

  lemma BelowAll(t: Tree, d: Depths, r: NodeId)
    requires Linked(t, d) && r in t
    ensures Below(t, d, r) == {r} + BelowSome(t, d, t[r].children)
  {
    forall n ensures n in Below(t, d, r) <==> n in {r} + BelowSome(t, d, t[r].children) {
      BelowSomeIs(t, d, t[r].children, n);
      if n in Below(t, d, r) && n != r {
        var c := UnderChild(t, d, n, r);
      }
      if n in BelowSome(t, d, t[r].children) {
        var i :| 0 <= i < |t[r].children| && n in Below(t, d, t[r].children[i]);
        BelowChild(t, d, r, t[r].children[i]);
      }
    }
  }

  // ----- the changes -----

  /** A new node, as vfs_alloc_node makes it. */
  function Alloc(t: Tree, n: NodeId, name: string, kind: Kind, fops: bool): Tree {
    t[n := Node(name, kind, fops, Nil, [], NoMount)]
  }

  /** A new node at the head of its parent's list. */
  function Attach(t: Tree, n: NodeId, p: NodeId, name: string, kind: Kind, fops: bool): Tree
    requires p in t
  {
    t[n := Node(name, kind, fops, To(p), [], NoMount)][p := t[p].(children := [n] + t[p].children)]
  }

  /** A node whose links, and whose neighbours' links, are as before is as good
      as before. */
  lemma NodeStays(t: Tree, d: Depths, u: Tree, e: Depths, m: NodeId)
    requires NodeOk(t, d, m) && m in u && m in e && e[m] == d[m]
    requires u[m].children == t[m].children && u[m].parent == t[m].parent && u[m].kind == t[m].kind
    requires u[m].parent.To? ==> u[m].parent.id in u && m in u[u[m].parent.id].children
    requires forall c :: c in t[m].children && c in t ==> c in u && c in e && u[c].parent == t[c].parent && u[c].name == t[c].name
    requires forall c :: c in t[m].children && c in d && c in e ==> e[c] == d[c]
    ensures NodeOk(u, e, m)
  {
    forall c | c in u[m].children ensures ChildOk(u, e, m, c) && u[c].name == t[c].name && c in t {
      assert ChildOk(t, d, m, c);
    }
  }

  /** Mounts are kept where they are, and their roots too. */
  lemma MountedStays(t: Tree, u: Tree, root: NodeId)
    requires Mounted(t, root) && root in u
    requires forall n :: n in u && u[n].mnt.Mount? ==> n in t && u[n].mnt == t[n].mnt && u[n].mnt.root in u
    requires forall n :: n in u && n in t ==> u[n].kind == t[n].kind && u[n].parent == t[n].parent
    ensures Mounted(u, root)
  {
    forall n | n in u ensures MountOk(u, root, n) {
      if u[n].mnt.Mount? { assert MountOk(t, root, n); }
    }
  }

  lemma RootsIn(t: Tree, root: NodeId, n: NodeId)
    requires Mounted(t, root) && n in t && t[n].mnt.Mount?
    ensures t[n].mnt.root in t && t[t[n].mnt.root].parent.Nil? && t[n].mnt.root != root
  {
    assert MountOk(t, root, n);
  }

  lemma AllocKeeps(t: Tree, d: Depths, root: NodeId, n: NodeId, name: string, kind: Kind, fops: bool)
    requires Linked(t, d) && Mounted(t, root) && n !in t
    ensures Linked(Alloc(t, n, name, kind, fops), d[n := 0]) && Mounted(Alloc(t, n, name, kind, fops), root)
  {
    var u, e := Alloc(t, n, name, kind, fops), d[n := 0];
    forall m | m in u ensures NodeOk(u, e, m) {
      if m != n {
        assert NodeOk(t, d, m);
        ChildrenIn(t, d, m);
        NodeStays(t, d, u, e, m);
      }
    }
    AllocMounts(t, root, n, name, kind, fops);
  }

  lemma AllocMounts(t: Tree, root: NodeId, n: NodeId, name: string, kind: Kind, fops: bool)
    requires Mounted(t, root) && n !in t
    ensures Mounted(Alloc(t, n, name, kind, fops), root)
  {
    var u := Alloc(t, n, name, kind, fops);
    forall m | m in t && t[m].mnt.Mount? ensures t[m].mnt.root in u {
      RootsIn(t, root, m);
    }
    MountedStays(t, u, root);
  }

  lemma ChildrenIn(t: Tree, d: Depths, m: NodeId)
    requires NodeOk(t, d, m)
    ensures forall c :: c in t[m].children ==> c in t && c in d && t[c].parent == To(m)
  {
    forall c | c in t[m].children ensures c in t && c in d && t[c].parent == To(m) {
      assert ChildOk(t, d, m, c);
    }
  }

  lemma AttachKeeps(t: Tree, d: Depths, root: NodeId, n: NodeId, p: NodeId, name: string, kind: Kind, fops: bool)
    requires Linked(t, d) && Mounted(t, root) && n !in t && p in t && t[p].kind.Dir?
    requires forall c :: c in t[p].children && c in t ==> t[c].name != name
    ensures p in d && Linked(Attach(t, n, p, name, kind, fops), d[n := d[p] + 1])
    ensures Mounted(Attach(t, n, p, name, kind, fops), root)
  {
    DepthIs(t, d, p);
    var u, e := Attach(t, n, p, name, kind, fops), d[n := d[p] + 1];
    forall m | m in u ensures NodeOk(u, e, m) {
      if m == p {
        AttachParent(t, d, n, p, name, kind, fops);
      } else if m != n {
        assert NodeOk(t, d, m);
        ChildrenIn(t, d, m);
        NodeStays(t, d, u, e, m);
      }
    }
    AttachMounts(t, root, n, p, name, kind, fops);
  }

  lemma AttachMounts(t: Tree, root: NodeId, n: NodeId, p: NodeId, name: string, kind: Kind, fops: bool)
    requires Mounted(t, root) && n !in t && p in t
    ensures Mounted(Attach(t, n, p, name, kind, fops), root)
  {
    var u := Attach(t, n, p, name, kind, fops);
    forall m | m in t && t[m].mnt.Mount? ensures t[m].mnt.root in u {
      RootsIn(t, root, m);
    }
    MountedStays(t, u, root);
  }

  lemma AttachParent(t: Tree, d: Depths, n: NodeId, p: NodeId, name: string, kind: Kind, fops: bool)
    requires Linked(t, d) && n !in t && p in t && p in d && t[p].kind.Dir?
    requires forall c :: c in t[p].children && c in t ==> t[c].name != name
    ensures NodeOk(Attach(t, n, p, name, kind, fops), d[n := d[p] + 1], p)
  {
    var u, e := Attach(t, n, p, name, kind, fops), d[n := d[p] + 1];
    assert NodeOk(t, d, p);
    ChildrenIn(t, d, p);
    assert n !in t[p].children;
    forall c | c in u[p].children ensures ChildOk(u, e, p, c) {
      if c != n {
        assert c in t[p].children && ChildOk(t, d, p, c);
      }
    }
    if t[p].parent.To? { ParentDepth(t, d, p); }
    assert forall c :: c in u[p].children ==> c == n || c in t[p].children;
    assert forall c :: c in t[p].children && c != p ==> u[c].name == t[c].name;
  }

  /** A leaf taken out of its parent's list and freed. */
  function Cut(t: Tree, n: NodeId): Tree
    requires n in t && t[n].parent.To? && t[n].parent.id in t
  {
    var p := t[n].parent.id;
    t[p := t[p].(children := Without(t[p].children, n))] - {n}
  }

  lemma CutKeeps(t: Tree, d: Depths, root: NodeId, n: NodeId)
    requires Linked(t, d) && Mounted(t, root) && n in t && t[n].parent.To? && t[n].children == []
    requires t[n].parent.id in t
    ensures Linked(Cut(t, n), d) && Mounted(Cut(t, n), root)
  {
    assert NodeOk(t, d, n);
    var p := t[n].parent.id;
    var u := Cut(t, n);
    assert NodeOk(t, d, p);
    WithoutOnce(t[p].children, n);
    forall m | m in u ensures NodeOk(u, d, m) {
      assert NodeOk(t, d, m);
      ChildrenIn(t, d, m);
      if m == p {
        CutParent(t, d, n);
      } else {
        NodeStays(t, d, u, d, m);
      }
    }
    CutMounts(t, root, n);
  }

  lemma CutMounts(t: Tree, root: NodeId, n: NodeId)
    requires Mounted(t, root) && n in t && t[n].parent.To? && t[n].parent.id in t
    ensures Mounted(Cut(t, n), root)
  {
    var u := Cut(t, n);
    forall m | m in u && u[m].mnt.Mount? ensures u[m].mnt.root in u {
      RootsIn(t, root, m);
    }
    MountedStays(t, u, root);
  }

  lemma CutParent(t: Tree, d: Depths, n: NodeId)
    requires Linked(t, d) && n in t && t[n].parent.To? && t[n].parent.id in t && t[n].parent.id != n
    ensures NodeOk(Cut(t, n), d, t[n].parent.id)
  {
    var p, u := t[n].parent.id, Cut(t, n);
    assert NodeOk(t, d, p);
    ChildrenIn(t, d, p);
    WithoutOnce(t[p].children, n);
    if t[p].parent.To? { ParentDepth(t, d, p); }
    forall c | c in u[p].children ensures ChildOk(u, d, p, c) {
      assert ChildOk(t, d, p, c);
    }
  }

  /** A whole tree freed, and the mount on m that it belongs to. */
  function Unmount(t: Tree, d: Depths, m: NodeId): Tree
    requires m in t && t[m].mnt.Mount?
  {
    t[m := t[m].(mnt := NoMount)] - Below(t, d, t[m].mnt.root)
  }

  lemma UnmountKeeps(t: Tree, d: Depths, root: NodeId, m: NodeId)
    requires Linked(t, d) && Mounted(t, root) && m in t && t[m].mnt.Mount?
    ensures Linked(Unmount(t, d, m), d) && Mounted(Unmount(t, d, m), root)
  {
    var r := t[m].mnt.root;
    var gone := Below(t, d, r);
    var u := Unmount(t, d, m);
    RootsIn(t, root, m);
    forall n | n in u ensures NodeOk(u, d, n) {
      StaysOk(t, d, r, n);
      assert NodeOk(t, d, n);
      ChildrenIn(t, d, n);
      NodeStays(t, d, u, d, n);
    }
    UnmountMounts(t, d, root, m);
  }

  lemma UnmountMounts(t: Tree, d: Depths, root: NodeId, m: NodeId)
    requires Mounted(t, root) && m in t && t[m].mnt.Mount?
    ensures Mounted(Unmount(t, d, m), root)
  {
    var u := Unmount(t, d, m);
    RootsIn(t, root, m);
    forall n | n in u && u[n].mnt.Mount? ensures u[n].mnt.root in u {
      RootsIn(t, root, n);
    }
    MountedStays(t, u, root);
  }

  /** Outside a detached tree no link leads into it. */
  lemma StaysOk(t: Tree, d: Depths, r: NodeId, n: NodeId)
    requires Linked(t, d) && r in t && t[r].parent.Nil? && n in t && n !in Below(t, d, r)
    ensures t[n].parent.To? ==> t[n].parent.id !in Below(t, d, r)
    ensures forall c :: c in t[n].children ==> c !in Below(t, d, r)
  {
    if t[n].parent.To? { ParentDepth(t, d, n); }
    forall c | c in t[n].children ensures c !in Below(t, d, r) {
      assert NodeOk(t, d, n) && ChildOk(t, d, n, c);
    }
  }

  lemma MountKeeps(t: Tree, d: Depths, root: NodeId, m: NodeId, r: NodeId, onDemand: bool)
    requires Linked(t, d) && Mounted(t, root) && m in t && t[m].mnt.NoMount? && t[m].kind.Dir? && (m == root || t[m].parent.To?)
    requires r in t && r != root && t[r].parent.Nil? && t[r].kind.Dir?
    requires forall n :: n in t && t[n].mnt.Mount? ==> t[n].mnt.root != r
    ensures Linked(t[m := t[m].(mnt := Mount(r, onDemand))], d) && Mounted(t[m := t[m].(mnt := Mount(r, onDemand))], root)
  {
    var u := t[m := t[m].(mnt := Mount(r, onDemand))];
    forall n | n in u ensures NodeOk(u, d, n) {
      assert NodeOk(t, d, n);
      ChildrenIn(t, d, n);
      NodeStays(t, d, u, d, n);
    }
    MountMounts(t, root, m, r, onDemand);
  }

  lemma MountMounts(t: Tree, root: NodeId, m: NodeId, r: NodeId, onDemand: bool)
    requires Mounted(t, root) && m in t && t[m].mnt.NoMount? && t[m].kind.Dir? && (m == root || t[m].parent.To?)
    requires r in t && r != root && t[r].parent.Nil? && t[r].kind.Dir?
    requires forall n :: n in t && t[n].mnt.Mount? ==> t[n].mnt.root != r
    ensures Mounted(t[m := t[m].(mnt := Mount(r, onDemand))], root)
  {
    var u := t[m := t[m].(mnt := Mount(r, onDemand))];
    forall n | n in u ensures MountOk(u, root, n) {
      assert MountOk(t, root, n);
    }
  }
}
