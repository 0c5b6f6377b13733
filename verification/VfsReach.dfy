/** Which nodes can be come by from the root, over child links and mounts.  What
    no longer can is lost: no path leads to it, and no umount will free it. */
module VfsReach {
  import opened Common
  import opened VfsTree
  import opened VfsPath
  import opened Vfs

  /** From a to one of its children, or to what is mounted on it. */
  predicate Goes(t: Tree, a: NodeId, b: NodeId) {
    a in t && b in t && (b in t[a].children || (t[a].mnt.Mount? && t[a].mnt.root == b))
  }

  ghost predicate Way(t: Tree, w: seq<NodeId>, n: NodeId) {
    w != [] && w[0] in t && w[|w| - 1] == n && forall i :: 0 <= i < |w| - 1 ==> Goes(t, w[i], w[i + 1])
  }

  ghost predicate Reached(t: Tree, root: NodeId, n: NodeId) {
    exists w: seq<NodeId> :: Way(t, w, n) && w[0] == root
  }

  /** What could be reached in t and is still there in u can still be reached. */
  ghost predicate NoneLost(t: Tree, u: Tree, root: NodeId) {
    forall n :: n in u && Reached(t, root, n) ==> Reached(u, root, n)
  }

  lemma WayOn(t: Tree, w: seq<NodeId>, n: NodeId, m: NodeId)
    requires Way(t, w, n) && Goes(t, n, m)
    ensures Way(t, w + [m], m) && (w + [m])[0] == w[0]
  {
    var v := w + [m];
    forall i | 0 <= i < |v| - 1 ensures Goes(t, v[i], v[i + 1]) {
      if i < |w| - 1 { assert Goes(t, w[i], w[i + 1]); }
    }
  }

  lemma ReachedOn(t: Tree, root: NodeId, n: NodeId, m: NodeId)
    requires Reached(t, root, n) && Goes(t, n, m)
    ensures Reached(t, root, m)
  {
    var w :| Way(t, w, n) && w[0] == root;
    WayOn(t, w, n, m);
  }

  lemma WayBack(t: Tree, w: seq<NodeId>, n: NodeId)
    requires Way(t, w, n) && |w| > 1
    ensures Way(t, w[..|w| - 1], w[|w| - 2]) && Goes(t, w[|w| - 2], n)
  {
    assert Goes(t, w[|w| - 2], w[|w| - 2 + 1]);
  }

  lemma WayIn(t: Tree, w: seq<NodeId>, n: NodeId, i: nat)
    requires Way(t, w, n) && i < |w|
    ensures w[i] in t
  {
    if i > 0 { assert Goes(t, w[i - 1], w[i - 1 + 1]); }
  }

  /** A root that nothing but a mount leads to is not reached without one. */
  lemma NoWay(t: Tree, d: Depths, root: NodeId, r: NodeId)
    requires Linked(t, d) && r in t && r != root && t[r].parent.Nil?
    requires forall m :: m in t && t[m].mnt.Mount? ==> t[m].mnt.root != r
    ensures !Reached(t, root, r)
  {
    if Reached(t, root, r) {
      var w :| Way(t, w, r) && w[0] == root;
      WayBack(t, w, r);
      var x := w[|w| - 2];
      assert NodeOk(t, d, x);
      ChildrenIn(t, d, x);
    }
  }

  lemma CutReads(t: Tree, d: Depths, n: NodeId)
    requires Linked(t, d) && n in t && t[n].parent.To? && t[n].children == [] && t[n].parent.id in t
    ensures var u := Cut(t, n);
      && (forall m :: m in u <==> m in t && m != n)
      && (forall m :: m in u ==> u[m].mnt == t[m].mnt && u[m].parent == t[m].parent)
      && (forall m, c :: m in u ==> (c in u[m].children <==> c in t[m].children && c != n))
  {
    var u, p := Cut(t, n), t[n].parent.id;
    assert NodeOk(t, d, n);
    ParentDepth(t, d, n);
    forall m, c | m in u ensures c in u[m].children <==> c in t[m].children && c != n {
      assert NodeOk(t, d, m);
      ChildrenIn(t, d, m);
    }
  }

  lemma CutKept(t: Tree, d: Depths, n: NodeId, w: seq<NodeId>, m: NodeId)
    requires Linked(t, d) && n in t && t[n].parent.To? && t[n].children == [] && t[n].parent.id in t && t[n].mnt.NoMount?
    requires Way(t, w, m) && m != n
    ensures Way(Cut(t, n), w, m)
  {
    hide Cut;
    var u := Cut(t, n);
    CutReads(t, d, n);
    forall i | 0 <= i < |w| ensures w[i] in u {
      WayIn(t, w, m, i);
      if i < |w| - 1 { assert Goes(t, w[i], w[i + 1]); }
    }
    forall i | 0 <= i < |w| - 1 ensures Goes(u, w[i], w[i + 1]) {
      assert Goes(t, w[i], w[i + 1]) && w[i + 1] in u;
    }
  }

  /** Unlinking a directory loses what is mounted on it, and nothing otherwise. */
  lemma CutLoses(t: Tree, d: Depths, root: NodeId, n: NodeId)
    requires Linked(t, d) && Mounted(t, root) && Reached(t, root, n)
    requires n in t && t[n].parent.To? && t[n].children == [] && t[n].parent.id in t
    ensures NoneLost(t, Cut(t, n), root) <==> t[n].mnt.NoMount?
  {
    hide Cut;
    var u := Cut(t, n);
    CutReads(t, d, n);
    CutKeeps(t, d, root, n);
    if t[n].mnt.NoMount? {
      forall m | m in u && Reached(t, root, m) ensures Reached(u, root, m) {
        var w :| Way(t, w, m) && w[0] == root;
        CutKept(t, d, n, w, m);
      }
    } else {
      var r := t[n].mnt.root;
      RootsIn(t, root, n);
      ReachedOn(t, root, n, r);
      NoWay(u, d, root, r);
    }
  }

  // ----- umount -----

  /** A mounted tree is entered by its mount point. */
  lemma {:induction false} EnteredBy(t: Tree, d: Depths, root: NodeId, mp: NodeId, w: seq<NodeId>, x: NodeId) returns (i: nat)
    requires Linked(t, d) && Mounted(t, root) && mp in t && t[mp].mnt.Mount?
    requires Way(t, w, x) && w[0] == root && Under(t, d, x, t[mp].mnt.root)
    ensures i < |w| - 1 && w[i] == mp
    decreases |w|
  {
    var r := t[mp].mnt.root;
    RootsIn(t, root, mp);
    if |w| > 1 {
      WayBack(t, w, x);
      var y := w[|w| - 2];
      assert NodeOk(t, d, y) && MountOk(t, root, y);
      if x in t[y].children {
        assert ChildOk(t, d, y, x);
        i := EnteredBy(t, d, root, mp, w[..|w| - 1], y);
      } else {
        i := |w| - 2;
      }
    }
  }

  /** A mount point that is reached lies outside of what is mounted on it. */
  lemma {:induction false} Outside(t: Tree, d: Depths, root: NodeId, mp: NodeId, w: seq<NodeId>)
    requires Linked(t, d) && Mounted(t, root) && mp in t && t[mp].mnt.Mount? && Way(t, w, mp) && w[0] == root
    ensures !Under(t, d, mp, t[mp].mnt.root)
    decreases |w|
  {
    if Under(t, d, mp, t[mp].mnt.root) {
      var i := EnteredBy(t, d, root, mp, w, mp);
      var v := w[..i + 1];
      assert forall j :: 0 <= j < |v| - 1 ==> Goes(t, w[j], w[j + 1]);
      Outside(t, d, root, mp, v);
    }
  }

  lemma {:induction false} ReachedBelow(t: Tree, d: Depths, root: NodeId, r: NodeId, n: NodeId)
    requires Linked(t, d) && Reached(t, root, r) && n in t && r in t && Under(t, d, n, r)
    ensures Reached(t, root, n)
    decreases if n in d then d[n] else 0
  {
    if n != r {
      ParentDepth(t, d, n);
      assert NodeOk(t, d, n);
      ReachedBelow(t, d, root, r, t[n].parent.id);
      ReachedOn(t, root, t[n].parent.id, n);
    }
  }

  /** From inside a tree with no mounts in it no way leads out. */
  lemma StaysInside(t: Tree, d: Depths, r: NodeId, x: NodeId, y: NodeId)
    requires Linked(t, d) && Goes(t, x, y) && Under(t, d, x, r) && t[x].mnt.NoMount?
    ensures Under(t, d, y, r)
  {
    assert NodeOk(t, d, x);
    assert ChildOk(t, d, x, y);
    ParentDepth(t, d, y);
  }

  /** Unmounting loses the trees that are mounted inside, and nothing otherwise. */
  lemma UnmountLoses(t: Tree, d: Depths, root: NodeId, mp: NodeId)
    requires Linked(t, d) && Mounted(t, root) && mp in t && t[mp].mnt.Mount? && Reached(t, root, mp)
    ensures NoneLost(t, Unmount(t, d, mp), root) <==> forall m :: m in Below(t, d, t[mp].mnt.root) ==> t[m].mnt.NoMount?
  {
    var r, u := t[mp].mnt.root, Unmount(t, d, mp);
    if forall m :: m in Below(t, d, r) ==> t[m].mnt.NoMount? {
      forall n | n in u && Reached(t, root, n) ensures Reached(u, root, n) {
        var w :| Way(t, w, n) && w[0] == root;
        WayKept(t, d, root, mp, w, n);
      }
    } else {
      var m :| m in Below(t, d, r) && t[m].mnt.Mount?;
      InnerLost(t, d, root, mp, m);
    }
  }

  lemma {:induction false} WayKept(t: Tree, d: Depths, root: NodeId, mp: NodeId, w: seq<NodeId>, n: NodeId)
    requires Linked(t, d) && Mounted(t, root) && mp in t && t[mp].mnt.Mount?
    requires forall m :: m in Below(t, d, t[mp].mnt.root) ==> t[m].mnt.NoMount?
    requires Way(t, w, n) && w[0] == root && n in Unmount(t, d, mp)
    ensures Way(Unmount(t, d, mp), w, n)
    decreases |w|
  {
    var r, u := t[mp].mnt.root, Unmount(t, d, mp);
    RootsIn(t, root, mp);
    if |w| > 1 {
      WayBack(t, w, n);
      var y, v := w[|w| - 2], w[..|w| - 1];
      if y in Below(t, d, r) { StaysInside(t, d, r, y, n); }
      WayKept(t, d, root, mp, v, y);
      assert Goes(u, y, n);
      WayOn(u, v, y, n);
      assert v + [n] == w;
    }
  }

  lemma InnerStays(t: Tree, d: Depths, root: NodeId, mp: NodeId, m: NodeId)
    requires Mounted(t, root) && mp in t && t[mp].mnt.Mount?
    requires m in Below(t, d, t[mp].mnt.root) && t[m].mnt.Mount? && t[m].mnt.root != t[mp].mnt.root
    ensures var u, r := Unmount(t, d, mp), t[m].mnt.root;
      && r in u && u[r].parent.Nil? && r != root
      && forall x :: x in u && u[x].mnt.Mount? ==> u[x].mnt.root != r
  {
    RootsIn(t, root, m);
  }

  lemma InnerLost(t: Tree, d: Depths, root: NodeId, mp: NodeId, m: NodeId)
    requires Linked(t, d) && Mounted(t, root) && mp in t && t[mp].mnt.Mount? && Reached(t, root, mp)
    requires m in Below(t, d, t[mp].mnt.root) && t[m].mnt.Mount?
    ensures var u, r := Unmount(t, d, mp), t[m].mnt.root;
      r in u && Reached(t, root, r) && !Reached(u, root, r)
  {
    var top, r, u := t[mp].mnt.root, t[m].mnt.root, Unmount(t, d, mp);
    RootsIn(t, root, mp);
    RootsIn(t, root, m);
    var w :| Way(t, w, mp) && w[0] == root;
    Outside(t, d, root, mp, w);
    assert r != top;
    ReachedOn(t, root, mp, top);
    ReachedBelow(t, d, root, top, m);
    ReachedOn(t, root, m, r);
    InnerStays(t, d, root, mp, m);
    UnmountKeeps(t, d, root, mp);
    hide Unmount, Under;
    NoWay(u, d, root, r);
  }

  // ----- a run that loses a tree -----

  /** A directory "a", with a file system mounted on it. */
  const MOUNTED: Tree := map[
    0 := Node("/", Dir, false, Nil, [1], NoMount),
    1 := Node("a", Dir, false, To(0), [], Mount(2, false)),
    2 := Node("fs", Dir, false, Nil, [], NoMount)
  ]

  /** A directory is made, something is mounted on it, and the directory is
      unlinked. */
  method LosesMount() returns (fs: FileSystem)
    ensures fs.Valid() && fs.root == 0 && fs.nodes == Cut(MOUNTED, 1)
    ensures Reached(MOUNTED, 0, 2) && 2 in fs.nodes && !Reached(fs.nodes, 0, 2)
  {
    hide *;
    IsMounted();
    Making();
    fs := new FileSystem(0);
    var dir := fs.Mknod(To(0), "a", Dir, false, To(1));
    var top := fs.AllocDirNode("fs", To(2));
    var err := fs.TryMount(1, FsType("fs", false, Rooted(2, false)), true);
    MountedIs(fs.nodes);
    err := fs.Unlink(To(0), "a");
    ValidIs(fs);
    NotMounted();
    NoWay(fs.nodes, fs.depth, 0, 2);
  }

  const MADE: Tree := map[0 := Node("/", Dir, false, Nil, [], NoMount)]

  lemma Making()
    ensures MADE == map[0 := Node("/", Dir, false, Nil, [], NoMount)]
    ensures ChildNamed(MADE, 0, "a").Nil? && NameValid("a") && NameValid("fs") && 1 !in MADE
    ensures var t := Attach(MADE, 1, 0, "a", Dir, false); 2 !in t && 1 in Alloc(t, 2, "fs", Dir, false)
    ensures var t := Alloc(Attach(MADE, 1, 0, "a", Dir, false), 2, "fs", Dir, false);
      && t[1].mnt.NoMount? && t[1].kind == Dir && t[1].parent.To?
      && Makes(t, 0, FsType("fs", false, Rooted(2, false)))
  {
  }

  lemma MountedIs(u: Tree)
    requires var t := Alloc(Attach(MADE, 1, 0, "a", Dir, false), 2, "fs", Dir, false); MountedOn(t, 1, Rooted(2, false), u)
    ensures u == MOUNTED
  {
    assert [1] + MADE[0].children == [1];
  }

  lemma ValidIs(fs: FileSystem)
    requires fs.Valid()
    ensures Linked(fs.nodes, fs.depth)
  {
  }

  lemma NotMounted()
    ensures var u := Cut(MOUNTED, 1);
      && 2 in u && u[2].parent.Nil? && forall m :: m in u && u[m].mnt.Mount? ==> u[m].mnt.root != 2
  {
  }

  lemma IsMounted()
    ensures UnlinkError(MOUNTED, [], To(0), "a") == 0 && ChildNamed(MOUNTED, 0, "a") == To(1)
    ensures 0 in MOUNTED && Reached(MOUNTED, 0, 2) && TryError(FsType("fs", false, Rooted(2, false)), true) == 0
  {
    assert Goes(MOUNTED, 0, 1) && Goes(MOUNTED, 1, 2);
    assert Way(MOUNTED, [0, 1, 2], 2);
  }
}
