/** Paths: what a path names in a tree, mounts included. */
module VfsPath {
  import opened Common
  import opened VfsTree

  function FindName(t: Tree, s: seq<NodeId>, name: string): Link {
    if s == [] then Nil
    else if s[0] in t && t[s[0]].name == name then To(s[0])
    else FindName(t, s[1..], name)
  }

  function ChildNamed(t: Tree, n: NodeId, name: string): Link {
    if n in t then FindName(t, t[n].children, name) else Nil
  }

  lemma {:induction false} FindNameIs(t: Tree, s: seq<NodeId>, name: string)
    ensures FindName(t, s, name).To? ==> FindName(t, s, name).id in s && FindName(t, s, name).id in t && t[FindName(t, s, name).id].name == name
    ensures FindName(t, s, name).Nil? ==> forall c :: c in s && c in t ==> t[c].name != name
  {
    if s != [] { FindNameIs(t, s[1..], name); }
  }

  /** What is mounted on a node, or the node. */
  function Follow(t: Tree, n: NodeId): NodeId {
    if n in t && t[n].mnt.Mount? then t[n].mnt.root else n
  }

  /** Nothing is mounted on the root of a mounted file system. */
  lemma FollowOnce(t: Tree, root: NodeId, n: NodeId)
    requires Mounted(t, root) && n in t
    ensures Follow(t, n) in t && t[Follow(t, n)].mnt.Mount? ==> Follow(t, n) == n && t[n].mnt.NoMount?
    ensures Follow(t, n) in t
  {
    assert MountOk(t, root, n);
    if t[n].mnt.Mount? { assert MountOk(t, root, t[n].mnt.root); }
  }

  // ----- splitting a path -----

  /** The names from place i on; one '/' may end the path. */
  function Split(path: string, i: nat): seq<string>
    requires i <= |path|
    decreases |path| - i
  {
    if i == |path| then []
    else
      var e := NextOf(path, '/', i);
      [path[i..e]] + if e == |path| || e + 1 == |path| then [] else Split(path, e + 1)
  }

  function Step(t: Tree, cur: NodeId, name: string): Link {
    if name == "" then Nil else ChildNamed(t, cur, name)
  }

  /** Where names lead from cur, every mount on the way followed. */
  function Walk(t: Tree, cur: NodeId, names: seq<string>): Link {
    if names == [] then To(cur)
    else
      var s := Walk(t, cur, names[..|names| - 1]);
      if s.Nil? then Nil
      else
        var c := Step(t, s.id, names[|names| - 1]);
        if c.Nil? then Nil else To(Follow(t, c.id))
  }

  /** What the path names; a mount on the last node is followed if asked for. */
  function Resolve(t: Tree, root: NodeId, path: string, followLast: bool): Link {
    if path == "/" || path == "" then To(if followLast then Follow(t, root) else root)
    else
      var names := Split(path, 1);
      if names == [] then Nil
      else
        var s := Walk(t, Follow(t, root), names[..|names| - 1]);
        if s.Nil? then Nil
        else
          var c := Step(t, s.id, names[|names| - 1]);
          if c.Nil? then Nil else To(if followLast then Follow(t, c.id) else c.id)
  }

  lemma {:induction false} WalkStops(t: Tree, cur: NodeId, names: seq<string>, k: nat)
    requires k <= |names| && Walk(t, cur, names[..k]).Nil?
    ensures Walk(t, cur, names).Nil?
  {
    if k < |names| {
      assert names[..|names| - 1][..k] == names[..k];
      WalkStops(t, cur, names[..|names| - 1], k);
    } else {
      assert names[..k] == names;
    }
  }

  // ----- a tree that grows -----

  /** u has all that t has, and perhaps more entries. */
  ghost predicate Grew(t: Tree, u: Tree) {
    && (forall n :: n in t ==> n in u && Kept(t[n], u[n]))
    && (forall n :: n in u && n !in t ==> u[n].mnt.NoMount? && u[n].parent.To?)
  }

  predicate Kept(a: Node, b: Node) {
    && b.name == a.name && b.kind == a.kind && b.fops == a.fops && b.parent == a.parent && b.mnt == a.mnt
    && forall c :: c in a.children ==> c in b.children
  }

  lemma GrewTrans(t: Tree, u: Tree, v: Tree)
    requires Grew(t, u) && Grew(u, v)
    ensures Grew(t, v)
  {
  }

  lemma AttachGrew(t: Tree, n: NodeId, p: NodeId, name: string, kind: Kind, fops: bool)
    requires p in t && n !in t
    ensures Grew(t, Attach(t, n, p, name, kind, fops))
  {
  }

  lemma {:induction false} NameOne(t: Tree, d: Depths, n: NodeId, s: seq<NodeId>, name: string, c: NodeId)
    requires Linked(t, d) && n in t && c in t[n].children && c in t && t[c].name == name
    requires forall x :: x in s ==> x in t[n].children
    ensures FindName(t, s, name) == if c in s then To(c) else Nil
  {
    if s != [] {
      NameOne(t, d, n, s[1..], name, c);
      assert NodeOk(t, d, n);
      if s[0] in t && t[s[0]].name == name { assert s[0] == c; }
    }
  }

  /** What was found is found still. */
  lemma StepGrew(t: Tree, d: Depths, u: Tree, e: Depths, n: NodeId, name: string)
    requires Linked(t, d) && Linked(u, e) && Grew(t, u) && n in t && Step(t, n, name).To?
    ensures Step(u, n, name) == Step(t, n, name) && Step(t, n, name).id in t && Follow(u, Step(t, n, name).id) == Follow(t, Step(t, n, name).id)
  {
    FindNameIs(t, t[n].children, name);
    var c := Step(t, n, name).id;
    NameOne(u, e, n, u[n].children, name, c);
  }

  lemma {:induction false} WalkGrew(t: Tree, d: Depths, u: Tree, e: Depths, root: NodeId, cur: NodeId, names: seq<string>)
    requires Linked(t, d) && Linked(u, e) && Mounted(t, root) && Grew(t, u) && cur in t && Walk(t, cur, names).To?
    ensures Walk(u, cur, names) == Walk(t, cur, names) && Walk(t, cur, names).id in t
  {
    if names != [] {
      WalkGrew(t, d, u, e, root, cur, names[..|names| - 1]);
      var s := Walk(t, cur, names[..|names| - 1]).id;
      StepGrew(t, d, u, e, s, names[|names| - 1]);
      FollowOnce(t, root, Step(t, s, names[|names| - 1]).id);
    }
  }

  // ----- following a path name by name -----

  lemma SplitStep(path: string, i: nat)
    requires i < |path|
    ensures var e := NextOf(path, '/', i);
      Split(path, i) == [path[i..e]] + if e == |path| || e + 1 == |path| then [] else Split(path, e + 1)
  {
  }

  lemma NamesParts(names: seq<string>, done: seq<string>, name: string, rest: seq<string>)
    requires names == done + ([name] + rest)
    ensures names[..|done|] == done && names[|done|] == name && names == done + [name] + rest
  {
  }

  lemma WalkOn(t: Tree, start: NodeId, done: seq<string>, cur: NodeId, name: string)
    requires Walk(t, start, done) == To(cur) && Step(t, cur, name).To?
    ensures Walk(t, start, done + [name]) == To(Follow(t, Step(t, cur, name).id))
  {
    assert (done + [name])[..|done|] == done;
  }

  /** A name that leads nowhere. */
  lemma ResolveNone(t: Tree, root: NodeId, path: string, followLast: bool, k: nat, cur: NodeId)
    requires |path| >= 2 && k < |Split(path, 1)|
    requires Walk(t, Follow(t, root), Split(path, 1)[..k]) == To(cur) && Step(t, cur, Split(path, 1)[k]).Nil?
    ensures Resolve(t, root, path, followLast) == Nil
  {
    var names := Split(path, 1);
    if k < |names| - 1 {
      assert names[..k + 1][..k] == names[..k];
      assert Walk(t, Follow(t, root), names[..k + 1]).Nil?;
      assert names[..|names| - 1][..k + 1] == names[..k + 1];
      WalkStops(t, Follow(t, root), names[..|names| - 1], k + 1);
    }
  }

  lemma ResolveLast(t: Tree, root: NodeId, path: string, followLast: bool, k: nat, cur: NodeId)
    requires |path| >= 2 && k + 1 == |Split(path, 1)|
    requires Walk(t, Follow(t, root), Split(path, 1)[..k]) == To(cur) && Step(t, cur, Split(path, 1)[k]).To?
    ensures var c := Step(t, cur, Split(path, 1)[k]).id;
      Resolve(t, root, path, followLast) == To(if followLast then Follow(t, c) else c)
  {
  }

  lemma ResolveRoot(t: Tree, root: NodeId, followLast: bool)
    ensures Resolve(t, root, "/", followLast) == To(if followLast then Follow(t, root) else root)
  {
  }

  lemma WalkNone(t: Tree, start: NodeId)
    ensures Walk(t, start, []) == To(start)
  {
  }

  lemma StepIs(t: Tree, cur: NodeId, name: string)
    ensures Step(t, cur, name) == if name == "" then Nil else ChildNamed(t, cur, name)
  {
  }

  /** What a name leads to is a child. */
  lemma StepChild(t: Tree, d: Depths, cur: NodeId, name: string)
    requires Linked(t, d) && Step(t, cur, name).To?
    ensures Step(t, cur, name).id in t && t[Step(t, cur, name).id].parent == To(cur)
  {
    FindNameIs(t, t[cur].children, name);
    assert NodeOk(t, d, cur) && ChildOk(t, d, cur, Step(t, cur, name).id);
  }
}
