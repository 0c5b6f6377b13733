/** The file system core: the node tree, the open files and the mounts. */
module Vfs {
  import opened Common
  import opened VfsTree
  import opened VfsPath

  const ENOENT := 2
  const EBADF := 9
  const ENOMEM := 12
  const EBUSY := 16
  const ENODEV := 19
  const ENOTDIR := 20
  const EISDIR := 21
  const EMFILE := 24
  const ENOTEMPTY := 66

  /** One more than the largest int. */
  const FDS := 0x8000_0000

  datatype File = File(fd: int, node: NodeId, pos: nat, flags: nat)

  /** No two open files have the same descriptor, and each one's node is there. */
  ghost predicate FilesOk(files: seq<File>, t: Tree) {
    && (forall i :: 0 <= i < |files| ==> 0 <= files[i].fd < FDS && files[i].node in t)
    && (forall i, j :: 0 <= i < j < |files| ==> files[i].fd != files[j].fd)
  }

  predicate Used(files: seq<File>, fd: int) {
    exists i :: 0 <= i < |files| && files[i].fd == fd
  }

  /** The descriptor that is k after start, as the counter goes round. */
  function Round(start: int, k: nat): int
    requires 0 <= start < FDS && k <= FDS
  {
    if start + k < FDS then start + k else start + k - FDS
  }

  /** r is the first descriptor from start on that is free. */
  ghost predicate FirstFree(files: seq<File>, start: int, k: nat, r: int) {
    && 0 <= start < FDS && k < FDS && r == Round(start, k) && !Used(files, r)
    && forall i: nat :: i < k ==> Used(files, Round(start, i))
  }

  predicate NameValid(name: string) { name != "" && '/' !in name }

  predicate PathValid(path: string) { path != "" && path[0] == '/' }

  lemma FilesGrew(files: seq<File>, t: Tree, u: Tree)
    requires FilesOk(files, t) && Grew(t, u)
    ensures FilesOk(files, u)
  {
  }

  lemma FilesStay(files: seq<File>, t: Tree, u: Tree)
    requires FilesOk(files, t) && forall i :: 0 <= i < |files| ==> files[i].node in u
    ensures FilesOk(files, u)
  {
  }

  lemma LessAt<T>(s: seq<T>, k: nat, i: nat)
    requires k < |s| && i < |s| - 1
    ensures (s[..k] + s[k + 1..])[i] == s[if i < k then i else i + 1]
  {
  }

  lemma FilesLess(files: seq<File>, t: Tree, k: nat)
    requires FilesOk(files, t) && k < |files|
    ensures FilesOk(files[..k] + files[k + 1..], t)
    ensures !Used(files[..k] + files[k + 1..], files[k].fd)
    ensures forall f :: f in files && f.fd != files[k].fd ==> f in files[..k] + files[k + 1..]
  {
    var less := files[..k] + files[k + 1..];
    forall i | 0 <= i < |less| ensures less[i] == files[if i < k then i else i + 1] {
      LessAt(files, k, i);
    }
    forall f | f in files && f.fd != files[k].fd ensures f in less {
      var i :| 0 <= i < |files| && files[i] == f;
      assert less[if i < k then i else i - 1] == f;
    }
  }

  lemma {:induction false} WithoutAt(s: seq<NodeId>, k: nat)
    requires NoDup(s) && k < |s|
    ensures Without(s, s[k]) == s[..k] + s[k + 1..]
  {
    if k > 0 {
      WithoutAt(s[1..], k - 1);
      assert s[..k] + s[k + 1..] == [s[0]] + (s[1..][..k - 1] + s[1..][k..]);
    } else {
      WithoutNone(s[1..], s[0]);
      assert s[..0] + s[1..] == s[1..];
    }
  }

  /** Whether any open file is of node n. */
  predicate OpenOn(files: seq<File>, n: NodeId) {
    exists i :: 0 <= i < |files| && files[i].node == n
  }

  /** Whether any open file is below r. */
  predicate OpenBelow(files: seq<File>, t: Tree, d: Depths, r: NodeId) {
    exists i :: 0 <= i < |files| && Under(t, d, files[i].node, r)
  }

  /** The error of vfs_unlink, in the order in which it looks. */
  function UnlinkError(t: Tree, files: seq<File>, parent: Link, name: string): int
    requires parent.To? ==> parent.id in t
  {
    if parent.Nil? || !NameValid(name) then -EINVAL
    else if !t[parent.id].kind.Dir? then -ENOTDIR
    else
      var c := ChildNamed(t, parent.id, name);
      if c.Nil? then -ENOENT
      else if c.id in t && t[c.id].children != [] then -ENOTEMPTY
      else if OpenOn(files, c.id) then -EBUSY
      else 0
  }

  ghost predicate Freeable(t: Tree, parent: Link, name: string) {
    && parent.To? && parent.id in t && ChildNamed(t, parent.id, name).To?
    && var n := ChildNamed(t, parent.id, name).id;
    n in t && t[n].parent == parent && t[n].children == []
  }

  /** A registered file system: whether it lives on a block device, and what its
      mount operation does with the source it is given. */
  datatype FsType = FsType(name: string, device: bool, attempt: Attempt)

  /** A root that the operation has made with vfs_alloc_dir_node, an error, or
      success without a root. */
  datatype Attempt = Rooted(root: NodeId, onDemand: bool) | Refused(err: int) | Rootless

  /** A tree of its own that nothing is mounted from yet. */
  ghost predicate Detached(t: Tree, root: NodeId, r: NodeId) {
    && r in t && r != root && t[r].parent.Nil? && t[r].kind.Dir?
    && forall n :: n in t && t[n].mnt.Mount? ==> t[n].mnt.root != r
  }

  ghost predicate Makes(t: Tree, root: NodeId, f: FsType) {
    f.attempt.Rooted? ==> Detached(t, root, f.attempt.root)
  }

  ghost predicate AllMake(t: Tree, root: NodeId, types: seq<FsType>) {
    forall i :: 0 <= i < |types| ==> Makes(t, root, types[i])
  }

  lemma MakesGrew(t: Tree, u: Tree, root: NodeId, types: seq<FsType>)
    requires AllMake(t, root, types) && Grew(t, u)
    ensures AllMake(u, root, types)
  {
    forall i | 0 <= i < |types| ensures Makes(u, root, types[i]) {
      assert Makes(t, root, types[i]);
    }
  }

  /** Which file system vfs_mount takes: the named one, or the first on a block
      device that accepts. */
  datatype Wanted = ByName(name: string) | Any

  /** What vfs_try_mount answers for a file system. */
  function TryError(f: FsType, memory: bool): int {
    if !memory then -ENOMEM
    else if f.attempt.Refused? && f.attempt.err != 0 then f.attempt.err
    else if f.attempt.Rooted? then 0
    else -EINVAL
  }

  /** The file system that is mounted: the first of that name, or the first on a
      block device that accepts; the number of them if there is none. */
  function Chosen(types: seq<FsType>, wanted: Wanted, memory: bool): (k: nat)
    ensures k <= |types|
    ensures wanted.ByName? ==> (k < |types| ==> types[k].name == wanted.name) && forall i :: 0 <= i < k ==> types[i].name != wanted.name
    ensures wanted.Any? ==>
      && (k < |types| ==> types[k].device && TryError(types[k], memory) == 0)
      && forall i :: 0 <= i < k ==> !types[i].device || TryError(types[i], memory) != 0
  {
    if types == [] then 0
    else if (if wanted.ByName? then types[0].name == wanted.name else types[0].device && TryError(types[0], memory) == 0) then 0
    else 1 + Chosen(types[1..], wanted, memory)
  }

  lemma ChosenIs(types: seq<FsType>, wanted: Wanted, memory: bool, k: nat)
    requires k <= |types|
    requires wanted.ByName? ==> (k < |types| ==> types[k].name == wanted.name) && forall i :: 0 <= i < k ==> types[i].name != wanted.name
    requires wanted.Any? ==>
      && (k < |types| ==> types[k].device && TryError(types[k], memory) == 0)
      && forall i :: 0 <= i < k ==> !types[i].device || TryError(types[i], memory) != 0
    ensures Chosen(types, wanted, memory) == k
  {
    var c := Chosen(types, wanted, memory);
  }

  /** The error of vfs_mount, in the order in which it looks. */
  function MountError(t: Tree, root: NodeId, target: string, wanted: Wanted, types: seq<FsType>, memory: bool): int
  {
    if !PathValid(target) then -EINVAL
    else
      match Resolve(t, root, target, false)
      case Nil => -ENOENT
      case To(mp) =>
        if mp in t && t[mp].kind != Dir then -ENOTDIR
        else if mp in t && t[mp].mnt.Mount? then -EBUSY
        else if Chosen(types, wanted, memory) == |types| then -ENODEV
        else TryError(types[Chosen(types, wanted, memory)], memory)
  }

  /** The error of vfs_umount. */
  ghost function UmountError(t: Tree, d: Depths, files: seq<File>, root: NodeId, target: string): int
  {
    if !PathValid(target) then -EINVAL
    else
      match Resolve(t, root, target, false)
      case Nil => -ENOENT
      case To(mp) =>
        if mp in t && t[mp].mnt.NoMount? then -EINVAL
        else if mp in t && t[mp].mnt.Mount? && OpenBelow(files, t, d, t[mp].mnt.root) then -EBUSY
        else 0
  }

  /** The error of vfs_open, or what the node's open operation answers. */
  function OpenError(t: Tree, root: NodeId, files: seq<File>, path: string, memory: bool, answer: int): int
  {
    if !PathValid(path) then -ENOENT
    else
      match Resolve(t, root, path, true)
      case Nil => -ENOENT
      case To(n) =>
        if n in t && t[n].kind == Dir then -EISDIR
        else if forall fd :: 0 <= fd < FDS ==> Used(files, fd) then -EMFILE
        else if !memory then -ENOMEM
        else if n in t && t[n].fops then answer
        else 0
  }

  lemma MountErrorIs(t: Tree, root: NodeId, target: string, wanted: Wanted, types: seq<FsType>, memory: bool)
    ensures var e, l, k := MountError(t, root, target, wanted, types, memory), Resolve(t, root, target, false), Chosen(types, wanted, memory);
      && k <= |types|
      && (!PathValid(target) ==> e == -EINVAL) && (PathValid(target) && l.Nil? ==> e == -ENOENT)
      && (PathValid(target) && l.To? && l.id in t ==>
            e == if t[l.id].kind != Dir then -ENOTDIR else if t[l.id].mnt.Mount? then -EBUSY
                 else if k == |types| then -ENODEV else TryError(types[k], memory))
  {
  }

  lemma UmountErrorIs(t: Tree, d: Depths, files: seq<File>, root: NodeId, target: string)
    ensures var e, l := UmountError(t, d, files, root, target), Resolve(t, root, target, false);
      && (!PathValid(target) ==> e == -EINVAL) && (PathValid(target) && l.Nil? ==> e == -ENOENT)
      && (PathValid(target) && l.To? && l.id in t ==>
            e == if t[l.id].mnt.NoMount? then -EINVAL else if OpenBelow(files, t, d, t[l.id].mnt.root) then -EBUSY else 0)
  {
  }

  lemma OpenErrorIs(t: Tree, root: NodeId, files: seq<File>, path: string, memory: bool, answer: int)
    ensures var e, l := OpenError(t, root, files, path, memory, answer), Resolve(t, root, path, true);
      && (!PathValid(path) ==> e == -ENOENT) && (PathValid(path) && l.Nil? ==> e == -ENOENT)
      && (PathValid(path) && l.To? && l.id in t ==>
            e == if t[l.id].kind == Dir then -EISDIR else if forall fd :: 0 <= fd < FDS ==> Used(files, fd) then -EMFILE
                 else if !memory then -ENOMEM else if t[l.id].fops then answer else 0)
  {
  }

  /** What a successful mount does to the tree. */
  ghost predicate MountedOn(t: Tree, mp: NodeId, a: Attempt, u: Tree) {
    mp in t && a.Rooted? && u == t[mp := t[mp].(mnt := Mount(a.root, a.onDemand))]
  }

  /** What a successful umount does: nothing in the mounted tree was open, and all
      of it is freed. */
  ghost predicate UnmountedFrom(t: Tree, d: Depths, files: seq<File>, mp: NodeId, u: Tree) {
    mp in t && t[mp].mnt.Mount? && !OpenBelow(files, t, d, t[mp].mnt.root) && u == Unmount(t, d, mp)
  }

  class FileSystem {
    const root: NodeId
    var nodes: Tree
    /** Newest first. */
    var files: seq<File>
    var nextFd: int
    ghost var depth: Depths

    ghost predicate TreeOk()
      reads this`nodes, this`depth
    {
      Linked(nodes, depth) && Mounted(nodes, root)
    }

    ghost predicate Valid()
      reads this
    {
      TreeOk() && FilesOk(files, nodes) && 0 <= nextFd < FDS
    }

    /** vfs_init */
    constructor (r: NodeId)
      ensures Valid() && root == r && files == [] && nodes == map[r := Node("/", Dir, false, Nil, [], NoMount)]
    {
      root := r;
      nodes := map[r := Node("/", Dir, false, Nil, [], NoMount)];
      files := [];
      nextFd := 0;
      depth := map[r := 0];
      new;
      assert NodeOk(nodes, depth, r) && MountOk(nodes, root, r);
    }

    // ----- descriptors -----

    /** vfs_find_file: the place in the list, or -1. */
    method FindFile(fd: int) returns (k: int)
      ensures -1 <= k < |files| && (k >= 0 ==> files[k].fd == fd) && (k < 0 ==> !Used(files, fd))
    {
      k := 0;
      while k < |files|
        invariant 0 <= k <= |files| && forall i :: 0 <= i < k ==> files[i].fd != fd
      {
        if files[k].fd == fd {
          return;
        }
        k := k + 1;
      }
      k := -1;
    }

    /** vfs_alloc_fd: the first descriptor from the counter on that is free; there
        is none only when all are taken. */
    method AllocFd() returns (r: int)
      requires 0 <= nextFd < FDS
      modifies this`nextFd
      ensures 0 <= nextFd < FDS
      ensures r >= 0 ==> 0 <= r < FDS && !Used(files, r) && nextFd == Round(r, 1) && exists k: nat :: FirstFree(files, old(nextFd), k, r)
      ensures r < 0 ==> r == -EMFILE && forall fd :: 0 <= fd < FDS ==> Used(files, fd)
    {
      var start := nextFd;
      ghost var k: nat := 0;
      while true
        invariant start == old(nextFd) && 0 <= nextFd < FDS && k < FDS && nextFd == Round(start, k)
        invariant forall i: nat :: i < k ==> Used(files, Round(start, i))
        decreases FDS - k
      {
        var found := FindFile(nextFd);
        if found < 0 {
          r := nextFd;
          nextFd := if nextFd + 1 == FDS then 0 else nextFd + 1;
          assert FirstFree(files, old(nextFd), k, r);
          return;
        }
        nextFd := if nextFd + 1 == FDS then 0 else nextFd + 1;
        k := k + 1;
        if nextFd == start {
          break;
        }
      }
      forall fd | 0 <= fd < FDS ensures Used(files, fd) {
        var i: nat := if start <= fd then fd - start else fd - start + FDS;
        assert fd == Round(start, i);
      }
      r := -EMFILE;
    }

    // ----- nodes -----

    /** vfs_find_child_by_name */
    method FindChild(parent: NodeId, name: string) returns (c: Link)
      requires parent in nodes && forall x :: x in nodes[parent].children ==> x in nodes
      ensures c == ChildNamed(nodes, parent, name)
    {
      var s := nodes[parent].children;
      var i := 0;
      while i < |s|
        invariant 0 <= i <= |s| && FindName(nodes, s, name) == FindName(nodes, s[i..], name)
      {
        if nodes[s[i]].name == name {
          return To(s[i]);
        }
        i := i + 1;
      }
      c := Nil;
    }

    /** vfs_follow_mount_mnt */
    method FollowMount(n: NodeId, m: Mount) returns (r: NodeId, mnt: Mount)
      requires n in nodes && Mounted(nodes, root)
      ensures r == Follow(nodes, n) && r in nodes && (mnt == m || mnt == nodes[n].mnt)
    {
      r, mnt := n, m;
      FollowOnce(nodes, root, n);
      while nodes[r].mnt.Mount?
        invariant r in nodes && ((r == n && mnt == m) || (r == Follow(nodes, n) && nodes[r].mnt.NoMount? && mnt == nodes[n].mnt))
        decreases if nodes[r].mnt.Mount? then 1 else 0
      {
        mnt := nodes[r].mnt;
        r := nodes[r].mnt.root;
      }
    }

    /** vfs_create_node: memory is what malloc has found. */
    method CreateNode(parent: Link, name: string, kind: Kind, fops: bool, memory: Link) returns (r: Link)
      requires TreeOk() && (parent.To? ==> parent.id in nodes) && (memory.To? ==> memory.id !in nodes)
      modifies this`nodes, this`depth
      ensures TreeOk() && Grew(old(nodes), nodes)
      ensures r == if parent.Nil? || !NameValid(name) || !old(nodes)[parent.id].kind.Dir?
                      || ChildNamed(old(nodes), parent.id, name).To? || (!kind.Dir? && !fops) then Nil else memory
      ensures r.To? ==> parent.To? && parent.id in old(nodes) && nodes == Attach(old(nodes), r.id, parent.id, name, kind, fops)
      ensures r.Nil? ==> nodes == old(nodes)
    {
      hide *;
      GrewSame(nodes);
      if parent.Nil? || !NameValid(name) {
        return Nil;
      }
      if nodes[parent.id].kind != Dir {
        return Nil;
      }
      TreeParts();
      ChildrenThere(parent.id);
      var c := FindChild(parent.id, name);
      if c.To? {
        return Nil;
      }
      if kind != Dir && !fops {
        return Nil;
      }
      if memory.Nil? {
        return Nil;
      }
      NoneNamed(parent.id, name);
      AttachKeeps(nodes, depth, root, memory.id, parent.id, name, kind, fops);
      AttachGrew(nodes, memory.id, parent.id, name, kind, fops);
      AttachIs(nodes, memory.id, parent.id, name, kind, fops);
      depth := depth[memory.id := depth[parent.id] + 1];
      nodes := nodes[memory.id := Node(name, kind, fops, parent, [], NoMount)];
      nodes := nodes[parent.id := nodes[parent.id].(children := [memory.id] + nodes[parent.id].children)];
      TreeFrom();
      return memory;
    }

    lemma GrewSame(t: Tree)
      ensures Grew(t, t)
    {
    }

    lemma AttachIs(t: Tree, n: NodeId, p: NodeId, name: string, kind: Kind, fops: bool)
      requires p in t && n != p
      ensures var u := t[n := Node(name, kind, fops, To(p), [], NoMount)];
        Attach(t, n, p, name, kind, fops) == u[p := u[p].(children := [n] + u[p].children)]
    {
    }

    lemma TreeParts()
      requires TreeOk()
      ensures Linked(nodes, depth) && Mounted(nodes, root)
    {
    }

    lemma TreeFrom()
      requires Linked(nodes, depth) && Mounted(nodes, root)
      ensures TreeOk()
    {
    }

    lemma ChildrenThere(n: NodeId)
      requires TreeOk() && n in nodes
      ensures forall x :: x in nodes[n].children ==> x in nodes
    {
      assert NodeOk(nodes, depth, n);
      ChildrenIn(nodes, depth, n);
    }

    lemma NoneNamed(n: NodeId, name: string)
      requires n in nodes && ChildNamed(nodes, n, name).Nil?
      ensures forall c :: c in nodes[n].children && c in nodes ==> nodes[c].name != name
    {
      FindNameIs(nodes, nodes[n].children, name);
    }

    /** vfs_alloc_dir_node: a directory in no tree yet, for a file system's root. */
    method AllocDirNode(name: string, memory: Link) returns (r: Link)
      requires Valid() && (memory.To? ==> memory.id !in nodes)
      modifies this`nodes, this`depth
      ensures Valid() && r == if NameValid(name) then memory else Nil
      ensures nodes == if r.To? then Alloc(old(nodes), r.id, name, Dir, false) else old(nodes)
    {
      if !NameValid(name) || memory.Nil? {
        return Nil;
      }
      AllocKeeps(nodes, depth, root, memory.id, name, Dir, false);
      nodes, depth := Alloc(nodes, memory.id, name, Dir, false), depth[memory.id := 0];
      return memory;
    }

    /** vfs_mknod, and vfs_mkdir with kind Dir */
    method Mknod(parent: Link, name: string, kind: Kind, fops: bool, memory: Link) returns (r: Link)
      requires Valid() && (parent.To? ==> parent.id in nodes) && (memory.To? ==> memory.id !in nodes)
      modifies this`nodes, this`depth
      ensures Valid() && Grew(old(nodes), nodes)
      ensures r == if parent.Nil? || !NameValid(name) || !old(nodes)[parent.id].kind.Dir?
                      || ChildNamed(old(nodes), parent.id, name).To? || (!kind.Dir? && !fops) then Nil else memory
      ensures r.To? ==> parent.To? && parent.id in old(nodes) && nodes == Attach(old(nodes), r.id, parent.id, name, kind, fops)
      ensures r.Nil? ==> nodes == old(nodes)
    {
      r := CreateNode(parent, name, kind, fops, memory);
      FilesGrew(files, old(nodes), nodes);
    }

    // ----- lookup -----

    /** The lookup operation of a file system that materializes its entries: it
        makes the entry with vfs_mknod, or finds none. */
    method OnDemand(dir: NodeId, name: string) returns (r: Link)
      requires Valid() && dir in nodes
      modifies this`nodes, this`depth
      ensures Valid() && Grew(old(nodes), nodes)
      ensures r.To? ==> r.id in nodes && ChildNamed(nodes, dir, name) == r && name != ""
      ensures r.Nil? ==> nodes == old(nodes)
    {
      var kind: Kind := *;
      var fops: bool := *;
      var memory: Link := *;
      if memory.To? && memory.id in nodes {
        memory := Nil;
      }
      r := Mknod(To(dir), name, kind, fops, memory);
      if r.To? { AttachFinds(old(nodes), r.id, dir, name, kind, fops); }
    }

    lemma AttachFinds(t: Tree, n: NodeId, p: NodeId, name: string, kind: Kind, fops: bool)
      requires p in t && n != p
      ensures ChildNamed(Attach(t, n, p, name, kind, fops), p, name) == To(n)
    {
    }

    /** vfs_lookup_node_ex: finds what the path names in the tree as it is
        afterwards. */
    method LookupEx(path: string, followLast: bool) returns (r: Link, mnt: Mount)
      requires Valid() && PathValid(path)
      modifies this`nodes, this`depth
      ensures Valid() && Grew(old(nodes), nodes)
      ensures r == Resolve(nodes, root, path, followLast)
      ensures r.To? ==> r.id in nodes && (!followLast ==> r.id == root || nodes[r.id].parent.To?)
    {
      hide *;
      GrewSame(nodes);
      ValidParts();
      r := Nil;
      mnt := NoMount;
      if path == "/" {
        var n := root;
        ResolveRoot(nodes, root, followLast);
        if followLast {
          n, mnt := FollowMount(root, mnt);
        }
        return To(n), mnt;
      }
      Longer(path);
      ghost var names := Split(path, 1);
      ghost var done: seq<string> := [];
      var cur: NodeId;
      cur, mnt := FollowMount(root, mnt);
      ghost var start := cur;
      WalkNone(nodes, start);
      var cursor := 1;
      while cursor < |path|
        invariant 1 <= cursor < |path| && names == done + Split(path, cursor)
        invariant Valid() && Grew(old(nodes), nodes) && root in nodes && start == Follow(nodes, root) && start in nodes && cur in nodes
        invariant Walk(nodes, start, done) == To(cur)
        decreases |path| - cursor
      {
        var slash := NextOf(path, '/', cursor);
        SplitStep(path, cursor);
        var last := slash == |path| || slash + 1 == |path|;
        var name := path[cursor..slash];
        NamesParts(names, done, name, if last then [] else Split(path, slash + 1));
        StepIs(nodes, cur, name);
        if slash == cursor {
          ResolveNone(nodes, root, path, followLast, |done|, cur);
          return Nil, NoMount;
        }
        ValidParts();
        ChildrenThere(cur);
        var next := FindChild(cur, name);
        if next.Nil? && mnt.Mount? && mnt.onDemand {
          ghost var before, depthBefore := nodes, depth;
          next := OnDemand(cur, name);
          ValidParts();
          GrewTrans(old(nodes), before, nodes);
          WalkGrew(before, depthBefore, nodes, depth, root, start, done);
          FollowGrew(before, nodes, root);
          StepIs(nodes, cur, name);
        }
        if next.Nil? {
          ResolveNone(nodes, root, path, followLast, |done|, cur);
          return Nil, NoMount;
        }
        StepChild(nodes, depth, cur, name);
        WalkOn(nodes, start, done, cur, name);
        if last { ResolveLast(nodes, root, path, followLast, |done|, cur); }
        cur := next.id;
        if last {
          if followLast {
            cur, mnt := FollowMount(cur, mnt);
          }
          return To(cur), mnt;
        }
        done := done + [name];
        cur, mnt := FollowMount(cur, mnt);
        cursor := slash + 1;
      }
    }

    lemma Longer(path: string)
      requires PathValid(path) && path != "/"
      ensures |path| >= 2
    {
      assert |path| == 1 ==> path == "/";
    }

    lemma FollowGrew(t: Tree, u: Tree, n: NodeId)
      requires Grew(t, u) && n in t
      ensures n in u && Follow(u, n) == Follow(t, n)
    {
    }

    // ----- unlink -----

    /** vfs_unlink */
    method Unlink(parent: Link, name: string) returns (err: int)
      requires Valid() && (parent.To? ==> parent.id in nodes)
      modifies this`nodes
      ensures Valid()
      ensures err == UnlinkError(old(nodes), old(files), parent, name)
      ensures err != 0 ==> nodes == old(nodes)
      ensures err == 0 ==> Freeable(old(nodes), parent, name) && nodes == Cut(old(nodes), ChildNamed(old(nodes), parent.id, name).id)
    {
      hide *;
      ErrorsAre();
      UnlinkErrorIs(nodes, files, parent, name);
      if parent.Nil? || !NameValid(name) {
        return -EINVAL;
      }
      if nodes[parent.id].kind != Dir {
        return -ENOTDIR;
      }
      ValidParts();
      ChildrenThere(parent.id);
      var c := FindChild(parent.id, name);
      if c.Nil? {
        return -ENOENT;
      }
      ChildParts(parent.id, name);
      var n := c.id;
      if nodes[n].children != [] {
        return -ENOTEMPTY;
      }
      var busy := FileOn(n);
      if busy {
        return -EBUSY;
      }
      var p := nodes[n].parent.id;
      var k := 0;
      while nodes[p].children[k] != n
        invariant nodes == old(nodes) && p in nodes && 0 <= k < |nodes[p].children| && n in nodes[p].children[k..]
        decreases |nodes[p].children| - k
      {
        InRest(nodes[p].children, k, n);
        k := k + 1;
      }
      FreeableIs(nodes, parent.id, name);
      CutKeeps(nodes, depth, root, n);
      CutAt(p, k, n);
      CutFiles(n);
      nodes := nodes[p := nodes[p].(children := nodes[p].children[..k] + nodes[p].children[k + 1..])] - {n};
      ValidFrom();
      return 0;
    }

    lemma UnlinkErrorIs(t: Tree, fs: seq<File>, parent: Link, name: string)
      requires parent.To? ==> parent.id in t
      ensures parent.Nil? || !NameValid(name) ==> UnlinkError(t, fs, parent, name) == -EINVAL
      ensures parent.To? && NameValid(name) ==>
        (var c := ChildNamed(t, parent.id, name);
         UnlinkError(t, fs, parent, name) ==
           if !t[parent.id].kind.Dir? then -ENOTDIR else if c.Nil? then -ENOENT
           else if c.id in t && t[c.id].children != [] then -ENOTEMPTY else if OpenOn(fs, c.id) then -EBUSY else 0)
    {
    }

    lemma FreeableIs(t: Tree, parent: NodeId, name: string)
      requires parent in t && ChildNamed(t, parent, name).To?
      requires var n := ChildNamed(t, parent, name).id; n in t && t[n].parent == To(parent) && t[n].children == []
      ensures Freeable(t, To(parent), name)
    {
    }

    lemma InRest(s: seq<NodeId>, k: nat, n: NodeId)
      requires k < |s| && n in s[k..] && s[k] != n
      ensures k + 1 < |s| && n in s[k + 1..]
    {
    }

    lemma CutAt(p: NodeId, k: nat, n: NodeId)
      requires TreeOk() && n in nodes && nodes[n].parent == To(p) && p in nodes && k < |nodes[p].children| && nodes[p].children[k] == n
      ensures Cut(nodes, n) == nodes[p := nodes[p].(children := nodes[p].children[..k] + nodes[p].children[k + 1..])] - {n}
    {
      assert NodeOk(nodes, depth, p);
      WithoutAt(nodes[p].children, k);
    }

    lemma CutFiles(n: NodeId)
      requires FilesOk(files, nodes) && !OpenOn(files, n) && n in nodes && nodes[n].parent.To? && nodes[n].parent.id in nodes
      ensures FilesOk(files, Cut(nodes, n))
    {
    }

    lemma ChildParts(parent: NodeId, name: string)
      requires Valid() && parent in nodes && ChildNamed(nodes, parent, name).To?
      ensures var n := ChildNamed(nodes, parent, name).id;
        n in nodes && nodes[n].parent == To(parent) && n in nodes[parent].children && nodes[parent].children[0..] == nodes[parent].children
        && |nodes[parent].children| > 0
    {
      FindNameIs(nodes, nodes[parent].children, name);
      var n := ChildNamed(nodes, parent, name).id;
      assert NodeOk(nodes, depth, parent) && ChildOk(nodes, depth, parent, n);
    }

    lemma ValidFrom()
      requires Linked(nodes, depth) && Mounted(nodes, root) && FilesOk(files, nodes) && 0 <= nextFd < FDS
      ensures Valid()
    {
    }

    /** The loop of vfs_unlink over the open files. */
    method FileOn(n: NodeId) returns (busy: bool)
      ensures busy == OpenOn(files, n)
    {
      var k := 0;
      while k < |files|
        invariant 0 <= k <= |files| && forall i :: 0 <= i < k ==> files[i].node != n
      {
        if files[k].node == n {
          return true;
        }
        k := k + 1;
      }
      return false;
    }

    // ----- open and close -----

    /** vfs_open: memory tells whether the record could be had, answer what the
        node's open operation says. */
    method Open(path: string, flags: nat, memory: bool, answer: int) returns (r: int)
      requires Valid()
      modifies this`nodes, this`depth, this`files, this`nextFd
      ensures Valid() && Grew(old(nodes), nodes)
      ensures var err := OpenError(nodes, root, old(files), path, memory, answer);
        && (err != 0 ==> r == err && files == old(files))
        && (err == 0 ==>
              && PathValid(path) && Resolve(nodes, root, path, true).To? && r >= 0 && !Used(old(files), r)
              && files == [File(r, Resolve(nodes, root, path, true).id, 0, flags)] + old(files)
              && files[0].node in nodes && nodes[files[0].node].kind != Dir)
    {
      hide *;
      GrewSame(nodes);
      ErrorsAre();
      OpenErrorIs(nodes, root, files, path, memory, answer);
      if !PathValid(path) {
        return -ENOENT;
      }
      var n, mnt := LookupEx(path, true);
      OpenErrorIs(nodes, root, files, path, memory, answer);
      if n.Nil? {
        return -ENOENT;
      }
      if nodes[n.id].kind == Dir {
        return -EISDIR;
      }
      ValidParts();
      var fd := AllocFd();
      if fd < 0 {
        ValidFrom();
        return fd;
      }
      if !memory {
        ValidFrom();
        return -ENOMEM;
      }
      if nodes[n.id].fops && answer != 0 {
        ValidFrom();
        return answer;
      }
      FilesMore(File(fd, n.id, 0, flags));
      files := [File(fd, n.id, 0, flags)] + files;
      ValidFrom();
      return fd;
    }

    lemma ErrorsAre()
      ensures ENOENT > 0 && EISDIR > 0 && EMFILE > 0 && ENOMEM > 0 && EINVAL > 0 && ENOTDIR > 0 && ENOTEMPTY > 0 && EBUSY > 0 && ENODEV > 0
    {
    }

    lemma FilesMore(f: File)
      requires FilesOk(files, nodes) && !Used(files, f.fd) && 0 <= f.fd < FDS && f.node in nodes
      ensures FilesOk([f] + files, nodes)
    {
      assert forall i :: 0 < i < |[f] + files| ==> ([f] + files)[i] == files[i - 1];
    }

    /** vfs_close: answer is what the node's close operation says. */
    method Close(fd: int, answer: int) returns (r: int)
      requires Valid()
      modifies this`files
      ensures Valid() && !Used(files, fd)
      ensures !Used(old(files), fd) ==> r == -EBADF && files == old(files)
      ensures Used(old(files), fd) ==> |files| == |old(files)| - 1 && forall f :: f in old(files) && f.fd != fd ==> f in files
    {
      var k := FindFile(fd);
      if k < 0 {
        return -EBADF;
      }
      r := if nodes[files[k].node].fops then answer else 0;
      FilesLess(files, nodes, k);
      files := files[..k] + files[k + 1..];
    }

    // ----- mount and umount -----

    /** vfs_try_mount */
    method TryMount(mp: NodeId, f: FsType, memory: bool) returns (err: int)
      requires Valid() && mp in nodes && nodes[mp].mnt.NoMount? && nodes[mp].kind == Dir && (mp == root || nodes[mp].parent.To?)
      requires Makes(nodes, root, f)
      modifies this`nodes
      ensures Valid()
      ensures err == TryError(f, memory)
      ensures err == 0 ==> MountedOn(old(nodes), mp, f.attempt, nodes)
      ensures err != 0 ==> nodes == old(nodes)
    {
      if !memory {
        return -ENOMEM;
      }
      match f.attempt
      case Refused(e) =>
        return if e != 0 then e else -EINVAL;
      case Rootless =>
        return -EINVAL;
      case Rooted(r, onDemand) =>
        MountKeeps(nodes, depth, root, mp, r, onDemand);
        nodes := nodes[mp := nodes[mp].(mnt := Mount(r, onDemand))];
        return 0;
    }

    /** vfs_find_filesystem */
    method FindFilesystem(types: seq<FsType>, name: string) returns (k: int)
      ensures -1 <= k < |types| && (k >= 0 ==> types[k].name == name && forall i :: 0 <= i < k ==> types[i].name != name)
      ensures k < 0 ==> forall i :: 0 <= i < |types| ==> types[i].name != name
    {
      k := 0;
      while k < |types|
        invariant 0 <= k <= |types| && forall i :: 0 <= i < k ==> types[i].name != name
      {
        if types[k].name == name {
          return;
        }
        k := k + 1;
      }
      k := -1;
    }

    /** vfs_mount: at is the tree after the target has been looked up. */
    method DoMount(target: string, wanted: Wanted, types: seq<FsType>, memory: bool) returns (err: int, ghost at: Tree)
      requires Valid() && AllMake(nodes, root, types)
      modifies this`nodes, this`depth
      ensures Valid() && Grew(old(nodes), at)
      ensures err == MountError(at, root, target, wanted, types, memory)
      ensures err != 0 ==> nodes == at
      ensures err == 0 ==>
        && PathValid(target) && Resolve(at, root, target, false).To? && Chosen(types, wanted, memory) < |types|
        && MountedOn(at, Resolve(at, root, target, false).id, types[Chosen(types, wanted, memory)].attempt, nodes)
    {
      hide *;
      ErrorsAre();
      GrewSame(nodes);
      at := nodes;
      MountErrorIs(at, root, target, wanted, types, memory);
      if !PathValid(target) {
        return -EINVAL, at;
      }
      var mp, mnt := LookupEx(target, false);
      at := nodes;
      MountErrorIs(at, root, target, wanted, types, memory);
      if mp.Nil? {
        return -ENOENT, at;
      }
      if nodes[mp.id].kind != Dir {
        return -ENOTDIR, at;
      }
      if nodes[mp.id].mnt.Mount? {
        return -EBUSY, at;
      }
      MakesGrew(old(nodes), nodes, root, types);
      match wanted
      case ByName(name) =>
        var k := FindFilesystem(types, name);
        ChosenIs(types, wanted, memory, if k < 0 then |types| else k);
        if k < 0 {
          return -ENODEV, at;
        }
        err := TryMount(mp.id, types[k], memory);
      case Any =>
        for k := 0 to |types|
          invariant Valid() && nodes == at
          invariant forall i :: 0 <= i < k ==> !types[i].device || TryError(types[i], memory) != 0
        {
          if types[k].device {
            err := TryMount(mp.id, types[k], memory);
            if err == 0 {
              ChosenIs(types, wanted, memory, k);
              return 0, at;
            }
          }
        }
        ChosenIs(types, wanted, memory, |types|);
        return -ENODEV, at;
    }

    /** vfs_node_under_root */
    method UnderRoot(n: NodeId, r: NodeId) returns (yes: bool)
      requires TreeOk() && n in nodes
      ensures yes == Under(nodes, depth, n, r)
    {
      var at := To(n);
      while at.To?
        invariant at.To? ==> at.id in nodes && Under(nodes, depth, n, r) == Under(nodes, depth, at.id, r)
        invariant at.Nil? ==> !Under(nodes, depth, n, r)
        decreases if at.To? then 1 else 0, if at.To? && at.id in depth then depth[at.id] else 0
      {
        if at.id == r {
          return true;
        }
        if nodes[at.id].parent.To? { ParentDepth(nodes, depth, at.id); }
        at := nodes[at.id].parent;
      }
      return false;
    }

    /** The loop of vfs_umount over the open files. */
    method FileBelow(r: NodeId) returns (busy: bool)
      requires Valid()
      ensures busy == OpenBelow(files, nodes, depth, r)
    {
      var k := 0;
      while k < |files|
        invariant 0 <= k <= |files| && forall i :: 0 <= i < k ==> !Under(nodes, depth, files[i].node, r)
      {
        var below := UnderRoot(files[k].node, r);
        if below {
          return true;
        }
        k := k + 1;
      }
      return false;
    }

    /** vfs_free_subtree: t is the tree before anything was freed, gone what has
        been. Each node is freed once. */
    method FreeSubtree(n: NodeId, ghost t: Tree, ghost gone: set<NodeId>)
      requires Linked(t, depth) && n in t && nodes == t - gone && Below(t, depth, n) !! gone
      modifies this`nodes
      ensures nodes == t - (gone + Below(t, depth, n))
      decreases Below(t, depth, n)
    {
      hide *;
      FreeStart(t, n, gone);
      var s := nodes[n].children;
      for i := 0 to |s|
        invariant nodes == t - (gone + BelowSome(t, depth, s[..i]))
      {
        FreeStep(t, n, i, gone);
        FreeSubtree(s[i], t, gone + BelowSome(t, depth, s[..i]));
      }
      FreeEnd(t, n, gone);
      nodes := nodes - {n};
    }

    lemma FreeStart(t: Tree, n: NodeId, gone: set<NodeId>)
      requires Linked(t, depth) && n in t && nodes == t - gone && Below(t, depth, n) !! gone
      ensures n in nodes && nodes[n] == t[n] && gone + BelowSome(t, depth, t[n].children[..0]) == gone
    {
      assert n in Below(t, depth, n);
    }

    lemma FreeEnd(t: Tree, n: NodeId, gone: set<NodeId>)
      requires Linked(t, depth) && n in t
      ensures t - (gone + Below(t, depth, n)) == (t - (gone + BelowSome(t, depth, t[n].children[..|t[n].children|]))) - {n}
    {
      assert t[n].children[..|t[n].children|] == t[n].children;
      BelowAll(t, depth, n);
    }

    /** The next child's subtree is still all there. */
    lemma FreeStep(t: Tree, n: NodeId, i: nat, gone: set<NodeId>)
      requires Linked(t, depth) && n in t && i < |t[n].children| && Below(t, depth, n) !! gone
      ensures t[n].children[i] in t && Below(t, depth, t[n].children[i]) < Below(t, depth, n)
      ensures Below(t, depth, t[n].children[i]) !! gone + BelowSome(t, depth, t[n].children[..i])
      ensures gone + BelowSome(t, depth, t[n].children[..i]) + Below(t, depth, t[n].children[i])
           == gone + BelowSome(t, depth, t[n].children[..i + 1])
    {
      assert t[n].children[..i + 1][..i] == t[n].children[..i];
      var s := t[n].children;
      BelowChild(t, depth, n, s[i]);
      assert NodeOk(t, depth, n);
      forall m | m in Below(t, depth, s[i]) ensures m !in BelowSome(t, depth, s[..i]) {
        BelowSomeIs(t, depth, s[..i], m);
        forall j | 0 <= j < i ensures m !in Below(t, depth, s[..i][j]) {
          BelowApart(t, depth, n, s[j], s[i]);
        }
      }
    }

    /** vfs_umount: at is the tree after the target has been looked up. */
    method Umount(target: string) returns (err: int, ghost at: Tree)
      requires Valid()
      modifies this`nodes, this`depth
      ensures Valid() && Grew(old(nodes), at)
      ensures err == UmountError(at, depth, files, root, target)
      ensures err != 0 ==> nodes == at
      ensures err == 0 ==> PathValid(target) && Resolve(at, root, target, false).To?
      ensures err == 0 ==> UnmountedFrom(at, depth, files, Resolve(at, root, target, false).id, nodes)
    {
      hide *;
      ErrorsAre();
      GrewSame(nodes);
      at := nodes;
      UmountErrorIs(at, depth, files, root, target);
      if !PathValid(target) {
        return -EINVAL, at;
      }
      var mp, mnt := LookupEx(target, false);
      at := nodes;
      UmountErrorIs(at, depth, files, root, target);
      if mp.Nil? {
        return -ENOENT, at;
      }
      if nodes[mp.id].mnt.NoMount? {
        return -EINVAL, at;
      }
      var r := nodes[mp.id].mnt.root;
      var busy := FileBelow(r);
      if busy {
        return -EBUSY, at;
      }
      UnmountReady(mp.id);
      nodes := nodes[mp.id := nodes[mp.id].(mnt := NoMount)];
      FreeSubtree(r, nodes, {});
      ValidFrom();
      return 0, at;
    }

    lemma UnmountReady(mp: NodeId)
      requires Valid() && mp in nodes && nodes[mp].mnt.Mount? && !OpenBelow(files, nodes, depth, nodes[mp].mnt.root)
      ensures var r, t := nodes[mp].mnt.root, nodes[mp := nodes[mp].(mnt := NoMount)];
        && Linked(t, depth) && r in t && t == t - {}
        && Unmount(nodes, depth, mp) == t - ({} + Below(t, depth, r))
        && Below(t, depth, r) !! {}
      ensures var u := Unmount(nodes, depth, mp);
        Linked(u, depth) && Mounted(u, root) && FilesOk(files, u) && 0 <= nextFd < FDS
      ensures UnmountedFrom(nodes, depth, files, mp, Unmount(nodes, depth, mp))
    {
      var r, t := nodes[mp].mnt.root, nodes[mp := nodes[mp].(mnt := NoMount)];
      RootsIn(nodes, root, mp);
      UnmountKeeps(nodes, depth, root, mp);
      LinkedAlike(nodes, depth, mp);
      assert {} + Below(t, depth, r) == Below(nodes, depth, r);
      forall i | 0 <= i < |files| ensures files[i].node in Unmount(nodes, depth, mp) {
        assert !Under(nodes, depth, files[i].node, r);
      }
      FilesStay(files, nodes, Unmount(nodes, depth, mp));
    }

    /** Links do not depend on mounts. */
    lemma LinkedAlike(t: Tree, d: Depths, mp: NodeId)
      requires Linked(t, d) && mp in t
      ensures var u := t[mp := t[mp].(mnt := NoMount)];
        Linked(u, d) && forall r :: Below(u, d, r) == Below(t, d, r)
    {
      var u := t[mp := t[mp].(mnt := NoMount)];
      forall n | n in u ensures NodeOk(u, d, n) {
        assert NodeOk(t, d, n);
        ChildrenIn(t, d, n);
        NodeStays(t, d, u, d, n);
      }
      forall r ensures Below(u, d, r) == Below(t, d, r) {
        forall n | n in t ensures Under(u, d, n, r) == Under(t, d, n, r) {
          UnderAlike(t, u, d, n, r);
        }
      }
    }

    lemma {:induction false} UnderAlike(t: Tree, u: Tree, d: Depths, n: NodeId, r: NodeId)
      requires t.Keys == u.Keys && forall m :: m in t ==> u[m].parent == t[m].parent
      ensures Under(u, d, n, r) == Under(t, d, n, r)
      decreases if n in d then d[n] else 0
    {
      if n != r && n in t && n in d && t[n].parent.To? && t[n].parent.id in d && d[t[n].parent.id] < d[n] {
        UnderAlike(t, u, d, t[n].parent.id, r);
      }
    }

    lemma ValidParts()
      requires Valid()
      ensures TreeOk() && Linked(nodes, depth) && Mounted(nodes, root) && root in nodes && FilesOk(files, nodes) && 0 <= nextFd < FDS
    {
    }
  }
}
