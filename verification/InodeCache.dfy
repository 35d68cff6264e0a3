/**
 * The inode cache and namex of fs.c, run by one process: reference counts, and path lookup as a walk
 * through the directories.
 */
module InodeCache {
  import opened Blocks
  import opened Options
  import opened Directory
  import opened Paths

  const ROOTDEV := 1
  const ROOTINO := 1

  type Id = (nat, nat)                        // device and inode number

  datatype Inode = Inode(id: Id, ref: nat, valid: bool)

  datatype Kind = DirKind | FileKind | DevKind

  /** An allocated inode on disk, with the slots of its file if it is a directory. */
  datatype Node = Node(kind: Kind, nlink: nat, slots: seq<Dirent>)

  type Disk = map<Id, Node>

  // ---- Reference counts ----

  function Share(e: Inode, id: Id): nat {
    if e.id == id then e.ref else 0
  }

  /** All references to an inode. */
  function Refs(inodes: seq<Inode>, id: Id): nat {
    if inodes == [] then 0 else Share(inodes[0], id) + Refs(inodes[1..], id)
  }

  lemma {:induction false} RefsUpdate(inodes: seq<Inode>, k: nat, e: Inode, id: Id)
    requires k < |inodes|
    ensures Refs(inodes[k := e], id) == Refs(inodes, id) - Share(inodes[k], id) + Share(e, id)
    ensures Share(inodes[k], id) <= Refs(inodes, id)
    decreases |inodes|
  {
    if k > 0 {
      assert inodes[k := e][1..] == inodes[1..][k - 1 := e];
      RefsUpdate(inodes[1..], k - 1, e, id);
    } else {
      assert inodes[k := e][1..] == inodes[1..];
    }
  }

  /** inodes' has n more references to id than inodes, and as many to every other inode. */
  ghost predicate Added(inodes: seq<Inode>, inodes': seq<Inode>, id: Id, n: int) {
    forall i: Id :: Refs(inodes', i) == Refs(inodes, i) + if i == id then n else 0
  }

  ghost predicate SameRefs(inodes: seq<Inode>, inodes': seq<Inode>) {
    forall i: Id :: Refs(inodes', i) == Refs(inodes, i)
  }

  lemma EntryAdds(inodes: seq<Inode>, k: nat, e: Inode, n: int)
    requires k < |inodes| && (inodes[k].id == e.id || inodes[k].ref == 0) && e.ref == inodes[k].ref + n
    ensures Added(inodes, inodes[k := e], e.id, n)
  {
    forall i: Id
      ensures Refs(inodes[k := e], i) == Refs(inodes, i) + if i == e.id then n else 0
    {
      RefsUpdate(inodes, k, e, i);
    }
  }

  lemma LiveHasRefs(inodes: seq<Inode>, k: nat)
    requires k < |inodes|
    ensures Refs(inodes, inodes[k].id) >= inodes[k].ref
  {
    RefsUpdate(inodes, k, inodes[k], inodes[k].id);
  }

  /** No inode has two live entries. */
  ghost predicate OneEntry(inodes: seq<Inode>) {
    forall i, j :: 0 <= i < j < |inodes| && inodes[i].ref > 0 && inodes[j].ref > 0 ==> inodes[i].id != inodes[j].id
  }

  /** With one entry each, the count is that of the entry. */
  lemma {:induction false} EntryCount(inodes: seq<Inode>, k: nat)
    requires k < |inodes| && OneEntry(inodes) && inodes[k].ref > 0
    ensures Refs(inodes, inodes[k].id) == inodes[k].ref
    decreases |inodes|
  {
    var id := inodes[k].id;
    if k > 0 {
      assert inodes[1..][k - 1] == inodes[k];
      EntryCount(inodes[1..], k - 1);
    } else {
      NoOther(inodes[1..], id);
    }
  }

  lemma {:induction false} NoOther(inodes: seq<Inode>, id: Id)
    requires forall i :: 0 <= i < |inodes| ==> inodes[i].ref == 0 || inodes[i].id != id
    ensures Refs(inodes, id) == 0
    decreases |inodes|
  {
    if inodes != [] {
      NoOther(inodes[1..], id);
    }
  }

  // ---- Path lookup as a walk ----

  /** What a path leads to; Unallocated when a component is to be looked up in an inode that is not on disk. */
  datatype Goal = Named(id: Id) | NoSuch | Unallocated(id: Id)

  /** The inode a path names from `start`, or with `parent` that of its last component's directory. */
  function Resolve(disk: Disk, start: Id, names: seq<seq<byte>>, parent: bool): Goal
    decreases |names|
  {
    if names == [] then if parent then NoSuch else Named(start)
    else if start !in disk then Unallocated(start)
    else if disk[start].kind != DirKind then NoSuch
    else if parent && |names| == 1 then Named(start)
    else
      var m := AsMap(disk[start].slots);
      if names[0] !in m then NoSuch else Resolve(disk, (start.0, m[names[0]]), names[1..], parent)
  }

  /** Looking `name` up where the names before it have led; for the parent the lookup itself is left out. */
  function LookIn(disk: Disk, g: Goal, name: seq<byte>, parent: bool): Goal {
    if !g.Named? then g
    else if g.id !in disk then Unallocated(g.id)
    else if disk[g.id].kind != DirKind then NoSuch
    else if parent then g
    else if name in AsMap(disk[g.id].slots) then Named((g.id.0, AsMap(disk[g.id].slots)[name])) else NoSuch
  }

  /** The walk seen from its other end: the last name decides. */
  lemma {:induction false} ResolveLast(disk: Disk, start: Id, names: seq<seq<byte>>, name: seq<byte>, parent: bool)
    ensures Resolve(disk, start, names + [name], parent) ==
            LookIn(disk, Resolve(disk, start, names, false), name, parent)
    decreases |names|
  {
    if names == [] {
      assert (names + [name])[1..] == [];
    } else {
      assert (names + [name])[1..] == names[1..] + [name];
      if start in disk && disk[start].kind == DirKind && names[0] in AsMap(disk[start].slots) {
        ResolveLast(disk, (start.0, AsMap(disk[start].slots)[names[0]]), names[1..], name, parent);
      }
    }
  }

  /** One component more. */
  lemma ResolveAppend(disk: Disk, start: Id, names: seq<seq<byte>>, d: Id, name: seq<byte>)
    requires Resolve(disk, start, names, false) == Named(d) && d in disk && disk[d].kind == DirKind &&
             name in AsMap(disk[d].slots)
    ensures Resolve(disk, start, names + [name], false) == Named((d.0, AsMap(disk[d].slots)[name]))
  {
    ResolveLast(disk, start, names, name, false);
  }

  /** The names q and then the names p: from where q leads, along p. */
  lemma {:induction false} ResolveConcat(disk: Disk, start: Id, q: seq<seq<byte>>, d: Id, p: seq<seq<byte>>,
                                         parent: bool)
    requires Resolve(disk, start, q, false) == Named(d) && (parent ==> p != [])
    ensures Resolve(disk, start, q + p, parent) == Resolve(disk, d, p, parent)
    decreases |q|
  {
    if q == [] {
      assert q + p == p;
    } else {
      assert (q + p)[0] == q[0] && (q + p)[1..] == q[1..] + p;
      ResolveConcat(disk, (start.0, AsMap(disk[start].slots)[q[0]]), q[1..], d, p, parent);
    }
  }

  // ---- Where a path leads ----

  /** A path with a slash in front is looked up from the root, any other from the current directory. */
  function StartOf(path: seq<byte>, cwd: Id): Id {
    if path != [] && path[0] == SLASH then (ROOTDEV, ROOTINO) else cwd
  }

  function Lookup(disk: Disk, cwd: Id, path: seq<byte>, parent: bool): Goal {
    Resolve(disk, StartOf(path, cwd), Components(path), parent)
  }

  /** An absolute path leads to the same place for every current directory, its names taken from the root. */
  lemma AbsolutePath(disk: Disk, cwd: Id, rest: seq<byte>, parent: bool)
    ensures Lookup(disk, cwd, [SLASH] + rest, parent) == Resolve(disk, (ROOTDEV, ROOTINO), Components(rest), parent)
  {
    SlashFirst([SLASH] + rest);
    assert ([SLASH] + rest)[1..] == rest;
  }

  /**
   * Changing to the directory q and looking up the relative path p there is looking up "q/p". With an empty q
   * it is not, as "/p" starts at the root; nor is it for the parent of a p without components, which does not
   * exist, while "q/" has one.
   */
  lemma LookupComposes(disk: Disk, cwd: Id, q: seq<byte>, d: Id, p: seq<byte>, parent: bool)
    requires q != [] && Lookup(disk, cwd, q, false) == Named(d)
    requires p == [] || p[0] != SLASH
    requires parent ==> p != []
    ensures Lookup(disk, cwd, q + [SLASH] + p, parent) == Lookup(disk, d, p, parent)
  {
    ComponentsJoin(q, p);
    LastOrNot(p);
    ResolveConcat(disk, StartOf(q, cwd), Components(q), d, Components(p), parent);
    assert (q + [SLASH] + p)[0] == q[0];
  }

  /** The first j names lead to inode t, which is free on disk, and there is a component left to look up in it. */
  ghost predicate FreedAt(disk: Disk, start: Id, names: seq<seq<byte>>, t: Id, j: nat) {
    j < |names| && Resolve(disk, start, names[..j], false) == Named(t) && t !in disk
  }

  lemma FreedFurther(disk: Disk, start: Id, names: seq<seq<byte>>, t: Id, j: nat)
    requires names != [] && start in disk
    ensures !FreedAt(disk, start, names, t, 0)
    ensures FreedAt(disk, start, names, t, j + 1) <==>
              && disk[start].kind == DirKind && names[0] in AsMap(disk[start].slots)
              && FreedAt(disk, (start.0, AsMap(disk[start].slots)[names[0]]), names[1..], t, j)
  {
    if j + 1 < |names| {
      assert names[..j + 1][0] == names[0] && names[..j + 1][1..] == names[1..][..j];
    }
  }

  /**
   * namex panics in ilock exactly when it comes to a freed inode with components left. A directory that was
   * removed while in use, and whose parent was removed and freed after it, has such an inode behind "..".
   */
  lemma {:induction false} FreedInodePanics(disk: Disk, start: Id, names: seq<seq<byte>>, parent: bool, t: Id)
    ensures Resolve(disk, start, names, parent) == Unallocated(t) <==>
            exists j: nat :: FreedAt(disk, start, names, t, j)
    decreases |names|
  {
    if names != [] && start !in disk {
      assert names[..0] == [];
      assert FreedAt(disk, start, names, start, 0);
      assert forall j: nat :: 0 < j < |names| ==> !FreedAt(disk, start, names, t, j);
    } else if names != [] {
      forall j: nat
        ensures FreedAt(disk, start, names, t, j + 1) <==>
                  && disk[start].kind == DirKind && names[0] in AsMap(disk[start].slots)
                  && FreedAt(disk, (start.0, AsMap(disk[start].slots)[names[0]]), names[1..], t, j)
      {
        FreedFurther(disk, start, names, t, j);
      }
      FreedFurther(disk, start, names, t, 0);
      if disk[start].kind == DirKind && names[0] in AsMap(disk[start].slots) && !(parent && |names| == 1) {
        var next := (start.0, AsMap(disk[start].slots)[names[0]]);
        FreedInodePanics(disk, next, names[1..], parent, t);
        if j: nat :| FreedAt(disk, next, names[1..], t, j) {
          assert FreedAt(disk, start, names, t, j + 1);
        }
        if j: nat :| FreedAt(disk, start, names, t, j) {
          assert FreedAt(disk, next, names[1..], t, j - 1);
        }
      } else if j: nat :| FreedAt(disk, start, names, t, j) {
        assert FreedAt(disk, start, names, t, j - 1 + 1);
      }
    }
  }

  /** The bytes of "..". */
  function DotDot(): seq<byte> {
    [46, 46]
  }

  /** Inode 5 of the root device is a removed directory in use; its parent, inode 7, has been freed. */
  function RemovedBoth(): Disk {
    map[(ROOTDEV, 5) := Node(DirKind, 0, [Dirent(7, DotDot() + Zeros(DIRSIZ - 2))])]
  }

  /** From there "../x" panics, for any x. */
  lemma RemovedParentPanics(x: seq<byte>, parent: bool)
    ensures Resolve(RemovedBoth(), (ROOTDEV, 5), [DotDot(), x], parent) == Unallocated((ROOTDEV, 7))
  {
    var disk, d, names := RemovedBoth(), (ROOTDEV, 5), [DotDot(), x];
    var slots := disk[d].slots;
    assert names[1..] == [x] && slots[1..] == [];
    PaddedKey(DotDot(), DIRSIZ - 2, DIRSIZ);
    assert AsMap(slots) == map[DotDot() := 7];
  }

  predicate Kept(disk: Disk, inodes: seq<Inode>, id: Id) {
    id in disk ==> disk[id].nlink > 0 || Refs(inodes, id) > 0
  }

  /** Whatever inode without links the walk comes to is free on disk or in use. */
  ghost predicate Sane(disk: Disk, inodes: seq<Inode>, start: Id, names: seq<seq<byte>>, parent: bool) {
    forall j: nat {:trigger Resolve(disk, start, names[..j], false)} ::
      j <= |names| && (j == |names| ==> names == [] || !parent) && Resolve(disk, start, names[..j], false).Named? ==>
        Kept(disk, inodes, Resolve(disk, start, names[..j], false).id)
  }

  lemma SaneStart(disk: Disk, inodes: seq<Inode>, start: Id, names: seq<seq<byte>>, parent: bool)
    requires Sane(disk, inodes, start, names, parent)
    ensures Kept(disk, inodes, start)
  {
    assert names[..0] == [];
    assert Resolve(disk, start, names[..0], false) == Named(start);
  }

  lemma SaneNext(disk: Disk, inodes: seq<Inode>, from: Id, names: seq<seq<byte>>, parent: bool,
                 done: seq<seq<byte>>, d: Id, name: seq<byte>, tail: seq<seq<byte>>)
    requires Sane(disk, inodes, from, names, parent) && Ahead(disk, from, names, parent, done, d, [name] + tail)
    requires d in disk && disk[d].kind == DirKind && name in AsMap(disk[d].slots) && !(parent && tail == [])
    ensures Kept(disk, inodes, (d.0, AsMap(disk[d].slots)[name]))
  {
    ResolveAppend(disk, from, done, d, name);
    assert names[..|done| + 1] == done + [name];
    assert Resolve(disk, from, names[..|done| + 1], false).Named?;
  }

  /** An inode that has been read in is allocated. */
  ghost predicate Loaded(inodes: seq<Inode>, disk: Disk) {
    forall k :: 0 <= k < |inodes| && inodes[k].ref > 0 && inodes[k].valid ==> inodes[k].id in disk
  }

  /** iget's panic: every entry is in use, none for this inode. */
  ghost predicate NoEntryFor(inodes: seq<Inode>, id: Id) {
    forall i :: 0 <= i < |inodes| ==> inodes[i].ref > 0 && inodes[i].id != id
  }

  /** The walk along the first j names leads to an inode there is no entry for. */
  ghost predicate StuckAt(disk: Disk, start: Id, names: seq<seq<byte>>, inodes: seq<Inode>, j: nat) {
    && j <= |names| && Resolve(disk, start, names[..j], false).Named?
    && NoEntryFor(inodes, Resolve(disk, start, names[..j], false).id)
  }

  ghost predicate Stuck(disk: Disk, start: Id, names: seq<seq<byte>>, inodes: seq<Inode>) {
    exists j: nat :: StuckAt(disk, start, names, inodes, j)
  }

  class Cache {
    var inodes: seq<Inode>
    var disk: Disk

    /** iget: the live entry of the inode, or a free one; None is the panic when there is neither. */
    method Iget(id: Id) returns (r: Option<nat>)
      requires OneEntry(inodes) && Loaded(inodes, disk)
      modifies `inodes
      ensures OneEntry(inodes) && Loaded(inodes, disk) && |inodes| == |old(inodes)|
      ensures r != None ==> r.value < |inodes| && inodes[r.value].id == id && inodes[r.value].ref > 0
      ensures r != None ==> Added(old(inodes), inodes, id, 1)
      ensures forall j :: 0 <= j < |inodes| && old(inodes)[j].ref > 0 ==>
                inodes[j].id == old(inodes)[j].id && inodes[j].ref >= old(inodes)[j].ref
      ensures r == None <==> NoEntryFor(old(inodes), id)
      ensures r == None ==> inodes == old(inodes)
    {
      var k, free := FindEntry(id);
      if k != None {
        var e := inodes[k.value];
        EntryAdds(inodes, k.value, e.(ref := e.ref + 1), 1);
        inodes := inodes[k.value := e.(ref := e.ref + 1)];
        return k;
      }
      if free == None {
        return None;
      }
      EntryAdds(inodes, free.value, Inode(id, 1, false), 1);
      inodes := inodes[free.value := Inode(id, 1, false)];
      return free;
    }

    /** The loop of iget. */
    method FindEntry(id: Id) returns (k: Option<nat>, free: Option<nat>)
      ensures k != None ==> k.value < |inodes| && inodes[k.value].ref > 0 && inodes[k.value].id == id
      ensures k == None ==> forall i :: 0 <= i < |inodes| ==> inodes[i].ref == 0 || inodes[i].id != id
      ensures free != None ==> free.value < |inodes| && inodes[free.value].ref == 0
      ensures k == None && free == None ==> forall i :: 0 <= i < |inodes| ==> inodes[i].ref > 0
    {
      free := None;
      for i := 0 to |inodes|
        invariant forall j :: 0 <= j < i ==> inodes[j].ref == 0 || inodes[j].id != id
        invariant free != None ==> free.value < |inodes| && inodes[free.value].ref == 0
        invariant free == None ==> forall j :: 0 <= j < i ==> inodes[j].ref > 0
      {
        if inodes[i].ref > 0 && inodes[i].id == id {
          return Some(i), free;
        }
        if free == None && inodes[i].ref == 0 {
          free := Some(i);
        }
      }
      return None, free;
    }

    /** idup */
    method Idup(k: nat)
      requires OneEntry(inodes) && Loaded(inodes, disk) && k < |inodes| && inodes[k].ref > 0
      modifies `inodes
      ensures OneEntry(inodes) && Loaded(inodes, disk)
      ensures inodes == old(inodes)[k := old(inodes)[k].(ref := old(inodes)[k].ref + 1)]
      ensures Added(old(inodes), inodes, inodes[k].id, 1)
    {
      var e := inodes[k];
      EntryAdds(inodes, k, e.(ref := e.ref + 1), 1);
      inodes := inodes[k := e.(ref := e.ref + 1)];
    }

    /** iput: one reference less; with the last one an inode that has no links is truncated and freed on disk. */
    method Iput(k: nat)
      requires OneEntry(inodes) && Loaded(inodes, disk) && k < |inodes| && inodes[k].ref > 0
      modifies this
      ensures OneEntry(inodes) && Loaded(inodes, disk) && |inodes| == |old(inodes)| &&
              Added(old(inodes), inodes, old(inodes)[k].id, -1)
      ensures inodes[k].id == old(inodes)[k].id && inodes[k].ref == old(inodes)[k].ref - 1
      ensures forall j :: 0 <= j < |inodes| && j != k ==> inodes[j] == old(inodes)[j]
      ensures var id := old(inodes)[k].id;
              disk == if old(inodes)[k].valid && id in old(disk) && old(disk)[id].nlink == 0 &&
                Refs(old(inodes), id) == 1
                      then old(disk) - {id} else old(disk)
    {
      var e := inodes[k];
      EntryCount(inodes, k);
      var e' := Inode(e.id, e.ref - 1, e.valid);
      if e.valid && disk[e.id].nlink == 0 && e.ref == 1 {
        disk := disk - {e.id};
        e' := e'.(valid := false);
      }
      EntryAdds(inodes, k, e', -1);
      inodes := inodes[k := e'];
    }

    /** ilock: the inode is read in if it was not; None is the panic when it is not allocated. */
    method Ilock(k: nat) returns (node: Option<Node>)
      requires Loaded(inodes, disk) && k < |inodes| && inodes[k].ref > 0
      modifies `inodes
      ensures |inodes| == |old(inodes)| && node == if inodes[k].id in disk then Some(disk[inodes[k].id]) else None
      ensures inodes == if node == None then old(inodes) else old(inodes)[k := old(inodes)[k].(valid := true)]
      ensures Loaded(inodes, disk) && Added(old(inodes), inodes, inodes[k].id, 0)
    {
      EntryAdds(inodes, k, inodes[k], 0);
      assert inodes[k := inodes[k]] == inodes;
      if inodes[k].id !in disk {
        return None;
      }
      EntryAdds(inodes, k, inodes[k].(valid := true), 0);
      inodes := inodes[k := inodes[k].(valid := true)];
      node := Some(disk[inodes[k].id]);
    }

    /** One directory level of namex: from the held inode ip to the one its entry `name` leads to. */
    method Descend(ip: nat, node: Node, name: seq<byte>, ghost was: seq<Inode>) returns (r: Found)
      requires Holding(was, inodes, ip, disk) && inodes[ip].id in disk && node == disk[inodes[ip].id] &&
               node.kind == DirKind
      requires Key(name) in AsMap(node.slots) ==>
                 Kept(disk, was, (inodes[ip].id.0, AsMap(node.slots)[Key(name)]))
      modifies this
      ensures OneEntry(inodes) && disk == old(disk) && r != NoType
      ensures r == Missing <==> Key(name) !in AsMap(node.slots)
      ensures r == Missing ==> SameRefs(was, inodes)
      ensures r != Missing ==> var id := (old(inodes)[ip].id.0, AsMap(node.slots)[Key(name)]);
                && (r == NoInodes ==> NoEntryFor(inodes, id))
                && (r.At? ==> Holding(was, inodes, r.k, disk) && inodes[r.k].id == id)
    {
      ghost var before := inodes;
      var inum, _ := Dirlookup(node.slots, name);
      if inum == None {
        Drop(ip, was);
        return Missing;
      }
      assert disk[before[ip].id].kind == DirKind && Key(name) in AsMap(disk[before[ip].id].slots);
      ghost var id := (before[ip].id.0, inum.value);
      assert Kept(disk, was, id);
      hide AsMap, Key, OneEntry, Loaded;
      var next := Iget((inodes[ip].id.0, inum.value));
      if next == None {
        return NoInodes;
      }
      ghost var mid := inodes;
      LiveAfter(was, before, mid, ip, next.value, disk);
      Iput(ip);
      Passed(was, before, mid, inodes, ip, next.value, disk);
      return At(next.value);
    }

    /**
     * namex. Either the path's inode with one more reference, or none and the counts as before, or one of two
     * panics: a component to be looked up in an unallocated inode, or no entry for an inode on the way.
     */
    method Namex(path: seq<byte>, parent: bool, cwd: nat) returns (r: Found, name: seq<byte>)
      requires 0 !in path && OneEntry(inodes) && Loaded(inodes, disk) && cwd < |inodes| && inodes[cwd].ref > 0
      requires Sane(disk, inodes, StartOf(path, inodes[cwd].id), Components(path), parent)
      modifies this
      ensures OneEntry(inodes) && disk == old(disk)
      ensures path != [] && path[0] == SLASH ==>
                Outcome(disk, (ROOTDEV, ROOTINO), Components(path), parent, old(inodes), inodes, r)
      ensures path == [] || path[0] != SLASH ==>
                Outcome(disk, old(inodes)[cwd].id, Components(path), parent, old(inodes), inodes, r)
      ensures r.At? && parent ==> Components(path) != [] && name == Components(path)[|Components(path)| - 1]
    {
      ghost var was := inodes;
      name := [];
      var ip := cwd;
      LiveHasRefs(was, cwd);
      SaneStart(disk, was, StartOf(path, inodes[cwd].id), Components(path), parent);
      hide Sane, Resolve, Components;
      if path != [] && path[0] == SLASH {
        var root := Iget((ROOTDEV, ROOTINO));
        if root == None {
          StuckAtStart(disk, (ROOTDEV, ROOTINO), Components(path), inodes);
          return NoInodes, name;
        }
        ip := root.value;
      } else {
        Idup(cwd);
      }
      HoldsStart(was, inodes, ip, disk);
      r, name := Walk(path, parent, ip, was);
    }

    /** The loop of namex. */
    method Walk(path: seq<byte>, parent: bool, start: nat, ghost was: seq<Inode>) returns (r: Found, name: seq<byte>)
      requires 0 !in path && Holding(was, inodes, start, disk)
      requires Sane(disk, was, inodes[start].id, Components(path), parent)
      modifies this
      ensures OneEntry(inodes) && disk == old(disk)
      ensures Outcome(disk, old(inodes)[start].id, Components(path), parent, was, inodes, r)
      ensures r.At? && parent ==> Components(path) != [] && name == Components(path)[|Components(path)| - 1]
    {
      name := [];
      var ip: nat, rest := start, path;
      ghost var from, names := inodes[start].id, Components(path);
      ghost var done: seq<seq<byte>> := [];
      assert names == done + Components(rest);
      hide Components, Sane, Holding, OneEntry, Outcome, Resolve, Key;
      while true
        invariant 0 !in rest && ip < |inodes| && Holding(was, inodes, ip, disk) && disk == old(disk)
        invariant Ahead(disk, from, names, parent, done, inodes[ip].id, Components(rest))
        decreases |rest|
      {
        var elem := Skipelem(rest);
        if elem == None {
          r := Finish(ip, parent, from, names, done, was);
          return;
        }
        name, rest := elem.value.0, elem.value.1;
        ghost var d, tail := inodes[ip].id, Components(rest);
        var turn := Enter(ip, name, rest == [], parent, from, names, done, tail, was);
        if turn.Stop? {
          return turn.found, name;
        }
        AheadStep(disk, from, names, parent, done, d, name, tail);
        done := done + [name];
        ip := turn.k;
      }
    }

    /** namex after its loop. */
    method Finish(ip: nat, parent: bool, ghost from: Id, ghost names: seq<seq<byte>>, ghost done: seq<seq<byte>>,
                  ghost was: seq<Inode>)
      returns (r: Found)
      requires Holding(was, inodes, ip, disk) && Ahead(disk, from, names, parent, done, inodes[ip].id, [])
      modifies this
      ensures OneEntry(inodes) && disk == old(disk) && Outcome(disk, from, names, parent, was, inodes, r) &&
              (parent ==> r == Missing)
    {
      if !parent {
        return At(ip);
      }
      Drop(ip, was);
      return Missing;
    }

    /** One turn of the loop: into directory ip for the component `name`; `last` when no other follows it. */
    method Enter(ip: nat, name: seq<byte>, last: bool, parent: bool, ghost from: Id, ghost names: seq<seq<byte>>,
                 ghost done: seq<seq<byte>>, ghost tail: seq<seq<byte>>, ghost was: seq<Inode>) returns (t: Turn)
      requires Holding(was, inodes, ip, disk) && Key(name) == name && last == (tail == [])
      requires Sane(disk, was, from, names, parent)
      requires Ahead(disk, from, names, parent, done, inodes[ip].id, [name] + tail)
      modifies this
      ensures OneEntry(inodes) && disk == old(disk)
      ensures t.Stop? ==> Outcome(disk, from, names, parent, was, inodes, t.found)
      ensures t.Stop? && t.found.At? && parent ==> names != [] && name == names[|names| - 1]
      ensures t.Go? ==> t.k < |inodes| && Holding(was, inodes, t.k, disk)
      ensures t.Go? ==> Leads(disk, old(inodes)[ip].id, name, inodes[t.k].id) && !(parent && tail == [])
    {
      ghost var d := inodes[ip].id;
      ResolveHead(disk, d, name, tail, parent);
      var node := LockHeld(ip, was);
      hide Holding, Sane, Resolve;
      if node == None {
        return Stop(NoType);
      }
      if node.value.kind != DirKind {
        Drop(ip, was);
        return Stop(Missing);
      }
      if parent && last {
        assert Holding(was, inodes, ip, disk);
        return Stop(At(ip));
      }
      if name in AsMap(node.value.slots) {
        SaneNext(disk, was, from, names, parent, done, d, name, tail);
      }
      var r := Descend(ip, node.value, name, was);
      if r == NoInodes {
        ResolveAppend(disk, from, done, d, name);
        assert names == done + [name] + tail;
        StuckAfter(disk, from, names, inodes, done + [name]);
      }
      return if r.At? then Go(r.k) else Stop(r);
    }

    /** The held reference is given back. */
    method Drop(ip: nat, ghost was: seq<Inode>)
      requires Holding(was, inodes, ip, disk)
      modifies this
      ensures OneEntry(inodes) && SameRefs(was, inodes) && disk == old(disk)
    {
      ghost var before := inodes;
      Iput(ip);
      AddedBack(was, before, inodes, before[ip].id);
    }

    method LockHeld(k: nat, ghost was: seq<Inode>) returns (node: Option<Node>)
      requires Holding(was, inodes, k, disk)
      modifies `inodes
      ensures Holding(was, inodes, k, disk) && inodes[k].id == old(inodes)[k].id
      ensures node == if inodes[k].id in disk then Some(disk[inodes[k].id]) else None
    {
      ghost var before := inodes;
      node := Ilock(k);
      SameHolding(was, before, inodes, k, disk);
    }
  }

  /** At(k): entry k; Missing: a null pointer; NoInodes and NoType: the panics of iget and ilock. */
  datatype Found = At(k: nat) | Missing | NoInodes | NoType

  datatype Turn = Go(k: nat) | Stop(found: Found)

  /** The walk along `done` has led to d, and `rest` lies ahead. */
  ghost predicate Ahead(disk: Disk, from: Id, names: seq<seq<byte>>, parent: bool, done: seq<seq<byte>>, d: Id,
                        rest: seq<seq<byte>>) {
    && names == done + rest && Resolve(disk, from, done, false) == Named(d)
    && Resolve(disk, from, names, parent) == Resolve(disk, d, rest, parent)
  }

  /** Directory d has an entry `name` for inode `to`. */
  predicate Leads(disk: Disk, d: Id, name: seq<byte>, to: Id) {
    d in disk && disk[d].kind == DirKind && name in AsMap(disk[d].slots) && to == (d.0, AsMap(disk[d].slots)[name])
  }

  lemma AheadStep(disk: Disk, from: Id, names: seq<seq<byte>>, parent: bool, done: seq<seq<byte>>, d: Id,
                  name: seq<byte>, tail: seq<seq<byte>>)
    requires Ahead(disk, from, names, parent, done, d, [name] + tail) && !(parent && tail == [])
    requires d in disk && disk[d].kind == DirKind && name in AsMap(disk[d].slots)
    ensures Ahead(disk, from, names, parent, done + [name], (d.0, AsMap(disk[d].slots)[name]), tail)
  {
    ResolveAppend(disk, from, done, d, name);
    ResolveHead(disk, d, name, tail, parent);
    assert done + ([name] + tail) == done + [name] + tail;
    hide Resolve;
  }

  /** The first component decides. */
  lemma ResolveHead(disk: Disk, d: Id, name: seq<byte>, tail: seq<seq<byte>>, parent: bool)
    ensures d !in disk ==> Resolve(disk, d, [name] + tail, parent) == Unallocated(d)
    ensures d in disk && disk[d].kind != DirKind ==> Resolve(disk, d, [name] + tail, parent) == NoSuch
    ensures d in disk && disk[d].kind == DirKind && parent && tail == [] ==>
              Resolve(disk, d, [name] + tail, parent) == Named(d)
    ensures d in disk && disk[d].kind == DirKind && !(parent && tail == []) ==>
              var m := AsMap(disk[d].slots);
              Resolve(disk, d, [name] + tail, parent) == if name in m then Resolve(disk, (d.0, m[name]), tail, parent)
                else NoSuch
  {
    var names := [name] + tail;
    assert names[0] == name && names[1..] == tail && |names| == 1 + |tail|;
  }

  /** What namex returns against the walk along the names. */
  ghost predicate Outcome(disk: Disk, start: Id, names: seq<seq<byte>>, parent: bool, was: seq<Inode>,
                          inodes: seq<Inode>, r: Found) {
    match r
    case At(k) => k < |inodes| && Resolve(disk, start, names, parent) == Named(inodes[k].id) &&
      Added(was, inodes, inodes[k].id, 1)
    case Missing => Resolve(disk, start, names, parent) == NoSuch && SameRefs(was, inodes)
    case NoType => Resolve(disk, start, names, parent).Unallocated?
    case NoInodes => Stuck(disk, start, names, inodes)
  }

  lemma StuckAtStart(disk: Disk, start: Id, names: seq<seq<byte>>, inodes: seq<Inode>)
    requires NoEntryFor(inodes, start)
    ensures Stuck(disk, start, names, inodes)
  {
    assert names[..0] == [];
    assert StuckAt(disk, start, names, inodes, 0);
  }

  lemma StuckAfter(disk: Disk, start: Id, names: seq<seq<byte>>, inodes: seq<Inode>, done: seq<seq<byte>>)
    requires done <= names && Resolve(disk, start, done, false).Named? &&
             NoEntryFor(inodes, Resolve(disk, start, done, false).id)
    ensures Stuck(disk, start, names, inodes)
  {
    assert names[..|done|] == done;
    assert StuckAt(disk, start, names, inodes, |done|);
  }

  /** The walk holds exactly one reference, to the inode of entry k, and it is not the last one of a removed inode. */
  ghost predicate Holding(was: seq<Inode>, inodes: seq<Inode>, k: nat, disk: Disk) {
    && OneEntry(inodes) && Loaded(inodes, disk) && k < |inodes| && inodes[k].ref > 0
    && Added(was, inodes, inodes[k].id, 1)
    && (inodes[k].id in disk ==> disk[inodes[k].id].nlink > 0 || Refs(inodes, inodes[k].id) > 1)
  }

  lemma AddedBack(a: seq<Inode>, b: seq<Inode>, c: seq<Inode>, id: Id)
    requires Added(a, b, id, 1) && Added(b, c, id, -1)
    ensures SameRefs(a, c)
  {
    forall i: Id
      ensures Refs(c, i) == Refs(a, i)
    {
      assert Refs(b, i) == Refs(a, i) + if i == id then 1 else 0;
    }
  }

  lemma HoldsStart(was: seq<Inode>, inodes: seq<Inode>, k: nat, disk: Disk)
    requires OneEntry(inodes) && Loaded(inodes, disk) && k < |inodes| && inodes[k].ref > 0 &&
             Added(was, inodes, inodes[k].id, 1)
    requires Kept(disk, was, inodes[k].id)
    ensures Holding(was, inodes, k, disk)
  {
    assert Refs(inodes, inodes[k].id) == Refs(was, inodes[k].id) + 1;
  }

  lemma SameHolding(was: seq<Inode>, a: seq<Inode>, b: seq<Inode>, k: nat, disk: Disk)
    requires Holding(was, a, k, disk) && Loaded(b, disk) && (b == a || b == a[k := a[k].(valid := true)]) &&
             Added(a, b, a[k].id, 0)
    ensures Holding(was, b, k, disk)
  {
    forall i: Id
      ensures Refs(b, i) == Refs(was, i) + if i == a[k].id then 1 else 0
    {
      assert Refs(b, i) == Refs(a, i);
    }
  }

  /** The entry found stays live when the reference to its directory goes, even if it is the same entry. */
  lemma LiveAfter(was: seq<Inode>, before: seq<Inode>, mid: seq<Inode>, ip: nat, next: nat, disk: Disk)
    requires Holding(was, before, ip, disk) && OneEntry(mid) && |mid| == |before| && next < |mid| && mid[next].ref > 0
    requires Added(before, mid, mid[next].id, 1) && mid[ip].id == before[ip].id && mid[ip].ref >= before[ip].ref
    ensures mid[ip].ref > 0 && (next == ip ==> mid[next].ref > 1) &&
            Refs(mid, mid[ip].id) >= Refs(before, before[ip].id)
  {
    EntryCount(mid, ip);
    LiveHasRefs(before, ip);
    assert Refs(mid, mid[ip].id) == Refs(before, mid[ip].id) + if mid[ip].id == mid[next].id then 1 else 0;
  }

  lemma Passed(was: seq<Inode>, before: seq<Inode>, mid: seq<Inode>, after: seq<Inode>, ip: nat, next: nat, disk: Disk)
    requires Holding(was, before, ip, disk) && OneEntry(after) && Loaded(after, disk) && next < |after| == |mid| &&
             after[next].ref > 0
    requires Added(before, mid, after[next].id, 1) && Added(mid, after, before[ip].id, -1)
    requires Kept(disk, was, after[next].id)
    ensures Holding(was, after, next, disk)
  {
    var from, to := before[ip].id, after[next].id;
    forall i: Id
      ensures Refs(after, i) == Refs(was, i) + if i == to then 1 else 0
    {
      assert Refs(before, i) == Refs(was, i) + if i == from then 1 else 0;
      assert Refs(mid, i) == Refs(before, i) + if i == to then 1 else 0;
    }
    assert Refs(after, to) == Refs(was, to) + 1;
  }
}
