/**
 * Directories of fs.c: a directory file is a sequence of 16-byte slots, each a 16-bit inode number (0 for an
 * empty slot) and a name of up to 14 bytes, padded with NULs and not terminated when it is full.
 */
module Directory {
  import opened Blocks
  import opened Options

  const DIRSIZ := 14

  datatype Dirent = Dirent(inum: nat, name: seq<byte>)

  predicate Live(d: Dirent) {
    d.inum != 0
  }

  // ---- Names ----

  /** The part of a C string that counts: up to its NUL, and at most n bytes. */
  function Prefix(s: seq<byte>, n: nat): (r: seq<byte>)
    ensures |r| <= n && |r| <= |s| && 0 !in r
  {
    if n == 0 || s == [] || s[0] == 0 then [] else [s[0]] + Prefix(s[1..], n - 1)
  }

  function Key(s: seq<byte>): seq<byte> {
    Prefix(s, DIRSIZ)
  }

  /** The byte at position i of a C string. */
  function Char(s: seq<byte>, i: nat): byte {
    if i < |s| then s[i] else 0
  }

  function Zeros(n: nat): seq<byte> {
    seq<byte>(n, _ => 0)
  }

  function EmptySlot(): Dirent {
    Dirent(0, Zeros(DIRSIZ))
  }

  lemma PrefixStep(s: seq<byte>, i: nat, n: nat)
    requires i <= |s|
    ensures Prefix(s[i..], n) == if n == 0 || Char(s, i) == 0 then [] else [Char(s, i)] + Prefix(s[i + 1..], n - 1)
    ensures n > 0 && Char(s, i) != 0 ==> i < |s|
  {
    if i < |s| {
      assert s[i..][1..] == s[i + 1..];
    }
  }

  /** After i equal bytes, the comparison depends on the rest. */
  ghost predicate AgreeUpTo(s: seq<byte>, t: seq<byte>, i: nat) {
    && i <= DIRSIZ && i <= |s| && i <= |t|
    && (Key(s) == Key(t) <==> Prefix(s[i..], DIRSIZ - i) == Prefix(t[i..], DIRSIZ - i))
  }

  lemma AgreeStep(s: seq<byte>, t: seq<byte>, i: nat)
    requires AgreeUpTo(s, t, i) && i < DIRSIZ && Char(s, i) != 0 && Char(s, i) == Char(t, i)
    ensures AgreeUpTo(s, t, i + 1)
  {
    hide Prefix, Key;
    var n := DIRSIZ - i;
    PrefixStep(s, i, n);
    PrefixStep(t, i, n);
    assert Prefix(s[i..], n)[1..] == Prefix(s[i + 1..], n - 1) && Prefix(t[i..], n)[1..] == Prefix(t[i + 1..], n - 1);
  }

  lemma AgreeEnd(s: seq<byte>, t: seq<byte>, i: nat)
    requires AgreeUpTo(s, t, i) && (i == DIRSIZ || Char(s, i) == 0 || Char(s, i) != Char(t, i))
    ensures Key(s) == Key(t) <==> i == DIRSIZ || Char(s, i) == Char(t, i)
  {
    hide Prefix, Key;
    var n := DIRSIZ - i;
    PrefixStep(s, i, n);
    PrefixStep(t, i, n);
    if n > 0 && Char(s, i) != 0 && Char(t, i) != 0 {
      assert Prefix(s[i..], n)[0] == Char(s, i) && Prefix(t[i..], n)[0] == Char(t, i);
    }
  }

  /** namecmp: strncmp over at most 14 bytes. */
  method Namecmp(s: seq<byte>, t: seq<byte>) returns (same: bool)
    ensures same <==> Key(s) == Key(t)
  {
    var i := 0;
    assert AgreeUpTo(s, t, 0) by { assert s[0..] == s && t[0..] == t; }
    hide Key, Char, AgreeUpTo;
    while i < DIRSIZ && Char(s, i) != 0 && Char(s, i) == Char(t, i)
      invariant i <= DIRSIZ && AgreeUpTo(s, t, i)
    {
      AgreeStep(s, t, i);
      i := i + 1;
    }
    AgreeEnd(s, t, i);
    return i == DIRSIZ || Char(s, i) == Char(t, i);
  }

  ghost predicate CopiedUpTo(t: seq<byte>, r: seq<byte>) {
    |r| <= DIRSIZ && |r| <= |t| && Key(t) == r + Prefix(t[|r|..], DIRSIZ - |r|)
  }

  lemma CopyStep(t: seq<byte>, r: seq<byte>)
    requires CopiedUpTo(t, r)
    ensures |r| < DIRSIZ && Char(t, |r|) != 0 ==> CopiedUpTo(t, r + [Char(t, |r|)])
    ensures |r| == DIRSIZ || Char(t, |r|) == 0 ==> Key(t) == r
  {
    hide Prefix, Key;
    var n := |r|;
    PrefixStep(t, n, DIRSIZ - n);
    if n < DIRSIZ && Char(t, n) != 0 {
      var rest := Prefix(t[n + 1..], DIRSIZ - n - 1);
      assert r + ([Char(t, n)] + rest) == r + [Char(t, n)] + rest;
    } else {
      assert r + [] == r;
    }
  }

  /** The first loop of strncpy. */
  method CopyKey(t: seq<byte>) returns (r: seq<byte>)
    ensures r == Key(t)
  {
    r := [];
    assert CopiedUpTo(t, r) by { assert t[0..] == t; }
    hide CopiedUpTo, Key, Char;
    while |r| < DIRSIZ && Char(t, |r|) != 0
      invariant |r| <= DIRSIZ && CopiedUpTo(t, r)
      decreases DIRSIZ - |r|
    {
      CopyStep(t, r);
      r := r + [Char(t, |r|)];
    }
    CopyStep(t, r);
  }

  /** strncpy into a name field: the bytes that count, then NULs. */
  method CopyName(t: seq<byte>) returns (r: seq<byte>)
    ensures r == Key(t) + Zeros(DIRSIZ - |Key(t)|) && |r| == DIRSIZ && Key(r) == Key(t)
  {
    r := CopyKey(t);
    ghost var k := r;
    PaddedKey(k, DIRSIZ - |k|, DIRSIZ);
    hide Prefix;
    while |r| < DIRSIZ
      invariant |k| <= |r| <= DIRSIZ && r == k + Zeros(|r| - |k|)
    {
      r := r + [0];
      assert r == k + Zeros(|r| - |k|);
    }
  }

  lemma {:induction false} PaddedKey(k: seq<byte>, z: nat, n: nat)
    requires 0 !in k && |k| <= n
    ensures Prefix(k + Zeros(z), n) == k
    decreases |k|
  {
    var s := k + Zeros(z);
    if k != [] {
      assert s[0] == k[0] && s[1..] == k[1..] + Zeros(z) && k[0] != 0;
      PaddedKey(k[1..], z, n - 1);
    }
  }

  // ---- A directory is a finite map ----

  /** The entries, the first of each name winning. */
  function AsMap(slots: seq<Dirent>): map<seq<byte>, nat> {
    if slots == [] then map[]
    else
      var rest := AsMap(slots[1..]);
      if Live(slots[0]) then rest[Key(slots[0].name) := slots[0].inum] else rest
  }

  /** No two live slots have the same name. */
  ghost predicate Unique(slots: seq<Dirent>) {
    forall i, j :: 0 <= i < j < |slots| && Live(slots[i]) && Live(slots[j]) ==> Key(slots[i].name) != Key(slots[j].name)
  }

  predicate Matches(d: Dirent, key: seq<byte>) {
    Live(d) && Key(d.name) == key
  }

  /** The first slot with this name, or the number of slots. */
  function Position(slots: seq<Dirent>, key: seq<byte>): (k: nat)
    ensures k <= |slots| && (k < |slots| ==> Matches(slots[k], key))
    ensures forall i :: 0 <= i < k ==> !Matches(slots[i], key)
  {
    if slots == [] || Matches(slots[0], key) then 0 else 1 + Position(slots[1..], key)
  }

  lemma {:induction false} PositionIsMap(slots: seq<Dirent>, key: seq<byte>)
    ensures key in AsMap(slots) <==> Position(slots, key) < |slots|
    ensures key in AsMap(slots) ==> AsMap(slots)[key] == slots[Position(slots, key)].inum
    decreases |slots|
  {
    if slots != [] {
      PositionIsMap(slots[1..], key);
    }
  }

  lemma {:induction false} FillSlot(slots: seq<Dirent>, i: nat, d: Dirent)
    requires i < |slots| && !Live(slots[i]) && Live(d) && Key(d.name) !in AsMap(slots)
    ensures AsMap(slots[i := d]) == AsMap(slots)[Key(d.name) := d.inum]
    decreases |slots|
  {
    if i > 0 {
      assert slots[i := d][1..] == slots[1..][i - 1 := d];
      FillSlot(slots[1..], i - 1, d);
    } else {
      assert slots[i := d][1..] == slots[1..];
    }
  }

  lemma {:induction false} AppendSlot(slots: seq<Dirent>, d: Dirent)
    requires Live(d) && Key(d.name) !in AsMap(slots)
    ensures AsMap(slots + [d]) == AsMap(slots)[Key(d.name) := d.inum]
    decreases |slots|
  {
    if slots == [] {
      assert (slots + [d])[1..] == [];
    } else {
      assert (slots + [d])[1..] == slots[1..] + [d];
      AppendSlot(slots[1..], d);
    }
  }

  lemma {:induction false} ClearSlot(slots: seq<Dirent>, i: nat)
    requires i < |slots| && Live(slots[i]) && Unique(slots)
    ensures AsMap(slots[i := EmptySlot()]) == AsMap(slots) - {Key(slots[i].name)}
    decreases |slots|
  {
    var key := Key(slots[i].name);
    var rest := slots[1..];
    if i > 0 {
      assert slots[i := EmptySlot()][1..] == rest[i - 1 := EmptySlot()];
      ClearSlot(rest, i - 1);
    } else {
      assert slots[i := EmptySlot()][1..] == rest;
      PositionIsMap(rest, key);
      forall k | 0 <= k < |rest|
        ensures !Matches(rest[k], key)
      {
        assert rest[k] == slots[k + 1];
      }
    }
  }

  // ---- dirlookup, dirlink and unlink ----

  /** The first empty slot, or the number of slots. */
  function FirstEmpty(slots: seq<Dirent>): (k: nat)
    ensures k <= |slots| && (k < |slots| ==> !Live(slots[k])) && forall i :: 0 <= i < k ==> Live(slots[i])
  {
    if slots == [] || !Live(slots[0]) then 0 else 1 + FirstEmpty(slots[1..])
  }

  /** writei of one entry at slot k, or just behind the last. */
  function Put(slots: seq<Dirent>, k: nat, d: Dirent): seq<Dirent>
    requires k <= |slots|
  {
    if k < |slots| then slots[k := d] else slots + [d]
  }

  /** The entry dirlink writes. */
  function NewEntry(name: seq<byte>, inum: nat): Dirent {
    Dirent(inum % 0x1_0000, Key(name) + Zeros(DIRSIZ - |Key(name)|))
  }

  /** The slots after dirlink; the inode number field has 16 bits. */
  function Linked(slots: seq<Dirent>, name: seq<byte>, inum: nat): seq<Dirent> {
    Put(slots, FirstEmpty(slots), NewEntry(name, inum))
  }

  /** dirlookup: the inode number and slot of the name, None when there is no such entry. */
  method Dirlookup(slots: seq<Dirent>, name: seq<byte>) returns (r: Option<nat>, off: nat)
    ensures r == None <==> Key(name) !in AsMap(slots)
    ensures r != None ==> r.value == AsMap(slots)[Key(name)] && off == Position(slots, Key(name)) < |slots|
  {
    PositionIsMap(slots, Key(name));
    off := 0;
    assert slots[0..] == slots;
    while off < |slots|
      invariant off <= |slots| && Position(slots, Key(name)) == off + Position(slots[off..], Key(name))
    {
      var d := slots[off];
      assert slots[off..][1..] == slots[off + 1..];
      if d.inum != 0 {
        var same := Namecmp(name, d.name);
        if same {
          return Some(d.inum), off;
        }
      }
      off := off + 1;
    }
    return None, off;
  }

  /** dirlink's search for an empty slot. */
  method FindEmpty(slots: seq<Dirent>) returns (off: nat)
    ensures off == FirstEmpty(slots)
  {
    off := 0;
    assert slots[0..] == slots;
    while off < |slots| && slots[off].inum != 0
      invariant off <= |slots| && FirstEmpty(slots) == off + FirstEmpty(slots[off..])
    {
      assert slots[off..][1..] == slots[off + 1..];
      off := off + 1;
    }
  }

  lemma ClearKeepsUnique(slots: seq<Dirent>, i: nat)
    requires i < |slots| && Unique(slots)
    ensures Unique(slots[i := EmptySlot()])
  {
  }

  lemma LinkKeepsUnique(slots: seq<Dirent>, name: seq<byte>, inum: nat)
    requires Unique(slots) && Key(name) !in AsMap(slots)
    ensures Unique(Linked(slots, name, inum))
  {
    PaddedKey(Key(name), DIRSIZ - |Key(name)|, DIRSIZ);
    PositionIsMap(slots, Key(name));
    hide Prefix, AsMap, Position;
  }

  /** dirlink adds the entry and no other, and keeps names unique, exactly for inode numbers that fit 16 bits. */
  lemma LinkAddsEntry(slots: seq<Dirent>, name: seq<byte>, inum: nat)
    requires Unique(slots) && Key(name) !in AsMap(slots)
    ensures Unique(Linked(slots, name, inum))
    ensures AsMap(Linked(slots, name, inum)) == AsMap(slots)[Key(name) := inum] <==> 0 < inum < 0x1_0000
    ensures |Linked(slots, name, inum)| == |slots| <==> exists i :: 0 <= i < |slots| && !Live(slots[i])
  {
    LinkKeepsUnique(slots, name, inum);
    PaddedKey(Key(name), DIRSIZ - |Key(name)|, DIRSIZ);
    var k, d := FirstEmpty(slots), NewEntry(name, inum);
    if !Live(d) {
      DeadSlot(slots, k, d);
    } else if k < |slots| {
      FillSlot(slots, k, d);
    } else {
      AppendSlot(slots, d);
    }
    hide Prefix, AsMap, FirstEmpty, Unique;
    assert AsMap(slots)[Key(name) := inum][Key(name)] == inum;
  }

  lemma {:induction false} DeadSlot(slots: seq<Dirent>, k: nat, d: Dirent)
    requires k <= |slots| && !Live(d) && (k < |slots| ==> !Live(slots[k]))
    ensures AsMap(Put(slots, k, d)) == AsMap(slots)
    decreases |slots|
  {
    if k > 0 {
      assert Put(slots, k, d)[1..] == Put(slots[1..], k - 1, d);
      DeadSlot(slots[1..], k - 1, d);
    } else if slots != [] {
      assert Put(slots, k, d)[1..] == slots[1..];
    }
  }

  /** Linking a name and clearing it again gives the same directory back. */
  lemma UnlinkUndoesLink(slots: seq<Dirent>, name: seq<byte>, inum: nat)
    requires Unique(slots) && Key(name) !in AsMap(slots) && 0 < inum < 0x1_0000
    ensures var r := Linked(slots, name, inum); var k := Position(r, Key(name));
            k < |r| && AsMap(r[k := EmptySlot()]) == AsMap(slots)
  {
    LinkAddsEntry(slots, name, inum);
    var r := Linked(slots, name, inum);
    PositionIsMap(r, Key(name));
    ClearSlot(r, Position(r, Key(name)));
    assert AsMap(slots)[Key(name) := inum] - {Key(name)} == AsMap(slots);
  }
}
