/** Directory slots as the bytes of the directory's file, and dirlink and unlink on that file. */
module DirectoryFile {
  import opened Blocks
  import opened Options
  import opened BlockMap
  import opened Directory
  import opened FileWrites
  import FS = FileSystem

  const DIRENT := 16
  const T_DIR := 1

  predicate ValidEntry(d: Dirent) {
    d.inum < 0x1_0000 && |d.name| == DIRSIZ
  }

  function Encode(d: Dirent): (r: seq<byte>)
    requires ValidEntry(d)
    ensures |r| == DIRENT
  {
    [Low(d.inum), High(d.inum)] + d.name
  }

  function Low(n: nat): byte {
    n % 0x100
  }

  function High(n: nat): byte
    requires n < 0x1_0000
  {
    n / 0x100
  }

  /** The entry readi returns at byte offset 16 * k. */
  function SlotAt(file: seq<byte>, k: nat): Dirent
    requires DIRENT * k + DIRENT <= |file|
  {
    var lo: int, hi: int := file[DIRENT * k], file[DIRENT * k + 1];
    Dirent(lo + 0x100 * hi, file[DIRENT * k + 2..DIRENT * k + DIRENT])
  }

  function Slots(file: seq<byte>): (r: seq<Dirent>)
    ensures |r| == |file| / DIRENT && forall k :: 0 <= k < |r| ==> r[k] == SlotAt(file, k)
  {
    seq(|file| / DIRENT, k requires 0 <= k < |file| / DIRENT => SlotAt(file, k))
  }

  /** Writing an encoded entry at its offset is putting it in its slot. */
  lemma WriteIsPut(file: seq<byte>, k: nat, d: Dirent)
    requires |file| % DIRENT == 0 && DIRENT * k <= |file| && ValidEntry(d)
    ensures k <= |Slots(file)| && Slots(Overwritten(file, DIRENT * k, Encode(d))) == Put(Slots(file), k, d)
  {
    var file' := Overwritten(file, DIRENT * k, Encode(d));
    var want := Put(Slots(file), k, d);
    assert |Slots(file')| == |want|;
    forall j | 0 <= j < |want|
      ensures SlotAt(file', j) == want[j]
    {
      if j == k {
        WrittenSlot(file, k, d);
      } else {
        OtherSlot(file, k, d, j);
      }
    }
  }

  lemma WrittenSlot(file: seq<byte>, k: nat, d: Dirent)
    requires DIRENT * k <= |file| && ValidEntry(d)
    ensures DIRENT * k + DIRENT <= |Overwritten(file, DIRENT * k, Encode(d))| &&
            SlotAt(Overwritten(file, DIRENT * k, Encode(d)), k) == d
  {
    var file', o := Overwritten(file, DIRENT * k, Encode(d)), DIRENT * k;
    assert file'[o..o + DIRENT] == Encode(d);
    assert file'[o] == Encode(d)[0] && file'[o + 1] == Encode(d)[1];
    assert file'[o + 2..o + DIRENT] == Encode(d)[2..] == d.name;
  }

  lemma OtherSlot(file: seq<byte>, k: nat, d: Dirent, j: nat)
    requires |file| % DIRENT == 0 && DIRENT * k <= |file| && ValidEntry(d) && j != k && DIRENT * j + DIRENT <= |file|
    ensures DIRENT * j + DIRENT <= |Overwritten(file, DIRENT * k, Encode(d))|
    ensures SlotAt(Overwritten(file, DIRENT * k, Encode(d)), j) == SlotAt(file, j)
  {
    var file', o := Overwritten(file, DIRENT * k, Encode(d)), DIRENT * j;
    assert j < k || j >= k + 1;
    assert file'[o..o + DIRENT] == file[o..o + DIRENT];
    assert file'[o] == file'[o..o + DIRENT][0] && file'[o + 1] == file'[o..o + DIRENT][1];
    assert file'[o + 2..o + DIRENT] == file'[o..o + DIRENT][2..];
    assert file[o + 2..o + DIRENT] == file[o..o + DIRENT][2..];
  }

  // ---- dirlink and unlink on the file system ----

  /** Inode j is a directory: a file of whole slots. */
  ghost predicate IsDirectory(fs: FS.FileSystem, j: nat)
    reads fs
  {
    && Consistent(fs.sb, fs.blocks, fs.inodes, fs.owner) && j < |fs.inodes|
    && fs.inodes[j].typ == T_DIR && fs.inodes[j].size % DIRENT == 0
  }

  ghost function SlotsOf(fs: FS.FileSystem, j: nat): (slots: seq<Dirent>)
    requires IsDirectory(fs, j)
    reads fs
    ensures DIRENT * |slots| == fs.inodes[j].size
  {
    Slots(FileBytes(fs.blocks, fs.inodes[j]))
  }

  /** One readi of dirlookup or dirlink. */
  method ReadEntry(fs: FS.FileSystem, j: nat, k: nat) returns (d: Dirent)
    requires IsDirectory(fs, j) && DIRENT * k < fs.inodes[j].size
    modifies fs`blocks, fs`inodes, fs`owner
    ensures fs.blocks == old(fs.blocks) && fs.inodes == old(fs.inodes) && fs.owner == old(fs.owner)
    ensures k < |SlotsOf(fs, j)| && d == SlotsOf(fs, j)[k]
  {
    ghost var file := FileBytes(fs.blocks, fs.inodes[j]);
    assert |file| == fs.inodes[j].size && k < |SlotsOf(fs, j)| && SlotsOf(fs, j)[k] == SlotAt(file, k);
    hide FileBytes, Slots, SlotAt, OwnInv, WriteThrough, MappedBelow;
    var r, de := fs.Readi(j, DIRENT * k, DIRENT);
    EntrySlice(file, k, de);
    d := SlotAt(de, 0);
  }

  lemma EntrySlice(file: seq<byte>, k: nat, de: seq<byte>)
    requires DIRENT * k + DIRENT <= |file| && de == file[DIRENT * k..DIRENT * k + DIRENT]
    ensures SlotAt(de, 0) == SlotAt(file, k)
  {
    var o := DIRENT * k;
    assert de[0] == file[o] && de[1] == file[o + 1] && de[2..DIRENT] == file[o + 2..o + DIRENT];
  }

  /** The slots, read one by one. */
  method ReadSlots(fs: FS.FileSystem, j: nat) returns (slots: seq<Dirent>)
    requires IsDirectory(fs, j)
    modifies fs`blocks, fs`inodes, fs`owner
    ensures fs.blocks == old(fs.blocks) && fs.inodes == old(fs.inodes) && fs.owner == old(fs.owner)
    ensures slots == SlotsOf(fs, j)
  {
    hide Slots, FileBytes, Consistent;
    slots := [];
    while DIRENT * |slots| < fs.inodes[j].size
      invariant fs.blocks == old(fs.blocks) && fs.inodes == old(fs.inodes) && fs.owner == old(fs.owner)
      invariant |slots| <= |SlotsOf(fs, j)| && slots == SlotsOf(fs, j)[..|slots|]
      decreases |SlotsOf(fs, j)| - |slots|
    {
      var d := ReadEntry(fs, j, |slots|);
      slots := slots + [d];
    }
  }

  /** What dirlink does; CannotGrow is its panic when writei fails or panics. */
  datatype LinkResult = Entered | Exists | CannotGrow

  /** Every file but j is as it was. */
  twostate predicate OtherFilesSame(fs: FS.FileSystem, j: nat)
    reads fs
  {
    && |fs.inodes| == old(|fs.inodes|)
    && forall i :: 0 <= i < |fs.inodes| && i != j ==>
         && fs.inodes[i] == old(fs.inodes)[i] && fs.inodes[i].Valid() && fs.inodes[i].size <= MAXBLOCKS * BSIZE
         && FileBytes(fs.blocks, fs.inodes[i]) == FileBytes(old(fs.blocks), old(fs.inodes)[i])
  }

  /** writei of one entry at its slot, or just behind the last. */
  method WriteEntry(fs: FS.FileSystem, j: nat, k: nat, d: Dirent) returns (ok: bool)
    requires IsDirectory(fs, j) && k <= |SlotsOf(fs, j)| && ValidEntry(d)
    modifies fs`blocks, fs`inodes, fs`owner
    ensures ok <==> && DIRENT * k + DIRENT <= MAXBLOCKS * BSIZE
                    && Growth(old(fs.inodes)[j].size, DIRENT * k + DIRENT) <= FreeBlocks(fs.sb, old(fs.blocks))
    ensures ok ==> IsDirectory(fs, j) && SlotsOf(fs, j) == Put(old(SlotsOf(fs, j)), k, d) && OtherFilesSame(fs, j)
  {
    ghost var file := FileBytes(fs.blocks, fs.inodes[j]);
    WriteIsPut(file, k, d);
    var r := fs.Writei(j, Encode(d), DIRENT * k);
    ok := r == FS.Done(DIRENT);
  }

  /**
   * dirlink: refused when the name is present; otherwise the first empty slot is used, or a new one. It panics
   * exactly when bmap cannot reach the slot or fewer blocks are free than the directory then needs.
   */
  method Dirlink(fs: FS.FileSystem, j: nat, name: seq<byte>, inum: nat) returns (r: LinkResult)
    requires IsDirectory(fs, j)
    modifies fs`blocks, fs`inodes, fs`owner
    ensures r == Exists <==> Key(name) in AsMap(old(SlotsOf(fs, j)))
    ensures r == Exists ==> fs.blocks == old(fs.blocks) && fs.inodes == old(fs.inodes)
    ensures r == Entered ==> IsDirectory(fs, j) && OtherFilesSame(fs, j)
    ensures r == Entered ==> SlotsOf(fs, j) == Linked(old(SlotsOf(fs, j)), name, inum)
    ensures var end := DIRENT * FirstEmpty(old(SlotsOf(fs, j))) + DIRENT;
            r == CannotGrow <==>
              && Key(name) !in AsMap(old(SlotsOf(fs, j)))
              && (end > MAXBLOCKS * BSIZE || Growth(old(fs.inodes)[j].size, end) > FreeBlocks(fs.sb, old(fs.blocks)))
  {
    hide Slots, FileBytes, Consistent, AsMap, Key, Growth, FreeBlocks, FirstEmpty;
    var slots := ReadSlots(fs, j);
    var found, _ := Dirlookup(slots, name);
    if found != None {
      return Exists;
    }
    var off := FindEmpty(slots);
    var copy := CopyName(name);
    var ok := WriteEntry(fs, j, off, Dirent(inum % 0x1_0000, copy));
    return if ok then Entered else CannotGrow;
  }

  /** The write of zeros in sys_unlink, at the slot dirlookup found: the directory loses that name, without fail. */
  method Unlink(fs: FS.FileSystem, j: nat, name: seq<byte>, off: nat) returns (ok: bool)
    requires IsDirectory(fs, j) && Unique(SlotsOf(fs, j))
    requires off == Position(SlotsOf(fs, j), Key(name)) < |SlotsOf(fs, j)|
    modifies fs`blocks, fs`inodes, fs`owner
    ensures ok && IsDirectory(fs, j) && OtherFilesSame(fs, j) && Unique(SlotsOf(fs, j))
    ensures AsMap(SlotsOf(fs, j)) == AsMap(old(SlotsOf(fs, j))) - {Key(name)}
    ensures |SlotsOf(fs, j)| == |old(SlotsOf(fs, j))|
  {
    hide Slots, FileBytes, OwnInv, WriteThrough, MappedBelow, AsMap, Key, Unique, Position, Growth, FreeBlocks;
    ClearSlot(SlotsOf(fs, j), off);
    ClearKeepsUnique(SlotsOf(fs, j), off);
    NoGrowth(fs.inodes[j].size, DIRENT * off + DIRENT);
    ok := WriteEntry(fs, j, off, EmptySlot());
  }
}
