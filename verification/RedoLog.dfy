/**
 * The on-disk redo log of log.c as pure functions of the disk: what recovery makes of any
 * disk image, and why each single block write of a commit or of a recovery leaves that
 * outcome alone, except the one header write that commits.
 */
module RedoLog {
  import opened Blocks
  import opened Sequences

  const MAXOPBLOCKS := 10
  const LOGSIZE := 3 * MAXOPBLOCKS

  type Disk = seq<Block>

  /** `log.start`, `log.size` and the number of blocks on the disk. */
  datatype Layout = Layout(start: nat, nlog: nat, size: nat) {
    ghost predicate Valid() {
      1 <= nlog && start + nlog <= size < 0x1_0000_0000
    }

    /** The most blocks `log_write` lets into one transaction. */
    function Capacity(): int {
      if LOGSIZE < nlog - 1 then LOGSIZE else nlog - 1
    }

    predicate InLog(b: int) {
      start <= b < start + nlog
    }

    predicate IsHome(b: int) {
      0 <= b < size && !InLog(b)
    }

    ghost predicate Fits(d: Disk) {
      Valid() && |d| == size
    }
  }

  /** `lh.block[0..lh.n]` is something a transaction may contain. */
  ghost predicate LegalHeader(L: Layout, hb: seq<nat>) {
    |hb| <= L.Capacity() && forall i :: 0 <= i < |hb| ==> L.IsHome(hb[i])
  }

  function HeaderCount(L: Layout, d: Disk): nat
    requires L.Fits(d)
  {
    GetWord(d[L.start], 0)
  }

  /** The header block decoded as `struct logheader`. */
  function Header(L: Layout, d: Disk): seq<nat>
    requires L.Fits(d)
    requires HeaderCount(L, d) <= LOGSIZE
  {
    seq(HeaderCount(L, d), i requires 0 <= i < HeaderCount(L, d) => GetWord(d[L.start], i + 1))
  }

  ghost predicate LegalDisk(L: Layout, d: Disk) {
    && L.Fits(d)
    && HeaderCount(L, d) <= LOGSIZE
    && LegalHeader(L, Header(L, d))
  }

  /** Log slot `i`, the block after the header that holds the copy of `lh.block[i]`. */
  function Slot(L: Layout, d: Disk, i: nat): Block
    requires L.Fits(d) && i < L.nlog - 1
  {
    d[L.start + 1 + i]
  }

  /** What `write_head` leaves in the header block: `n`, the first `n` entries, the rest as it was. */
  function EncodeHeader(b: Block, hb: seq<nat>): (r: Block)
    requires |hb| <= LOGSIZE
    requires forall i :: 0 <= i < |hb| ==> hb[i] < 0x1_0000_0000
    ensures GetWord(r, 0) == |hb|
    ensures forall i :: 0 <= i < |hb| ==> GetWord(r, i + 1) == hb[i]
  {
    EncodeEntries(SetWord(b, 0, |hb|), hb, |hb|)
  }

  function EncodeEntries(b: Block, hb: seq<nat>, n: nat): (r: Block)
    requires n <= |hb| <= LOGSIZE
    requires forall i :: 0 <= i < |hb| ==> hb[i] < 0x1_0000_0000
    ensures GetWord(r, 0) == GetWord(b, 0)
    ensures forall i :: 0 <= i < n ==> GetWord(r, i + 1) == hb[i]
  {
    if n == 0 then b else SetWord(EncodeEntries(b, hb, n - 1), n, hb[n - 1])
  }

  /** The header round trip: reading back what `write_head` stored gives the in-memory header. */
  lemma HeaderRoundTrip(L: Layout, d: Disk, hb: seq<nat>)
    requires L.Fits(d) && LegalHeader(L, hb)
    ensures HeaderCount(L, d[L.start := EncodeHeader(d[L.start], hb)]) == |hb|
    ensures Header(L, d[L.start := EncodeHeader(d[L.start], hb)]) == hb
  {
  }

  /** Installing log block `tail` at its home location. */
  function InstallOne(L: Layout, d: Disk, hb: seq<nat>, tail: nat): (r: Disk)
    requires L.Fits(d) && LegalHeader(L, hb) && tail < |hb|
  {
    d[hb[tail] := Slot(L, d, tail)]
  }

  /** Installing changes the one home block: no other, no log block, and not the header. */
  lemma InstallOneAt(L: Layout, d: Disk, hb: seq<nat>, tail: nat)
    requires LegalDisk(L, d) && LegalHeader(L, hb) && tail < |hb|
    ensures var e := InstallOne(L, d, hb, tail);
            && LegalDisk(L, e) && Header(L, e) == Header(L, d)
            && (forall i :: 0 <= i < L.nlog - 1 ==> Slot(L, e, i) == Slot(L, d, i))
            && (forall b :: L.IsHome(b) && b != hb[tail] ==> e[b] == d[b])
  {
    assert InstallOne(L, d, hb, tail)[L.start] == d[L.start];
  }

  /** `install_trans` after its first `n` iterations. */
  function InstallPrefix(L: Layout, d: Disk, hb: seq<nat>, n: nat): (r: Disk)
    requires L.Fits(d) && LegalHeader(L, hb) && n <= |hb|
    ensures |r| == |d|
    ensures forall b :: L.InLog(b) ==> r[b] == d[b]
  {
    if n == 0 then d else InstallOne(L, InstallPrefix(L, d, hb, n - 1), hb, n - 1)
  }

  /** `recover_from_log`: install every logged block, then clear the header. */
  function Recovered(L: Layout, d: Disk): (r: Disk)
    requires LegalDisk(L, d)
    ensures |r| == |d|
  {
    var hb := Header(L, d);
    var installed := InstallPrefix(L, d, hb, |hb|);
    installed[L.start := EncodeHeader(installed[L.start], [])]
  }

  /** Two disks that agree everywhere outside the log area. */
  ghost predicate SameHome(L: Layout, d: Disk, e: Disk) {
    |d| == |e| == L.size && forall b :: L.IsHome(b) ==> d[b] == e[b]
  }

  /** The last log slot below `n` that holds block `b`, or -1. */
  function LastSlot(hb: seq<nat>, n: nat, b: nat): (k: int)
    requires n <= |hb|
    ensures -1 <= k < n
    ensures k >= 0 ==> hb[k] == b
    ensures forall j :: k < j < n ==> hb[j] != b
  {
    if n == 0 then -1 else if hb[n - 1] == b then n - 1 else LastSlot(hb, n - 1, b)
  }

  /** Block by block: a home block ends up as its last log copy, or unchanged if it has none. */
  lemma {:induction false} InstallPrefixAt(L: Layout, d: Disk, hb: seq<nat>, n: nat, b: nat)
    requires L.Fits(d) && LegalHeader(L, hb) && n <= |hb| && L.IsHome(b)
    ensures InstallPrefix(L, d, hb, n)[b] ==
            if LastSlot(hb, n, b) == -1 then d[b] else Slot(L, d, LastSlot(hb, n, b))
  {
    if n > 0 {
      InstallPrefixAt(L, d, hb, n - 1, b);
      assert L.InLog(L.start + n);
    }
  }

  /** Recovery, block by block. */
  lemma RecoveredAt(L: Layout, d: Disk, b: nat)
    requires LegalDisk(L, d) && L.IsHome(b)
    ensures var hb := Header(L, d);
            Recovered(L, d)[b] ==
            if LastSlot(hb, |hb|, b) == -1 then d[b] else Slot(L, d, LastSlot(hb, |hb|, b))
  {
    InstallPrefixAt(L, d, Header(L, d), |Header(L, d)|, b);
  }

  /** With no block logged twice, recovery puts each log copy where it belongs. */
  lemma RecoveredSlot(L: Layout, d: Disk, i: nat)
    requires LegalDisk(L, d) && Distinct(Header(L, d)) && i < |Header(L, d)|
    ensures Recovered(L, d)[Header(L, d)[i]] == Slot(L, d, i)
  {
    var hb := Header(L, d);
    RecoveredAt(L, d, hb[i]);
    assert LastSlot(hb, |hb|, hb[i]) == i;
  }

  /** Two disks with one header and one set of logged copies recover alike if they agree off the header. */
  lemma RecoverySameLog(L: Layout, d: Disk, e: Disk)
    requires LegalDisk(L, d) && LegalDisk(L, e) && Header(L, d) == Header(L, e)
    requires forall i :: 0 <= i < |Header(L, d)| ==> Slot(L, d, i) == Slot(L, e, i)
    requires forall b :: L.IsHome(b) && b !in Header(L, d) ==> d[b] == e[b]
    ensures SameHome(L, Recovered(L, d), Recovered(L, e))
  {
    forall b | L.IsHome(b)
      ensures Recovered(L, d)[b] == Recovered(L, e)[b]
    {
      RecoveredAt(L, d, b);
      RecoveredAt(L, e, b);
    }
  }

  /** Before the commit point: with an empty header, recovery changes no home block. */
  lemma EmptyLogRecovers(L: Layout, d: Disk)
    requires LegalDisk(L, d) && HeaderCount(L, d) == 0
    ensures SameHome(L, Recovered(L, d), d)
  {
    forall b | L.IsHome(b)
      ensures Recovered(L, d)[b] == d[b]
    {
      RecoveredAt(L, d, b);
    }
  }

  /** `write_log` steps are invisible to recovery while the header is empty. */
  lemma LogBlockWriteInvisible(L: Layout, d: Disk, tail: nat, x: Block)
    requires LegalDisk(L, d) && HeaderCount(L, d) == 0 && tail < L.Capacity()
    ensures LegalDisk(L, d[L.start + 1 + tail := x])
    ensures HeaderCount(L, d[L.start + 1 + tail := x]) == 0
    ensures SameHome(L, Recovered(L, d), Recovered(L, d[L.start + 1 + tail := x]))
  {
    var e := d[L.start + 1 + tail := x];
    assert e[L.start] == d[L.start];
    assert Header(L, e) == Header(L, d) == [];
    RecoverySameLog(L, d, e);
  }

  /** The commit point: one header write makes recovery produce the logged copies. */
  lemma HeaderWriteCommits(L: Layout, d: Disk, hb: seq<nat>, goal: Disk)
    requires L.Fits(d) && LegalHeader(L, hb) && |goal| == L.size
    requires forall i :: 0 <= i < |hb| ==> Slot(L, d, i) == goal[hb[i]]
    requires forall b :: L.IsHome(b) && b !in hb ==> d[b] == goal[b]
    ensures var e := d[L.start := EncodeHeader(d[L.start], hb)];
            LegalDisk(L, e) && Header(L, e) == hb && SameHome(L, Recovered(L, e), goal)
  {
    HeaderRoundTrip(L, d, hb);
    var e := d[L.start := EncodeHeader(d[L.start], hb)];
    forall b | L.IsHome(b)
      ensures Recovered(L, e)[b] == goal[b]
    {
      RecoveredAt(L, e, b);
      if LastSlot(hb, |hb|, b) == -1 {
        assert b !in hb;
      }
    }
  }

  /** Every install step is invisible to recovery, so recovery may be cut short and rerun. */
  lemma InstallInvisible(L: Layout, d: Disk, tail: nat)
    requires LegalDisk(L, d) && tail < HeaderCount(L, d)
    ensures var e := InstallOne(L, d, Header(L, d), tail);
            && LegalDisk(L, e) && Header(L, e) == Header(L, d)
            && SameHome(L, Recovered(L, d), Recovered(L, e))
  {
    var hb := Header(L, d);
    InstallOneAt(L, d, hb, tail);
    RecoverySameLog(L, d, InstallOne(L, d, hb, tail));
  }

  /** One more install step on a disk that recovers as `d` does. */
  lemma InvisibleThen(L: Layout, d: Disk, m: Disk, n: nat)
    requires LegalDisk(L, d) && LegalDisk(L, m) && Header(L, m) == Header(L, d) && n < |Header(L, d)|
    requires SameHome(L, Recovered(L, d), Recovered(L, m))
    ensures var e := InstallOne(L, m, Header(L, d), n);
            && LegalDisk(L, e) && Header(L, e) == Header(L, d)
            && SameHome(L, Recovered(L, d), Recovered(L, e))
  {
    InstallInvisible(L, m, n);
    hide LegalDisk, Header, Recovered, InstallOne;
  }

  /** The same for the first `n` install steps of one pass. */
  lemma {:induction false} InstallPrefixInvisible(L: Layout, d: Disk, n: nat)
    requires LegalDisk(L, d) && n <= |Header(L, d)|
    ensures var e := InstallPrefix(L, d, Header(L, d), n);
            && LegalDisk(L, e) && Header(L, e) == Header(L, d)
            && SameHome(L, Recovered(L, d), Recovered(L, e))
    decreases n
  {
    hide Header, Recovered, InstallOne;
    if n > 0 {
      InstallPrefixInvisible(L, d, n - 1);
      InvisibleThen(L, d, InstallPrefix(L, d, Header(L, d), n - 1), n - 1);
    }
  }

  /** Clearing the header after a full install pass is invisible to recovery. */
  lemma ClearInvisible(L: Layout, d: Disk)
    requires LegalDisk(L, d)
    ensures var e := Recovered(L, d);
            && LegalDisk(L, e) && HeaderCount(L, e) == 0
            && SameHome(L, Recovered(L, e), e)
  {
    var hb := Header(L, d);
    var installed := InstallPrefix(L, d, hb, |hb|);
    HeaderRoundTrip(L, installed, []);
    EmptyLogRecovers(L, Recovered(L, d));
  }
}
