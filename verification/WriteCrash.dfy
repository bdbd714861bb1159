/** A chunked write (`filewrite` in kernel/file.c) through the log (kernel/log.c): a crash at any point
recovers to a consistent file system in which a prefix of the chunks is written. */
module WriteCrash {
  import opened Common
  import opened LogSpec
  import opened LogProtocol
  import opened SerialLog
  import opened BlockMap
  import opened FileBytes
  import opened Accounting
  import opened FileSteps

  /** How blocks are laid out as words.  The theorems hold for every such encoding. */
  datatype Code = Code(
    fixed: nat -> Block,
    inodes: seq<Inode> -> Block,
    bits: seq<bool> -> Block,
    data: (seq<int>, seq<nat>) -> Block
  )

  /** Where the regions of the disk start: inode blocks, bitmap blocks, data blocks. */
  datatype Regions = Regions(inodestart: nat, bmapstart: nat, nmeta: nat)

  /** The elements of `s` that belong to block `k` of `per` elements each. */
  function Piece<T>(s: seq<T>, k: nat, per: nat): (r: seq<T>)
    ensures |r| <= per && forall i | 0 <= i < |r| :: k * per + i < |s| && r[i] == s[k * per + i]
  {
    var from := Min(k * per, |s|);
    s[from..Min(from + per, |s|)]
  }

  /** The contents of block `b` of a file system. */
  function BlockOf(c: Code, p: Regions, fs: Fs, b: nat): Block {
    if b < p.inodestart then c.fixed(b)
    else if b < p.bmapstart then c.inodes(Piece(fs.inodes, b - p.inodestart, IPB))
    else if b < p.nmeta then c.bits(Piece(fs.used, b - p.bmapstart, BPB))
    else if b < |fs.bytes| && b < |fs.words| then c.data(fs.bytes[b], fs.words[b])
    else []
  }

  function FromIx(l: Layout, x: nat): nat {
    if x < l.start then x else x + l.size
  }

  /** The home blocks of a disk of `n` blocks that holds a file system. */
  function HomeOf(c: Code, p: Regions, l: Layout, n: nat, fs: Fs): (h: Disk)
    requires l.size <= n
    ensures |h| == n - l.size
  {
    seq(n - l.size, x requires 0 <= x => BlockOf(c, p, fs, FromIx(l, x)))
  }

  lemma InodesKept(p: Regions, fs: Fs, g: Fs, log: set<nat>, k: nat)
    requires DiskCovered(fs, g, p.inodestart, p.bmapstart, log) && p.inodestart + k !in log
    ensures Piece(fs.inodes, k, IPB) == Piece(g.inodes, k, IPB)
  {
    var r, r' := Piece(fs.inodes, k, IPB), Piece(g.inodes, k, IPB);
    forall i | 0 <= i < |r| ensures r[i] == r'[i] {
      assert InodeBlock(p.inodestart, k * IPB + i) == p.inodestart + k;
      assert SameInode(fs, g, k * IPB + i);
    }
  }

  lemma BitsKept(p: Regions, fs: Fs, g: Fs, log: set<nat>, k: nat)
    requires DiskCovered(fs, g, p.inodestart, p.bmapstart, log) && p.bmapstart + k !in log
    ensures Piece(fs.used, k, BPB) == Piece(g.used, k, BPB)
  {
    var r, r' := Piece(fs.used, k, BPB), Piece(g.used, k, BPB);
    forall i | 0 <= i < |r| ensures r[i] == r'[i] {
      assert BitmapBlock(p.bmapstart, k * BPB + i) == p.bmapstart + k;
      assert SameBit(fs, g, k * BPB + i);
    }
  }

  // A transaction changes the contents of the blocks that it logs and of no others.
  lemma BlockKept(c: Code, p: Regions, fs: Fs, g: Fs, log: set<nat>, b: nat)
    requires DiskCovered(fs, g, p.inodestart, p.bmapstart, log) && b !in log
    ensures BlockOf(c, p, fs, b) == BlockOf(c, p, g, b)
  {
    if b < p.inodestart {
    } else if b < p.bmapstart {
      InodesKept(p, fs, g, log, b - p.inodestart);
    } else if b < p.nmeta {
      BitsKept(p, fs, g, log, b - p.bmapstart);
    } else {
      assert SameBlock(fs, g, b);
    }
  }

  lemma HomeDiffers(c: Code, p: Regions, l: Layout, n: nat, fs: Fs, g: Fs, op: set<nat>)
    requires DiskCovered(fs, g, p.inodestart, p.bmapstart, op) && l.size <= n
    ensures DifferOn(l, HomeOf(c, p, l, n, fs), HomeOf(c, p, l, n, g), op)
  {
    forall b: nat {:trigger HomeIx(l, b)} | b !in op && !InLog(l, b) && 0 <= HomeIx(l, b) < n - l.size
      ensures HomeOf(c, p, l, n, g)[HomeIx(l, b)] == HomeOf(c, p, l, n, fs)[HomeIx(l, b)]
    {
      BlockKept(c, p, fs, g, op, b);
    }
  }

  /** The disks between the chunks. */
  function Homes(c: Code, p: Regions, l: Layout, n: nat, snaps: seq<Snap>): (hs: seq<Disk>)
    requires l.size <= n
    ensures |hs| == |snaps| && forall k | 0 <= k < |hs| :: hs[k] == HomeOf(c, p, l, n, snaps[k].fs)
  {
    seq(|snaps|, k requires 0 <= k < |snaps| => HomeOf(c, p, l, n, snaps[k].fs))
  }

  // The chunks are operations of a plan: no more than MAXOPBLOCKS home blocks each, and nothing else changes.
  lemma ChunksArePlan(c: Code, p: Regions, l: Layout, n: nat, snaps: seq<Snap>, ops: seq<set<nat>>,
                      files: seq<seq<int>>, i: nat, off: nat, src: seq<int>)
    requires Snaps(snaps, ops, p.nmeta, p.inodestart, p.bmapstart, files, i, off, src)
    requires l.size <= n && l.start + l.size <= p.inodestart
    ensures Plan(l, Homes(c, p, l, n, snaps), ops)
  {
    var hs := Homes(c, p, l, n, snaps);
    forall k | 0 <= k < |ops| ensures DifferOn(l, hs[k], hs[k + 1], ops[k]) && OpFits(l, ops[k]) {
      assert SnapStep(snaps[k], snaps[k + 1], ops[k], p.inodestart, p.bmapstart);
      HomeDiffers(c, p, l, n, snaps[k].fs, snaps[k + 1].fs, ops[k]);
    }
  }

  // A chunked write never panics in the log, and a crash at any point of it recovers to a consistent file system in
  // which a prefix of the chunks is written, and nothing else: at least the chunks whose `end_op` returned.
  lemma WriteSurvivesCrash(c: Code, p: Regions, l: Layout, d0: Disk, ss: seq<State>, acts: seq<Action>,
                           snaps: seq<Snap>, ops: seq<set<nat>>, files: seq<seq<int>>, i: nat, off: nat, src: seq<int>,
                           j: nat)
    requires Snaps(snaps, ops, p.nmeta, p.inodestart, p.bmapstart, files, i, off, src)
    requires MAXOPBLOCKS + 1 < l.size <= |d0| && l.start + l.size <= p.inodestart
    requires WriterRun(l, d0, ss, acts, Homes(c, p, l, |d0|, snaps), ops) && j < |ss|
    ensures !ss[j].panicked && ss[j].acked <= |ss[j].done| <= |ops|
    ensures var t := snaps[|ss[j].done|];
      RecoversTo(l, ss[j].m.disk, HomeOf(c, p, l, |d0|, t.fs)) && SnapOk(t, p.nmeta, files, i, off, src)
  {
    ChunksArePlan(c, p, l, |d0|, snaps, ops, files, i, off, src);
    var hs := Homes(c, p, l, |d0|, snaps);
    WriterNeverPanics(l, d0, ss, acts, hs, ops, j);
    RecoversPrefix(l, d0, ss, acts, hs, ops, j);
    assert SnapOk(snaps[|ss[j].done|], p.nmeta, files, i, off, src);
  }
}
