/** The steps of `bmap`, `readi`, `writei` and `itrunc` (kernel/fs.c) on values. */
module FileSteps {
  import opened Common
  import opened BlockMap
  import opened FileBytes
  import opened Truncate
  import opened Accounting

  // ---------------------------------------------------------------- arithmetic

  /** Addition of 32-bit unsigned numbers. */
  function UintAdd(a: nat, b: nat): (r: nat)
    requires a < UINT_LIMIT && b < UINT_LIMIT
    ensures r == if a + b < UINT_LIMIT then a + b else a + b - UINT_LIMIT
  {
    (a + b) % UINT_LIMIT
  }

  /** Where the round of readi or writei that starts at byte `tot` of `n` ends: at a block boundary, or at the end. */
  function RoundEnd(off: nat, tot: nat, n: nat): (end: nat)
    requires tot < n
    ensures tot < end <= n && (off + tot) % BSIZE + (end - tot) <= BSIZE
    ensures end == n || (off + end) % BSIZE == 0
  {
    tot + Min(n - tot, BSIZE - (off + tot) % BSIZE)
  }

  lemma JoinSlices(s: seq<int>, a: nat, b: nat, c: nat)
    requires a <= b <= c <= |s|
    ensures s[a..b] + s[b..c] == s[a..c]
  {
  }

  lemma SliceOfFile(fs: Fs, i: nat, data: seq<int>, off: nat, m: nat)
    requires i < |fs.inodes| && Stores(fs, i, data) && m >= 1 && off % BSIZE + m <= BSIZE && off + m <= |data|
    requires var b := Named(fs, i, SlotOf(off / BSIZE)); b < |fs.bytes| && |fs.bytes[b]| == BSIZE
    ensures fs.bytes[Named(fs, i, SlotOf(off / BSIZE))][off % BSIZE..off % BSIZE + m] == data[off..off + m]
  {
    var b := Named(fs, i, SlotOf(off / BSIZE));
    forall x | off <= x < off + m
      ensures fs.bytes[b][x - off + off % BSIZE] == data[x]
    {
      assert ByteAt(fs, i, x) == data[x];
    }
  }

  // ---------------------------------------------------------------- all files

  ghost predicate AllFiles(fs: Fs, files: seq<seq<int>>) {
    && |files| == |fs.inodes|
    && forall j | 0 <= j < |fs.inodes| :: IsFile(fs, j, files[j])
  }

  ghost predicate AllOthers(fs: Fs, files: seq<seq<int>>, i: nat) {
    && |files| == |fs.inodes|
    && forall j | 0 <= j < |fs.inodes| && j != i :: IsFile(fs, j, files[j])
  }

  /** Only inode `i` may differ, and not in its size. */
  ghost predicate OnlyInode(before: seq<Inode>, after: seq<Inode>, i: nat) {
    && |after| == |before| && i < |before| && after[i].size == before[i].size
    && forall j | 0 <= j < |before| && j != i :: after[j] == before[j]
  }

  /** Inodes per inode block. */
  const IPB: nat := 16

  function InodeBlock(start: nat, i: nat): nat {
    i / IPB + start
  }

  /** The inode blocks are followed by the bitmap blocks and these by the data blocks, and there are enough of them. */
  ghost predicate LaidOut(nmeta: nat, inodestart: nat, bmapstart: nat, ninodes: nat, size: nat) {
    && inodestart <= bmapstart <= nmeta
    && ninodes <= (bmapstart - inodestart) * IPB && size <= (nmeta - bmapstart) * BPB
  }

  // ---------------------------------------------------------------- what is not logged does not change

  ghost predicate SameBlock(fs: Fs, g: Fs, b: nat) {
    b < |fs.bytes| && b < |g.bytes| && b < |fs.words| && b < |g.words| ==>
      g.bytes[b] == fs.bytes[b] && g.words[b] == fs.words[b]
  }

  ghost predicate SameBit(fs: Fs, g: Fs, b: nat) {
    InUse(g.used, b) <==> InUse(fs.used, b)
  }

  /** Data blocks outside `log` are the same in `fs` and `g`, and so are the bits of bitmap blocks outside it. */
  ghost predicate Covered(fs: Fs, g: Fs, start: nat, log: set<nat>) {
    && |g.used| == |fs.used| && |g.bytes| == |fs.bytes| && |g.words| == |fs.words|
    && (forall b {:trigger SameBlock(fs, g, b)} :: b !in log ==> SameBlock(fs, g, b))
    && (forall b {:trigger SameBit(fs, g, b)} :: BitmapBlock(start, b) !in log ==> SameBit(fs, g, b))
  }

  lemma CoveredSame(fs: Fs, start: nat, log: set<nat>)
    ensures Covered(fs, fs, start, log)
  {
  }

  lemma CoveredMore(fs: Fs, f1: Fs, g: Fs, start: nat, log1: set<nat>, log2: set<nat>)
    requires Covered(fs, f1, start, log1) && Covered(f1, g, start, log2) && log1 <= log2
    ensures Covered(fs, g, start, log2)
  {
    forall b | b !in log2 ensures SameBlock(fs, g, b) { assert SameBlock(fs, f1, b) && SameBlock(f1, g, b); }
    forall b | BitmapBlock(start, b) !in log2
      ensures SameBit(fs, g, b)
    {
      assert SameBit(fs, f1, b) && SameBit(f1, g, b);
    }
  }

  lemma SlotCovered(fs: Fs, i: nat, k: nat, b: nat, start: nat, log: set<nat>)
    requires i < |fs.inodes| && k < NSLOTS && |fs.inodes[i].addrs| == NDIRECT + 1
    requires |fs.bytes| == |fs.words| == |fs.used|
    requires k > NDIRECT ==>
      fs.inodes[i].addrs[NDIRECT] < |fs.words| && |fs.words[fs.inodes[i].addrs[NDIRECT]]| == NINDIRECT
    requires b < |fs.used| && b in log && BitmapBlock(start, b) in log
    requires (k > NDIRECT ==> fs.inodes[i].addrs[NDIRECT] in log)
    ensures Covered(fs, SetSlot(Alloc(fs, b), i, k, b), start, log)
  {
  }

  lemma PokeCovered(fs: Fs, g: Fs, b: nat, o: nat, chunk: seq<int>, start: nat, log: set<nat>)
    requires Covered(fs, g, start, log) && b < |g.bytes| && o + |chunk| <= |g.bytes[b]|
    ensures Covered(fs, Poke(g, b, o, chunk), start, log + {b})
  {
    var h := Poke(g, b, o, chunk);
    forall c | c !in log + {b} ensures SameBlock(fs, h, c) { assert SameBlock(fs, g, c); }
    forall c | BitmapBlock(start, c) !in log + {b} ensures SameBit(fs, h, c) { assert SameBit(fs, g, c); }
  }

  ghost predicate SameInode(fs: Fs, g: Fs, j: nat) {
    j < |fs.inodes| && j < |g.inodes| ==> g.inodes[j] == fs.inodes[j]
  }

  /** The same for all of the disk, inodes included. */
  ghost predicate DiskCovered(fs: Fs, g: Fs, inodestart: nat, bmapstart: nat, log: set<nat>) {
    && Covered(fs, g, bmapstart, log) && |g.inodes| == |fs.inodes|
    && (forall j {:trigger SameInode(fs, g, j)} :: InodeBlock(inodestart, j) !in log ==> SameInode(fs, g, j))
  }

  /** None of the blocks belongs to the boot block, the super block or the log. */
  ghost predicate OnDisk(log: set<nat>, inodestart: nat, size: nat) {
    forall x | x in log :: inodestart <= x < size
  }

  // ---------------------------------------------------------------- bmap

  /** `g` is `fs` after block `b`, free before and clear now, was given to slot `k` of inode `i`. */
  ghost predicate Mapping(fs: Fs, g: Fs, i: nat, k: nat, b: nat) {
    && b != 0 && b < |fs.used| && !fs.used[b] && g.used == fs.used[b := true]
    && Renamed(fs, g, i, k, b)
    && |fs.bytes| == |fs.used| && g.bytes == fs.bytes[b := Zeros(BSIZE)]
    && (forall j | 0 <= j < |fs.inodes| ::
           g.inodes[j].size == fs.inodes[j].size && (j != i ==> g.inodes[j] == fs.inodes[j]))
  }

  lemma SlotMapped(fs: Fs, nmeta: nat, owner: map<nat, (nat, nat)>, i: nat, k: nat, b: nat)
    requires Owned(fs, nmeta, owner) && i < |fs.inodes| && k < NSLOTS && Named(fs, i, k) == 0
    requires b < |fs.used| && !fs.used[b] && (k > NDIRECT ==> Named(fs, i, NDIRECT) != 0)
    ensures |fs.inodes[i].addrs| == NDIRECT + 1
    ensures k > NDIRECT ==> fs.inodes[i].addrs[NDIRECT] < |fs.words|
    ensures var g := SetSlot(Alloc(fs, b), i, k, b);
      Owned(g, nmeta, owner[b := (i, k)]) && Mapping(fs, g, i, k, b)
  {
    assert CanMap(fs, nmeta, owner, i, k, b);
    MapRenames(fs, nmeta, owner, i, k, b);
    MapKeepsOwned(fs, nmeta, owner, i, k, b, SetSlot(Alloc(fs, b), i, k, b));
  }

  lemma MappedExtends(fs: Fs, nmeta: nat, owner: map<nat, (nat, nat)>, i: nat, bn: nat)
    requires Owned(fs, nmeta, owner) && i < |fs.inodes| && bn < MAXFILE && Named(fs, i, SlotOf(bn)) != 0
    ensures Extended(fs, fs, i, bn, Named(fs, i, SlotOf(bn)))
  {
  }

  lemma MappingExtends(fs: Fs, g: Fs, nmeta: nat, owner: map<nat, (nat, nat)>, i: nat, bn: nat, b: nat)
    requires Owned(fs, nmeta, owner) && i < |fs.inodes| && bn < MAXFILE && Mapping(fs, g, i, SlotOf(bn), b)
    requires bn >= NDIRECT ==> Named(fs, i, NDIRECT) != 0
    requires Named(fs, i, SlotOf(bn)) == 0
    ensures Extended(fs, g, i, bn, b)
  {
    assert Named(g, i, SlotOf(bn)) == b;
    assert SlotOf(bn) != NDIRECT && Named(g, i, NDIRECT) == Named(fs, i, NDIRECT);
  }

  lemma ExtendsAfterIndirect(fs: Fs, f1: Fs, g: Fs, i: nat, bn: nat, x: nat, addr: nat)
    requires i < |fs.inodes| && NDIRECT <= bn < MAXFILE && Named(fs, i, NDIRECT) == 0
    requires Mapping(fs, f1, i, NDIRECT, x) && i < |f1.inodes| && Extended(f1, g, i, bn, addr)
    ensures Extended(fs, g, i, bn, addr)
  {
    assert Named(f1, i, SlotOf(bn)) == Named(fs, i, SlotOf(bn));
    forall j, m | 0 <= j < |fs.inodes| && 0 <= m < NSLOTS &&
        (Named(fs, j, m) != 0 || (j != i || (m != SlotOf(bn) && m != NDIRECT)))
      ensures Named(g, j, m) == Named(fs, j, m)
    {
      assert Named(f1, j, m) == Named(fs, j, m);
    }
  }

  lemma JoinOne(l: set<nat>, m: nat, b: nat, t: set<nat>)
    ensures l + {m, b} + t == l + {m} + ({b} + t)
  {
  }

  lemma JoinTwo(l: set<nat>, m: nat, x: nat, maps: set<nat>, a: nat)
    ensures l + {m, x} + maps + ({a} + {x}) == l + ({m} + maps) + ({a} + {x})
  {
  }

  lemma JoinFour(l: set<nat>, a: set<nat>, b: set<nat>, c: set<nat>, d: set<nat>)
    ensures l + a + b + c + d == l + (a + b + c + d)
  {
  }

  lemma NothingMapped(fs: Fs, start: nat, log: set<nat>, i: nat, bn: nat)
    requires i < |fs.inodes| && bn < MAXFILE && Named(fs, i, SlotOf(bn)) != 0
    requires (bn >= NDIRECT ==> Named(fs, i, NDIRECT) != 0)
    ensures MapLogged(fs, fs, start, log, log, i, bn)
  {
    TookNone(fs.used);
    MapsNone(start, fs.used, |fs.used|);
  }

  lemma BlockMapped(fs: Fs, g: Fs, start: nat, log0: set<nat>, log1: set<nat>, i: nat, bn: nat, b: nat)
    requires i < |fs.inodes| && bn < MAXFILE && Named(fs, i, SlotOf(bn)) == 0
    requires (bn >= NDIRECT ==> Named(fs, i, NDIRECT) != 0)
    requires Mapping(fs, g, i, SlotOf(bn), b) && Took(fs.used, g.used, 1)
    requires log1 == log0 + {BitmapBlock(start, b), b} + Touched(fs, i, SlotOf(bn))
    ensures MapLogged(fs, g, start, log0, log1, i, bn)
  {
    assert Named(g, i, SlotOf(bn)) == b && Named(g, i, NDIRECT) == Named(fs, i, NDIRECT);
    MapsOne(start, fs.used, b, |fs.used|);
    JoinOne(log0, BitmapBlock(start, b), b, Touched(fs, i, SlotOf(bn)));
  }

  lemma IndirectMapped(fs: Fs, f1: Fs, g: Fs, start: nat, log0: set<nat>, log1: set<nat>, log2: set<nat>, i: nat,
                       bn: nat, x: nat)
    requires i < |fs.inodes| && NDIRECT <= bn < MAXFILE && Missing(fs, i, bn) == 2
    requires Renamed(fs, f1, i, NDIRECT, x) && x != 0 && x < |fs.used| && !fs.used[x]
    requires Took(fs.used, f1.used, 1) && f1.used == fs.used[x := true]
    requires log1 == log0 + {BitmapBlock(start, x), x} && MapLogged(f1, g, start, log1, log2, i, bn)
    requires Named(g, i, NDIRECT) == x
    ensures MapLogged(fs, g, start, log0, log2, i, bn)
  {
    assert Named(f1, i, SlotOf(bn)) == 0 && Named(f1, i, NDIRECT) == x;
    TookMore(fs.used, f1.used, g.used, 1, 1);
    MapsOne(start, fs.used, x, |fs.used|);
    MapsMore(start, fs.used, f1.used, g.used, |fs.used|);
    JoinTwo(log0, BitmapBlock(start, x), x, Maps(start, f1.used, g.used), Named(g, i, SlotOf(bn)));
  }

  lemma PokeLogged(fs: Fs, g: Fs, start: nat, log0: set<nat>, log1: set<nat>, i: nat, bn: nat, b: nat, o: nat,
                   chunk: seq<int>)
    requires MapLogged(fs, g, start, log0, log1, i, bn) && b == Named(g, i, SlotOf(bn)) && b < |g.bytes|
    requires o + |chunk| <= |g.bytes[b]|
    ensures RoundLogged(fs, Poke(g, b, o, chunk), start, log0, log1 + {b}, i, bn)
  {
    PokeNames(g, b, o, chunk, i, SlotOf(bn));
    PokeNames(g, b, o, chunk, i, NDIRECT);
  }

  // ---------------------------------------------------------------- rounds of writei

  /** After a round of `writei` at `off`: file `i` has `chunk` spliced in, all other files are as before, and the
      inode changed only if the file had no block for `off` yet. */
  ghost predicate RoundPost(fs: Fs, h: Fs, i: nat, off: nat, chunk: seq<int>, data: seq<int>, files: seq<seq<int>>) {
    && i < |h.inodes| && off <= |data|
    && Stores(h, i, Splice(data, off, chunk)) && AllOthers(h, files, i)
    && KeepsNames(fs, h, i) && OnlyInode(fs.inodes, h.inodes, i)
    && (off / BSIZE < Blocks(|data|) ==> h.inodes == fs.inodes)
  }

  lemma RoundDone(fs: Fs, g: Fs, h: Fs, nmeta: nat, owner: map<nat, (nat, nat)>, owner': map<nat, (nat, nat)>, i: nat,
                  off: nat, chunk: seq<int>, data: seq<int>, files: seq<seq<int>>)
    requires WriteRound(fs, g, h, nmeta, owner, owner', i, off, chunk) && Stores(fs, i, data) && off <= |data|
    requires AllOthers(fs, files, i)
    requires Named(fs, i, SlotOf(off / BSIZE)) != 0 ==> h.inodes == fs.inodes
    ensures Owned(h, nmeta, owner') && RoundPost(fs, h, i, off, chunk, data, files)
  {
    WriteRoundSplices(fs, g, h, nmeta, owner, owner', i, off, chunk, data);
    PokeKeepsOwned(g, nmeta, owner', Named(g, i, SlotOf(off / BSIZE)), off % BSIZE, chunk);
    forall j | 0 <= j < |fs.inodes| && j != i
      ensures IsFile(h, j, files[j])
    {
      WriteRoundSpares(fs, g, h, nmeta, owner, owner', i, off, chunk, j, files[j]);
    }
    forall m | 0 <= m < NSLOTS ensures Named(h, i, m) == Named(g, i, m) {
      PokeNames(g, Named(g, i, SlotOf(off / BSIZE)), off % BSIZE, chunk, i, m);
    }
  }

  /** After some rounds of `writei` at `off` with the bytes `part`. */
  ghost predicate Written(fs: Fs, h: Fs, i: nat, off: nat, part: seq<int>, data: seq<int>, files: seq<seq<int>>) {
    && i < |h.inodes| && off <= |data|
    && Stores(h, i, Splice(data, off, part)) && AllOthers(h, files, i)
    && KeepsNames(fs, h, i) && OnlyInode(fs.inodes, h.inodes, i)
    && (off + |part| <= |data| ==> h.inodes == fs.inodes)
  }

  lemma WrittenMore(fs: Fs, f1: Fs, h: Fs, i: nat, off: nat, src: seq<int>, tot: nat, end: nat, data: seq<int>,
                    files: seq<seq<int>>)
    requires tot < end <= |src| && (off + tot) % BSIZE + (end - tot) <= BSIZE
    requires Written(fs, f1, i, off, src[..tot], data, files)
    requires RoundPost(f1, h, i, off + tot, src[tot..end], Splice(data, off, src[..tot]), files)
    ensures Written(fs, h, i, off, src[..end], data, files)
  {
    var a, b := src[..tot], src[tot..end];
    assert a + b == src[..end];
    SpliceTwice(data, off, a, b);
    if off + end <= |data| {
      assert (off + tot) / BSIZE < Blocks(|data|);
    }
  }

  /** `writei` at `off`, begun in `fs`, has stored the first `tot` bytes of `src`. */
  ghost predicate Progress(fs: Fs, h: Fs, files: seq<seq<int>>, i: nat, off: nat, src: seq<int>, tot: nat) {
    && i < |files| && tot <= |src| && off + |src| <= MAXFILE * BSIZE
    && (tot == 0 || tot == |src| || (off + tot) % BSIZE == 0)
    && Written(fs, h, i, off, src[..tot], files[i], files)
  }

  /** The inode table after the end of `writei`, as the cache holds it. */
  ghost function Grown(fs: Fs, i: nat, n: nat, end: nat): Fs
    requires i < |fs.inodes|
  {
    if n > 0 && end > fs.inodes[i].size then Resize(fs, i, end) else fs
  }

  /** The inode block, if the write of `n` bytes up to `end` made the file larger. */
  ghost function InodeLogged(len: nat, n: nat, end: nat, block: nat): set<nat> {
    if n > 0 && end > len then {block} else {}
  }

  // Rounds of `writei` leave all inodes but the one alone, and that one too if the file does not grow.
  lemma CoveredInodes(fs: Fs, h: Fs, files: seq<seq<int>>, i: nat, off: nat, src: seq<int>, end: nat, inodestart: nat,
                      bmapstart: nat, log: set<nat>, inode: set<nat>)
    requires Progress(fs, h, files, i, off, src, |src|) && end == off + |src| && fs.inodes[i].size == |files[i]|
    requires Covered(fs, h, bmapstart, log) && inode == InodeLogged(|files[i]|, |src|, end, InodeBlock(inodestart, i))
    ensures DiskCovered(fs, Grown(h, i, |src|, end), inodestart, bmapstart, log + inode)
  {
    var g := Grown(h, i, |src|, end);
    forall b | b !in log + inode ensures SameBlock(fs, g, b) { assert SameBlock(fs, h, b); }
    forall b | BitmapBlock(bmapstart, b) !in log + inode ensures SameBit(fs, g, b) { assert SameBit(fs, h, b); }
    assert src[..|src|] == src;
  }

  lemma ProgressStarts(fs: Fs, files: seq<seq<int>>, i: nat, off: nat, src: seq<int>)
    requires i < |fs.inodes| && AllOthers(fs, files, i) && Stores(fs, i, files[i])
    requires off <= |files[i]| && off + |src| <= MAXFILE * BSIZE
    ensures Progress(fs, fs, files, i, off, src, 0)
  {
    assert src[..0] == [] && Splice(files[i], off, []) == files[i];
  }

  lemma StepDone(fs: Fs, f1: Fs, h: Fs, files: seq<seq<int>>, i: nat, off: nat, src: seq<int>, tot: nat, end: nat,
                 at: nat, data: seq<int>)
    requires Progress(fs, f1, files, i, off, src, tot) && tot < |src| && end == RoundEnd(off, tot, |src|)
    requires at == off + tot && data == Splice(files[i], off, src[..tot])
    requires RoundPost(f1, h, i, at, src[tot..end], data, files)
    ensures Progress(fs, h, files, i, off, src, end)
  {
    WrittenMore(fs, f1, h, i, off, src, tot, end, files[i], files);
  }

  // The size of the file tells which blocks are mapped.
  lemma ProgressMapped(fs: Fs, h: Fs, files: seq<seq<int>>, i: nat, off: nat, src: seq<int>, tot: nat)
    requires Progress(fs, h, files, i, off, src, tot)
    ensures off <= |files[i]| && Mapped(h, i, Max(Blocks(|files[i]|), EndBlock(off, tot)))
  {
    BlocksAfter(|files[i]|, off, tot);
    assert |Splice(files[i], off, src[..tot])| == Max(|files[i]|, off + tot);
  }

  /** What `writei` has allocated and logged after `tot` bytes at `off` of a file that had `len` bytes in `fs`. */
  ghost predicate WriteAccounted(fs: Fs, h: Fs, start: nat, log0: set<nat>, log: set<nat>, i: nat, off: nat, tot: nat,
                                 len: nat)
  {
    Accounted(fs, h, start, log0, log, i, off / BSIZE, EndBlock(off, tot), Blocks(len))
  }

  lemma AccountStarts(fs: Fs, start: nat, log0: set<nat>, i: nat, off: nat, len: nat)
    requires i < |fs.inodes| && off <= len
    ensures WriteAccounted(fs, fs, start, log0, log0, i, off, 0, len)
  {
    BlocksAfter(len, off, 0);
    TookNone(fs.used);
    MapsNone(start, fs.used, |fs.used|);
  }

  // Where a round of `writei` stands in blocks.
  lemma StepBlocks(fs: Fs, h: Fs, files: seq<seq<int>>, i: nat, off: nat, src: seq<int>, tot: nat, end: nat, len: nat,
                   c: nat, bn: nat, next: nat)
    requires Progress(fs, h, files, i, off, src, tot) && tot < |src| && end == RoundEnd(off, tot, |src|)
    requires len == |files[i]|
    requires bn == EndBlock(off, tot) && next == EndBlock(off, end) && c == Blocks(len)
    ensures off / BSIZE <= bn == (off + tot) / BSIZE < MAXFILE && next == bn + 1
    ensures Mapped(h, i, Max(c, bn)) && Allocs(c, Max(c, next)) <= NeededBy(len, off, |src|)
  {
    ProgressMapped(fs, h, files, i, off, src, tot);
    EndBlockStep(off, tot, end - tot, off + tot);
    NeededGrows(len, off, end, |src|);
  }

  // ---------------------------------------------------------------- the end of writei

  lemma LayoutRanges(nmeta: nat, inodestart: nat, bmapstart: nat, ninodes: nat, size: nat, i: nat, u: seq<bool>,
                     v: seq<bool>)
    requires LaidOut(nmeta, inodestart, bmapstart, ninodes, size) && i < ninodes && |u| == size
    ensures InodeBlock(inodestart, i) < bmapstart && forall x | x in Maps(bmapstart, u, v) :: bmapstart <= x < nmeta
  {
    MapsInRange(bmapstart, nmeta, u, v, size);
  }

  lemma InodeSize(len: nat, n: nat, end: nat, block: nat)
    ensures |InodeLogged(len, n, end, block)| == Bit(n > 0 && end > len)
  {
  }

  // The blocks that a write of blocks `a` to `b` logs, and how many they are.
  lemma WriteLogged(fs: Fs, h: Fs, nmeta: nat, owner: map<nat, (nat, nat)>, i: nat, start: nat, maps: set<nat>,
                    inode: set<nat>, log0: set<nat>, log1: set<nat>, a: nat, b: nat, c: nat) returns (cost: set<nat>)
    requires Owned(h, nmeta, owner) && i < |h.inodes| && Mapped(h, i, Max(c, b)) && a <= b
    requires start <= nmeta && (forall x | x in maps :: start <= x < nmeta) && (forall x | x in inode :: x < start)
    requires Accounted(fs, h, start, log0, log1, i, a, b, c) && maps == Maps(start, fs.used, h.used)
    ensures log1 + inode == log0 + cost
    ensures |cost| == |maps| + (b - a) + Bit(c < Max(c, b) && NDIRECT < Max(c, b)) + |inode|
    ensures forall x | x in cost :: x in inode || start <= x < |h.used|
  {
    cost := maps + DataRange(h, i, a, b) + IndirectLogged(h, i, c, Max(c, b)) + inode;
    LogSize(h, nmeta, owner, i, start, maps, inode, a, b, c, Max(c, b));
    JoinFour(log0, maps, DataRange(h, i, a, b), IndirectLogged(h, i, c, Max(c, b)), inode);
  }

  // The blocks that a write logs, with the inode.
  lemma CostOfWrite(fs: Fs, h: Fs, nmeta: nat, owner: map<nat, (nat, nat)>, files: seq<seq<int>>, i: nat,
                    inodestart: nat, bmapstart: nat, log0: set<nat>, log1: set<nat>, off: nat, src: seq<int>, len: nat,
                    inode: set<nat>)
    returns (cost: set<nat>)
    requires Owned(h, nmeta, owner) && Progress(fs, h, files, i, off, src, |src|) && len == |files[i]|
    requires LaidOut(nmeta, inodestart, bmapstart, |h.inodes|, |h.used|) && |fs.used| == |h.used|
    requires WriteAccounted(fs, h, bmapstart, log0, log1, i, off, |src|, len)
    requires inode == InodeLogged(len, |src|, off + |src|, InodeBlock(inodestart, i))
    ensures log1 + inode == log0 + cost && OnDisk(cost, inodestart, |h.used|)
    ensures |cost| == WriteCost(len, off, |src|, |Maps(bmapstart, fs.used, h.used)|)
  {
    ProgressMapped(fs, h, files, i, off, src, |src|);
    LayoutRanges(nmeta, inodestart, bmapstart, |h.inodes|, |h.used|, i, fs.used, h.used);
    InodeSize(len, |src|, off + |src|, InodeBlock(inodestart, i));
    cost := WriteLogged(fs, h, nmeta, owner, i, bmapstart, Maps(bmapstart, fs.used, h.used), inode, log0, log1,
                        off / BSIZE, EndBlock(off, |src|), Blocks(len));
  }

  /** The inode table on disk after the end of `writei`. */
  ghost function DiskGrown(ds: seq<Inode>, fs: Fs, i: nat, n: nat, end: nat): seq<Inode>
    requires i < |fs.inodes| && i < |ds|
  {
    if n > 0 && end > fs.inodes[i].size then ds[i := fs.inodes[i].(size := end)] else ds
  }

  // After `writei` the file is spliced, and the inode on disk equals the cached one even where blocks were added.
  lemma WriteEnds(fs: Fs, h: Fs, nmeta: nat, owner: map<nat, (nat, nat)>, files: seq<seq<int>>, i: nat, off: nat,
                  src: seq<int>, n: nat)
    requires Progress(fs, h, files, i, off, src, |src|) && Owned(h, nmeta, owner) && AllFiles(fs, files)
    requires n == off + |src|
    ensures var k := Grown(h, i, |src|, n);
      && Owned(k, nmeta, owner) && AllFiles(k, files[i := Splice(files[i], off, src)])
      && DiskGrown(fs.inodes, h, i, |src|, n) == k.inodes
  {
    var data := Splice(files[i], off, src);
    assert src[..|src|] == src;
    assert IsFile(fs, i, files[i]);
    if |src| > 0 && n > h.inodes[i].size {
      ResizeKeepsOwned(h, nmeta, owner, i, n);
      var k, files' := Resize(h, i, n), files[i := data];
      forall j | 0 <= j < |h.inodes|
        ensures IsFile(k, j, files'[j])
      {
        ResizeKeepsStored(h, i, n, j, files'[j]);
      }
    }
  }

  // ---------------------------------------------------------------- filewrite

  /** The first `done` bytes of `src` are written at `off`; nothing is if that is behind the end of the file. */
  ghost predicate AfterWrite(files0: seq<seq<int>>, files: seq<seq<int>>, i: nat, off: nat, src: seq<int>, done: nat) {
    && i < |files0| && done <= |src|
    && if off <= |files0[i]| then files == files0[i := Splice(files0[i], off, src[..done])]
       else done == 0 && files == files0
  }

  /** The same, and the blocks it took: the bitmap was `u` before and is `v` now. */
  ghost predicate ChunksDone(u: seq<bool>, v: seq<bool>, files0: seq<seq<int>>, files: seq<seq<int>>, i: nat, off: nat,
                             src: seq<int>, done: nat)
  {
    && AfterWrite(files0, files, i, off, src, done)
    && (off <= |files0[i]| ==> Took(u, v, NeededBy(|files0[i]|, off, done)))
  }

  lemma NothingWritten(u: seq<bool>, files: seq<seq<int>>, i: nat, off: nat, src: seq<int>)
    requires i < |files|
    ensures ChunksDone(u, u, files, files, i, off, src, 0)
  {
    TookNone(u);
    assert off <= |files[i]| ==> Splice(files[i], off, src[..0]) == files[i];
    if off <= |files[i]| { BlocksAfter(|files[i]|, off, 0); }
  }

  lemma MoreWritten(files0: seq<seq<int>>, was: seq<seq<int>>, files: seq<seq<int>>, i: nat, off: nat, src: seq<int>,
                    done: nat, next: nat)
    requires AfterWrite(files0, was, i, off, src, done) && done <= next <= |src| && i < |was| && off + done <= |was[i]|
    requires files == was[i := Splice(was[i], off + done, src[done..next])]
    ensures AfterWrite(files0, files, i, off, src, next)
  {
    if off <= |files0[i]| {
      assert src[..done] + src[done..next] == src[..next];
      SpliceTwice(files0[i], off, src[..done], src[done..next]);
    }
  }

  lemma NeededTwice(len: nat, off: nat, m: nat, n: nat)
    requires off <= len && m <= n
    ensures NeededBy(len, off, m) + NeededBy(Max(len, off + m), off + m, n - m) == NeededBy(len, off, n)
  {
    BlocksAfter(len, off, m);
    BlocksAfter(len, off, n);
    BlocksAfter(Max(len, off + m), off + m, n - m);
    assert Max(Max(len, off + m), off + n) == Max(len, off + n);
    AllocsAddUp(Blocks(len), Blocks(Max(len, off + m)), Blocks(Max(len, off + n)));
  }

  lemma LenAfter(files0: seq<seq<int>>, was: seq<seq<int>>, i: nat, off: nat, src: seq<int>, done: nat)
    requires AfterWrite(files0, was, i, off, src, done) && i < |was| && off + done <= |was[i]|
    ensures off <= |files0[i]| && |was[i]| == Max(|files0[i]|, off + done)
  {
  }

  // A write that starts in the file is never behind its end.
  lemma ReachesEnd(files0: seq<seq<int>>, files: seq<seq<int>>, i: nat, off: nat, src: seq<int>, done: nat)
    requires AfterWrite(files0, files, i, off, src, done)
    ensures i < |files| && (off <= |files0[i]| ==> off + done <= |files[i]|)
  {
  }

  // One more chunk.
  lemma ChunkWritten(u: seq<bool>, v: seq<bool>, w: seq<bool>, files0: seq<seq<int>>, was: seq<seq<int>>,
                     files: seq<seq<int>>, i: nat, off: nat, src: seq<int>, done: nat, next: nat)
    requires ChunksDone(u, v, files0, was, i, off, src, done) && i < |was| && done <= next <= |src|
    requires off + done <= |was[i]|
    requires files == was[i := Splice(was[i], off + done, src[done..next])]
    requires Took(v, w, NeededBy(|was[i]|, off + done, next - done))
    ensures ChunksDone(u, w, files0, files, i, off, src, next)
  {
    MoreWritten(files0, was, files, i, off, src, done, next);
    LenAfter(files0, was, i, off, src, done);
    NeededTwice(|files0[i]|, off, done, next);
    TookMore(u, v, w, NeededBy(|files0[i]|, off, done), NeededBy(|was[i]|, off + done, next - done));
  }

  // A chunk that finds too few free blocks means that the whole write has too few.
  lemma ChunkTooMuch(u: seq<bool>, v: seq<bool>, files0: seq<seq<int>>, was: seq<seq<int>>, i: nat, off: nat,
                     src: seq<int>, done: nat, next: nat)
    requires ChunksDone(u, v, files0, was, i, off, src, done) && i < |was| && done <= next <= |src|
    requires off + done <= |was[i]|
    requires FreeCount(v) < NeededBy(|was[i]|, off + done, next - done)
    ensures FreeCount(u) < NeededBy(|files0[i]|, off, |src|)
  {
    LenAfter(files0, was, i, off, src, done);
    NeededTwice(|files0[i]|, off, done, next);
    TookLeft(u, v, NeededBy(|files0[i]|, off, done));
    NeededGrows(|files0[i]|, off, next, |src|);
  }

  const CHUNK: nat := ((MAXOPBLOCKS - 1 - 1 - 2) / 2) * BSIZE

  /** The disk between two chunks, with its files; `done` bytes are written. */
  datatype Snap = Snap(fs: Fs, owner: map<nat, (nat, nat)>, files: seq<seq<int>>, done: nat)

  /** `done` of `n` bytes are whole chunks. */
  predicate AtChunk(done: nat, n: nat) {
    done % CHUNK == 0 || done == n
  }

  /** Where the chunk that starts at byte `done` of `n` ends. */
  function ChunkEnd(done: nat, n: nat): (next: nat)
    requires done < n && AtChunk(done, n)
    ensures done < next <= n && next - done <= CHUNK && AtChunk(next, n)
  {
    done + Min(n - done, CHUNK)
  }

  /** A consistent file system in which a prefix of the chunks is written. */
  ghost predicate SnapOk(s: Snap, nmeta: nat, files0: seq<seq<int>>, i: nat, off: nat, src: seq<int>) {
    && Owned(s.fs, nmeta, s.owner) && AllFiles(s.fs, s.files)
    && AfterWrite(files0, s.files, i, off, src, s.done) && AtChunk(s.done, |src|)
  }

  /** A transaction from `s` to `t` that logs the blocks `op`. */
  ghost predicate SnapStep(s: Snap, t: Snap, op: set<nat>, inodestart: nat, bmapstart: nat) {
    DiskCovered(s.fs, t.fs, inodestart, bmapstart, op) && OnDisk(op, inodestart, |s.fs.used|) && |op| <= MAXOPBLOCKS
  }

  /** The disks before, between and after the transactions of a chunked write, and the blocks that each of them logs. */
  ghost predicate Snaps(snaps: seq<Snap>, ops: seq<set<nat>>, nmeta: nat, inodestart: nat, bmapstart: nat,
                        files0: seq<seq<int>>, i: nat, off: nat, src: seq<int>)
  {
    && |snaps| == |ops| + 1
    && (forall k | 0 <= k < |snaps| :: SnapOk(snaps[k], nmeta, files0, i, off, src))
    && (forall k | 0 <= k < |ops| :: SnapStep(snaps[k], snaps[k + 1], ops[k], inodestart, bmapstart))
  }

  lemma SnapsMore(snaps: seq<Snap>, ops: seq<set<nat>>, nmeta: nat, inodestart: nat, bmapstart: nat,
                  files0: seq<seq<int>>, i: nat, off: nat, src: seq<int>, t: Snap, op: set<nat>)
    requires Snaps(snaps, ops, nmeta, inodestart, bmapstart, files0, i, off, src)
    requires SnapOk(t, nmeta, files0, i, off, src) && SnapStep(snaps[|ops|], t, op, inodestart, bmapstart)
    ensures Snaps(snaps + [t], ops + [op], nmeta, inodestart, bmapstart, files0, i, off, src)
  {
    var more, ops' := snaps + [t], ops + [op];
    forall k | 0 <= k < |more| ensures SnapOk(more[k], nmeta, files0, i, off, src) {
      if k < |snaps| { assert SnapOk(snaps[k], nmeta, files0, i, off, src); }
    }
    forall k | 0 <= k < |ops'| ensures SnapStep(more[k], more[k + 1], ops'[k], inodestart, bmapstart) {
      if k < |ops| { assert SnapStep(snaps[k], snaps[k + 1], ops[k], inodestart, bmapstart); }
    }
  }

  lemma ChunkIsSmall(start: nat, u: seq<bool>, v: seq<bool>, len: nat, off: nat, n: nat)
    requires off <= len && n <= 3 * BSIZE && Took(u, v, NeededBy(len, off, n))
    ensures var cost := WriteCost(len, off, n, |Maps(start, u, v)|);
      && cost <= MAXOPBLOCKS
      && (cost == MAXOPBLOCKS <==> Tight(len, off, n) && SpreadFree(start, u))
  {
    MapsSize(start, u, v, |u|);
    ChunkCost(len, off, n, |Maps(start, u, v)|);
    if Tight(len, off, n) { SpreadIff(start, u, v); }
  }

  // ---------------------------------------------------------------- itrunc

  /** The bitmap blocks of the blocks that belong to inode `i`. */
  ghost function InodeMaps(start: nat, own: map<nat, (nat, nat)>, i: nat): set<nat> {
    set b | b in own && own[b].0 == i :: BitmapBlock(start, b)
  }

  /** Exactly the blocks of inode `i` were freed. */
  ghost predicate FreedInode(u0: seq<bool>, u: seq<bool>, own: map<nat, (nat, nat)>, i: nat) {
    |u| == |u0| && forall b | 0 <= b < |u| :: u[b] <==> u0[b] && !(b in own && own[b].0 == i)
  }

  lemma MapsOfInode(fs: Fs, nmeta: nat, own: map<nat, (nat, nat)>, i: nat, u: seq<bool>, start: nat)
    requires Owned(fs, nmeta, own) && FreedInode(fs.used, u, own, i)
    ensures Maps(start, u, fs.used) == InodeMaps(start, own, i)
  {
    forall x ensures x in Maps(start, u, fs.used) <==> x in InodeMaps(start, own, i) {
      MapsAre(start, u, fs.used, |u|, x);
      forall b | b in own && own[b].0 == i ensures IsNew(u, fs.used, b) { assert BlockOk(fs, nmeta, own, b); }
      if x in InodeMaps(start, own, i) {
        var b :| b in own && own[b].0 == i && x == BitmapBlock(start, b);
        assert IsNew(u, fs.used, b);
      }
    }
  }

  // What `itrunc` does not log does not change.
  lemma TruncateCovered(fs: Fs, g: Fs, own: map<nat, (nat, nat)>, i: nat, inodestart: nat, bmapstart: nat,
                        log: set<nat>)
    requires FreedInode(fs.used, g.used, own, i) && g.bytes == fs.bytes && g.words == fs.words
    requires |g.inodes| == |fs.inodes| && forall j | 0 <= j < |g.inodes| && j != i :: g.inodes[j] == fs.inodes[j]
    requires InodeMaps(bmapstart, own, i) <= log && InodeBlock(inodestart, i) in log
    ensures DiskCovered(fs, g, inodestart, bmapstart, log)
  {
    forall b | b in own && own[b].0 == i ensures BitmapBlock(bmapstart, b) in log {
      assert BitmapBlock(bmapstart, b) in InodeMaps(bmapstart, own, i);
    }
  }

  lemma ItruncEnds(fs: Fs, own: map<nat, (nat, nat)>, v: Fs, owner: map<nat, (nat, nat)>, nmeta: nat, i: nat,
                   slots: set<nat>, files: seq<seq<int>>)
    requires Cleared(fs, own, v, owner, nmeta, i, slots) && AllSlots(slots) && AllFiles(fs, files)
    ensures var g := Resize(v, i, 0);
      && Owned(g, nmeta, owner) && AllFiles(g, files[i := []])
      && fs.inodes[i := g.inodes[i]] == g.inodes
    ensures FreedInode(fs.used, v.used, own, i)
  {
    var g, files' := Resize(v, i, 0), files[i := []];
    ResizeKeepsOwned(v, nmeta, owner, i, 0);
    forall j | 0 <= j < |g.inodes|
      ensures IsFile(g, j, files'[j])
    {
      assert IsFile(fs, j, files[j]);
      TruncatedFile(fs, own, v, owner, nmeta, i, slots, j, files[j]);
      ResizeKeepsStored(v, i, 0, j, files'[j]);
    }
    forall b | 0 <= b < |fs.used|
      ensures v.used[b] <==> fs.used[b] && !(b in own && own[b].0 == i)
    {
      TruncateFrees(fs, own, v, owner, nmeta, i, slots, b);
    }
  }
}
