/** The image that mkfs/mkfs.c writes.

mkfs hands out blocks in order, `freeblock` being the next one, and writes the bitmap only at the end.  `Abs` shows the
image as a file system whose bitmap marks the blocks below `freeblock`.
*/
module Mkfs {
  import opened Common
  import opened BlockMap
  import opened FileBytes
  import opened Accounting
  import opened FileSteps
  import opened FileSystem
  import opened DirEntry
  import Directory

  /** A bitmap with the first `n` blocks in use. */
  function UpTo(size: nat, n: nat): (u: seq<bool>)
    ensures |u| == size && forall b: nat | b < size :: u[b] <==> b < n
  {
    seq(size, b requires 0 <= b => b < n)
  }

  lemma UpToMore(size: nat, n: nat)
    requires n < size
    ensures UpTo(size, n + 1) == UpTo(size, n)[n := true]
  {
  }

  /** Blocks from `n` on have never been written. */
  ghost predicate Blank(bytes: seq<seq<int>>, words: seq<seq<nat>>, n: nat) {
    |bytes| == |words| && forall b | n <= b < |bytes| :: bytes[b] == Zeros(BSIZE) && words[b] == ZeroWords(NINDIRECT)
  }

  function EmptyInode(): (x: Inode)
    ensures x.size == 0 && |x.addrs| == NDIRECT + 1
  {
    Inode(0, ZeroWords(NDIRECT + 1))
  }

  // ---------------------------------------------------------------- the rest of the last block

  /** The rest of the last block of file `i`, which has `n` bytes, is zero. */
  ghost predicate ZeroTail(fs: Fs, i: nat, n: nat)
    requires i < |fs.inodes|
  {
    forall x {:trigger ByteAt(fs, i, x)} | n <= x < Blocks(n) * BSIZE && x < MAXFILE * BSIZE :: ByteAt(fs, i, x) == 0
  }

  ghost predicate ZeroTails(fs: Fs, files: seq<seq<int>>) {
    |files| == |fs.inodes| && forall j {:trigger ZeroTail(fs, j, |files[j]|)} | 0 <= j < |fs.inodes| ::
      ZeroTail(fs, j, |files[j]|)
  }

  // Appending in one block keeps the rest of the block zero.
  lemma TailAppended(fs: Fs, g: Fs, h: Fs, nmeta: nat, owner: map<nat, (nat, nat)>, owner': map<nat, (nat, nat)>,
                     i: nat, at: nat, chunk: seq<int>, x: nat)
    requires WriteRound(fs, g, h, nmeta, owner, owner', i, at, chunk) && ZeroTail(fs, i, at)
    requires Mapped(fs, i, Blocks(at))
    requires at + |chunk| <= x < Blocks(at + |chunk|) * BSIZE && x < MAXFILE * BSIZE
    ensures |h.inodes| == |fs.inodes| && ByteAt(h, i, x) == 0
  {
    assert x / BSIZE == at / BSIZE;
    if Named(fs, i, SlotOf(x / BSIZE)) != 0 {
      WriteRoundByte(fs, g, h, nmeta, owner, owner', i, at, chunk, i, x);
      assert at / BSIZE < Blocks(at);
    } else {
      NamedIsUsed(g, nmeta, owner', i, SlotOf(at / BSIZE));
      PokeByte(g, nmeta, owner', i, at, chunk, i, x);
    }
  }

  lemma TailSpared(fs: Fs, g: Fs, h: Fs, nmeta: nat, owner: map<nat, (nat, nat)>, owner': map<nat, (nat, nat)>, i: nat,
                   at: nat, chunk: seq<int>, j: nat, n: nat)
    requires WriteRound(fs, g, h, nmeta, owner, owner', i, at, chunk) && j < |fs.inodes| && j != i
    requires ZeroTail(fs, j, n) && Mapped(fs, j, Blocks(n))
    ensures |h.inodes| == |fs.inodes| && ZeroTail(h, j, n)
  {
    forall x | n <= x < Blocks(n) * BSIZE && x < MAXFILE * BSIZE ensures ByteAt(h, j, x) == 0 {
      MappedBlock(fs, j, Blocks(n), x);
      WriteRoundByte(fs, g, h, nmeta, owner, owner', i, at, chunk, j, x);
      assert ByteAt(fs, j, x) == 0;
    }
  }

  lemma TailsAppended(fs: Fs, g: Fs, h: Fs, nmeta: nat, owner: map<nat, (nat, nat)>, owner': map<nat, (nat, nat)>,
                      i: nat, at: nat, chunk: seq<int>, files: seq<seq<int>>, data: seq<int>)
    requires WriteRound(fs, g, h, nmeta, owner, owner', i, at, chunk) && i < |files| && at == |data|
    requires ZeroTails(fs, files[i := data]) && Stores(fs, i, data) && AllOthers(fs, files, i)
    ensures ZeroTails(h, files[i := data + chunk])
  {
    var was, now := files[i := data], files[i := data + chunk];
    forall j | 0 <= j < |h.inodes| ensures ZeroTail(h, j, |now[j]|) {
      assert ZeroTail(fs, j, |was[j]|);
      if j == i {
        forall x | at + |chunk| <= x < Blocks(at + |chunk|) * BSIZE && x < MAXFILE * BSIZE
          ensures ByteAt(h, i, x) == 0
        {
          TailAppended(fs, g, h, nmeta, owner, owner', i, at, chunk, x);
        }
      } else {
        assert IsFile(fs, j, files[j]);
        TailSpared(fs, g, h, nmeta, owner, owner', i, at, chunk, j, |files[j]|);
      }
    }
  }

  lemma TailsResized(fs: Fs, i: nat, n: nat, files: seq<seq<int>>)
    requires i < |fs.inodes| && ZeroTails(fs, files)
    ensures ZeroTails(Resize(fs, i, n), files)
  {
    var g := Resize(fs, i, n);
    forall j | 0 <= j < |g.inodes| ensures ZeroTail(g, j, |files[j]|) {
      assert ZeroTail(fs, j, |files[j]|);
      forall x | |files[j]| <= x < Blocks(|files[j]|) * BSIZE && x < MAXFILE * BSIZE ensures ByteAt(g, j, x) == 0 {
        ResizeNames(fs, i, n, j, SlotOf(x / BSIZE));
        assert ByteAt(fs, j, x) == 0;
      }
    }
  }

  // ---------------------------------------------------------------- the size of the root directory

  /** What mkfs makes of the size of the root directory. */
  function RootSize(n: nat): nat {
    (n / BSIZE + 1) * BSIZE
  }

  function Padded(data: seq<int>): seq<int> {
    data + Zeros(RootSize(|data|) - |data|)
  }

  lemma PaddedStored(fs: Fs, i: nat, data: seq<int>)
    requires i < |fs.inodes| && Stores(fs, i, data) && ZeroTail(fs, i, |data|) && |data| % BSIZE != 0
    ensures Stores(fs, i, Padded(data))
  {
    var d := Padded(data);
    assert |d| == Blocks(|data|) * BSIZE && Blocks(|d|) == Blocks(|data|);
    forall x | 0 <= x < |d| ensures ByteAt(fs, i, x) == d[x] {
      assert x < |data| ==> ByteAt(fs, i, x) == data[x];
    }
  }

  lemma RootPadded(fs: Fs, nmeta: nat, owner: map<nat, (nat, nat)>, files: seq<seq<int>>, i: nat)
    requires Owned(fs, nmeta, owner) && AllFiles(fs, files) && ZeroTails(fs, files) && i < |files|
    requires |files[i]| % BSIZE != 0
    ensures var g := Resize(fs, i, RootSize(|files[i]|));
      Owned(g, nmeta, owner) && AllFiles(g, files[i := Padded(files[i])])
  {
    var n, now := RootSize(|files[i]|), files[i := Padded(files[i])];
    var g := Resize(fs, i, n);
    ResizeKeepsOwned(fs, nmeta, owner, i, n);
    forall j | 0 <= j < |g.inodes| ensures IsFile(g, j, now[j]) {
      assert IsFile(fs, j, files[j]);
      if j == i {
        assert ZeroTail(fs, i, |files[i]|);
        PaddedStored(fs, i, files[i]);
      }
      ResizeKeepsStored(fs, i, n, j, now[j]);
    }
  }

  // A root directory that fills its blocks gets a size beyond them: then no byte string is its contents.
  lemma RootOverrun(fs: Fs, i: nat, data: seq<int>, d: seq<int>)
    requires i < |fs.inodes| && IsFile(fs, i, data) && |data| % BSIZE == 0
    ensures !IsFile(Resize(fs, i, RootSize(|data|)), i, d)
  {
    var g, bn := Resize(fs, i, RootSize(|data|)), Blocks(|data|);
    assert Blocks(RootSize(|data|)) == bn + 1;
    if bn < MAXFILE {
      ResizeNames(fs, i, RootSize(|data|), i, SlotOf(bn));
      assert Named(g, i, SlotOf(bn)) == 0;
    }
  }

  // With the size that mkfs gives to the root directory, the image is a file system exactly if the entries do not fill
  // their blocks.
  lemma RootFitsIff(fs: Fs, nmeta: nat, owner: map<nat, (nat, nat)>, files: seq<seq<int>>, i: nat)
    requires Owned(fs, nmeta, owner) && AllFiles(fs, files) && ZeroTails(fs, files) && i < |files|
    ensures (exists fs' :: AllFiles(Resize(fs, i, RootSize(|files[i]|)), fs')) <==> |files[i]| % BSIZE != 0
  {
    var g := Resize(fs, i, RootSize(|files[i]|));
    if |files[i]| % BSIZE != 0 {
      RootPadded(fs, nmeta, owner, files, i);
    } else {
      assert IsFile(fs, i, files[i]);
      forall fs': seq<seq<int>> ensures !AllFiles(g, fs') {
        if |fs'| == |g.inodes| { RootOverrun(fs, i, files[i], fs'[i]); }
      }
    }
  }

  // ---------------------------------------------------------------- directory entries

  /** The bytes of a directory entry with the first 14 bytes of a name. */
  function EntryBytes(inum: nat, name: string): seq<int> {
    EncodeEntry(Directory.Dirent(inum, Directory.Trunc(name)))
  }

  /** The root directory with entries for files of these names, whose inode numbers start at 2. */
  function RootEntries(names: seq<string>): seq<int> {
    if names == [] then EntryBytes(ROOTINO, ".") + EntryBytes(ROOTINO, "..")
    else RootEntries(names[..|names| - 1]) + EntryBytes(1 + |names|, names[|names| - 1])
  }

  lemma RootEntriesMore(names: seq<string>, k: nat)
    requires k < |names|
    ensures RootEntries(names[..k + 1]) == RootEntries(names[..k]) + EntryBytes(2 + k, names[k])
  {
    assert names[..k + 1][..k] == names[..k];
  }

  // ---------------------------------------------------------------- how many blocks it takes

  /** The number of blocks that a file of `len` bytes takes, its indirect block included. */
  function FileCost(len: nat): nat {
    Blocks(len) + Bit(Blocks(len) > NDIRECT)
  }

  lemma CostGrows(a: nat, b: nat)
    requires a <= b
    ensures FileCost(a) <= FileCost(b)
  {
  }

  lemma AppendCost(len: nat, n: nat)
    ensures NeededBy(len, len, n) == FileCost(len + n) - FileCost(len)
  {
  }

  function FilesCost(contents: seq<seq<int>>, k: nat): nat
    requires k <= |contents|
  {
    if k == 0 then 0 else FilesCost(contents, k - 1) + FileCost(|contents[k - 1]|)
  }

  /** The number of blocks that the root directory and the first `k` files take. */
  function ImageCost(contents: seq<seq<int>>, k: nat): nat
    requires k <= |contents|
  {
    FileCost((2 + k) * ENTRY) + FilesCost(contents, k)
  }

  /** The root directory and the first `k` files fit the limits of a file and an image of `size` blocks. */
  ghost predicate Fits(size: nat, nmeta: nat, contents: seq<seq<int>>, k: nat)
    requires k <= |contents|
  {
    && (2 + k) * ENTRY <= MAXFILE * BSIZE && nmeta + ImageCost(contents, k) <= size
    && forall j | 0 <= j < k :: |contents[j]| <= MAXFILE * BSIZE
  }

  /** The number of blocks that one more file takes, with its entry in a root directory of `root` bytes. */
  function AddCost(root: nat, len: nat): int {
    FileCost(root + ENTRY) - FileCost(root) + FileCost(len)
  }

  lemma FitsNext(size: nat, nmeta: nat, contents: seq<seq<int>>, k: nat, next: nat, root: nat)
    requires next == k + 1 <= |contents| && Fits(size, nmeta, contents, k) && root == (2 + k) * ENTRY
    ensures ImageCost(contents, next) == ImageCost(contents, k) + AddCost(root, |contents[k]|)
    ensures Fits(size, nmeta, contents, next) <==>
      && root + ENTRY <= MAXFILE * BSIZE && |contents[k]| <= MAXFILE * BSIZE
      && nmeta + ImageCost(contents, k) + AddCost(root, |contents[k]|) <= size
  {
  }

  lemma {:induction false} FitsLess(size: nat, nmeta: nat, contents: seq<seq<int>>, k: nat, n: nat)
    requires k <= n <= |contents| && Fits(size, nmeta, contents, n)
    ensures Fits(size, nmeta, contents, k)
    decreases n
  {
    if k < n {
      CostGrows((1 + n) * ENTRY, (2 + n) * ENTRY);
      FitsLess(size, nmeta, contents, k, n - 1);
    }
  }

  // ---------------------------------------------------------------- one block more

  // The next block in order, which is blank, is what `balloc` would hand out.
  lemma NextBlock(size: nat, n: nat, bytes: seq<seq<int>>, words: seq<seq<nat>>, inodes: seq<Inode>)
    requires n < size == |bytes| == |words| && Blank(bytes, words, n)
    ensures Alloc(Fs(UpTo(size, n), bytes, words, inodes), n) == Fs(UpTo(size, n + 1), bytes, words, inodes)
  {
    UpToMore(size, n);
  }

  lemma {:induction false} FreeUpTo(size: nat, n: nat, k: nat)
    requires n <= size && k <= size
    ensures FreeBelow(UpTo(size, n), k) == if k <= n then 0 else k - n
  {
    if k > 0 { FreeUpTo(size, n, k - 1); }
  }

  // Without any block named, all files are empty.
  lemma BlankImage(fs: Fs, nmeta: nat, files: seq<seq<int>>)
    requires Shaped(fs) && 1 <= nmeta <= |fs.used| && (forall b | 0 <= b < |fs.used| :: fs.used[b] <==> b < nmeta)
    requires forall i | 0 <= i < |fs.inodes| :: fs.inodes[i] == EmptyInode()
    requires |files| == |fs.inodes| && forall i | 0 <= i < |files| :: files[i] == []
    ensures Owned(fs, nmeta, map[]) && AllFiles(fs, files) && ZeroTails(fs, files)
  {
    forall i: nat, k: nat | i < |fs.inodes| && k < NSLOTS ensures Named(fs, i, k) == 0 {
    }
  }

  lemma EmptyHasNoBlocks(fs: Fs, nmeta: nat, owner: map<nat, (nat, nat)>, i: nat)
    requires Owned(fs, nmeta, owner) && i < |fs.inodes| && IsFile(fs, i, [])
    ensures fs.inodes[i] == EmptyInode()
  {
    var a := fs.inodes[i].addrs;
    forall k | 0 <= k <= NDIRECT ensures a[k] == 0 {
      assert Named(fs, i, k) == a[k];
      if k < NDIRECT { assert Named(fs, i, SlotOf(k)) == 0; }
    }
    assert a == ZeroWords(NDIRECT + 1);
  }

  // ---------------------------------------------------------------- rounds of iappend

  lemma NeededNone(off: nat)
    ensures NeededBy(off, off, 0) == 0
  {
  }

  lemma AppendSplice(data: seq<int>, part: seq<int>)
    ensures Splice(data, |data|, part) == data + part
  {
  }

  // What one more round at offset `at` needs.
  lemma AppendBlocks(fs: Fs, h: Fs, files: seq<seq<int>>, i: nat, off: nat, src: seq<int>, tot: nat, end: nat, at: nat)
    returns (was: int, now: int)
    requires Progress(fs, h, files, i, off, src, tot) && tot < |src| && end == RoundEnd(off, tot, |src|)
    requires off == |files[i]|
    requires at == off + tot
    ensures at / BSIZE < MAXFILE && i < |h.inodes|
    ensures was + Missing(h, i, at / BSIZE) == now <= NeededBy(off, off, |src|)
    ensures was == NeededBy(off, off, tot) && now == NeededBy(off, off, end)
  {
    var c, bn, next := Blocks(off), EndBlock(off, tot), EndBlock(off, end);
    StepBlocks(fs, h, files, i, off, src, tot, end, off, c, bn, next);
    MissingIs(h, i, Max(c, bn), bn);
    AllocsAddUp(c, Max(c, bn), Max(c, next));
    NeededGrows(off, off, end, |src|);
    was, now := NeededBy(off, off, tot), NeededBy(off, off, end);
  }

  // One more round, as the files see it.
  lemma AppendStep(fs: Fs, f1: Fs, g: Fs, h: Fs, nmeta: nat, owner: map<nat, (nat, nat)>, owner': map<nat, (nat, nat)>,
                   files: seq<seq<int>>, i: nat, off: nat, src: seq<int>, tot: nat, end: nat, at: nat, data: seq<int>,
                   chunk: seq<int>)
    requires Progress(fs, f1, files, i, off, src, tot) && tot < |src| && end == RoundEnd(off, tot, |src|)
    requires at == off + tot && off == |files[i]| && data == files[i] + src[..tot] && chunk == src[tot..end]
    requires WriteRound(f1, g, h, nmeta, owner, owner', i, at, chunk)
    requires Named(f1, i, SlotOf(at / BSIZE)) != 0 ==> h.inodes == f1.inodes
    requires ZeroTails(f1, files[i := data])
    ensures Owned(h, nmeta, owner') && Progress(fs, h, files, i, off, src, end)
    ensures ZeroTails(h, files[i := files[i] + src[..end]])
  {
    AppendSplice(files[i], src[..tot]);
    RoundDone(f1, g, h, nmeta, owner, owner', i, at, chunk, data, files);
    StepDone(fs, f1, h, files, i, off, src, tot, end, at, data);
    TailsAppended(f1, g, h, nmeta, owner, owner', i, at, chunk, files, data);
    assert data + chunk == files[i] + src[..end];
  }

  // After the last round the inode gets its size.
  lemma AppendEnds(fs: Fs, h: Fs, nmeta: nat, owner: map<nat, (nat, nat)>, files: seq<seq<int>>, i: nat, off: nat,
                   src: seq<int>, n: nat)
    requires Progress(fs, h, files, i, off, src, |src|) && Owned(h, nmeta, owner) && AllFiles(fs, files)
    requires off == |files[i]| && n == off + |src| && ZeroTails(h, files[i := files[i] + src[..|src|]])
    ensures var g, now := Resize(h, i, n), files[i := files[i] + src];
      Owned(g, nmeta, owner) && AllFiles(g, now) && ZeroTails(g, now)
  {
    assert src[..|src|] == src;
    AppendSplice(files[i], src);
    WriteEnds(fs, h, nmeta, owner, files, i, off, src, n);
    TailsResized(h, i, n, files[i := files[i] + src]);
    assert IsFile(fs, i, files[i]);
    if |src| == 0 { assert Resize(h, i, n) == h; }
  }

  class Image {
    const size: nat
    const nmeta: nat
    const inodestart: nat
    const bmapstart: nat
    var bytes: seq<seq<int>>
    var words: seq<seq<nat>>
    var dinodes: seq<Inode>
    var freeblock: nat
    var freeinode: nat
    ghost var owner: map<nat, (nat, nat)>
    ghost var files: seq<seq<int>>

    ghost function Abs(): Fs
      reads this
    {
      Fs(UpTo(size, freeblock), bytes, words, dinodes)
    }

    /** The image with `din` for inode `i`, which `iappend` writes at its end. */
    ghost function With(i: nat, din: Inode): Fs
      requires i < |dinodes|
      reads this
    {
      Fs(UpTo(size, freeblock), bytes, words, dinodes[i := din])
    }

    /** Every block from the metadata to `freeblock` is named once, and no other block is or was ever written; every
        inode stores its file, and inodes from `freeinode` on are empty. */
    ghost predicate Valid()
      reads this
    {
      && nmeta <= freeblock <= size && LaidOut(nmeta, inodestart, bmapstart, |dinodes|, size)
      && Owned(Abs(), nmeta, owner) && AllFiles(Abs(), files) && ZeroTails(Abs(), files)
      && Blank(bytes, words, freeblock) && forall i | freeinode <= i < |dinodes| :: files[i] == []
    }

    /** An image of zeros, with the layout that mkfs computes. */
    constructor (size: nat, ninodes: nat, nlog: nat)
      requires 2 + nlog + (ninodes / IPB + 1) + (size / BPB + 1) <= size
      ensures Valid() && this.size == size && |dinodes| == ninodes && freeinode == ROOTINO
      ensures freeblock == nmeta == 2 + nlog + (ninodes / IPB + 1) + (size / BPB + 1)
    {
      var ninodeblocks, nbitmap := ninodes / IPB + 1, size / BPB + 1;
      this.size, nmeta := size, 2 + nlog + ninodeblocks + nbitmap;
      inodestart, bmapstart := 2 + nlog, 2 + nlog + ninodeblocks;
      bytes := seq(size, _ => Zeros(BSIZE));
      words := seq(size, _ => ZeroWords(NINDIRECT));
      dinodes := seq(ninodes, _ => EmptyInode());
      freeblock, freeinode := 2 + nlog + ninodeblocks + nbitmap, ROOTINO;
      owner, files := map[], seq(ninodes, _ => []);
      new;
      BlankImage(Abs(), nmeta, files);
    }

    /** `ialloc`: the next inode, empty. */
    method Ialloc() returns (inum: nat)
      requires Valid() && freeinode < |dinodes|
      modifies this`dinodes, this`freeinode
      ensures Valid() && inum == old(freeinode) && freeinode == inum + 1 && dinodes == old(dinodes) && files[inum] == []
    {
      inum := freeinode;
      assert IsFile(Abs(), inum, files[inum]);
      EmptyHasNoBlocks(Abs(), nmeta, owner, inum);
      dinodes := dinodes[inum := EmptyInode()];
      assert dinodes == old(dinodes);
      freeinode := freeinode + 1;
    }

    /** The state inside `iappend`: `din` is its copy of inode `i`. */
    ghost predicate Holds(i: nat, din: Inode)
      reads this
    {
      && i < |dinodes| && nmeta <= freeblock <= size
      && Owned(With(i, din), nmeta, owner) && Blank(bytes, words, freeblock)
    }

    /** Gives slot `k` the next block; false where reading the block fails because it lies outside the image. */
    method TakeSlot(i: nat, din: Inode, k: nat) returns (ok: bool, din': Inode)
      requires Holds(i, din) && k < NSLOTS && Named(With(i, din), i, k) == 0
      requires k > NDIRECT ==> Named(With(i, din), i, NDIRECT) != 0
      modifies this`words, this`freeblock, this`owner
      ensures !ok ==> old(freeblock) == size
      ensures ok ==> Holds(i, din') && freeblock == old(freeblock) + 1 && din'.size == din.size
      ensures ok ==> Mapping(old(With(i, din)), With(i, din'), i, k, old(freeblock))
    {
      ghost var fs := With(i, din);
      IndirectInRange(fs, nmeta, owner, i);
      var b := freeblock;
      freeblock := freeblock + 1;
      din' := din;
      if b >= size {
        return false, din;
      }
      NextBlock(size, b, bytes, words, fs.inodes);
      SlotMapped(fs, nmeta, owner, i, k, b);
      if k <= NDIRECT {
        din' := din.(addrs := din.addrs[k := b]);
      } else {
        var x := din.addrs[NDIRECT];
        var w: seq<nat> := words[x];
        words := words[x := w[k - NDIRECT - 1 := b]];
      }
      owner := owner[b := (i, k)];
      assert With(i, din') == SetSlot(Alloc(fs, b), i, k, b);
      ok := true;
    }

    /** The block for `bn`, if the indirect block exists or is not needed. */
    method MapEntry(i: nat, din: Inode, bn: nat) returns (ok: bool, din': Inode, x: nat)
      requires Holds(i, din) && bn < MAXFILE && (bn >= NDIRECT ==> Named(With(i, din), i, NDIRECT) != 0)
      modifies this`words, this`freeblock, this`owner
      ensures !ok ==> size < old(freeblock) + Missing(old(With(i, din)), i, bn)
      ensures ok ==>
        Holds(i, din') && din'.size == din.size && freeblock == old(freeblock) + Missing(old(With(i, din)), i, bn)
      ensures ok ==> Extended(old(With(i, din)), With(i, din'), i, bn, x)
      ensures ok && Named(old(With(i, din)), i, SlotOf(bn)) != 0 ==>
        din' == din && words == old(words) && owner == old(owner)
    {
      ghost var fs, own := With(i, din), owner;
      IndirectInRange(fs, nmeta, owner, i);
      ok, din' := true, din;
      x := if bn < NDIRECT then din.addrs[bn] else words[din.addrs[NDIRECT]][bn - NDIRECT];
      if x == 0 {
        x := freeblock;
        ok, din' := TakeSlot(i, din, SlotOf(bn));
        if ok {
          MappingExtends(fs, With(i, din'), nmeta, own, i, bn, x);
        }
      } else {
        MappedExtends(fs, nmeta, owner, i, bn);
      }
    }

    /** The block for `bn`, as `iappend` finds or takes it. */
    method MapNext(i: nat, din: Inode, bn: nat) returns (ok: bool, din': Inode, x: nat)
      requires Holds(i, din) && bn < MAXFILE
      modifies this`words, this`freeblock, this`owner
      ensures !ok ==> size < old(freeblock) + Missing(old(With(i, din)), i, bn)
      ensures ok ==>
        Holds(i, din') && din'.size == din.size && freeblock == old(freeblock) + Missing(old(With(i, din)), i, bn)
      ensures ok ==> Extended(old(With(i, din)), With(i, din'), i, bn, x)
      ensures ok && Named(old(With(i, din)), i, SlotOf(bn)) != 0 ==>
        din' == din && words == old(words) && owner == old(owner)
    {
      ghost var fs := With(i, din);
      IndirectInRange(fs, nmeta, owner, i);
      if bn >= NDIRECT && din.addrs[NDIRECT] == 0 {
        ghost var b := freeblock;
        ok, din' := TakeSlot(i, din, NDIRECT);
        if !ok {
          return false, din, 0;
        }
        ghost var f1 := With(i, din');
        assert Named(f1, i, SlotOf(bn)) == 0 && Named(f1, i, NDIRECT) == b;
        ok, din', x := MapEntry(i, din', bn);
        if ok {
          ExtendsAfterIndirect(fs, f1, With(i, din'), i, bn, b, x);
        }
      } else {
        ok, din', x := MapEntry(i, din, bn);
      }
    }

    /** One round of `iappend`: the bytes `chunk` at offset `at`. */
    method AppendRound(i: nat, din: Inode, at: nat, chunk: seq<int>) returns (ok: bool, din': Inode, ghost g: Fs)
      requires Holds(i, din) && 1 <= |chunk| <= BSIZE - at % BSIZE && at + |chunk| <= MAXFILE * BSIZE
      modifies this`bytes, this`words, this`freeblock, this`owner
      ensures !ok ==> size < old(freeblock) + Missing(old(With(i, din)), i, at / BSIZE)
      ensures ok ==>
        i < |dinodes| && nmeta <= freeblock <= size && Blank(bytes, words, freeblock) && din'.size == din.size
      ensures ok ==> freeblock == old(freeblock) + Missing(old(With(i, din)), i, at / BSIZE)
      ensures ok ==> WriteRound(old(With(i, din)), g, With(i, din'), nmeta, old(owner), owner, i, at, chunk)
      ensures ok && Named(old(With(i, din)), i, SlotOf(at / BSIZE)) != 0 ==> din' == din
    {
      ghost var fs, own := With(i, din), owner;
      var x;
      ok, din', x := MapNext(i, din, at / BSIZE);
      g := With(i, din');
      if ok {
        NamedIsUsed(g, nmeta, owner, i, SlotOf(at / BSIZE));
        var o := at % BSIZE;
        bytes := bytes[x := bytes[x][..o] + chunk + bytes[x][o + |chunk|..]];
      }
    }

    /** One round of the loop of `iappend`, at offset `at`. */
    method AppendNext(i: nat, din: Inode, off: nat, src: seq<int>, tot: nat, end: nat, at: nat, ghost fs: Fs,
                      ghost data: seq<int>)
      returns (ok: bool, din': Inode)
      requires Holds(i, din) && Progress(fs, With(i, din), files, i, off, src, tot) && off == |files[i]|
      requires tot < |src| && end == RoundEnd(off, tot, |src|) && at == off + tot && at / BSIZE < MAXFILE
      requires data == files[i] + src[..tot] && ZeroTails(With(i, din), files[i := data])
      modifies this`bytes, this`words, this`freeblock, this`owner
      ensures !ok ==> size < old(freeblock) + Missing(old(With(i, din)), i, at / BSIZE)
      ensures ok ==> Holds(i, din') && Progress(fs, With(i, din'), files, i, off, src, end)
      ensures ok ==> ZeroTails(With(i, din'), files[i := files[i] + src[..end]])
      ensures ok ==> freeblock == old(freeblock) + Missing(old(With(i, din)), i, at / BSIZE)
    {
      ghost var f1, own, g := With(i, din), owner, With(i, din);
      ok, din', g := AppendRound(i, din, at, src[tot..end]);
      if ok {
        AppendStep(fs, f1, g, With(i, din'), nmeta, own, owner, files, i, off, src, tot, end, at, data, src[tot..end]);
      }
    }

    /** `iappend`, begun in `fs` with `fb` blocks handed out, has added the first `tot` bytes of `src`. */
    ghost predicate Appended(i: nat, din: Inode, fs: Fs, fb: nat, off: nat, src: seq<int>, tot: nat)
      reads this
    {
      && Holds(i, din) && Progress(fs, With(i, din), files, i, off, src, tot) && off == |files[i]|
      && ZeroTails(With(i, din), files[i := files[i] + src[..tot]])
      && freeblock == fb + NeededBy(off, off, tot)
    }

    /** The same round, with the blocks that it takes. */
    method AppendCounted(i: nat, din: Inode, off: nat, src: seq<int>, tot: nat, end: nat, ghost fs: Fs, ghost fb: nat)
      returns (ok: bool, din': Inode)
      requires Appended(i, din, fs, fb, off, src, tot) && tot < |src| && end == RoundEnd(off, tot, |src|)
      modifies this`bytes, this`words, this`freeblock, this`owner
      ensures !ok ==> size < fb + NeededBy(off, off, |src|)
      ensures ok ==> Appended(i, din', fs, fb, off, src, end)
    {
      var at := off + tot;
      ghost var was, now := AppendBlocks(fs, With(i, din), files, i, off, src, tot, end, at);
      ok, din' := AppendNext(i, din, off, src, tot, end, at, fs, files[i] + src[..tot]);
    }

    /** The loop of `iappend`, for bytes that a file can hold. */
    method AppendRounds(i: nat, src: seq<int>) returns (ok: bool, din: Inode)
      requires Valid() && i < |dinodes| && |files[i]| + |src| <= MAXFILE * BSIZE
      modifies this`bytes, this`words, this`freeblock, this`owner
      ensures ok <==> old(freeblock) + NeededBy(|files[i]|, |files[i]|, |src|) <= size
      ensures ok ==> Appended(i, din, old(Abs()), old(freeblock), |files[i]|, src, |src|)
    {
      ghost var fs, fb := Abs(), freeblock;
      assert IsFile(fs, i, files[i]);
      din, ok := dinodes[i], true;
      var off, tot := din.size, 0;
      assert With(i, din) == fs && files[i] + src[..0] == files[i];
      ProgressStarts(fs, files, i, off, src);
      NeededNone(off);
      while tot < |src|
        invariant tot <= |src| && Appended(i, din, fs, fb, off, src, tot)
      {
        var end := RoundEnd(off, tot, |src|);
        ok, din := AppendCounted(i, din, off, src, tot, end, fs, fb);
        if !ok {
          return;
        }
        tot := end;
      }
    }

    /** The end of `iappend`: it writes the inode with its new size. */
    method WriteInode(i: nat, din: Inode, p: seq<int>, off: nat, end: nat, ghost fs: Fs, ghost fb: nat)
      requires Appended(i, din, fs, fb, off, p, |p|) && AllFiles(fs, files) && end == off + |p| && i < freeinode
      requires LaidOut(nmeta, inodestart, bmapstart, |dinodes|, size)
      requires forall j | freeinode <= j < |dinodes| :: files[j] == []
      modifies this`dinodes, this`files
      ensures Valid() && files == old(files)[i := old(files)[i] + p] && |dinodes| == old(|dinodes|)
    {
      ghost var h := With(i, din);
      AppendEnds(fs, h, nmeta, owner, files, i, off, p, end);
      dinodes := dinodes[i := din.(size := end)];
      assert Abs() == Resize(h, i, end);
      files := files[i := files[i] + p];
    }

    /** `iappend`: adds bytes to the end of a file.  It fails exactly if the file would be too large or the image too
        small. */
    method Iappend(i: nat, p: seq<int>) returns (ok: bool)
      requires Valid() && i < freeinode && i < |dinodes|
      modifies this
      ensures ok <==>
        && |old(files)[i]| + |p| <= MAXFILE * BSIZE
        && old(freeblock) + NeededBy(|old(files)[i]|, |old(files)[i]|, |p|) <= size
      ensures ok ==> Valid() && files == old(files)[i := old(files)[i] + p]
      ensures ok ==> freeblock == old(freeblock) + NeededBy(|old(files)[i]|, |old(files)[i]|, |p|)
      ensures freeinode == old(freeinode) && |dinodes| == old(|dinodes|)
    {
      ghost var fs, fb := Abs(), freeblock;
      assert IsFile(fs, i, files[i]);
      var off := dinodes[i].size;
      // The assertion on the block number fails at the first byte that no file can hold.
      var n := Min(|p|, MAXFILE * BSIZE - off);
      var din;
      ok, din := AppendRounds(i, p[..n]);
      if !ok || n < |p| {
        NeededGrows(off, off, n, |p|);
        return false;
      }
      assert p[..n] == p;
      WriteInode(i, din, p, off, off + |p|, fs, fb);
    }

    /** `balloc`: one bitmap block with the bits of the first `n` blocks set; false where its assertion fails. */
    method Balloc(n: nat) returns (ok: bool, buf: seq<bool>)
      ensures ok <==> n < BPB
      ensures ok ==> buf == UpTo(BPB, n)
    {
      buf := UpTo(BPB, 0);
      if n >= BPB {
        return false, buf;
      }
      var i := 0;
      while i < n
        invariant i <= n && buf == UpTo(BPB, i)
      {
        UpToMore(BPB, i);
        buf := buf[i := true];
        i := i + 1;
      }
      ok := true;
    }

    /** The end of mkfs: it rounds up the size of the root directory and writes the bitmap.  The result is the image
        as the kernel mounts it.  There is none if the bitmap needs a second block, where mkfs fails, or if the root
        directory fills its blocks, where mkfs writes an image that is no file system. */
    method Finish() returns (r: Option<FileSystem>)
      requires Valid() && ROOTINO < |dinodes|
      modifies this`dinodes
      ensures r.Some? <==> freeblock < BPB && |files[ROOTINO]| % BSIZE != 0
      ensures r.Some? ==> r.value.Consistent() && r.value.files == files[ROOTINO := Padded(files[ROOTINO])]
      ensures r.Some? ==> r.value.used == UpTo(size, freeblock)
    {
      ghost var fs := Abs();
      assert IsFile(fs, ROOTINO, files[ROOTINO]);
      var din := dinodes[ROOTINO];
      var full := din.size % BSIZE == 0;
      dinodes := dinodes[ROOTINO := din.(size := RootSize(din.size))];
      var ok, buf := Balloc(freeblock);
      if !ok || full {
        return None;
      }
      var used := seq(size, b requires 0 <= b => b < BPB && buf[b]);
      assert used == UpTo(size, freeblock);
      RootPadded(fs, nmeta, owner, files, ROOTINO);
      assert Abs() == Resize(fs, ROOTINO, RootSize(|files[ROOTINO]|));
      var image := new FileSystem(Fs(used, bytes, words, dinodes), nmeta, inodestart, bmapstart, owner,
                                  files[ROOTINO := Padded(files[ROOTINO])]);
      r := Some(image);
    }

    /** The first `off` bytes of a file are in the image, which had `fb` blocks in use and these files before. */
    ghost predicate Copied(i: nat, content: seq<int>, off: nat, fb: nat, files0: seq<seq<int>>)
      reads this
    {
      && off <= |content| && off <= MAXFILE * BSIZE && i < |files0| && Valid()
      && files == files0[i := content[..off]] && freeblock == fb + FileCost(off)
    }

    /** One block more. */
    method CopyNext(i: nat, content: seq<int>, off: nat, next: nat, ghost fb: nat, ghost files0: seq<seq<int>>)
      returns (ok: bool)
      requires Copied(i, content, off, fb, files0) && off < next <= |content| && i < freeinode && i < |dinodes|
      modifies this
      ensures ok <==> next <= MAXFILE * BSIZE && fb + FileCost(next) <= size
      ensures ok ==> Copied(i, content, next, fb, files0)
      ensures freeinode == old(freeinode) && |dinodes| == old(|dinodes|)
    {
      AppendCost(off, next - off);
      assert content[..off] + content[off..next] == content[..next];
      ok := Iappend(i, content[off..next]);
    }

    /** Copies a file into the image, one block at a time. */
    method CopyFile(i: nat, content: seq<int>) returns (ok: bool)
      requires Valid() && i < freeinode && i < |dinodes| && files[i] == []
      modifies this
      ensures ok <==> |content| <= MAXFILE * BSIZE && old(freeblock) + FileCost(|content|) <= size
      ensures ok ==> Valid() && files == old(files)[i := content] && freeblock == old(freeblock) + FileCost(|content|)
      ensures freeinode == old(freeinode) && |dinodes| == old(|dinodes|)
    {
      ghost var fb, files0 := freeblock, files;
      var off := 0;
      ok := true;
      assert files[i := content[..0]] == files;
      while off < |content|
        invariant ok && Copied(i, content, off, fb, files0)
        invariant freeinode == old(freeinode) && |dinodes| == old(|dinodes|)
      {
        var next := Min(off + BSIZE, |content|);
        CostGrows(next, |content|);
        ok := CopyNext(i, content, off, next, fb, files0);
        if !ok {
          return;
        }
        off := next;
      }
      assert content[..off] == content;
    }

    /** One argument of mkfs: a new inode, its entry in the root directory, and its contents. */
    method AddFile(name: string, content: seq<int>) returns (ok: bool)
      requires Valid() && ROOTINO < freeinode < |dinodes|
      modifies this
      ensures freeinode == old(freeinode) + 1 && |dinodes| == old(|dinodes|)
      ensures ok <==>
        && |old(files)[ROOTINO]| + ENTRY <= MAXFILE * BSIZE && |content| <= MAXFILE * BSIZE
        && old(freeblock) + AddCost(|old(files)[ROOTINO]|, |content|) <= size
      ensures ok ==> freeblock == old(freeblock) + AddCost(|old(files)[ROOTINO]|, |content|)
      ensures ok ==> Valid()
      ensures ok ==>
        files == old(files)[ROOTINO := old(files)[ROOTINO] + EntryBytes(old(freeinode), name)]
                           [old(freeinode) := content]
    {
      AppendCost(|files[ROOTINO]|, ENTRY);
      var inum := Ialloc();
      ok := Iappend(ROOTINO, EntryBytes(inum, name));
      if ok {
        ok := CopyFile(inum, content);
      }
    }

    /** The image holds the root directory and the first `k` files. */
    ghost predicate Has(names: seq<string>, contents: seq<seq<int>>, k: nat)
      reads this
    {
      && Valid() && k <= |names| == |contents| && freeinode == 2 + k <= |dinodes|
      && |files[ROOTINO]| == (2 + k) * ENTRY && files[ROOTINO] == RootEntries(names[..k])
      && freeblock == nmeta + ImageCost(contents, k) && forall j | 0 <= j < k :: files[2 + j] == contents[j]
    }

    /** The next argument. */
    method AddNext(names: seq<string>, contents: seq<seq<int>>, k: nat, ghost next: nat) returns (ok: bool)
      requires Has(names, contents, k) && k < |names| && 2 + |names| <= |dinodes| && next == k + 1
      requires Fits(size, nmeta, contents, k)
      modifies this
      ensures |dinodes| == old(|dinodes|) && (ok <==> Fits(size, nmeta, contents, next))
      ensures ok ==> Has(names, contents, next)
    {
      RootEntriesMore(names, k);
      FitsNext(size, nmeta, contents, k, next, |files[ROOTINO]|);
      ok := AddFile(names[k], contents[k]);
    }
  }

  /** The first steps of mkfs: an image with a root directory that has the entries "." and "..". */
  method MakeRoot(size: nat, ninodes: nat, nlog: nat, names: seq<string>, contents: seq<seq<int>>)
    returns (ok: bool, image: Image)
    requires 2 + nlog + (ninodes / IPB + 1) + (size / BPB + 1) <= size && 2 <= ninodes && |contents| == |names|
    ensures fresh(image) && |image.dinodes| == ninodes && image.size == size
    ensures image.nmeta == 2 + nlog + (ninodes / IPB + 1) + (size / BPB + 1)
    ensures ok <==> Fits(size, image.nmeta, contents, 0)
    ensures ok ==> image.Has(names, contents, 0)
  {
    image := new Image(size, ninodes, nlog);
    AppendCost(0, ENTRY);
    AppendCost(ENTRY, ENTRY);
    var root := image.Ialloc();
    ok := image.Iappend(root, EntryBytes(root, "."));
    if ok {
      ok := image.Iappend(root, EntryBytes(root, ".."));
    }
  }

  /** mkfs.  The files of the image are the root directory, with an entry for each argument, and the contents of the
      arguments.  There is an image that the kernel can mount exactly if everything fits and the entries do not fill the
      blocks of the root directory. */
  method Make(size: nat, ninodes: nat, nlog: nat, names: seq<string>, contents: seq<seq<int>>)
    returns (r: Option<FileSystem>)
    requires 2 + nlog + (ninodes / IPB + 1) + (size / BPB + 1) <= size
    requires |contents| == |names| && 2 + |names| <= ninodes
    ensures var nmeta := 2 + nlog + (ninodes / IPB + 1) + (size / BPB + 1);
      r.Some? <==>
        && Fits(size, nmeta, contents, |names|) && nmeta + ImageCost(contents, |names|) < BPB
        && (2 + |names|) * ENTRY % BSIZE != 0
    ensures r.Some? ==>
      r.value.Consistent() && |r.value.files| == ninodes && r.value.files[ROOTINO] == Padded(RootEntries(names))
    ensures r.Some? ==> forall k | 0 <= k < |names| :: r.value.files[2 + k] == contents[k]
  {
    r := None;
    var ok, image := MakeRoot(size, ninodes, nlog, names, contents);
    var k := 0;
    while ok && k < |names|
      invariant k <= |names| && fresh(image) && |image.dinodes| == ninodes
      invariant ok ==> image.Has(names, contents, k) && Fits(size, image.nmeta, contents, k)
      invariant !ok ==> !Fits(size, image.nmeta, contents, |names|)
    {
      var next := k + 1;
      ok := image.AddNext(names, contents, k, next);
      if !ok && Fits(size, image.nmeta, contents, |names|) {
        FitsLess(size, image.nmeta, contents, next, |names|);
      }
      k := next;
    }
    if ok {
      assert names[..k] == names;
      r := image.Finish();
    }
  }
}
