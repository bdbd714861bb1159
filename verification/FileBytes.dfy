/** Files as byte strings over the block map of kernel/fs.c. */
module FileBytes {
  import opened Common
  import opened BlockMap

  /** The number of blocks that `len` bytes occupy. */
  function Blocks(len: nat): nat {
    (len + BSIZE - 1) / BSIZE
  }

  /** File `i` has exactly its first `c` blocks mapped, and an indirect block exactly if it needs one. */
  ghost predicate Mapped(fs: Fs, i: nat, c: nat)
    requires i < |fs.inodes|
  {
    && c <= MAXFILE
    && (forall bn | 0 <= bn < MAXFILE :: Named(fs, i, SlotOf(bn)) != 0 <==> bn < c)
    && (Named(fs, i, NDIRECT) != 0 <==> NDIRECT < c)
  }

  function ByteAt(fs: Fs, i: nat, x: nat): int
    requires i < |fs.inodes| && x < MAXFILE * BSIZE
  {
    var b := Named(fs, i, SlotOf(x / BSIZE));
    if b < |fs.bytes| && |fs.bytes[b]| == BSIZE then fs.bytes[b][x % BSIZE] else 0
  }

  /** The blocks of file `i` hold `data`, with no hole and no block to spare. */
  ghost predicate Stores(fs: Fs, i: nat, data: seq<int>)
    requires i < |fs.inodes|
  {
    && |data| <= MAXFILE * BSIZE
    && Mapped(fs, i, Blocks(|data|))
    && forall x | 0 <= x < |data| :: ByteAt(fs, i, x) == data[x]
  }

  /** File `i` is `data`: its blocks hold it and its size is right. */
  ghost predicate IsFile(fs: Fs, i: nat, data: seq<int>)
    requires i < |fs.inodes|
  {
    Stores(fs, i, data) && fs.inodes[i].size == |data|
  }

  // A file has one value only.
  lemma FileIsUnique(fs: Fs, i: nat, d: seq<int>, e: seq<int>)
    requires i < |fs.inodes| && IsFile(fs, i, d) && IsFile(fs, i, e)
    ensures d == e
  {
    forall x | 0 <= x < |d|
      ensures d[x] == e[x]
    {
      assert ByteAt(fs, i, x) == d[x];
    }
  }

  /** `chunk` written over `data` at `off`, growing it if need be. */
  function Splice(data: seq<int>, off: nat, chunk: seq<int>): (r: seq<int>)
    requires off <= |data|
    ensures |r| == if off + |chunk| < |data| then |data| else off + |chunk|
    ensures forall x :: 0 <= x < |r| ==> r[x] == if off <= x < off + |chunk| then chunk[x - off] else data[x]
  {
    data[..off] + chunk + if off + |chunk| < |data| then data[off + |chunk|..] else []
  }

  lemma SpliceTwice(data: seq<int>, off: nat, a: seq<int>, b: seq<int>)
    requires off <= |data|
    ensures Splice(Splice(data, off, a), off + |a|, b) == Splice(data, off, a + b)
  {
  }

  // ---------------------------------------------------------------- what bmap does

  /** From `fs` to `g` inode `i` may have got a block for `bn`, and for its indirect block; used blocks keep
      their bytes and a new data block is clear. */
  ghost predicate Extended(fs: Fs, g: Fs, i: nat, bn: nat, addr: nat)
    requires i < |fs.inodes| && bn < MAXFILE
  {
    && |g.inodes| == |fs.inodes| && |g.used| == |fs.used| && |g.bytes| == |fs.bytes| == |fs.used|
    && (forall j | 0 <= j < |fs.inodes| ::
           g.inodes[j].size == fs.inodes[j].size && (j != i ==> g.inodes[j] == fs.inodes[j]))
    && (forall j, m | 0 <= j < |fs.inodes| && 0 <= m < NSLOTS ::
          Named(fs, j, m) != 0 || (j != i || (m != SlotOf(bn) && m != NDIRECT)) ==> Named(g, j, m) == Named(fs, j, m))
    && Named(g, i, SlotOf(bn)) == addr && addr != 0
    && (bn < NDIRECT ==> Named(g, i, NDIRECT) == Named(fs, i, NDIRECT))
    && (bn >= NDIRECT ==> Named(g, i, NDIRECT) != 0)
    && (forall b | 0 <= b < |fs.used| && fs.used[b] :: g.used[b] && g.bytes[b] == fs.bytes[b])
    && (Named(fs, i, SlotOf(bn)) == 0 ==> addr < |g.bytes| && g.bytes[addr] == Zeros(BSIZE))
  }

  lemma ExtendedMapped(fs: Fs, g: Fs, i: nat, bn: nat, addr: nat, c: nat)
    requires i < |fs.inodes| && bn < MAXFILE && Extended(fs, g, i, bn, addr)
    requires Mapped(fs, i, c) && bn <= c
    ensures Mapped(g, i, if bn < c then c else bn + 1)
  {
    forall x | 0 <= x < MAXFILE
      ensures Named(g, i, SlotOf(x)) != 0 <==> x < if bn < c then c else bn + 1
    {
      assert SlotOf(x) == SlotOf(bn) ==> x == bn;
    }
  }

  // A file that is already stored is still stored after bmap worked on some file.
  lemma ExtendedKeepsStored(fs: Fs, g: Fs, i: nat, bn: nat, addr: nat, nmeta: nat, owner: map<nat, (nat, nat)>, j: nat,
                            x: nat)
    requires Owned(fs, nmeta, owner) && i < |fs.inodes| && bn < MAXFILE && Extended(fs, g, i, bn, addr)
    requires j < |fs.inodes| && x < MAXFILE * BSIZE && Named(fs, j, SlotOf(x / BSIZE)) != 0
    ensures ByteAt(g, j, x) == ByteAt(fs, j, x)
  {
    NamedIsUsed(fs, nmeta, owner, j, SlotOf(x / BSIZE));
  }

  /** Storing bytes in one data block. */
  function Poke(fs: Fs, b: nat, o: nat, chunk: seq<int>): Fs
    requires b < |fs.bytes| && o + |chunk| <= |fs.bytes[b]|
  {
    fs.(bytes := fs.bytes[b := fs.bytes[b][..o] + chunk + fs.bytes[b][o + |chunk|..]])
  }

  lemma PokeNames(fs: Fs, b: nat, o: nat, chunk: seq<int>, j: nat, m: nat)
    requires b < |fs.bytes| && o + |chunk| <= |fs.bytes[b]| && j < |fs.inodes| && m < NSLOTS
    ensures Named(Poke(fs, b, o, chunk), j, m) == Named(fs, j, m)
  {
  }

  lemma PokeKeepsOwned(fs: Fs, nmeta: nat, owner: map<nat, (nat, nat)>, b: nat, o: nat, chunk: seq<int>)
    requires Owned(fs, nmeta, owner) && b < |fs.bytes| && o + |chunk| <= BSIZE
    ensures Owned(Poke(fs, b, o, chunk), nmeta, owner)
  {
    var g := Poke(fs, b, o, chunk);
    forall j, m | 0 <= j < |fs.inodes| && 0 <= m < NSLOTS
      ensures Named(g, j, m) == Named(fs, j, m)
    {
      PokeNames(fs, b, o, chunk, j, m);
    }
    SameNamesOwned(fs, g, nmeta, owner);
  }

  // Writing into the block of file `i` for offset `off` changes the bytes from `off` on, and no others.
  lemma PokeByte(fs: Fs, nmeta: nat, owner: map<nat, (nat, nat)>, i: nat, off: nat, chunk: seq<int>, j: nat, x: nat)
    requires Owned(fs, nmeta, owner) && i < |fs.inodes| && off < MAXFILE * BSIZE
    requires off % BSIZE + |chunk| <= BSIZE && Named(fs, i, SlotOf(off / BSIZE)) != 0
    requires j < |fs.inodes| && x < MAXFILE * BSIZE && Named(fs, j, SlotOf(x / BSIZE)) != 0
    ensures Named(fs, i, SlotOf(off / BSIZE)) < |fs.bytes|
    ensures var g := Poke(fs, Named(fs, i, SlotOf(off / BSIZE)), off % BSIZE, chunk);
      ByteAt(g, j, x) == if j == i && off <= x < off + |chunk| then chunk[x - off] else ByteAt(fs, j, x)
  {
    NamedIsUsed(fs, nmeta, owner, i, SlotOf(off / BSIZE));
    NamedIsUsed(fs, nmeta, owner, j, SlotOf(x / BSIZE));
    var b := Named(fs, i, SlotOf(off / BSIZE));
    PokeNames(fs, b, off % BSIZE, chunk, j, SlotOf(x / BSIZE));
    if Named(fs, j, SlotOf(x / BSIZE)) == b {
      assert (j, SlotOf(x / BSIZE)) == (i, SlotOf(off / BSIZE));
      assert x / BSIZE == off / BSIZE;
    }
  }

  // ---------------------------------------------------------------- one round of writei

  lemma BlocksOfWrite(len: nat, off: nat, m: nat)
    requires off <= len && 1 <= m && off % BSIZE + m <= BSIZE
    ensures var bn, c := off / BSIZE, Blocks(len);
      && bn <= c
      && Blocks(if off + m < len then len else off + m) == (if bn < c then c else bn + 1)
      && (bn == c ==> off == len == bn * BSIZE)
  {
  }

  lemma MappedBlock(fs: Fs, i: nat, c: nat, x: nat)
    requires i < |fs.inodes| && Mapped(fs, i, c) && x < MAXFILE * BSIZE && Blocks(x + 1) <= c
    ensures Named(fs, i, SlotOf(x / BSIZE)) != 0
  {
    assert x / BSIZE < MAXFILE;
  }

  /** `fs` becomes `g` by bmap, then `h` by storing `chunk` at offset `off` of file `i`. */
  ghost predicate WriteRound(fs: Fs, g: Fs, h: Fs, nmeta: nat, owner: map<nat, (nat, nat)>, owner': map<nat, (nat,
                             nat)>, i: nat, off: nat, chunk: seq<int>)
  {
    && i < |fs.inodes| && |chunk| >= 1 && off % BSIZE + |chunk| <= BSIZE && off + |chunk| <= MAXFILE * BSIZE
    && Owned(fs, nmeta, owner) && Owned(g, nmeta, owner') && |g.inodes| == |fs.inodes|
    && var addr := Named(g, i, SlotOf(off / BSIZE));
       && Extended(fs, g, i, off / BSIZE, addr)
       && addr < |g.bytes| && |g.bytes[addr]| == BSIZE && h == Poke(g, addr, off % BSIZE, chunk)
  }

  lemma WriteRoundMaps(fs: Fs, g: Fs, h: Fs, nmeta: nat, owner: map<nat, (nat, nat)>, owner': map<nat, (nat, nat)>,
                       i: nat, off: nat, chunk: seq<int>, j: nat, c: nat)
    requires WriteRound(fs, g, h, nmeta, owner, owner', i, off, chunk) && j < |fs.inodes| && Mapped(g, j, c)
    ensures |h.inodes| == |fs.inodes| && Mapped(h, j, c)
  {
    var addr := Named(g, i, SlotOf(off / BSIZE));
    forall m | 0 <= m < NSLOTS
      ensures Named(h, j, m) == Named(g, j, m)
    {
      PokeNames(g, addr, off % BSIZE, chunk, j, m);
    }
  }

  lemma WriteRoundByte(fs: Fs, g: Fs, h: Fs, nmeta: nat, owner: map<nat, (nat, nat)>, owner': map<nat, (nat, nat)>,
                       i: nat, off: nat, chunk: seq<int>, j: nat, x: nat)
    requires WriteRound(fs, g, h, nmeta, owner, owner', i, off, chunk) && j < |fs.inodes| && x < MAXFILE * BSIZE
    requires Named(fs, j, SlotOf(x / BSIZE)) != 0 || (j == i && off <= x < off + |chunk|)
    ensures |h.inodes| == |fs.inodes|
    ensures ByteAt(h, j, x) == if j == i && off <= x < off + |chunk| then chunk[x - off] else ByteAt(fs, j, x)
  {
    if Named(fs, j, SlotOf(x / BSIZE)) != 0 {
      ExtendedKeepsStored(fs, g, i, off / BSIZE, Named(g, i, SlotOf(off / BSIZE)), nmeta, owner, j, x);
    } else {
      assert x / BSIZE == off / BSIZE;
    }
    PokeByte(g, nmeta, owner', i, off, chunk, j, x);
  }

  // One round of writei splices its bytes into the file.
  lemma WriteRoundSplices(fs: Fs, g: Fs, h: Fs, nmeta: nat, owner: map<nat, (nat, nat)>, owner': map<nat, (nat, nat)>,
                          i: nat, off: nat, chunk: seq<int>, data: seq<int>)
    requires WriteRound(fs, g, h, nmeta, owner, owner', i, off, chunk) && Stores(fs, i, data) && off <= |data|
    ensures |h.inodes| == |fs.inodes| && Stores(h, i, Splice(data, off, chunk))
  {
    var r := Splice(data, off, chunk);
    var bn, c := off / BSIZE, Blocks(|data|);
    BlocksOfWrite(|data|, off, |chunk|);
    ExtendedMapped(fs, g, i, bn, Named(g, i, SlotOf(bn)), c);
    WriteRoundMaps(fs, g, h, nmeta, owner, owner', i, off, chunk, i, Blocks(|r|));
    forall x | 0 <= x < |r|
      ensures ByteAt(h, i, x) == r[x]
    {
      if !(off <= x < off + |chunk|) { MappedBlock(fs, i, c, x); }
      WriteRoundByte(fs, g, h, nmeta, owner, owner', i, off, chunk, i, x);
    }
  }

  // ... and leaves every other file alone.
  lemma WriteRoundSpares(fs: Fs, g: Fs, h: Fs, nmeta: nat, owner: map<nat, (nat, nat)>, owner': map<nat, (nat, nat)>,
                         i: nat, off: nat, chunk: seq<int>, j: nat, data: seq<int>)
    requires WriteRound(fs, g, h, nmeta, owner, owner', i, off, chunk) && j < |fs.inodes| && j != i
    requires Stores(fs, j, data)
    ensures |h.inodes| == |fs.inodes| && Stores(h, j, data)
  {
    WriteRoundMaps(fs, g, h, nmeta, owner, owner', i, off, chunk, j, Blocks(|data|));
    forall x | 0 <= x < |data|
      ensures ByteAt(h, j, x) == data[x]
    {
      MappedBlock(fs, j, Blocks(|data|), x);
      WriteRoundByte(fs, g, h, nmeta, owner, owner', i, off, chunk, j, x);
    }
  }

  // ---------------------------------------------------------------- the size of a file

  function Resize(fs: Fs, i: nat, n: nat): Fs
    requires i < |fs.inodes|
  {
    fs.(inodes := fs.inodes[i := fs.inodes[i].(size := n)])
  }

  lemma ResizeNames(fs: Fs, i: nat, n: nat, j: nat, m: nat)
    requires i < |fs.inodes| && j < |fs.inodes| && m < NSLOTS
    ensures Named(Resize(fs, i, n), j, m) == Named(fs, j, m)
  {
  }

  lemma ResizeKeepsOwned(fs: Fs, nmeta: nat, owner: map<nat, (nat, nat)>, i: nat, n: nat)
    requires Owned(fs, nmeta, owner) && i < |fs.inodes|
    ensures Owned(Resize(fs, i, n), nmeta, owner)
  {
    var g := Resize(fs, i, n);
    forall j, m | 0 <= j < |fs.inodes| && 0 <= m < NSLOTS
      ensures Named(g, j, m) == Named(fs, j, m)
    {
      ResizeNames(fs, i, n, j, m);
    }
    SameNamesOwned(fs, g, nmeta, owner);
  }

  lemma ResizeKeepsStored(fs: Fs, i: nat, n: nat, j: nat, data: seq<int>)
    requires i < |fs.inodes| && j < |fs.inodes| && Stores(fs, j, data)
    ensures Stores(Resize(fs, i, n), j, data)
  {
    var g := Resize(fs, i, n);
    forall m | 0 <= m < NSLOTS
      ensures Named(g, j, m) == Named(fs, j, m)
    {
      ResizeNames(fs, i, n, j, m);
    }
    forall x | 0 <= x < |data|
      ensures ByteAt(g, j, x) == data[x]
    {
      assert ByteAt(fs, j, x) == data[x];
    }
  }
}
