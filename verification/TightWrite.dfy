/** A file system in which one chunk of `filewrite` logs all of its MAXOPBLOCKS blocks.

The disk has 24577 blocks.  All data blocks are in use except four, one under each of the four
bitmap blocks.  Inode 0 has ten blocks, the others fill the space between the free blocks.
*/
module TightWrite {
  import opened Common
  import opened BlockMap
  import opened FileBytes
  import opened Accounting
  import opened FileSteps
  import opened FileSystem

  const SIZE: nat := 24577
  const INODES: nat := 63
  const NMETA: nat := 8181
  const BMAPSTART: nat := 8177
  const INODESTART: nat := 8170

  predicate IsFree(b: nat) {
    b == 8191 || b == 16383 || b == 24575 || b == 24576
  }

  /** The first block of inode `j`, and the first block behind those that it may use. */
  function Base(j: nat): nat {
    if j == 0 then NMETA else if j <= 31 then 8192 + NSLOTS * (j - 1) else 16384 + NSLOTS * (j - 32)
  }

  function Limit(j: nat): nat {
    if j == 0 then 8191 else if j <= 31 then 16383 else 24575
  }

  /** Slot `k` of inode `j` names the block `k` places behind its first, if there is one. */
  function NameOf(j: nat, k: nat): nat {
    if Base(j) + k < Limit(j) then Base(j) + k else 0
  }

  function OwnerOf(b: nat): (nat, nat) {
    if b < 8191 then (0, if b < NMETA then 0 else b - NMETA)
    else if b < 16383 then (1 + if b < 8192 then 0 else (b - 8192) / NSLOTS,
                            if b < 8192 then 0 else (b - 8192) % NSLOTS)
    else (32 + if b < 16384 then 0 else (b - 16384) / NSLOTS, if b < 16384 then 0 else (b - 16384) % NSLOTS)
  }

  /** The number of blocks of file `j`. */
  function Count(j: nat): nat {
    if j == 0 then 10 else if j == 31 || j == 62 then 120 else MAXFILE
  }

  function Length(j: nat): nat {
    if j == 0 then 9 * BSIZE + 1 else Count(j) * BSIZE
  }

  function Entries(b: nat): (w: seq<nat>)
    ensures |w| == NINDIRECT
  {
    if NMETA <= b && !IsFree(b) && OwnerOf(b).1 == NDIRECT then
      seq<nat>(NINDIRECT, e requires 0 <= e => NameOf(OwnerOf(b).0, NDIRECT + 1 + e))
    else ZeroWords(NINDIRECT)
  }

  function TightInode(j: nat): (x: Inode)
    ensures |x.addrs| == NDIRECT + 1 && forall k | 0 <= k <= NDIRECT :: x.addrs[k] == NameOf(j, k)
  {
    Inode(Length(j), seq(NDIRECT + 1, k requires 0 <= k => NameOf(j, k)))
  }

  function Bitmap(): (u: seq<bool>)
    ensures |u| == SIZE && forall b: nat | b < SIZE :: u[b] <==> !IsFree(b)
  {
    seq(SIZE, b requires 0 <= b => !IsFree(b))
  }

  function Image(): (fs: Fs)
    ensures fs.used == Bitmap() && |fs.bytes| == |fs.words| == SIZE && |fs.inodes| == INODES
    ensures forall b | 0 <= b < SIZE :: fs.bytes[b] == Zeros(BSIZE) && fs.words[b] == Entries(b)
    ensures forall j | 0 <= j < INODES :: fs.inodes[j] == TightInode(j)
  {
    Fs(Bitmap(), seq(SIZE, _ => Zeros(BSIZE)), seq(SIZE, b requires 0 <= b => Entries(b)),
       seq(INODES, j requires 0 <= j => TightInode(j)))
  }

  ghost function Owners(): map<nat, (nat, nat)> {
    map b: nat | NMETA <= b < SIZE && !IsFree(b) :: OwnerOf(b)
  }

  ghost function Files(): (files: seq<seq<int>>)
    ensures |files| == INODES && forall j | 0 <= j < INODES :: files[j] == Zeros(Length(j))
  {
    seq(INODES, j requires 0 <= j => Zeros(Length(j)))
  }

  // ---------------------------------------------------------------- the image is consistent

  lemma DivMod(q: nat, k: nat)
    requires k < NSLOTS
    ensures (NSLOTS * q + k) / NSLOTS == q && (NSLOTS * q + k) % NSLOTS == k
  {
  }

  lemma OwnerOfName(j: nat, k: nat)
    requires j < INODES && k < NSLOTS && NameOf(j, k) != 0
    ensures var b := NameOf(j, k); NMETA <= b < SIZE && !IsFree(b) && OwnerOf(b) == (j, k)
  {
    if 1 <= j <= 31 { DivMod(j - 1, k); } else if j > 31 { DivMod(j - 32, k); }
  }

  lemma NameOfOwner(b: nat)
    requires NMETA <= b < SIZE && !IsFree(b)
    ensures var s := OwnerOf(b); s.0 < INODES && s.1 < NSLOTS && NameOf(s.0, s.1) == b
  {
  }

  lemma NamesAre(j: nat, k: nat)
    requires j < INODES && k < NSLOTS
    ensures Named(Image(), j, k) == NameOf(j, k)
  {
    var fs := Image();
    assert fs.inodes[j] == TightInode(j);
    if k > NDIRECT {
      var x := NameOf(j, NDIRECT);
      if x != 0 {
        OwnerOfName(j, NDIRECT);
        assert fs.words[x] == Entries(x);
      }
    }
  }

  lemma ImageOwned()
    ensures Owned(Image(), NMETA, Owners())
  {
    var fs, owner := Image(), Owners();
    forall b | b in owner ensures BlockOk(fs, NMETA, owner, b) {
      NameOfOwner(b);
      NamesAre(OwnerOf(b).0, OwnerOf(b).1);
    }
    forall j, k | 0 <= j < |fs.inodes| && 0 <= k < NSLOTS ensures SlotOk(fs, owner, j, k) {
      NamesAre(j, k);
      if NameOf(j, k) != 0 { OwnerOfName(j, k); }
    }
  }

  lemma ImageMapped(j: nat)
    requires j < INODES
    ensures Mapped(Image(), j, Count(j)) && Blocks(Length(j)) == Count(j)
  {
    forall bn | 0 <= bn < MAXFILE
      ensures Named(Image(), j, SlotOf(bn)) != 0 <==> bn < Count(j)
    {
      NamesAre(j, SlotOf(bn));
    }
    NamesAre(j, NDIRECT);
  }

  lemma ImageFile(j: nat)
    requires j < INODES
    ensures IsFile(Image(), j, Zeros(Length(j)))
  {
    ImageMapped(j);
    assert Image().inodes[j] == TightInode(j);
    forall x | 0 <= x < Length(j) ensures ByteAt(Image(), j, x) == 0 {
      NamesAre(j, SlotOf(x / BSIZE));
    }
  }

  lemma ImageConsistent()
    ensures Owned(Image(), NMETA, Owners()) && AllFiles(Image(), Files())
    ensures LaidOut(NMETA, INODESTART, BMAPSTART, INODES, SIZE)
  {
    ImageOwned();
    forall j | 0 <= j < INODES ensures IsFile(Image(), j, Files()[j]) { ImageFile(j); }
  }

  // ---------------------------------------------------------------- the four free blocks

  lemma FourTaken(u0: seq<bool>, u1: seq<bool>, u2: seq<bool>, u3: seq<bool>, u4: seq<bool>)
    requires u0 == Bitmap() && u1 == u0[8191 := true] && u2 == u1[16383 := true]
    requires u3 == u2[24575 := true] && u4 == u3[24576 := true]
    ensures Took(u0, u4, 4)
  {
    TookOne(u0, 8191);
    TookOne(u1, 16383);
    TookOne(u2, 24575);
    TookOne(u3, 24576);
    TookMore(u0, u1, u2, 1, 1);
    TookMore(u0, u2, u3, 2, 1);
    TookMore(u0, u3, u4, 3, 1);
  }

  lemma FourMaps(start: nat, u0: seq<bool>, u1: seq<bool>, u2: seq<bool>, u3: seq<bool>, u4: seq<bool>, n: nat)
    requires |u0| == n == SIZE && !u0[8191] && !u0[16383] && !u0[24575] && !u0[24576]
    requires u1 == u0[8191 := true] && u2 == u1[16383 := true] && u3 == u2[24575 := true] && u4 == u3[24576 := true]
    ensures Maps(start, u0, u4) == {start, start + 1, start + 2, start + 3}
  {
    MapsOne(start, u0, 8191, n);
    MapsOne(start, u1, 16383, n);
    MapsOne(start, u2, 24575, n);
    MapsOne(start, u3, 24576, n);
    MapsMore(start, u0, u1, u2, n);
    MapsMore(start, u0, u2, u3, n);
    MapsMore(start, u0, u3, u4, n);
  }

  lemma FourFree(u: seq<bool>, start: nat)
    requires u == Bitmap()
    ensures SpreadFree(start, u) && FreeCount(u) >= 4
  {
    var u1 := u[8191 := true];
    var u2 := u1[16383 := true];
    var u3 := u2[24575 := true];
    var u4 := u3[24576 := true];
    FourTaken(u, u1, u2, u3, u4);
    TookLeft(u, u4, 4);
    FourMaps(start, u, u1, u2, u3, u4, |u|);
  }

  lemma IsTight(len: nat, off: nat, n: nat)
    requires len == off == 9 * BSIZE + 1 && n == CHUNK
    ensures Tight(len, off, n) && NeededBy(len, off, n) == 4 && off + n <= MAXFILE * BSIZE
  {
  }

  // A chunk of three blocks, written into the last block of the file from its second byte on, logs ten blocks.
  method WriteTight() returns (ghost op: set<nat>)
    ensures |op| == MAXOPBLOCKS
  {
    var image, off, chunk := Image(), Length(0), Zeros(CHUNK);
    ImageConsistent();
    FourFree(image.used, BMAPSTART);
    IsTight(|Files()[0]|, off, |chunk|);
    var fs := new FileSystem(image, NMETA, INODESTART, BMAPSTART, Owners(), Files());
    var r, ok;
    r, ok, op := fs.WriteChunk(0, off, chunk);
  }
}
