/** The block allocator, the block map and the file operations of kernel/fs.c on mutable state.

The state is what the buffer cache shows inside a transaction.  `dinodes` are the inodes on
disk, `inodes` the cached ones.  `logged` collects the numbers of the blocks passed to
`log_write` since the current operation began.  Running out of blocks, where the source
panics, is a result of the methods concerned.
*/
module FileSystem {
  import opened Common
  import opened BlockMap
  import opened FileBytes
  import opened Truncate
  import opened Accounting
  import opened FileSteps

  class FileSystem {
    const nmeta: nat
    const inodestart: nat
    const bmapstart: nat
    var used: seq<bool>
    var bytes: seq<seq<int>>
    var words: seq<seq<nat>>
    var inodes: seq<Inode>
    var dinodes: seq<Inode>
    ghost var owner: map<nat, (nat, nat)>
    ghost var logged: set<nat>
    ghost var files: seq<seq<int>>     // the byte string of every inode

    ghost function Abs(): Fs
      reads this
    {
      Fs(used, bytes, words, inodes)
    }

    ghost predicate Valid()
      reads this
    {
      Owned(Abs(), nmeta, owner) && |dinodes| == |inodes|
    }

    /** Between operations every inode stores its byte string, and the disk inodes equal the cached ones. */
    ghost predicate Consistent()
      reads this
    {
      && Valid() && dinodes == inodes && AllFiles(Abs(), files)
      && LaidOut(nmeta, inodestart, bmapstart, |inodes|, |used|)
    }

    /** A disk with a consistent file system, just mounted. */
    constructor (fs: Fs, nmeta: nat, inodestart: nat, bmapstart: nat, ghost owner: map<nat, (nat, nat)>,
                 ghost files: seq<seq<int>>)
      requires Owned(fs, nmeta, owner) && AllFiles(fs, files)
      requires LaidOut(nmeta, inodestart, bmapstart, |fs.inodes|, |fs.used|)
      ensures Consistent() && Abs() == fs && this.files == files && this.owner == owner && this.bmapstart == bmapstart
    {
      this.nmeta, this.inodestart, this.bmapstart := nmeta, inodestart, bmapstart;
      used, bytes, words, inodes, dinodes := fs.used, fs.bytes, fs.words, fs.inodes, fs.inodes;
      this.owner, this.files, logged := owner, files, {};
    }

    /** Every inode except `i` stores its byte string. */
    ghost predicate OthersStored(i: nat)
      reads this
    {
      AllOthers(Abs(), files, i)
    }

    /** The scan of `balloc`: the lowest block whose bit is clear. */
    method FindClear() returns (r: Option<nat>)
      ensures r.Some? ==> r.value < |used| && !used[r.value] && forall x :: 0 <= x < r.value ==> used[x]
      ensures r.None? ==> forall x :: 0 <= x < |used| ==> used[x]
    {
      var b := 0;
      while b < |used|
        invariant 0 <= b
        invariant forall x :: 0 <= x < b && x < |used| ==> used[x]
      {
        var bi := 0;
        while bi < BPB && b + bi < |used|
          invariant 0 <= bi <= BPB
          invariant forall x :: 0 <= x < b + bi && x < |used| ==> used[x]
        {
          if !used[b + bi] {
            return Some(b + bi);
          }
          bi := bi + 1;
        }
        b := b + BPB;
      }
      return None;
    }

    /** `balloc`: marks the lowest free block and clears it. */
    method Balloc() returns (r: Option<nat>)
      requires |bytes| == |words| == |used|
      modifies this`used, this`bytes, this`words, this`logged
      ensures r.Some? ==> r.value < |old(used)| && !old(used)[r.value] && Abs() == Alloc(old(Abs()), r.value)
      ensures r.Some? ==> r.value < |bytes| && |bytes[r.value]| == BSIZE && forall x | x in bytes[r.value] :: x == 0
      ensures r.Some? ==> logged == old(logged) + {BitmapBlock(bmapstart, r.value), r.value}
      ensures r.Some? ==> forall x :: 0 <= x < r.value < |old(used)| ==> old(used)[x]
      ensures r.None? ==> Abs() == old(Abs()) && logged == old(logged) && forall x :: 0 <= x < |used| ==> used[x]
    {
      r := FindClear();
      if r.None? {
        return;
      }
      var b := r.value;
      used := used[b := true];
      bytes := bytes[b := Zeros(BSIZE)];
      words := words[b := ZeroWords(NINDIRECT)];
      logged := logged + {BitmapBlock(bmapstart, b), b};
    }

    /** `bfree`; `ok` is false where the source panics over a block that is already free. */
    method Bfree(b: nat) returns (ok: bool)
      requires b < |used|
      modifies this`used, this`logged
      ensures ok == old(used)[b]
      ensures Abs() == if ok then Free(old(Abs()), b) else old(Abs())
      ensures logged == if ok then old(logged) + {BitmapBlock(bmapstart, b)} else old(logged)
    {
      if !used[b] {
        return false;
      }
      used := used[b := false];
      logged := logged + {BitmapBlock(bmapstart, b)};
      return true;
    }

    /** Allocates a block for an empty slot and stores its number there, as `bmap` does in three places. */
    method MapSlot(i: nat, k: nat) returns (r: Option<nat>)
      requires Valid() && i < |inodes| && k < NSLOTS && Named(Abs(), i, k) == 0
      requires k > NDIRECT ==> Named(Abs(), i, NDIRECT) != 0
      modifies this`used, this`bytes, this`words, this`inodes, this`logged, this`owner
      ensures r.None? ==> Abs() == old(Abs()) && FreeCount(used) == 0
      ensures r.Some? ==> Valid() && Mapping(old(Abs()), Abs(), i, k, r.value)
      ensures r.Some? ==> Took(old(used), used, 1)
      ensures r.Some? ==> logged == old(logged) + {BitmapBlock(bmapstart, r.value), r.value} + Touched(old(Abs()), i, k)
      ensures r.Some? ==> Covered(old(Abs()), Abs(), bmapstart, logged)
    {
      ghost var fs := Abs();
      IndirectInRange(fs, nmeta, owner, i);
      r := Balloc();
      if r.None? {
        NoneFree(used, |used|);
        return;
      }
      var b := r.value;
      TookOne(fs.used, b);
      SlotMapped(fs, nmeta, owner, i, k, b);
      if k <= NDIRECT {
        inodes := inodes[i := inodes[i].(addrs := inodes[i].addrs[k := b])];
      } else {
        var x := inodes[i].addrs[NDIRECT];
        var w: seq<nat> := words[x];
        words := words[x := w[k - NDIRECT - 1 := b]];
        logged := logged + {x};
      }
      assert Abs() == SetSlot(Alloc(fs, b), i, k, b);
      SlotCovered(fs, i, k, b, bmapstart, logged);
      owner := owner[b := (i, k)];
    }

    /** The block number that the inode or its indirect block holds for block `bn`. */
    method Lookup(i: nat, bn: nat) returns (addr: nat)
      requires Valid() && i < |inodes| && bn < MAXFILE && (bn >= NDIRECT ==> Named(Abs(), i, NDIRECT) != 0)
      ensures addr == Named(Abs(), i, SlotOf(bn))
    {
      IndirectInRange(Abs(), nmeta, owner, i);
      if bn < NDIRECT {
        addr := inodes[i].addrs[bn];
      } else {
        addr := words[inodes[i].addrs[NDIRECT]][bn - NDIRECT];
      }
    }

    /** The part of `bmap` for a slot whose indirect block, if it has one, exists. */
    method MapBlock(i: nat, bn: nat) returns (r: Option<nat>)
      requires Valid() && i < |inodes| && bn < MAXFILE && (bn >= NDIRECT ==> Named(Abs(), i, NDIRECT) != 0)
      modifies this`used, this`bytes, this`words, this`inodes, this`logged, this`owner
      ensures r.None? ==> FreeCount(old(used)) == 0 && Named(old(Abs()), i, SlotOf(bn)) == 0
      ensures r.Some? ==> Valid() && Extended(old(Abs()), Abs(), i, bn, r.value)
      ensures r.Some? && Named(old(Abs()), i, SlotOf(bn)) != 0 ==>
        Abs() == old(Abs()) && logged == old(logged) && owner == old(owner)
      ensures r.Some? ==> MapLogged(old(Abs()), Abs(), bmapstart, old(logged), logged, i, bn)
      ensures r.Some? ==> Covered(old(Abs()), Abs(), bmapstart, logged)
    {
      ghost var fs, own, log0 := Abs(), owner, logged;
      var addr := Lookup(i, bn);
      if addr != 0 {
        MappedExtends(fs, nmeta, owner, i, bn);
        NothingMapped(fs, bmapstart, logged, i, bn);
        CoveredSame(fs, bmapstart, logged);
        return Some(addr);
      }
      r := MapSlot(i, SlotOf(bn));
      if r.Some? {
        MappingExtends(fs, Abs(), nmeta, own, i, bn, r.value);
        BlockMapped(fs, Abs(), bmapstart, log0, logged, i, bn, r.value);
      }
    }

    /** The part of `bmap` for the first entry of a new indirect block. */
    method MapIndirect(i: nat, bn: nat) returns (r: Option<nat>)
      requires Valid() && i < |inodes| && NDIRECT <= bn < MAXFILE && Named(Abs(), i, NDIRECT) == 0
      modifies this`used, this`bytes, this`words, this`inodes, this`logged, this`owner
      ensures r.None? ==> FreeCount(old(used)) < 2
      ensures Missing(old(Abs()), i, bn) == 2
      ensures r.Some? ==> Valid() && Extended(old(Abs()), Abs(), i, bn, r.value)
      ensures r.Some? ==> MapLogged(old(Abs()), Abs(), bmapstart, old(logged), logged, i, bn)
      ensures r.Some? ==> Covered(old(Abs()), Abs(), bmapstart, logged)
    {
      ghost var fs, log0 := Abs(), logged;
      var x := MapSlot(i, NDIRECT);
      if x.None? {
        return None;
      }
      ghost var f1, log1 := Abs(), logged;
      TookLeft(fs.used, f1.used, 1);
      r := MapBlock(i, bn);
      if r.Some? {
        ExtendsAfterIndirect(fs, f1, Abs(), i, bn, x.value, r.value);
        CoveredMore(fs, f1, Abs(), bmapstart, log1, logged);
        IndirectMapped(fs, f1, Abs(), bmapstart, log0, log1, logged, i, bn, x.value);
      }
    }

    /** `bmap`: `None` where the source panics, over a number out of range or for want of blocks. */
    method Bmap(i: nat, bn: nat) returns (r: Option<nat>)
      requires Valid() && i < |inodes|
      modifies this`used, this`bytes, this`words, this`inodes, this`logged, this`owner
      ensures r.None? && bn < MAXFILE ==> FreeCount(old(used)) < Missing(old(Abs()), i, bn)
      ensures r.Some? ==> bn < MAXFILE && Valid() && Extended(old(Abs()), Abs(), i, bn, r.value)
      ensures r.Some? && Named(old(Abs()), i, SlotOf(bn)) != 0 ==>
        Abs() == old(Abs()) && logged == old(logged) && owner == old(owner)
      ensures r.Some? ==> MapLogged(old(Abs()), Abs(), bmapstart, old(logged), logged, i, bn)
      ensures r.Some? ==> Covered(old(Abs()), Abs(), bmapstart, logged)
    {
      if bn >= MAXFILE {
        return None;
      }
      IndirectInRange(Abs(), nmeta, owner, i);
      if bn >= NDIRECT && inodes[i].addrs[NDIRECT] == 0 {
        r := MapIndirect(i, bn);
      } else {
        r := MapBlock(i, bn);
      }
    }

    /** One round of `readi`: the bytes of one block, which is already mapped. */
    method ReadRound(i: nat, off: nat, m: nat) returns (chunk: seq<int>)
      requires Consistent() && i < |inodes| && m >= 1 && off % BSIZE + m <= BSIZE && off + m <= |files[i]|
      modifies this`used, this`bytes, this`words, this`inodes, this`logged, this`owner
      ensures Abs() == old(Abs()) && logged == old(logged) && owner == old(owner)
      ensures chunk == files[i][off..off + m]
    {
      ghost var fs := Abs();
      assert IsFile(fs, i, files[i]);
      MappedBlock(fs, i, Blocks(|files[i]|), off);
      NamedIsUsed(fs, nmeta, owner, i, SlotOf(off / BSIZE));
      var b := Bmap(i, off / BSIZE);
      chunk := bytes[b.value][off % BSIZE..off % BSIZE + m];
      SliceOfFile(fs, i, files[i], off, m);
    }

    /** The loop of `readi`. */
    method ReadRounds(i: nat, off: nat, len: nat) returns (dst: seq<int>)
      requires Consistent() && i < |inodes| && off + len <= |files[i]|
      modifies this`used, this`bytes, this`words, this`inodes, this`logged, this`owner
      ensures Abs() == old(Abs()) && logged == old(logged) && owner == old(owner)
      ensures dst == files[i][off..off + len]
    {
      var tot := 0;
      dst := [];
      while tot < len
        invariant 0 <= tot <= len
        invariant Abs() == old(Abs()) && logged == old(logged) && owner == old(owner)
        invariant dst == files[i][off..off + tot]
      {
        var end := RoundEnd(off, tot, len);
        var chunk := ReadRound(i, off + tot, end - tot);
        JoinSlices(files[i], off, off + tot, off + end);
        dst := dst + chunk;
        tot := end;
      }
    }

    /** `readi`: the slice of the file, cut off at its end; -1 if it starts behind the end or wraps around. */
    method Readi(i: nat, off: nat, n: nat) returns (r: int, dst: seq<int>)
      requires Consistent() && i < |inodes| && off < UINT_LIMIT && n < UINT_LIMIT
      modifies this`used, this`bytes, this`words, this`inodes, this`logged, this`owner
      ensures Abs() == old(Abs()) && logged == old(logged) && owner == old(owner)
      ensures r == -1 <==> off > |files[i]| || off + n >= UINT_LIMIT
      ensures r != -1 ==> r == (if off + n > |files[i]| then |files[i]| - off else n) && dst == files[i][off..off + r]
    {
      assert IsFile(Abs(), i, files[i]);
      if off > inodes[i].size || UintAdd(off, n) < off {
        return -1, [];
      }
      var len := if UintAdd(off, n) > inodes[i].size then inodes[i].size - off else n;
      dst := ReadRounds(i, off, len);
      r := len;
    }

    /** Copies `chunk` into block `b` and logs the block. */
    method PokeBlock(b: nat, o: nat, chunk: seq<int>)
      requires b < |bytes| && o + |chunk| <= |bytes[b]|
      modifies this`bytes, this`logged
      ensures Abs() == Poke(old(Abs()), b, o, chunk) && logged == old(logged) + {b}
    {
      bytes := bytes[b := bytes[b][..o] + chunk + bytes[b][o + |chunk|..]];
      logged := logged + {b};
    }

    /** The stores of one round of `writei`: map the block for `off` and copy `chunk` into it. */
    method MapAndPoke(i: nat, off: nat, chunk: seq<int>) returns (ok: bool, ghost g: Fs)
      requires Valid() && i < |inodes|
      requires 1 <= |chunk| <= BSIZE - off % BSIZE && off + |chunk| <= MAXFILE * BSIZE
      modifies this`used, this`bytes, this`words, this`inodes, this`logged, this`owner
      ensures !ok ==> FreeCount(old(used)) < Missing(old(Abs()), i, off / BSIZE)
      ensures ok ==> WriteRound(old(Abs()), g, Abs(), nmeta, old(owner), owner, i, off, chunk)
      ensures ok && Named(old(Abs()), i, SlotOf(off / BSIZE)) != 0 ==> inodes == old(inodes)
      ensures ok ==> RoundLogged(old(Abs()), Abs(), bmapstart, old(logged), logged, i, off / BSIZE)
      ensures ok ==> Covered(old(Abs()), Abs(), bmapstart, logged)
    {
      ghost var fs, own, log0 := Abs(), owner, logged;
      var bn := off / BSIZE;
      var b := Bmap(i, bn);
      if b.None? {
        return false, fs;
      }
      ghost var log1 := logged;
      g, ok := Abs(), true;
      NamedIsUsed(g, nmeta, owner, i, SlotOf(bn));
      PokeBlock(b.value, off % BSIZE, chunk);
      PokeLogged(fs, g, bmapstart, log0, log1, i, bn, b.value, off % BSIZE, chunk);
      PokeCovered(fs, g, b.value, off % BSIZE, chunk, bmapstart, log1);
    }

    /** One round of `writei` as seen by the files. */
    method StoreRound(i: nat, off: nat, chunk: seq<int>, ghost data: seq<int>) returns (ok: bool)
      requires Valid() && i < |inodes| && Stores(Abs(), i, data) && OthersStored(i) && off <= |data|
      requires 1 <= |chunk| <= BSIZE - off % BSIZE && off + |chunk| <= MAXFILE * BSIZE
      modifies this`used, this`bytes, this`words, this`inodes, this`logged, this`owner
      ensures !ok ==> FreeCount(old(used)) < Missing(old(Abs()), i, off / BSIZE)
      ensures ok ==> Valid() && RoundPost(old(Abs()), Abs(), i, off, chunk, data, files)
      ensures ok ==> RoundLogged(old(Abs()), Abs(), bmapstart, old(logged), logged, i, off / BSIZE)
      ensures ok ==> Covered(old(Abs()), Abs(), bmapstart, logged)
    {
      ghost var fs, own := Abs(), owner;
      ghost var g;
      ok, g := MapAndPoke(i, off, chunk);
      if ok {
        RoundDone(fs, g, Abs(), nmeta, own, owner, i, off, chunk, data, files);
      }
    }

    /** One round of the loop of `writei`, which stores the bytes from `tot` on at offset `at`. */
    method StoreStep(i: nat, off: nat, src: seq<int>, tot: nat, end: nat, at: nat, ghost fs: Fs) returns (ok: bool)
      requires Valid() && Progress(fs, Abs(), files, i, off, src, tot)
      requires tot < |src| && end == RoundEnd(off, tot, |src|) && at == off + tot
      modifies this`used, this`bytes, this`words, this`inodes, this`logged, this`owner
      ensures !ok ==> FreeCount(old(used)) < Missing(old(Abs()), i, at / BSIZE)
      ensures ok ==> Valid() && Progress(fs, Abs(), files, i, off, src, end) && KeepsNames(old(Abs()), Abs(), i)
      ensures ok ==> RoundLogged(old(Abs()), Abs(), bmapstart, old(logged), logged, i, at / BSIZE)
      ensures ok ==> Covered(old(Abs()), Abs(), bmapstart, logged)
    {
      ghost var f1, data := Abs(), Splice(files[i], off, src[..tot]);
      ok := StoreRound(i, at, src[tot..end], data);
      if ok {
        StepDone(fs, f1, Abs(), files, i, off, src, tot, end, at, data);
      }
    }

    /** The same with the log: block `bn` of the file, which had `c` blocks in `fs`. */
    method WriteStep(i: nat, off: nat, src: seq<int>, tot: nat, end: nat, ghost fs: Fs, ghost log0: set<nat>,
                     ghost a: nat, ghost bn: nat, ghost next: nat, ghost c: nat) returns (ok: bool)
      requires Valid() && Progress(fs, Abs(), files, i, off, src, tot) && tot < |src|
      requires end == RoundEnd(off, tot, |src|)
      requires bn == (off + tot) / BSIZE < MAXFILE && next == bn + 1 && a <= bn
      requires Mapped(Abs(), i, Max(c, bn)) && Accounted(fs, Abs(), bmapstart, log0, logged, i, a, bn, c)
      requires Covered(fs, Abs(), bmapstart, logged)
      modifies this`used, this`bytes, this`words, this`inodes, this`logged, this`owner
      ensures !ok ==> FreeCount(fs.used) < Allocs(c, Max(c, next))
      ensures ok ==> Valid() && Progress(fs, Abs(), files, i, off, src, end)
      ensures ok ==>
        Accounted(fs, Abs(), bmapstart, log0, logged, i, a, next, c) && Covered(fs, Abs(), bmapstart, logged)
    {
      ghost var f1, log1 := Abs(), logged;
      ok := StoreStep(i, off, src, tot, end, off + tot, fs);
      if ok {
        AccountMore(fs, f1, Abs(), bmapstart, log0, log1, logged, i, a, bn, c, next);
        CoveredMore(fs, f1, Abs(), bmapstart, log1, logged);
      } else {
        AccountFails(fs, f1, i, bn, c, next);
      }
    }

    /** The same in bytes. */
    method WriteNext(i: nat, off: nat, src: seq<int>, tot: nat, end: nat, ghost fs: Fs, ghost log0: set<nat>,
                     ghost len: nat)
      returns (ok: bool)
      requires Valid() && Progress(fs, Abs(), files, i, off, src, tot) && tot < |src|
      requires end == RoundEnd(off, tot, |src|)
      requires len == |files[i]| && WriteAccounted(fs, Abs(), bmapstart, log0, logged, i, off, tot, len)
      requires Covered(fs, Abs(), bmapstart, logged)
      modifies this`used, this`bytes, this`words, this`inodes, this`logged, this`owner
      ensures !ok ==> FreeCount(fs.used) < NeededBy(len, off, |src|)
      ensures ok ==> Valid() && Progress(fs, Abs(), files, i, off, src, end)
      ensures ok ==>
        WriteAccounted(fs, Abs(), bmapstart, log0, logged, i, off, end, len) && Covered(fs, Abs(), bmapstart, logged)
    {
      ghost var c, bn, next := Blocks(len), EndBlock(off, tot), EndBlock(off, end);
      StepBlocks(fs, Abs(), files, i, off, src, tot, end, len, c, bn, next);
      ok := WriteStep(i, off, src, tot, end, fs, log0, off / BSIZE, bn, next, c);
    }

    /** The loop of `writei`. */
    method WriteRounds(i: nat, off: nat, src: seq<int>) returns (ok: bool)
      requires Valid() && i < |inodes| && OthersStored(i) && Stores(Abs(), i, files[i])
      requires off <= |files[i]| && off + |src| <= MAXFILE * BSIZE
      modifies this`used, this`bytes, this`words, this`inodes, this`logged, this`owner
      ensures !ok ==> FreeCount(old(used)) < NeededBy(|files[i]|, off, |src|)
      ensures ok ==> Valid() && Progress(old(Abs()), Abs(), files, i, off, src, |src|)
      ensures ok ==> WriteAccounted(old(Abs()), Abs(), bmapstart, old(logged), logged, i, off, |src|, |files[i]|)
      ensures ok ==> Covered(old(Abs()), Abs(), bmapstart, logged)
    {
      ghost var fs, log0, len := Abs(), logged, |files[i]|;
      ProgressStarts(fs, files, i, off, src);
      AccountStarts(fs, bmapstart, log0, i, off, len);
      CoveredSame(fs, bmapstart, log0);
      var tot := 0;
      ok := true;
      while tot < |src|
        invariant tot <= |src| && Valid() && Progress(fs, Abs(), files, i, off, src, tot)
        invariant WriteAccounted(fs, Abs(), bmapstart, log0, logged, i, off, tot, len)
        invariant Covered(fs, Abs(), bmapstart, logged)
      {
        var end := RoundEnd(off, tot, |src|);
        ok := WriteNext(i, off, src, tot, end, fs, log0, len);
        if !ok {
          return;
        }
        tot := end;
      }
    }

    /** The end of `writei`: if the write reached behind the end of the file, set the size and write the inode. */
    method Grow(i: nat, n: nat, end: nat)
      requires i < |inodes| && |dinodes| == |inodes|
      modifies this`inodes, this`dinodes, this`logged
      ensures Abs() == Grown(old(Abs()), i, n, end) && dinodes == DiskGrown(old(dinodes), old(Abs()), i, n, end)
      ensures logged == old(logged) + InodeLogged(old(inodes)[i].size, n, end, InodeBlock(inodestart, i))
    {
      if n > 0 && end > inodes[i].size {
        inodes := inodes[i := inodes[i].(size := end)];
        dinodes := dinodes[i := inodes[i]];
        logged := logged + {InodeBlock(inodestart, i)};
      }
    }

    /** `writei` after its loop, which began in `fs`. */
    method FinishWrite(i: nat, off: nat, src: seq<int>, end: nat, ghost fs: Fs)
      requires Valid() && Progress(fs, Abs(), files, i, off, src, |src|) && AllFiles(fs, files)
      requires dinodes == fs.inodes && end == off + |src| && LaidOut(nmeta, inodestart, bmapstart, |inodes|, |used|)
      modifies this`inodes, this`dinodes, this`logged, this`files
      ensures Consistent() && files == old(files)[i := Splice(old(files)[i], off, src)]
      ensures logged == old(logged) + InodeLogged(|old(files)[i]|, |src|, end, InodeBlock(inodestart, i))
      ensures Abs() == Grown(old(Abs()), i, |src|, end)
    {
      WriteEnds(fs, Abs(), nmeta, owner, files, i, off, src, end);
      Grow(i, |src|, end);
      files := files[i := Splice(files[i], off, src)];
    }

    /** The same with the log: `cost` are the blocks that the whole write logged. */
    method EndWrite(i: nat, off: nat, src: seq<int>, end: nat, ghost fs: Fs, ghost log0: set<nat>, ghost len: nat)
      returns (ghost cost: set<nat>)
      requires Valid() && Progress(fs, Abs(), files, i, off, src, |src|) && AllFiles(fs, files) && len == |files[i]|
      requires dinodes == fs.inodes && end == off + |src| && LaidOut(nmeta, inodestart, bmapstart, |inodes|, |used|)
      requires WriteAccounted(fs, Abs(), bmapstart, log0, logged, i, off, |src|, len)
      requires Covered(fs, Abs(), bmapstart, logged)
      modifies this`inodes, this`dinodes, this`logged, this`files
      ensures Consistent() && files == old(files)[i := Splice(old(files)[i], off, src)]
      ensures logged == log0 + cost && |cost| == WriteCost(len, off, |src|, |Maps(bmapstart, fs.used, used)|)
      ensures DiskCovered(fs, Abs(), inodestart, bmapstart, logged) && OnDisk(cost, inodestart, |used|)
    {
      ghost var inode := InodeLogged(len, |src|, end, InodeBlock(inodestart, i));
      assert IsFile(fs, i, files[i]);
      cost := CostOfWrite(fs, Abs(), nmeta, owner, files, i, inodestart, bmapstart, log0, logged, off, src, len, inode);
      CoveredInodes(fs, Abs(), files, i, off, src, end, inodestart, bmapstart, logged, inode);
      FinishWrite(i, off, src, end, fs);
    }

    /** `writei` once its arguments are checked.  It fails exactly if there are not enough free blocks; `cost` are the
        blocks it logs, and no other block of the disk changes. */
    method WriteAt(i: nat, off: nat, src: seq<int>) returns (ok: bool, ghost cost: set<nat>)
      requires Consistent() && i < |inodes| && off <= |files[i]| && off + |src| <= MAXFILE * BSIZE
      modifies this
      ensures ok <==> NeededBy(|old(files)[i]|, off, |src|) <= FreeCount(old(used))
      ensures ok ==> Consistent() && files == old(files)[i := Splice(old(files)[i], off, src)]
      ensures ok ==> Took(old(used), used, NeededBy(|old(files)[i]|, off, |src|)) && logged == old(logged) + cost
      ensures ok ==> |cost| == WriteCost(|old(files)[i]|, off, |src|, |Maps(bmapstart, old(used), used)|)
      ensures ok ==> DiskCovered(old(Abs()), Abs(), inodestart, bmapstart, logged) && OnDisk(cost, inodestart, |used|)
    {
      ghost var fs, len, log0 := Abs(), |files[i]|, logged;
      assert IsFile(fs, i, files[i]);
      ok := WriteRounds(i, off, src);
      cost := {};
      if ok {
        TookLeft(fs.used, used, NeededBy(len, off, |src|));
        cost := EndWrite(i, off, src, off + |src|, fs, log0, len);
      }
    }

    /** `writei` splices `src` into the file at `off`, or returns -1 and changes nothing; `ok` is false where the source
        panics for want of blocks.  `cost` are the blocks it logs. */
    method Writei(i: nat, off: nat, src: seq<int>) returns (r: int, ok: bool, ghost cost: set<nat>)
      requires Consistent() && i < |inodes| && off < UINT_LIMIT && |src| < UINT_LIMIT
      modifies this
      ensures r == -1 <==> off > |old(files)[i]| || off + |src| >= UINT_LIMIT || off + |src| > MAXFILE * BSIZE
      ensures ok <==> r == -1 || NeededBy(|old(files)[i]|, off, |src|) <= FreeCount(old(used))
      ensures ok ==> Consistent() && logged == old(logged) + cost
      ensures r == -1 ==> Abs() == old(Abs()) && files == old(files) && cost == {}
      ensures ok && r != -1 ==> r == |src| && files == old(files)[i := Splice(old(files)[i], off, src)]
      ensures ok && r != -1 ==> Took(old(used), used, NeededBy(|old(files)[i]|, off, |src|))
      ensures ok && r != -1 ==> |cost| == WriteCost(|old(files)[i]|, off, |src|, |Maps(bmapstart, old(used), used)|)
      ensures ok ==> DiskCovered(old(Abs()), Abs(), inodestart, bmapstart, logged) && OnDisk(cost, inodestart, |used|)
    {
      assert IsFile(Abs(), i, files[i]);
      if off > inodes[i].size || UintAdd(off, |src|) < off || UintAdd(off, |src|) > MAXFILE * BSIZE {
        return -1, true, {};
      }
      ok, cost := WriteAt(i, off, src);
      r := |src|;
    }

    /** One transaction of `filewrite`: it logs at most MAXOPBLOCKS distinct blocks, and so many exactly if the chunk is
        tight and the blocks it allocates lie under four bitmap blocks. */
    method WriteChunk(i: nat, off: nat, chunk: seq<int>) returns (r: int, ok: bool, ghost op: set<nat>)
      requires Consistent() && i < |inodes| && off < UINT_LIMIT && |chunk| <= CHUNK
      modifies this
      ensures r == -1 <==> off > |old(files)[i]| || off + |chunk| > MAXFILE * BSIZE
      ensures ok <==> r == -1 || NeededBy(|old(files)[i]|, off, |chunk|) <= FreeCount(old(used))
      ensures ok ==> Consistent() && logged == op && |op| <= MAXOPBLOCKS
      ensures ok ==> DiskCovered(old(Abs()), Abs(), inodestart, bmapstart, op) && OnDisk(op, inodestart, |used|)
      ensures r == -1 ==> files == old(files) && used == old(used)
      ensures ok && r != -1 ==> r == |chunk| && files == old(files)[i := Splice(old(files)[i], off, chunk)]
      ensures ok && r != -1 ==> Took(old(used), used, NeededBy(|old(files)[i]|, off, |chunk|))
      ensures ok && r != -1 ==>
        (|op| == MAXOPBLOCKS <==> Tight(|old(files)[i]|, off, |chunk|) && SpreadFree(bmapstart, old(used)))
    {
      ghost var len, u := |files[i]|, used;
      logged := {};
      ghost var cost;
      r, ok, cost := Writei(i, off, chunk);
      op := logged;
      assert op == cost || !ok;
      if ok && r != -1 {
        ChunkIsSmall(bmapstart, u, used, len, off, |chunk|);
      }
    }

    /** One round of the loop of `filewrite`: the bytes of `src` from `done` to `next`. */
    method NextChunk(i: nat, off: nat, src: seq<int>, done: nat, next: nat, ghost u: seq<bool>,
                     ghost files0: seq<seq<int>>)
      returns (r: int, ok: bool, ghost op: set<nat>)
      requires Consistent() && i < |inodes| && ChunksDone(u, used, files0, files, i, off, src, done)
      requires done < next <= |src| && next - done <= CHUNK && off + done < UINT_LIMIT
      modifies this
      ensures !ok ==> FreeCount(u) < NeededBy(|files0[i]|, off, |src|)
      ensures ok ==> Consistent() && |inodes| == old(|inodes|) && |op| <= MAXOPBLOCKS
      ensures ok ==> DiskCovered(old(Abs()), Abs(), inodestart, bmapstart, op) && OnDisk(op, inodestart, |used|)
      ensures ok ==> r == -1 || r == next - done
      ensures r == -1 <==> off + done > |old(files)[i]| || off + next > MAXFILE * BSIZE
      ensures ok ==> ChunksDone(u, used, files0, files, i, off, src, if r == -1 then done else next)
    {
      ghost var v, was := used, files;
      r, ok, op := WriteChunk(i, off + done, src[done..next]);
      if !ok {
        ChunkTooMuch(u, v, files0, was, i, off, src, done, next);
      } else if r != -1 {
        ChunkWritten(u, v, used, files0, was, files, i, off, src, done, next);
      }
    }

    ghost function TakeSnap(done: nat): Snap
      reads this
    {
      Snap(Abs(), owner, files, done)
    }

    /** One round of `filewrite`, with the disk after it. */
    method SnapChunk(i: nat, off: nat, src: seq<int>, done: nat, next: nat, ghost u: seq<bool>,
                     ghost files0: seq<seq<int>>, ghost ops: seq<set<nat>>, ghost snaps: seq<Snap>)
      returns (r: int, ok: bool, ghost ops': seq<set<nat>>, ghost snaps': seq<Snap>)
      requires Consistent() && i < |inodes| && ChunksDone(u, used, files0, files, i, off, src, done)
      requires done < next <= |src| && next - done <= CHUNK && off + done < UINT_LIMIT
      requires AtChunk(done, |src|) && AtChunk(next, |src|)
      requires Snaps(snaps, ops, nmeta, inodestart, bmapstart, files0, i, off, src) && snaps[|ops|] == TakeSnap(done)
      modifies this
      ensures !ok ==> FreeCount(u) < NeededBy(|files0[i]|, off, |src|)
      ensures ok ==> Consistent() && |inodes| == old(|inodes|)
      ensures ok ==> r == -1 || r == next - done
      ensures r == -1 <==> off + done > |old(files)[i]| || off + next > MAXFILE * BSIZE
      ensures ok ==> ChunksDone(u, used, files0, files, i, off, src, if r == -1 then done else next)
      ensures Snaps(snaps', ops', nmeta, inodestart, bmapstart, files0, i, off, src) && snaps'[0] == snaps[0]
      ensures ok ==> snaps'[|ops'|] == TakeSnap(if r == -1 then done else next)
    {
      ghost var op;
      r, ok, op := NextChunk(i, off, src, done, next, u, files0);
      ops', snaps' := ops, snaps;
      if ok {
        ghost var t := TakeSnap(if r == -1 then done else next);
        SnapsMore(snaps, ops, nmeta, inodestart, bmapstart, files0, i, off, src, t, op);
        ops', snaps' := ops + [op], snaps + [t];
      }
    }

    /** `filewrite` (kernel/file.c) on an inode: one transaction per chunk, stopping at the first that fails; `ops` are
        the blocks that each of them logged, and `snaps` the disks between them. */
    method FileWrite(i: nat, off0: nat, src: seq<int>)
      returns (ret: int, off: nat, done: nat, ok: bool, ghost ops: seq<set<nat>>, ghost snaps: seq<Snap>)
      requires Consistent() && i < |inodes| && off0 < UINT_LIMIT && |src| < 0x8000_0000
      modifies this
      ensures Snaps(snaps, ops, nmeta, inodestart, bmapstart, old(files), i, off0, src) && snaps[0] == old(TakeSnap(0))
      ensures !ok ==> FreeCount(old(used)) < NeededBy(|old(files)[i]|, off0, |src|)
      ensures ok ==> Consistent() && done <= |src| && off == off0 + done && ret == if done == |src| then |src| else -1
      ensures ok ==>
        ChunksDone(old(used), used, old(files), files, i, off0, src, done) && snaps[|ops|] == TakeSnap(done)
      ensures ok && off0 <= |old(files)[i]| && off0 + |src| <= MAXFILE * BSIZE ==> done == |src|
    {
      ret, done, off, ops, ok := -1, 0, off0, [], true;
      ghost var files0, u := files, used;
      NothingWritten(u, files, i, off, src);
      snaps := [TakeSnap(0)];
      while done < |src|
        invariant ok && done <= |src| && off == off0 + done && off < UINT_LIMIT && AtChunk(done, |src|)
        invariant Consistent() && i < |inodes| && ChunksDone(u, used, files0, files, i, off0, src, done)
        invariant Snaps(snaps, ops, nmeta, inodestart, bmapstart, files0, i, off0, src)
        invariant snaps[0] == old(TakeSnap(0)) && snaps[|ops|] == TakeSnap(done)
      {
        var next := ChunkEnd(done, |src|);
        var r;
        ReachesEnd(files0, files, i, off0, src, done);
        r, ok, ops, snaps := SnapChunk(i, off0, src, done, next, u, files0, ops, snaps);
        if !ok || r < 0 {
          break;
        }
        off := off + r;
        done := next;
      }
      ret := if done == |src| then |src| else -1;
    }

    /** `bfree` of a block named in the inode, and the store that empties its slot. */
    method FreeDirect(i: nat, k: nat) returns (ok: bool)
      requires i < |inodes| && k <= NDIRECT && |inodes[i].addrs| == NDIRECT + 1
      requires inodes[i].addrs[k] < |used| && used[inodes[i].addrs[k]] && |dinodes| == |inodes|
      modifies this`used, this`inodes, this`logged
      ensures ok && Abs() == Free(SetSlot(old(Abs()), i, k, 0), old(inodes)[i].addrs[k]) && |dinodes| == |inodes|
      ensures logged == old(logged) + {BitmapBlock(bmapstart, old(inodes)[i].addrs[k])}
    {
      ok := Bfree(inodes[i].addrs[k]);
      inodes := inodes[i := inodes[i].(addrs := inodes[i].addrs[k := 0])];
    }

    /** Frees the block that a direct slot names. */
    method ClearDirect(i: nat, k: nat, ghost fs: Fs, ghost owner0: map<nat, (nat, nat)>, ghost slots: set<nat>,
                       ghost slots': set<nat>, ghost log0: set<nat>)
      returns (ok: bool)
      requires Cleared(fs, owner0, Abs(), owner, nmeta, i, slots) && k < NDIRECT && k !in slots && slots' == slots + {k}
      requires |dinodes| == |inodes| && FreedLogged(bmapstart, fs.used, used, log0, logged)
      modifies this`used, this`inodes, this`owner, this`logged
      ensures ok && |dinodes| == |inodes| && Cleared(fs, owner0, Abs(), owner, nmeta, i, slots')
      ensures FreedLogged(bmapstart, fs.used, used, log0, logged)
    {
      ghost var v := Abs();
      IndirectInRange(v, nmeta, owner, i);
      ok := true;
      var b := inodes[i].addrs[k];
      if b != 0 {
        ClearedMore(fs, owner0, v, owner, nmeta, i, slots, k, b, slots');
        OneFreed(bmapstart, fs.used, used, log0, logged, b);
        ok := FreeDirect(i, k);
        owner := owner - {b};
      } else {
        ClearedSkip(fs, owner0, v, owner, nmeta, i, slots, {k}, slots');
      }
    }

    /** Frees the block that entry `j` of the indirect block names; the entry itself stays as it is. */
    method ClearEntry(i: nat, j: nat, j': nat, b: nat, ghost v: Fs, ghost x: nat, ghost w: seq<nat>, ghost fs: Fs,
                      ghost owner0: map<nat, (nat, nat)>, ghost slots: set<nat>, ghost log0: set<nat>)
      returns (ok: bool, ghost v': Fs, ghost slots': set<nat>)
      requires EntriesDone(fs, owner0, v, owner, nmeta, i, slots, x, w, j) && j < NINDIRECT && j' == j + 1
      requires Abs() == Stale(v, x, w) && b == w[j] && FreedLogged(bmapstart, fs.used, used, log0, logged)
      modifies this`used, this`owner, this`logged
      ensures ok && EntriesDone(fs, owner0, v', owner, nmeta, i, slots', x, w, j') && Abs() == Stale(v', x, w)
      ensures v'.inodes == v.inodes && FreedLogged(bmapstart, fs.used, used, log0, logged)
    {
      EntryStep(fs, owner0, v, owner, nmeta, i, slots, x, w, j, j');
      ok, v', slots' := true, v, slots + {NDIRECT + j'};
      if b != 0 {
        OneFreed(bmapstart, fs.used, used, log0, logged, b);
        ok := Bfree(b);
        v' := Free(SetSlot(v, i, NDIRECT + j', 0), b);
        owner := owner - {b};
      }
    }

    /** The first loop of `itrunc`. */
    method ClearDirects(i: nat) returns (ok: bool, ghost slots: set<nat>)
      requires Valid() && i < |inodes|
      modifies this`used, this`inodes, this`owner, this`logged
      ensures ok && |dinodes| == |inodes| && SlotsDone(slots, NDIRECT, 0)
      ensures Cleared(old(Abs()), old(owner), Abs(), owner, nmeta, i, slots)
      ensures FreedLogged(bmapstart, old(used), used, old(logged), logged)
    {
      ghost var fs, own, log0 := Abs(), owner, logged;
      ClearedStart(fs, own, nmeta, i);
      NothingFreed(bmapstart, used, logged);
      slots := {};
      ok := true;
      var k := 0;
      while k < NDIRECT
        invariant k <= NDIRECT && ok && |dinodes| == |inodes| && SlotsDone(slots, k, 0)
        invariant Cleared(fs, own, Abs(), owner, nmeta, i, slots)
        invariant FreedLogged(bmapstart, fs.used, used, log0, logged)
      {
        ghost var slots' := slots + {k};
        ok := ClearDirect(i, k, fs, own, slots, slots', log0);
        slots := slots';
        k := k + 1;
      }
    }

    /** The second loop of `itrunc`, over the entries `w` of indirect block `x`. */
    method ClearEntries(i: nat, x: nat, w: seq<nat>, ghost fs: Fs, ghost own: map<nat, (nat, nat)>,
                        ghost slots0: set<nat>, ghost log0: set<nat>)
      returns (ok: bool, ghost v: Fs, ghost slots: set<nat>)
      requires Cleared(fs, own, Abs(), owner, nmeta, i, slots0) && SlotsDone(slots0, NDIRECT, 0)
      requires x == Named(Abs(), i, NDIRECT) && 0 < x < |words| && w == words[x] && |w| == NINDIRECT
      requires FreedLogged(bmapstart, fs.used, used, log0, logged)
      modifies this`used, this`owner, this`logged
      ensures ok && EntriesDone(fs, own, v, owner, nmeta, i, slots, x, w, NINDIRECT) && Abs() == Stale(v, x, w)
      ensures v.inodes == inodes && FreedLogged(bmapstart, fs.used, used, log0, logged)
    {
      slots, v, ok := slots0, Abs(), true;
      EntriesStart(fs, own, v, owner, nmeta, i, slots, x, w);
      var j := 0;
      while j < NINDIRECT
        invariant j <= NINDIRECT && ok && v.inodes == inodes && FreedLogged(bmapstart, fs.used, used, log0, logged)
        invariant EntriesDone(fs, own, v, owner, nmeta, i, slots, x, w, j) && Abs() == Stale(v, x, w)
      {
        var next := j + 1;
        ok, v, slots := ClearEntry(i, j, next, w[j], v, x, w, fs, own, slots, log0);
        j := next;
      }
    }

    method DropIndirect(i: nat, x: nat, ghost v: Fs, ghost w: seq<nat>, ghost fs: Fs, ghost own: map<nat, (nat, nat)>,
                        ghost done: set<nat>, ghost slots: set<nat>, ghost log0: set<nat>) returns (ok: bool)
      requires EntriesDone(fs, own, v, owner, nmeta, i, done, x, w, NINDIRECT) && slots == done + {NDIRECT}
      requires Abs() == Stale(v, x, w) && |dinodes| == |inodes|
      requires FreedLogged(bmapstart, fs.used, used, log0, logged)
      modifies this`used, this`inodes, this`owner, this`logged
      ensures ok && |dinodes| == |inodes| && AllSlots(slots)
      ensures Cleared(fs, own, Abs(), owner, nmeta, i, slots)
      ensures FreedLogged(bmapstart, fs.used, used, log0, logged)
    {
      ClearIndirect(fs, own, v, owner, nmeta, i, done, x, w, slots);
      OneFreed(bmapstart, fs.used, used, log0, logged, x);
      ok := FreeDirect(i, NDIRECT);
      owner := owner - {x};
    }

    /** Frees the entries `w` of the indirect block `x`, then the block itself. */
    method ReleaseIndirect(i: nat, x: nat, w: seq<nat>, ghost fs: Fs, ghost own: map<nat, (nat, nat)>,
                           ghost slots0: set<nat>, ghost log0: set<nat>)
      returns (ok: bool, ghost slots: set<nat>)
      requires Cleared(fs, own, Abs(), owner, nmeta, i, slots0) && SlotsDone(slots0, NDIRECT, 0)
      requires |dinodes| == |inodes| && FreedLogged(bmapstart, fs.used, used, log0, logged)
      requires x == Named(Abs(), i, NDIRECT) && 0 < x < |words| && w == words[x] && |w| == NINDIRECT
      modifies this`used, this`inodes, this`owner, this`logged
      ensures ok && |dinodes| == |inodes| && AllSlots(slots)
      ensures Cleared(fs, own, Abs(), owner, nmeta, i, slots)
      ensures FreedLogged(bmapstart, fs.used, used, log0, logged)
    {
      ghost var v, done;
      ok, v, done := ClearEntries(i, x, w, fs, own, slots0, log0);
      slots := done + {NDIRECT};
      ok := DropIndirect(i, x, v, w, fs, own, done, slots, log0);
    }

    /** Both loops of `itrunc` and the release of the indirect block. */
    method ClearAll(i: nat) returns (ok: bool, ghost slots: set<nat>)
      requires Valid() && i < |inodes|
      modifies this`used, this`inodes, this`owner, this`logged
      ensures ok && |dinodes| == |inodes| && AllSlots(slots)
      ensures Cleared(old(Abs()), old(owner), Abs(), owner, nmeta, i, slots)
      ensures FreedLogged(bmapstart, old(used), used, old(logged), logged)
    {
      ghost var fs, own, log0 := Abs(), owner, logged;
      ok, slots := ClearDirects(i);
      IndirectInRange(Abs(), nmeta, owner, i);
      var x := inodes[i].addrs[NDIRECT];
      if x != 0 {
        ok, slots := ReleaseIndirect(i, x, words[x], fs, own, slots, log0);
      } else {
        NoIndirect(fs, own, Abs(), owner, nmeta, i, slots);
        slots := EverySlot();
      }
    }

    /** `itrunc` frees exactly the blocks of its inode, never one that is already free, and leaves the file empty.  It
        logs exactly the bitmap blocks of these blocks and the inode's block, and no other block of the disk changes. */
    method Itrunc(i: nat) returns (ok: bool)
      requires Consistent() && i < |inodes|
      modifies this
      ensures ok && Consistent() && files == old(files)[i := []]
      ensures FreedInode(old(used), used, old(owner), i)
      ensures logged == old(logged) + InodeMaps(bmapstart, old(owner), i) + {InodeBlock(inodestart, i)}
      ensures DiskCovered(old(Abs()), Abs(), inodestart, bmapstart, logged)
    {
      ghost var fs, own := Abs(), owner;
      ghost var slots;
      ok, slots := ClearAll(i);
      ItruncEnds(fs, own, Abs(), owner, nmeta, i, slots, files);
      MapsOfInode(fs, nmeta, own, i, used, bmapstart);
      inodes := inodes[i := inodes[i].(size := 0)];
      dinodes := dinodes[i := inodes[i]];
      logged := logged + {InodeBlock(inodestart, i)};
      files := files[i := []];
      TruncateCovered(fs, Abs(), own, i, inodestart, bmapstart, logged);
    }
  }
}
