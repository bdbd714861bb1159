/** Which blocks a write allocates and logs, exactly. */
module Accounting {
  import opened Common
  import opened BlockMap
  import opened FileBytes

  /** Bits per bitmap block. */
  const BPB: nat := BSIZE * 8

  function Bit(c: bool): nat {
    if c then 1 else 0
  }

  // ---------------------------------------------------------------- allocated blocks

  predicate InUse(u: seq<bool>, b: nat) {
    b < |u| && u[b]
  }

  /** The number of free blocks below `n`. */
  ghost function FreeBelow(u: seq<bool>, n: nat): nat {
    if n == 0 then 0 else FreeBelow(u, n - 1) + Bit(!InUse(u, n - 1))
  }

  ghost function FreeCount(u: seq<bool>): nat {
    FreeBelow(u, |u|)
  }

  predicate IsNew(u: seq<bool>, v: seq<bool>, b: nat) {
    !InUse(u, b) && InUse(v, b)
  }

  /** The number of blocks below `n` that are in use in `v` and were not in `u`. */
  ghost function NewBelow(u: seq<bool>, v: seq<bool>, n: nat): nat {
    if n == 0 then 0 else NewBelow(u, v, n - 1) + Bit(IsNew(u, v, n - 1))
  }

  ghost predicate Grows(u: seq<bool>, v: seq<bool>) {
    |v| == |u| && forall b {:trigger InUse(u, b)} :: InUse(u, b) ==> InUse(v, b)
  }

  /** From `u` to `v` the `k` lowest free blocks were allocated. */
  ghost predicate Took(u: seq<bool>, v: seq<bool>, k: int) {
    && Grows(u, v) && NewBelow(u, v, |u|) == k
    && forall x: nat, b {:trigger InUse(v, x), IsNew(u, v, b)} :: IsNew(u, v, b) && x < b ==> InUse(v, x)
  }

  lemma {:induction false} NoneNew(u: seq<bool>, n: nat)
    ensures NewBelow(u, u, n) == 0
  {
    if n > 0 { NoneNew(u, n - 1); }
  }

  lemma {:induction false} OneNew(u: seq<bool>, b: nat, n: nat)
    requires b < |u| && !u[b]
    ensures NewBelow(u, u[b := true], n) == Bit(b < n)
  {
    if n > 0 { OneNew(u, b, n - 1); }
  }

  lemma {:induction false} NewMore(u: seq<bool>, v: seq<bool>, w: seq<bool>, n: nat)
    requires Grows(u, v) && Grows(v, w)
    ensures NewBelow(u, w, n) == NewBelow(u, v, n) + NewBelow(v, w, n)
  {
    if n > 0 {
      NewMore(u, v, w, n - 1);
      assert InUse(u, n - 1) ==> InUse(v, n - 1);
      assert InUse(v, n - 1) ==> InUse(w, n - 1);
    }
  }

  lemma {:induction false} NewAndFree(u: seq<bool>, v: seq<bool>, n: nat)
    requires Grows(u, v)
    ensures FreeBelow(u, n) == NewBelow(u, v, n) + FreeBelow(v, n)
  {
    if n > 0 {
      NewAndFree(u, v, n - 1);
      assert InUse(u, n - 1) ==> InUse(v, n - 1);
    }
  }

  lemma TookNone(u: seq<bool>)
    ensures Took(u, u, 0)
  {
    NoneNew(u, |u|);
  }

  lemma TookOne(u: seq<bool>, b: nat)
    requires b < |u| && !u[b] && forall x :: 0 <= x < b ==> u[x]
    ensures Took(u, u[b := true], 1)
  {
    OneNew(u, b, |u|);
  }

  lemma TookMore(u: seq<bool>, v: seq<bool>, w: seq<bool>, j: int, k: int)
    requires Took(u, v, j) && Took(v, w, k)
    ensures Took(u, w, j + k)
  {
    forall b | InUse(u, b) ensures InUse(w, b) { assert InUse(v, b); }
    NewMore(u, v, w, |u|);
    forall x: nat, b | IsNew(u, w, b) && x < b ensures InUse(w, x) {
      if IsNew(u, v, b) { assert InUse(v, x); } else { assert IsNew(v, w, b); }
    }
  }

  // The free blocks are those allocated and those left.
  lemma TookLeft(u: seq<bool>, v: seq<bool>, k: int)
    requires Took(u, v, k)
    ensures FreeCount(u) == k + FreeCount(v)
  {
    NewAndFree(u, v, |u|);
  }

  lemma {:induction false} NoneFree(u: seq<bool>, n: nat)
    requires n <= |u| && forall x :: 0 <= x < |u| ==> u[x]
    ensures FreeBelow(u, n) == 0
  {
    if n > 0 { NoneFree(u, n - 1); }
  }

  lemma {:induction false} FewerNew(u: seq<bool>, v: seq<bool>, w: seq<bool>, n: nat, b: nat)
    requires forall x | IsNew(u, v, x) :: IsNew(u, w, x)
    requires !IsNew(u, v, b) && IsNew(u, w, b)
    ensures NewBelow(u, v, n) + Bit(b < n) <= NewBelow(u, w, n)
  {
    if n > 0 { FewerNew(u, v, w, n - 1, b); }
  }

  lemma TookAgree(u: seq<bool>, v: seq<bool>, w: seq<bool>, k: int, b: nat)
    requires Took(u, v, k) && Took(u, w, k) && InUse(w, b)
    ensures InUse(v, b)
  {
    if !InUse(v, b) {
      assert InUse(u, b) ==> InUse(v, b);
      assert IsNew(u, w, b);
      forall x: nat | IsNew(u, v, x) ensures IsNew(u, w, x) {
        assert x < b;
        assert InUse(w, x);
      }
      FewerNew(u, v, w, |u|, b);
    }
  }

  // Which blocks are allocated depends on their number only.
  lemma TookUnique(u: seq<bool>, v: seq<bool>, w: seq<bool>, k: int)
    requires Took(u, v, k) && Took(u, w, k)
    ensures v == w
  {
    forall b: nat | b < |u| ensures v[b] == w[b] {
      if w[b] { TookAgree(u, v, w, k, b); }
      if v[b] { TookAgree(u, w, v, k, b); }
    }
  }

  // ---------------------------------------------------------------- bitmap blocks

  /** The bitmap block with the bit of block `b`. */
  function BitmapBlock(start: nat, b: nat): nat {
    b / BPB + start
  }

  /** The bitmap blocks of the new blocks below `n`. */
  ghost function MapsBelow(start: nat, u: seq<bool>, v: seq<bool>, n: nat): set<nat> {
    if n == 0 then {}
    else MapsBelow(start, u, v, n - 1) + if IsNew(u, v, n - 1) then {BitmapBlock(start, n - 1)} else {}
  }

  ghost function Maps(start: nat, u: seq<bool>, v: seq<bool>): set<nat> {
    MapsBelow(start, u, v, |u|)
  }

  lemma {:induction false} MapsNone(start: nat, u: seq<bool>, n: nat)
    ensures MapsBelow(start, u, u, n) == {}
  {
    if n > 0 { MapsNone(start, u, n - 1); }
  }

  lemma {:induction false} MapsOne(start: nat, u: seq<bool>, b: nat, n: nat)
    requires b < |u| && !u[b]
    ensures MapsBelow(start, u, u[b := true], n) == if b < n then {BitmapBlock(start, b)} else {}
  {
    if n > 0 { MapsOne(start, u, b, n - 1); }
  }

  lemma {:induction false} MapsMore(start: nat, u: seq<bool>, v: seq<bool>, w: seq<bool>, n: nat)
    requires Grows(u, v) && Grows(v, w)
    ensures MapsBelow(start, u, w, n) == MapsBelow(start, u, v, n) + MapsBelow(start, v, w, n)
  {
    if n > 0 {
      MapsMore(start, u, v, w, n - 1);
      assert InUse(u, n - 1) ==> InUse(v, n - 1);
      assert InUse(v, n - 1) ==> InUse(w, n - 1);
    }
  }

  lemma {:induction false} MapsAre(start: nat, u: seq<bool>, v: seq<bool>, n: nat, x: nat)
    ensures x in MapsBelow(start, u, v, n) <==> exists b: nat | b < n :: IsNew(u, v, b) && x == BitmapBlock(start, b)
  {
    if n > 0 {
      MapsAre(start, u, v, n - 1, x);
      if x in MapsBelow(start, u, v, n - 1) {
        var b: nat :| b < n - 1 && IsNew(u, v, b) && x == BitmapBlock(start, b);
      }
    }
  }

  /** From `u0` to `u` blocks were freed, and their bitmap blocks were logged. */
  ghost predicate FreedLogged(start: nat, u0: seq<bool>, u: seq<bool>, log0: set<nat>, log: set<nat>) {
    Grows(u, u0) && log == log0 + Maps(start, u, u0)
  }

  lemma NothingFreed(start: nat, u: seq<bool>, log: set<nat>)
    ensures FreedLogged(start, u, u, log, log)
  {
    MapsNone(start, u, |u|);
  }

  lemma OneFreed(start: nat, u0: seq<bool>, u: seq<bool>, log0: set<nat>, log: set<nat>, b: nat)
    requires FreedLogged(start, u0, u, log0, log) && b < |u| && u[b]
    ensures FreedLogged(start, u0, u[b := false], log0, log + {BitmapBlock(start, b)})
  {
    var w := u[b := false];
    assert w[b := true] == u;
    forall x | InUse(w, x) ensures InUse(u, x) && InUse(u0, x) { assert InUse(u, x); }
    MapsOne(start, w, b, |w|);
    MapsMore(start, w, u, u0, |w|);
  }

  lemma {:induction false} MapsSize(start: nat, u: seq<bool>, v: seq<bool>, n: nat)
    ensures |MapsBelow(start, u, v, n)| <= NewBelow(u, v, n)
  {
    if n > 0 { MapsSize(start, u, v, n - 1); }
  }

  lemma DivBelow(b: nat, k: nat)
    requires b < k * BPB
    ensures b / BPB < k
  {
  }

  lemma {:induction false} MapsInRange(start: nat, nmeta: nat, u: seq<bool>, v: seq<bool>, n: nat)
    requires start <= nmeta && n <= (nmeta - start) * BPB
    ensures forall x | x in MapsBelow(start, u, v, n) :: start <= x < nmeta
  {
    if n > 0 {
      MapsInRange(start, nmeta, u, v, n - 1);
      DivBelow(n - 1, nmeta - start);
    }
  }

  /** The four lowest free blocks lie under four different bitmap blocks. */
  ghost predicate SpreadFree(start: nat, u: seq<bool>) {
    exists v :: Took(u, v, 4) && |Maps(start, u, v)| == 4
  }

  lemma SpreadIff(start: nat, u: seq<bool>, v: seq<bool>)
    requires Took(u, v, 4)
    ensures |Maps(start, u, v)| == 4 <==> SpreadFree(start, u)
  {
    if SpreadFree(start, u) {
      var w :| Took(u, w, 4) && |Maps(start, u, w)| == 4;
      TookUnique(u, v, w, 4);
    }
  }

  // ---------------------------------------------------------------- one call of bmap

  /** The number of blocks that `bmap` has to allocate for block `bn` of file `i`. */
  ghost function Missing(fs: Fs, i: nat, bn: nat): nat
    requires i < |fs.inodes| && bn < MAXFILE
  {
    (if Named(fs, i, SlotOf(bn)) == 0 then 1 else 0) + (if bn >= NDIRECT && Named(fs, i, NDIRECT) == 0 then 1 else 0)
  }

  /** The indirect block, which `bmap` logs when it stores an entry in it. */
  ghost function Touched(fs: Fs, i: nat, k: nat): set<nat>
    requires i < |fs.inodes|
  {
    if k > NDIRECT then {Named(fs, i, NDIRECT)} else {}
  }

  /** What `bmap` logs for block `bn` between `fs` and `g`, apart from bitmap blocks: nothing if it was mapped. */
  ghost function NewBlocks(fs: Fs, g: Fs, i: nat, bn: nat): set<nat>
    requires i < |fs.inodes| && i < |g.inodes| && bn < MAXFILE
  {
    if Named(fs, i, SlotOf(bn)) != 0 then {} else {Named(g, i, SlotOf(bn))} + Touched(g, i, SlotOf(bn))
  }

  ghost predicate MapLogged(fs: Fs, g: Fs, start: nat, log0: set<nat>, log1: set<nat>, i: nat, bn: nat) {
    && i < |fs.inodes| && i < |g.inodes| && bn < MAXFILE
    && Took(fs.used, g.used, Missing(fs, i, bn))
    && log1 == log0 + Maps(start, fs.used, g.used) + NewBlocks(fs, g, i, bn)
  }

  // ---------------------------------------------------------------- how many blocks a write allocates

  /** The number of blocks allocated when a file grows from `c` to `d` blocks, its indirect block included. */
  function Allocs(c: nat, d: nat): int {
    d - c + Bit(d > NDIRECT) - Bit(c > NDIRECT)
  }

  // `bmap` for block `b` of a file with its first `m` blocks mapped.
  lemma MissingIs(f1: Fs, i: nat, m: nat, b: nat)
    requires i < |f1.inodes| && Mapped(f1, i, m) && b <= m && b < MAXFILE
    ensures Missing(f1, i, b) == Allocs(m, Max(m, b + 1)) && (Named(f1, i, SlotOf(b)) == 0 <==> b == m)
  {
  }

  lemma AllocsAddUp(c: nat, m: nat, d: nat)
    ensures Allocs(c, m) + Allocs(m, d) == Allocs(c, d)
  {
  }

  // ---------------------------------------------------------------- the blocks that a write logs

  /** Blocks `a` to `b` of file `i`. */
  ghost function DataRange(fs: Fs, i: nat, a: nat, b: nat): set<nat>
    requires i < |fs.inodes|
  {
    if b <= a || b > MAXFILE then {} else DataRange(fs, i, a, b - 1) + {Named(fs, i, SlotOf(b - 1))}
  }

  /** The indirect block, if the file grew from `c` to `d` blocks and got entries in it. */
  ghost function IndirectLogged(fs: Fs, i: nat, c: nat, d: nat): set<nat>
    requires i < |fs.inodes|
  {
    if c < d && NDIRECT < d then {Named(fs, i, NDIRECT)} else {}
  }

  /** What `writei` has allocated and logged after blocks `a` to `b` of a file that had `c` blocks in `fs`: the data
      blocks, the bitmap block of every block it allocated, and the indirect block if it got new entries. */
  ghost predicate Accounted(fs: Fs, h: Fs, start: nat, log0: set<nat>, log: set<nat>, i: nat, a: nat, b: nat, c: nat) {
    && i < |h.inodes| && Took(fs.used, h.used, Allocs(c, Max(c, b)))
    && log == log0 + Maps(start, fs.used, h.used) + DataRange(h, i, a, b) + IndirectLogged(h, i, c, Max(c, b))
  }

  /** Slots of inode `i` that name a block keep it. */
  ghost predicate KeepsNames(fs: Fs, g: Fs, i: nat) {
    && i < |fs.inodes| && i < |g.inodes|
    && forall m {:trigger Named(g, i, m)} {:trigger Named(fs, i, m)} | 0 <= m < NSLOTS && Named(fs, i, m) != 0 ::
         Named(g, i, m) == Named(fs, i, m)
  }

  lemma {:induction false} DataKeeps(f1: Fs, h: Fs, i: nat, a: nat, b: nat)
    requires KeepsNames(f1, h, i) && forall bn | a <= bn < b && bn < MAXFILE :: Named(f1, i, SlotOf(bn)) != 0
    ensures DataRange(h, i, a, b) == DataRange(f1, i, a, b)
    decreases b
  {
    if a < b <= MAXFILE {
      DataKeeps(f1, h, i, a, b - 1);
      assert Named(h, i, SlotOf(b - 1)) == Named(f1, i, SlotOf(b - 1));
    }
  }

  lemma DataMore(f1: Fs, h: Fs, i: nat, a: nat, b: nat, c: nat)
    requires KeepsNames(f1, h, i) && a <= b < MAXFILE && c == b + 1
    requires forall bn | a <= bn < b :: Named(f1, i, SlotOf(bn)) != 0
    ensures DataRange(h, i, a, c) == DataRange(f1, i, a, b) + {Named(h, i, SlotOf(b))}
  {
    DataKeeps(f1, h, i, a, b);
  }

  lemma IndirectMore(f1: Fs, h: Fs, i: nat, b: nat, c: nat, next: nat)
    requires KeepsNames(f1, h, i) && b < MAXFILE && next == b + 1
    requires (NDIRECT < Max(c, b) ==> Named(f1, i, NDIRECT) != 0)
    requires Named(f1, i, SlotOf(b)) == 0 <==> b == Max(c, b)
    ensures IndirectLogged(h, i, c, Max(c, next))
      == IndirectLogged(f1, i, c, Max(c, b)) + (if Named(f1, i, SlotOf(b)) == 0 then Touched(h, i, SlotOf(b)) else {})
  {
  }

  lemma SetsAddUp(l0: set<nat>, l1: set<nat>, l2: set<nat>, m1: set<nat>, m2: set<nat>, d: set<nat>, i: set<nat>,
                  a: nat, t: set<nat>)
    requires l1 == l0 + m1 + d + i && l2 == l1 + m2 + t + {a}
    ensures l2 == l0 + (m1 + m2) + (d + {a}) + (i + t)
  {
  }

  /** A round of `writei`: what `bmap` logs, and the block itself. */
  ghost predicate RoundLogged(f1: Fs, h: Fs, start: nat, log1: set<nat>, log2: set<nat>, i: nat, bn: nat) {
    && i < |f1.inodes| && i < |h.inodes| && bn < MAXFILE
    && Took(f1.used, h.used, Missing(f1, i, bn))
    && log2 == log1 + Maps(start, f1.used, h.used) + NewBlocks(f1, h, i, bn) + {Named(h, i, SlotOf(bn))}
  }

  lemma RoundSets(f1: Fs, h: Fs, i: nat, bn: nat, t: set<nat>, log1: set<nat>, log2: set<nat>, m: set<nat>)
    requires i < |f1.inodes| && i < |h.inodes| && bn < MAXFILE
    requires t == if Named(f1, i, SlotOf(bn)) == 0 then Touched(h, i, SlotOf(bn)) else {}
    requires log2 == log1 + m + NewBlocks(f1, h, i, bn) + {Named(h, i, SlotOf(bn))}
    ensures log2 == log1 + m + t + {Named(h, i, SlotOf(bn))}
  {
  }

  lemma AccountTook(fs: Fs, f1: Fs, h: Fs, start: nat, i: nat, b: nat, c: nat, next: nat)
    requires i < |f1.inodes| && Mapped(f1, i, Max(c, b)) && b < MAXFILE && next == b + 1
    requires Took(fs.used, f1.used, Allocs(c, Max(c, b))) && Took(f1.used, h.used, Missing(f1, i, b))
    ensures Took(fs.used, h.used, Allocs(c, Max(c, next)))
    ensures Maps(start, fs.used, h.used) == Maps(start, fs.used, f1.used) + Maps(start, f1.used, h.used)
  {
    MissingIs(f1, i, Max(c, b), b);
    AllocsAddUp(c, Max(c, b), Max(c, next));
    TookMore(fs.used, f1.used, h.used, Allocs(c, Max(c, b)), Missing(f1, i, b));
    MapsMore(start, fs.used, f1.used, h.used, |fs.used|);
  }

  // One more round.
  lemma AccountMore(fs: Fs, f1: Fs, h: Fs, start: nat, log0: set<nat>, log1: set<nat>, log2: set<nat>, i: nat, a: nat,
                    b: nat, c: nat, next: nat)
    requires Accounted(fs, f1, start, log0, log1, i, a, b, c) && KeepsNames(f1, h, i) && Mapped(f1, i, Max(c, b))
    requires a <= b < MAXFILE && next == b + 1 && RoundLogged(f1, h, start, log1, log2, i, b)
    ensures Accounted(fs, h, start, log0, log2, i, a, next, c)
  {
    AccountTook(fs, f1, h, start, i, b, c, next);
    MissingIs(f1, i, Max(c, b), b);
    DataMore(f1, h, i, a, b, next);
    IndirectMore(f1, h, i, b, c, next);
    var t := if Named(f1, i, SlotOf(b)) == 0 then Touched(h, i, SlotOf(b)) else {};
    RoundSets(f1, h, i, b, t, log1, log2, Maps(start, f1.used, h.used));
    SetsAddUp(log0, log1, log2, Maps(start, fs.used, f1.used), Maps(start, f1.used, h.used),
              DataRange(f1, i, a, b), IndirectLogged(f1, i, c, Max(c, b)), Named(h, i, SlotOf(b)), t);
  }

  // A round that finds too few free blocks.
  lemma AccountFails(fs: Fs, f1: Fs, i: nat, b: nat, c: nat, next: nat)
    requires i < |f1.inodes| && Mapped(f1, i, Max(c, b)) && b < MAXFILE && next == b + 1
    requires Took(fs.used, f1.used, Allocs(c, Max(c, b))) && FreeCount(f1.used) < Missing(f1, i, b)
    ensures FreeCount(fs.used) < Allocs(c, Max(c, next))
  {
    TookLeft(fs.used, f1.used, Allocs(c, Max(c, b)));
    MissingIs(f1, i, Max(c, b), b);
    AllocsAddUp(c, Max(c, b), Max(c, next));
  }

  // ---------------------------------------------------------------- counting

  lemma {:induction false} DataWithout(h: Fs, i: nat, a: nat, b: nat, x: nat)
    requires i < |h.inodes| && forall bn | a <= bn < b && bn < MAXFILE :: Named(h, i, SlotOf(bn)) != x
    ensures x !in DataRange(h, i, a, b)
    decreases b
  {
    if a < b <= MAXFILE { DataWithout(h, i, a, b - 1, x); }
  }

  // Blocks of a file are distinct data blocks.
  lemma {:induction false} DataSize(h: Fs, nmeta: nat, owner: map<nat, (nat, nat)>, i: nat, a: nat, b: nat)
    requires Owned(h, nmeta, owner) && i < |h.inodes| && a <= b <= MAXFILE
    requires forall bn | a <= bn < b :: Named(h, i, SlotOf(bn)) != 0
    ensures |DataRange(h, i, a, b)| == b - a
    ensures forall x | x in DataRange(h, i, a, b) :: nmeta <= x < |h.used| && x != Named(h, i, NDIRECT)
    decreases b
  {
    if a < b {
      var c := b - 1;
      DataSize(h, nmeta, owner, i, a, c);
      NamedIsUsed(h, nmeta, owner, i, SlotOf(c));
      forall bn: nat | a <= bn < c ensures Named(h, i, SlotOf(bn)) != Named(h, i, SlotOf(c)) {
        NamedIsUsed(h, nmeta, owner, i, SlotOf(bn));
      }
      DataWithout(h, i, a, c, Named(h, i, SlotOf(c)));
      if Named(h, i, NDIRECT) != 0 { NamedIsUsed(h, nmeta, owner, i, NDIRECT); }
    }
  }

  lemma SizeOfUnion(a: set<nat>, b: set<nat>)
    requires a !! b
    ensures |a + b| == |a| + |b|
  {
  }

  lemma SizeOfParts(maps: set<nat>, data: set<nat>, ind: set<nat>, inode: set<nat>, start: nat, nmeta: nat)
    requires start <= nmeta && (forall x | x in maps :: start <= x < nmeta) && (forall x | x in inode :: x < start)
    requires (forall x | x in data :: nmeta <= x) && (forall x | x in ind :: nmeta <= x) && data !! ind
    ensures |maps + data + ind + inode| == |maps| + |data| + |ind| + |inode|
  {
    SizeOfUnion(maps, data);
    SizeOfUnion(maps + data, ind);
    SizeOfUnion(maps + data + ind, inode);
  }

  lemma IndirectSize(h: Fs, nmeta: nat, owner: map<nat, (nat, nat)>, i: nat, c: nat, d: nat)
    requires Owned(h, nmeta, owner) && i < |h.inodes| && (NDIRECT < d ==> Named(h, i, NDIRECT) != 0)
    ensures |IndirectLogged(h, i, c, d)| == Bit(c < d && NDIRECT < d)
    ensures forall x | x in IndirectLogged(h, i, c, d) :: nmeta <= x < |h.used| && x == Named(h, i, NDIRECT)
  {
    if NDIRECT < d { NamedIsUsed(h, nmeta, owner, i, NDIRECT); }
  }

  lemma DataOfWrite(h: Fs, nmeta: nat, owner: map<nat, (nat, nat)>, i: nat, a: nat, b: nat, d: nat)
    requires Owned(h, nmeta, owner) && i < |h.inodes| && Mapped(h, i, d) && a <= b && (a < b ==> b <= d)
    ensures |DataRange(h, i, a, b)| == b - a
    ensures forall x | x in DataRange(h, i, a, b) :: nmeta <= x < |h.used| && x != Named(h, i, NDIRECT)
  {
    if a < b { DataSize(h, nmeta, owner, i, a, b); } else { assert DataRange(h, i, a, b) == {}; }
  }

  // Bitmap blocks lie between the inode blocks and the data blocks, so nothing is counted twice.
  lemma LogSize(h: Fs, nmeta: nat, owner: map<nat, (nat, nat)>, i: nat, start: nat, maps: set<nat>, inode: set<nat>,
                a: nat, b: nat, c: nat, d: nat)
    requires Owned(h, nmeta, owner) && i < |h.inodes| && Mapped(h, i, d) && a <= b && (a < b ==> b <= d)
    requires start <= nmeta && (forall x | x in maps :: start <= x < nmeta) && (forall x | x in inode :: x < start)
    ensures |maps + DataRange(h, i, a, b) + IndirectLogged(h, i, c, d) + inode|
      == |maps| + (b - a) + Bit(c < d && NDIRECT < d) + |inode|
    ensures forall x | x in maps + DataRange(h, i, a, b) + IndirectLogged(h, i, c, d) + inode ::
      x in inode || start <= x < |h.used|
  {
    DataOfWrite(h, nmeta, owner, i, a, b, d);
    IndirectSize(h, nmeta, owner, i, c, d);
    SizeOfParts(maps, DataRange(h, i, a, b), IndirectLogged(h, i, c, d), inode, start, nmeta);
  }

  // ---------------------------------------------------------------- the blocks of a byte range

  /** The block behind the last one that a write of `n` bytes at `off` touches. */
  function EndBlock(off: nat, n: nat): (r: nat)
    ensures off / BSIZE <= r && (r == off / BSIZE <==> n == 0)
  {
    if n == 0 then off / BSIZE else Blocks(off + n)
  }

  lemma EndBlockStep(off: nat, tot: nat, m: nat, at: nat)
    requires 1 <= m && at == off + tot && at % BSIZE + m <= BSIZE && (tot == 0 || at % BSIZE == 0)
    ensures EndBlock(off, tot) == at / BSIZE && EndBlock(off, tot + m) == at / BSIZE + 1
  {
  }

  // The blocks of the file after the write.
  lemma BlocksAfter(len: nat, off: nat, n: nat)
    requires off <= len
    ensures Blocks(Max(len, off + n)) == Max(Blocks(len), EndBlock(off, n)) && off / BSIZE <= Blocks(len)
    ensures n > 0 ==> EndBlock(off, n) <= Blocks(Max(len, off + n))
  {
  }

  lemma EndBlockGrows(off: nat, m: nat, n: nat)
    requires m <= n
    ensures EndBlock(off, m) <= EndBlock(off, n)
  {
  }

  /** The number of blocks that a write of `n` bytes at `off` into a file of `len` bytes allocates. */
  function NeededBy(len: nat, off: nat, n: nat): int {
    Allocs(Blocks(len), Max(Blocks(len), EndBlock(off, n)))
  }

  lemma NeededGrows(len: nat, off: nat, m: nat, n: nat)
    requires m <= n
    ensures NeededBy(len, off, m) <= NeededBy(len, off, n)
  {
    EndBlockGrows(off, m, n);
  }

  /** The number of blocks that it logs, if the blocks it allocates lie under `maps` bitmap blocks. */
  function WriteCost(len: nat, off: nat, n: nat, maps: nat): nat {
    var c, d := Blocks(len), Max(Blocks(len), EndBlock(off, n));
    EndBlock(off, n) - off / BSIZE + maps + Bit(c < d && NDIRECT < d) + Bit(n > 0 && off + n > len)
  }

  /** The write starts inside the last block of the file, touches four blocks, and makes the file outgrow its direct
      blocks. */
  ghost predicate Tight(len: nat, off: nat, n: nat) {
    EndBlock(off, n) == off / BSIZE + 4 && Blocks(len) == off / BSIZE + 1 && NDIRECT - 2 <= Blocks(len) <= NDIRECT
  }

  // One chunk of `filewrite` logs at most ten blocks; and exactly ten if it is tight and the blocks it allocates lie
  // under four bitmap blocks.
  lemma ChunkCost(len: nat, off: nat, n: nat, maps: nat)
    requires off <= len && n <= 3 * BSIZE && maps <= NeededBy(len, off, n)
    ensures WriteCost(len, off, n, maps) <= MAXOPBLOCKS
    ensures WriteCost(len, off, n, maps) == MAXOPBLOCKS <==> Tight(len, off, n) && maps == 4
    ensures Tight(len, off, n) ==> NeededBy(len, off, n) == 4
  {
    if n > 0 {
      assert EndBlock(off, n) - off / BSIZE <= 4;
      assert off % BSIZE == 0 ==> EndBlock(off, n) - off / BSIZE <= 3;
      assert off % BSIZE != 0 ==> off / BSIZE < Blocks(len);
    }
  }
}
