/** The block layer and the inode layer of kernel/fs.c as values.

Block contents are kept in two views: `bytes` for file data and `words` for indirect blocks.
A block is used in one role at a time, and allocation clears both views.  An inode names
blocks through 269 slots: slots 0..11 are its direct blocks, slot 12 is its indirect block
and slot 13 + j is entry j of that block.  Block number 0 means that a slot is empty.
*/
module BlockMap {

  const BSIZE: nat := 1024
  const NDIRECT: nat := 12
  const NINDIRECT: nat := 256
  const MAXFILE: nat := NDIRECT + NINDIRECT
  const NSLOTS: nat := NDIRECT + 1 + NINDIRECT

  datatype Inode = Inode(size: nat, addrs: seq<nat>)

  datatype Fs = Fs(used: seq<bool>, bytes: seq<seq<int>>, words: seq<seq<nat>>, inodes: seq<Inode>)

  function Zeros(n: nat): (r: seq<int>)
    ensures |r| == n && forall i :: 0 <= i < n ==> r[i] == 0
  {
    seq(n, _ => 0)
  }

  function ZeroWords(n: nat): (r: seq<nat>)
    ensures |r| == n && forall i :: 0 <= i < n ==> r[i] == 0
  {
    seq(n, _ => 0)
  }

  /** Block contents have their full size, and inodes their full table. */
  ghost predicate Shaped(fs: Fs) {
    && |fs.bytes| == |fs.words| == |fs.used|
    && (forall b :: 0 <= b < |fs.used| ==> |fs.bytes[b]| == BSIZE && |fs.words[b]| == NINDIRECT)
    && (forall i :: 0 <= i < |fs.inodes| ==> |fs.inodes[i].addrs| == NDIRECT + 1)
  }

  /** The block that slot `k` of inode `i` names, or 0. */
  function Named(fs: Fs, i: nat, k: nat): nat
    requires i < |fs.inodes| && k < NSLOTS
  {
    var a := fs.inodes[i].addrs;
    if |a| != NDIRECT + 1 then 0
    else if k <= NDIRECT then a[k]
    else if a[NDIRECT] == 0 || a[NDIRECT] >= |fs.words| || |fs.words[a[NDIRECT]]| != NINDIRECT then 0
    else fs.words[a[NDIRECT]][k - NDIRECT - 1]
  }

  /** The slot for block number `bn` of a file. */
  function SlotOf(bn: nat): nat {
    if bn < NDIRECT then bn else bn + 1
  }

  // ---------------------------------------------------------------- ownership

  ghost predicate IsSlot(fs: Fs, s: (nat, nat)) {
    s.0 < |fs.inodes| && s.1 < NSLOTS
  }

  /** What slot `k` of inode `i` names is a block that it owns. */
  ghost predicate SlotOk(fs: Fs, owner: map<nat, (nat, nat)>, i: nat, k: nat)
    requires i < |fs.inodes| && k < NSLOTS
  {
    Named(fs, i, k) != 0 ==> Named(fs, i, k) in owner && owner[Named(fs, i, k)] == (i, k)
  }

  /** Block `b` is named by the slot that owns it. */
  ghost predicate BlockOk(fs: Fs, nmeta: nat, owner: map<nat, (nat, nat)>, b: nat)
    requires b in owner
  {
    nmeta <= b < |fs.used| && IsSlot(fs, owner[b]) && Named(fs, owner[b].0, owner[b].1) == b
  }

  /** `owner` gives, for every data block in use, the one slot that names it.
      Blocks below `nmeta` are the boot, super, log, inode and bitmap blocks. */
  ghost predicate Owned(fs: Fs, nmeta: nat, owner: map<nat, (nat, nat)>) {
    && Shaped(fs) && 1 <= nmeta <= |fs.used|
    && (forall b :: 0 <= b < nmeta ==> fs.used[b])
    && (forall b :: nmeta <= b < |fs.used| ==> (fs.used[b] <==> b in owner))
    && (forall b {:trigger BlockOk(fs, nmeta, owner, b)} | b in owner :: BlockOk(fs, nmeta, owner, b))
    && (forall i, k {:trigger SlotOk(fs, owner, i, k)} | 0 <= i < |fs.inodes| && 0 <= k < NSLOTS ::
           SlotOk(fs, owner, i, k))
  }

  // What a slot names is a data block in use, and its own.
  lemma NamedIsUsed(fs: Fs, nmeta: nat, owner: map<nat, (nat, nat)>, j: nat, m: nat)
    requires Owned(fs, nmeta, owner) && j < |fs.inodes| && m < NSLOTS && Named(fs, j, m) != 0
    ensures var b := Named(fs, j, m); nmeta <= b < |fs.used| && fs.used[b] && b in owner && owner[b] == (j, m)
  {
    assert SlotOk(fs, owner, j, m);
    assert BlockOk(fs, nmeta, owner, Named(fs, j, m));
  }

  // Every block is exactly one of: metadata, free, or named by exactly one slot of exactly one inode.
  lemma BlockHasOneRole(fs: Fs, nmeta: nat, owner: map<nat, (nat, nat)>, b: nat)
    requires Owned(fs, nmeta, owner) && b < |fs.used|
    ensures b < nmeta ==>
      fs.used[b] && forall i, k | 0 <= i < |fs.inodes| && 0 <= k < NSLOTS :: b != 0 ==> Named(fs, i, k) != b
    ensures nmeta <= b && !fs.used[b] ==> forall i, k | 0 <= i < |fs.inodes| && 0 <= k < NSLOTS :: Named(fs, i, k) != b
    ensures nmeta <= b && fs.used[b] ==>
      exists i, k | 0 <= i < |fs.inodes| && 0 <= k < NSLOTS :: Named(fs, i, k) == b &&
        forall j, m | 0 <= j < |fs.inodes| && 0 <= m < NSLOTS :: Named(fs, j, m) == b ==> (j, m) == (i, k)
  {
    forall i, k | 0 <= i < |fs.inodes| && 0 <= k < NSLOTS && Named(fs, i, k) == b && b != 0
      ensures nmeta <= b && fs.used[b] && owner[b] == (i, k)
    {
      NamedIsUsed(fs, nmeta, owner, i, k);
    }
    if nmeta <= b && fs.used[b] {
      assert BlockOk(fs, nmeta, owner, b);
    }
  }

  /** `balloc` of block `b`: mark it in use and clear it. */
  function Alloc(fs: Fs, b: nat): Fs
    requires b < |fs.used| && |fs.bytes| == |fs.words| == |fs.used|
  {
    fs.(used := fs.used[b := true], bytes := fs.bytes[b := Zeros(BSIZE)], words := fs.words[b := ZeroWords(NINDIRECT)])
  }

  /** Store block number `b` in slot `k` of inode `i`. */
  function SetSlot(fs: Fs, i: nat, k: nat, b: nat): Fs
    requires i < |fs.inodes| && k < NSLOTS && |fs.inodes[i].addrs| == NDIRECT + 1
    requires k > NDIRECT ==>
      fs.inodes[i].addrs[NDIRECT] < |fs.words| && |fs.words[fs.inodes[i].addrs[NDIRECT]]| == NINDIRECT
  {
    var ip := fs.inodes[i];
    if k <= NDIRECT then fs.(inodes := fs.inodes[i := ip.(addrs := ip.addrs[k := b])])
    else
      var x := ip.addrs[NDIRECT];
      var w: seq<nat> := fs.words[x];
      fs.(words := fs.words[x := w[k - NDIRECT - 1 := b]])
  }

  /** Allocating block `b` for the empty slot `k` of inode `i`. */
  ghost predicate CanMap(fs: Fs, nmeta: nat, owner: map<nat, (nat, nat)>, i: nat, k: nat, b: nat) {
    && Owned(fs, nmeta, owner) && i < |fs.inodes| && k < NSLOTS && Named(fs, i, k) == 0
    && nmeta <= b < |fs.used| && !fs.used[b]
    && (k > NDIRECT ==> fs.inodes[i].addrs[NDIRECT] != 0)
  }

  // No slot names a free block.
  lemma FreeIsUnnamed(fs: Fs, nmeta: nat, owner: map<nat, (nat, nat)>, b: nat, j: nat, m: nat)
    requires Owned(fs, nmeta, owner) && nmeta <= b < |fs.used| && !fs.used[b] && j < |fs.inodes| && m < NSLOTS
    ensures Named(fs, j, m) != b
  {
    if Named(fs, j, m) != 0 { NamedIsUsed(fs, nmeta, owner, j, m); }
  }

  lemma IndirectInRange(fs: Fs, nmeta: nat, owner: map<nat, (nat, nat)>, i: nat)
    requires Owned(fs, nmeta, owner) && i < |fs.inodes|
    ensures |fs.inodes[i].addrs| == NDIRECT + 1
    ensures var x := fs.inodes[i].addrs[NDIRECT];
      x != 0 ==> nmeta <= x < |fs.used| && x in owner && owner[x] == (i, NDIRECT)
  {
    if Named(fs, i, NDIRECT) != 0 { NamedIsUsed(fs, nmeta, owner, i, NDIRECT); }
  }

  // Allocation itself changes no slot.
  lemma AllocKeepsNames(fs: Fs, nmeta: nat, owner: map<nat, (nat, nat)>, b: nat, j: nat, m: nat)
    requires Owned(fs, nmeta, owner) && nmeta <= b < |fs.used| && !fs.used[b] && j < |fs.inodes| && m < NSLOTS
    ensures Named(Alloc(fs, b), j, m) == Named(fs, j, m)
  {
    FreeIsUnnamed(fs, nmeta, owner, b, j, NDIRECT);
  }

  // Mapping a fresh block changes exactly the one slot.
  lemma MapNames(fs: Fs, nmeta: nat, owner: map<nat, (nat, nat)>, i: nat, k: nat, b: nat, j: nat, m: nat)
    requires CanMap(fs, nmeta, owner, i, k, b) && j < |fs.inodes| && m < NSLOTS
    ensures |fs.inodes[i].addrs| == NDIRECT + 1
    ensures k > NDIRECT ==> fs.inodes[i].addrs[NDIRECT] < |fs.words|
    ensures Named(SetSlot(Alloc(fs, b), i, k, b), j, m) == if (j, m) == (i, k) then b else Named(fs, j, m)
  {
    AllocKeepsNames(fs, nmeta, owner, b, j, m);
    AllocKeepsNames(fs, nmeta, owner, b, i, k);
    IndirectInRange(fs, nmeta, owner, i);
    IndirectInRange(fs, nmeta, owner, j);
    if k == NDIRECT && j == i && m > NDIRECT {
      assert Alloc(fs, b).words[b] == ZeroWords(NINDIRECT);
    }
    if k > NDIRECT {
      FreeIsUnnamed(fs, nmeta, owner, b, i, NDIRECT);
    }
  }

  /** `g` has the names of `fs`, except that slot `k` of inode `i` names `b`. */
  ghost predicate Renamed(fs: Fs, g: Fs, i: nat, k: nat, b: nat) {
    && |g.inodes| == |fs.inodes|
    && forall j, m | 0 <= j < |g.inodes| && 0 <= m < NSLOTS ::
         Named(g, j, m) == if (j, m) == (i, k) then b else Named(fs, j, m)
  }

  lemma MapRenames(fs: Fs, nmeta: nat, owner: map<nat, (nat, nat)>, i: nat, k: nat, b: nat)
    requires CanMap(fs, nmeta, owner, i, k, b)
    ensures |fs.inodes[i].addrs| == NDIRECT + 1
    ensures k > NDIRECT ==> fs.inodes[i].addrs[NDIRECT] < |fs.words|
    ensures Renamed(fs, SetSlot(Alloc(fs, b), i, k, b), i, k, b) && Shaped(SetSlot(Alloc(fs, b), i, k, b))
  {
    IndirectInRange(fs, nmeta, owner, i);
    var g := SetSlot(Alloc(fs, b), i, k, b);
    forall j, m | 0 <= j < |g.inodes| && 0 <= m < NSLOTS
      ensures Named(g, j, m) == if (j, m) == (i, k) then b else Named(fs, j, m)
    {
      MapNames(fs, nmeta, owner, i, k, b, j, m);
    }
  }

  // Mapping a fresh block keeps every block in one role.
  lemma MapKeepsOwned(fs: Fs, nmeta: nat, owner: map<nat, (nat, nat)>, i: nat, k: nat, b: nat, g: Fs)
    requires CanMap(fs, nmeta, owner, i, k, b)
    requires Renamed(fs, g, i, k, b) && Shaped(g) && g.used == fs.used[b := true]
    ensures Owned(g, nmeta, owner[b := (i, k)])
  {
    var own := owner[b := (i, k)];
    assert b !in owner;
    assert Named(g, i, k) == b;
    forall c | c in own
      ensures BlockOk(g, nmeta, own, c)
    {
      if c != b { assert BlockOk(fs, nmeta, owner, c); }
    }
    forall j, m | 0 <= j < |g.inodes| && 0 <= m < NSLOTS
      ensures SlotOk(g, own, j, m)
    {
      assert SlotOk(fs, owner, j, m);
    }
  }

  // A change that leaves all names and the bitmap alone.
  lemma SameNamesOwned(fs: Fs, g: Fs, nmeta: nat, owner: map<nat, (nat, nat)>)
    requires Owned(fs, nmeta, owner) && Shaped(g) && g.used == fs.used && |g.inodes| == |fs.inodes|
    requires forall j, m | 0 <= j < |fs.inodes| && 0 <= m < NSLOTS :: Named(g, j, m) == Named(fs, j, m)
    ensures Owned(g, nmeta, owner)
  {
    forall c | c in owner ensures BlockOk(g, nmeta, owner, c) { assert BlockOk(fs, nmeta, owner, c); }
    forall j, m | 0 <= j < |g.inodes| && 0 <= m < NSLOTS
      ensures SlotOk(g, owner, j, m)
    {
      assert SlotOk(fs, owner, j, m);
    }
  }

  // ---------------------------------------------------------------- freeing

  function Free(fs: Fs, b: nat): Fs
    requires b < |fs.used|
  {
    fs.(used := fs.used[b := false])
  }

  /** Slot `k` of inode `i` can be emptied: it is in use, and an indirect block has no entries left. */
  ghost predicate CanUnmap(fs: Fs, nmeta: nat, owner: map<nat, (nat, nat)>, i: nat, k: nat) {
    && Owned(fs, nmeta, owner) && i < |fs.inodes| && k < NSLOTS && Named(fs, i, k) != 0
    && (k == NDIRECT ==> forall m | NDIRECT < m < NSLOTS :: Named(fs, i, m) == 0)
  }

  lemma UnmapNames(fs: Fs, nmeta: nat, owner: map<nat, (nat, nat)>, i: nat, k: nat, j: nat, m: nat)
    requires CanUnmap(fs, nmeta, owner, i, k) && j < |fs.inodes| && m < NSLOTS
    ensures |fs.inodes[i].addrs| == NDIRECT + 1
    ensures k > NDIRECT ==> fs.inodes[i].addrs[NDIRECT] < |fs.words|
    ensures Named(SetSlot(fs, i, k, 0), j, m) == if (j, m) == (i, k) then 0 else Named(fs, j, m)
  {
    IndirectInRange(fs, nmeta, owner, i);
    IndirectInRange(fs, nmeta, owner, j);
  }

  lemma UnmapRenames(fs: Fs, nmeta: nat, owner: map<nat, (nat, nat)>, i: nat, k: nat)
    requires CanUnmap(fs, nmeta, owner, i, k)
    ensures |fs.inodes[i].addrs| == NDIRECT + 1
    ensures k > NDIRECT ==> fs.inodes[i].addrs[NDIRECT] < |fs.words|
    ensures Renamed(fs, SetSlot(fs, i, k, 0), i, k, 0) && Shaped(SetSlot(fs, i, k, 0))
  {
    IndirectInRange(fs, nmeta, owner, i);
    var g := SetSlot(fs, i, k, 0);
    forall j, m | 0 <= j < |g.inodes| && 0 <= m < NSLOTS
      ensures Named(g, j, m) == if (j, m) == (i, k) then 0 else Named(fs, j, m)
    {
      UnmapNames(fs, nmeta, owner, i, k, j, m);
    }
  }

  // The block that a slot names is in use, so freeing it cannot hit a free block; and freeing it together
  // with emptying the slot keeps every block in one role.
  lemma UnmapKeepsOwned(fs: Fs, nmeta: nat, owner: map<nat, (nat, nat)>, i: nat, k: nat, b: nat, g: Fs)
    requires CanUnmap(fs, nmeta, owner, i, k) && b == Named(fs, i, k)
    requires Renamed(fs, g, i, k, 0) && Shaped(g) && b < |fs.used| && g.used == fs.used[b := false]
    ensures fs.used[b] && b in owner && owner[b] == (i, k)
    ensures Owned(g, nmeta, owner - {b})
  {
    var own := owner - {b};
    NamedIsUsed(fs, nmeta, owner, i, k);
    forall c | c in own
      ensures BlockOk(g, nmeta, own, c)
    {
      assert BlockOk(fs, nmeta, owner, c);
    }
    forall j, m | 0 <= j < |g.inodes| && 0 <= m < NSLOTS
      ensures SlotOk(g, own, j, m)
    {
      assert SlotOk(fs, owner, j, m);
    }
  }
}
