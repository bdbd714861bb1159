/** Emptying the slots of one inode, as `itrunc` of kernel/fs.c does one by one. */
module Truncate {
  import opened BlockMap
  import opened FileBytes

  /** `v`, `owner` is `fs`, `owner0` after the slots `slots` of inode `i` were emptied and their blocks freed. */
  ghost predicate Cleared(fs: Fs, owner0: map<nat, (nat, nat)>, v: Fs, owner: map<nat, (nat, nat)>, nmeta: nat, i: nat,
                          slots: set<nat>)
  {
    && Owned(v, nmeta, owner) && Owned(fs, nmeta, owner0) && i < |fs.inodes|
    && |v.inodes| == |fs.inodes| && |v.used| == |fs.used| && v.bytes == fs.bytes
    && (forall j, m | 0 <= j < |fs.inodes| && 0 <= m < NSLOTS ::
          Named(v, j, m) == if j == i && m in slots then 0 else Named(fs, j, m))
    && (forall b :: b in owner <==> b in owner0 && !(owner0[b].0 == i && owner0[b].1 in slots))
    && (forall b :: b in owner ==> owner[b] == owner0[b])
    && (forall j | 0 <= j < |fs.inodes| && j != i :: v.inodes[j] == fs.inodes[j])
  }

  lemma ClearedStart(fs: Fs, owner: map<nat, (nat, nat)>, nmeta: nat, i: nat)
    requires Owned(fs, nmeta, owner) && i < |fs.inodes|
    ensures Cleared(fs, owner, fs, owner, nmeta, i, {})
  {
  }

  // Empty slots count as emptied.
  lemma ClearedSkip(fs: Fs, owner0: map<nat, (nat, nat)>, v: Fs, owner: map<nat, (nat, nat)>, nmeta: nat, i: nat,
                    slots: set<nat>, more: set<nat>, slots': set<nat>)
    requires Cleared(fs, owner0, v, owner, nmeta, i, slots) && slots' == slots + more
    requires forall k :: k in more ==> k < NSLOTS && Named(v, i, k) == 0
    ensures Cleared(fs, owner0, v, owner, nmeta, i, slots')
  {
    forall b | b in owner0 && owner0[b].0 == i && owner0[b].1 in more
      ensures owner0[b].1 in slots
    {
      assert BlockOk(fs, nmeta, owner0, b);
    }
  }

  // The owners after the block of one more slot was freed.
  lemma OwnersMore(fs: Fs, owner0: map<nat, (nat, nat)>, owner: map<nat, (nat, nat)>, nmeta: nat, i: nat,
                   slots: set<nat>, k: nat, b: nat, slots': set<nat>)
    requires Owned(fs, nmeta, owner0) && i < |fs.inodes| && k < NSLOTS && b == Named(fs, i, k) != 0
    requires slots' == slots + {k}
    requires forall c :: c in owner <==> c in owner0 && !(owner0[c].0 == i && owner0[c].1 in slots)
    requires forall c :: c in owner ==> owner[c] == owner0[c]
    ensures forall c :: c in owner - {b} <==> c in owner0 && !(owner0[c].0 == i && owner0[c].1 in slots')
    ensures forall c :: c in owner - {b} ==> (owner - {b})[c] == owner0[c]
  {
    NamedIsUsed(fs, nmeta, owner0, i, k);
    forall c | c in owner0 && owner0[c].0 == i && owner0[c].1 == k
      ensures c == b
    {
      assert BlockOk(fs, nmeta, owner0, c);
    }
  }

  // Freeing the block of a slot and emptying the slot.
  lemma ClearedMore(fs: Fs, owner0: map<nat, (nat, nat)>, v: Fs, owner: map<nat, (nat, nat)>, nmeta: nat, i: nat,
                    slots: set<nat>, k: nat, b: nat, slots': set<nat>)
    requires Cleared(fs, owner0, v, owner, nmeta, i, slots) && k < NSLOTS && k !in slots && slots' == slots + {k}
    requires CanUnmap(v, nmeta, owner, i, k) && b == Named(v, i, k)
    ensures |v.inodes[i].addrs| == NDIRECT + 1
    ensures k > NDIRECT ==> v.inodes[i].addrs[NDIRECT] < |v.words|
    ensures b < |v.used| && v.used[b]
    ensures Cleared(fs, owner0, Free(SetSlot(v, i, k, 0), b), owner - {b}, nmeta, i, slots')
  {
    UnmapRenames(v, nmeta, owner, i, k);
    NamedIsUsed(v, nmeta, owner, i, k);
    OwnersMore(fs, owner0, owner, nmeta, i, slots, k, b, slots');
    var s := SetSlot(v, i, k, 0);
    var g := Free(s, b);
    forall j, m | 0 <= j < |g.inodes| && 0 <= m < NSLOTS
      ensures Named(g, j, m) == Named(s, j, m)
    {
    }
    UnmapKeepsOwned(v, nmeta, owner, i, k, b, g);
  }

  /** The real state while the entries of indirect block `x` are being freed: the block still holds its old entries
      `w`. */
  ghost function Stale(v: Fs, x: nat, w: seq<nat>): Fs
    requires x < |v.words|
  {
    v.(words := v.words[x := w])
  }

  // The contents of a block that no inode uses as its indirect block do not matter.
  lemma StaleWords(v: Fs, nmeta: nat, owner: map<nat, (nat, nat)>, x: nat, w: seq<nat>)
    requires Owned(v, nmeta, owner) && x < |v.words| && x !in owner && |w| == NINDIRECT && x != 0
    ensures Owned(Stale(v, x, w), nmeta, owner)
    ensures forall j, m | 0 <= j < |v.inodes| && 0 <= m < NSLOTS :: Named(Stale(v, x, w), j, m) == Named(v, j, m)
  {
    var g := Stale(v, x, w);
    forall j, m | 0 <= j < |v.inodes| && 0 <= m < NSLOTS
      ensures Named(g, j, m) == Named(v, j, m)
    {
      IndirectInRange(v, nmeta, owner, j);
    }
    SameNamesOwned(v, g, nmeta, owner);
  }

  // Emptying entry `k` changes nothing in the real state but the bitmap.
  lemma StaleAfterClear(v: Fs, x: nat, w: seq<nat>, i: nat, k: nat, b: nat)
    requires i < |v.inodes| && NDIRECT < k < NSLOTS && |v.inodes[i].addrs| == NDIRECT + 1 && b < |v.used|
    requires v.inodes[i].addrs[NDIRECT] == x < |v.words| && |v.words[x]| == NINDIRECT
    ensures Stale(Free(SetSlot(v, i, k, 0), b), x, w) == Free(Stale(v, x, w), b)
  {
    var y: seq<nat> := v.words[x];
    assert v.words[x := y[k - NDIRECT - 1 := 0]][x := w] == v.words[x := w];
  }

  ghost predicate SlotsDone(slots: set<nat>, direct: nat, entries: nat) {
    forall k: nat :: k in slots <==> k < direct || NDIRECT < k <= NDIRECT + entries
  }

  ghost predicate AllSlots(slots: set<nat>) {
    forall k :: 0 <= k < NSLOTS ==> k in slots
  }

  // Truncation frees exactly the blocks of the inode.
  lemma TruncateFrees(fs: Fs, owner0: map<nat, (nat, nat)>, v: Fs, owner: map<nat, (nat, nat)>, nmeta: nat, i: nat,
                      slots: set<nat>, b: nat)
    requires Cleared(fs, owner0, v, owner, nmeta, i, slots) && AllSlots(slots) && b < |fs.used|
    ensures v.used[b] <==> fs.used[b] && !(b in owner0 && owner0[b].0 == i)
  {
    if b in owner0 { assert BlockOk(fs, nmeta, owner0, b); }
    if b in owner { assert BlockOk(v, nmeta, owner, b); }
  }

  lemma TruncatedFile(fs: Fs, owner0: map<nat, (nat, nat)>, v: Fs, owner: map<nat, (nat, nat)>, nmeta: nat, i: nat,
                      slots: set<nat>, j: nat, data: seq<int>)
    requires Cleared(fs, owner0, v, owner, nmeta, i, slots) && AllSlots(slots)
    requires j < |fs.inodes|
    ensures j == i ==> Stores(v, i, [])
    ensures j != i && Stores(fs, j, data) ==> Stores(v, j, data)
  {
    if j == i {
      assert Blocks(0) == 0;
    } else if Stores(fs, j, data) {
      forall x | 0 <= x < |data|
        ensures ByteAt(v, j, x) == data[x]
      {
        assert ByteAt(fs, j, x) == data[x];
      }
    }
  }

  /** The loop over the entries `w` of indirect block `x` has freed the first `j` of them. */
  ghost predicate EntriesDone(fs: Fs, owner0: map<nat, (nat, nat)>, v: Fs, owner: map<nat, (nat, nat)>, nmeta: nat,
                              i: nat, slots: set<nat>, x: nat, w: seq<nat>, j: nat)
  {
    && Cleared(fs, owner0, v, owner, nmeta, i, slots) && SlotsDone(slots, NDIRECT, j) && j <= NINDIRECT
    && 0 < x < |v.words| && |w| == NINDIRECT && x == Named(v, i, NDIRECT)
    && (forall k | NDIRECT < k < NSLOTS :: Named(fs, i, k) == w[k - NDIRECT - 1])
  }

  lemma IndirectEmptied(fs: Fs, owner0: map<nat, (nat, nat)>, v: Fs, owner: map<nat, (nat, nat)>, nmeta: nat, i: nat,
                        slots: set<nat>, x: nat, w: seq<nat>)
    requires EntriesDone(fs, owner0, v, owner, nmeta, i, slots, x, w, NINDIRECT)
    ensures CanUnmap(v, nmeta, owner, i, NDIRECT) && NDIRECT !in slots
    ensures |v.inodes[i].addrs| == NDIRECT + 1 && x < |v.used| && v.inodes[i].addrs[NDIRECT] == x
  {
    IndirectInRange(v, nmeta, owner, i);
    forall m | NDIRECT < m < NSLOTS
      ensures Named(v, i, m) == 0
    {
      assert m in slots;
    }
  }

  lemma StaleCommutes(v: Fs, x: nat, w: seq<nat>, i: nat)
    requires i < |v.inodes| && |v.inodes[i].addrs| == NDIRECT + 1 && x < |v.words| && x < |v.used|
    ensures Stale(Free(SetSlot(v, i, NDIRECT, 0), x), x, w) == Free(SetSlot(Stale(v, x, w), i, NDIRECT, 0), x)
  {
  }

  lemma StaleCleared(fs: Fs, owner0: map<nat, (nat, nat)>, v: Fs, owner: map<nat, (nat, nat)>, nmeta: nat, i: nat,
                     slots: set<nat>, x: nat, w: seq<nat>)
    requires Cleared(fs, owner0, v, owner, nmeta, i, slots) && 0 < x < |v.words| && x !in owner && |w| == NINDIRECT
    ensures Cleared(fs, owner0, Stale(v, x, w), owner, nmeta, i, slots)
  {
    StaleWords(v, nmeta, owner, x, w);
  }

  // Freeing the emptied indirect block `x` itself completes the truncation, whatever words the block still holds.
  lemma ClearIndirect(fs: Fs, owner0: map<nat, (nat, nat)>, v: Fs, owner: map<nat, (nat, nat)>, nmeta: nat, i: nat,
                      slots: set<nat>, x: nat, w: seq<nat>, slots': set<nat>)
    requires EntriesDone(fs, owner0, v, owner, nmeta, i, slots, x, w, NINDIRECT) && slots' == slots + {NDIRECT}
    ensures |v.inodes[i].addrs| == NDIRECT + 1 && x < |v.used| && v.used[x] && v.inodes[i].addrs[NDIRECT] == x
    ensures AllSlots(slots')
    ensures Cleared(fs, owner0, Free(SetSlot(Stale(v, x, w), i, NDIRECT, 0), x), owner - {x}, nmeta, i, slots')
  {
    IndirectEmptied(fs, owner0, v, owner, nmeta, i, slots, x, w);
    ClearedMore(fs, owner0, v, owner, nmeta, i, slots, NDIRECT, x, slots');
    StaleCleared(fs, owner0, Free(SetSlot(v, i, NDIRECT, 0), x), owner - {x}, nmeta, i, slots', x, w);
    StaleCommutes(v, x, w, i);
  }

  lemma EntriesNamed(fs: Fs, owner0: map<nat, (nat, nat)>, v: Fs, owner: map<nat, (nat, nat)>, nmeta: nat, i: nat,
                     slots: set<nat>, x: nat, w: seq<nat>)
    requires Cleared(fs, owner0, v, owner, nmeta, i, slots) && SlotsDone(slots, NDIRECT, 0)
    requires x == Named(v, i, NDIRECT) && 0 < x < |v.words| && w == v.words[x] && |w| == NINDIRECT
    ensures forall k | NDIRECT < k < NSLOTS :: Named(fs, i, k) == w[k - NDIRECT - 1]
  {
    IndirectInRange(v, nmeta, owner, i);
    forall k | NDIRECT < k < NSLOTS
      ensures Named(fs, i, k) == w[k - NDIRECT - 1]
    {
      assert Named(v, i, k) == w[k - NDIRECT - 1];
    }
  }

  lemma EntriesStart(fs: Fs, owner0: map<nat, (nat, nat)>, v: Fs, owner: map<nat, (nat, nat)>, nmeta: nat, i: nat,
                     slots: set<nat>, x: nat, w: seq<nat>)
    requires Cleared(fs, owner0, v, owner, nmeta, i, slots) && SlotsDone(slots, NDIRECT, 0)
    requires x == Named(v, i, NDIRECT) && 0 < x < |v.words| && w == v.words[x] && |w| == NINDIRECT
    ensures EntriesDone(fs, owner0, v, owner, nmeta, i, slots, x, w, 0) && Stale(v, x, w) == v
  {
    EntriesNamed(fs, owner0, v, owner, nmeta, i, slots, x, w);
  }

  // Freeing entry `j`, or passing it by when it is empty.
  lemma EntryStep(fs: Fs, owner0: map<nat, (nat, nat)>, v: Fs, owner: map<nat, (nat, nat)>, nmeta: nat, i: nat,
                  slots: set<nat>, x: nat, w: seq<nat>, j: nat, j': nat)
    requires EntriesDone(fs, owner0, v, owner, nmeta, i, slots, x, w, j) && j < NINDIRECT && j' == j + 1
    ensures |v.inodes[i].addrs| == NDIRECT + 1 && v.inodes[i].addrs[NDIRECT] == x
    ensures w[j] == 0 ==> EntriesDone(fs, owner0, v, owner, nmeta, i, slots + {NDIRECT + j'}, x, w, j')
    ensures w[j] != 0 ==> w[j] < |v.used| && v.used[w[j]]
    ensures w[j] != 0 ==>
      EntriesDone(fs, owner0, Free(SetSlot(v, i, NDIRECT + j', 0), w[j]), owner - {w[j]}, nmeta, i,
                  slots + {NDIRECT + j'}, x, w, j')
    ensures w[j] != 0 ==> Stale(Free(SetSlot(v, i, NDIRECT + j', 0), w[j]), x, w) == Free(Stale(v, x, w), w[j])
  {
    var k, slots' := NDIRECT + j', slots + {NDIRECT + j'};
    IndirectInRange(v, nmeta, owner, i);
    assert Named(fs, i, k) == w[j] && k !in slots;
    if w[j] == 0 {
      ClearedSkip(fs, owner0, v, owner, nmeta, i, slots, {k}, slots');
    } else {
      ClearedMore(fs, owner0, v, owner, nmeta, i, slots, k, w[j], slots');
      StaleAfterClear(v, x, w, i, k, w[j]);
    }
  }

  ghost function SetBelow(n: nat): (r: set<nat>)
    ensures forall k: nat :: k in r <==> k < n
  {
    if n == 0 then {} else SetBelow(n - 1) + {n - 1 as nat}
  }

  /** All slots of an inode. */
  ghost function EverySlot(): (r: set<nat>)
    ensures forall k: nat :: k in r <==> k < NSLOTS
  {
    SetBelow(NSLOTS)
  }

  // Without an indirect block, the direct blocks were all there was.
  lemma NoIndirect(fs: Fs, owner0: map<nat, (nat, nat)>, v: Fs, owner: map<nat, (nat, nat)>, nmeta: nat, i: nat,
                   slots: set<nat>)
    requires Cleared(fs, owner0, v, owner, nmeta, i, slots) && SlotsDone(slots, NDIRECT, 0) && Named(v, i, NDIRECT) == 0
    ensures Cleared(fs, owner0, v, owner, nmeta, i, EverySlot()) && AllSlots(EverySlot())
  {
    var every := EverySlot();
    assert slots + every == every;
    forall k | k in every
      ensures Named(v, i, k) == 0
    {
    }
    ClearedSkip(fs, owner0, v, owner, nmeta, i, slots, every, every);
  }
}
