/** Page allocation and page tables updated in place (kernel/kalloc.c, kernel/vm.c). */
module Vm {
  import opened Common
  import opened PageTable
  import opened VmSpec
  import opened FreeTables

  const PGSIZE: nat := 4096
  const UINT64_LIMIT: nat := 0x1_0000_0000_0000_0000

  /** How `uvmcopy` ends. */
  datatype CopyResult = Copied | NoMemory | Panicked

  lemma EmptyEntry(s: State, t: State, n: Node, i: nat, x: nat, next: nat, managed: set<nat>)
    requires CanFree(s, n, managed) && x == s.tab[n] && Freeing(s, t, n, i, x, managed) && i < ENTRIES && next == i + 1
    requires n.level > 0 ==> Child(n, i) !in s.tab
    ensures Freeing(s, t, n, next, x, managed)
  {
    if n.level > 0 { PrunedSkip(s, t, n, i, x); } else { PrunedLeafTable(s, t, n, i, x); }
  }

  lemma PushDistinct(free: seq<nat>, p: nat)
    requires p !in free && forall i, j | 0 <= i < j < |free| :: free[i] != free[j]
    ensures forall i, j | 0 <= i < j < |[p] + free| :: ([p] + free)[i] != ([p] + free)[j]
    ensures forall f :: f in [p] + free <==> f == p || f in free
  {
    var more := [p] + free;
    forall i, j | 0 <= i < j < |more| ensures more[i] != more[j] {
      assert more[j] == free[j - 1];
    }
    assert forall f | f in free :: f in more;
  }

  ghost function Frames(lo: nat, hi: nat): (r: set<nat>)
    ensures forall f: nat :: f in r <==> lo <= f < hi
    decreases hi - lo
  {
    if hi <= lo then {} else Frames(lo, hi - 1) + {hi - 1}
  }

  /** How many pages hold `sz` bytes. */
  function Pages(sz: nat): nat {
    (sz + PGSIZE - 1) / PGSIZE
  }

  lemma PagesGrow(oldsz: nat, newsz: nat)
    requires oldsz <= newsz <= MAXVPN * PGSIZE
    ensures Pages(oldsz) <= Pages(newsz) <= MAXVPN
  {
  }

  lemma PagesCount(sz: nat, a: nat)
    ensures a * PGSIZE < sz <==> a < Pages(sz)
  {
  }

  /** Where `va + size - 1` ends up in 64 bits. */
  function LastByte(va: nat, size: nat): (r: nat)
    requires va < UINT64_LIMIT && size < UINT64_LIMIT
    ensures va + size == 0 ==> r == 0xFFFF_FFFF_FFFF_FFFF
    ensures 0 < va + size <= UINT64_LIMIT ==> r == va + size - 1
    ensures va + size > UINT64_LIMIT ==> r == va + size - 1 - UINT64_LIMIT
  {
    (va + size + UINT64_LIMIT - 1) % UINT64_LIMIT
  }

  /** Every page that is mapped here is mapped to a frame of its own. */
  ghost predicate Freeable(s: State, root: nat, a: nat, b: nat) {
    forall p: nat | a <= p < b && Va(root, p) in s.leaves :: Owns(s, Va(root, p))
  }

  /** From `first` on, `stop` is the first page that cannot be unmapped, unless `last` comes before. */
  ghost predicate StopsAt(s: State, root: nat, first: nat, last: nat, stop: nat) {
    && first <= stop && AllOwned(s, root, first, stop) && stop <= Max(first, MAXVPN)
    && (first <= last < stop || stop >= MAXVPN || Va(root, stop) !in s.leaves)
  }

  lemma FilledCounts(s: State, t: State, u: State, page: Page, v: Va)
    requires s.free != [] && s.free[0] < |s.mem| && t == Filled(s, page)
    ensures |t.free| >= Missing(t.tab.Keys, v) <==> |s.free| > Missing(s.tab.Keys, v)
    ensures Took(t, u, v, 0) ==> Took(s, u, v, 1)
  {
  }

  lemma CanUnmap(s: State, root: nat, first: nat, last: nat, stop: nat, a: nat)
    requires StopsAt(s, root, first, last, stop) && first <= a <= stop && (first <= last ==> a <= last)
    ensures a < MAXVPN && Va(root, a) in s.leaves <==> a < stop
    ensures a < stop ==> Owns(s, Va(root, a))
  {
  }

  lemma GrewStopsAt(s: State, t: State, root: nat, first: nat, last: nat, a: nat)
    requires Grew(s, t, root, first, a) && first <= last && a == last + 1 <= MAXVPN
    ensures StopsAt(t, root, first, last, a)
  {
  }

  lemma LastOfShrink(oldsz: nat, newsz: nat)
    requires newsz < oldsz < UINT64_LIMIT
    ensures newsz / PGSIZE <= LastByte(newsz, oldsz - newsz) / PGSIZE == Pages(oldsz) - 1
  {
  }

  /** The first page from `a` on that is not mapped, or the first after the last. */
  ghost function FirstUnmapped(s: State, root: nat, a: nat, b: nat): (stop: nat)
    requires Freeable(s, root, a, b)
    ensures a <= stop && AllOwned(s, root, a, stop) && stop <= Max(a, Min(b, MAXVPN))
    ensures stop >= MAXVPN || stop >= b || Va(root, stop) !in s.leaves
    decreases b - a
  {
    if a >= b || a >= MAXVPN || Va(root, a) !in s.leaves then a else FirstUnmapped(s, root, a + 1, b)
  }

  lemma ShrinkStopsAt(s: State, root: nat, oldsz: nat, newsz: nat, first: nat, end: nat) returns (stop: nat)
    requires newsz < oldsz < UINT64_LIMIT && first == newsz / PGSIZE && end == Pages(oldsz)
    requires Freeable(s, root, first, end)
    ensures first <= end - 1 == LastByte(newsz, oldsz - newsz) / PGSIZE && StopsAt(s, root, first, end - 1, stop)
    ensures end - 1 < stop <==> end <= MAXVPN && AllOwned(s, root, first, end)
  {
    LastOfShrink(oldsz, newsz);
    stop := FirstUnmapped(s, root, first, end);
    if stop < end { assert stop >= MAXVPN || !Owns(s, Va(root, stop)); }
  }

  // The range that `uvmfree` unmaps; that of size 0 goes on until it meets a page that is not mapped.
  lemma SizeStopsAt(s: State, root: nat, sz: nat, n: nat) returns (last: nat, stop: nat, end: nat)
    requires sz < UINT64_LIMIT && n == Pages(sz) && Freeable(s, root, 0, n)
    requires forall v | v in s.leaves && v.root == root :: v.vpn < n
    ensures last == LastByte(0, sz) / PGSIZE && StopsAt(s, root, 0, last, stop)
    ensures end == if last < stop then last + 1 else stop
    ensures last < stop <==> 0 < sz && n <= MAXVPN && AllOwned(s, root, 0, n)
    ensures last < stop ==> end == n
  {
    last := LastByte(0, sz) / PGSIZE;
    if sz > 0 { stop := ShrinkStopsAt(s, root, sz, 0, 0, n); } else { stop := 0; }
    end := if last < stop then last + 1 else stop;
  }

  // The range that `uvmcopy` unmaps when it fails at page `k`: it has no end if that is the first.
  lemma CopiedStopsAt(s: State, t: State, child: nat, k: nat, n: nat) returns (last: nat)
    requires Grew(s, t, child, 0, k) && k < n <= MAXVPN && NoneMapped(s.leaves, child, 0, n)
    ensures k * PGSIZE < UINT64_LIMIT && last == LastByte(0, k * PGSIZE) / PGSIZE && StopsAt(t, child, 0, last, k)
    ensures if k == 0 then last >= k else last + 1 == k
  {
    last := LastByte(0, k * PGSIZE) / PGSIZE;
    if k > 0 { LastOfShrink(k * PGSIZE, 0); }
  }

  ghost predicate KeepsPages(before: map<Va, Leaf>, after: map<Va, Leaf>, root: nat, n: nat) {
    forall p: nat | p < n && Va(root, p) in before :: Va(root, p) in after
  }

  // Shrinking keeps every page that still holds bytes below the new size if and only if the new size is aligned.
  lemma ShrinkKeepsPagesIff(s: State, t: State, root: nat, oldsz: nat, newsz: nat, first: nat, end: nat)
    requires newsz < oldsz && first == newsz / PGSIZE && end == Pages(oldsz)
    requires AllOwned(s, root, first, end) && Dropped(s, t, root, first, end)
    ensures KeepsPages(s.leaves, t.leaves, root, Pages(newsz)) <==> newsz % PGSIZE == 0
  {
    if newsz % PGSIZE != 0 {
      assert first < Pages(newsz) && Owns(s, Va(root, first)) && InRange(Va(root, first), root, first, end);
    }
  }

  lemma GrewNothing(s: State, t: State, root: nat, a: nat)
    requires Grew(s, t, root, a, a)
    ensures OnlyTables(s, t, root) && t.leaves == s.leaves
  {
  }

  /** The page that holds a byte. */
  function PageAt(b: nat): nat {
    b / PGSIZE
  }

  /** From `before` to `after` exactly the pages that hold a byte from `va` to before `va + size` were mapped, to
      consecutive frames from that of `pa` on. */
  ghost predicate MapsBytes(before: map<Va, Leaf>, after: map<Va, Leaf>, root: nat, va: nat, size: nat, pa: nat,
                            flags: nat)
  {
    && (forall b: nat | va <= b < va + size ::
          && Va(root, PageAt(b)) in after
          && after[Va(root, PageAt(b))] == Leaf(PageAt(pa) + PageAt(b) - PageAt(va), flags))
    && (forall v | v in after && v !in before ::
          v.root == root && exists b: nat | va <= b < va + size :: v.vpn == PageAt(b))
    && (forall v | v in before :: v in after && after[v] == before[v])
  }

  lemma RangeMapsBytes(before: map<Va, Leaf>, root: nat, va: nat, size: nat, pa: nat, flags: nat, n: nat)
    requires size > 0 && n == (va + size - 1) / PGSIZE + 1 - va / PGSIZE
    requires forall p: nat | va / PGSIZE <= p <= (va + size - 1) / PGSIZE :: Va(root, p) !in before
    ensures MapsBytes(before, MapRange(before, root, va / PGSIZE, pa / PGSIZE, flags, n), root, va, size, pa, flags)
  {
    var first := va / PGSIZE;
    var after := MapRange(before, root, first, pa / PGSIZE, flags, n);
    forall b: nat | va <= b < va + size
      ensures Va(root, PageAt(b)) in after
      ensures after[Va(root, PageAt(b))] == Leaf(PageAt(pa) + PageAt(b) - PageAt(va), flags)
    {
      MapRangeAt(before, root, first, pa / PGSIZE, flags, n, Va(root, PageAt(b)));
    }
    forall v | v in after && v !in before
      ensures v.root == root && exists b: nat | va <= b < va + size :: v.vpn == PageAt(b)
    {
      MapRangeAt(before, root, first, pa / PGSIZE, flags, n, v);
      var b: nat := if v.vpn == first then va else v.vpn * PGSIZE;
      assert va <= b < va + size && v.vpn == PageAt(b);
    }
    forall v | v in before ensures v in after && after[v] == before[v] {
      MapRangeAt(before, root, first, pa / PGSIZE, flags, n, v);
    }
  }

  lemma LastPage(va: nat, size: nat)
    requires size > 0 && va + size <= MAXVPN * PGSIZE
    ensures va / PGSIZE <= (va + size - 1) / PGSIZE < MAXVPN
  {
  }

  lemma AllPermissions()
    ensures WithV(PTE_W + PTE_X + PTE_R + PTE_U) == 31
  {
  }

  class PhysMem {
    var mem: Mem
    var free: seq<nat>
    ghost var tab: map<Node, nat>
    ghost var leaves: map<Va, Leaf>
    ghost var owner: map<nat, Role>
    ghost const managed: set<nat>

    ghost function Abs(): State
      reads this
    {
      State(mem, free, tab, leaves, owner)
    }

    ghost predicate Valid()
      reads this
    {
      Ok(Abs(), managed)
    }

    // ------------------------------------------------------------ kalloc, kfree

    method KFree(f: nat)
      requires f < |mem|
      modifies this`mem, this`free, this`owner
      ensures Abs() == Given(old(Abs()), f) && free == [f] + old(free)
      ensures |mem| == |old(mem)| && forall w | w in mem[f] :: w == 0x0101_0101_0101_0101
    {
      mem := mem[f := Junk(JUNK_FREE)];
      free := [f] + free;
      owner := owner - {f};
    }

    /** `kinit`: all whole frames after the first one behind `start` and before `end` become free. */
    constructor (frames: Mem, start: nat, end: nat)
      requires end <= |frames| * PGSIZE
      ensures Valid() && owner == map[] && tab == map[] && leaves == map[]
      ensures forall f: nat :: f in managed <==> Pages(start) + 1 <= f && (f + 1) * PGSIZE <= end
    {
      mem, free := frames, [];
      tab, leaves, owner := map[], map[], map[];
      var lo, hi := Pages(start) + 1, end / PGSIZE;
      managed := Frames(lo, hi);
      new;
      var p := lo;
      while (p + 1) * PGSIZE <= end
        invariant lo <= p && |mem| == |frames| && owner == map[] && tab == map[] && leaves == map[]
        invariant p <= hi || p == lo
        invariant (forall f: nat :: f in free <==> lo <= f < p)
        invariant forall i, j | 0 <= i < j < |free| :: free[i] != free[j]
        decreases end - p
      {
        ghost var before := free;
        KFree(p);
        PushDistinct(before, p);
        p := p + 1;
      }
    }

    /** A free frame, filled with junk, or none. */
    method KAlloc() returns (r: Option<nat>)
      requires free != [] ==> free[0] < |mem|
      modifies this`mem, this`free, this`owner
      ensures r == if old(free) == [] then None else Some(old(free)[0])
      ensures Abs() == Taken(old(Abs()))
      ensures r.Some? ==>
        |mem| == |old(mem)| && free == old(free)[1..] && forall w | w in mem[r.value] :: w == 0x0505_0505_0505_0505
    {
      if free == [] { return None; }
      var f := free[0];
      free := free[1..];
      owner := owner[f := Held];
      mem := mem[f := Junk(JUNK_ALLOC)];
      r := Some(f);
    }

    // ------------------------------------------------------------ walk

    /** Allocates the table that is missing below `t` and links it in. */
    method NewTable(root: nat, vpn: nat, level: nat, t: nat) returns (r: Option<nat>)
      requires free != [] ==> CanLink(Abs(), root, vpn, level) && t == tab[OnPath(root, level, vpn)]
      modifies this`mem, this`free, this`tab, this`owner
      ensures r == if old(free) == [] then None else Some(old(free)[0])
      ensures Abs() == if old(free) == [] then old(Abs()) else Linked(old(Abs()), root, vpn, level)
    {
      r := KAlloc();
      if r.Some? {
        mem := mem[r.value := ZeroPage()];
        mem := SetEntry(mem, t, Px(level, vpn), Encode(r.value, PTE_V));
        ghost var c := OnPath(root, level - 1, vpn);
        tab := tab[c := r.value];
        owner := owner[r.value := TableOf(c)];
      }
    }

    /** One level of `walk`: the next table, which is allocated if it is missing and `alloc` is set. */
    method WalkLevel(root: nat, vpn: nat, level: nat, t: nat, alloc: bool) returns (r: Option<nat>)
      requires Valid() && 1 <= level <= 2 && vpn < MAXVPN
      requires OnPath(root, level, vpn) in tab && t == tab[OnPath(root, level, vpn)]
      modifies this`mem, this`free, this`tab, this`owner
      ensures Abs() == if alloc then Down(old(Abs()), root, vpn, level) else old(Abs())
      ensures r == if OnPath(root, level - 1, vpn) in tab then Some(tab[OnPath(root, level - 1, vpn)]) else None
      ensures r.None? && alloc ==> free == []
    {
      EntryReads(Abs(), managed, root, vpn, level);
      var pte := mem[t][Px(level, vpn)];
      if PageTable.Valid(pte) {
        r := Some(Frame(pte));
      } else if !alloc {
        r := None;
      } else {
        if free != [] { LinkFits(Abs(), managed, root, vpn, level); }
        r := NewTable(root, vpn, level, t);
      }
    }

    /** The table that holds the entry of page `vpn`, which is entry `Px(0, vpn)` of it. */
    method Walk(root: nat, vpn: nat, alloc: bool) returns (r: Option<nat>)
      requires Valid() && Node(root, 2, 0) in tab && vpn < MAXVPN
      modifies this`mem, this`free, this`tab, this`owner
      ensures Abs() == if alloc then Walked(old(Abs()), root, vpn) else old(Abs())
      ensures r == if LeafNode(Va(root, vpn)) in tab then Some(tab[LeafNode(Va(root, vpn))]) else None
      ensures r.None? && alloc ==> free == []
    {
      ghost var s := Abs();
      var t, level := root, 2;
      assert Rooted(tab, Node(root, 2, 0));
      while level > 0
        invariant 0 <= level <= 2 && Abs() == if alloc then WalkedTo(s, root, vpn, level) else s
        invariant OnPath(root, level, vpn) in tab && t == tab[OnPath(root, level, vpn)]
      {
        if alloc { WalkedToOk(s, managed, root, vpn, level); }
        var next := WalkLevel(root, vpn, level, t, alloc);
        if next.None? {
          if alloc {
            WalkedToOk(s, managed, root, vpn, level - 1);
            WalkStops(s, root, vpn, level - 1);
          }
          NoLeafNode(Abs(), managed, root, vpn, level - 1);
          return None;
        }
        t, level := next.value, level - 1;
      }
      LeafIndex(root, vpn);
      r := Some(t);
    }

    /** Looks a user page up: its frame, or none if it is not mapped or not accessible to the user. */
    method WalkAddr(root: nat, vpn: nat) returns (r: Option<nat>)
      requires Valid() && Node(root, 2, 0) in tab && vpn < MAXVPN
      modifies this`mem, this`free, this`tab, this`owner
      ensures Abs() == old(Abs())
      ensures var v := Va(root, vpn);
              r == if v in leaves && leaves[v].flags >= PTE_U then Some(leaves[v].ppn) else None
    {
      var t := Walk(root, vpn, false);
      if t.None? {
        assert Va(root, vpn) in leaves ==> LeafNode(Va(root, vpn)) in tab;
        r := None;
      } else {
        LeafReads(Abs(), managed, root, vpn);
        var pte := mem[t.value][Px(0, vpn)];
        r := if !PageTable.Valid(pte) || Flags(pte) < PTE_U then None else Some(Frame(pte));
      }
    }

    // ------------------------------------------------------------ mappages

    /** Writes the entry of an unmapped page, if the walk finds or makes one. */
    method PutEntry(root: nat, vpn: nat, ppn: nat, perm: nat) returns (ok: bool)
      requires Valid() && Node(root, 2, 0) in tab && vpn < MAXVPN && Va(root, vpn) !in leaves
      modifies this`mem, this`free, this`tab, this`owner, this`leaves
      ensures Abs() == Mapped(old(Abs()), Va(root, vpn), Leaf(ppn, WithV(perm)))
      ensures ok <==> HasEntry(Walked(old(Abs()), root, vpn), Va(root, vpn))
      ensures ok <==> |old(free)| >= Missing(old(tab).Keys, Va(root, vpn))
      ensures ok ==> Took(old(Abs()), Abs(), Va(root, vpn), 0)
      ensures !ok ==> free == []
    {
      ghost var s, v := Abs(), Va(root, vpn);
      WalkSucceedsIff(s, managed, v);
      var t := Walk(root, vpn, true);
      WalkedEntry(s, managed, v);
      if t.None? { return false; }
      assert !PageTable.Valid(mem[t.value][Px(0, vpn)]);
      mem := SetEntry(mem, t.value, Px(0, vpn), Encode(ppn, WithV(perm)));
      leaves := leaves[v := Leaf(ppn, WithV(perm))];
      ok := true;
    }

    /** One round of `mappages`. */
    method MapOne(root: nat, vpn: nat, ppn: nat, perm: nat) returns (ok: bool)
      requires Valid() && Node(root, 2, 0) in tab && vpn < MAXVPN && Va(root, vpn) !in leaves && LeafFlags(WithV(perm))
      modifies this`mem, this`free, this`tab, this`owner, this`leaves
      ensures Valid() && OnlyTables(old(Abs()), Abs(), root) && (!ok ==> free == [])
      ensures leaves == if ok then old(leaves)[Va(root, vpn) := Leaf(ppn, WithV(perm))] else old(leaves)
      ensures ok <==> |old(free)| >= Missing(old(tab).Keys, Va(root, vpn))
      ensures ok ==> Took(old(Abs()), Abs(), Va(root, vpn), 0)
    {
      MappedKeeps(Abs(), managed, Va(root, vpn), Leaf(ppn, WithV(perm)));
      ok := PutEntry(root, vpn, ppn, perm);
    }

    /** One round of `mappages` after `k` others. */
    method MapNext(root: nat, a: nat, p: nat, perm: nat, ghost s: State, ghost first: nat, ghost ppn: nat,
                   ghost k: nat, ghost n: nat)
      returns (ok: bool)
      requires Valid() && Node(root, 2, 0) in s.tab && a == first + k < MAXVPN && p == ppn + k && n == k + 1
      requires LeafFlags(WithV(perm))
      requires Va(root, a) !in s.leaves && OnlyTables(s, Abs(), root)
      requires leaves == MapRange(s.leaves, root, first, ppn, WithV(perm), k)
      modifies this`mem, this`free, this`tab, this`owner, this`leaves
      ensures Valid() && OnlyTables(s, Abs(), root) && (!ok ==> free == [])
      ensures leaves == MapRange(s.leaves, root, first, ppn, WithV(perm), if ok then n else k)
    {
      MapRangeAt(s.leaves, root, first, ppn, WithV(perm), k, Va(root, a));
      ghost var t := Abs();
      ok := MapOne(root, a, p, perm);
      OnlyTablesTwice(s, t, Abs(), root);
      MapRangeNext(s.leaves, root, first, ppn, WithV(perm), k, n, a, p);
    }

    /** The loop of `mappages`, over the pages `first` to `last`, which are `n`. */
    method MapAll(root: nat, first: nat, last: nat, ppn: nat, perm: nat, ghost n: nat) returns (ok: bool)
      requires Valid() && Node(root, 2, 0) in tab && first <= last < MAXVPN && LeafFlags(WithV(perm))
      requires n == last + 1 - first
      requires forall p: nat | first <= p <= last :: Va(root, p) !in leaves
      modifies this`mem, this`free, this`tab, this`owner, this`leaves
      ensures Valid() && OnlyTables(old(Abs()), Abs(), root)
      ensures ok ==> leaves == MapRange(old(leaves), root, first, ppn, WithV(perm), n)
      ensures !ok ==>
        free == [] && exists k | 0 <= k < n :: leaves == MapRange(old(leaves), root, first, ppn, WithV(perm), k)
    {
      ghost var s, flags := Abs(), WithV(perm);
      var a, p := first, ppn;
      ghost var k := 0;
      while true
        invariant 0 <= k && a == first + k <= last && p == ppn + k
        invariant Valid() && OnlyTables(s, Abs(), root) && leaves == MapRange(s.leaves, root, first, ppn, flags, k)
        decreases last - a
      {
        ghost var n' := k + 1;
        ok := MapNext(root, a, p, perm, s, first, ppn, k, n');
        if !ok { return; }
        if a == last {
          assert n' == n;
          return;
        }
        k, a, p := n', a + 1, p + 1;
      }
    }

    // Maps exactly the pages that the range touches, to consecutive frames; if memory runs out, the first few of them.
    method MapPages(root: nat, va: nat, size: nat, pa: nat, perm: nat) returns (r: int)
      requires Valid() && Node(root, 2, 0) in tab && size > 0 && va + size <= MAXVPN * PGSIZE && LeafFlags(WithV(perm))
      requires forall p: nat | va / PGSIZE <= p <= (va + size - 1) / PGSIZE :: Va(root, p) !in leaves
      modifies this`mem, this`free, this`tab, this`owner, this`leaves
      ensures Valid() && OnlyTables(old(Abs()), Abs(), root) && (r == 0 || r == -1)
      ensures r == 0 ==> MapsBytes(old(leaves), leaves, root, va, size, pa, WithV(perm))
      ensures r == -1 ==> free == [] && exists k: nat | k <= (va + size - 1) / PGSIZE - va / PGSIZE ::
        leaves == MapRange(old(leaves), root, va / PGSIZE, pa / PGSIZE, WithV(perm), k)
    {
      LastPage(va, size);
      ghost var n := (va + size - 1) / PGSIZE + 1 - va / PGSIZE;
      RangeMapsBytes(leaves, root, va, size, pa, WithV(perm), n);
      var ok := MapAll(root, va / PGSIZE, (va + size - 1) / PGSIZE, pa / PGSIZE, perm, n);
      r := if ok then 0 else -1;
    }

    // ------------------------------------------------------------ uvmunmap

    /** Frees the frame of a mapped page and clears its entry. */
    method ClearEntry(root: nat, vpn: nat)
      requires Valid() && Owns(Abs(), Va(root, vpn)) && vpn < MAXVPN && Node(root, 2, 0) in tab
      modifies this`mem, this`free, this`tab, this`owner, this`leaves
      ensures Abs() == Unmapped(old(Abs()), Va(root, vpn))
    {
      ghost var s, v := Abs(), Va(root, vpn);
      UnmapReads(s, managed, v);
      var t := Walk(root, vpn, false);
      var pte := mem[t.value][Px(0, vpn)];
      assert PageTable.Valid(pte) && Flags(pte) != PTE_V;
      KFree(Frame(pte));
      mem := SetEntry(mem, t.value, Px(0, vpn), 0);
      leaves := leaves - {v};
    }

    /** What `uvmunmap` tests before it clears an entry. */
    method IsMapped(root: nat, vpn: nat) returns (ok: bool)
      requires Valid() && Node(root, 2, 0) in tab && vpn < MAXVPN
      modifies this`mem, this`free, this`tab, this`owner
      ensures Abs() == old(Abs()) && (ok <==> Va(root, vpn) in leaves)
    {
      ghost var s, v := Abs(), Va(root, vpn);
      if v in leaves { MappedHasTable(s, managed, v); }
      var t := Walk(root, vpn, false);
      if t.None? { return false; }
      LeafReads(s, managed, root, vpn);
      var pte := mem[t.value][Px(0, vpn)];
      if v in leaves { NotAPointer(leaves[v].flags); }
      ok := PageTable.Valid(pte) && Flags(pte) != PTE_V;
    }

    /** One round of `uvmunmap`: unless the page is mapped it panics, and in `walk` if there is no such page. */
    method UnmapOne(root: nat, vpn: nat, ghost next: nat) returns (ok: bool)
      requires Valid() && Node(root, 2, 0) in tab && next == vpn + 1
      requires vpn < MAXVPN && Va(root, vpn) in leaves ==> Owns(Abs(), Va(root, vpn))
      modifies this`mem, this`free, this`tab, this`owner, this`leaves
      ensures Valid() && (ok <==> vpn < MAXVPN && Va(root, vpn) in old(leaves))
      ensures if ok then Dropped(old(Abs()), Abs(), root, vpn, next) && |free| == |old(free)| + 1
        else Abs() == old(Abs())
    {
      if vpn >= MAXVPN { return false; }
      ok := IsMapped(root, vpn);
      if ok {
        UnmappedKeeps(Abs(), managed, Va(root, vpn));
        ClearEntry(root, vpn);
      }
    }

    method UnmapNext(root: nat, a: nat, ghost s: State, ghost first: nat, ghost next: nat) returns (ok: bool)
      requires Valid() && Node(root, 2, 0) in tab && first <= a && next == a + 1 && Dropped(s, Abs(), root, first, a)
      requires a < MAXVPN && Va(root, a) in s.leaves ==> Owns(s, Va(root, a))
      modifies this`mem, this`free, this`tab, this`owner, this`leaves
      ensures Valid() && (ok <==> a < MAXVPN && Va(root, a) in s.leaves)
      ensures if ok then Dropped(s, Abs(), root, first, next) && |free| == |old(free)| + 1 else Abs() == old(Abs())
    {
      ghost var t, v := Abs(), Va(root, a);
      if Owns(s, v) { StillOwns(s, t, root, first, a, v); }
      ok := UnmapOne(root, a, next);
      if ok { DroppedMore(s, t, Abs(), root, first, a, next); }
    }

    /** The loop of `uvmunmap`, from page `first` to page `last`; `stop` is the first page from `first` on that is
        not mapped, and there it panics unless `last` came before. */
    method UnmapAll(root: nat, first: nat, last: nat, ghost stop: nat, ghost end: nat) returns (ok: bool)
      requires Valid() && Node(root, 2, 0) in tab && StopsAt(Abs(), root, first, last, stop)
      requires end == if first <= last < stop then last + 1 else stop
      modifies this`mem, this`free, this`tab, this`owner, this`leaves
      ensures Valid() && (ok <==> first <= last < stop)
      ensures Dropped(old(Abs()), Abs(), root, first, end) && |free| == |old(free)| + (end - first)
    {
      ghost var s := Abs();
      DroppedNone(s, root, first);
      var a := first;
      while true
        invariant first <= a <= stop && (first <= last ==> a <= last)
        invariant Node(root, 2, 0) in tab && |free| == |s.free| + (a - first)
        invariant Valid() && Dropped(s, Abs(), root, first, a)
        decreases stop - a
      {
        var next := a + 1;
        CanUnmap(s, root, first, last, stop, a);
        ok := UnmapNext(root, a, s, first, next);
        if !ok {
          assert a == end;
          return;
        }
        if a == last {
          assert next == end;
          return;
        }
        a := next;
      }
    }

    // Unmaps exactly the pages that the range touches, and each gives one frame back, if they are all mapped; panics
    // at the first that is not.  The last byte is computed modulo 2^64, so an empty range at 0 has no end.
    method UvmUnmap(root: nat, va: nat, size: nat, ghost first: nat, ghost last: nat, ghost stop: nat, ghost end: nat)
      returns (ok: bool)
      requires Valid() && Node(root, 2, 0) in tab && va < UINT64_LIMIT && size < UINT64_LIMIT
      requires first == va / PGSIZE && last == LastByte(va, size) / PGSIZE && StopsAt(Abs(), root, first, last, stop)
      requires end == if first <= last < stop then last + 1 else stop
      modifies this`mem, this`free, this`tab, this`owner, this`leaves
      ensures Valid() && (ok <==> first <= last < stop)
      ensures Dropped(old(Abs()), Abs(), root, first, end) && |free| == |old(free)| + (end - first)
    {
      ok := UnmapAll(root, va / PGSIZE, LastByte(va, size) / PGSIZE, stop, end);
    }

    // ------------------------------------------------------------ uvmcreate, uvmalloc, uvmdealloc

    method TakeRoot() returns (r: Option<nat>)
      requires free != [] ==> free[0] < |mem|
      modifies this`mem, this`free, this`tab, this`owner
      ensures r == if old(free) == [] then None else Some(old(free)[0])
      ensures Abs() == Created(old(Abs()))
    {
      r := KAlloc();
      if r.Some? {
        mem := mem[r.value := ZeroPage()];
        tab := tab[Node(r.value, 2, 0) := r.value];
        owner := owner[r.value := TableOf(Node(r.value, 2, 0))];
      }
    }

    /** A new address space without any page. */
    method UvmCreate() returns (r: Option<nat>)
      requires Valid()
      modifies this`mem, this`free, this`tab, this`owner
      ensures Valid()
      ensures r.None? ==> old(free) == [] && Abs() == old(Abs())
      ensures r.Some? ==> Node(r.value, 2, 0) in tab && OnlyTables(old(Abs()), Abs(), r.value) && leaves == old(leaves)
      ensures r.Some? ==> (forall n | n in old(tab) :: n.root != r.value) && forall v | v in leaves :: v.root != r.value
    {
      if free != [] { CreatedKeeps(Abs(), managed); }
      r := TakeRoot();
    }

    /** Takes a frame and fills it. */
    method TakePage(page: Page) returns (r: Option<nat>)
      requires free != [] ==> free[0] < |mem|
      modifies this`mem, this`free, this`owner
      ensures r == if old(free) == [] then None else Some(old(free)[0])
      ensures Abs() == Filled(old(Abs()), page)
    {
      r := KAlloc();
      if r.Some? { mem := mem[r.value := page]; }
    }

    /** Frees a frame that could not be mapped. */
    method GiveBack(root: nat, f: nat, page: Page, ghost s: State, ghost t: State)
      requires Valid() && s.free != [] && f == s.free[0] < |s.mem| && f !in s.owner
      requires t == Filled(s, page) && OnlyTables(t, Abs(), root)
      modifies this`mem, this`free, this`owner
      ensures Valid() && OnlyTables(s, Abs(), root)
    {
      GiveAdded(s, t, Abs(), managed, page, root);
      KFree(f);
    }

    method MapFilled(root: nat, vpn: nat, f: nat, page: Page, perm: nat, ghost s: State, ghost next: nat)
      returns (ok: bool)
      requires next == vpn + 1
      requires Valid() && Node(root, 2, 0) in tab && vpn < MAXVPN && Va(root, vpn) !in s.leaves
      requires LeafFlags(WithV(perm))
      requires Abs() == Filled(s, page) && s.free != [] && f == s.free[0] < |s.mem| && f !in s.owner
      modifies this`mem, this`free, this`tab, this`owner, this`leaves
      ensures Valid()
      ensures ok ==> PageIs(Abs(), Va(root, vpn), page, WithV(perm)) && Grew(s, Abs(), root, vpn, next)
      ensures !ok ==> OnlyTables(s, Abs(), root) && leaves == s.leaves
      ensures ok <==> |s.free| > Missing(s.tab.Keys, Va(root, vpn))
      ensures ok ==> Took(s, Abs(), Va(root, vpn), 1)
    {
      ghost var t := Abs();
      assert t.leaves == s.leaves && t.tab == s.tab;
      ok := MapOne(root, vpn, f, perm);
      ghost var u := Abs();
      FilledCounts(s, t, u, page, Va(root, vpn));
      if ok {
        owner := owner[f := PageOf(Va(root, vpn))];
        OwnAdded(s, t, u, Abs(), managed, root, vpn, next, page, WithV(perm));
      } else {
        GiveBack(root, f, page, s, t);
      }
    }

    /** One round of `uvmalloc` or `uvmcopy`: a frame with the given contents becomes a page, or is given back. */
    method AddPage(root: nat, vpn: nat, page: Page, perm: nat, ghost next: nat) returns (ok: bool)
      requires next == vpn + 1
      requires Valid() && Node(root, 2, 0) in tab && vpn < MAXVPN && Va(root, vpn) !in leaves && LeafFlags(WithV(perm))
      modifies this`mem, this`free, this`tab, this`owner, this`leaves
      ensures Valid()
      ensures ok ==> PageIs(Abs(), Va(root, vpn), page, WithV(perm)) && Grew(old(Abs()), Abs(), root, vpn, next)
      ensures !ok ==> OnlyTables(old(Abs()), Abs(), root) && leaves == old(leaves)
      ensures ok <==> |old(free)| > Missing(old(tab).Keys, Va(root, vpn))
      ensures ok ==> Took(old(Abs()), Abs(), Va(root, vpn), 1)
    {
      ghost var s := Abs();
      if free != [] { FilledKeeps(s, managed, page); }
      var f := TakePage(page);
      if f.None? { return false; }
      ok := MapFilled(root, vpn, f.value, page, perm, s, next);
    }

    /** One round of `uvmalloc`; on failure only tables were added. */
    method GrowNext(root: nat, a: nat, ghost s: State, ghost first: nat, ghost next: nat) returns (ok: bool)
      requires Valid() && Node(root, 2, 0) in s.tab && first <= a < MAXVPN && next == a + 1 && Va(root, a) !in s.leaves
      requires Grew(s, Abs(), root, first, a) && AllZero(Abs(), root, first, a)
      modifies this`mem, this`free, this`tab, this`owner, this`leaves
      ensures Valid()
      ensures ok ==> Grew(s, Abs(), root, first, next) && AllZero(Abs(), root, first, next)
      ensures !ok ==> Grew(s, Abs(), root, first, a)
      ensures ok <==> |old(free)| > Missing(old(tab).Keys, Va(root, a))
      ensures ok ==> Took(old(Abs()), Abs(), Va(root, a), 1)
    {
      ghost var t := Abs();
      AllPermissions();
      ok := AddPage(root, a, ZeroPage(), PTE_W + PTE_X + PTE_R + PTE_U, next);
      if ok {
        GrewMore(s, t, Abs(), root, first, a, next);
        AllZeroMore(t, Abs(), root, first, a, next);
      } else {
        GrewTables(s, t, Abs(), root, first, a);
      }
    }

    /** Takes back the pages `first` to `a - 1` that were added since `s`. */
    method Undo(root: nat, first: nat, a: nat, ghost s: State)
      requires Valid() && Node(root, 2, 0) in s.tab && first <= a <= MAXVPN && Ok(s, managed)
      requires Grew(s, Abs(), root, first, a)
      modifies this`mem, this`free, this`tab, this`owner, this`leaves
      ensures Valid() && OnlyTables(s, Abs(), root) && leaves == s.leaves
    {
      ghost var t := Abs();
      if first < a {
        var last := a - 1;
        GrewStopsAt(s, t, root, first, last, a);
        var ok := UnmapAll(root, first, last, a, a);
        PagesAreMapped(s, managed);
        GrewThenDropped(s, t, Abs(), root, first, a);
      } else {
        GrewNothing(s, t, root, a);
      }
    }

    /** One round of `uvmalloc`; on failure, what the earlier rounds did is undone. */
    method GrowOrUndo(root: nat, a: nat, ghost s: State, first: nat, ghost next: nat) returns (ok: bool)
      requires Valid() && Node(root, 2, 0) in s.tab && first <= a < MAXVPN && next == a + 1 && Va(root, a) !in s.leaves
      requires Ok(s, managed) && Grew(s, Abs(), root, first, a) && AllZero(Abs(), root, first, a)
      modifies this`mem, this`free, this`tab, this`owner, this`leaves
      ensures Valid()
      ensures ok ==> Grew(s, Abs(), root, first, next) && AllZero(Abs(), root, first, next)
      ensures !ok ==> OnlyTables(s, Abs(), root) && leaves == s.leaves
      ensures ok <==> |old(free)| > Missing(old(tab).Keys, Va(root, a))
      ensures ok ==> Took(old(Abs()), Abs(), Va(root, a), 1)
    {
      ok := GrowNext(root, a, s, first, next);
      if !ok { Undo(root, first, a, s); }
    }

    /** The loop of `uvmalloc`, from page `first` on, up to page `end - 1`. */
    method GrowAll(root: nat, first: nat, newsz: nat, ghost end: nat) returns (ok: bool)
      requires Valid() && Node(root, 2, 0) in tab && end == Pages(newsz) <= MAXVPN && first <= end
      requires NoneMapped(leaves, root, first, end)
      modifies this`mem, this`free, this`tab, this`owner, this`leaves
      ensures Valid()
      ensures ok ==> Grew(old(Abs()), Abs(), root, first, end) && AllZero(Abs(), root, first, end)
      ensures !ok ==> OnlyTables(old(Abs()), Abs(), root) && leaves == old(leaves)
      ensures ok <==> |old(free)| >= Needed(old(tab).Keys, root, first, end)
    {
      ghost var s := Abs();
      GrewNone(s, root, first);
      var a := first;
      while a * PGSIZE < newsz
        invariant first <= a <= end && Node(root, 2, 0) in tab
        invariant Valid() && Grew(s, Abs(), root, first, a) && AllZero(Abs(), root, first, a)
        invariant |s.free| >= Needed(s.tab.Keys, root, first, end) <==> |free| >= Needed(tab.Keys, root, a, end)
        decreases end - a
      {
        PagesCount(newsz, a);
        var next := a + 1;
        ghost var t := Abs();
        assert Va(root, a) !in s.leaves;
        ok := GrowOrUndo(root, a, s, first, next);
        if !ok { return; }
        NeededStep(t, Abs(), root, a, next, end);
        a := next;
      }
      PagesCount(newsz, a);
      assert a == end;
      ok := true;
    }

    // Grows from `oldsz` to `newsz` by pages of zeros on new frames; if that fails, the map is as it was and only page
    // tables have been added.
    method UvmAlloc(root: nat, oldsz: nat, newsz: nat) returns (r: nat, ghost failed: bool)
      requires Valid() && Node(root, 2, 0) in tab && newsz <= MAXVPN * PGSIZE
      requires NoneMapped(leaves, root, Pages(oldsz), Pages(newsz))
      modifies this`mem, this`free, this`tab, this`owner, this`leaves
      ensures Valid() && r == if newsz < oldsz then oldsz else if failed then 0 else newsz
      ensures newsz < oldsz ==> Abs() == old(Abs())
      ensures newsz >= oldsz && !failed ==>
        Grew(old(Abs()), Abs(), root, Pages(oldsz), Pages(newsz)) && AllZero(Abs(), root, Pages(oldsz), Pages(newsz))
      ensures newsz >= oldsz && failed ==> OnlyTables(old(Abs()), Abs(), root) && leaves == old(leaves)
      ensures newsz >= oldsz ==> (failed <==> |old(free)| < Needed(old(tab).Keys, root, Pages(oldsz), Pages(newsz)))
    {
      failed := false;
      if newsz < oldsz { return oldsz, false; }
      PagesGrow(oldsz, newsz);
      var ok := GrowAll(root, Pages(oldsz), newsz, Pages(newsz));
      r := if ok then newsz else 0;
      failed := !ok;
    }

    /** Shrinks from `oldsz` to `newsz`: the pages that the bytes in between touch are unmapped, and it panics
        exactly if one of them is not mapped.  All pages that still hold bytes are kept exactly if the new size is
        aligned. */
    method UvmDealloc(root: nat, oldsz: nat, newsz: nat) returns (r: nat, ok: bool)
      requires Valid() && Node(root, 2, 0) in tab && oldsz < UINT64_LIMIT
      requires Freeable(Abs(), root, newsz / PGSIZE, Pages(oldsz))
      modifies this`mem, this`free, this`tab, this`owner, this`leaves
      ensures Valid() && r == if newsz >= oldsz then oldsz else newsz
      ensures newsz >= oldsz ==> ok && Abs() == old(Abs())
      ensures newsz < oldsz ==>
        (ok <==> Pages(oldsz) <= MAXVPN && AllOwned(old(Abs()), root, newsz / PGSIZE, Pages(oldsz)))
      ensures newsz < oldsz && ok ==>
        && Dropped(old(Abs()), Abs(), root, newsz / PGSIZE, Pages(oldsz))
        && (KeepsPages(old(leaves), leaves, root, Pages(newsz)) <==> newsz % PGSIZE == 0)
    {
      if newsz >= oldsz { return oldsz, true; }
      r := newsz;
      ghost var s, first, end := Abs(), newsz / PGSIZE, Pages(oldsz);
      ghost var stop := ShrinkStopsAt(s, root, oldsz, newsz, first, end);
      ok := UvmUnmap(root, newsz, oldsz - newsz, first, end - 1, stop, if end - 1 < stop then end else stop);
      if ok { ShrinkKeepsPagesIff(s, Abs(), root, oldsz, newsz, first, end); }
    }

    // ------------------------------------------------------------ uvmcopy

    /** The contents and the flags of a mapped page. */
    method ReadPage(root: nat, vpn: nat) returns (page: Page, flags: nat)
      requires Valid() && Node(root, 2, 0) in tab && vpn < MAXVPN && Va(root, vpn) in leaves
      requires leaves[Va(root, vpn)].ppn < |mem|
      modifies this`mem, this`free, this`tab, this`owner
      ensures Abs() == old(Abs())
      ensures flags == leaves[Va(root, vpn)].flags && page == mem[leaves[Va(root, vpn)].ppn] && WithV(flags) == flags
      ensures LeafFlags(flags)
    {
      LeafReads(Abs(), managed, root, vpn);
      var t := Walk(root, vpn, false);
      var pte := mem[t.value][Px(0, vpn)];
      assert PageTable.Valid(pte);
      page, flags := mem[Frame(pte)], Flags(pte);
    }

    /** One round of `uvmcopy`. */
    method CopyNext(parent: nat, child: nat, a: nat, ghost s: State, ghost next: nat) returns (ok: bool)
      requires Valid() && Node(parent, 2, 0) in s.tab && Node(child, 2, 0) in s.tab && parent != child && a < MAXVPN
      requires next == a + 1
      requires Ok(s, managed) && Owns(s, Va(parent, a)) && Va(child, a) !in s.leaves
      requires Grew(s, Abs(), child, 0, a) && AllCopied(s, Abs(), parent, child, a)
      modifies this`mem, this`free, this`tab, this`owner, this`leaves
      ensures Valid()
      ensures ok ==> Grew(s, Abs(), child, 0, next) && AllCopied(s, Abs(), parent, child, next)
      ensures !ok ==> Grew(s, Abs(), child, 0, a)
      ensures ok <==> |old(free)| > Missing(old(tab).Keys, Va(child, a))
      ensures ok ==> Took(old(Abs()), Abs(), Va(child, a), 1)
    {
      ghost var t, v := Abs(), Va(parent, a);
      UnmapReads(s, managed, v);
      ParentStays(s, t, child, 0, a, v);
      var page, flags := ReadPage(parent, a);
      ok := AddPage(child, a, page, flags, next);
      if ok {
        GrewMore(s, t, Abs(), child, 0, a, next);
        AllCopiedMore(s, t, Abs(), parent, child, a, next);
      } else {
        GrewTables(s, t, Abs(), child, 0, a);
      }
    }

    /** The loop of `uvmcopy`, over the pages below `end`; `k` is the page it failed at. */
    method CopyAll(parent: nat, child: nat, sz: nat, ghost end: nat) returns (ok: bool, k: nat)
      requires Valid() && Node(parent, 2, 0) in tab && Node(child, 2, 0) in tab && parent != child
      requires end == Pages(sz) <= MAXVPN
      requires AllOwned(Abs(), parent, 0, end) && NoneMapped(leaves, child, 0, end)
      modifies this`mem, this`free, this`tab, this`owner, this`leaves
      ensures Valid()
      ensures ok ==> Grew(old(Abs()), Abs(), child, 0, end) && AllCopied(old(Abs()), Abs(), parent, child, end)
      ensures !ok ==> k < end && Grew(old(Abs()), Abs(), child, 0, k)
      ensures ok <==> |old(free)| >= Needed(old(tab).Keys, child, 0, end)
      ensures !ok && k == 0 <==> sz > 0 && |old(free)| <= Missing(old(tab).Keys, Va(child, 0))
    {
      ghost var s := Abs();
      GrewNone(s, child, 0);
      k := 0;
      while k * PGSIZE < sz
        invariant 0 <= k <= end && Valid() && Grew(s, Abs(), child, 0, k) && AllCopied(s, Abs(), parent, child, k)
        invariant |s.free| >= Needed(s.tab.Keys, child, 0, end) <==> |free| >= Needed(tab.Keys, child, k, end)
        invariant if k == 0 then Abs() == s else |s.free| > Missing(s.tab.Keys, Va(child, 0))
        decreases end - k
      {
        PagesCount(sz, k);
        var next := k + 1;
        ghost var t := Abs();
        assert Owns(s, Va(parent, k)) && Va(child, k) !in s.leaves;
        ok := CopyNext(parent, child, k, s, next);
        if !ok { return; }
        NeededStep(t, Abs(), child, k, next, end);
        k := next;
      }
      PagesCount(sz, k);
      assert k == end;
      ok := true;
    }

    /** What `uvmcopy` does after it failed at page `k`. */
    method UndoCopy(child: nat, k: nat, ghost s: State, ghost n: nat) returns (ok: bool)
      requires Valid() && Ok(s, managed) && Node(child, 2, 0) in s.tab && Grew(s, Abs(), child, 0, k)
      requires k < n <= MAXVPN && NoneMapped(s.leaves, child, 0, n)
      modifies this`mem, this`free, this`tab, this`owner, this`leaves
      ensures Valid() && OnlyTables(s, Abs(), child) && leaves == s.leaves && (ok <==> k > 0)
    {
      ghost var t := Abs();
      ghost var last := CopiedStopsAt(s, t, child, k, n);
      ok := UvmUnmap(child, 0, k * PGSIZE, 0, last, k, k);
      PagesAreMapped(s, managed);
      GrewThenDropped(s, t, Abs(), child, 0, k);
    }

    // The child gets a copy of every page, byte for byte and with the same flags, on frames of its own; the parent is
    // unchanged.  Without memory for a later page, the child is left without pages; without memory for the first
    // page, the kernel panics.
    method UvmCopy(parent: nat, child: nat, sz: nat) returns (r: CopyResult)
      requires Valid() && Node(parent, 2, 0) in tab && Node(child, 2, 0) in tab && parent != child
      requires sz <= MAXVPN * PGSIZE
      requires AllOwned(Abs(), parent, 0, Pages(sz)) && NoneMapped(leaves, child, 0, Pages(sz))
      modifies this`mem, this`free, this`tab, this`owner, this`leaves
      ensures Valid()
      ensures r == Copied ==>
        Grew(old(Abs()), Abs(), child, 0, Pages(sz)) && AllCopied(old(Abs()), Abs(), parent, child, Pages(sz))
      ensures r != Copied ==> OnlyTables(old(Abs()), Abs(), child) && leaves == old(leaves) && sz > 0
      ensures r == Copied <==> |old(free)| >= Needed(old(tab).Keys, child, 0, Pages(sz))
      ensures r == Panicked <==> sz > 0 && |old(free)| <= Missing(old(tab).Keys, Va(child, 0))
    {
      ghost var s := Abs();
      PagesGrow(0, sz);
      var ok, k := CopyAll(parent, child, sz, Pages(sz));
      if ok { return Copied; }
      ok := UndoCopy(child, k, s, Pages(sz));
      r := if ok then NoMemory else Panicked;
    }

    // ------------------------------------------------------------ freewalk, uvmfree

    /** Handles entry `i` of table `n`. */
    method FreeEntry(t: nat, i: nat, ghost n: Node, ghost s: State, ghost next: nat)
      requires CanFree(s, n, managed) && t == s.tab[n] && Freeing(s, Abs(), n, i, t, managed) && i < ENTRIES
      requires next == i + 1
      modifies this`mem, this`free, this`tab, this`owner
      ensures Freeing(s, Abs(), n, next, t, managed)
      decreases n.level, 1
    {
      ghost var u := Abs();
      EntryOfTree(s, u, n, i, t, managed);
      var pte := mem[t][i];
      if TablePointer(pte) {
        FreeChild(t, i, n, s, next);
      } else {
        assert !PageTable.Valid(pte);
        EmptyEntry(s, u, n, i, t, next, managed);
      }
    }

    method FreeChild(t: nat, i: nat, ghost n: Node, ghost s: State, ghost next: nat)
      requires CanFree(s, n, managed) && t == s.tab[n] && Freeing(s, Abs(), n, i, t, managed) && i < ENTRIES
      requires next == i + 1
      requires n.level > 0 && Child(n, i) in s.tab && Frame(mem[t][i]) == s.tab[Child(n, i)]
      modifies this`mem, this`free, this`tab, this`owner
      ensures Freeing(s, Abs(), n, next, t, managed)
      decreases n.level, 0
    {
      ghost var u, c := Abs(), Child(n, i);
      ChildCanFree(s, u, n, i, t, managed);
      var child := Frame(mem[t][i]);
      FreeWalk(child, c);
      ghost var w := Abs();
      ChildFrameGone(u, w, c, child);
      OwnFrameStays(s, u, w, n, i, t, child);
      mem := SetEntry(mem, t, i, 0);
      ChildFreed(s, u, w, Abs(), n, i, t, child, next, managed);
    }

    /** Frees a table and all tables below it, bottom up. */
    method FreeWalk(t: nat, ghost n: Node)
      requires CanFree(Abs(), n, managed) && t == tab[n]
      modifies this`mem, this`free, this`tab, this`owner
      ensures Pruned(old(Abs()), Abs(), n, ENTRIES, true, t) && FreeOk(free, owner, managed)
      decreases n.level, 2
    {
      ghost var s := Abs();
      FreeingStarts(s, n, managed);
      var i := 0;
      while i < ENTRIES
        invariant 0 <= i <= ENTRIES && Freeing(s, Abs(), n, i, t, managed)
      {
        var next := i + 1;
        FreeEntry(t, i, n, s, next);
        i := next;
      }
      SelfFreed(s, Abs(), n, t, managed);
      KFree(t);
      tab := tab - {n};
    }

    /** Frees all tables of an address space without pages. */
    method FreeSpace(root: nat)
      requires Valid() && Node(root, 2, 0) in tab && NoLeaves(Abs(), root)
      modifies this`mem, this`free, this`tab, this`owner
      ensures Valid() && leaves == old(leaves) && TablesGone(old(Abs()), Abs(), root)
    {
      ghost var s, n := Abs(), Node(root, 2, 0);
      assert Rooted(tab, n);
      SpaceCanBeFreed(s, root, managed);
      FreeWalk(root, n);
      RootFreed(s, Abs(), root, managed);
      OnlyItsTables(s, Abs(), root, managed);
    }

    /** Frees the rest of an address space whose pages below `n` were just unmapped. */
    method FreeUnmapped(root: nat, ghost s: State, ghost n: nat)
      requires Valid() && Node(root, 2, 0) in tab && Ok(s, managed) && Dropped(s, Abs(), root, 0, n)
      requires forall v | v in s.leaves && v.root == root :: v.vpn < n
      modifies this`mem, this`free, this`tab, this`owner, this`leaves
      ensures Valid() && SpaceGone(s, Abs(), root)
    {
      ghost var t := Abs();
      NoneLeft(s, t, root, n);
      FreeSpace(root);
      PagesAreMapped(s, managed);
      NothingLeft(s, t, Abs(), root, n);
    }

    // Frees an address space without pages beyond its size: afterwards nothing belongs to it, and everything else is as
    // it was.  Panics if a page is missing, and always if the size is 0.
    method UvmFree(root: nat, sz: nat) returns (ok: bool)
      requires Valid() && Node(root, 2, 0) in tab && sz < UINT64_LIMIT && Freeable(Abs(), root, 0, Pages(sz))
      requires forall v | v in leaves && v.root == root :: v.vpn < Pages(sz)
      modifies this`mem, this`free, this`tab, this`owner, this`leaves
      ensures Valid() && (ok <==> 0 < sz && Pages(sz) <= MAXVPN && AllOwned(old(Abs()), root, 0, Pages(sz)))
      ensures ok ==> SpaceGone(old(Abs()), Abs(), root)
    {
      ghost var s, n := Abs(), Pages(sz);
      ghost var last, stop, end := SizeStopsAt(s, root, sz, n);
      ok := UvmUnmap(root, 0, sz, 0, last, stop, end);
      if ok { FreeUnmapped(root, s, n); }
    }
  }
}
