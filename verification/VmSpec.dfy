/** What the functions of kernel/kalloc.c and kernel/vm.c do to physical memory, as functions on states. */
module VmSpec {
  import opened Common
  import opened PageTable

  /** The byte 5, or 1, in every place of a word. */
  const JUNK_ALLOC: nat := 0x0505_0505_0505_0505
  const JUNK_FREE: nat := 0x0101_0101_0101_0101

  function Junk(w: nat): (r: Page)
    ensures |r| == ENTRIES && forall x | x in r :: x == w
  {
    seq(ENTRIES, _ => w)
  }

  datatype State = State(mem: Mem, free: seq<nat>, tab: map<Node, nat>, leaves: map<Va, Leaf>, owner: map<nat, Role>)

  ghost predicate Ok(s: State, managed: set<nat>) {
    && TablesOk(s.mem, s.tab, s.leaves, s.owner) && FreeOk(s.free, s.owner, managed)
    && forall f | f in managed :: f < |s.mem|
  }

  predicate TableIn(r: Role, root: nat) {
    r.TableOf? && r.n.root == root
  }

  /** From `s` to `t` only page tables of `root` were added: nothing else changed its role or its contents. */
  ghost predicate OnlyTables(s: State, t: State, root: nat) {
    && |t.mem| == |s.mem|
    && (forall n | n in s.tab :: n in t.tab && t.tab[n] == s.tab[n])
    && (forall f | f in s.owner :: f in t.owner && t.owner[f] == s.owner[f])
    && (forall f | f in t.owner && f !in s.owner :: TableIn(t.owner[f], root))
    && (forall f | f in s.owner && f < |s.mem| && !TableIn(s.owner[f], root) :: t.mem[f] == s.mem[f])
  }

  lemma OnlyTablesTwice(s: State, t: State, u: State, root: nat)
    requires OnlyTables(s, t, root) && OnlyTables(t, u, root)
    ensures OnlyTables(s, u, root)
  {
  }

  /** Page `v` is mapped to a frame of its own. */
  ghost predicate Owns(s: State, v: Va) {
    v in s.leaves && s.leaves[v].ppn in s.owner && s.owner[s.leaves[v].ppn] == PageOf(v)
  }

  // Every managed frame is free or in use and never both; no two tables, no two owned pages, and no table and owned
  // page share a frame.
  lemma FramesPartition(s: State, managed: set<nat>)
    requires Ok(s, managed)
    ensures forall f | f in managed :: (f in s.free) != (f in s.owner)
    ensures forall n, m | n in s.tab && m in s.tab && s.tab[n] == s.tab[m] :: n == m
    ensures forall n, v | n in s.tab && Owns(s, v) :: s.tab[n] != s.leaves[v].ppn
    ensures forall v, w | Owns(s, v) && Owns(s, w) && s.leaves[v].ppn == s.leaves[w].ppn :: v == w
  {
    forall n, m | n in s.tab && m in s.tab && s.tab[n] == s.tab[m] ensures n == m {
      assert s.owner[s.tab[n]] == TableOf(n) && s.owner[s.tab[m]] == TableOf(m);
    }
  }

  // ---------------------------------------------------------------- kalloc and kfree

  /** The first free frame is taken. */
  function Taken(s: State): State {
    if s.free == [] || s.free[0] >= |s.mem| then s
    else s.(free := s.free[1..], owner := s.owner[s.free[0] := Held], mem := s.mem[s.free[0] := Junk(JUNK_ALLOC)])
  }

  /** Frame `f` is given back. */
  function Given(s: State, f: nat): State {
    if f >= |s.mem| then s
    else s.(free := [f] + s.free, owner := s.owner - {f}, mem := s.mem[f := Junk(JUNK_FREE)])
  }

  lemma TakeFirst(free: seq<nat>, owner: map<nat, Role>, managed: set<nat>)
    requires FreeOk(free, owner, managed) && free != []
    ensures FreeOk(free[1..], owner[free[0] := Held], managed)
  {
    forall f | f in managed ensures f in free[1..] || f in owner[free[0] := Held] {
      if f in free && f != free[0] {
        var i :| 0 <= i < |free| && free[i] == f;
        assert free[1..][i - 1] == f;
      }
    }
  }

  lemma AllocKeeps(s: State, managed: set<nat>)
    requires Ok(s, managed) && s.free != []
    ensures s.free[0] < |s.mem| && s.free[0] !in s.owner && Ok(Taken(s), managed)
  {
    var f := s.free[0];
    assert f in s.free;
    HoldKeeps(s.mem, s.tab, s.leaves, s.owner, f);
    FillKeeps(s.mem, s.tab, s.leaves, s.owner[f := Held], f, Junk(JUNK_ALLOC));
    TakeFirst(s.free, s.owner, managed);
  }

  lemma PutFirst(free: seq<nat>, owner: map<nat, Role>, managed: set<nat>, f: nat)
    requires FreeOk(free, owner, managed) && f in owner
    ensures FreeOk([f] + free, owner - {f}, managed)
  {
    var more := [f] + free;
    assert forall g | g in free :: g in more;
  }

  lemma FreeKeeps(s: State, managed: set<nat>, f: nat)
    requires Ok(s, managed) && f in s.owner && !s.owner[f].TableOf?
    ensures f < |s.mem| && Ok(Given(s, f), managed)
  {
    var page := Junk(JUNK_FREE);
    FillKeeps(s.mem, s.tab, s.leaves, s.owner, f, page);
    HoldKeeps(s.mem[f := page], s.tab, s.leaves, s.owner, f);
    PutFirst(s.free, s.owner, managed, f);
  }

  // ---------------------------------------------------------------- walk

  lemma EntryReads(s: State, managed: set<nat>, root: nat, vpn: nat, level: nat)
    requires Ok(s, managed) && 1 <= level <= 2 && vpn < MAXVPN && OnPath(root, level, vpn) in s.tab
    ensures var t, c := s.tab[OnPath(root, level, vpn)], OnPath(root, level - 1, vpn);
            && t < |s.mem| && |s.mem[t]| == ENTRIES
            && (PageTable.Valid(s.mem[t][Px(level, vpn)]) <==> c in s.tab)
            && (c in s.tab ==> Frame(s.mem[t][Px(level, vpn)]) == s.tab[c])
  {
    var n, c := OnPath(root, level, vpn), OnPath(root, level - 1, vpn);
    PathStep(root, level, vpn);
    assert NodeOk(s.mem[s.tab[n]], s.tab, s.leaves, n);
    assert s.mem[s.tab[n]][Px(level, vpn)] == Word(s.tab, s.leaves, n, Px(level, vpn));
    if c in s.tab { EncodeDecodes(s.tab[c], PTE_V); }
  }

  ghost predicate CanLink(s: State, root: nat, vpn: nat, level: nat) {
    && s.free != [] && 1 <= level && OnPath(root, level, vpn) in s.tab
    && var t := s.tab[OnPath(root, level, vpn)];
       s.free[0] < |s.mem| && t < |s.mem| && t != s.free[0] && |s.mem[t]| == ENTRIES && s.free[0] !in s.owner
  }

  /** A fresh table for `level - 1` on the path, linked into its parent. */
  ghost function Linked(s: State, root: nat, vpn: nat, level: nat): State
    requires CanLink(s, root, vpn, level)
  {
    var f, t, c := s.free[0], s.tab[OnPath(root, level, vpn)], OnPath(root, level - 1, vpn);
    State(SetEntry(s.mem[f := ZeroPage()], t, Px(level, vpn), Encode(f, PTE_V)), s.free[1..], s.tab[c := f], s.leaves,
          s.owner[f := TableOf(c)])
  }

  lemma LinkFits(s: State, managed: set<nat>, root: nat, vpn: nat, level: nat)
    requires Ok(s, managed) && s.free != [] && 1 <= level <= 2 && OnPath(root, level, vpn) in s.tab
    ensures CanLink(s, root, vpn, level)
  {
    var n := OnPath(root, level, vpn);
    assert s.free[0] in s.free;
    assert NodeOk(s.mem[s.tab[n]], s.tab, s.leaves, n);
  }

  lemma RoleAfterHold(free: seq<nat>, owner: map<nat, Role>, managed: set<nat>, f: nat, r: Role)
    requires FreeOk(free, owner, managed) && f in owner
    ensures FreeOk(free, owner[f := r], managed)
  {
  }

  lemma LinkOnlyTables(s: State, root: nat, vpn: nat, level: nat)
    requires CanLink(s, root, vpn, level) && OnPath(root, level - 1, vpn) !in s.tab
    requires var n := OnPath(root, level, vpn); s.tab[n] in s.owner && s.owner[s.tab[n]] == TableOf(n)
    ensures OnlyTables(s, Linked(s, root, vpn, level), root)
  {
  }

  lemma LinkTaken(s: State, managed: set<nat>, root: nat, vpn: nat, level: nat)
    requires Ok(s, managed) && CanLink(s, root, vpn, level) && level <= 2 && vpn < MAXVPN
    requires OnPath(root, level - 1, vpn) !in s.tab
    ensures Ok(Linked(s, root, vpn, level), managed) && OnlyTables(s, Linked(s, root, vpn, level), root)
  {
    var f, c := s.free[0], OnPath(root, level - 1, vpn);
    var mem, owner := s.mem[f := ZeroPage()], s.owner[f := Held];
    HoldKeeps(s.mem, s.tab, s.leaves, s.owner, f);
    FillKeeps(s.mem, s.tab, s.leaves, owner, f, ZeroPage());
    PathStep(root, level, vpn);
    LinkKeeps(mem, s.tab, s.leaves, owner, OnPath(root, level, vpn), Px(level, vpn), f);
    assert owner[f := TableOf(c)] == s.owner[f := TableOf(c)];
    TakeFirst(s.free, s.owner, managed);
    RoleAfterHold(s.free[1..], owner, managed, f, TableOf(c));
    LinkOnlyTables(s, root, vpn, level);
  }

  /** One level of `walk` with allocation. */
  ghost function Down(s: State, root: nat, vpn: nat, level: nat): State {
    if level < 1 || OnPath(root, level - 1, vpn) in s.tab || !CanLink(s, root, vpn, level) then s
    else Linked(s, root, vpn, level)
  }

  /** `walk` with allocation, down to the table at `level`. */
  ghost function WalkedTo(s: State, root: nat, vpn: nat, level: nat): State
    decreases 2 - level
  {
    if level >= 2 then s else Down(WalkedTo(s, root, vpn, level + 1), root, vpn, level + 1)
  }

  ghost function Walked(s: State, root: nat, vpn: nat): State {
    WalkedTo(s, root, vpn, 0)
  }

  lemma DownKeeps(s: State, managed: set<nat>, root: nat, vpn: nat, level: nat)
    requires Ok(s, managed) && 1 <= level <= 2 && vpn < MAXVPN
    ensures Ok(Down(s, root, vpn, level), managed) && OnlyTables(s, Down(s, root, vpn, level), root)
    ensures Down(s, root, vpn, level).leaves == s.leaves
    ensures OnPath(root, level, vpn) in s.tab && s.free != [] ==>
      OnPath(root, level - 1, vpn) in Down(s, root, vpn, level).tab
  {
    if OnPath(root, level, vpn) in s.tab && s.free != [] { LinkFits(s, managed, root, vpn, level); }
    if OnPath(root, level - 1, vpn) !in s.tab && CanLink(s, root, vpn, level) {
      LinkTaken(s, managed, root, vpn, level);
    }
  }

  lemma {:induction false} WalkedToKeeps(s: State, managed: set<nat>, root: nat, vpn: nat, level: nat)
    requires Ok(s, managed) && vpn < MAXVPN
    ensures Ok(WalkedTo(s, root, vpn, level), managed) && OnlyTables(s, WalkedTo(s, root, vpn, level), root)
    ensures WalkedTo(s, root, vpn, level).leaves == s.leaves
    decreases 2 - level
  {
    if level < 2 {
      var t := WalkedTo(s, root, vpn, level + 1);
      WalkedToKeeps(s, managed, root, vpn, level + 1);
      DownKeeps(t, managed, root, vpn, level + 1);
      OnlyTablesTwice(s, t, WalkedTo(s, root, vpn, level), root);
    }
  }

  lemma WalkedToOk(s: State, managed: set<nat>, root: nat, vpn: nat, level: nat)
    requires Ok(s, managed) && vpn < MAXVPN
    ensures Ok(WalkedTo(s, root, vpn, level), managed)
  {
    WalkedToKeeps(s, managed, root, vpn, level);
  }

  // `walk` leaves the map of pages as it is, and only adds tables.
  lemma WalkedKeeps(s: State, managed: set<nat>, root: nat, vpn: nat)
    requires Ok(s, managed) && vpn < MAXVPN
    ensures Ok(Walked(s, root, vpn), managed) && OnlyTables(s, Walked(s, root, vpn), root)
    ensures Walked(s, root, vpn).leaves == s.leaves
  {
    WalkedToKeeps(s, managed, root, vpn, 0);
  }

  // If the walk stopped on the way, the rest of it changes nothing.
  lemma WalkStops(s: State, root: nat, vpn: nat, level: nat)
    requires level <= 1 && OnPath(root, level, vpn) !in WalkedTo(s, root, vpn, level).tab
    ensures Walked(s, root, vpn) == WalkedTo(s, root, vpn, level)
  {
    if level == 1 {
      assert WalkedTo(s, root, vpn, 0) == Down(WalkedTo(s, root, vpn, 1), root, vpn, 1);
    }
  }

  lemma NoPath(tab: map<Node, nat>, leaves: map<Va, Leaf>, root: nat, vpn: nat, level: nat)
    requires ShapeOk(tab, leaves) && level <= 1 && vpn < MAXVPN && OnPath(root, level, vpn) !in tab
    ensures LeafNode(Va(root, vpn)) !in tab
  {
    PathStep(root, 1, vpn);
    LeafIndex(root, vpn);
    assert OnPath(root, 0, vpn) in tab ==> Rooted(tab, OnPath(root, 0, vpn));
  }

  /** How many tables the walk to a page must allocate. */
  function Missing(nodes: set<Node>, v: Va): nat {
    (if OnPath(v.root, 1, v.vpn) in nodes then 0 else 1) + (if OnPath(v.root, 0, v.vpn) in nodes then 0 else 1)
  }

  /** The tables below the root on the way to a page. */
  function PathOf(v: Va): set<Node> {
    {OnPath(v.root, 1, v.vpn), OnPath(v.root, 0, v.vpn)}
  }

  /** How many frames the pages `a` to `b - 1` need, with their tables. */
  function Needed(nodes: set<Node>, root: nat, a: nat, b: nat): nat
    decreases b - a
  {
    if b <= a then 0 else 1 + Missing(nodes, Va(root, a)) + Needed(nodes + PathOf(Va(root, a)), root, a + 1, b)
  }

  /** From `s` to `t` the tables on the way to `v` and `extra` frames more were taken. */
  ghost predicate Took(s: State, t: State, v: Va, extra: nat) {
    |t.free| + extra + Missing(s.tab.Keys, v) == |s.free| && t.tab.Keys == s.tab.Keys + PathOf(v)
  }

  // One page less to add.
  lemma NeededStep(s: State, t: State, root: nat, a: nat, next: nat, end: nat)
    requires a < end && next == a + 1 && Took(s, t, Va(root, a), 1)
    ensures |s.free| >= Needed(s.tab.Keys, root, a, end) <==> |t.free| >= Needed(t.tab.Keys, root, next, end)
  {
  }

  /** A table is added if there is a frame, which it takes unless the table was there already. */
  ghost predicate Takes(before: set<Node>, after: set<Node>, m: nat, n: nat, c: Node) {
    && after == (if m == 0 then before else before + {c})
    && n == if c in before || m == 0 then m else m - 1
  }

  lemma TakenTwice(k0: set<Node>, k1: set<Node>, k2: set<Node>, f0: nat, f1: nat, f2: nat, a: Node, b: Node)
    requires a != b && (b in k0 ==> a in k0) && Takes(k0, k1, f0, f1, a)
    requires if a in k1 then Takes(k1, k2, f1, f2, b) else k2 == k1 && f2 == f1
    ensures var n := (if a in k0 then 0 else 1) + (if b in k0 then 0 else 1);
            (b in k2 <==> f0 >= n) && (f0 >= n ==> f2 == f0 - n && k2 == k0 + {a, b})
  {
  }

  lemma DownTakes(s: State, managed: set<nat>, root: nat, vpn: nat, level: nat)
    requires Ok(s, managed) && 1 <= level <= 2 && vpn < MAXVPN && OnPath(root, level, vpn) in s.tab
    ensures var t, c := Down(s, root, vpn, level), OnPath(root, level - 1, vpn);
            Takes(s.tab.Keys, t.tab.Keys, |s.free|, |t.free|, c)
  {
    if s.free != [] { LinkFits(s, managed, root, vpn, level); }
  }

  // A lower table on the way is there only if the upper one is.
  lemma UpperFirst(s: State, managed: set<nat>, v: Va)
    requires Ok(s, managed) && v.vpn < MAXVPN
    ensures OnPath(v.root, 0, v.vpn) in s.tab ==> OnPath(v.root, 1, v.vpn) in s.tab
  {
    PathStep(v.root, 1, v.vpn);
    assert OnPath(v.root, 0, v.vpn) in s.tab ==> Rooted(s.tab, OnPath(v.root, 0, v.vpn));
  }

  lemma WalkedInTwo(s: State, root: nat, vpn: nat)
    ensures Walked(s, root, vpn) == Down(Down(s, root, vpn, 2), root, vpn, 1)
  {
    assert WalkedTo(s, root, vpn, 1) == Down(WalkedTo(s, root, vpn, 2), root, vpn, 2);
  }

  // The walk succeeds exactly if there are enough frames for the tables that are missing, and takes no more.
  lemma WalkSucceedsIff(s: State, managed: set<nat>, v: Va)
    requires Ok(s, managed) && v.vpn < MAXVPN && Node(v.root, 2, 0) in s.tab
    ensures var t, n := Walked(s, v.root, v.vpn), Missing(s.tab.Keys, v);
            && (LeafNode(v) in t.tab <==> |s.free| >= n)
            && (|s.free| >= n ==> |t.free| == |s.free| - n && t.tab.Keys == s.tab.Keys + PathOf(v))
  {
    var t, u := Down(s, v.root, v.vpn, 2), Walked(s, v.root, v.vpn);
    var a, b := OnPath(v.root, 1, v.vpn), OnPath(v.root, 0, v.vpn);
    DownKeeps(s, managed, v.root, v.vpn, 2);
    DownTakes(s, managed, v.root, v.vpn, 2);
    LeafIndex(v.root, v.vpn);
    WalkedInTwo(s, v.root, v.vpn);
    UpperFirst(s, managed, v);
    if a in t.tab {
      DownTakes(t, managed, v.root, v.vpn, 1);
    } else {
      assert !CanLink(t, v.root, v.vpn, 1);
    }
    TakenTwice(s.tab.Keys, t.tab.Keys, u.tab.Keys, |s.free|, |t.free|, |u.free|, a, b);
  }

  lemma NoLeafNode(s: State, managed: set<nat>, root: nat, vpn: nat, level: nat)
    requires Ok(s, managed) && level <= 1 && vpn < MAXVPN && OnPath(root, level, vpn) !in s.tab
    ensures LeafNode(Va(root, vpn)) !in s.tab
  {
    NoPath(s.tab, s.leaves, root, vpn, level);
  }

  lemma LeafReads(s: State, managed: set<nat>, root: nat, vpn: nat)
    requires Ok(s, managed) && LeafNode(Va(root, vpn)) in s.tab
    ensures var t, v := s.tab[LeafNode(Va(root, vpn))], Va(root, vpn);
            && t < |s.mem| && |s.mem[t]| == ENTRIES
            && (PageTable.Valid(s.mem[t][Px(0, vpn)]) <==> v in s.leaves)
            && (v in s.leaves ==>
                  Frame(s.mem[t][Px(0, vpn)]) == s.leaves[v].ppn && Flags(s.mem[t][Px(0, vpn)]) == s.leaves[v].flags)
  {
    var v := Va(root, vpn);
    var n := LeafNode(v);
    LeafIndex(root, vpn);
    assert NodeOk(s.mem[s.tab[n]], s.tab, s.leaves, n);
    assert s.mem[s.tab[n]][Px(0, vpn)] == Word(s.tab, s.leaves, n, Px(0, vpn));
    if v in s.leaves { EncodeDecodes(s.leaves[v].ppn, s.leaves[v].flags); }
  }

  // ---------------------------------------------------------------- mapping a page

  ghost predicate HasEntry(s: State, v: Va) {
    LeafNode(v) in s.tab && s.tab[LeafNode(v)] < |s.mem| && |s.mem[s.tab[LeafNode(v)]]| == ENTRIES
  }

  /** The entry of `v` is written. */
  ghost function WithLeaf(s: State, v: Va, l: Leaf): State
    requires HasEntry(s, v)
  {
    s.(mem := SetEntry(s.mem, s.tab[LeafNode(v)], Px(0, v.vpn), Encode(l.ppn, l.flags)), leaves := s.leaves[v := l])
  }

  /** One round of `mappages`. */
  ghost function Mapped(s: State, v: Va, l: Leaf): State {
    var w := Walked(s, v.root, v.vpn);
    if HasEntry(w, v) then WithLeaf(w, v, l) else w
  }

  lemma HasEntryIff(s: State, managed: set<nat>, v: Va)
    requires Ok(s, managed)
    ensures HasEntry(s, v) <==> LeafNode(v) in s.tab
  {
    if LeafNode(v) in s.tab { assert NodeOk(s.mem[s.tab[LeafNode(v)]], s.tab, s.leaves, LeafNode(v)); }
  }

  lemma MappedHasTable(s: State, managed: set<nat>, v: Va)
    requires Ok(s, managed) && v in s.leaves
    ensures LeafNode(v) in s.tab && LeafFlags(s.leaves[v].flags)
  {
  }

  // Where the walk ends, there is an entry to write, and it is empty if the page is not mapped.
  lemma WalkedEntry(s: State, managed: set<nat>, v: Va)
    requires Ok(s, managed) && v.vpn < MAXVPN && v !in s.leaves
    ensures var w := Walked(s, v.root, v.vpn);
            && w.leaves == s.leaves && (HasEntry(w, v) <==> LeafNode(v) in w.tab)
            && (HasEntry(w, v) ==> !PageTable.Valid(w.mem[w.tab[LeafNode(v)]][Px(0, v.vpn)]))
  {
    var w := Walked(s, v.root, v.vpn);
    WalkedKeeps(s, managed, v.root, v.vpn);
    HasEntryIff(w, managed, v);
    if HasEntry(w, v) { LeafReads(w, managed, v.root, v.vpn); }
  }

  lemma WithLeafKeeps(s: State, managed: set<nat>, v: Va, l: Leaf)
    requires Ok(s, managed) && HasEntry(s, v) && v !in s.leaves && LeafFlags(l.flags)
    ensures Ok(WithLeaf(s, v, l), managed) && OnlyTables(s, WithLeaf(s, v, l), v.root)
  {
    MapKeeps(s.mem, s.tab, s.leaves, s.owner, v, l);
  }

  lemma MappedKeeps(s: State, managed: set<nat>, v: Va, l: Leaf)
    requires Ok(s, managed) && v.vpn < MAXVPN && v !in s.leaves && LeafFlags(l.flags)
    ensures var t := Mapped(s, v, l);
            && Ok(t, managed) && OnlyTables(s, t, v.root)
            && t.leaves == if HasEntry(Walked(s, v.root, v.vpn), v) then s.leaves[v := l] else s.leaves
  {
    var w := Walked(s, v.root, v.vpn);
    WalkedKeeps(s, managed, v.root, v.vpn);
    if HasEntry(w, v) {
      WithLeafKeeps(w, managed, v, l);
      OnlyTablesTwice(s, w, Mapped(s, v, l), v.root);
    }
  }

  /** The map after `k` pages from `a` on were mapped to the frames from `ppn` on. */
  ghost function MapRange(leaves: map<Va, Leaf>, root: nat, a: nat, ppn: nat, flags: nat, k: nat): map<Va, Leaf> {
    if k == 0 then leaves
    else MapRange(leaves, root, a, ppn, flags, k - 1)[Va(root, a + k - 1) := Leaf(ppn + k - 1, flags)]
  }

  lemma MapRangeNext(leaves: map<Va, Leaf>, root: nat, a: nat, ppn: nat, flags: nat, k: nat, n: nat, b: nat, p: nat)
    requires n == k + 1 && b == a + k && p == ppn + k
    ensures MapRange(leaves, root, a, ppn, flags, n) ==
      MapRange(leaves, root, a, ppn, flags, k)[Va(root, b) := Leaf(p, flags)]
  {
  }

  // Exactly the pages of the range are changed.
  lemma {:induction false} MapRangeAt(leaves: map<Va, Leaf>, root: nat, a: nat, ppn: nat, flags: nat, k: nat, v: Va)
    ensures var m := MapRange(leaves, root, a, ppn, flags, k);
            if v.root == root && a <= v.vpn < a + k then v in m && m[v] == Leaf(ppn + v.vpn - a, flags)
            else (v in m <==> v in leaves) && (v in leaves ==> m[v] == leaves[v])
  {
    if k > 0 { MapRangeAt(leaves, root, a, ppn, flags, k - 1, v); }
  }

  // ---------------------------------------------------------------- unmapping pages

  predicate InRange(v: Va, root: nat, a: nat, b: nat) {
    v.root == root && a <= v.vpn < b
  }

  ghost predicate RoleInRange(r: Role, root: nat, a: nat, b: nat) {
    r.PageOf? && InRange(r.v, root, a, b)
  }

  /** The entry of `v` is cleared. */
  ghost function WithoutLeaf(s: State, v: Va): State
    requires HasEntry(s, v)
  {
    s.(mem := SetEntry(s.mem, s.tab[LeafNode(v)], Px(0, v.vpn), 0), leaves := s.leaves - {v})
  }

  /** One round of `uvmunmap` that frees the frame. */
  ghost function Unmapped(s: State, v: Va): State
    requires v in s.leaves
  {
    var t := Given(s, s.leaves[v].ppn);
    if HasEntry(t, v) then WithoutLeaf(t, v) else t
  }

  /** From `s` to `t` exactly the pages `a` to `b - 1` of `root` were unmapped and their frames freed. */
  ghost predicate Dropped(s: State, t: State, root: nat, a: nat, b: nat) {
    && t.tab == s.tab && |t.mem| == |s.mem|
    && (forall v | v in t.leaves :: v in s.leaves && t.leaves[v] == s.leaves[v] && !InRange(v, root, a, b))
    && (forall v | v in s.leaves && !InRange(v, root, a, b) :: v in t.leaves)
    && (forall f | f in t.owner :: f in s.owner && t.owner[f] == s.owner[f] && !RoleInRange(s.owner[f], root, a, b))
    && (forall f | f in s.owner && !RoleInRange(s.owner[f], root, a, b) :: f in t.owner)
    && (forall f | f in t.owner && f < |s.mem| && !TableIn(t.owner[f], root) :: t.mem[f] == s.mem[f])
  }

  lemma NotAPointer(flags: nat)
    requires LeafFlags(flags)
    ensures flags != PTE_V
  {
  }

  lemma EntryStays(s: State, managed: set<nat>, v: Va)
    requires Ok(s, managed) && Owns(s, v)
    ensures s.leaves[v].ppn < |s.mem| && HasEntry(Given(s, s.leaves[v].ppn), v)
  {
    FreeKeeps(s, managed, s.leaves[v].ppn);
    HasEntryIff(Given(s, s.leaves[v].ppn), managed, v);
  }

  // What `uvmunmap` finds at a page that is mapped to a frame of its own.
  lemma UnmapReads(s: State, managed: set<nat>, v: Va)
    requires Ok(s, managed) && Owns(s, v)
    ensures HasEntry(s, v) && s.leaves[v].ppn < |s.mem| && HasEntry(Given(s, s.leaves[v].ppn), v)
    ensures var pte := s.mem[s.tab[LeafNode(v)]][Px(0, v.vpn)];
            PageTable.Valid(pte) && Flags(pte) != PTE_V && Frame(pte) == s.leaves[v].ppn
  {
    HasEntryIff(s, managed, v);
    LeafReads(s, managed, v.root, v.vpn);
    NotAPointer(s.leaves[v].flags);
    EntryStays(s, managed, v);
  }

  /** Pages `a` to `b - 1` of `root` are mapped to frames of their own. */
  ghost predicate AllOwned(s: State, root: nat, a: nat, b: nat) {
    forall p: nat | a <= p < b :: Owns(s, Va(root, p))
  }

  lemma UnmappedDrops(s: State, v: Va, f: nat, t: nat)
    requires Owns(s, v) && f == s.leaves[v].ppn < |s.mem| && HasEntry(Given(s, f), v) && t == s.tab[LeafNode(v)]
    requires t in s.owner && TableIn(s.owner[t], v.root)
    requires forall g | g in s.owner && s.owner[g] == PageOf(v) :: g == f
    ensures Dropped(s, Unmapped(s, v), v.root, v.vpn, v.vpn + 1)
  {
    var u := Unmapped(s, v);
    assert u.owner == s.owner - {f} && u.leaves == s.leaves - {v};
    assert forall g | 0 <= g < |s.mem| && g != f && g != t :: u.mem[g] == s.mem[g];
  }

  lemma UnmappedKeeps(s: State, managed: set<nat>, v: Va)
    requires Ok(s, managed) && Owns(s, v)
    ensures Ok(Unmapped(s, v), managed) && |Unmapped(s, v).free| == |s.free| + 1
    ensures Dropped(s, Unmapped(s, v), v.root, v.vpn, v.vpn + 1)
  {
    var f := s.leaves[v].ppn;
    FreeKeeps(s, managed, f);
    var t := Given(s, f);
    HasEntryIff(t, managed, v);
    UnmapKeeps(t.mem, t.tab, t.leaves, t.owner, v);
    assert forall g | g in s.owner && s.owner[g] == PageOf(v) :: RoleOk(s.owner[g], g, s.tab, s.leaves);
    UnmappedDrops(s, v, f, s.tab[LeafNode(v)]);
  }

  lemma DroppedNone(s: State, root: nat, a: nat)
    ensures Dropped(s, s, root, a, a)
  {
  }

  lemma DroppedMore(s: State, t: State, u: State, root: nat, a: nat, b: nat, c: nat)
    requires a <= b && c == b + 1 && Dropped(s, t, root, a, b) && Dropped(t, u, root, b, c)
    ensures Dropped(s, u, root, a, c)
  {
  }

  lemma StillOwns(s: State, t: State, root: nat, a: nat, b: nat, v: Va)
    requires Dropped(s, t, root, a, b) && Owns(s, v) && !InRange(v, root, a, b)
    ensures Owns(t, v)
  {
  }

  // ---------------------------------------------------------------- adding a page with contents

  /** A frame is taken and filled with `page`. */
  ghost function Filled(s: State, page: Page): State {
    if s.free == [] || s.free[0] >= |s.mem| then s
    else s.(free := s.free[1..], owner := s.owner[s.free[0] := Held], mem := s.mem[s.free[0] := page])
  }

  /** Page `v` is mapped with these flags to a frame of its own that holds `page`. */
  ghost predicate PageIs(s: State, v: Va, page: Page, flags: nat) {
    Owns(s, v) && s.leaves[v].flags == flags && s.leaves[v].ppn < |s.mem| && s.mem[s.leaves[v].ppn] == page
  }

  ghost predicate GrewPages(s: State, t: State, root: nat, a: nat, b: nat) {
    && (forall n | n in s.tab :: n in t.tab && t.tab[n] == s.tab[n])
    && (forall v | v in s.leaves :: v in t.leaves && t.leaves[v] == s.leaves[v])
    && (forall v | v in t.leaves && v !in s.leaves :: InRange(v, root, a, b))
    && (forall p | a <= p < b ::
           Va(root, p) !in s.leaves && Owns(t, Va(root, p)) && t.leaves[Va(root, p)].ppn !in s.owner)
  }

  ghost predicate GrewFrames(s: State, t: State, root: nat, a: nat, b: nat) {
    && |t.mem| == |s.mem|
    && (forall f | f in s.owner :: f in t.owner && t.owner[f] == s.owner[f])
    && (forall f | f in t.owner && f !in s.owner :: TableIn(t.owner[f], root) || RoleInRange(t.owner[f], root, a, b))
    && (forall f | f in s.owner && f < |s.mem| && !TableIn(s.owner[f], root) :: t.mem[f] == s.mem[f])
  }

  /** From `s` to `t` pages `a` to `b - 1` of `root` were added, on frames that had no role, and maybe tables of
      `root`. */
  ghost predicate Grew(s: State, t: State, root: nat, a: nat, b: nat) {
    GrewPages(s, t, root, a, b) && GrewFrames(s, t, root, a, b)
  }

  lemma FilledKeeps(s: State, managed: set<nat>, page: Page)
    requires Ok(s, managed) && s.free != []
    ensures s.free[0] < |s.mem| && s.free[0] !in s.owner && Ok(Filled(s, page), managed)
  {
    var f := s.free[0];
    assert f in s.free;
    HoldKeeps(s.mem, s.tab, s.leaves, s.owner, f);
    FillKeeps(s.mem, s.tab, s.leaves, s.owner[f := Held], f, page);
    TakeFirst(s.free, s.owner, managed);
  }

  lemma AddedGrows(s: State, t: State, u: State, w: State, root: nat, vpn: nat, next: nat, page: Page, flags: nat)
    requires s.free != [] && s.free[0] < |s.mem| && s.free[0] !in s.owner && t == Filled(s, page)
    requires Va(root, vpn) !in s.leaves
    requires OnlyTables(t, u, root) && u.leaves == s.leaves[Va(root, vpn) := Leaf(s.free[0], flags)]
    requires w == u.(owner := u.owner[s.free[0] := PageOf(Va(root, vpn))]) && next == vpn + 1
    ensures PageIs(w, Va(root, vpn), page, flags) && Grew(s, w, root, vpn, next)
  {
  }

  // The frame that was filled and mapped becomes the page's own.
  lemma OwnAdded(s: State, t: State, u: State, w: State, managed: set<nat>, root: nat, vpn: nat, next: nat, page: Page,
                 flags: nat)
    requires s.free != [] && s.free[0] < |s.mem| && s.free[0] !in s.owner && t == Filled(s, page)
    requires Va(root, vpn) !in s.leaves
    requires Ok(u, managed) && OnlyTables(t, u, root) && u.leaves == s.leaves[Va(root, vpn) := Leaf(s.free[0], flags)]
    requires w == u.(owner := u.owner[s.free[0] := PageOf(Va(root, vpn))]) && next == vpn + 1
    ensures Ok(w, managed) && PageIs(w, Va(root, vpn), page, flags) && Grew(s, w, root, vpn, next)
  {
    var f := s.free[0];
    OwnKeeps(u.mem, u.tab, u.leaves, u.owner, f, Va(root, vpn));
    RoleAfterHold(u.free, u.owner, managed, f, PageOf(Va(root, vpn)));
    AddedGrows(s, t, u, w, root, vpn, next, page, flags);
  }

  lemma AddedFails(s: State, t: State, u: State, page: Page, root: nat)
    requires s.free != [] && s.free[0] < |s.mem| && s.free[0] !in s.owner && t == Filled(s, page)
    requires OnlyTables(t, u, root)
    ensures OnlyTables(s, Given(u, s.free[0]), root)
  {
  }

  // The frame that could not be mapped is given back.
  lemma GiveAdded(s: State, t: State, u: State, managed: set<nat>, page: Page, root: nat)
    requires s.free != [] && s.free[0] < |s.mem| && s.free[0] !in s.owner && t == Filled(s, page)
    requires Ok(u, managed) && OnlyTables(t, u, root)
    ensures s.free[0] < |u.mem| && Ok(Given(u, s.free[0]), managed) && OnlyTables(s, Given(u, s.free[0]), root)
  {
    FreeKeeps(u, managed, s.free[0]);
    AddedFails(s, t, u, page, root);
  }

  lemma GrewMorePages(s: State, t: State, u: State, root: nat, a: nat, b: nat, c: nat)
    requires a <= b && c == b + 1 && GrewPages(s, t, root, a, b) && GrewPages(t, u, root, b, c)
    requires forall f | f in s.owner :: f in t.owner && t.owner[f] == s.owner[f]
    requires forall f | f in t.owner :: f in u.owner && u.owner[f] == t.owner[f]
    ensures GrewPages(s, u, root, a, c)
  {
  }

  lemma GrewMoreFrames(s: State, t: State, u: State, root: nat, a: nat, b: nat, c: nat)
    requires a <= b && c == b + 1 && GrewFrames(s, t, root, a, b) && GrewFrames(t, u, root, b, c)
    ensures GrewFrames(s, u, root, a, c)
  {
  }

  lemma GrewMore(s: State, t: State, u: State, root: nat, a: nat, b: nat, c: nat)
    requires a <= b && c == b + 1 && Grew(s, t, root, a, b) && Grew(t, u, root, b, c)
    ensures Grew(s, u, root, a, c)
  {
    GrewMorePages(s, t, u, root, a, b, c);
    GrewMoreFrames(s, t, u, root, a, b, c);
  }

  lemma GrewTables(s: State, t: State, u: State, root: nat, a: nat, b: nat)
    requires Grew(s, t, root, a, b) && OnlyTables(t, u, root) && u.leaves == t.leaves
    ensures Grew(s, u, root, a, b)
  {
  }

  lemma StaysPage(t: State, u: State, root: nat, a: nat, b: nat, v: Va, page: Page, flags: nat)
    requires Grew(t, u, root, a, b) && PageIs(t, v, page, flags)
    ensures PageIs(u, v, page, flags)
  {
  }

  ghost predicate NoneMapped(leaves: map<Va, Leaf>, root: nat, a: nat, b: nat) {
    forall p: nat | a <= p < b :: Va(root, p) !in leaves
  }

  /** Pages `a` to `b - 1` of `root` are pages of their own, full of zeros, with all permissions. */
  ghost predicate AllZero(s: State, root: nat, a: nat, b: nat) {
    forall p: nat | a <= p < b :: PageIs(s, Va(root, p), ZeroPage(), 31)
  }

  lemma AllZeroMore(t: State, u: State, root: nat, a: nat, b: nat, c: nat)
    requires AllZero(t, root, a, b) && Grew(t, u, root, b, c) && c == b + 1 && PageIs(u, Va(root, b), ZeroPage(), 31)
    ensures AllZero(u, root, a, c)
  {
    forall p: nat | a <= p < c ensures PageIs(u, Va(root, p), ZeroPage(), 31) {
      if p < b { StaysPage(t, u, root, b, c, Va(root, p), ZeroPage(), 31); }
    }
  }

  ghost predicate CopyOf(s: State, t: State, v: Va, w: Va) {
    v in s.leaves && s.leaves[v].ppn < |s.mem| && PageIs(t, w, s.mem[s.leaves[v].ppn], s.leaves[v].flags)
  }

  /** Pages 0 to `b - 1` of `child` in `t` are copies of those of `parent` in `s`: same flags, same contents, own
      frames. */
  ghost predicate AllCopied(s: State, t: State, parent: nat, child: nat, b: nat) {
    forall p: nat | p < b :: CopyOf(s, t, Va(parent, p), Va(child, p))
  }

  lemma AllCopiedMore(s: State, t: State, u: State, parent: nat, child: nat, b: nat, c: nat)
    requires AllCopied(s, t, parent, child, b) && Grew(t, u, child, b, c) && c == b + 1
    requires CopyOf(s, u, Va(parent, b), Va(child, b))
    ensures AllCopied(s, u, parent, child, c)
  {
    forall p: nat | p < c ensures CopyOf(s, u, Va(parent, p), Va(child, p)) {
      if p < b {
        var v := Va(parent, p);
        assert CopyOf(s, t, v, Va(child, p));
        StaysPage(t, u, child, b, c, Va(child, p), s.mem[s.leaves[v].ppn], s.leaves[v].flags);
      }
    }
  }

  // While pages are added, an owned page keeps its frame and its contents.
  lemma ParentStays(s: State, t: State, root: nat, a: nat, b: nat, v: Va)
    requires Grew(s, t, root, a, b) && Owns(s, v) && s.leaves[v].ppn < |s.mem|
    ensures v in t.leaves && t.leaves[v] == s.leaves[v] && t.mem[s.leaves[v].ppn] == s.mem[s.leaves[v].ppn]
  {
  }

  lemma GrewNone(s: State, root: nat, a: nat)
    ensures Grew(s, s, root, a, a)
  {
  }

  // Undoing a growth leaves the map as it was; only tables stay behind.
  lemma GrewThenDropped(s: State, t: State, u: State, root: nat, a: nat, b: nat)
    requires Grew(s, t, root, a, b) && Dropped(t, u, root, a, b)
    requires forall f | f in s.owner && s.owner[f].PageOf? :: s.owner[f].v in s.leaves
    ensures OnlyTables(s, u, root) && u.leaves == s.leaves
  {
  }

  // ---------------------------------------------------------------- a new address space

  /** The first free frame becomes an empty root table. */
  ghost function Created(s: State): State {
    if s.free == [] || s.free[0] >= |s.mem| then s
    else
      var f := s.free[0];
      s.(free := s.free[1..], mem := s.mem[f := ZeroPage()], tab := s.tab[Node(f, 2, 0) := f],
         owner := s.owner[f := TableOf(Node(f, 2, 0))])
  }

  lemma CreatedAdds(s: State)
    requires s.free != [] && s.free[0] < |s.mem| && s.free[0] !in s.owner && Node(s.free[0], 2, 0) !in s.tab
    ensures OnlyTables(s, Created(s), s.free[0])
  {
  }

  lemma RootIsTable(s: State, managed: set<nat>, m: Node)
    requires Ok(s, managed) && m in s.tab
    ensures Node(m.root, 2, 0) in s.tab && s.tab[Node(m.root, 2, 0)] == m.root && m.root in s.owner
  {
    assert Rooted(s.tab, m);
    if m.level < 2 {
      assert Rooted(s.tab, Parent(m));
      if m.level == 0 { assert Rooted(s.tab, Parent(Parent(m))); }
    }
  }

  lemma NewRootTree(mem: Mem, tab: map<Node, nat>, leaves: map<Va, Leaf>, f: nat)
    requires TreeOk(mem, tab, leaves) && f < |mem| && mem[f] == ZeroPage() && forall m | m in tab :: m.root != f
    ensures TreeOk(mem, tab[Node(f, 2, 0) := f], leaves)
  {
    var n := Node(f, 2, 0);
    var tab' := tab[n := f];
    forall m | m in tab' ensures tab'[m] < |mem| && NodeOk(mem[tab'[m]], tab', leaves, m) {
      if m != n { assert NodeOk(mem[tab[m]], tab, leaves, m); }
      forall i | 0 <= i < ENTRIES ensures m != n ==> Word(tab', leaves, m, i) == Word(tab, leaves, m, i) {
      }
    }
  }

  lemma NewRoot(mem: Mem, tab: map<Node, nat>, leaves: map<Va, Leaf>, owner: map<nat, Role>, f: nat)
    requires TablesOk(mem, tab, leaves, owner) && f < |mem| && mem[f] == ZeroPage() && f in owner && owner[f] == Held
    requires forall m | m in tab :: m.root != f
    ensures TablesOk(mem, tab[Node(f, 2, 0) := f], leaves, owner[f := TableOf(Node(f, 2, 0))])
  {
    var n := Node(f, 2, 0);
    NewRootTree(mem, tab, leaves, f);
    var tab' := tab[n := f];
    forall m | m in tab' ensures Rooted(tab', m) { if m != n { assert Rooted(tab, m); } }
  }

  lemma CreatedKeeps(s: State, managed: set<nat>)
    requires Ok(s, managed) && s.free != []
    ensures s.free[0] < |s.mem| && Ok(Created(s), managed) && OnlyTables(s, Created(s), s.free[0])
    ensures forall n | n in s.tab :: n.root != s.free[0]
  {
    var f := s.free[0];
    var n := Node(f, 2, 0);
    FilledKeeps(s, managed, ZeroPage());
    forall m | m in s.tab ensures m.root != f {
      RootIsTable(s, managed, m);
    }
    var t := Filled(s, ZeroPage());
    RoleAfterHold(t.free, t.owner, managed, f, TableOf(n));
    assert t.owner[f := TableOf(n)] == s.owner[f := TableOf(n)];
    NewRoot(t.mem, t.tab, t.leaves, t.owner, f);
    CreatedAdds(s);
  }
}
