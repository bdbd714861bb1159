/** Removing the tables of an address space, as `freewalk` of kernel/vm.c does: a table after all tables below it. */
module FreeTables {
  import opened Common
  import opened PageTable
  import opened VmSpec

  /** Table `m` lies below table `n`. */
  predicate Below(m: Node, n: Node) {
    && m.root == n.root && m.level < n.level
    && (if m.level + 1 == n.level then m.key / 512 == n.key else m.level + 2 == n.level && m.key / 512 / 512 == n.key)
  }

  /** The entry of `n` through which `m`, which lies below it, is reached. */
  function Branch(m: Node, n: Node): nat {
    if m.level + 1 == n.level then m.key % 512 else m.key / 512 % 512
  }

  /** What is gone once the entries below `i` of table `n` were handled, and then `n` itself. */
  predicate Gone(m: Node, n: Node, i: nat, self: bool) {
    (self && m == n) || (Below(m, n) && Branch(m, n) < i)
  }

  lemma BranchOfChild(m: Node, n: Node, i: nat)
    requires 0 < n.level <= 2 && i < ENTRIES
    ensures (m == Child(n, i) || Below(m, Child(n, i))) <==> Below(m, n) && Branch(m, n) == i
  {
  }

  lemma BranchIsSmall(m: Node, n: Node)
    ensures Branch(m, n) < ENTRIES
  {
  }

  ghost predicate RoleGone(r: Role, n: Node, i: nat, self: bool) {
    r.TableOf? && Gone(r.n, n, i, self)
  }

  /** From `s` to `t` exactly these tables were removed and their frames freed; `keep` is a frame that may have
      changed. */
  ghost predicate Pruned(s: State, t: State, n: Node, i: nat, self: bool, keep: nat) {
    && t.leaves == s.leaves && |t.mem| == |s.mem|
    && (forall m | m in t.tab :: m in s.tab && t.tab[m] == s.tab[m] && !Gone(m, n, i, self))
    && (forall m | m in s.tab && !Gone(m, n, i, self) :: m in t.tab)
    && (forall f | f in t.owner :: f in s.owner && t.owner[f] == s.owner[f] && !RoleGone(s.owner[f], n, i, self))
    && (forall f | f in s.owner && !RoleGone(s.owner[f], n, i, self) :: f in t.owner)
    && (forall f | f in t.owner && f < |s.mem| && f != keep :: t.mem[f] == s.mem[f])
  }

  /** All tables at and below `n` hold what they should. */
  ghost predicate SubtreeOk(s: State, n: Node) {
    forall m | m in s.tab && (m == n || Below(m, n)) ::
      s.tab[m] < |s.mem| && NodeOk(s.mem[s.tab[m]], s.tab, s.leaves, m)
  }

  ghost predicate NoLeaves(s: State, root: nat) {
    forall v | v in s.leaves :: v.root != root
  }

  // Handling entry `i` after the ones below it.
  lemma PrunedMore(s: State, t: State, u: State, n: Node, i: nat, c: Node, x: nat)
    requires 0 < n.level <= 2 && i < ENTRIES && c == Child(n, i) && n in s.tab && x == s.tab[n]
    requires Pruned(s, t, n, i, false, x) && Pruned(t, u, c, ENTRIES, true, x)
    ensures Pruned(s, u, n, i + 1, false, x)
  {
    forall m ensures Gone(m, n, i + 1, false) <==> Gone(m, n, i, false) || Gone(m, c, ENTRIES, true) {
      BranchOfChild(m, n, i);
      BranchIsSmall(m, c);
    }
  }

  ghost predicate AllRooted(tab: map<Node, nat>) {
    forall m {:trigger Rooted(tab, m)} | m in tab :: Rooted(tab, m)
  }

  // Nothing hangs below an entry that is empty.
  lemma NothingBelow(tab: map<Node, nat>, n: Node, i: nat, m: Node)
    requires 0 < n.level <= 2 && i < ENTRIES && AllRooted(tab) && Child(n, i) !in tab && m in tab
    ensures Gone(m, n, i + 1, false) <==> Gone(m, n, i, false)
  {
    BranchOfChild(m, n, i);
    assert Rooted(tab, m);
  }

  lemma PrunedSkip(s: State, t: State, n: Node, i: nat, x: nat)
    requires 0 < n.level <= 2 && i < ENTRIES && AllRooted(s.tab) && Child(n, i) !in s.tab
    requires Pruned(s, t, n, i, false, x) && OwnerOk(s.owner, s.tab, s.leaves)
    ensures Pruned(s, t, n, i + 1, false, x)
  {
    forall m | m in s.tab ensures Gone(m, n, i + 1, false) <==> Gone(m, n, i, false) { NothingBelow(s.tab, n, i, m); }
    forall f | f in s.owner ensures RoleGone(s.owner[f], n, i + 1, false) <==> RoleGone(s.owner[f], n, i, false) {
      assert RoleOk(s.owner[f], f, s.tab, s.leaves);
    }
  }

  lemma PrunedNone(s: State, n: Node, x: nat)
    ensures Pruned(s, s, n, 0, false, x)
  {
  }

  lemma PrunedOwner(s: State, t: State, n: Node, i: nat, self: bool, x: nat)
    requires OwnerOk(s.owner, s.tab, s.leaves) && Pruned(s, t, n, i, self, x)
    ensures OwnerOk(t.owner, t.tab, t.leaves)
  {
    forall f | f in t.owner ensures RoleOk(t.owner[f], f, t.tab, t.leaves) {
      assert RoleOk(s.owner[f], f, s.tab, s.leaves);
    }
  }

  lemma PrunedRooted(s: State, t: State, n: Node, i: nat, x: nat)
    requires AllRooted(s.tab) && Pruned(s, t, n, i, false, x) && n.level <= 2
    ensures AllRooted(t.tab)
  {
    forall m | m in t.tab ensures Rooted(t.tab, m) {
      assert Rooted(s.tab, m);
      if m.level < 2 {
        var q := Parent(m);
        assert Gone(q, n, i, false) ==> Below(m, n) && Branch(m, n) == Branch(q, n);
      }
    }
  }

  lemma SubtreeStays(s: State, t: State, n: Node, i: nat, x: nat)
    requires 0 < n.level <= 2 && i < ENTRIES && SubtreeOk(s, n) && n in s.tab && x == s.tab[n]
    requires OwnerOk(s.owner, s.tab, s.leaves) && Pruned(s, t, n, i, false, x)
    ensures SubtreeOk(t, Child(n, i))
  {
    var c := Child(n, i);
    forall m | m in t.tab && (m == c || Below(m, c))
      ensures t.tab[m] < |t.mem| && NodeOk(t.mem[t.tab[m]], t.tab, t.leaves, m)
    {
      BranchOfChild(m, n, i);
      assert NodeOk(s.mem[s.tab[m]], s.tab, s.leaves, m);
      assert t.mem[t.tab[m]] == s.mem[s.tab[m]];
      forall j | 0 <= j < ENTRIES ensures Word(t.tab, t.leaves, m, j) == Word(s.tab, s.leaves, m, j) {
        if m.level > 0 { BranchOfChild(Child(m, j), n, i); }
      }
    }
  }

  /** What `freewalk` needs at table `n`. */
  ghost predicate CanFree(s: State, n: Node, managed: set<nat>) {
    && n in s.tab && n.level <= 2 && SubtreeOk(s, n) && AllRooted(s.tab) && NoLeaves(s, n.root)
    && OwnerOk(s.owner, s.tab, s.leaves) && FreeOk(s.free, s.owner, managed) && forall f | f in managed :: f < |s.mem|
  }

  ghost predicate SameFrom(p: Page, q: Page, i: nat) {
    |p| == |q| == ENTRIES && forall j | i <= j < ENTRIES :: q[j] == p[j]
  }

  /** The loop of `freewalk` has handled the entries below `i`; the others are as they were. */
  ghost predicate Freeing(s: State, t: State, n: Node, i: nat, x: nat, managed: set<nat>) {
    && i <= ENTRIES && Pruned(s, t, n, i, false, x) && FreeOk(t.free, t.owner, managed)
    && x < |s.mem| == |t.mem| && SameFrom(s.mem[x], t.mem[x], i)
  }

  lemma FreeingStarts(s: State, n: Node, managed: set<nat>)
    requires CanFree(s, n, managed)
    ensures Freeing(s, s, n, 0, s.tab[n], managed)
  {
    PrunedNone(s, n, s.tab[n]);
    assert NodeOk(s.mem[s.tab[n]], s.tab, s.leaves, n);
  }

  /** Valid, and none of the read, write and execute bits. */
  predicate TablePointer(pte: nat) {
    PageTable.Valid(pte) && Flags(pte) / 2 % 8 == 0
  }

  lemma PointerEntry(f: nat)
    ensures TablePointer(Encode(f, PTE_V)) && Frame(Encode(f, PTE_V)) == f
  {
    EncodeDecodes(f, PTE_V);
  }

  // An entry is a table pointer exactly if there is a child, and never maps a page.
  lemma EntryOfTree(s: State, t: State, n: Node, i: nat, x: nat, managed: set<nat>)
    requires CanFree(s, n, managed) && x == s.tab[n] && Freeing(s, t, n, i, x, managed) && i < ENTRIES
    ensures var w := t.mem[x][i];
            && (TablePointer(w) <==> n.level > 0 && Child(n, i) in s.tab) && (PageTable.Valid(w) ==> TablePointer(w))
            && (TablePointer(w) ==> Frame(w) == s.tab[Child(n, i)])
  {
    assert NodeOk(s.mem[x], s.tab, s.leaves, n);
    assert s.mem[x][i] == Word(s.tab, s.leaves, n, i);
    if n.level > 0 && Child(n, i) in s.tab { PointerEntry(s.tab[Child(n, i)]); }
  }

  lemma ChildCanFree(s: State, t: State, n: Node, i: nat, x: nat, managed: set<nat>)
    requires CanFree(s, n, managed) && x == s.tab[n] && Freeing(s, t, n, i, x, managed)
    requires i < ENTRIES && n.level > 0 && Child(n, i) in s.tab
    ensures CanFree(t, Child(n, i), managed) && t.tab[Child(n, i)] == s.tab[Child(n, i)] != x
  {
    var c := Child(n, i);
    BranchOfChild(c, n, i);
    SubtreeStays(s, t, n, i, x);
    PrunedOwner(s, t, n, i, false, x);
    PrunedRooted(s, t, n, i, x);
  }

  lemma PrunedEntry(t: State, u: State, w: State, c: Node, i: nat, x: nat, y: nat)
    requires Pruned(t, u, c, ENTRIES, true, y) && y !in u.owner && x < |u.mem| && i < |u.mem[x]|
    requires w == u.(mem := SetEntry(u.mem, x, i, 0))
    ensures Pruned(t, w, c, ENTRIES, true, x)
  {
  }

  // The entry of a child that was freed is cleared.
  lemma ChildFreed(s: State, t: State, u: State, w: State, n: Node, i: nat, x: nat, y: nat, next: nat,
                   managed: set<nat>)
    requires next == i + 1
    requires Freeing(s, t, n, i, x, managed) && i < ENTRIES && 0 < n.level <= 2 && n in s.tab && x == s.tab[n]
    requires Pruned(t, u, Child(n, i), ENTRIES, true, y) && FreeOk(u.free, u.owner, managed) && y !in u.owner
    requires x < |u.mem| && u.mem[x] == t.mem[x] && w == u.(mem := SetEntry(u.mem, x, i, 0))
    ensures Freeing(s, w, n, next, x, managed)
  {
    PrunedEntry(t, u, w, Child(n, i), i, x, y);
    PrunedMore(s, t, w, n, i, Child(n, i), x);
    assert SameFrom(s.mem[x], w.mem[x], i + 1);
  }

  lemma ChildFrameGone(t: State, u: State, c: Node, y: nat)
    requires Pruned(t, u, c, ENTRIES, true, y) && c in t.tab && y == t.tab[c] && OwnerOk(t.owner, t.tab, t.leaves)
    ensures y !in u.owner
  {
  }

  lemma OwnFrameStays(s: State, t: State, u: State, n: Node, i: nat, x: nat, y: nat)
    requires n in s.tab && x == s.tab[n] && 0 < n.level && OwnerOk(s.owner, s.tab, s.leaves)
    requires Pruned(s, t, n, i, false, x) && Pruned(t, u, Child(n, i), ENTRIES, true, y) && x != y && x < |s.mem|
    ensures u.mem[x] == t.mem[x]
  {
    assert !Gone(n, n, i, false) && !Gone(n, Child(n, i), ENTRIES, true);
  }

  /** The table itself is given back. */
  ghost function WithoutTable(t: State, n: Node, x: nat): State {
    Given(t, x).(tab := t.tab - {n})
  }

  lemma PrunedSelf(s: State, t: State, n: Node, x: nat)
    requires Pruned(s, t, n, ENTRIES, false, x) && x in t.owner && x in s.owner && s.owner[x] == TableOf(n)
    requires x < |t.mem|
    requires forall f | f in s.owner && s.owner[f] == TableOf(n) :: f == x
    ensures Pruned(s, WithoutTable(t, n, x), n, ENTRIES, true, x)
  {
    var u := WithoutTable(t, n, x);
    assert u.owner == t.owner - {x};
  }

  lemma SelfFreed(s: State, t: State, n: Node, x: nat, managed: set<nat>)
    requires Freeing(s, t, n, ENTRIES, x, managed) && n in s.tab && x == s.tab[n] && OwnerOk(s.owner, s.tab, s.leaves)
    ensures Pruned(s, WithoutTable(t, n, x), n, ENTRIES, true, x)
    ensures x in t.owner && FreeOk(Given(t, x).free, Given(t, x).owner, managed)
  {
    assert !Gone(n, n, ENTRIES, false);
    assert t.owner[x] == TableOf(n);
    PrunedSelf(s, t, n, x);
    PutFirst(t.free, t.owner, managed, x);
  }

  lemma PrunedLeafTable(s: State, t: State, n: Node, i: nat, x: nat)
    requires n.level == 0 && Pruned(s, t, n, i, false, x)
    ensures Pruned(s, t, n, i + 1, false, x)
  {
  }

  // From the root, every table of the address space is removed, and no other.
  lemma AllBelowRoot(tab: map<Node, nat>, m: Node, root: nat)
    requires AllRooted(tab) && m in tab
    ensures Gone(m, Node(root, 2, 0), ENTRIES, true) <==> m.root == root
  {
    assert Rooted(tab, m);
    if m.level < 2 {
      assert Rooted(tab, Parent(m));
      if m.level == 0 { assert Rooted(tab, Parent(Parent(m))); }
    }
    BranchIsSmall(m, Node(root, 2, 0));
  }

  predicate RoleOf(r: Role, root: nat) {
    match r
    case Held => false
    case TableOf(n) => n.root == root
    case PageOf(v) => v.root == root
  }

  /** From `s` to `t` everything that belonged to `root` was freed and nothing else changed. */
  ghost predicate SpaceGone(s: State, t: State, root: nat) {
    && (forall f | f in t.owner :: f in s.owner && t.owner[f] == s.owner[f] && !RoleOf(s.owner[f], root))
    && (forall f | f in s.owner && !RoleOf(s.owner[f], root) :: f in t.owner)
    && (forall v | v in s.leaves && v.root != root :: v in t.leaves && t.leaves[v] == s.leaves[v])
    && (forall v | v in t.leaves :: v in s.leaves && v.root != root)
    && |t.mem| == |s.mem| && (forall f | f in t.owner && f < |s.mem| :: t.mem[f] == s.mem[f])
  }

  lemma OtherNodeOk(page: Page, tab: map<Node, nat>, after: map<Node, nat>, leaves: map<Va, Leaf>, m: Node, root: nat)
    requires NodeOk(page, tab, leaves, m) && m.root != root
    requires forall n | n in after :: n in tab && after[n] == tab[n]
    requires forall n | n in tab && n.root != root :: n in after
    ensures NodeOk(page, after, leaves, m)
  {
    forall j | 0 <= j < ENTRIES ensures Word(after, leaves, m, j) == Word(tab, leaves, m, j) {
    }
  }

  lemma OthersStay(s: State, t: State, root: nat)
    requires TreeOk(s.mem, s.tab, s.leaves) && ShapeOk(s.tab, s.leaves) && NoLeaves(s, root)
    requires Node(root, 2, 0) in s.tab
    requires OwnerOk(s.owner, s.tab, s.leaves)
    requires Pruned(s, t, Node(root, 2, 0), ENTRIES, true, s.tab[Node(root, 2, 0)])
    requires forall m | m in s.tab :: Gone(m, Node(root, 2, 0), ENTRIES, true) <==> m.root == root
    ensures TreeOk(t.mem, t.tab, t.leaves) && ShapeOk(t.tab, t.leaves)
  {
    forall m | m in t.tab ensures t.tab[m] < |t.mem| && NodeOk(t.mem[t.tab[m]], t.tab, t.leaves, m) {
      assert t.mem[t.tab[m]] == s.mem[s.tab[m]];
      OtherNodeOk(s.mem[s.tab[m]], s.tab, t.tab, s.leaves, m, root);
    }
    forall m | m in t.tab ensures Rooted(t.tab, m) { assert Rooted(s.tab, m); }
  }

  lemma RootFreed(s: State, t: State, root: nat, managed: set<nat>)
    requires Ok(s, managed) && NoLeaves(s, root) && Node(root, 2, 0) in s.tab
    requires Pruned(s, t, Node(root, 2, 0), ENTRIES, true, s.tab[Node(root, 2, 0)]) && FreeOk(t.free, t.owner, managed)
    ensures Ok(t, managed)
    ensures forall m | m in t.tab :: m.root != root
    ensures forall m | m in s.tab && m.root != root :: m in t.tab
  {
    forall m | m in s.tab ensures Gone(m, Node(root, 2, 0), ENTRIES, true) <==> m.root == root {
      AllBelowRoot(s.tab, m, root);
    }
    PrunedOwner(s, t, Node(root, 2, 0), ENTRIES, true, s.tab[Node(root, 2, 0)]);
    OthersStay(s, t, root);
  }

  lemma SpaceCanBeFreed(s: State, root: nat, managed: set<nat>)
    requires Ok(s, managed) && Node(root, 2, 0) in s.tab && NoLeaves(s, root)
    ensures CanFree(s, Node(root, 2, 0), managed)
  {
    forall m | m in s.tab ensures s.tab[m] < |s.mem| && NodeOk(s.mem[s.tab[m]], s.tab, s.leaves, m) {
    }
  }

  /** From `s` to `t` exactly the tables of `root` were freed. */
  ghost predicate TablesGone(s: State, t: State, root: nat) {
    && |t.mem| == |s.mem|
    && (forall f | f in t.owner :: f in s.owner && t.owner[f] == s.owner[f] && !TableIn(s.owner[f], root))
    && (forall f | f in s.owner && !TableIn(s.owner[f], root) :: f in t.owner)
    && (forall f | f in t.owner && f < |s.mem| :: t.mem[f] == s.mem[f])
  }

  lemma OnlyItsTables(s: State, t: State, root: nat, managed: set<nat>)
    requires Ok(s, managed) && Node(root, 2, 0) in s.tab
    requires Pruned(s, t, Node(root, 2, 0), ENTRIES, true, s.tab[Node(root, 2, 0)])
    ensures TablesGone(s, t, root)
  {
    var n := Node(root, 2, 0);
    forall f | f in s.owner ensures RoleGone(s.owner[f], n, ENTRIES, true) <==> TableIn(s.owner[f], root) {
      assert RoleOk(s.owner[f], f, s.tab, s.leaves);
      if s.owner[f].TableOf? { AllBelowRoot(s.tab, s.owner[f].n, root); }
    }
    assert s.owner[s.tab[n]] == TableOf(n);
  }

  lemma NoneLeft(s: State, t: State, root: nat, b: nat)
    requires Dropped(s, t, root, 0, b) && forall v | v in s.leaves && v.root == root :: v.vpn < b
    ensures NoLeaves(t, root)
  {
  }

  lemma PagesAreMapped(s: State, managed: set<nat>)
    requires Ok(s, managed)
    ensures forall f | f in s.owner && s.owner[f].PageOf? :: s.owner[f].v in s.leaves
  {
    assert forall f | f in s.owner :: RoleOk(s.owner[f], f, s.tab, s.leaves);
  }

  // Its pages and then its tables are all that an address space owns.
  lemma NothingLeft(s: State, t: State, u: State, root: nat, b: nat)
    requires Dropped(s, t, root, 0, b) && TablesGone(t, u, root) && u.leaves == t.leaves
    requires forall v | v in s.leaves && v.root == root :: v.vpn < b
    requires forall f | f in s.owner && s.owner[f].PageOf? :: s.owner[f].v in s.leaves
    ensures SpaceGone(s, u, root)
  {
  }
}
