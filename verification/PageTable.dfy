/** Three-level page tables in physical memory (kernel/vm.c, kernel/riscv.h).

Memory is a sequence of frames of 512 words.  The ghost maps `tab`, `leaves` and `owner` say which frame holds which
table, which pages are mapped, and what each allocated frame is used for.  Addresses are page and frame numbers.
*/
module PageTable {
  import opened Common

  const ENTRIES: nat := 512
  /** Pages below MAXVA. */
  const MAXVPN: nat := 0x400_0000

  const PTE_V: nat := 1
  const PTE_R: nat := 2
  const PTE_W: nat := 4
  const PTE_X: nat := 8
  const PTE_U: nat := 16

  type Page = seq<nat>
  type Mem = seq<Page>

  /** A table: `key` is the part of the page number that leads to it. */
  datatype Node = Node(root: nat, level: nat, key: nat)

  /** A page of the address space with the given root. */
  datatype Va = Va(root: nat, vpn: nat)

  datatype Leaf = Leaf(ppn: nat, flags: nat)

  datatype Role = Held | TableOf(n: Node) | PageOf(v: Va)

  // ---------------------------------------------------------------- entries

  /** PA2PTE(pa) | flags, for flags below 1024. */
  function Encode(ppn: nat, flags: nat): nat {
    ppn * 1024 + flags
  }

  function Frame(pte: nat): nat {
    pte / 1024
  }

  function Flags(pte: nat): nat {
    pte % 32
  }

  predicate Valid(pte: nat) {
    pte % 2 == 1
  }

  /** perm | PTE_V */
  function WithV(perm: nat): (r: nat)
    ensures r % 2 == 1 && r / 2 == perm / 2
  {
    if perm % 2 == 1 then perm else perm + 1
  }

  /** The flags of an entry that maps a page: valid, and readable, writable or executable. */
  predicate LeafFlags(flags: nat) {
    flags < 32 && flags % 2 == 1 && flags / 2 % 8 != 0
  }

  lemma LowBits(q: nat, r: nat)
    requires r < 32
    ensures (q * 32 + r) % 32 == r
  {
  }

  lemma Parity(q: nat, r: nat)
    ensures (q * 2 + r) % 2 == r % 2
  {
  }

  // The frame number starts at bit 10 of an entry, and the flags are its low bits.
  lemma EntryFormat(pte: nat)
    ensures pte / 1024 == Frame(pte) && Encode(Frame(pte), pte % 1024) == pte && Flags(pte) == pte % 1024 % 32
  {
  }

  lemma EncodeDecodes(ppn: nat, flags: nat)
    requires flags < 32
    ensures Frame(Encode(ppn, flags)) == ppn && Flags(Encode(ppn, flags)) == flags
    ensures Valid(Encode(ppn, flags)) <==> flags % 2 == 1
  {
    LowBits(ppn * 32, flags);
    Parity(ppn * 512, flags);
  }

  /** Which entry of a table at `level` leads to page `vpn`. */
  function Px(level: nat, vpn: nat): (i: nat)
    ensures i < ENTRIES
  {
    if level == 0 then vpn % 512 else if level == 1 then vpn / 512 % 512 else vpn / 262144 % 512
  }

  // The indices of the three levels are the three groups of nine bits of the page number.
  lemma IndicesOf(vpn: nat)
    requires vpn < MAXVPN
    ensures vpn == Px(2, vpn) * 262144 + Px(1, vpn) * 512 + Px(0, vpn)
  {
  }

  // ---------------------------------------------------------------- the tree

  function Child(n: Node, i: nat): Node
    requires n.level > 0
  {
    Node(n.root, n.level - 1, n.key * 512 + i)
  }

  function Parent(n: Node): Node {
    Node(n.root, n.level + 1, n.key / 512)
  }

  /** What entry `i` of table `n` must be. */
  ghost function Word(tab: map<Node, nat>, leaves: map<Va, Leaf>, n: Node, i: nat): nat {
    if n.level > 0 then
      if Child(n, i) in tab then Encode(tab[Child(n, i)], PTE_V) else 0
    else
      var v := Va(n.root, n.key * 512 + i);
      if v in leaves then Encode(leaves[v].ppn, leaves[v].flags) else 0
  }

  ghost predicate NodeOk(page: Page, tab: map<Node, nat>, leaves: map<Va, Leaf>, n: Node) {
    |page| == ENTRIES && forall i | 0 <= i < ENTRIES :: page[i] == Word(tab, leaves, n, i)
  }

  ghost predicate TreeOk(mem: Mem, tab: map<Node, nat>, leaves: map<Va, Leaf>) {
    forall n | n in tab :: tab[n] < |mem| && NodeOk(mem[tab[n]], tab, leaves, n)
  }

  ghost predicate Rooted(tab: map<Node, nat>, n: Node) {
    n.level <= 2 && if n.level == 2 then n.key == 0 && n in tab && tab[n] == n.root else Parent(n) in tab
  }

  /** The table that holds the entry of a page. */
  function LeafNode(v: Va): Node {
    Node(v.root, 0, v.vpn / 512)
  }

  ghost predicate ShapeOk(tab: map<Node, nat>, leaves: map<Va, Leaf>) {
    && (forall n {:trigger Rooted(tab, n)} | n in tab :: Rooted(tab, n))
    && (forall v | v in leaves :: LeafNode(v) in tab && LeafFlags(leaves[v].flags))
  }

  ghost predicate RoleOk(r: Role, f: nat, tab: map<Node, nat>, leaves: map<Va, Leaf>) {
    match r
    case Held => true
    case TableOf(n) => n in tab && tab[n] == f
    case PageOf(v) => v in leaves && leaves[v].ppn == f
  }

  /** Each table has its own frame, and so has each page that is owned. */
  ghost predicate OwnerOk(owner: map<nat, Role>, tab: map<Node, nat>, leaves: map<Va, Leaf>) {
    && (forall n | n in tab :: tab[n] in owner && owner[tab[n]] == TableOf(n))
    && (forall f | f in owner :: RoleOk(owner[f], f, tab, leaves))
  }

  /** Every managed frame is free or has a role, and not both. */
  ghost predicate FreeOk(free: seq<nat>, owner: map<nat, Role>, managed: set<nat>) {
    && (forall f | f in free :: f in managed && f !in owner)
    && (forall f | f in owner :: f in managed)
    && (forall f | f in managed :: f in free || f in owner)
    && (forall i, j | 0 <= i < j < |free| :: free[i] != free[j])
  }

  // ---------------------------------------------------------------- translation

  /** The walk of the hardware and of `walk`, from the memory alone: the entry for `vpn`, or none if a table is
      missing. */
  function Entry(mem: Mem, table: nat, level: nat, vpn: nat): Option<nat>
    requires level <= 2
    decreases level
  {
    if table >= |mem| || |mem[table]| != ENTRIES then None
    else
      var pte := mem[table][Px(level, vpn)];
      if level == 0 then Some(pte)
      else if Valid(pte) then Entry(mem, Frame(pte), level - 1, vpn)
      else None
  }

  /** The table at `level` on the way to `vpn`. */
  function OnPath(root: nat, level: nat, vpn: nat): Node {
    Node(root, level, if level == 0 then vpn / 512 else if level == 1 then vpn / 262144 else 0)
  }

  lemma PathStep(root: nat, level: nat, vpn: nat)
    requires 0 < level <= 2 && vpn < MAXVPN
    ensures Child(OnPath(root, level, vpn), Px(level, vpn)) == OnPath(root, level - 1, vpn)
    ensures Parent(OnPath(root, level - 1, vpn)) == OnPath(root, level, vpn)
  {
  }

  lemma LeafIndex(root: nat, vpn: nat)
    ensures OnPath(root, 0, vpn) == LeafNode(Va(root, vpn)) && vpn / 512 * 512 + Px(0, vpn) == vpn
  {
  }

  lemma {:induction false} EntryFrom(mem: Mem, tab: map<Node, nat>, leaves: map<Va, Leaf>, root: nat, level: nat,
                                     vpn: nat)
    requires TreeOk(mem, tab, leaves) && ShapeOk(tab, leaves) && level <= 2 && vpn < MAXVPN
    requires OnPath(root, level, vpn) in tab
    ensures var e := Entry(mem, tab[OnPath(root, level, vpn)], level, vpn);
            if OnPath(root, 0, vpn) in tab then e == Some(Word(tab, leaves, OnPath(root, 0, vpn), Px(0, vpn)))
            else e == None
  {
    var n := OnPath(root, level, vpn);
    assert NodeOk(mem[tab[n]], tab, leaves, n);
    if level > 0 {
      PathStep(root, level, vpn);
      var c := OnPath(root, level - 1, vpn);
      assert mem[tab[n]][Px(level, vpn)] == Word(tab, leaves, n, Px(level, vpn));
      if c in tab {
        EncodeDecodes(tab[c], PTE_V);
        EntryFrom(mem, tab, leaves, root, level - 1, vpn);
      } else if OnPath(root, 0, vpn) in tab {
        assert Rooted(tab, OnPath(root, 0, vpn));
        PathStep(root, 1, vpn);
      }
    }
  }

  // Walking the tables from the root gives exactly what the flat map says.
  lemma TranslationIsTheMap(mem: Mem, tab: map<Node, nat>, leaves: map<Va, Leaf>, root: nat, vpn: nat)
    requires TreeOk(mem, tab, leaves) && ShapeOk(tab, leaves) && Node(root, 2, 0) in tab && vpn < MAXVPN
    ensures var e := Entry(mem, root, 2, vpn);
            if Va(root, vpn) in leaves then
              e == Some(Encode(leaves[Va(root, vpn)].ppn, leaves[Va(root, vpn)].flags)) && Valid(e.value)
            else e == None || e == Some(0)
  {
    assert Rooted(tab, Node(root, 2, 0));
    EntryFrom(mem, tab, leaves, root, 2, vpn);
    var v := Va(root, vpn);
    LeafIndex(root, vpn);
    if v in leaves { EncodeDecodes(leaves[v].ppn, leaves[v].flags); }
  }

  // ---------------------------------------------------------------- changing the tree

  ghost predicate TablesOk(mem: Mem, tab: map<Node, nat>, leaves: map<Va, Leaf>, owner: map<nat, Role>) {
    TreeOk(mem, tab, leaves) && ShapeOk(tab, leaves) && OwnerOk(owner, tab, leaves)
  }

  function SetEntry(mem: Mem, table: nat, i: nat, w: nat): Mem
    requires table < |mem| && i < |mem[table]|
  {
    var page: Page := mem[table][i := w];
    mem[table := page]
  }

  function ZeroPage(): (r: Page)
    ensures |r| == ENTRIES && forall i | 0 <= i < ENTRIES :: r[i] == 0
  {
    seq(ENTRIES, _ => 0)
  }

  lemma TablesDistinct(owner: map<nat, Role>, tab: map<Node, nat>, leaves: map<Va, Leaf>, m: Node, n: Node)
    requires OwnerOk(owner, tab, leaves) && m in tab && n in tab && m != n
    ensures tab[m] != tab[n]
  {
  }

  // Only the entry that leads to a table depends on that table.
  lemma WordOfNewTable(tab: map<Node, nat>, leaves: map<Va, Leaf>, n: Node, i: nat, f: nat, m: Node, j: nat)
    requires n.level > 0 && i < ENTRIES && j < ENTRIES
    ensures Word(tab[Child(n, i) := f], leaves, m, j) == if m == n && j == i then Encode(f, PTE_V)
      else Word(tab, leaves, m, j)
  {
  }

  lemma NewTableEmpty(tab: map<Node, nat>, leaves: map<Va, Leaf>, c: Node, f: nat)
    requires ShapeOk(tab, leaves) && c !in tab && c.level < 2
    ensures NodeOk(ZeroPage(), tab[c := f], leaves, c)
  {
    var tab' := tab[c := f];
    forall i | 0 <= i < ENTRIES ensures Word(tab', leaves, c, i) == 0 {
      if c.level > 0 {
        assert Child(c, i) in tab ==> Rooted(tab, Child(c, i));
        assert Parent(Child(c, i)) == c;
      } else {
        assert LeafNode(Va(c.root, c.key * 512 + i)) == c;
      }
    }
  }

  lemma LinkTree(mem: Mem, tab: map<Node, nat>, leaves: map<Va, Leaf>, owner: map<nat, Role>, n: Node, i: nat, f: nat)
    requires TablesOk(mem, tab, leaves, owner) && n in tab && n.level > 0 && i < ENTRIES && Child(n, i) !in tab
    requires f < |mem| && f in owner && owner[f] == Held && mem[f] == ZeroPage()
    ensures tab[n] < |mem| && |mem[tab[n]]| == ENTRIES
    ensures TreeOk(SetEntry(mem, tab[n], i, Encode(f, PTE_V)), tab[Child(n, i) := f], leaves)
  {
    assert NodeOk(mem[tab[n]], tab, leaves, n);
    var c := Child(n, i);
    var mem', tab' := SetEntry(mem, tab[n], i, Encode(f, PTE_V)), tab[c := f];
    forall m | m in tab' ensures tab'[m] < |mem'| && NodeOk(mem'[tab'[m]], tab', leaves, m) {
      if m == c {
        assert Rooted(tab, n);
        NewTableEmpty(tab, leaves, c, f);
      } else {
        assert NodeOk(mem[tab[m]], tab, leaves, m);
        if m != n { TablesDistinct(owner, tab, leaves, m, n); }
        forall j | 0 <= j < ENTRIES ensures mem'[tab'[m]][j] == Word(tab', leaves, m, j) {
          WordOfNewTable(tab, leaves, n, i, f, m, j);
        }
      }
    }
  }

  lemma LinkShape(tab: map<Node, nat>, leaves: map<Va, Leaf>, owner: map<nat, Role>, n: Node, i: nat, f: nat)
    requires ShapeOk(tab, leaves) && OwnerOk(owner, tab, leaves) && n in tab && n.level > 0 && i < ENTRIES
    requires Child(n, i) !in tab
    requires f in owner && owner[f] == Held
    ensures ShapeOk(tab[Child(n, i) := f], leaves)
    ensures OwnerOk(owner[f := TableOf(Child(n, i))], tab[Child(n, i) := f], leaves)
  {
    var c := Child(n, i);
    var tab' := tab[c := f];
    assert Parent(c) == n && Rooted(tab, n);
    forall m | m in tab' ensures Rooted(tab', m) {
      if m != c { assert Rooted(tab, m); }
    }
  }

  lemma LinkKeeps(mem: Mem, tab: map<Node, nat>, leaves: map<Va, Leaf>, owner: map<nat, Role>, n: Node, i: nat, f: nat)
    requires TablesOk(mem, tab, leaves, owner) && n in tab && n.level > 0 && i < ENTRIES && Child(n, i) !in tab
    requires f < |mem| && f in owner && owner[f] == Held && mem[f] == ZeroPage()
    ensures tab[n] < |mem| && |mem[tab[n]]| == ENTRIES && tab[n] != f
    ensures TablesOk(SetEntry(mem, tab[n], i, Encode(f, PTE_V)), tab[Child(n, i) := f], leaves,
                     owner[f := TableOf(Child(n, i))])
  {
    LinkTree(mem, tab, leaves, owner, n, i, f);
    LinkShape(tab, leaves, owner, n, i, f);
  }

  // ---------------------------------------------------------------- mapping and unmapping a page

  lemma WordOfLeaf(tab: map<Node, nat>, leaves: map<Va, Leaf>, after: map<Va, Leaf>, v: Va, m: Node, j: nat)
    requires j < ENTRIES
    requires (forall u | u != v :: (u in after <==> u in leaves) && (u in leaves ==> after[u] == leaves[u]))
    ensures m != LeafNode(v) || j != Px(0, v.vpn) ==> Word(tab, after, m, j) == Word(tab, leaves, m, j)
    ensures Word(tab, after, LeafNode(v), Px(0, v.vpn)) == if v in after then Encode(after[v].ppn, after[v].flags)
      else 0
  {
    LeafIndex(v.root, v.vpn);
  }

  lemma LeafTree(mem: Mem, tab: map<Node, nat>, leaves: map<Va, Leaf>, after: map<Va, Leaf>, owner: map<nat, Role>,
                 v: Va)
    requires TablesOk(mem, tab, leaves, owner) && LeafNode(v) in tab
    requires forall u | u != v :: (u in after <==> u in leaves) && (u in leaves ==> after[u] == leaves[u])
    ensures var t := tab[LeafNode(v)];
            && t < |mem| && |mem[t]| == ENTRIES
            && TreeOk(SetEntry(mem, t, Px(0, v.vpn), if v in after then Encode(after[v].ppn, after[v].flags) else 0),
                      tab, after)
  {
    var n := LeafNode(v);
    assert NodeOk(mem[tab[n]], tab, leaves, n);
    var mem' := SetEntry(mem, tab[n], Px(0, v.vpn), if v in after then Encode(after[v].ppn, after[v].flags) else 0);
    forall m | m in tab ensures tab[m] < |mem'| && NodeOk(mem'[tab[m]], tab, after, m) {
      assert NodeOk(mem[tab[m]], tab, leaves, m);
      if m != n { TablesDistinct(owner, tab, leaves, m, n); }
      forall j | 0 <= j < ENTRIES ensures mem'[tab[m]][j] == Word(tab, after, m, j) {
        WordOfLeaf(tab, leaves, after, v, m, j);
      }
    }
  }

  lemma MapKeeps(mem: Mem, tab: map<Node, nat>, leaves: map<Va, Leaf>, owner: map<nat, Role>, v: Va, l: Leaf)
    requires TablesOk(mem, tab, leaves, owner) && LeafNode(v) in tab && v !in leaves && LeafFlags(l.flags)
    ensures var t := tab[LeafNode(v)];
            && t < |mem| && |mem[t]| == ENTRIES
            && TablesOk(SetEntry(mem, t, Px(0, v.vpn), Encode(l.ppn, l.flags)), tab, leaves[v := l], owner)
  {
    LeafTree(mem, tab, leaves, leaves[v := l], owner, v);
  }

  lemma UnmapKeeps(mem: Mem, tab: map<Node, nat>, leaves: map<Va, Leaf>, owner: map<nat, Role>, v: Va)
    requires TablesOk(mem, tab, leaves, owner) && v in leaves
    requires forall f | f in owner :: owner[f] != PageOf(v)
    ensures LeafNode(v) in tab
    ensures var t := tab[LeafNode(v)];
            && t < |mem| && |mem[t]| == ENTRIES
            && TablesOk(SetEntry(mem, t, Px(0, v.vpn), 0), tab, leaves - {v}, owner)
  {
    LeafTree(mem, tab, leaves, leaves - {v}, owner, v);
  }

  // ---------------------------------------------------------------- frames

  // A frame that is not a table may be filled with anything.
  lemma FillKeeps(mem: Mem, tab: map<Node, nat>, leaves: map<Va, Leaf>, owner: map<nat, Role>, f: nat, page: Page)
    requires TablesOk(mem, tab, leaves, owner) && f < |mem| && (f in owner ==> !owner[f].TableOf?)
    ensures TablesOk(mem[f := page], tab, leaves, owner)
  {
    forall n | n in tab ensures tab[n] < |mem| && NodeOk(mem[f := page][tab[n]], tab, leaves, n) {
      assert NodeOk(mem[tab[n]], tab, leaves, n);
    }
  }

  // Taking a free frame, or giving a held one back.
  lemma HoldKeeps(mem: Mem, tab: map<Node, nat>, leaves: map<Va, Leaf>, owner: map<nat, Role>, f: nat)
    requires TablesOk(mem, tab, leaves, owner) && (f in owner ==> !owner[f].TableOf?)
    ensures TablesOk(mem, tab, leaves, owner[f := Held]) && TablesOk(mem, tab, leaves, owner - {f})
  {
  }

  lemma OwnKeeps(mem: Mem, tab: map<Node, nat>, leaves: map<Va, Leaf>, owner: map<nat, Role>, f: nat, v: Va)
    requires TablesOk(mem, tab, leaves, owner) && f in owner && owner[f] == Held && v in leaves && leaves[v].ppn == f
    ensures TablesOk(mem, tab, leaves, owner[f := PageOf(v)])
  {
  }
}
