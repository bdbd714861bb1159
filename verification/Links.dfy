/** Link counts of the directory graph under `create`, `link` and `unlink` (kernel/sysfile.c). */
module Links {
  import opened Common

  datatype Kind = Dir | File | Device

  /** The names "." and "..", and all others. */
  datatype Name = Self | Parent | Other(text: string)

  /** An allocated inode; only a directory has entries. */
  datatype Inode = Inode(kind: Kind, nlink: nat, entries: map<Name, nat>)

  type Graph = map<nat, Inode>

  /** An entry: its directory and its name. */
  datatype Entry = Entry(dir: nat, name: Name)

  // ---------------------------------------------------------------- the operations

  function SetLinks(g: Graph, i: nat, n: nat): Graph
    requires i in g
  {
    g[i := g[i].(nlink := n)]
  }

  function AddEntry(g: Graph, d: nat, name: Name, i: nat): Graph
    requires d in g
  {
    g[d := g[d].(entries := g[d].entries[name := i])]
  }

  function DropEntry(g: Graph, d: nat, name: Name): Graph
    requires d in g
  {
    g[d := g[d].(entries := g[d].entries - {name})]
  }

  /** `create` of a new name in `d`; `i` is the inode that `ialloc` found. */
  function Created(g: Graph, d: nat, name: Name, i: nat, kind: Kind): Graph
    requires d in g && i !in g
  {
    if kind == Dir then
      var up := SetLinks(g, d, g[d].nlink + 1)[i := Inode(Dir, 1, map[Self := i, Parent := d])];
      AddEntry(up, d, name, i)
    else AddEntry(g[i := Inode(kind, 1, map[])], d, name, i)
  }

  /** A new entry for the file `i`. */
  function LinkedTo(g: Graph, d: nat, name: Name, i: nat): Graph
    requires d in g && i in g && d != i
  {
    AddEntry(SetLinks(g, i, g[i].nlink + 1), d, name, i)
  }

  /** The entry `name` of `d` is removed. */
  function Unlinked(g: Graph, d: nat, name: Name): Graph
    requires d in g && name in g[d].entries && g[d].entries[name] in g && g[d].entries[name] != d
    requires g[g[d].entries[name]].nlink >= 1 && (g[g[d].entries[name]].kind == Dir ==> g[d].nlink >= 1)
  {
    var i := g[d].entries[name];
    var h := DropEntry(g, d, name);
    var k := if g[i].kind == Dir then SetLinks(h, d, h[d].nlink - 1) else h;
    SetLinks(k, i, k[i].nlink - 1)
  }

  // ---------------------------------------------------------------- the invariant

  ghost predicate LinkedDir(g: Graph, d: nat) {
    d in g && g[d].kind == Dir && g[d].nlink > 0
  }

  /** Entry `e` of a linked directory, other than ".", names inode `i`. */
  ghost predicate NamesIt(g: Graph, e: Entry, i: nat) {
    LinkedDir(g, e.dir) && e.name != Self && e.name in g[e.dir].entries && g[e.dir].entries[e.name] == i
  }

  /** `es` are the entries that name inode `i`, and there are as many as the inode says. */
  ghost predicate CountOk(g: Graph, i: nat, es: set<Entry>) {
    i in g && g[i].nlink == |es| && forall e :: e in es <==> NamesIt(g, e, i)
  }

  ghost predicate Counted(g: Graph, names: map<nat, set<Entry>>) {
    names.Keys == g.Keys && forall i {:trigger CountOk(g, i, names[i])} | i in names :: CountOk(g, i, names[i])
  }

  /** A linked directory names itself by "." and its parent by "..", and all its entries name inodes that exist. */
  ghost predicate DirOk(g: Graph, d: nat)
    requires d in g
  {
    && Self in g[d].entries && g[d].entries[Self] == d && Parent in g[d].entries
    && (forall n | n in g[d].entries :: g[d].entries[n] in g)
  }

  /** A linked directory other than the root is named by exactly one ordinary entry, which is in its parent, the root by
      none. */
  ghost predicate ParentOk(g: Graph, d: nat, home: map<nat, Name>)
    requires d in g && Parent in g[d].entries
  {
    var p := g[d].entries[Parent];
    if d == ROOTINO then p == ROOTINO && forall e | NamesIt(g, e, d) :: e.name == Parent
    else
      && d in home && p != d && home[d].Other? && NamesIt(g, Entry(p, home[d]), d)
      && forall e | NamesIt(g, e, d) :: e.name == Parent || e == Entry(p, home[d])
  }

  ghost predicate EmptyDir(x: Inode) {
    forall n | n in x.entries :: !n.Other?
  }

  /** A directory that was unlinked and is still referenced. */
  ghost predicate Removed(g: Graph, d: nat) {
    d in g && g[d].kind == Dir && g[d].nlink == 0
  }

  /** A removed directory has kept "." and "..", and nothing else. */
  ghost predicate RemovedOk(x: Inode) {
    Self in x.entries && Parent in x.entries && EmptyDir(x)
  }

  ghost predicate Inv(g: Graph, names: map<nat, set<Entry>>, home: map<nat, Name>) {
    && Counted(g, names) && LinkedDir(g, ROOTINO)
    && (forall d {:trigger Removed(g, d)} | Removed(g, d) :: RemovedOk(g[d]))
    && (forall d {:trigger DirOk(g, d)} | LinkedDir(g, d) :: DirOk(g, d))
    && (forall d {:trigger ParentOk(g, d, home)} | LinkedDir(g, d) :: DirOk(g, d) && ParentOk(g, d, home))
  }

  // ---------------------------------------------------------------- counting

  ghost predicate SameNames(g: Graph, h: Graph) {
    forall e, x :: NamesIt(h, e, x) <==> NamesIt(g, e, x)
  }

  ghost predicate GainsName(g: Graph, h: Graph, f: Entry, y: nat) {
    forall e, x :: NamesIt(h, e, x) <==> NamesIt(g, e, x) || (e == f && x == y)
  }

  ghost predicate LosesName(g: Graph, h: Graph, f: Entry, y: nat) {
    forall e, x :: NamesIt(h, e, x) <==> NamesIt(g, e, x) && !(e == f && x == y)
  }

  /** Only the link count of `y` changes, by `n`. */
  ghost predicate LinksChange(g: Graph, h: Graph, y: nat, n: int) {
    h.Keys == g.Keys && forall x | x in g :: h[x].nlink == if x == y then g[x].nlink + n else g[x].nlink
  }

  lemma CountedSame(g: Graph, h: Graph, names: map<nat, set<Entry>>)
    requires Counted(g, names) && SameNames(g, h) && LinksChange(g, h, 0, 0)
    ensures Counted(h, names)
  {
    forall x | x in names ensures CountOk(h, x, names[x]) { assert CountOk(g, x, names[x]); }
  }

  lemma CountedGain(g: Graph, h: Graph, names: map<nat, set<Entry>>, f: Entry, y: nat)
    requires Counted(g, names) && y in g && !NamesIt(g, f, y) && GainsName(g, h, f, y) && LinksChange(g, h, y, 1)
    ensures y in names && Counted(h, names[y := names[y] + {f}])
  {
    var m := names[y := names[y] + {f}];
    forall x | x in m ensures CountOk(h, x, m[x]) { assert CountOk(g, x, names[x]); }
  }

  lemma CountedLoss(g: Graph, h: Graph, names: map<nat, set<Entry>>, f: Entry, y: nat)
    requires Counted(g, names) && y in g && NamesIt(g, f, y) && LosesName(g, h, f, y) && LinksChange(g, h, y, -1)
    ensures y in names && Counted(h, names[y := names[y] - {f}])
  {
    var m := names[y := names[y] - {f}];
    forall x | x in m ensures CountOk(h, x, m[x]) { assert CountOk(g, x, names[x]); }
  }

  // An inode that no entry names.
  lemma CountedNew(g: Graph, names: map<nat, set<Entry>>, i: nat, kind: Kind)
    requires Counted(g, names) && i !in g && forall e :: !NamesIt(g, e, i)
    ensures Counted(g[i := Inode(kind, 0, map[])], names[i := {}])
  {
    var h, m := g[i := Inode(kind, 0, map[])], names[i := {}];
    forall e, x ensures NamesIt(h, e, x) <==> NamesIt(g, e, x) {
    }
    forall x | x in m ensures CountOk(h, x, m[x]) { if x != i { assert CountOk(g, x, names[x]); } }
  }

  lemma CountedGone(g: Graph, names: map<nat, set<Entry>>, i: nat)
    requires Counted(g, names) && i in g && g[i].nlink == 0
    ensures Counted(g - {i}, names - {i}) && SameNames(g, g - {i}) && forall e :: !NamesIt(g, e, i)
  {
    assert CountOk(g, i, names[i]) && names[i] == {};
    var h, m := g - {i}, names - {i};
    forall e, x ensures NamesIt(h, e, x) <==> NamesIt(g, e, x) {
    }
    forall x | x in m ensures CountOk(h, x, m[x]) { assert CountOk(g, x, names[x]); }
  }

  // ---------------------------------------------------------------- create

  ghost predicate CanCreate(g: Graph, d: nat, name: Name, i: nat) {
    LinkedDir(g, d) && name !in g[d].entries && i !in g && name.Other?
  }

  /** The new inode with its entry, before it has entries of its own. */
  function Placed(g: Graph, d: nat, name: Name, i: nat, kind: Kind): Graph
    requires d in g && i !in g
  {
    AddEntry(g[i := Inode(kind, 1, map[])], d, name, i)
  }

  ghost function NamesCreated(names: map<nat, set<Entry>>, d: nat, name: Name, i: nat, kind: Kind): map<nat, set<Entry>>
    requires d in names && d != i
  {
    var m := names[i := {}][i := {} + {Entry(d, name)}];
    if kind == Dir then m[d := m[d] + {Entry(i, Parent)}] else m
  }

  // Nothing names an inode that does not exist.
  lemma NothingNames(g: Graph, names: map<nat, set<Entry>>, home: map<nat, Name>, e: Entry, i: nat)
    requires Inv(g, names, home) && i !in g
    ensures !NamesIt(g, e, i)
  {
    if LinkedDir(g, e.dir) { assert DirOk(g, e.dir); }
  }

  lemma PlacedCounted(g: Graph, names: map<nat, set<Entry>>, d: nat, name: Name, i: nat, kind: Kind)
    requires Counted(g, names) && CanCreate(g, d, name, i) && forall e :: !NamesIt(g, e, i)
    ensures Counted(Placed(g, d, name, i, kind), names[i := {}][i := {} + {Entry(d, name)}])
  {
    CountedNew(g, names, i, kind);
    var g1, h := g[i := Inode(kind, 0, map[])], Placed(g, d, name, i, kind);
    CountedGain(g1, h, names[i := {}], Entry(d, name), i);
  }

  lemma CreateCounted(g: Graph, names: map<nat, set<Entry>>, d: nat, name: Name, i: nat, kind: Kind)
    requires Counted(g, names) && CanCreate(g, d, name, i) && forall e :: !NamesIt(g, e, i)
    ensures d in names && Counted(Created(g, d, name, i, kind), NamesCreated(names, d, name, i, kind))
  {
    PlacedCounted(g, names, d, name, i, kind);
    var g2, h := Placed(g, d, name, i, kind), Created(g, d, name, i, kind);
    if kind == Dir {
      CountedGain(g2, h, names[i := {}][i := {} + {Entry(d, name)}], Entry(i, Parent), d);
    } else {
      assert g2 == h;
    }
  }

  lemma CreateNames(g: Graph, d: nat, name: Name, i: nat, kind: Kind, e: Entry, x: nat)
    requires CanCreate(g, d, name, i)
    ensures var h := Created(g, d, name, i, kind);
            NamesIt(h, e, x) <==>
              NamesIt(g, e, x) || (e == Entry(d, name) && x == i) || (kind == Dir && e == Entry(i, Parent) && x == d)
  {
  }

  lemma CreateOld(g: Graph, home: map<nat, Name>, d: nat, name: Name, i: nat, kind: Kind, x: nat)
    requires CanCreate(g, d, name, i) && LinkedDir(g, x) && DirOk(g, x) && ParentOk(g, x, home)
    ensures var h := Created(g, d, name, i, kind); x in h && DirOk(h, x) && ParentOk(h, x, home[i := name])
  {
    var h := Created(g, d, name, i, kind);
    forall e ensures NamesIt(h, e, x) <==> NamesIt(g, e, x) || (kind == Dir && e == Entry(i, Parent) && x == d) {
      CreateNames(g, d, name, i, kind, e, x);
    }
  }

  lemma CreateNew(g: Graph, home: map<nat, Name>, d: nat, name: Name, i: nat)
    requires CanCreate(g, d, name, i) && i != ROOTINO && forall e :: !NamesIt(g, e, i)
    ensures var h := Created(g, d, name, i, Dir); i in h && DirOk(h, i) && ParentOk(h, i, home[i := name])
  {
    var h := Created(g, d, name, i, Dir);
    forall e ensures NamesIt(h, e, i) <==> e == Entry(d, name) { CreateNames(g, d, name, i, Dir, e, i); }
  }

  lemma CreateKeeps(g: Graph, names: map<nat, set<Entry>>, home: map<nat, Name>, d: nat, name: Name, i: nat, kind: Kind)
    requires Inv(g, names, home) && CanCreate(g, d, name, i)
    ensures d in names && Inv(Created(g, d, name, i, kind), NamesCreated(names, d, name, i, kind), home[i := name])
  {
    forall e ensures !NamesIt(g, e, i) { NothingNames(g, names, home, e, i); }
    CreateCounted(g, names, d, name, i, kind);
    var h := Created(g, d, name, i, kind);
    forall x | Removed(h, x) ensures RemovedOk(h[x]) { assert Removed(g, x) && h[x] == g[x]; }
    forall x | LinkedDir(h, x) ensures DirOk(h, x) && ParentOk(h, x, home[i := name]) {
      if x == i {
        CreateNew(g, home, d, name, i);
      } else {
        assert LinkedDir(g, x) && DirOk(g, x) && ParentOk(g, x, home);
        CreateOld(g, home, d, name, i, kind, x);
      }
    }
  }

  // ---------------------------------------------------------------- link

  ghost predicate CanLink(g: Graph, d: nat, name: Name, i: nat) {
    LinkedDir(g, d) && name !in g[d].entries && name.Other? && i in g && g[i].kind != Dir
  }

  lemma LinkOld(g: Graph, home: map<nat, Name>, d: nat, name: Name, i: nat, x: nat)
    requires CanLink(g, d, name, i) && LinkedDir(g, x) && DirOk(g, x) && ParentOk(g, x, home)
    ensures var h := LinkedTo(g, d, name, i); x in h && DirOk(h, x) && ParentOk(h, x, home)
  {
    var h := LinkedTo(g, d, name, i);
    forall e ensures NamesIt(h, e, x) <==> NamesIt(g, e, x) {
    }
  }

  lemma LinkKeeps(g: Graph, names: map<nat, set<Entry>>, home: map<nat, Name>, d: nat, name: Name, i: nat)
    requires Inv(g, names, home) && CanLink(g, d, name, i)
    ensures i in names && Inv(LinkedTo(g, d, name, i), names[i := names[i] + {Entry(d, name)}], home)
  {
    var h := LinkedTo(g, d, name, i);
    CountedGain(g, h, names, Entry(d, name), i);
    forall x | Removed(h, x) ensures RemovedOk(h[x]) { assert Removed(g, x) && h[x] == g[x]; }
    forall x | LinkedDir(h, x) ensures DirOk(h, x) && ParentOk(h, x, home) {
      assert LinkedDir(g, x) && DirOk(g, x) && ParentOk(g, x, home);
      LinkOld(g, home, d, name, i, x);
    }
  }

  // ---------------------------------------------------------------- unlink

  /** `name` names a file, or a directory without ordinary entries. */
  ghost predicate CanUnlink(g: Graph, d: nat, name: Name) {
    && LinkedDir(g, d) && name in g[d].entries && name.Other? && g[d].entries[name] in g
    && (g[g[d].entries[name]].kind == Dir ==> EmptyDir(g[g[d].entries[name]]))
  }

  // The parent of a linked directory other than the root has an ordinary entry for it.
  lemma ParentHasEntry(g: Graph, names: map<nat, set<Entry>>, home: map<nat, Name>, x: nat)
    requires Inv(g, names, home) && LinkedDir(g, x) && x != ROOTINO
    ensures Parent in g[x].entries && x in home && home[x].Other? && NamesIt(g, Entry(g[x].entries[Parent], home[x]), x)
  {
    assert DirOk(g, x) && ParentOk(g, x, home);
  }

  lemma LinkedByName(g: Graph, names: map<nat, set<Entry>>, e: Entry, i: nat)
    requires Counted(g, names) && i in g && NamesIt(g, e, i)
    ensures g[i].nlink >= 1
  {
    assert CountOk(g, i, names[i]) && e in names[i];
  }

  // A directory without ordinary entries has no linked directory below it.
  lemma NoChildren(g: Graph, names: map<nat, set<Entry>>, home: map<nat, Name>, d: nat, name: Name, e: Entry)
    requires Inv(g, names, home) && CanUnlink(g, d, name)
    requires g[g[d].entries[name]].kind == Dir && NamesIt(g, e, g[d].entries[name])
    ensures g[d].entries[name] != ROOTINO && e == Entry(d, name) && g[g[d].entries[name]].nlink >= 1
  {
    var i := g[d].entries[name];
    assert NamesIt(g, Entry(d, name), i);
    LinkedByName(g, names, Entry(d, name), i);
    assert DirOk(g, i) && ParentOk(g, i, home);
    assert DirOk(g, ROOTINO) && ParentOk(g, ROOTINO, home);
    if e.dir != ROOTINO { ParentHasEntry(g, names, home, e.dir); }
  }

  lemma TwoElements(s: set<Entry>, a: Entry, b: Entry)
    requires a in s && b in s && a != b
    ensures |s| >= 2
  {
    var t := s - {a};
    assert b in t && |t| == |s| - 1;
  }

  // A directory with a linked directory below it has two links.
  lemma TwoLinks(g: Graph, names: map<nat, set<Entry>>, home: map<nat, Name>, d: nat, i: nat)
    requires Inv(g, names, home) && LinkedDir(g, d) && i != d && NamesIt(g, Entry(i, Parent), d)
    ensures g[d].nlink >= 2
  {
    assert DirOk(g, d) && ParentOk(g, d, home) && CountOk(g, d, names[d]);
    var f := if d == ROOTINO then Entry(ROOTINO, Parent) else Entry(g[d].entries[Parent], home[d]);
    assert NamesIt(g, f, d) && f in names[d] && Entry(i, Parent) in names[d] && f != Entry(i, Parent);
    TwoElements(names[d], f, Entry(i, Parent));
  }

  // What an unlinked entry names has a link; an empty directory has just this one, and its parent is `d`.
  lemma UnlinkFits(g: Graph, names: map<nat, set<Entry>>, home: map<nat, Name>, d: nat, name: Name)
    requires Inv(g, names, home) && CanUnlink(g, d, name)
    ensures var i := g[d].entries[name];
            && i != d && g[i].nlink >= 1 && NamesIt(g, Entry(d, name), i)
            && (g[i].kind == Dir ==>
                  g[i].nlink == 1 && Parent in g[i].entries && g[i].entries[Parent] == d && i != ROOTINO)
  {
    var i := g[d].entries[name];
    LinkedByName(g, names, Entry(d, name), i);
    if g[i].kind == Dir {
      assert DirOk(g, i) && ParentOk(g, i, home);
      NoChildren(g, names, home, d, name, Entry(d, name));
      assert CountOk(g, i, names[i]);
      forall e | e in names[i] ensures e == Entry(d, name) { NoChildren(g, names, home, d, name, e); }
      assert names[i] == {Entry(d, name)};
    }
  }

  ghost function NamesUnlinked(g: Graph, names: map<nat, set<Entry>>, d: nat, name: Name): map<nat, set<Entry>>
    requires d in g && name in g[d].entries && names.Keys == g.Keys && g[d].entries[name] in g
  {
    var i := g[d].entries[name];
    var m := if g[i].kind == Dir then names[d := names[d] - {Entry(i, Parent)}] else names;
    m[i := m[i] - {Entry(d, name)}]
  }

  lemma UnlinkFile(g: Graph, names: map<nat, set<Entry>>, home: map<nat, Name>, d: nat, name: Name)
    requires Inv(g, names, home) && CanUnlink(g, d, name) && g[g[d].entries[name]].kind != Dir
    ensures g[d].entries[name] != d && g[g[d].entries[name]].nlink >= 1
    ensures Counted(Unlinked(g, d, name), NamesUnlinked(g, names, d, name))
  {
    UnlinkFits(g, names, home, d, name);
    CountedLoss(g, Unlinked(g, d, name), names, Entry(d, name), g[d].entries[name]);
  }

  /** The parent without the link from the directory `i`, which is shown without entries. */
  function Detached(g: Graph, d: nat, i: nat): Graph
    requires d in g && i in g && d != i && g[d].nlink >= 1
  {
    SetLinks(g, d, g[d].nlink - 1)[i := g[i].(entries := map[])]
  }

  lemma DetachLoses(g: Graph, d: nat, i: nat)
    requires LinkedDir(g, d) && LinkedDir(g, i) && d != i && g[d].nlink >= 2 && EmptyDir(g[i])
    requires Parent in g[i].entries && g[i].entries[Parent] == d
    ensures LosesName(g, Detached(g, d, i), Entry(i, Parent), d) && LinksChange(g, Detached(g, d, i), d, -1)
  {
  }

  lemma DropLoses(g: Graph, d: nat, name: Name, i: nat)
    requires LinkedDir(g, d) && i in g && i != d && name.Other? && name in g[d].entries && g[d].entries[name] == i
    requires g[i].nlink == 1 && g[i].entries == map[]
    ensures var h := SetLinks(DropEntry(g, d, name), i, 0);
            NamesIt(g, Entry(d, name), i) && LosesName(g, h, Entry(d, name), i) && LinksChange(g, h, i, -1)
  {
  }

  lemma RestoreSame(g: Graph, d: nat, name: Name, i: nat)
    requires d in g && i in g && d != i && name in g[d].entries && g[d].entries[name] == i && g[d].nlink >= 1
    requires g[i].kind == Dir && g[i].nlink == 1
    ensures var h := SetLinks(DropEntry(Detached(g, d, i), d, name), i, 0);
            SameNames(h, Unlinked(g, d, name)) && LinksChange(h, Unlinked(g, d, name), 0, 0)
  {
  }

  lemma UnlinkDir(g: Graph, names: map<nat, set<Entry>>, home: map<nat, Name>, d: nat, name: Name)
    requires Inv(g, names, home) && CanUnlink(g, d, name) && g[g[d].entries[name]].kind == Dir
    ensures g[d].entries[name] != d && g[g[d].entries[name]].nlink >= 1
    ensures Counted(Unlinked(g, d, name), NamesUnlinked(g, names, d, name))
  {
    UnlinkFits(g, names, home, d, name);
    var i := g[d].entries[name];
    TwoLinks(g, names, home, d, i);
    // first without the entries of the directory, then without its entry, then with its entries again
    var g1 := Detached(g, d, i);
    DetachLoses(g, d, i);
    CountedLoss(g, g1, names, Entry(i, Parent), d);
    var g2 := SetLinks(DropEntry(g1, d, name), i, 0);
    DropLoses(g1, d, name, i);
    CountedLoss(g1, g2, names[d := names[d] - {Entry(i, Parent)}], Entry(d, name), i);
    RestoreSame(g, d, name, i);
    CountedSame(g2, Unlinked(g, d, name), NamesUnlinked(g, names, d, name));
  }

  lemma NoEntryInEmpty(g: Graph, d: nat, name: Name, f: Entry, x: nat)
    requires CanUnlink(g, d, name) && f.name.Other? && NamesIt(g, f, x)
    ensures f.dir != g[d].entries[name]
  {
  }

  // The entry that leads to a directory which stays linked is still there.
  lemma ParentStaysLinked(g: Graph, names: map<nat, set<Entry>>, home: map<nat, Name>, d: nat, name: Name, x: nat,
                          f: Entry)
    requires Inv(g, names, home) && CanUnlink(g, d, name) && LinkedDir(g, x) && x != ROOTINO && x != g[d].entries[name]
    requires f.name.Other? && NamesIt(g, f, x) && g[d].entries[name] != d && g[g[d].entries[name]].nlink >= 1
    ensures NamesIt(Unlinked(g, d, name), f, x)
  {
    UnlinkFits(g, names, home, d, name);
    NoEntryInEmpty(g, d, name, f, x);
    if g[g[d].entries[name]].kind == Dir { TwoLinks(g, names, home, d, g[d].entries[name]); }
  }

  lemma UnlinkOld(g: Graph, names: map<nat, set<Entry>>, home: map<nat, Name>, d: nat, name: Name, x: nat)
    requires Inv(g, names, home) && CanUnlink(g, d, name) && LinkedDir(g, x)
    requires var i := g[d].entries[name]; i != d && g[i].nlink >= 1 && LinkedDir(Unlinked(g, d, name), x)
    ensures var h := Unlinked(g, d, name); DirOk(h, x) && ParentOk(h, x, home)
  {
    var h, i := Unlinked(g, d, name), g[d].entries[name];
    UnlinkFits(g, names, home, d, name);
    assert DirOk(g, x) && ParentOk(g, x, home);
    assert x != i;
    forall e ensures NamesIt(h, e, x) ==> NamesIt(g, e, x) {
    }
    if x != ROOTINO {
      var f := Entry(g[x].entries[Parent], home[x]);
      ParentStaysLinked(g, names, home, d, name, x, f);
    } else {
      assert NamesIt(g, Entry(ROOTINO, Parent), ROOTINO);
    }
  }

  lemma UnlinkRemoved(g: Graph, names: map<nat, set<Entry>>, home: map<nat, Name>, d: nat, name: Name, x: nat)
    requires Inv(g, names, home) && CanUnlink(g, d, name)
    requires g[d].entries[name] != d && g[g[d].entries[name]].nlink >= 1 && Removed(Unlinked(g, d, name), x)
    ensures RemovedOk(Unlinked(g, d, name)[x])
  {
    var i := g[d].entries[name];
    if x == i {
      assert DirOk(g, i);
    } else if x == d {
      UnlinkFits(g, names, home, d, name);
      TwoLinks(g, names, home, d, i);
    } else {
      assert Removed(g, x);
    }
  }

  lemma RootStays(g: Graph, names: map<nat, set<Entry>>, home: map<nat, Name>, d: nat, name: Name)
    requires Inv(g, names, home) && CanUnlink(g, d, name)
    requires g[d].entries[name] != d && g[g[d].entries[name]].nlink >= 1
    ensures LinkedDir(Unlinked(g, d, name), ROOTINO)
  {
    UnlinkFits(g, names, home, d, name);
    if g[g[d].entries[name]].kind == Dir { TwoLinks(g, names, home, d, g[d].entries[name]); }
  }

  lemma UnlinkKeeps(g: Graph, names: map<nat, set<Entry>>, home: map<nat, Name>, d: nat, name: Name)
    requires Inv(g, names, home) && CanUnlink(g, d, name)
    ensures g[d].entries[name] != d && g[g[d].entries[name]].nlink >= 1
    ensures Inv(Unlinked(g, d, name), NamesUnlinked(g, names, d, name), home)
  {
    UnlinkFits(g, names, home, d, name);
    if g[g[d].entries[name]].kind == Dir {
      UnlinkDir(g, names, home, d, name);
    } else {
      UnlinkFile(g, names, home, d, name);
    }
    RootStays(g, names, home, d, name);
    var h := Unlinked(g, d, name);
    forall x | Removed(h, x) ensures RemovedOk(h[x]) { UnlinkRemoved(g, names, home, d, name, x); }
    forall x | LinkedDir(h, x) ensures DirOk(h, x) && ParentOk(h, x, home) { UnlinkOld(g, names, home, d, name, x); }
  }

  // ---------------------------------------------------------------- iput

  lemma ReclaimOld(g: Graph, home: map<nat, Name>, i: nat, x: nat)
    requires LinkedDir(g, x) && DirOk(g, x) && ParentOk(g, x, home) && i in g && g[i].nlink == 0
    requires SameNames(g, g - {i}) && forall e :: !NamesIt(g, e, i)
    ensures x in g - {i} && DirOk(g - {i}, x) && ParentOk(g - {i}, x, home)
  {
    forall n | n in g[x].entries ensures g[x].entries[n] != i {
      assert !NamesIt(g, Entry(x, n), i);
    }
  }

  // Freeing an inode without links keeps everything: no linked directory names it.
  lemma ReclaimKeeps(g: Graph, names: map<nat, set<Entry>>, home: map<nat, Name>, i: nat)
    requires Inv(g, names, home) && i in g && g[i].nlink == 0
    ensures forall e :: !NamesIt(g, e, i)
    ensures Inv(g - {i}, names - {i}, home)
  {
    CountedGone(g, names, i);
    var h := g - {i};
    forall x | Removed(h, x) ensures RemovedOk(h[x]) { assert Removed(g, x); }
    forall x | LinkedDir(h, x) ensures DirOk(h, x) && ParentOk(h, x, home) {
      assert LinkedDir(g, x) && DirOk(g, x) && ParentOk(g, x, home);
      ReclaimOld(g, home, i, x);
    }
  }

  // ---------------------------------------------------------------- removed directories

  /** What `create` checks of its parent: that it is a directory. */
  ghost predicate MayCreate(g: Graph, d: nat, name: Name, i: nat) {
    d in g && g[d].kind == Dir && name !in g[d].entries && i !in g
  }

  /** What `sys_link` checks. */
  ghost predicate MayLink(g: Graph, d: nat, name: Name, i: nat) {
    d in g && g[d].kind == Dir && name !in g[d].entries && i in g && g[i].kind != Dir
  }

  /** Some entry of `d` other than "." names an inode of `g`, or the number `i`. */
  ghost predicate NamesSome(g: Graph, d: nat, i: nat)
    requires d in g
  {
    exists n | n in g[d].entries && n != Self :: g[d].entries[n] in g || g[d].entries[n] == i
  }

  // A name that is free in a directory is neither "." nor "..".
  lemma FreeNameIsOther(g: Graph, names: map<nat, set<Entry>>, home: map<nat, Name>, d: nat, name: Name)
    requires Inv(g, names, home) && d in g && g[d].kind == Dir && name !in g[d].entries
    ensures name.Other?
  {
    if g[d].nlink > 0 { assert LinkedDir(g, d) && DirOk(g, d); } else { assert Removed(g, d); }
  }

  lemma RemovedHasNone(g: Graph, names: map<nat, set<Entry>>, home: map<nat, Name>, d: nat, name: Name)
    requires Inv(g, names, home)
    ensures Removed(g, d) && name.Other? ==> name !in g[d].entries
  {
  }

  lemma UnnamedNotCounted(h: Graph, i: nat, es: set<Entry>)
    requires i in h && h[i].nlink == 1 && forall e :: !NamesIt(h, e, i)
    ensures !CountOk(h, i, es)
  {
    if es != {} {
      var e :| e in es;
      assert !NamesIt(h, e, i);
    }
  }

  // A file in a removed directory has a link that no linked directory accounts for.
  lemma OrphanFile(g: Graph, names: map<nat, set<Entry>>, home: map<nat, Name>, d: nat, name: Name, i: nat, kind: Kind)
    requires Inv(g, names, home) && Removed(g, d) && i !in g && kind != Dir
    ensures var h := Created(g, d, name, i, kind);
      h[i].nlink == 1 && (forall e :: !NamesIt(h, e, i)) && forall m :: !Counted(h, m)
  {
    var h := Created(g, d, name, i, kind);
    forall e ensures !NamesIt(h, e, i) { NothingNames(g, names, home, e, i); }
    forall m ensures !Counted(h, m) {
      if i in m { UnnamedNotCounted(h, i, m[i]); }
    }
  }

  lemma OtherCount(g: Graph, h: Graph, i: nat, a: set<Entry>, b: set<Entry>)
    requires CountOk(g, i, a) && SameNames(g, h) && i in h && h[i].nlink != g[i].nlink
    ensures !CountOk(h, i, b)
  {
    if forall e :: e in b <==> NamesIt(h, e, i) { assert a == b; }
  }

  // A link in a removed directory counts, but it is no name.
  lemma OrphanLink(g: Graph, names: map<nat, set<Entry>>, home: map<nat, Name>, d: nat, name: Name, i: nat)
    requires Inv(g, names, home) && Removed(g, d) && MayLink(g, d, name, i)
    ensures var h := LinkedTo(g, d, name, i); SameNames(g, h) && h[i].nlink == g[i].nlink + 1 && forall m ::
      !Counted(h, m)
  {
    var h := LinkedTo(g, d, name, i);
    forall e, x ensures NamesIt(h, e, x) <==> NamesIt(g, e, x) {
    }
    assert CountOk(g, i, names[i]);
    forall m ensures !Counted(h, m) {
      if i in m { OtherCount(g, h, i, names[i], m[i]); }
    }
  }

  // A directory made in a removed directory links its parent again, whose old entries then count as names.
  lemma RevivedNames(g: Graph, d: nat, name: Name, i: nat, e: Entry, x: nat)
    requires Removed(g, d) && i !in g && name.Other? && name !in g[d].entries
    ensures var h := Created(g, d, name, i, Dir);
      NamesIt(h, e, x) <==>
        || NamesIt(g, e, x) || (e == Entry(d, name) && x == i) || (e == Entry(i, Parent) && x == d)
        || (e.dir == d && e.name != Self && e.name in g[d].entries && g[d].entries[e.name] == x)
  {
  }

  // Nothing names a removed directory.
  lemma RemovedUnnamed(g: Graph, names: map<nat, set<Entry>>, d: nat, e: Entry)
    requires Counted(g, names) && Removed(g, d)
    ensures !NamesIt(g, e, d)
  {
    assert CountOk(g, d, names[d]) && names[d] == {};
  }

  ghost function NamesRevived(names: map<nat, set<Entry>>, d: nat, name: Name, i: nat): map<nat, set<Entry>> {
    names[i := {Entry(d, name)}][d := {Entry(i, Parent)}]
  }

  lemma RevivedCount(g: Graph, names: map<nat, set<Entry>>, home: map<nat, Name>, d: nat, name: Name, i: nat, x: nat)
    requires Inv(g, names, home) && Removed(g, d) && i !in g && name.Other? && name !in g[d].entries
    requires !NamesSome(g, d, i) && x in NamesRevived(names, d, name, i)
    ensures CountOk(Created(g, d, name, i, Dir), x, NamesRevived(names, d, name, i)[x])
  {
    var h, es := Created(g, d, name, i, Dir), NamesRevived(names, d, name, i)[x];
    if x != i && x != d { assert CountOk(g, x, names[x]); }
    forall e ensures e in es <==> NamesIt(h, e, x) {
      RevivedNames(g, d, name, i, e, x);
      if x == i { NothingNames(g, names, home, e, i); }
      if x == d { RemovedUnnamed(g, names, d, e); }
    }
  }

  lemma RevivedCounted(g: Graph, names: map<nat, set<Entry>>, home: map<nat, Name>, d: nat, name: Name, i: nat)
    requires Inv(g, names, home) && Removed(g, d) && i !in g && name.Other? && name !in g[d].entries
    requires !NamesSome(g, d, i)
    ensures Counted(Created(g, d, name, i, Dir), NamesRevived(names, d, name, i))
  {
    var h, m := Created(g, d, name, i, Dir), NamesRevived(names, d, name, i);
    assert m.Keys == h.Keys;
    forall x | x in m ensures CountOk(h, x, m[x]) { RevivedCount(g, names, home, d, name, i, x); }
  }

  lemma {:induction false} SubsetSmaller(s: set<Entry>, t: set<Entry>)
    requires s <= t
    ensures |s| <= |t|
  {
    if s != {} {
      var e :| e in s;
      SubsetSmaller(s - {e}, t - {e});
    }
  }

  lemma TooManyNames(h: Graph, x: nat, es: set<Entry>, fs: set<Entry>)
    requires x in h && h[x].nlink < |es| && forall e | e in es :: NamesIt(h, e, x)
    ensures !CountOk(h, x, fs)
  {
    if CountOk(h, x, fs) { SubsetSmaller(es, fs); }
  }

  // The entry `n` of the removed directory is one name too many for what it names.
  lemma RevivedExtra(g: Graph, names: map<nat, set<Entry>>, home: map<nat, Name>, d: nat, name: Name, i: nat, n: Name)
    returns (es: set<Entry>)
    requires Inv(g, names, home) && Removed(g, d) && i !in g && name.Other? && name !in g[d].entries
    requires n in g[d].entries && n != Self && (g[d].entries[n] in g || g[d].entries[n] == i)
    ensures var h, x := Created(g, d, name, i, Dir), g[d].entries[n];
      x in h && h[x].nlink < |es| && forall e | e in es :: NamesIt(h, e, x)
  {
    var h, x := Created(g, d, name, i, Dir), g[d].entries[n];
    if x == i {
      es := {Entry(d, name), Entry(d, n)};
    } else if x == d {
      es := {Entry(i, Parent), Entry(d, n)};
    } else {
      assert CountOk(g, x, names[x]) && !NamesIt(g, Entry(d, n), x);
      es := names[x] + {Entry(d, n)};
    }
    forall e | e in es ensures NamesIt(h, e, x) { RevivedNames(g, d, name, i, e, x); }
  }

  // Link counts after `create` of a file or device are right exactly if the parent is linked.
  lemma CreateFileCountedIff(g: Graph, names: map<nat, set<Entry>>, home: map<nat, Name>, d: nat, name: Name, i: nat,
                             kind: Kind)
    requires Inv(g, names, home) && MayCreate(g, d, name, i) && kind != Dir
    ensures (exists m :: Counted(Created(g, d, name, i, kind), m)) <==> g[d].nlink > 0
  {
    FreeNameIsOther(g, names, home, d, name);
    if g[d].nlink > 0 {
      CreateKeeps(g, names, home, d, name, i, kind);
    } else {
      OrphanFile(g, names, home, d, name, i, kind);
    }
  }

  // Link counts after `create` of a directory are right exactly if the parent is linked, or no old entry of the removed
  // parent names an inode that exists.
  lemma CreateDirCountedIff(g: Graph, names: map<nat, set<Entry>>, home: map<nat, Name>, d: nat, name: Name, i: nat)
    requires Inv(g, names, home) && MayCreate(g, d, name, i)
    ensures (exists m :: Counted(Created(g, d, name, i, Dir), m)) <==> g[d].nlink > 0 || !NamesSome(g, d, i)
  {
    FreeNameIsOther(g, names, home, d, name);
    if g[d].nlink > 0 {
      CreateKeeps(g, names, home, d, name, i, Dir);
    } else if NamesSome(g, d, i) {
      var n :| n in g[d].entries && n != Self && (g[d].entries[n] in g || g[d].entries[n] == i);
      var h, x := Created(g, d, name, i, Dir), g[d].entries[n];
      var es := RevivedExtra(g, names, home, d, name, i, n);
      forall m ensures !Counted(h, m) {
        if x in m { TooManyNames(h, x, es, m[x]); }
      }
    } else {
      RevivedCounted(g, names, home, d, name, i);
    }
  }

  // Link counts after `link` are right exactly if the parent of the new name is linked.
  lemma LinkCountedIff(g: Graph, names: map<nat, set<Entry>>, home: map<nat, Name>, d: nat, name: Name, i: nat)
    requires Inv(g, names, home) && MayLink(g, d, name, i)
    ensures (exists m :: Counted(LinkedTo(g, d, name, i), m)) <==> g[d].nlink > 0
  {
    FreeNameIsOther(g, names, home, d, name);
    if g[d].nlink > 0 { LinkKeeps(g, names, home, d, name, i); } else { OrphanLink(g, names, home, d, name, i); }
  }

  // The parent that a new directory links again has no ordinary name, so the tree is broken in any case.
  lemma RevivedHasNoName(g: Graph, names: map<nat, set<Entry>>, home: map<nat, Name>, d: nat, name: Name, i: nat,
                         names': map<nat, set<Entry>>, home': map<nat, Name>)
    requires Inv(g, names, home) && Removed(g, d) && i !in g && name.Other? && name !in g[d].entries
    ensures !Inv(Created(g, d, name, i, Dir), names', home')
  {
    var h := Created(g, d, name, i, Dir);
    assert EmptyDir(g[d]);
    if Inv(h, names', home') {
      assert LinkedDir(h, d) && DirOk(h, d) && ParentOk(h, d, home');
      var f := Entry(h[d].entries[Parent], home'[d]);
      RevivedNames(g, d, name, i, f, d);
      RemovedUnnamed(g, names, d, f);
    }
  }

  // ---------------------------------------------------------------- whole runs

  datatype Action =
    | Create(d: nat, name: Name, i: nat, kind: Kind)
    | Link(d: nat, name: Name, i: nat)
    | Unlink(d: nat, name: Name)
    | Reclaim(i: nat)

  ghost predicate Enabled(g: Graph, a: Action) {
    match a
    case Create(d, name, i, kind) => CanCreate(g, d, name, i)
    case Link(d, name, i) => CanLink(g, d, name, i)
    case Unlink(d, name) => CanUnlink(g, d, name)
    case Reclaim(i) => i in g && g[i].nlink == 0
  }

  /** What the source checks; it does not ask whether a parent directory is still linked. */
  ghost predicate Allowed(g: Graph, a: Action) {
    match a
    case Create(d, name, i, kind) => MayCreate(g, d, name, i)
    case Link(d, name, i) => MayLink(g, d, name, i)
    case Unlink(d, name) =>
      && d in g && g[d].kind == Dir && name.Other? && name in g[d].entries && g[d].entries[name] in g
      && (g[g[d].entries[name]].kind == Dir ==> EmptyDir(g[g[d].entries[name]]))
    case Reclaim(i) => i in g && g[i].nlink == 0
  }

  /** A name is added to a directory that was removed. */
  ghost predicate InRemoved(g: Graph, a: Action) {
    (a.Create? || a.Link?) && Removed(g, a.d)
  }

  /** Step `a` leads from `g` to `h`. */
  ghost predicate Next(g: Graph, a: Action, h: Graph) {
    Allowed(g, a)
    && match a
       case Create(d, name, i, kind) => h == Created(g, d, name, i, kind)
       case Link(d, name, i) => h == LinkedTo(g, d, name, i)
       case Unlink(d, name) =>
         var i := g[d].entries[name];
         i != d && g[i].nlink >= 1 && (g[i].kind == Dir ==> g[d].nlink >= 1) && h == Unlinked(g, d, name)
       case Reclaim(i) => h == g - {i}
  }

  /** The root directory alone, as `mkfs` makes it. */
  function Fresh(): Graph {
    map[ROOTINO := Inode(Dir, 1, map[Self := ROOTINO, Parent := ROOTINO])]
  }

  lemma FreshOk()
    ensures Inv(Fresh(), map[ROOTINO := {Entry(ROOTINO, Parent)}], map[])
  {
    var g := Fresh();
    forall e, i ensures NamesIt(g, e, i) <==> e == Entry(ROOTINO, Parent) && i == ROOTINO {
    }
    assert CountOk(g, ROOTINO, {Entry(ROOTINO, Parent)});
  }

  ghost predicate Good(g: Graph) {
    exists names, home :: Inv(g, names, home)
  }

  lemma AllowedIsEnabled(g: Graph, names: map<nat, set<Entry>>, home: map<nat, Name>, a: Action)
    requires Inv(g, names, home) && Allowed(g, a) && !InRemoved(g, a)
    ensures Enabled(g, a)
  {
    match a
    case Create(d, name, i, kind) => FreeNameIsOther(g, names, home, d, name);
    case Link(d, name, i) => FreeNameIsOther(g, names, home, d, name);
    case Unlink(d, name) => RemovedHasNone(g, names, home, d, name);
    case Reclaim(i) =>
  }

  lemma StepKeeps(g: Graph, a: Action, h: Graph)
    requires Good(g) && Next(g, a, h) && !InRemoved(g, a)
    ensures Good(h)
  {
    var names, home :| Inv(g, names, home);
    AllowedIsEnabled(g, names, home, a);
    match a
    case Create(d, name, i, kind) => CreateKeeps(g, names, home, d, name, i, kind);
    case Link(d, name, i) => LinkKeeps(g, names, home, d, name, i);
    case Unlink(d, name) => UnlinkKeeps(g, names, home, d, name);
    case Reclaim(i) => ReclaimKeeps(g, names, home, i);
  }

  lemma RemovedBreaks(g: Graph, names: map<nat, set<Entry>>, home: map<nat, Name>, a: Action, h: Graph,
                      names': map<nat, set<Entry>>, home': map<nat, Name>)
    requires Inv(g, names, home) && Next(g, a, h) && InRemoved(g, a)
    ensures !Inv(h, names', home')
  {
    FreeNameIsOther(g, names, home, a.d, a.name);
    match a
    case Create(d, name, i, kind) =>
      if kind == Dir {
        RevivedHasNoName(g, names, home, d, name, i, names', home');
      } else {
        OrphanFile(g, names, home, d, name, i, kind);
      }
    case Link(d, name, i) => OrphanLink(g, names, home, d, name, i);
  }

  // A step of the source keeps the tree and its link counts right exactly if it adds no name to a removed directory.
  lemma StepKeepsIff(g: Graph, a: Action, h: Graph)
    requires Good(g) && Next(g, a, h)
    ensures Good(h) <==> !InRemoved(g, a)
  {
    if InRemoved(g, a) {
      var names, home :| Inv(g, names, home);
      forall names', home' ensures !Inv(h, names', home') { RemovedBreaks(g, names, home, a, h, names', home'); }
    } else {
      StepKeeps(g, a, h);
    }
  }

  ghost predicate IsRun(gs: seq<Graph>, acts: seq<Action>) {
    |gs| == |acts| + 1 && gs[0] == Fresh() && forall k | 0 <= k < |acts| :: Next(gs[k], acts[k], gs[k + 1])
  }

  /** No step before `k` adds a name to a removed directory. */
  ghost predicate NoneInRemoved(gs: seq<Graph>, acts: seq<Action>, k: nat)
    requires |gs| == |acts| + 1 && k <= |acts|
  {
    forall j | 0 <= j < k :: !InRemoved(gs[j], acts[j])
  }

  lemma {:induction false} RunKeeps(gs: seq<Graph>, acts: seq<Action>, k: nat)
    requires IsRun(gs, acts) && k < |gs| && NoneInRemoved(gs, acts, k)
    ensures Good(gs[k])
    decreases k
  {
    if k == 0 {
      FreshOk();
    } else {
      RunKeeps(gs, acts, k - 1);
      assert Next(gs[k - 1], acts[k - 1], gs[k]);
      StepKeeps(gs[k - 1], acts[k - 1], gs[k]);
    }
  }

  // The first step that adds a name to a removed directory, and no step before it, breaks the tree.
  lemma RunBreaksIff(gs: seq<Graph>, acts: seq<Action>, k: nat)
    requires IsRun(gs, acts) && k < |acts| && NoneInRemoved(gs, acts, k)
    ensures Good(gs[k + 1]) <==> !InRemoved(gs[k], acts[k])
  {
    RunKeeps(gs, acts, k);
    StepKeepsIff(gs[k], acts[k], gs[k + 1]);
  }

  // After every sequence of operations that adds no name to a removed directory, the link count of every inode is the
  // number of entries, other than ".", that name it from linked directories; so what `iput` frees is named by no such
  // entry.
  lemma LinkCounts(gs: seq<Graph>, acts: seq<Action>, k: nat, i: nat) returns (es: set<Entry>)
    requires IsRun(gs, acts) && k < |gs| && NoneInRemoved(gs, acts, k) && i in gs[k]
    ensures gs[k][i].nlink == |es| && forall e :: e in es <==> NamesIt(gs[k], e, i)
    ensures gs[k][i].nlink == 0 ==> forall e :: !NamesIt(gs[k], e, i)
  {
    RunKeeps(gs, acts, k);
    var names, home :| Inv(gs[k], names, home);
    es := names[i];
    assert CountOk(gs[k], i, es);
  }

  // An unlink never meets an inode without links, so its panic cannot be reached.
  lemma UnlinkFindsLink(gs: seq<Graph>, acts: seq<Action>, k: nat, d: nat, name: Name)
    requires IsRun(gs, acts) && k < |gs| && NoneInRemoved(gs, acts, k) && Allowed(gs[k], Unlink(d, name))
    ensures var i := gs[k][d].entries[name];
      && i != d && gs[k][i].nlink >= 1 && (gs[k][i].kind == Dir ==> gs[k][d].nlink >= 1)
      && Next(gs[k], Unlink(d, name), Unlinked(gs[k], d, name))
  {
    RunKeeps(gs, acts, k);
    var names, home :| Inv(gs[k], names, home);
    AllowedIsEnabled(gs[k], names, home, Unlink(d, name));
    UnlinkKeeps(gs[k], names, home, d, name);
  }

  // ---------------------------------------------------------------- a run that goes wrong

  /** The directory "d" with number 2 is made, the file "f" with number 3 is made, and "d" is unlinked. */
  function RemovedTree(): Graph {
    map[ROOTINO := Inode(Dir, 1, map[Self := ROOTINO, Parent := ROOTINO, Other("f") := 3]),
        2 := Inode(Dir, 0, map[Self := 2, Parent := ROOTINO]),
        3 := Inode(File, 1, map[])]
  }

  /** The tree before "d" is unlinked. */
  function FullTree(): Graph {
    map[ROOTINO := Inode(Dir, 2, map[Self := ROOTINO, Parent := ROOTINO, Other("d") := 2, Other("f") := 3]),
        2 := Inode(Dir, 1, map[Self := 2, Parent := ROOTINO]),
        3 := Inode(File, 1, map[])]
  }

  lemma FullTreeMade()
    ensures var g1 := Created(Fresh(), ROOTINO, Other("d"), 2, Dir);
      ROOTINO in g1 && 3 !in g1 && Created(g1, ROOTINO, Other("f"), 3, File) == FullTree()
  {
  }

  lemma RemovedTreeMade()
    ensures Next(FullTree(), Unlink(ROOTINO, Other("d")), RemovedTree())
  {
    assert FullTree()[ROOTINO].entries - {Other("d")} == map[Self := ROOTINO, Parent := ROOTINO, Other("f") := 3];
    assert Unlinked(FullTree(), ROOTINO, Other("d")) == RemovedTree();
  }

  lemma RemovedTreeReached() returns (gs: seq<Graph>, acts: seq<Action>)
    ensures IsRun(gs, acts) && |acts| == 3 && NoneInRemoved(gs, acts, 3) && gs[3] == RemovedTree()
  {
    var g1 := Created(Fresh(), ROOTINO, Other("d"), 2, Dir);
    FullTreeMade();
    RemovedTreeMade();
    gs := [Fresh(), g1, FullTree(), RemovedTree()];
    acts := [Create(ROOTINO, Other("d"), 2, Dir), Create(ROOTINO, Other("f"), 3, File), Unlink(ROOTINO, Other("d"))];
    assert Next(gs[0], acts[0], gs[1]) && Next(gs[1], acts[1], gs[2]);
  }

  // Three steps that the source allows after this run: each leaves an inode with a wrong count.
  lemma RemovedTreeBreaks()
    ensures var g := RemovedTree();
      && Allowed(g, Create(2, Other("x"), 4, File))
      && var h := Created(g, 2, Other("x"), 4, File); h[4].nlink == 1 && forall e :: !NamesIt(h, e, 4)
    ensures var g := RemovedTree();
      && Allowed(g, Link(2, Other("x"), 3))
      && var h := LinkedTo(g, 2, Other("x"), 3);
         h[3].nlink == 2 && forall e :: NamesIt(h, e, 3) <==> e == Entry(ROOTINO, Other("f"))
    ensures var g := RemovedTree();
      && Allowed(g, Create(2, Other("x"), 4, Dir))
      && var h := Created(g, 2, Other("x"), 4, Dir);
         h[ROOTINO].nlink == 1 && NamesIt(h, Entry(ROOTINO, Parent), ROOTINO) && NamesIt(h, Entry(2, Parent), ROOTINO)
  {
  }
}
