/** `create`, `sys_link` and `sys_unlink` of kernel/sysfile.c step by step, with their undo paths.

Path lookup is a parameter: the inode and the parent directory that `namei` and `nameiparent` found, if any.
*/
module LinkOps {
  import opened Common
  import opened Links

  /** What `nameiparent` returns: a directory, if anything, which may have been removed. */
  predicate IsDir(g: Graph, parent: Option<nat>) {
    parent.Some? ==> parent.value in g && g[parent.value].kind == Dir
  }

  /** Inodes other than these are the same. */
  predicate SameBut(before: Graph, after: Graph, some: set<nat>) {
    && (forall x | x in before && x !in some :: x in after && after[x] == before[x])
    && (forall x | x in after && x !in some :: x in before)
  }

  /** From `before` to `after` inode `i` was made, with one link, and named `name` in `d`. */
  ghost predicate MadeIn(before: Graph, after: Graph, d: nat, name: Name, i: nat, kind: Kind) {
    && d in before && i !in before && d in after && i in after && SameBut(before, after, {d, i})
    && after[i] == Inode(kind, 1, if kind == Dir then map[Self := i, Parent := d] else map[])
    && after[d].kind == before[d].kind && after[d].entries == before[d].entries[name := i]
    && after[d].nlink == before[d].nlink + if kind == Dir then 1 else 0
  }

  /** From `before` to `after` inode `i` got the name `name` in `d`, and one link more. */
  ghost predicate NamedIn(before: Graph, after: Graph, d: nat, name: Name, i: nat) {
    && d in before && i in before && d in after && i in after && SameBut(before, after, {d, i})
    && after[d].kind == before[d].kind && after[d].entries == before[d].entries[name := i]
    && after[i].kind == before[i].kind && after[i].nlink == before[i].nlink + 1
    && (i != d ==> after[i].entries == before[i].entries && after[d].nlink == before[d].nlink)
  }

  /** From `before` to `after` inode `i` lost the name `name` in `d` and one link, and if it is a directory, `d` the
      link from it. */
  ghost predicate UnnamedIn(before: Graph, after: Graph, d: nat, name: Name, i: nat) {
    && d in before && i in before && d in after && i in after && i != d && SameBut(before, after, {d, i})
    && name in before[d].entries && before[d].entries[name] == i
    && after[d].kind == before[d].kind && after[d].entries == before[d].entries - {name}
    && after[i].kind == before[i].kind && after[i].entries == before[i].entries
    && after[i].nlink == before[i].nlink - 1
    && after[d].nlink == before[d].nlink - if before[i].kind == Dir then 1 else 0
  }

  class Tree {
    var g: Graph
    ghost var names: map<nat, set<Entry>>
    ghost var home: map<nat, Name>

    ghost predicate Valid()
      reads this
    {
      Inv(g, names, home)
    }

    constructor ()
      ensures Valid() && g == Fresh()
    {
      g := Fresh();
      names := map[ROOTINO := {Entry(ROOTINO, Parent)}];
      home := map[];
      FreshOk();
    }

    /** `dirlink`: adds an entry unless the name is taken. */
    method DirLink(d: nat, name: Name, i: nat) returns (ok: bool)
      requires d in g
      modifies this`g
      ensures ok <==> name !in old(g)[d].entries
      ensures g == if ok then AddEntry(old(g), d, name, i) else old(g)
    {
      if name in g[d].entries { return false; }
      g := AddEntry(g, d, name, i);
      ok := true;
    }

    ghost method LinkMade(g0: Graph, d: nat, name: Name, i: nat)
      requires Inv(g0, names, home) && MayLink(g0, d, name, i) && g == LinkedTo(g0, d, name, i)
      modifies this`names
      ensures if Removed(g0, d) then !Good(g) else Valid()
    {
      assert Good(g0) && Next(g0, Link(d, name, i), g);
      StepKeepsIff(g0, Link(d, name, i), g);
      if !Removed(g0, d) {
        FreeNameIsOther(g0, names, home, d, name);
        LinkKeeps(g0, names, home, d, name, i);
        names := names[i := names[i] + {Entry(d, name)}];
      }
    }

    // A failed link leaves everything as it was, its counter included; one into a removed directory breaks the tree.
    method SysLink(target: Option<nat>, parent: Option<nat>, name: Name) returns (r: int)
      requires Valid() && (target.Some? ==> target.value in g) && IsDir(g, parent)
      modifies this
      ensures r == 0 || r == -1
      ensures r == 0 <==>
        target.Some? && old(g)[target.value].kind != Dir && parent.Some? && name !in old(g)[parent.value].entries
      ensures r == -1 ==> g == old(g)
      ensures r == 0 ==> NamedIn(old(g), g, parent.value, name, target.value)
      ensures r == 0 && Removed(old(g), parent.value) ==> !Good(g)
      ensures !(r == 0 && Removed(old(g), parent.value)) ==> Valid()
    {
      if target.None? { return -1; }
      var ip := target.value;
      if g[ip].kind == Dir { return -1; }
      g := SetLinks(g, ip, g[ip].nlink + 1);
      var ok := false;
      if parent.Some? {
        ok := DirLink(parent.value, name, ip);
      }
      if ok {
        LinkMade(old(g), parent.value, name, ip);
        r := 0;
      } else {
        g := SetLinks(g, ip, g[ip].nlink - 1);
        assert g == old(g);
        r := -1;
      }
    }

    /** `isdirempty`: no entry but "." and "..". */
    method IsDirEmpty(i: nat) returns (r: bool)
      requires i in g
      ensures r <==> g[i].entries.Keys <= {Self, Parent}
    {
      var left := g[i].entries.Keys;
      while left != {}
        invariant left <= g[i].entries.Keys && forall n | n in g[i].entries && n !in left :: !n.Other?
      {
        var n :| n in left;
        if n.Other? { return false; }
        left := left - {n};
      }
      r := true;
    }

    // Unlinks a file or an empty directory; "." and "..", missing names and directories in use are refused unchanged.
    method SysUnlink(parent: Option<nat>, name: Name) returns (r: int)
      requires Valid() && IsDir(g, parent)
      modifies this
      ensures Valid() && (r == 0 || r == -1)
      ensures r == 0 <==>
        && parent.Some? && name != Self && name != Parent && name in old(g)[parent.value].entries
        && var i := old(g)[parent.value].entries[name];
           i in old(g) && (old(g)[i].kind == Dir ==> old(g)[i].entries.Keys <= {Self, Parent})
      ensures r == -1 ==> g == old(g)
      ensures r == 0 ==> UnnamedIn(old(g), g, parent.value, name, old(g)[parent.value].entries[name])
    {
      if parent.None? { return -1; }
      var dp := parent.value;
      RemovedHasNone(g, names, home, dp, name);
      if !name.Other? { return -1; }
      if name !in g[dp].entries { return -1; }
      assert LinkedDir(g, dp) && DirOk(g, dp);
      var ip := g[dp].entries[name];
      if g[ip].kind == Dir {
        var empty := IsDirEmpty(ip);
        if !empty { return -1; }
      }
      UnlinkKeeps(g, names, home, dp, name);
      ghost var m := NamesUnlinked(g, names, dp, name);
      g := DropEntry(g, dp, name);
      if g[ip].kind == Dir {
        g := SetLinks(g, dp, g[dp].nlink - 1);
      }
      g := SetLinks(g, ip, g[ip].nlink - 1);
      names := m;
      r := 0;
    }

    /** What `create` does once it has found that the name is free. */
    method MakeInode(dp: nat, name: Name, kind: Kind, i: nat)
      requires dp in g && i !in g && name !in g[dp].entries
      modifies this`g
      ensures g == Created(old(g), dp, name, i, kind)
    {
      g := g[i := Inode(kind, 1, map[])];
      if kind == Dir {
        g := SetLinks(g, dp, g[dp].nlink + 1);
        var a := DirLink(i, Self, i);
        var b := DirLink(i, Parent, dp);
        assert a && b;
        assert g[i].entries == map[Self := i, Parent := dp];
      }
      var ok := DirLink(dp, name, i);
      assert ok;
    }

    ghost method InodeMade(g0: Graph, d: nat, name: Name, kind: Kind, i: nat)
      requires Inv(g0, names, home) && MayCreate(g0, d, name, i) && g == Created(g0, d, name, i, kind)
      modifies this`names, this`home
      ensures g != g0 && if Removed(g0, d) then !Good(g) else Valid()
    {
      assert i in g;
      assert Good(g0) && Next(g0, Links.Create(d, name, i, kind), g);
      StepKeepsIff(g0, Links.Create(d, name, i, kind), g);
      if !Removed(g0, d) {
        FreeNameIsOther(g0, names, home, d, name);
        CreateKeeps(g0, names, home, d, name, i, kind);
        names := NamesCreated(names, d, name, i, kind);
        home := home[i := name];
      }
    }

    // A new inode with one link, or the existing file; a new directory has "." and ".." and its parent one link more.
    // In a removed directory it breaks the tree.
    method Create(parent: Option<nat>, name: Name, kind: Kind, i: nat) returns (r: Option<nat>)
      requires Valid() && IsDir(g, parent) && i !in g
      modifies this
      ensures parent.None? ==> r == None && g == old(g)
      ensures parent.Some? && name !in old(g)[parent.value].entries ==>
        r == Some(i) && MadeIn(old(g), g, parent.value, name, i, kind)
      ensures parent.Some? && name in old(g)[parent.value].entries ==>
        var ip := old(g)[parent.value].entries[name];
        && g == old(g)
        && r == if kind == File && ip in g && (g[ip].kind == File || g[ip].kind == Device) then Some(ip) else None
      ensures g != old(g) && Removed(old(g), parent.value) ==> !Good(g)
      ensures !(g != old(g) && Removed(old(g), parent.value)) ==> Valid()
    {
      if parent.None? { return None; }
      var dp := parent.value;
      if name in g[dp].entries {
        var ip := g[dp].entries[name];
        if kind == File && ip in g && (g[ip].kind == File || g[ip].kind == Device) { return Some(ip); }
        return None;
      }
      MakeInode(dp, name, kind, i);
      InodeMade(old(g), dp, name, kind, i);
      r := Some(i);
    }

    /** `iput` of the last reference: an inode without links is freed. */
    method Iput(i: nat, refs: nat)
      requires Valid() && i in g
      modifies this
      ensures Valid() && g == if refs == 1 && old(g)[i].nlink == 0 then old(g) - {i} else old(g)
      ensures i !in g ==> forall e :: !NamesIt(old(g), e, i)
    {
      if refs == 1 && g[i].nlink == 0 {
        ReclaimKeeps(g, names, home, i);
        g := g - {i};
        names := names - {i};
      }
    }
  }
}
