/** Directories as files of entries, and path names (kernel/fs.c). */
module Directory {
  import opened Common

  const DIRSIZ: nat := 14
  const MAXENTRIES: nat := 268 * 1024 / 16

  /** A slot of a directory; inode number 0 marks it free. */
  datatype Dirent = Dirent(inum: nat, name: string)

  /** The bytes of a name that count. */
  function Trunc(name: string): string {
    if |name| > DIRSIZ then name[..DIRSIZ] else name
  }

  /** No two slots in use have the same name. */
  ghost predicate Unique(ds: seq<Dirent>) {
    forall i, j | 0 <= i < j < |ds| && ds[i].inum != 0 && ds[j].inum != 0 :: ds[i].name != ds[j].name
  }

  ghost predicate Short(ds: seq<Dirent>) {
    forall i | 0 <= i < |ds| :: |ds[i].name| <= DIRSIZ
  }

  /** The directory as a map from names to inode numbers. */
  ghost function Entries(ds: seq<Dirent>): map<string, nat> {
    if ds == [] then map[]
    else
      var last := ds[|ds| - 1];
      var m := Entries(ds[..|ds| - 1]);
      if last.inum == 0 then m else m[last.name := last.inum]
  }

  // The map holds exactly the slots in use.
  lemma {:induction false} EntriesAre(ds: seq<Dirent>)
    requires Unique(ds)
    ensures forall i | 0 <= i < |ds| && ds[i].inum != 0 ::
      ds[i].name in Entries(ds) && Entries(ds)[ds[i].name] == ds[i].inum
    ensures forall n | n in Entries(ds) ::
      Entries(ds)[n] != 0 && exists i | 0 <= i < |ds| :: ds[i] == Dirent(Entries(ds)[n], n)
    decreases |ds|
  {
    if ds != [] {
      var k := |ds| - 1;
      var pre := ds[..k];
      EntriesAre(pre);
      forall i | 0 <= i < |ds| && ds[i].inum != 0
        ensures ds[i].name in Entries(ds) && Entries(ds)[ds[i].name] == ds[i].inum
      {
        if i < k { assert pre[i] == ds[i]; }
      }
      forall n | n in Entries(ds)
        ensures Entries(ds)[n] != 0 && exists i | 0 <= i < |ds| :: ds[i] == Dirent(Entries(ds)[n], n)
      {
        if n in Entries(pre) && Entries(ds)[n] == Entries(pre)[n] {
          var i :| 0 <= i < |pre| && pre[i] == Dirent(Entries(pre)[n], n);
          assert ds[i] == Dirent(Entries(ds)[n], n);
        } else {
          assert ds[k] == Dirent(Entries(ds)[n], n);
        }
      }
    }
  }

  lemma SameMap(a: map<string, nat>, b: map<string, nat>)
    requires (forall n | n in a :: n in b && b[n] == a[n]) && forall n | n in b :: n in a
    ensures a == b
  {
  }

  /** The entries after one of them, or one behind the last, is set. */
  function Put(ds: seq<Dirent>, k: nat, d: Dirent): seq<Dirent>
    requires k <= |ds|
  {
    if k < |ds| then ds[k := d] else ds + [d]
  }

  // Writing a free slot, or one behind the last, adds a name.
  lemma SetAdds(ds: seq<Dirent>, k: nat, d: Dirent)
    requires Unique(ds) && k <= |ds| && (k < |ds| ==> ds[k].inum == 0) && d.inum != 0 && d.name !in Entries(ds)
    ensures Unique(Put(ds, k, d)) && Entries(Put(ds, k, d)) == Entries(ds)[d.name := d.inum]
  {
    var es := Put(ds, k, d);
    EntriesAre(ds);
    EntriesAre(es);
    var m := Entries(ds)[d.name := d.inum];
    forall n | n in m ensures n in Entries(es) && Entries(es)[n] == m[n] {
      if n == d.name {
        assert es[k] == d;
      } else {
        var i :| 0 <= i < |ds| && ds[i] == Dirent(Entries(ds)[n], n);
        assert es[i] == ds[i];
      }
    }
    forall n | n in Entries(es) ensures n in m {
      var i :| 0 <= i < |es| && es[i] == Dirent(Entries(es)[n], n);
      if i != k { assert es[i] == ds[i]; }
    }
    SameMap(m, Entries(es));
  }

  // Clearing a slot removes its name.
  lemma ClearRemoves(ds: seq<Dirent>, k: nat)
    requires Unique(ds) && k < |ds| && ds[k].inum != 0
    ensures Unique(ds[k := Dirent(0, "")]) && Entries(ds[k := Dirent(0, "")]) == Entries(ds) - {ds[k].name}
  {
    var es := ds[k := Dirent(0, "")];
    EntriesAre(ds);
    EntriesAre(es);
    var m := Entries(ds) - {ds[k].name};
    forall n | n in m ensures n in Entries(es) && Entries(es)[n] == m[n] {
      var i :| 0 <= i < |ds| && ds[i] == Dirent(Entries(ds)[n], n);
      assert es[i] == ds[i];
    }
    forall n | n in Entries(es) ensures n in m {
      var i :| 0 <= i < |es| && es[i] == Dirent(Entries(es)[n], n);
      assert i != k && es[i] == ds[i];
    }
    SameMap(m, Entries(es));
  }

  /** A directory file may grow, or has a free slot. */
  ghost predicate HasRoom(ds: seq<Dirent>) {
    |ds| < MAXENTRIES || exists i | 0 <= i < |ds| :: ds[i].inum == 0
  }

  /** The inode number and the slot of a name; number 0 if it is not there. */
  method DirLookup(ds: seq<Dirent>, name: string) returns (inum: nat, slot: nat)
    requires Unique(ds) && Short(ds)
    ensures inum != 0 <==> Trunc(name) in Entries(ds)
    ensures inum != 0 ==> slot < |ds| && ds[slot] == Dirent(inum, Trunc(name)) && Entries(ds)[Trunc(name)] == inum
  {
    EntriesAre(ds);
    slot := 0;
    while slot < |ds|
      invariant slot <= |ds| && forall i | 0 <= i < slot :: ds[i].inum == 0 || ds[i].name != Trunc(name)
    {
      if ds[slot].inum != 0 && ds[slot].name == Trunc(name) {
        return ds[slot].inum, slot;
      }
      slot := slot + 1;
    }
    inum := 0;
  }

  /** How `dirlink` ends. */
  datatype LinkResult = Added | Exists | Panicked

  class DirFile {
    var ds: seq<Dirent>

    ghost predicate Valid()
      reads this
    {
      Unique(ds) && Short(ds)
    }

    /** The first free slot, or the end. */
    method FreeSlot() returns (k: nat)
      ensures k <= |ds| && (k < |ds| ==> ds[k].inum == 0) && forall i | 0 <= i < k :: ds[i].inum != 0
    {
      k := 0;
      while k < |ds| && ds[k].inum != 0
        invariant k <= |ds| && forall i | 0 <= i < k :: ds[i].inum != 0
      {
        k := k + 1;
      }
    }

    /** Writes an entry into a free slot or behind the last one. */
    method Store(k: nat, d: Dirent)
      requires Valid() && k <= |ds| && (k < |ds| ==> ds[k].inum == 0) && d.inum != 0 && d.name !in Entries(ds)
      requires |d.name| <= DIRSIZ
      modifies this
      ensures Valid() && Entries(ds) == Entries(old(ds))[d.name := d.inum]
      ensures |ds| == if k < |old(ds)| then |old(ds)| else |old(ds)| + 1
    {
      SetAdds(ds, k, d);
      ds := Put(ds, k, d);
    }

    // Adds a name that is not there yet, keyed by its first 14 bytes; panics if the directory cannot grow.
    method DirLink(name: string, inum: nat) returns (r: LinkResult)
      requires Valid() && inum != 0
      modifies this
      ensures Valid() && (|old(ds)| <= MAXENTRIES ==> |ds| <= MAXENTRIES)
      ensures r == if Trunc(name) in Entries(old(ds)) then Exists else if HasRoom(old(ds)) then Added else Panicked
      ensures r != Added ==> ds == old(ds)
      ensures r == Added ==> Entries(ds) == Entries(old(ds))[Trunc(name) := inum]
    {
      var found, slot := DirLookup(ds, name);
      if found != 0 { return Exists; }
      var k := FreeSlot();
      if k >= MAXENTRIES && k == |ds| { return Panicked; }
      Store(k, Dirent(inum, Trunc(name)));
      r := Added;
    }

    // Clears the slot of a name.
    method DirUnlink(name: string) returns (r: int)
      requires Valid()
      modifies this
      ensures Valid() && r == if Trunc(name) in Entries(old(ds)) then 0 else -1
      ensures Entries(ds) == Entries(old(ds)) - {Trunc(name)}
    {
      var inum, slot := DirLookup(ds, name);
      if inum == 0 {
        SameMap(Entries(ds), Entries(ds) - {Trunc(name)});
        return -1;
      }
      ClearRemoves(ds, slot);
      ds := ds[slot := Dirent(0, "")];
      r := 0;
    }
  }

  // ---------------------------------------------------------------- paths

  /** The length of the run of characters before the first slash. */
  function Run(path: string): (n: nat)
    ensures n <= |path|
  {
    if path == "" || path[0] == '/' then 0 else 1 + Run(path[1..])
  }

  /** The elements of a path: the runs between slashes. */
  function Elems(path: string): seq<string> {
    if path == "" then [] else if path[0] == '/' then Elems(path[1..])
    else [path[..Run(path)]] + Elems(path[Run(path)..])
  }

  /** A path made of names. */
  function Join(names: seq<string>): string {
    if names == [] then "" else "/" + names[0] + Join(names[1..])
  }

  lemma {:induction false} RunOf(name: string, rest: string)
    requires '/' !in name && (rest == "" || rest[0] == '/')
    ensures Run(name + rest) == |name|
    decreases |name|
  {
    if name != "" {
      RunOf(name[1..], rest);
      assert (name + rest)[1..] == name[1..] + rest;
    } else {
      assert name + rest == rest;
    }
  }

  lemma ElemsOfFirst(name: string, rest: string)
    requires name != "" && '/' !in name && (rest == "" || rest[0] == '/')
    ensures Elems("/" + name + rest) == [name] + Elems(rest)
  {
    RunOf(name, rest);
    var s := name + rest;
    assert ("/" + name + rest)[1..] == s;
    assert s[..|name|] == name && s[|name|..] == rest;
  }

  // The elements of a path made of names are these names.
  lemma {:induction false} ElemsOfJoin(names: seq<string>)
    requires forall i | 0 <= i < |names| :: names[i] != "" && '/' !in names[i]
    ensures Elems(Join(names)) == names
    decreases |names|
  {
    if names != [] {
      ElemsOfJoin(names[1..]);
      ElemsOfFirst(names[0], Join(names[1..]));
    }
  }

  lemma {:induction false} ElemsOfSlashes(path: string, k: nat)
    requires k <= |path| && forall i | 0 <= i < k :: path[i] == '/'
    ensures Elems(path) == Elems(path[k..])
    decreases k
  {
    if k > 0 {
      ElemsOfSlashes(path[1..], k - 1);
      assert path[1..][k - 1..] == path[k..];
    }
  }

  ghost predicate AllSlashes(s: string) {
    forall i | 0 <= i < |s| :: s[i] == '/'
  }

  /** Behind slashes from the start of the path on, `name` goes from `a` to before `b`. */
  ghost predicate ElemAt(path: string, a: nat, b: nat, name: string) {
    && a < b <= |path| && AllSlashes(path[..a]) && path[a..b] == name && '/' !in name
    && (b < |path| ==> path[b] == '/')
  }

  /** The path is these names, with slashes between them, and maybe before and behind them. */
  ghost predicate PathOf(path: string, names: seq<string>)
    decreases |names|
  {
    if names == [] then AllSlashes(path)
    else exists a: nat, b: nat :: ElemAt(path, a, b, names[0]) && PathOf(path[b..], names[1..])
  }

  lemma SlashesSkipped(path: string, a: nat)
    requires a <= |path| && AllSlashes(path[..a])
    ensures Elems(path) == Elems(path[a..])
  {
    forall i | 0 <= i < a ensures path[i] == '/' { assert path[..a][i] == path[i]; }
    ElemsOfSlashes(path, a);
  }

  lemma ElemIsFirst(path: string, a: nat, b: nat, name: string)
    requires ElemAt(path, a, b, name)
    ensures Elems(path) == [name] + Elems(path[b..])
  {
    SlashesSkipped(path, a);
    var s := path[a..];
    assert s == name + path[b..] && s[|name|..] == path[b..];
    RunOf(name, path[b..]);
    assert s[0] == name[0] && name[0] in name;
  }

  lemma NoElem(path: string, a: nat, b: nat, name: string)
    requires AllSlashes(path)
    ensures !ElemAt(path, a, b, name)
  {
    if a < b <= |path| { assert path[a..b][0] == '/'; }
  }

  // Where the first element starts, or the end.
  lemma {:induction false} SlashEnd(path: string) returns (a: nat)
    ensures a <= |path| && AllSlashes(path[..a]) && (a < |path| ==> path[a] != '/')
    decreases |path|
  {
    a := 0;
    if path != "" && path[0] == '/' {
      var n := SlashEnd(path[1..]);
      a := n + 1;
      assert path[..a] == [path[0]] + path[1..][..n];
    }
  }

  lemma {:induction false} RunHasNoSlash(s: string)
    ensures '/' !in s[..Run(s)] && (Run(s) < |s| ==> s[Run(s)] == '/')
  {
    if s != "" && s[0] != '/' {
      RunHasNoSlash(s[1..]);
      assert s[..Run(s)] == [s[0]] + s[1..][..Run(s[1..])];
    }
  }

  lemma FirstElem(path: string) returns (a: nat, b: nat)
    requires !AllSlashes(path)
    ensures Elems(path) != [] && ElemAt(path, a, b, Elems(path)[0]) && Elems(path)[1..] == Elems(path[b..])
  {
    a := SlashEnd(path);
    assert path[..|path|] == path;
    var s := path[a..];
    b := a + Run(s);
    RunHasNoSlash(s);
    SlashesSkipped(path, a);
    assert path[a..b] == s[..Run(s)] && path[b..] == s[Run(s)..];
  }

  // The elements of a path are the names that it consists of, whatever slashes there are.
  lemma {:induction false} ElemsExactly(path: string, names: seq<string>)
    ensures PathOf(path, names) <==> names == Elems(path)
    decreases |names|
  {
    if AllSlashes(path) {
      assert path[..|path|] == path && path[|path|..] == "";
      SlashesSkipped(path, |path|);
      forall a: nat, b: nat, name ensures !ElemAt(path, a, b, name) { NoElem(path, a, b, name); }
    } else if names != [] {
      var a, b := FirstElem(path);
      if PathOf(path, names) {
        var a': nat, b': nat :| ElemAt(path, a', b', names[0]) && PathOf(path[b'..], names[1..]);
        ElemIsFirst(path, a', b', names[0]);
        ElemsExactly(path[b'..], names[1..]);
        assert names == [names[0]] + names[1..];
      }
      if names == Elems(path) { ElemsExactly(path[b..], names[1..]); }
    } else {
      var a, b := FirstElem(path);
    }
  }

  method SkipSlashes(path: string) returns (rest: string)
    ensures Elems(rest) == Elems(path) && (rest != "" ==> rest[0] != '/') && |rest| <= |path|
    ensures rest == "" <==> Elems(path) == []
  {
    var k := 0;
    while k < |path| && path[k] == '/'
      invariant k <= |path| && forall i | 0 <= i < k :: path[i] == '/'
    {
      k := k + 1;
    }
    ElemsOfSlashes(path, k);
    rest := path[k..];
  }

  lemma RunIs(s: string, n: nat)
    requires n <= |s| && '/' !in s[..n] && (n < |s| ==> s[n] == '/')
    ensures Run(s) == n
  {
    assert s[..n] + s[n..] == s;
    RunOf(s[..n], s[n..]);
  }

  /** `skipelem`: the first element of the path, cut to 14 bytes, and the rest of the path. */
  method SkipElem(path: string) returns (found: bool, name: string, rest: string)
    ensures found <==> Elems(path) != []
    ensures found ==> name == Trunc(Elems(path)[0]) && Elems(rest) == Elems(path)[1..] && |rest| < |path|
    ensures found ==> (rest == "" <==> |Elems(path)| == 1)
  {
    var s := SkipSlashes(path);
    if s == "" { return false, "", ""; }
    var n := 0;
    while n < |s| && s[n] != '/'
      invariant n <= |s| && '/' !in s[..n]
    {
      assert s[..n + 1] == s[..n] + [s[n]];
      n := n + 1;
    }
    RunIs(s, n);
    name := if n >= DIRSIZ then s[..DIRSIZ] else s[..n];
    assert n >= DIRSIZ ==> s[..n][..DIRSIZ] == s[..DIRSIZ];
    rest := SkipSlashes(s[n..]);
    found := true;
  }

  // ---------------------------------------------------------------- name lookup

  datatype Node = Dir(ds: seq<Dirent>) | NotDir

  /** The inode that a list of elements leads to from `ip`. */
  ghost function Resolve(fs: map<nat, Node>, ip: nat, names: seq<string>): Option<nat>
    decreases |names|
  {
    if names == [] then Some(ip)
    else if ip !in fs || fs[ip].NotDir? || Trunc(names[0]) !in Entries(fs[ip].ds) then None
    else Resolve(fs, Entries(fs[ip].ds)[Trunc(names[0])], names[1..])
  }

  ghost predicate AllDirsOk(fs: map<nat, Node>) {
    forall i | i in fs && fs[i].Dir? :: Unique(fs[i].ds) && Short(fs[i].ds)
  }

  /** What `namex` finds: the inode, or with `parent` the directory that holds the last element. */
  ghost function Target(fs: map<nat, Node>, start: nat, names: seq<string>, parent: bool): Option<nat> {
    if !parent then Resolve(fs, start, names)
    else if names == [] then None
    else
      var d := Resolve(fs, start, names[..|names| - 1]);
      if d.Some? && d.value in fs && fs[d.value].Dir? then d else None
  }

  lemma TruncTwice(name: string)
    ensures Trunc(Trunc(name)) == Trunc(name)
  {
  }

  // Going one element down changes neither what is found nor what is left to find.
  lemma TargetStep(fs: map<nat, Node>, ip: nat, names: seq<string>, parent: bool)
    requires names != [] && (parent ==> |names| > 1)
    requires ip in fs && fs[ip].Dir? && Trunc(names[0]) in Entries(fs[ip].ds)
    ensures Target(fs, ip, names, parent) == Target(fs, Entries(fs[ip].ds)[Trunc(names[0])], names[1..], parent)
  {
    if parent {
      assert names[..|names| - 1][1..] == names[1..][..|names| - 2];
    }
  }

  lemma TargetFails(fs: map<nat, Node>, ip: nat, names: seq<string>, parent: bool)
    requires names != []
    requires ip !in fs || fs[ip].NotDir? || ((parent ==> |names| > 1) && Trunc(names[0]) !in Entries(fs[ip].ds))
    ensures Target(fs, ip, names, parent) == None
  {
  }

  /** The state of the loop: what is left of the path, and the inode and the reference held. */
  ghost predicate Walking(fs: map<nat, Node>, start: nat, all: seq<string>, parent: bool, ip: nat, names: seq<string>) {
    && Target(fs, ip, names, parent) == Target(fs, start, all, parent)
    && (names != [] ==> all != [] && names[|names| - 1] == all[|all| - 1])
  }

  lemma WalkOn(fs: map<nat, Node>, start: nat, all: seq<string>, parent: bool, ip: nat, names: seq<string>, next: nat)
    requires Walking(fs, start, all, parent, ip, names) && names != [] && (parent ==> |names| > 1)
    requires ip in fs && fs[ip].Dir? && Trunc(names[0]) in Entries(fs[ip].ds)
    requires next == Entries(fs[ip].ds)[Trunc(names[0])]
    ensures Walking(fs, start, all, parent, next, names[1..])
  {
    TargetStep(fs, ip, names, parent);
  }

  lemma StopsAtLast(fs: map<nat, Node>, ip: nat, names: seq<string>)
    requires |names| == 1 && ip in fs && fs[ip].Dir?
    ensures Target(fs, ip, names, true) == Some(ip)
  {
    assert names[..0] == [];
  }

  datatype Outcome = Stop | Fail | Down(next: nat)

  /** One round of the loop of `namex` at inode `ip`; `last` says that no element follows. */
  method Step(fs: map<nat, Node>, ip: nat, name: string, parent: bool, last: bool, ghost names: seq<string>)
    returns (o: Outcome)
    requires AllDirsOk(fs) && names != [] && name == Trunc(names[0]) && (last <==> |names| == 1)
    ensures o == Stop ==> parent && last && Target(fs, ip, names, parent) == Some(ip)
    ensures o == Fail ==> Target(fs, ip, names, parent) == None
    ensures o.Down? ==> (parent ==> |names| > 1) && ip in fs && fs[ip].Dir?
    ensures o.Down? ==> name in Entries(fs[ip].ds) && o.next == Entries(fs[ip].ds)[name]
  {
    if ip !in fs || fs[ip].NotDir? {
      TargetFails(fs, ip, names, parent);
      return Fail;
    }
    if parent && last {
      StopsAtLast(fs, ip, names);
      return Stop;
    }
    TruncTwice(names[0]);
    var next, _ := DirLookup(fs[ip].ds, name);
    if next == 0 {
      TargetFails(fs, ip, names, parent);
      return Fail;
    }
    o := Down(next);
  }

  /** The loop of `namex` from inode `start`, to which it holds a reference. */
  method Walk(fs: map<nat, Node>, path: string, start: nat, parent: bool, refs: multiset<nat>)
    returns (r: Option<nat>, name: string, after: multiset<nat>)
    requires AllDirsOk(fs)
    ensures r == Target(fs, start, Elems(path), parent)
    ensures r.Some? && parent ==> Elems(path) != [] && name == Trunc(Elems(path)[|Elems(path)| - 1])
    ensures after == if r.Some? then refs + multiset{r.value} else refs
  {
    var ip := start;
    after := refs + multiset{ip};
    var found, elem, rest := SkipElem(path);
    name := elem;
    ghost var all := Elems(path);
    ghost var names := all;
    while found
      invariant after == refs + multiset{ip} && Walking(fs, start, all, parent, ip, names) && (found <==> names != [])
      invariant found ==> name == Trunc(names[0]) && Elems(rest) == names[1..] && (rest == "" <==> |names| == 1)
      decreases |names|
    {
      var step := Step(fs, ip, name, parent, rest == "", names);
      if step == Stop {
        return Some(ip), name, after;
      }
      if step == Fail {
        after := after - multiset{ip};
        return None, name, after;
      }
      WalkOn(fs, start, all, parent, ip, names, step.next);
      after := after + multiset{step.next} - multiset{ip};
      ip, names := step.next, names[1..];
      found, elem, rest := SkipElem(rest);
      if found { name := elem; }
    }
    if parent {
      after := after - multiset{ip};
      return None, name, after;
    }
    r := Some(ip);
  }

  // A lookup starts at the root for an absolute path and at the current directory for any other.  It holds one
  // reference more at the end if it succeeds, and none if it fails.
  method NameX(fs: map<nat, Node>, path: string, cwd: nat, parent: bool, refs: multiset<nat>)
    returns (r: Option<nat>, name: string, after: multiset<nat>)
    requires AllDirsOk(fs)
    ensures path != "" && path[0] == '/' ==> r == Target(fs, ROOTINO, Elems(path), parent)
    ensures path == "" || path[0] != '/' ==> r == Target(fs, cwd, Elems(path), parent)
    ensures r.Some? && parent ==> Elems(path) != [] && name == Trunc(Elems(path)[|Elems(path)| - 1])
    ensures after == if r.Some? then refs + multiset{r.value} else refs
  {
    if path != "" && path[0] == '/' {
      r, name, after := Walk(fs, path, ROOTINO, parent, refs);
    } else {
      r, name, after := Walk(fs, path, cwd, parent, refs);
    }
  }

  // Two walks of an absolute path find the same inode, whatever the current directories are.
  method AbsoluteWalksAgree(fs: map<nat, Node>, path: string, cwd: nat, other: nat, parent: bool, refs: multiset<nat>)
    returns (r: Option<nat>, q: Option<nat>)
    requires AllDirsOk(fs) && path != "" && path[0] == '/'
    ensures r == q == Target(fs, ROOTINO, Elems(path), parent)
  {
    var name, after;
    r, name, after := NameX(fs, path, cwd, parent, refs);
    q, name, after := NameX(fs, path, other, parent, refs);
  }
}
