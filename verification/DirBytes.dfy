/** Directories as the bytes of a file (kernel/fs.c, kernel/sysfile.c): `dirlookup`, `dirlink` and the store of
`sys_unlink`, which read and write 16-byte entries with `readi` and `writei`. */
module DirBytes {
  import opened Common
  import opened BlockMap
  import opened FileBytes
  import opened Accounting
  import opened FileSteps
  import opened FileSystem
  import opened Directory
  import opened DirEntry

  /** Inode `i` is a directory: its file holds whole entries, and no two in use have the same name. */
  ghost predicate IsDir(files: seq<seq<int>>, i: nat) {
    i < |files| && |files[i]| % ENTRY == 0 && Unique(DirEntries(files[i]))
  }

  /** The names of a directory. */
  ghost function DirMap(files: seq<seq<int>>, i: nat): map<string, nat>
    requires i < |files|
  {
    Entries(DirEntries(files[i]))
  }

  /** `readi` of entry `k`. */
  method ReadEntry(fs: FileSystem, i: nat, k: nat) returns (d: Dirent)
    requires fs.Consistent() && IsDir(fs.files, i) && k < |DirEntries(fs.files[i])|
    modifies fs`used, fs`bytes, fs`words, fs`inodes, fs`logged, fs`owner
    ensures fs.Abs() == old(fs.Abs()) && fs.logged == old(fs.logged) && fs.owner == old(fs.owner)
    ensures fs.Consistent() && d == DirEntries(fs.files[i])[k]
  {
    assert IsFile(fs.Abs(), i, fs.files[i]);
    var r, bs := fs.Readi(i, k * ENTRY, ENTRY);
    d := DecodeEntry(bs);
  }

  method DirSize(fs: FileSystem, i: nat) returns (size: nat)
    requires fs.Consistent() && IsDir(fs.files, i)
    ensures size == |fs.files[i]| == |DirEntries(fs.files[i])| * ENTRY
  {
    assert IsFile(fs.Abs(), i, fs.files[i]);
    size := fs.inodes[i].size;
  }

  predicate Matches(d: Dirent, name: string) {
    d.inum != 0 && d.name == name
  }

  lemma MatchIsEntry(ds: seq<Dirent>, k: nat, name: string)
    requires Unique(ds) && k < |ds| && Matches(ds[k], name)
    ensures name in Entries(ds) && Entries(ds)[name] == ds[k].inum && ds[k] == Dirent(ds[k].inum, name)
  {
    EntriesAre(ds);
  }

  lemma EntryMatches(ds: seq<Dirent>, name: string)
    requires Unique(ds) && name in Entries(ds)
    ensures exists k | 0 <= k < |ds| :: Matches(ds[k], name)
  {
    EntriesAre(ds);
    var k :| 0 <= k < |ds| && ds[k] == Dirent(Entries(ds)[name], name);
    assert Matches(ds[k], name);
  }

  /** `dirlookup`: the inode number and the slot of a name; number 0 if it is not there. */
  method Lookup(fs: FileSystem, i: nat, name: string) returns (inum: nat, slot: nat)
    requires fs.Consistent() && IsDir(fs.files, i)
    modifies fs`used, fs`bytes, fs`words, fs`inodes, fs`logged, fs`owner
    ensures fs.Abs() == old(fs.Abs()) && fs.logged == old(fs.logged) && fs.owner == old(fs.owner)
    ensures inum != 0 <==> Trunc(name) in DirMap(fs.files, i)
    ensures inum != 0 ==> DirMap(fs.files, i)[Trunc(name)] == inum
    ensures inum != 0 ==> slot < |DirEntries(fs.files[i])| && DirEntries(fs.files[i])[slot] == Dirent(inum, Trunc(name))
  {
    ghost var ds := DirEntries(fs.files[i]);
    var short := Trunc(name);
    var size := DirSize(fs, i);
    slot := 0;
    while slot * ENTRY < size
      invariant fs.Abs() == old(fs.Abs()) && fs.logged == old(fs.logged) && fs.owner == old(fs.owner)
      invariant fs.Consistent() && slot <= |ds| && forall k | 0 <= k < slot :: !Matches(ds[k], short)
    {
      var d := ReadEntry(fs, i, slot);
      if Matches(d, short) {
        MatchIsEntry(ds, slot, short);
        return d.inum, slot;
      }
      slot := slot + 1;
    }
    if short in Entries(ds) { EntryMatches(ds, short); }
    inum := 0;
  }

  predicate FreeAt(ds: seq<Dirent>, k: nat) {
    k < |ds| && ds[k].inum == 0
  }

  /** The first free slot of a directory from `k` on, or the end. */
  function FirstFree(ds: seq<Dirent>, k: nat): (r: nat)
    requires k <= |ds|
    ensures k <= r <= |ds| && (r < |ds| ==> FreeAt(ds, r))
    ensures forall j | k <= j < r :: !FreeAt(ds, j)
    decreases |ds| - k
  {
    if k == |ds| || FreeAt(ds, k) then k else FirstFree(ds, k + 1)
  }

  method FreeSlot(fs: FileSystem, i: nat) returns (k: nat)
    requires fs.Consistent() && IsDir(fs.files, i)
    modifies fs`used, fs`bytes, fs`words, fs`inodes, fs`logged, fs`owner
    ensures fs.Abs() == old(fs.Abs()) && fs.logged == old(fs.logged) && fs.owner == old(fs.owner)
    ensures k == FirstFree(DirEntries(fs.files[i]), 0)
  {
    ghost var ds := DirEntries(fs.files[i]);
    var size := DirSize(fs, i);
    k := 0;
    while k * ENTRY < size
      invariant fs.Abs() == old(fs.Abs()) && fs.logged == old(fs.logged) && fs.owner == old(fs.owner)
      invariant fs.Consistent() && k <= |ds| && FirstFree(ds, k) == FirstFree(ds, 0)
    {
      var d := ReadEntry(fs, i, k);
      if d.inum == 0 { break; }
      k := k + 1;
    }
  }

  /** The size of the directory and the free blocks allow to write entry `k`. */
  ghost predicate CanStore(used: seq<bool>, data: seq<int>, k: nat) {
    k < MAXENTRIES && NeededBy(|data|, k * ENTRY, ENTRY) <= FreeCount(used)
  }

  // Overwriting an entry takes no blocks.
  lemma CanOverwrite(used: seq<bool>, data: seq<int>, k: nat)
    requires |data| % ENTRY == 0 && k < |data| / ENTRY && |data| <= MAXFILE * BSIZE
    ensures CanStore(used, data, k)
  {
    assert EndBlock(k * ENTRY, ENTRY) <= Blocks(|data|);
  }

  /** Only file `i` may differ. */
  ghost predicate OnlyFile(before: seq<seq<int>>, after: seq<seq<int>>, i: nat) {
    |after| == |before| && forall j | 0 <= j < |before| && j != i :: after[j] == before[j]
  }

  /** `writei` of an entry; false where the source panics. */
  method StoreEntry(fs: FileSystem, i: nat, k: nat, d: Dirent) returns (ok: bool)
    requires fs.Consistent() && IsDir(fs.files, i) && k <= |DirEntries(fs.files[i])|
    requires |d.name| <= DIRSIZ && IsText(d.name) && d.inum < 65536
    modifies fs
    ensures ok <==> CanStore(old(fs.used), old(fs.files)[i], k)
    ensures ok ==> fs.Consistent() && OnlyFile(old(fs.files), fs.files, i) && i < |fs.files|
    ensures ok ==> |fs.files[i]| % ENTRY == 0 && DirEntries(fs.files[i]) == Put(DirEntries(old(fs.files)[i]), k, d)
  {
    assert IsFile(fs.Abs(), i, fs.files[i]);
    EntryWritten(fs.files[i], k, d);
    var r, fits, cost := fs.Writei(i, k * ENTRY, EncodeEntry(d));
    ok := fits && r == ENTRY;
  }

  /** The second half of `dirlink`: stores a new name in the first free slot. */
  method AddEntry(fs: FileSystem, i: nat, d: Dirent) returns (ok: bool)
    requires fs.Consistent() && IsDir(fs.files, i) && d.name !in DirMap(fs.files, i)
    requires |d.name| <= DIRSIZ && IsText(d.name) && 0 < d.inum < 65536
    modifies fs
    ensures ok <==> CanStore(old(fs.used), old(fs.files)[i], FirstFree(DirEntries(old(fs.files)[i]), 0))
    ensures ok ==> fs.Consistent() && IsDir(fs.files, i) && OnlyFile(old(fs.files), fs.files, i)
    ensures ok ==> DirMap(fs.files, i) == DirMap(old(fs.files), i)[d.name := d.inum]
  {
    var k := FreeSlot(fs, i);
    SetAdds(DirEntries(fs.files[i]), k, d);
    ok := StoreEntry(fs, i, k, d);
  }

  // `dirlink` adds a name that is not there yet, keyed by its first 14 bytes.  It panics exactly if the entry cannot be
  // written: at the end of a directory of maximal size, or if the disk has no block for it.
  method Link(fs: FileSystem, i: nat, name: string, inum: nat) returns (r: LinkResult)
    requires fs.Consistent() && IsDir(fs.files, i) && IsText(name) && 0 < inum < 65536
    modifies fs
    ensures r == Exists <==> Trunc(name) in DirMap(old(fs.files), i)
    ensures r != Exists ==>
      (r == Added <==> CanStore(old(fs.used), old(fs.files)[i], FirstFree(DirEntries(old(fs.files)[i]), 0)))
    ensures r != Panicked ==> fs.Consistent() && IsDir(fs.files, i) && OnlyFile(old(fs.files), fs.files, i)
    ensures r == Exists ==> fs.files == old(fs.files)
    ensures r == Added ==> DirMap(fs.files, i) == DirMap(old(fs.files), i)[Trunc(name) := inum]
  {
    var found, slot := Lookup(fs, i, name);
    if found != 0 { return Exists; }
    TruncIsText(name);
    var ok := AddEntry(fs, i, Dirent(inum, Trunc(name)));
    r := if ok then Added else Panicked;
  }

  // What `sys_unlink` does to the directory: the entry of a name is overwritten with zeros.
  method Unlink(fs: FileSystem, i: nat, name: string) returns (r: int)
    requires fs.Consistent() && IsDir(fs.files, i)
    modifies fs
    ensures fs.Consistent() && IsDir(fs.files, i) && OnlyFile(old(fs.files), fs.files, i)
    ensures r == if Trunc(name) in DirMap(old(fs.files), i) then 0 else -1
    ensures DirMap(fs.files, i) == DirMap(old(fs.files), i) - {Trunc(name)}
  {
    var inum, slot := Lookup(fs, i, name);
    if inum == 0 {
      SameMap(DirMap(fs.files, i), DirMap(fs.files, i) - {Trunc(name)});
      return -1;
    }
    assert IsFile(fs.Abs(), i, fs.files[i]);
    CanOverwrite(fs.used, fs.files[i], slot);
    ClearRemoves(DirEntries(fs.files[i]), slot);
    var ok := StoreEntry(fs, i, slot, Dirent(0, ""));
    r := 0;
  }
}
