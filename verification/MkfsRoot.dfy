/** The root directory of the image that mkfs/mkfs.c writes, as the kernel reads it. */
module MkfsRoot {
  import opened Common
  import opened BlockMap
  import opened FileBytes
  import opened Directory
  import opened DirEntry
  import opened Mkfs

  /** The entries for these names, whose inode numbers start at 2, after "." and "..". */
  function RootList(names: seq<string>): (ds: seq<Dirent>)
    ensures |ds| == 2 + |names| && ds[0] == Dirent(ROOTINO, ".") && ds[1] == Dirent(ROOTINO, "..")
    ensures forall k | 0 <= k < |names| :: ds[2 + k] == Dirent(2 + k, Trunc(names[k]))
  {
    [Dirent(ROOTINO, "."), Dirent(ROOTINO, "..")]
    + seq(|names|, k requires 0 <= k < |names| => Dirent(2 + k, Trunc(names[k])))
  }

  /** Names that fit into entries, with inode numbers that do. */
  predicate GoodNames(names: seq<string>) {
    |names| < 65534 && forall k | 0 <= k < |names| :: IsText(names[k])
  }

  // Appending an entry to a directory file.
  lemma EntryAppended(data: seq<int>, d: Dirent)
    requires |data| % ENTRY == 0 && |d.name| <= DIRSIZ && IsText(d.name) && d.inum < 65536
    ensures |data + EncodeEntry(d)| % ENTRY == 0 && DirEntries(data + EncodeEntry(d)) == DirEntries(data) + [d]
  {
    var k := |data| / ENTRY;
    EntryWritten(data, k, d);
    assert Splice(data, k * ENTRY, EncodeEntry(d)) == data + EncodeEntry(d);
  }

  lemma DotsAreList()
    ensures |RootEntries([])| == 2 * ENTRY && DirEntries(RootEntries([])) == RootList([])
  {
    var dot := Dirent(ROOTINO, ".");
    EntryAppended([], dot);
    assert [] + EncodeEntry(dot) == EncodeEntry(dot);
    EntryAppended(EncodeEntry(dot), Dirent(ROOTINO, ".."));
  }

  lemma ListMore(names: seq<string>, n: nat)
    requires n + 1 == |names|
    ensures RootList(names) == RootList(names[..n]) + [Dirent(2 + n, Trunc(names[n]))]
  {
  }

  // The bytes that mkfs appends are these entries.
  lemma {:induction false} RootIsList(names: seq<string>)
    requires GoodNames(names)
    ensures |RootEntries(names)| == |RootList(names)| * ENTRY && DirEntries(RootEntries(names)) == RootList(names)
  {
    if names == [] {
      DotsAreList();
    } else {
      var n := |names| - 1;
      RootIsList(names[..n]);
      TruncIsText(names[n]);
      EntryAppended(RootEntries(names[..n]), Dirent(2 + n, Trunc(names[n])));
      ListMore(names, n);
      RootEntriesMore(names, n);
      assert names[..n + 1] == names;
    }
  }

  // ---------------------------------------------------------------- the zeros behind the entries

  /** `n` free entries. */
  function Free(n: nat): (ds: seq<Dirent>)
    ensures |ds| == n && forall k | 0 <= k < n :: ds[k] == Dirent(0, "")
  {
    seq(n, _ => Dirent(0, ""))
  }

  lemma ZeroEntry(bs: seq<int>)
    requires |bs| == ENTRY && forall k | 0 <= k < ENTRY :: bs[k] == 0
    ensures DecodeEntry(bs) == Dirent(0, "")
  {
    assert EncodeEntry(Dirent(0, "")) == bs;
    EntryRoundTrip(Dirent(0, ""));
  }

  lemma ZerosAreFree(data: seq<int>, n: nat)
    requires |data| % ENTRY == 0
    ensures DirEntries(data + Zeros(n * ENTRY)) == DirEntries(data) + Free(n)
  {
    var d := data + Zeros(n * ENTRY);
    var m := |data| / ENTRY;
    assert |d| / ENTRY == m + n;
    forall k | 0 <= k < m + n ensures DirEntries(d)[k] == (DirEntries(data) + Free(n))[k] {
      var bs := d[k * ENTRY..k * ENTRY + ENTRY];
      if k < m {
        assert bs == data[k * ENTRY..k * ENTRY + ENTRY];
      } else {
        ZeroEntry(bs);
      }
    }
  }

  lemma {:induction false} FreeHasNoNames(ds: seq<Dirent>, n: nat)
    ensures Entries(ds + Free(n)) == Entries(ds)
  {
    if n == 0 {
      assert ds + Free(0) == ds;
    } else {
      FreeHasNoNames(ds, n - 1);
      assert (ds + Free(n))[..|ds| + n - 1] == ds + Free(n - 1);
    }
  }

  lemma FreeIsUnique(ds: seq<Dirent>, n: nat)
    ensures Unique(ds + Free(n)) <==> Unique(ds)
  {
    var more := ds + Free(n);
    if Unique(more) {
      assert forall k | 0 <= k < |ds| :: more[k] == ds[k];
    }
  }

  // ---------------------------------------------------------------- what the kernel reads

  /** Different names, none of them "." or "..", as far as the first 14 bytes go. */
  ghost predicate DistinctNames(names: seq<string>) {
    && (forall k | 0 <= k < |names| :: Trunc(names[k]) != "." && Trunc(names[k]) != "..")
    && (forall j, k | 0 <= j < k < |names| :: Trunc(names[j]) != Trunc(names[k]))
  }

  lemma ListUniqueIff(names: seq<string>)
    ensures Unique(RootList(names)) <==> DistinctNames(names)
  {
    var ds := RootList(names);
    if Unique(ds) {
      forall k | 0 <= k < |names| ensures Trunc(names[k]) != "." && Trunc(names[k]) != ".." {
        assert ds[0].name != ds[2 + k].name && ds[1].name != ds[2 + k].name;
      }
      forall j, k | 0 <= j < k < |names| ensures Trunc(names[j]) != Trunc(names[k]) {
        assert ds[2 + j].name != ds[2 + k].name;
      }
    }
  }

  lemma PaddingIsFree(data: seq<int>) returns (n: nat)
    requires |data| % ENTRY == 0
    ensures Padded(data) == data + Zeros(n * ENTRY)
  {
    n := (RootSize(|data|) - |data|) / ENTRY;
    assert n * ENTRY == RootSize(|data|) - |data|;
  }

  // The kernel reads the entries that were there before the size was rounded up, and free ones.
  lemma PaddedReads(data: seq<int>, list: seq<Dirent>)
    requires |data| % ENTRY == 0 && DirEntries(data) == list
    ensures |Padded(data)| % ENTRY == 0
    ensures Unique(DirEntries(Padded(data))) <==> Unique(list)
    ensures Entries(DirEntries(Padded(data))) == Entries(list)
  {
    var n := PaddingIsFree(data);
    ZerosAreFree(data, n);
    FreeHasNoNames(list, n);
    FreeIsUnique(list, n);
  }

  // The root directory of the image is a directory for the kernel exactly if the names are different.  Then it has the
  // names "." and ".." of the root itself and the given names, each with the inode of its file, and no others.
  lemma RootIsDirectoryIff(names: seq<string>)
    requires GoodNames(names)
    ensures var data := Padded(RootEntries(names));
      |data| % ENTRY == 0 && (Unique(DirEntries(data)) <==> DistinctNames(names))
    ensures DistinctNames(names) ==>
      var m := Entries(DirEntries(Padded(RootEntries(names))));
      && "." in m && m["."] == ROOTINO && ".." in m && m[".."] == ROOTINO
      && (forall k | 0 <= k < |names| :: Trunc(names[k]) in m && m[Trunc(names[k])] == 2 + k)
      && (forall x | x in m :: x == "." || x == ".." || exists k | 0 <= k < |names| :: x == Trunc(names[k]))
  {
    var list := RootList(names);
    RootIsList(names);
    PaddedReads(RootEntries(names), list);
    ListUniqueIff(names);
    if DistinctNames(names) {
      EntriesAre(list);
      forall k | 0 <= k < |names| ensures Trunc(names[k]) in Entries(list) && Entries(list)[Trunc(names[k])] == 2 + k {
        assert list[2 + k] == Dirent(2 + k, Trunc(names[k]));
      }
      forall x | x in Entries(list)
        ensures x == "." || x == ".." || exists k | 0 <= k < |names| :: x == Trunc(names[k])
      {
        var i :| 0 <= i < |list| && list[i] == Dirent(Entries(list)[x], x);
        if i >= 2 { assert x == Trunc(names[i - 2]); }
      }
    }
  }
}
