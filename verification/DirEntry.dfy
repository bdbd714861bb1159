/** The 16-byte entries that a directory file consists of (kernel/fs.h). */
module DirEntry {
  import opened Directory
  import opened FileBytes

  /** The size of a `struct dirent`: two bytes for the inode number, and the name. */
  const ENTRY: nat := 16

  function Byte(b: int): (r: nat)
    ensures r < 256
  {
    b % 256
  }

  /** The characters before the first NUL. */
  function DecodeName(bs: seq<int>): (r: string)
    ensures |r| <= |bs|
  {
    if bs == [] || Byte(bs[0]) == 0 then "" else [Byte(bs[0]) as char] + DecodeName(bs[1..])
  }

  function DecodeEntry(bs: seq<int>): (r: Dirent)
    requires |bs| == ENTRY
    ensures |r.name| <= DIRSIZ
  {
    Dirent(Byte(bs[0]) + 256 * Byte(bs[1]), DecodeName(bs[2..]))
  }

  /** The entries of a directory file. */
  function DirEntries(data: seq<int>): (ds: seq<Dirent>)
    ensures |ds| == |data| / ENTRY && Short(ds)
    ensures forall k | 0 <= k < |ds| :: ds[k] == DecodeEntry(data[k * ENTRY..k * ENTRY + ENTRY])
  {
    seq(|data| / ENTRY, k requires 0 <= k < |data| / ENTRY => DecodeEntry(data[k * ENTRY..k * ENTRY + ENTRY]))
  }

  /** What a C string holds. */
  predicate IsText(name: string) {
    forall c | c in name :: 0 < c as int < 256
  }

  lemma TruncIsText(name: string)
    requires IsText(name)
    ensures IsText(Trunc(name)) && |Trunc(name)| <= DIRSIZ
  {
    assert forall c | c in Trunc(name) :: c in name;
  }

  /** What `strncpy` makes of a name of at most `n` characters. */
  function NameBytes(name: string, n: nat): (r: seq<int>)
    requires |name| <= n
    ensures |r| == n
  {
    seq(n, i requires 0 <= i < n => if i < |name| then name[i] as int else 0)
  }

  function EncodeEntry(d: Dirent): (r: seq<int>)
    requires |d.name| <= DIRSIZ
    ensures |r| == ENTRY
  {
    [d.inum % 256, d.inum / 256 % 256] + NameBytes(d.name, DIRSIZ)
  }

  lemma {:induction false} NameRoundTrip(name: string, n: nat)
    requires |name| <= n && IsText(name)
    ensures DecodeName(NameBytes(name, n)) == name
  {
    if name != "" {
      assert name[0] in name && forall c | c in name[1..] :: c in name;
      NameRoundTrip(name[1..], n - 1);
      assert NameBytes(name, n)[1..] == NameBytes(name[1..], n - 1);
      assert name == [name[0]] + name[1..];
    }
  }

  // What is written for an entry reads back as the entry.
  lemma EntryRoundTrip(d: Dirent)
    requires |d.name| <= DIRSIZ && IsText(d.name) && d.inum < 65536
    ensures DecodeEntry(EncodeEntry(d)) == d
  {
    NameRoundTrip(d.name, DIRSIZ);
    assert EncodeEntry(d)[2..] == NameBytes(d.name, DIRSIZ);
  }

  // Writing the bytes of an entry at its place sets that entry and no other.
  lemma EntryWritten(data: seq<int>, k: nat, d: Dirent)
    requires |data| % ENTRY == 0 && k <= |data| / ENTRY
    requires |d.name| <= DIRSIZ && IsText(d.name) && d.inum < 65536
    ensures k * ENTRY <= |data|
    ensures var after := Splice(data, k * ENTRY, EncodeEntry(d));
      |after| % ENTRY == 0 && DirEntries(after) == Put(DirEntries(data), k, d)
  {
    var after := Splice(data, k * ENTRY, EncodeEntry(d));
    EntryRoundTrip(d);
    assert after[k * ENTRY..k * ENTRY + ENTRY] == EncodeEntry(d);
    forall j | 0 <= j < |data| / ENTRY && j != k
      ensures after[j * ENTRY..j * ENTRY + ENTRY] == data[j * ENTRY..j * ENTRY + ENTRY]
    {
    }
  }
}
