/** The buffer cache of kernel/bio.c.

Buffers are numbered 0 .. NBUF-1 and NBUF is the list head.  `contents` is the map from
blocks to bytes that the cache and the disk implement together.  `stamp` records, for
every buffer, when its reference count last fell to zero; `ring` is the linked list read
from the head on.  Sleep locks are not modelled: one call runs at a time.
*/
module BufferCache {
  import opened Common
  import opened Ring

  const NBUF: nat := 30

  type Block = seq<int>

  datatype Key = Key(dev: nat, block: nat)

  datatype Buf = Buf(key: Key, valid: bool, refcnt: nat, data: Block)

  /** A buffer as `binit` leaves it, never used. */
  predicate Virgin(b: Buf) {
    b.key == Key(0, 0) && !b.valid && b.refcnt == 0
  }

  /** The list holds the head first and then every buffer. */
  ghost predicate RingOk(ring: seq<nat>, next: seq<nat>, prev: seq<nat>) {
    && Linked(ring, next, prev) && |ring| == NBUF + 1 == |next| && ring[0] == NBUF
    && forall b :: 0 <= b <= NBUF ==> b in ring
  }

  /** Two buffers have the same key only if it is the initial key and the one further back was never used. */
  ghost predicate Unique(bufs: seq<Buf>, ring: seq<nat>)
    requires |bufs| == NBUF && |ring| == NBUF + 1 && forall i :: 1 <= i <= NBUF ==> ring[i] < NBUF
  {
    forall i, j :: 1 <= i < j <= NBUF && bufs[ring[i]].key == bufs[ring[j]].key ==> Virgin(bufs[ring[j]])
  }

  /** The list is in order of last release, the latest first. */
  ghost predicate Stamped(ring: seq<nat>, stamp: seq<int>, clock: int)
    requires |ring| == NBUF + 1 && |stamp| == NBUF && forall i :: 1 <= i <= NBUF ==> ring[i] < NBUF
  {
    && (forall i, j :: 1 <= i < j <= NBUF ==> stamp[ring[i]] > stamp[ring[j]])
    && (forall b :: 0 <= b < NBUF ==> stamp[b] < clock)
  }

  ghost predicate Uncached(bufs: seq<Buf>, k: Key) {
    forall b :: 0 <= b < |bufs| && bufs[b].valid ==> bufs[b].key != k
  }

  /** Buffers hold the contents of their blocks; an unreferenced buffer agrees with the disk, and so does a block
      without a buffer. */
  ghost predicate Agrees(bufs: seq<Buf>, disk: map<Key, Block>, contents: map<Key, Block>) {
    && disk.Keys == contents.Keys
    && (forall b ::
           0 <= b < |bufs| && bufs[b].valid ==> bufs[b].key in contents && contents[bufs[b].key] == bufs[b].data)
    && (forall b :: 0 <= b < |bufs| && bufs[b].valid && bufs[b].refcnt == 0 ==> disk[bufs[b].key] == bufs[b].data)
    && (forall k :: k in disk && Uncached(bufs, k) ==> contents[k] == disk[k])
  }

  /** The list links all buffers, in the order of their last release, and they have different keys. */
  ghost predicate ListOk(bufs: seq<Buf>, ring: seq<nat>, next: seq<nat>, prev: seq<nat>, stamp: seq<int>, clock: int) {
    && |bufs| == NBUF == |stamp| && RingOk(ring, next, prev)
    && (forall i :: 1 <= i <= NBUF ==> ring[i] < NBUF)
    && Unique(bufs, ring) && Stamped(ring, stamp, clock)
  }

  ghost predicate CacheOk(bufs: seq<Buf>, ring: seq<nat>, next: seq<nat>, prev: seq<nat>, stamp: seq<int>, clock: int,
                          disk: map<Key, Block>, contents: map<Key, Block>)
  {
    ListOk(bufs, ring, next, prev, stamp, clock) && Agrees(bufs, disk, contents)
  }

  /** The buffer holds nothing that the disk does not. */
  predicate Clean(b: Buf, disk: map<Key, Block>) {
    b.valid ==> b.key in disk && disk[b.key] == b.data
  }

  // ---------------------------------------------------------------- changes of one buffer

  lemma UniqueKept(bufs: seq<Buf>, ring: seq<nat>, b: nat, x: Buf)
    requires |bufs| == NBUF && |ring| == NBUF + 1 && forall i :: 1 <= i <= NBUF ==> ring[i] < NBUF
    requires Unique(bufs, ring) && b < NBUF && (forall i, j :: 0 <= i < j < |ring| ==> ring[i] != ring[j])
    requires x.key == bufs[b].key && !Virgin(bufs[b])
    ensures Unique(bufs[b := x], ring)
  {
  }

  // Recycling a clean, unreferenced buffer for a block that has none.
  lemma Recycle(bufs: seq<Buf>, ring: seq<nat>, disk: map<Key, Block>, contents: map<Key, Block>, v: nat, k: Key)
    requires |bufs| == NBUF && |ring| == NBUF + 1 && forall i :: 1 <= i <= NBUF ==> ring[i] < NBUF
    requires (forall i, j :: 0 <= i < j < |ring| ==> ring[i] != ring[j]) && (forall b :: 0 <= b <= NBUF ==> b in ring)
    requires Unique(bufs, ring) && Agrees(bufs, disk, contents)
    requires v < NBUF && bufs[v].refcnt == 0 && forall b :: 0 <= b < NBUF ==> bufs[b].key != k
    ensures Unique(bufs[v := Buf(k, false, 1, bufs[v].data)], ring)
    ensures Agrees(bufs[v := Buf(k, false, 1, bufs[v].data)], disk, contents)
  {
    var g := bufs[v := Buf(k, false, 1, bufs[v].data)];
    assert forall c :: 0 <= c < NBUF && c != v ==> g[c] == bufs[c];
    forall q | q in disk && Uncached(g, q)
      ensures contents[q] == disk[q]
    {
      if !Uncached(bufs, q) {
        var b :| 0 <= b < |bufs| && bufs[b].valid && bufs[b].key == q;
        assert b == v;
      }
    }
  }

  ghost predicate Members(ring: seq<nat>) {
    && |ring| == NBUF + 1 && ring[0] == NBUF
    && (forall i :: 1 <= i <= NBUF ==> ring[i] < NBUF)
    && (forall i, j :: 0 <= i < j < |ring| ==> ring[i] != ring[j])
    && (forall b :: 0 <= b <= NBUF ==> b in ring)
  }

  // The first buffer with a key may get a reference.
  lemma HitKept(bufs: seq<Buf>, ring: seq<nat>, p: nat, x: Buf)
    requires |bufs| == NBUF && Members(ring) && Unique(bufs, ring) && 1 <= p <= NBUF
    requires x.key == bufs[ring[p]].key && forall i :: 1 <= i < p ==> bufs[ring[i]].key != x.key
    ensures Unique(bufs[ring[p] := x], ring)
  {
  }

  // Changing a referenced or clean buffer in a way that keeps the abstract contents.
  lemma AgreesKept(bufs: seq<Buf>, disk: map<Key, Block>, contents: map<Key, Block>, b: nat, x: Buf)
    requires Agrees(bufs, disk, contents) && b < |bufs| && x.key == bufs[b].key && (bufs[b].valid ==> x.valid)
    requires x.valid ==> x.key in contents && contents[x.key] == x.data
    requires x.valid && x.refcnt == 0 ==> x.key in disk && disk[x.key] == x.data
    ensures Agrees(bufs[b := x], disk, contents)
  {
    var g := bufs[b := x];
    forall q | q in disk && Uncached(g, q)
      ensures contents[q] == disk[q]
    {
      assert Uncached(bufs, q) by {
        forall c | 0 <= c < |bufs| && bufs[c].valid
          ensures bufs[c].key != q
        {
          assert g[c].valid && g[c].key == bufs[c].key;
        }
      }
    }
  }

  /** A buffer with its reference count changed. */
  function Ref(b: Buf, d: int): Buf
    requires b.refcnt + d >= 0
  {
    b.(refcnt := b.refcnt + d)
  }

  // Dropping a reference keeps the agreement exactly if it is not the last one, or the buffer is clean.
  lemma DropAgreesIff(bufs: seq<Buf>, disk: map<Key, Block>, contents: map<Key, Block>, b: nat)
    requires Agrees(bufs, disk, contents) && b < |bufs| && bufs[b].refcnt >= 1
    ensures Agrees(bufs[b := Ref(bufs[b], -1)], disk, contents) <==> bufs[b].refcnt > 1 || Clean(bufs[b], disk)
  {
    var x := Ref(bufs[b], -1);
    if bufs[b].refcnt > 1 || Clean(bufs[b], disk) {
      AgreesKept(bufs, disk, contents, b, x);
    } else {
      assert bufs[b := x][b] == x;
    }
  }

  // A referenced buffer is not a never-used one, so no buffer with its key is in front of it.
  lemma ReferencedIsFirst(bufs: seq<Buf>, ring: seq<nat>, p: nat)
    requires |bufs| == NBUF && Members(ring) && Unique(bufs, ring) && 1 <= p <= NBUF && !Virgin(bufs[ring[p]])
    ensures forall i :: 1 <= i < p ==> bufs[ring[i]].key != bufs[ring[p]].key
    ensures forall i :: p < i <= NBUF && bufs[ring[i]].key == bufs[ring[p]].key ==> Virgin(bufs[ring[i]])
  {
  }

  /** The list after its element at `p` moved to the front. */
  ghost function ToFront(ring: seq<nat>, p: nat): seq<nat>
    requires 1 <= p < |ring|
  {
    [ring[0], ring[p]] + Without(ring, p)[1..]
  }

  lemma ToFrontAt(ring: seq<nat>, p: nat, i: nat)
    requires 1 <= p < |ring| && i < |ring|
    ensures |ToFront(ring, p)| == |ring|
    ensures ToFront(ring, p)[i] == if i == 0 then ring[0] else if i == 1 then ring[p] else if i <= p then ring[i - 1]
      else ring[i]
  {
  }

  lemma FrontMembers(ring: seq<nat>, p: nat)
    requires Members(ring) && 1 <= p <= NBUF
    ensures Members(ToFront(ring, p))
  {
    var r := ToFront(ring, p);
    forall i: nat | i < |ring|
      ensures r[i] == if i == 0 then ring[0] else if i == 1 then ring[p] else if i <= p then ring[i - 1] else ring[i]
    {
      ToFrontAt(ring, p, i);
    }
    forall b | 0 <= b <= NBUF
      ensures b in r
    {
      assert b in ring;
      var i :| 0 <= i < |ring| && ring[i] == b;
      assert r[if i == 0 then 0 else if i == p then 1 else if i < p then i + 1 else i] == b;
    }
  }

  lemma FrontUnique(bufs: seq<Buf>, ring: seq<nat>, p: nat)
    requires |bufs| == NBUF && Members(ring) && Unique(bufs, ring) && 1 <= p <= NBUF && !Virgin(bufs[ring[p]])
    ensures Members(ToFront(ring, p)) && Unique(bufs, ToFront(ring, p))
  {
    FrontMembers(ring, p);
    ReferencedIsFirst(bufs, ring, p);
    var r := ToFront(ring, p);
    forall i, j | 1 <= i < j <= NBUF && bufs[r[i]].key == bufs[r[j]].key
      ensures Virgin(bufs[r[j]])
    {
      ToFrontAt(ring, p, i);
      ToFrontAt(ring, p, j);
    }
  }

  lemma FrontStamped(ring: seq<nat>, stamp: seq<int>, clock: int, p: nat)
    requires Members(ring) && |stamp| == NBUF && Stamped(ring, stamp, clock) && 1 <= p <= NBUF
    ensures Members(ToFront(ring, p)) && Stamped(ToFront(ring, p), stamp[ring[p] := clock], clock + 1)
  {
    FrontMembers(ring, p);
    var r, st := ToFront(ring, p), stamp[ring[p] := clock];
    forall i, j | 1 <= i < j <= NBUF
      ensures st[r[i]] > st[r[j]]
    {
      ToFrontAt(ring, p, i);
      ToFrontAt(ring, p, j);
    }
  }

  /** The loop of `binit`: pushes the buffers one by one behind the head. */
  method LinkAll() returns (nx: seq<nat>, pv: seq<nat>, ghost r: seq<nat>)
    ensures Linked(r, nx, pv) && |nx| == |r| == NBUF + 1 && r[0] == NBUF
    ensures forall i :: 1 <= i <= NBUF ==> r[i] == NBUF - i
  {
    nx, pv := seq(NBUF + 1, _ => NBUF), seq(NBUF + 1, _ => NBUF);
    r := [NBUF];
    var b := 0;
    while b < NBUF
      invariant b <= NBUF && |nx| == NBUF + 1 && Linked(r, nx, pv) && |r| == b + 1 && r[0] == NBUF
      invariant forall i :: 1 <= i <= b ==> r[i] == b - i
    {
      assert b !in r;
      Push(r, nx, pv, b);
      r := [r[0], b] + r[1..];
      nx, pv := nx[b := nx[NBUF]], pv[b := NBUF];
      pv := pv[nx[NBUF] := b];
      nx := nx[NBUF := b];
      b := b + 1;
    }
  }

  lemma FreshOk(bufs: seq<Buf>, r: seq<nat>, nx: seq<nat>, pv: seq<nat>, stamp: seq<int>, clock: int, disk: map<Key,
                Block>)
    requires Linked(r, nx, pv) && |nx| == |r| == NBUF + 1 && r[0] == NBUF
    requires (forall i :: 1 <= i <= NBUF ==> r[i] == NBUF - i)
    requires |bufs| == NBUF == |stamp| == clock && forall b :: 0 <= b < NBUF ==> Virgin(bufs[b]) && stamp[b] == b
    ensures CacheOk(bufs, r, nx, pv, stamp, clock, disk, disk)
  {
    forall c | 0 <= c <= NBUF
      ensures c in r
    {
      var i := if c == NBUF then 0 else NBUF - c;
      assert r[i] == c;
    }
  }

  ghost predicate Recycled(bufs: seq<Buf>, stamp: seq<int>, v: nat, k: Key)
    requires |bufs| == NBUF == |stamp| && v < NBUF
  {
    && bufs[v].refcnt == 0
    && (forall b :: 0 <= b < NBUF && bufs[b].refcnt == 0 ==> stamp[v] <= stamp[b])
    && (forall b :: 0 <= b < NBUF ==> bufs[b].key != k)
  }

  ghost function PositionOf(ring: seq<nat>, b: nat): (p: nat)
    requires Members(ring) && b < NBUF
    ensures 1 <= p <= NBUF && ring[p] == b
  {
    assert b in ring;
    var p: nat :| p < |ring| && ring[p] == b;
    p
  }

  // Dropping the last reference and moving the buffer to the front keeps everything in order, if the links do.
  lemma ReleaseLast(bufs: seq<Buf>, ring: seq<nat>, next: seq<nat>, prev: seq<nat>, stamp: seq<int>, clock: int,
                    b: nat, p: nat, nx: seq<nat>, pv: seq<nat>)
    requires ListOk(bufs, ring, next, prev, stamp, clock)
    requires b < NBUF && 1 <= p <= NBUF && ring[p] == b && bufs[b].refcnt == 1
    requires RingOk(ToFront(ring, p), nx, pv)
    ensures ListOk(bufs[b := Ref(bufs[b], -1)], ToFront(ring, p), nx, pv, stamp[b := clock], clock + 1)
    ensures ToFront(ring, p)[1] == b
  {
    FrontUnique(bufs, ring, p);
    UniqueKept(bufs, ToFront(ring, p), b, Ref(bufs[b], -1));
    FrontStamped(ring, stamp, clock, p);
  }

  // Besides a referenced buffer, no valid buffer has the same key.
  lemma OnlyOneUsed(bufs: seq<Buf>, ring: seq<nat>, b: nat)
    requires |bufs| == NBUF && Members(ring) && Unique(bufs, ring) && b < NBUF && bufs[b].refcnt >= 1
    ensures forall c :: 0 <= c < NBUF && c != b && bufs[c].key == bufs[b].key ==> Virgin(bufs[c])
  {
    assert b in ring;
    var p: nat :| p < |ring| && ring[p] == b;
    ReferencedIsFirst(bufs, ring, p);
    forall c | 0 <= c < NBUF && c != b && bufs[c].key == bufs[b].key
      ensures Virgin(bufs[c])
    {
      assert c in ring;
      var i :| 0 <= i < |ring| && ring[i] == c;
    }
  }

  // Filling a referenced, invalid buffer from the disk.
  lemma FirstUse(bufs: seq<Buf>, ring: seq<nat>, disk: map<Key, Block>, contents: map<Key, Block>, b: nat)
    requires |bufs| == NBUF && Members(ring) && Unique(bufs, ring) && Agrees(bufs, disk, contents)
    requires b < NBUF && !bufs[b].valid && bufs[b].refcnt >= 1 && bufs[b].key in disk
    ensures var x := bufs[b].(valid := true, data := disk[bufs[b].key]);
      && x.data == contents[x.key]
      && Unique(bufs[b := x], ring) && Agrees(bufs[b := x], disk, contents)
  {
    var x := bufs[b].(valid := true, data := disk[bufs[b].key]);
    assert Uncached(bufs, x.key) by {
      OnlyOneUsed(bufs, ring, b);
    }
    UniqueKept(bufs, ring, b, x);
    AgreesKept(bufs, disk, contents, b, x);
  }

  lemma ModifyAgrees(bufs: seq<Buf>, ring: seq<nat>, disk: map<Key, Block>, contents: map<Key, Block>, b: nat, v: Block)
    requires |bufs| == NBUF && Members(ring) && Unique(bufs, ring) && Agrees(bufs, disk, contents)
    requires b < NBUF && bufs[b].valid && bufs[b].refcnt >= 1
    ensures Agrees(bufs[b := bufs[b].(data := v)], disk, contents[bufs[b].key := v])
  {
    OnlyOneUsed(bufs, ring, b);
    var g, k := bufs[b := bufs[b].(data := v)], bufs[b].key;
    forall q | q in disk && Uncached(g, q)
      ensures q != k && Uncached(bufs, q)
    {
      assert g[b].valid && g[b].key == k;
      forall c | 0 <= c < NBUF && bufs[c].valid
        ensures bufs[c].key != q
      {
        assert g[c].valid && g[c].key == bufs[c].key;
      }
    }
  }

  class Cache {
    var bufs: seq<Buf>
    var next: seq<nat>
    var prev: seq<nat>
    var disk: map<Key, Block>
    ghost var ring: seq<nat>
    ghost var stamp: seq<int>
    ghost var clock: int
    ghost var contents: map<Key, Block>

    ghost predicate Valid()
      reads this
    {
      CacheOk(bufs, ring, next, prev, stamp, clock, disk, contents)
    }

    /** `binit` on a disk: all buffers are unused, and the highest is in front. */
    constructor (disk: map<Key, Block>)
      ensures Valid() && this.disk == disk && contents == disk
      ensures forall b :: 0 <= b < NBUF ==> Virgin(bufs[b])
    {
      var nx, pv;
      ghost var r;
      nx, pv, r := LinkAll();
      next, prev := nx, pv;
      bufs := seq(NBUF, _ => Buf(Key(0, 0), false, 0, []));
      this.disk, contents, ring := disk, disk, r;
      stamp, clock := seq(NBUF, i => i), NBUF;
      new;
      FreshOk(bufs, r, next, prev, stamp, clock, disk);
    }

    /** The forward scan of `bget`: the first buffer in the list with this key. */
    method FindKey(k: Key) returns (r: Option<nat>, ghost p: nat)
      requires Valid()
      ensures r.Some? ==> 1 <= p <= NBUF && r.value == ring[p] && bufs[r.value].key == k
      ensures r.Some? ==> forall i :: 1 <= i < p ==> bufs[ring[i]].key != k
      ensures r.None? ==> forall b :: 0 <= b < NBUF ==> bufs[b].key != k
    {
      assert LinkAt(ring, next, prev, 0);
      var b := next[NBUF];
      p := 1;
      while b != NBUF
        invariant 1 <= p <= NBUF + 1 && b == (if p <= NBUF then ring[p] else NBUF)
        invariant forall i :: 1 <= i < p ==> bufs[ring[i]].key != k
        decreases NBUF + 1 - p
      {
        assert p <= NBUF;
        if bufs[b].key == k {
          return Some(b), p;
        }
        assert LinkAt(ring, next, prev, p);
        b := next[b];
        p := p + 1;
      }
      forall c | 0 <= c < NBUF
        ensures bufs[c].key != k
      {
        assert c in ring;
        var i :| 0 <= i < |ring| && ring[i] == c;
      }
      return None, 0;
    }

    /** The backward scan of `bget`: the unreferenced buffer that was released longest ago. */
    method FindUnreferenced() returns (r: Option<nat>)
      requires Valid()
      ensures r.Some? ==> r.value < NBUF && bufs[r.value].refcnt == 0
      ensures r.Some? ==> forall b :: 0 <= b < NBUF && bufs[b].refcnt == 0 ==> stamp[r.value] <= stamp[b]
      ensures r.None? ==> forall b :: 0 <= b < NBUF ==> bufs[b].refcnt > 0
    {
      assert LinkAt(ring, next, prev, NBUF);
      var b := prev[NBUF];
      ghost var p: nat := NBUF;
      while b != NBUF
        invariant 0 <= p <= NBUF && b == ring[p]
        invariant forall i :: p < i <= NBUF ==> bufs[ring[i]].refcnt > 0
        decreases p
      {
        if bufs[b].refcnt == 0 {
          forall c | 0 <= c < NBUF && bufs[c].refcnt == 0
            ensures stamp[b] <= stamp[c]
          {
            assert c in ring;
            var i :| 0 <= i < |ring| && ring[i] == c;
          }
          return Some(b);
        }
        assert LinkAt(ring, next, prev, p - 1);
        b := prev[b];
        p := p - 1;
      }
      forall c | 0 <= c < NBUF
        ensures bufs[c].refcnt > 0
      {
        assert c in ring;
        var i :| 0 <= i < |ring| && ring[i] == c;
      }
      return None;
    }

    /** `bget`: a referenced buffer for the block, or `None` where the source panics.  On a miss it recycles the
        unreferenced buffer that was released longest ago; a referenced buffer is never recycled. */
    method Bget(k: Key) returns (r: Option<nat>)
      requires Valid() && k in disk
      modifies this`bufs
      ensures Valid()
      ensures r.None? ==> bufs == old(bufs) && forall b :: 0 <= b < NBUF ==> bufs[b].refcnt > 0
      ensures r.Some? ==> r.value < NBUF && bufs[r.value].key == k && bufs == old(bufs)[r.value := bufs[r.value]]
      ensures r.Some? && old(bufs)[r.value].key == k ==> bufs[r.value] == Ref(old(bufs)[r.value], 1)
      ensures r.Some? && old(bufs)[r.value].key != k ==>
        Recycled(old(bufs), stamp, r.value, k) && bufs[r.value].refcnt == 1 && !bufs[r.value].valid
    {
      ghost var p;
      r, p := FindKey(k);
      if r.Some? {
        var b := r.value;
        HitKept(bufs, ring, p, Ref(bufs[b], 1));
        AgreesKept(bufs, disk, contents, b, Ref(bufs[b], 1));
        bufs := bufs[b := Ref(bufs[b], 1)];
        return;
      }
      r := FindUnreferenced();
      if r.Some? {
        var v := r.value;
        Recycle(bufs, ring, disk, contents, v, k);
        bufs := bufs[v := Buf(k, false, 1, bufs[v].data)];
      }
    }

    /** `bread`: a referenced buffer that holds the contents of the block. */
    method Bread(k: Key) returns (r: Option<nat>)
      requires Valid() && k in disk
      modifies this`bufs
      ensures Valid()
      ensures r.None? ==> bufs == old(bufs) && forall b :: 0 <= b < NBUF ==> bufs[b].refcnt > 0
      ensures r.Some? ==>
        r.value < NBUF && bufs[r.value].key == k && bufs[r.value].valid && bufs[r.value].data == contents[k]
      ensures r.Some? ==> bufs == old(bufs)[r.value := bufs[r.value]]
      ensures r.Some? ==>
        bufs[r.value].refcnt == 1 + if old(bufs)[r.value].key == k then old(bufs)[r.value].refcnt else 0
    {
      r := Bget(k);
      if r.Some? && !bufs[r.value].valid {
        var b := r.value;
        FirstUse(bufs, ring, disk, contents, b);
        bufs := bufs[b := bufs[b].(valid := true, data := disk[k])];
      }
    }

    /** What a client does between `bread` and `brelse`: change the bytes of a buffer it holds. */
    method Modify(b: nat, v: Block)
      requires Valid() && b < NBUF && bufs[b].valid && bufs[b].refcnt >= 1
      modifies this`bufs, this`contents
      ensures Valid() && contents == old(contents)[bufs[b].key := v]
      ensures bufs == old(bufs)[b := old(bufs)[b].(data := v)]
    {
      ModifyAgrees(bufs, ring, disk, contents, b, v);
      UniqueKept(bufs, ring, b, bufs[b].(data := v));
      bufs := bufs[b := bufs[b].(data := v)];
      contents := contents[bufs[b].key := v];
    }

    /** `bwrite`: afterwards the disk holds the buffer's bytes. */
    method Bwrite(b: nat)
      requires Valid() && b < NBUF && bufs[b].valid && bufs[b].refcnt >= 1
      modifies this`disk
      ensures Valid() && disk == old(disk)[bufs[b].key := bufs[b].data] && disk[bufs[b].key] == contents[bufs[b].key]
    {
      disk := disk[bufs[b].key := bufs[b].data];
    }

    /** `bpin`. */
    method Bpin(b: nat)
      requires Valid() && b < NBUF && bufs[b].refcnt >= 1
      modifies this`bufs
      ensures Valid() && bufs == old(bufs)[b := Ref(old(bufs)[b], 1)]
    {
      UniqueKept(bufs, ring, b, Ref(bufs[b], 1));
      AgreesKept(bufs, disk, contents, b, Ref(bufs[b], 1));
      bufs := bufs[b := Ref(bufs[b], 1)];
    }

    /** `bunpin`: the cache still agrees with its contents exactly if another reference is left or the buffer is
        clean. */
    method Bunpin(b: nat)
      requires Valid() && b < NBUF && bufs[b].refcnt >= 1
      modifies this`bufs
      ensures ListOk(bufs, ring, next, prev, stamp, clock) && bufs == old(bufs)[b := Ref(old(bufs)[b], -1)]
      ensures Valid() <==> bufs[b].refcnt > 0 || Clean(bufs[b], disk)
    {
      UniqueKept(bufs, ring, b, Ref(bufs[b], -1));
      DropAgreesIff(bufs, disk, contents, b);
      bufs := bufs[b := Ref(bufs[b], -1)];
    }

    /** The pointer stores of `brelse`. */
    method MoveToFront(b: nat, ghost p: nat)
      requires RingOk(ring, next, prev) && Members(ring) && 1 <= p <= NBUF && ring[p] == b
      modifies this`next, this`prev, this`ring
      ensures ring == ToFront(old(ring), p) && RingOk(ring, next, prev)
    {
      Unlink(ring, next, prev, p);
      ghost var rest := Without(ring, p);
      prev, next := prev[next[b] := prev[b]], next[prev[b] := next[b]];
      assert b !in rest;
      Push(rest, next, prev, b);
      next, prev := next[b := next[NBUF]], prev[b := NBUF];
      prev := prev[next[NBUF] := b];
      next := next[NBUF := b];
      FrontMembers(ring, p);
      ring := ToFront(ring, p);
    }

    /** `brelse` of the last reference. */
    method DropLast(b: nat)
      requires Valid() && b < NBUF && bufs[b].refcnt == 1
      modifies this`bufs, this`next, this`prev, this`ring, this`stamp, this`clock
      ensures ListOk(bufs, ring, next, prev, stamp, clock) && bufs == old(bufs)[b := Ref(old(bufs)[b], -1)]
      ensures Valid() <==> Clean(bufs[b], disk)
      ensures ring[1] == b && stamp == old(stamp)[b := old(clock)]
    {
      ghost var p, was, r, nx, pv := PositionOf(ring, b), bufs, ring, next, prev;
      bufs := bufs[b := Ref(bufs[b], -1)];
      MoveToFront(b, p);
      ReleaseLast(was, r, nx, pv, stamp, clock, b, p, next, prev);
      DropAgreesIff(was, disk, contents, b);
      stamp := stamp[b := clock];
      clock := clock + 1;
    }

    /** `brelse`: a buffer that becomes unreferenced moves to the front of the list.  The cache still agrees with its
        contents exactly if another reference is left or the buffer is clean. */
    method Brelse(b: nat)
      requires Valid() && b < NBUF && bufs[b].refcnt >= 1
      modifies this`bufs, this`next, this`prev, this`ring, this`stamp, this`clock
      ensures ListOk(bufs, ring, next, prev, stamp, clock) && bufs == old(bufs)[b := Ref(old(bufs)[b], -1)]
      ensures Valid() <==> bufs[b].refcnt > 0 || Clean(bufs[b], disk)
      ensures bufs[b].refcnt > 0 ==> ring == old(ring)
      ensures bufs[b].refcnt == 0 ==> ring[1] == b && stamp == old(stamp)[b := old(clock)]
    {
      if bufs[b].refcnt == 1 {
        DropLast(b);
      } else {
        UniqueKept(bufs, ring, b, Ref(bufs[b], -1));
        DropAgreesIff(bufs, disk, contents, b);
        bufs := bufs[b := Ref(bufs[b], -1)];
      }
    }
  }
}
