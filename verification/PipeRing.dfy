/** The ring buffer of kernel/pipe.c, whose counters wrap around at 2^32. */
module PipeRing {
  import opened Common

  const PIPESIZE: nat := 512

  datatype Ring = Ring(data: seq<int>, nread: nat, nwrite: nat)

  /** 32-bit unsigned addition. */
  function Add(a: nat, b: nat): nat {
    (a + b) % UINT_LIMIT
  }

  predicate Full(r: Ring) {
    r.nwrite == Add(r.nread, PIPESIZE)
  }

  predicate Empty(r: Ring) {
    r.nread == r.nwrite
  }

  function Put(r: Ring, ch: int): Ring
    requires |r.data| == PIPESIZE
  {
    r.(data := r.data[r.nwrite % PIPESIZE := ch], nwrite := Add(r.nwrite, 1))
  }

  function Head(r: Ring): int
    requires |r.data| == PIPESIZE
  {
    r.data[r.nread % PIPESIZE]
  }

  function Drop(r: Ring): Ring {
    r.(nread := Add(r.nread, 1))
  }

  /** `stored` is everything ever put into the ring and `taken` everything removed from it. */
  ghost predicate Holds(r: Ring, stored: seq<int>, taken: seq<int>) {
    && |r.data| == PIPESIZE
    && taken <= stored && |stored| - |taken| <= PIPESIZE
    && r.nread == |taken| % UINT_LIMIT && r.nwrite == |stored| % UINT_LIMIT
    && forall j :: |taken| <= j < |stored| ==> r.data[j % PIPESIZE] == stored[j]
  }

  // Adding less than 2^32 to a counter either carries once or not at all.
  lemma ModShift(a: nat, d: nat)
    requires d <= PIPESIZE
    ensures (a + d) % UINT_LIMIT == if a % UINT_LIMIT + d < UINT_LIMIT then a % UINT_LIMIT + d
      else a % UINT_LIMIT + d - UINT_LIMIT
    ensures (a % UINT_LIMIT + d) % UINT_LIMIT == (a + d) % UINT_LIMIT
  {
  }

  // The wrapped counters tell an empty ring and a full ring apart, and from every other.
  lemma Tests(r: Ring, stored: seq<int>, taken: seq<int>)
    requires Holds(r, stored, taken)
    ensures Empty(r) <==> |stored| == |taken|
    ensures Full(r) <==> |stored| - |taken| == PIPESIZE
  {
    var a, d := |taken|, |stored| - |taken|;
    ModShift(a, d);
    ModShift(a, PIPESIZE);
  }

  // The ring position is the same for the wrapped counter as for the true count.
  lemma SamePosition(a: nat)
    ensures a % UINT_LIMIT % PIPESIZE == a % PIPESIZE
  {
  }

  lemma DistinctPositions(i: nat, j: nat)
    requires i < j < i + PIPESIZE
    ensures i % PIPESIZE != j % PIPESIZE
  {
  }

  lemma PutHolds(r: Ring, stored: seq<int>, taken: seq<int>, ch: int)
    requires Holds(r, stored, taken) && !Full(r)
    ensures Holds(Put(r, ch), stored + [ch], taken)
  {
    Tests(r, stored, taken);
    SamePosition(|stored|);
    ModShift(|stored|, 1);
    var q := Put(r, ch);
    forall j | |taken| <= j < |stored| + 1
      ensures q.data[j % PIPESIZE] == (stored + [ch])[j]
    {
      if j < |stored| { DistinctPositions(j, |stored|); }
    }
  }

  // What comes out is the oldest byte still in the ring.
  lemma DropHolds(r: Ring, stored: seq<int>, taken: seq<int>)
    requires Holds(r, stored, taken) && !Empty(r)
    ensures Holds(Drop(r), stored, taken + [Head(r)])
  {
    Tests(r, stored, taken);
    SamePosition(|taken|);
    ModShift(|taken|, 1);
  }
}
