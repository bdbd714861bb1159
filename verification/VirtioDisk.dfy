/** The driver of kernel/virtio_disk.c: what each function does to the ring, as steps of the machine in VirtioRing. */
module VirtioDisk {
  import opened Common
  import opened VirtioRing

  lemma LinksStay(d: seq<Desc>, desc: seq<Desc>, free: seq<bool>, owner: seq<Option<nat>>, chains: map<nat, Chain>)
    requires AllLinked(d, chains) && Partition(free, owner, chains) && |desc| == |d| == NUM
    requires forall i | 0 <= i < NUM :: free[i] || desc[i] == d[i]
    ensures AllLinked(desc, chains)
  {
    forall h | h in chains ensures Linked(desc, h, chains[h]) {
      var c := chains[h];
      assert Owns(owner, h, c) && Linked(d, h, c);
      assert LinkOf(free[h], owner[h], chains, h);
      assert LinkOf(free[c.mid], owner[c.mid], chains, c.mid);
      assert LinkOf(free[c.tail], owner[c.tail], chains, c.tail);
    }
  }

  // Descriptors that belong to no chain may be written.
  lemma FreeDescriptorsAreIrrelevant(s: State, g: Ghosts, desc: seq<Desc>)
    requires Inv(s, g) && |desc| == NUM
    requires forall i | 0 <= i < NUM :: s.free[i] || desc[i] == s.desc[i]
    ensures Inv(s.(desc := desc), g)
  {
    LinksStay(s.desc, desc, s.free, g.owner, g.chains);
  }

  lemma FewFree(free: seq<bool>, idx: seq<nat>)
    requires |idx| < 3 && forall k: nat | k < |free| && free[k] :: k in idx
    ensures |FreeSet(free)| < 3
  {
    if |idx| == 0 {
      assert FreeSet(free) == {};
    } else if |idx| == 1 {
      SubsetCount(FreeSet(free), {idx[0]});
    } else {
      SubsetCount(FreeSet(free), {idx[0], idx[1]});
    }
  }

  lemma ChainTaken(free: seq<bool>, owner: seq<Option<nat>>, chains: map<nat, Chain>, h: nat)
    requires Partition(free, owner, chains) && h in chains
    ensures var c := chains[h];
            h < NUM && c.mid < NUM && c.tail < NUM && !free[h] && !free[c.mid] && !free[c.tail]
  {
    var c := chains[h];
    assert Owns(owner, h, c);
    assert LinkOf(free[h], owner[h], chains, h);
    assert LinkOf(free[c.mid], owner[c.mid], chains, c.mid);
    assert LinkOf(free[c.tail], owner[c.tail], chains, c.tail);
  }

  // When the handler's test holds, its next used element names a chain that was posted and has a buffer.
  lemma Waiting(s: State, g: Ghosts)
    requires Inv(s, g) && s.usedIdx % NUM != s.usedId % NUM
    ensures g.seen < |g.posted|
    ensures var h := s.used[s.usedIdx];
            && h in g.chains && h in g.phase && h < NUM
            && s.infoB[h] == Some(g.chains[h].buf) && g.phase[h] == Posted(g.seen)
  {
    RingsHoldTwo(s, g);
    assert PostedAt(s.used[g.seen % NUM], g.posted[g.seen], g.chains, g.phase, g.seen);
  }

  /** From one phase map to the other, posted chains may have become done and nothing else has changed. */
  ghost predicate OnlyHandled(before: map<nat, Phase>, after: map<nat, Phase>) {
    && before.Keys == after.Keys
    && forall h | h in after :: after[h] == before[h] || (before[h].Posted? && after[h] == Done(before[h].k))
  }

  lemma HandledTwice(a: map<nat, Phase>, b: map<nat, Phase>, c: map<nat, Phase>)
    requires OnlyHandled(a, b) && OnlyHandled(b, c)
    ensures OnlyHandled(a, c)
  {
  }

  lemma HandleEnabled(s: State, g: Ghosts)
    requires Inv(s, g) && s.usedIdx % NUM != s.usedId % NUM
    ensures s.used[s.usedIdx] < NUM && |g.owner| == NUM && g.seen < |g.posted|
    ensures g.posted[g.seen] == s.used[s.usedIdx]
    ensures s.infoStatus[s.used[s.usedIdx]] == 0 ==> Enabled(s, g, Interrupt)
  {
    Waiting(s, g);
    assert PostedAt(s.used[g.seen % NUM], g.posted[g.seen], g.chains, g.phase, g.seen);
  }

  /** The status of the `k`th completion is good. */
  ghost predicate GoodAt(status: seq<int>, posted: seq<nat>, k: nat) {
    k < |posted| && posted[k] < |status| && status[posted[k]] == 0
  }

  /** From `g` to `f` the handler went on over completions with a good status. */
  ghost predicate WentOn(status: seq<int>, g: Ghosts, f: Ghosts) {
    && g.seen <= f.seen && f.posted == g.posted && f.chains == g.chains && OnlyHandled(g.phase, f.phase)
    && forall k | g.seen <= k < f.seen :: GoodAt(status, g.posted, k)
  }

  lemma WentOnMore(status: seq<int>, g: Ghosts, f: Ghosts, e: Ghosts)
    requires WentOn(status, g, f) && WentOn(status, f, e)
    ensures WentOn(status, g, e)
  {
    HandledTwice(g.phase, f.phase, e.phase);
  }

  lemma InterruptGoesOn(s: State, g: Ghosts, t: State, f: Ghosts)
    requires UsedOk(s.used, g) && s.usedIdx == g.seen % NUM && g.seen < |g.posted| && Next(s, g, Interrupt, t, f)
    ensures WentOn(s.infoStatus, g, f)
  {
    assert PostedAt(s.used[g.seen % NUM], g.posted[g.seen], g.chains, g.phase, g.seen);
  }

  lemma HandlesOne(s: State, g: Ghosts, t: State, f: Ghosts)
    requires Inv(s, g) && g.seen < |g.posted| && Next(s, g, Interrupt, t, f)
    ensures Inv(t, f) && WentOn(s.infoStatus, g, f)
  {
    InterruptGoesOn(s, g, t, f);
    StepKeeps(s, g, Interrupt, t, f);
  }

  /** A buffer is off the disk exactly if its completion is among those handled; if there is none yet, it is as
      before. */
  ghost predicate Told(g: Ghosts, was: set<nat>, f: Ghosts, busy: set<nat>) {
    forall h | h in f.chains ::
      && h in g.phase
      && (f.chains[h].buf in busy <==> if g.phase[h].Posted? then f.seen <= g.phase[h].k else f.chains[h].buf in was)
  }

  lemma HandledAreTold(s: State, g: Ghosts, t: State, f: Ghosts)
    requires Dynamic(s, g) && Dynamic(t, f) && f.chains == g.chains && OnlyHandled(g.phase, f.phase)
    ensures Told(g, s.busy, f, t.busy)
  {
    forall h | h in f.chains
      ensures h in g.phase
      ensures f.chains[h].buf in t.busy <==>
        if g.phase[h].Posted? then f.seen <= g.phase[h].k else f.chains[h].buf in s.busy
    {
      assert Stage(f.phase[h], h, f.chains[h].id, f.got, f.seen, f.posted, f.order);
    }
  }

  predicate AllFree(free: seq<bool>, i: nat, j: nat, k: nat) {
    |free| == NUM && i < NUM && j < NUM && k < NUM && i != j && i != k && j != k && free[i] && free[j] && free[k]
  }

  lemma CanSubmit(s: State, g: Ghosts, h: nat, mid: nat, tail: nat, b: nat, sector: nat, write: bool)
    requires Inv(s, g) && b !in g.at && AllFree(s.free, h, mid, tail)
    ensures Enabled(s, g, Submit(h, mid, tail, b, sector, write))
  {
  }

  lemma CannotSubmit(s: State, g: Ghosts, desc: seq<Desc>)
    requires Inv(s, g) && |desc| == NUM && |FreeSet(s.free)| < 3
    requires forall i | 0 <= i < NUM :: s.free[i] || desc[i] == s.desc[i]
    ensures Inv(s.(desc := desc), g) && |g.chains| == 2
  {
    FreeDescriptorsAreIrrelevant(s, g, desc);
    WaitsForTwo(s.free, g.owner, g.chains);
  }

  lemma SubmitIsRequest(s: State, g: Ghosts, a: Action, t: State, f: Ghosts)
    requires a.Submit? && Next(s, g, a, t, f) && Inv(t, f)
    ensures DeviceReads(t.desc, a.h) == Some(Request(a.sector, a.write, a.b, a.h)) && a.b in t.busy
  {
    SubmitCarries(s, g, a, t, f);
    LinkedIsRequest(t.desc, f.chains, a);
  }

  /** Bytes of a block and of a sector. */
  const BSIZE: nat := 1024
  const SECTOR: nat := 512

  class Disk {
    var free: seq<bool>
    var desc: seq<Desc>
    var avail: seq<nat>
    var availIdx: nat
    var used: seq<nat>
    var usedId: nat
    var usedIdx: nat
    var infoB: seq<Option<nat>>
    var infoStatus: seq<int>
    var busy: set<nat>
    var fetched: nat
    var held: set<nat>
    ghost var g: Ghosts

    ghost function Abs(): State
      reads this
    {
      State(free, desc, avail, availIdx, used, usedId, usedIdx, infoB, infoStatus, busy, fetched, held)
    }

    ghost predicate Valid()
      reads this
    {
      Inv(Abs(), g)
    }

    constructor ()
      ensures Valid() && Initial(Abs(), g)
    {
      free := seq(NUM, _ => true);
      desc := seq(NUM, _ => Desc(Null, false, false, 0));
      avail := seq(NUM, _ => 0);
      used := seq(NUM, _ => 0);
      infoB := seq(NUM, _ => None);
      infoStatus := seq(NUM, _ => 0);
      availIdx, usedId, usedIdx, fetched := 0, 0, 0, 0;
      busy, held := {}, {};
      g := Ghosts(map[], seq(NUM, _ => None), map[], map[], [], 0, [], [], 0);
    }

    /** The lowest free descriptor, or -1. */
    method AllocDesc() returns (i: int)
      requires |free| == NUM
      modifies this`free
      ensures -1 <= i < NUM
      ensures i < 0 ==> free == old(free) && forall k | 0 <= k < NUM :: !free[k]
      ensures i >= 0 ==> old(free)[i] && free == old(free)[i := false] && forall k | 0 <= k < i :: !old(free)[k]
    {
      i := 0;
      while i < NUM
        invariant 0 <= i <= NUM && free == old(free)
        invariant forall k | 0 <= k < i :: !free[k]
      {
        if free[i] {
          free := free[i := false];
          return;
        }
        i := i + 1;
      }
      i := -1;
    }

    method FreeDesc(i: nat)
      requires |free| == |desc| == NUM && i < NUM && !free[i]
      modifies this`free, this`desc
      ensures desc == old(desc)[i := old(desc)[i].(addr := Null)] && free == old(free)[i := true]
    {
      desc := desc[i := desc[i].(addr := Null)];
      free := free[i := true];
    }

    /** Follows the links of a chain and frees its three descriptors, none of which is free yet. */
    method FreeChain(h: nat, ghost c: Chain)
      requires |free| == NUM && Linked(desc, h, c) && !free[h] && !free[c.mid] && !free[c.tail]
      modifies this`free, this`desc
      ensures |free| == |desc| == NUM
      ensures free == Set3(old(free), h, c.mid, c.tail, true, true, true)
      ensures desc == Set3(old(desc), h, c.mid, c.tail, old(desc)[h].(addr := Null), old(desc)[c.mid].(addr := Null),
                           old(desc)[c.tail].(addr := Null))
    {
      var i := h;
      ghost var n := 0;
      while true
        invariant |free| == |desc| == NUM && 0 <= n < 3
        invariant i == [h, c.mid, c.tail][n]
        invariant free == Set3(old(free), h, c.mid, c.tail, n > 0, n > 1, false)
        invariant desc == Set3(old(desc), h, c.mid, c.tail,
                               if n > 0 then old(desc)[h].(addr := Null) else old(desc)[h],
                               if n > 1 then old(desc)[c.mid].(addr := Null) else old(desc)[c.mid], old(desc)[c.tail])
        decreases 3 - n
      {
        FreeDesc(i);
        if desc[i].hasNext {
          i := desc[i].next;
          n := n + 1;
        } else {
          break;
        }
      }
    }

    method UndoAlloc(ghost before: seq<bool>, idx: seq<nat>)
      requires |free| == |desc| == |before| == NUM
      requires forall k | 0 <= k < |idx| :: idx[k] < NUM && before[idx[k]]
      requires forall j, k | 0 <= j < k < |idx| :: idx[j] != idx[k]
      requires forall k: nat | k < NUM :: free[k] == (before[k] && k !in idx)
      modifies this`free, this`desc
      ensures free == before && |desc| == NUM
      ensures forall k | 0 <= k < NUM :: free[k] || desc[k] == old(desc)[k]
    {
      var j := 0;
      while j < |idx|
        invariant 0 <= j <= |idx| && |free| == |desc| == NUM
        invariant forall k: nat | k < NUM :: free[k] == (before[k] && k !in idx[j..])
        invariant forall k | 0 <= k < NUM :: before[k] || desc[k] == old(desc)[k]
      {
        assert idx[j] in idx[j..];
        assert idx[j..] == [idx[j]] + idx[j + 1..];
        FreeDesc(idx[j]);
        j := j + 1;
      }
    }

    /** Three distinct free descriptors, now taken; or failure, which means that fewer than three are free. */
    method Alloc3Desc() returns (ok: bool, idx: seq<nat>)
      requires |free| == |desc| == NUM
      modifies this`free, this`desc
      ensures |desc| == NUM
      ensures ok ==> |idx| == 3 && AllFree(old(free), idx[0], idx[1], idx[2])
      ensures ok ==> free == Set3(old(free), idx[0], idx[1], idx[2], false, false, false) && desc == old(desc)
      ensures !ok ==> free == old(free) && |FreeSet(free)| < 3
      ensures !ok ==> forall k | 0 <= k < NUM :: free[k] || desc[k] == old(desc)[k]
    {
      idx := [];
      while |idx| < 3
        invariant |idx| <= 3 && |free| == NUM && desc == old(desc)
        invariant forall k | 0 <= k < |idx| :: idx[k] < NUM && old(free)[idx[k]]
        invariant forall j, k | 0 <= j < k < |idx| :: idx[j] != idx[k]
        invariant forall k: nat | k < NUM :: free[k] == (old(free)[k] && k !in idx)
        decreases 3 - |idx|
      {
        var i := AllocDesc();
        if i < 0 {
          FewFree(old(free), idx);
          UndoAlloc(old(free), idx);
          ok := false;
          return;
        }
        idx := idx + [i];
      }
      ok := true;
    }

    /** Formats three descriptors that were just allocated and puts the chain into the ring. */
    method Enqueue(h: nat, mid: nat, tail: nat, b: nat, sector: nat, write: bool, ghost before: seq<bool>)
      requires |desc| == |infoB| == |infoStatus| == |avail| == |before| == NUM && h < NUM && mid < NUM && tail < NUM
      requires free == Set3(before, h, mid, tail, false, false, false)
      modifies this`desc, this`infoB, this`infoStatus, this`busy, this`avail, this`availIdx
      ensures Abs() == Submitted(old(Abs()).(free := before), h, mid, tail, b, sector, write)
    {
      desc := desc[h := Desc(Header(sector, write), false, true, mid)];
      desc := desc[mid := Desc(Data(b), !write, true, tail)];
      infoStatus := infoStatus[h := 0];
      desc := desc[tail := Desc(Status(h), true, false, 0)];
      busy := busy + {b};
      infoB := infoB[h := Some(b)];
      avail := avail[availIdx % NUM := h];
      availIdx := Inc(availIdx);
    }

    /** Submits three allocated descriptors; `s` is the ring before the allocation. */
    method SubmitChain(h: nat, mid: nat, tail: nat, b: nat, sector: nat, write: bool, ghost s: State)
      requires Inv(s, g) && Enabled(s, g, Submit(h, mid, tail, b, sector, write))
      requires Abs() == s.(free := Set3(s.free, h, mid, tail, false, false, false))
      modifies this
      ensures Valid() && Next(s, old(g), Submit(h, mid, tail, b, sector, write), Abs(), g)
    {
      ghost var a := Submit(h, mid, tail, b, sector, write);
      Enqueue(h, mid, tail, b, sector, write, s.free);
      g := Record(s, g, a);
      StepKeeps(s, old(g), a, Abs(), g);
    }

    /** Allocates and submits; -1 if there were too few free descriptors, and then no field but `desc` has changed. */
    method TrySubmit(b: nat, sector: nat, write: bool) returns (h: int, mid: nat, tail: nat)
      requires Valid() && b !in g.at
      modifies this
      ensures h >= 0 ==> Valid() && Next(old(Abs()), old(g), Submit(h, mid, tail, b, sector, write), Abs(), g)
      ensures h < 0 ==> Abs() == old(Abs()).(desc := desc) && g == old(g) && |FreeSet(free)| < 3 && |desc| == NUM
      ensures h < 0 ==> forall k | 0 <= k < NUM :: free[k] || desc[k] == old(desc)[k]
    {
      ghost var s := Abs();
      assert |free| == |desc| == NUM;
      var ok, idx := Alloc3Desc();
      if ok {
        h, mid, tail := idx[0], idx[1], idx[2];
        CanSubmit(s, g, h, mid, tail, b, sector, write);
        SubmitChain(h, mid, tail, b, sector, write, s);
      } else {
        h, mid, tail := -1, 0, 0;
      }
    }

    /** The first half of `virtio_disk_rw`: a submission for the two sectors of a block, or none while two requests
        are in flight. */
    method Start(b: nat, blockno: nat, write: bool) returns (h: int, mid: nat, tail: nat, sector: nat)
      requires Valid() && b !in g.at
      modifies this
      ensures Valid() && sector == 2 * blockno
      ensures h >= 0 ==> Next(old(Abs()), old(g), Submit(h, mid, tail, b, sector, write), Abs(), g)
      ensures h < 0 ==> Abs() == old(Abs()).(desc := desc) && g == old(g) && |g.chains| == 2
    {
      ghost var s := Abs();
      sector := blockno * (BSIZE / SECTOR);
      h, mid, tail := TrySubmit(b, sector, write);
      if h < 0 { CannotSubmit(s, g, desc); }
    }

    method Release(h: nat, ghost c: Chain)
      requires |free| == |infoB| == NUM && Linked(desc, h, c) && !free[h] && !free[c.mid] && !free[c.tail]
      requires h in g.chains && g.chains[h] == c && |g.owner| == NUM && Enabled(Abs(), g, Finish(h))
      modifies this`infoB, this`free, this`desc, this`g
      ensures Next(old(Abs()), old(g), Finish(h), Abs(), g)
    {
      ghost var s := Abs();
      infoB := infoB[h := None];
      FreeChain(h, c);
      g := Record(s, g, Finish(h));
    }

    /** The second half of `virtio_disk_rw`, once the `disk` flag of the buffer is clear. */
    method End(h: nat)
      requires Valid() && h in g.chains && g.chains[h].buf !in busy
      modifies this
      ensures Valid() && Next(old(Abs()), old(g), Finish(h), Abs(), g)
    {
      ghost var s, c := Abs(), g.chains[h];
      ChainTaken(free, g.owner, g.chains, h);
      assert Linked(desc, h, c);
      Release(h, c);
      StepKeeps(s, old(g), Finish(h), Abs(), g);
    }

    method Mark(b: nat)
      modifies this`busy, this`usedIdx
      ensures Abs() == VirtioRing.Handled(old(Abs()), b)
    {
      busy := busy - {b};
      usedIdx := (usedIdx + 1) % NUM;
    }

    /** Takes the next completion, which has a good status. */
    method TakeCompletion()
      requires Enabled(Abs(), g, Interrupt) && |g.owner| == NUM
      modifies this`busy, this`usedIdx, this`g
      ensures Next(old(Abs()), old(g), Interrupt, Abs(), g)
    {
      ghost var s := Abs();
      Mark(infoB[used[usedIdx]].value);
      g := Record(s, g, Interrupt);
    }

    /** One round of the interrupt handler's loop: at a good status there is a buffer to wake, at a bad one it
        panics. */
    method HandleOne() returns (ok: bool)
      requires Valid() && usedIdx % NUM != usedId % NUM
      modifies this`busy, this`usedIdx, this`g
      ensures Valid() && old(g.seen) < |g.posted| && (ok <==> GoodAt(infoStatus, g.posted, old(g.seen)))
      ensures if ok then Next(old(Abs()), old(g), Interrupt, Abs(), g) else Abs() == old(Abs()) && g == old(g)
      ensures WentOn(infoStatus, old(g), g) && (ok ==> g.seen == old(g.seen) + 1)
    {
      ghost var s := Abs();
      HandleEnabled(s, g);
      ok := infoStatus[used[usedIdx]] == 0;
      if ok {
        TakeCompletion();
        HandlesOne(s, old(g), Abs(), g);
      }
    }

    /** One more round, after those since `g0`. */
    method HandleNext(ghost g0: Ghosts) returns (ok: bool)
      requires Valid() && usedIdx % NUM != usedId % NUM && WentOn(infoStatus, g0, g)
      modifies this`busy, this`usedIdx, this`g
      ensures Valid() && WentOn(infoStatus, g0, g) && (usedIdx % NUM != usedId % NUM <==> g.seen < |g.posted|)
      ensures if ok then old(g.seen) < g.seen else g.seen < |g.posted| && !GoodAt(infoStatus, g.posted, g.seen)
    {
      ghost var f := g;
      ok := HandleOne();
      WentOnMore(infoStatus, g0, f, g);
      RingsHoldTwo(Abs(), g);
    }

    /** The interrupt handler: handles the completions that are waiting, in order, up to the first with a bad status,
        where it panics. */
    method Intr() returns (ok: bool)
      requires Valid()
      modifies this`busy, this`usedIdx, this`g
      ensures Valid() && WentOn(infoStatus, old(g), g) && Told(old(g), old(busy), g, busy)
      ensures if ok then g.seen == |g.posted| else g.seen < |g.posted| && !GoodAt(infoStatus, g.posted, g.seen)
    {
      ok := true;
      RingsHoldTwo(Abs(), g);
      while usedIdx % NUM != usedId % NUM
        invariant Valid() && WentOn(infoStatus, old(g), g)
        invariant ok && (usedIdx % NUM != usedId % NUM <==> g.seen < |g.posted|)
        decreases |g.posted| - g.seen
      {
        ok := HandleNext(old(g));
        if !ok { break; }
      }
      HandledAreTold(old(Abs()), old(g), Abs(), g);
    }
  }
}
