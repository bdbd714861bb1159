/** The request ring that kernel/virtio_disk.c shares with the disk, as a step machine.

Driver threads submit and finish requests, the interrupt handler takes completions out of the used ring, and the device
fetches requests in ring order and completes them in any order.  `Ghosts` is history: what each index was used for.
*/
module VirtioRing {
  import opened Common

  const NUM: nat := 8
  const U16: nat := 0x1_0000

  datatype Addr = Null | Header(sector: nat, write: bool) | Data(buf: nat) | Status(slot: nat)

  /** A descriptor; `write` says that the device writes the memory, `hasNext` that `next` continues the chain. */
  datatype Desc = Desc(addr: Addr, write: bool, hasNext: bool, next: nat)

  /** `avail` and `used` are the rings, `availIdx` and `usedId` their free-running 16-bit counters, `usedIdx` how far
      the driver has looked in `used`, `infoB` and `infoStatus` the two fields of `info`; `busy` holds the buffers
      whose `disk` flag is set.  `fetched` and `held` belong to the device. */
  datatype State = State(
    free: seq<bool>,
    desc: seq<Desc>,
    avail: seq<nat>,
    availIdx: nat,
    used: seq<nat>,
    usedId: nat,
    usedIdx: nat,
    infoB: seq<Option<nat>>,
    infoStatus: seq<int>,
    busy: set<nat>,
    fetched: nat,
    held: set<nat>
  )

  /** A chain that starts at some head descriptor; `id` counts submissions. */
  datatype Chain = Chain(id: nat, mid: nat, tail: nat, buf: nat, sector: nat, write: bool)

  datatype Phase = Queued | Held | Posted(k: nat) | Done(k: nat)

  /** `owner[i]` is the head of the chain descriptor `i` belongs to, `at[b]` the head of the chain of buffer `b`,
      `phase` where each chain is; `submitted` and `posted` are the heads ever put in the two rings, `order` the
      submissions in the order of their completion, `seen` the number of completions the driver has handled. */
  datatype Ghosts = Ghosts(
    chains: map<nat, Chain>,
    owner: seq<Option<nat>>,
    at: map<nat, nat>,
    phase: map<nat, Phase>,
    submitted: seq<nat>,
    got: nat,
    posted: seq<nat>,
    order: seq<nat>,
    seen: nat
  )

  datatype Action =
    | Submit(h: nat, mid: nat, tail: nat, b: nat, sector: nat, write: bool)
    | Fetch
    | Complete(h: nat, status: int)
    | Interrupt
    | Finish(h: nat)

  /** Adding one to a 16-bit counter. */
  function Inc(c: nat): nat {
    if c + 1 == U16 then 0 else c + 1
  }

  /** A count as a 16-bit counter shows it. */
  function Wrap(n: nat): nat {
    if n < U16 then n else Wrap(n - U16)
  }

  // ---------------------------------------------------------------- steps

  ghost predicate Shape(s: State) {
    && |s.free| == NUM && |s.desc| == NUM && |s.avail| == NUM && |s.used| == NUM && |s.infoB| == NUM
    && |s.infoStatus| == NUM && s.usedIdx < NUM
  }

  /** When a step may be taken; a submitter holds the lock of its buffer, and a finisher waits for its own buffer. */
  ghost predicate Enabled(s: State, g: Ghosts, a: Action) {
    Shape(s)
    && match a
       case Submit(h, mid, tail, b, _, _) =>
         && h < NUM && mid < NUM && tail < NUM && h != mid && h != tail && mid != tail
         && s.free[h] && s.free[mid] && s.free[tail] && b !in g.at
       case Fetch => s.fetched != s.availIdx
       case Complete(h, _) => h in s.held && h < NUM
       case Interrupt =>
         && s.usedIdx % NUM != s.usedId % NUM && s.used[s.usedIdx] < NUM
         && s.infoStatus[s.used[s.usedIdx]] == 0 && s.infoB[s.used[s.usedIdx]].Some?
       case Finish(h) =>
         && h in g.chains && h < NUM && g.chains[h].mid < NUM && g.chains[h].tail < NUM
         && g.chains[h].buf !in s.busy
  }

  function Set3<T>(a: seq<T>, i: nat, j: nat, k: nat, x: T, y: T, z: T): (r: seq<T>)
    requires i < |a| && j < |a| && k < |a|
    ensures |r| == |a|
  {
    a[i := x][j := y][k := z]
  }

  function Submitted(s: State, h: nat, mid: nat, tail: nat, b: nat, sector: nat, write: bool): State
    requires |s.free| == |s.desc| == |s.infoB| == |s.infoStatus| == |s.avail| == NUM
    requires h < NUM && mid < NUM && tail < NUM
  {
    s.(free := Set3(s.free, h, mid, tail, false, false, false),
       desc := Set3(s.desc, h, mid, tail, Desc(Header(sector, write), false, true, mid),
                    Desc(Data(b), !write, true, tail), Desc(Status(h), true, false, 0)),
       infoB := s.infoB[h := Some(b)],
       infoStatus := s.infoStatus[h := 0],
       busy := s.busy + {b},
       avail := s.avail[s.availIdx % NUM := h],
       availIdx := Inc(s.availIdx))
  }

  function Finished(s: State, h: nat, mid: nat, tail: nat): State
    requires |s.free| == |s.desc| == |s.infoB| == NUM && h < NUM && mid < NUM && tail < NUM
  {
    s.(infoB := s.infoB[h := None],
       free := Set3(s.free, h, mid, tail, true, true, true),
       desc := Set3(s.desc, h, mid, tail, s.desc[h].(addr := Null), s.desc[mid].(addr := Null),
                    s.desc[tail].(addr := Null)))
  }

  function Handled(s: State, b: nat): State {
    s.(busy := s.busy - {b}, usedIdx := (s.usedIdx + 1) % NUM)
  }

  function Apply(s: State, g: Ghosts, a: Action): State
    requires Enabled(s, g, a)
  {
    match a
    case Submit(h, mid, tail, b, sector, write) => Submitted(s, h, mid, tail, b, sector, write)
    case Fetch => s.(held := s.held + {s.avail[s.fetched % NUM]}, fetched := Inc(s.fetched))
    case Complete(h, status) =>
      s.(held := s.held - {h}, infoStatus := s.infoStatus[h := status],
         used := s.used[s.usedId % NUM := h], usedId := Inc(s.usedId))
    case Interrupt => Handled(s, s.infoB[s.used[s.usedIdx]].value)
    case Finish(h) => Finished(s, h, g.chains[h].mid, g.chains[h].tail)
  }

  ghost function Record(s: State, g: Ghosts, a: Action): Ghosts
    requires Enabled(s, g, a) && |g.owner| == NUM
  {
    match a
    case Submit(h, mid, tail, b, sector, write) =>
      g.(chains := g.chains[h := Chain(|g.submitted|, mid, tail, b, sector, write)],
         owner := Set3(g.owner, h, mid, tail, Some(h), Some(h), Some(h)),
         at := g.at[b := h],
         phase := g.phase[h := Queued],
         submitted := g.submitted + [h])
    case Fetch => g.(got := g.got + 1, phase := g.phase[s.avail[s.fetched % NUM] := Held])
    case Complete(h, _) =>
      g.(posted := g.posted + [h],
         order := g.order + [if h in g.chains then g.chains[h].id else 0],
         phase := g.phase[h := Posted(|g.posted|)])
    case Interrupt => g.(seen := g.seen + 1, phase := g.phase[s.used[s.usedIdx] := Done(g.seen)])
    case Finish(h) =>
      var c := g.chains[h];
      g.(chains := g.chains - {h}, owner := Set3(g.owner, h, c.mid, c.tail, None, None, None), at := g.at - {c.buf},
         phase := g.phase - {h})
  }

  /** Step `a` leads from the first state to the second. */
  ghost predicate Next(s: State, g: Ghosts, a: Action, t: State, f: Ghosts) {
    Enabled(s, g, a) && |g.owner| == NUM && t == Apply(s, g, a) && f == Record(s, g, a)
  }

  // ---------------------------------------------------------------- the invariant

  /** The three descriptors of a chain are linked and still hold what was submitted. */
  ghost predicate Linked(desc: seq<Desc>, h: nat, c: Chain) {
    && |desc| == NUM && h < NUM && c.mid < NUM && c.tail < NUM && h != c.mid && h != c.tail && c.mid != c.tail
    && desc[h] == Desc(Header(c.sector, c.write), false, true, c.mid)
    && desc[c.mid] == Desc(Data(c.buf), !c.write, true, c.tail)
    && desc[c.tail] == Desc(Status(h), true, false, 0)
  }

  ghost predicate AllLinked(desc: seq<Desc>, chains: map<nat, Chain>) {
    forall h | h in chains :: Linked(desc, h, chains[h])
  }

  ghost predicate LinkOf(free: bool, owner: Option<nat>, chains: map<nat, Chain>, i: nat) {
    match owner
    case None => free
    case Some(h) => !free && h in chains && (i == h || i == chains[h].mid || i == chains[h].tail)
  }

  ghost predicate Owns(owner: seq<Option<nat>>, h: nat, c: Chain) {
    && |owner| == NUM && h < NUM && c.mid < NUM && c.tail < NUM && h != c.mid && h != c.tail && c.mid != c.tail
    && owner[h] == Some(h) && owner[c.mid] == Some(h) && owner[c.tail] == Some(h)
  }

  /** Every descriptor is free or one of the three links of exactly one chain. */
  ghost predicate Partition(free: seq<bool>, owner: seq<Option<nat>>, chains: map<nat, Chain>) {
    && |free| == |owner| == NUM
    && (forall i: nat | i < NUM :: LinkOf(free[i], owner[i], chains, i))
    && (forall h | h in chains :: Owns(owner, h, chains[h]))
  }

  /** The driver's record of a chain leads to its buffer, and no two chains share a buffer. */
  ghost predicate Buffers(infoB: seq<Option<nat>>, at: map<nat, nat>, chains: map<nat, Chain>) {
    && |infoB| == NUM
    && (forall h | h in chains ::
           h < NUM && infoB[h] == Some(chains[h].buf) && chains[h].buf in at && at[chains[h].buf] == h)
    && (forall b | b in at :: at[b] in chains && chains[at[b]].buf == b)
  }

  ghost predicate Submissions(chains: map<nat, Chain>, submitted: seq<nat>) {
    forall h | h in chains :: chains[h].id < |submitted| && submitted[chains[h].id] == h
  }

  /** Where each chain is, as the device and the driver see it. */
  ghost predicate Phases(busy: set<nat>, held: set<nat>, chains: map<nat, Chain>, phase: map<nat, Phase>) {
    && phase.Keys == chains.Keys && held <= chains.Keys
    && (forall h | h in chains :: (chains[h].buf in busy <==> !phase[h].Done?) && (h in held <==> phase[h] == Held))
  }

  ghost predicate Differ(order: seq<nat>, j: int, k: int) {
    0 <= j < k < |order| ==> order[j] != order[k]
  }

  ghost predicate Stage(p: Phase, h: nat, id: nat, got: nat, seen: nat, posted: seq<nat>, order: seq<nat>) {
    match p
    case Queued => got <= id
    case Held => id < got && id !in order
    case Posted(k) => id < got && seen <= k < |posted| == |order| && posted[k] == h && order[k] == id
    case Done(k) => id < got && k < seen && k < |order| && order[k] == id
  }

  /** The fetch pointer and the completion order agree with the phases. */
  ghost predicate Progress(g: Ghosts) {
    && (forall h | h in g.chains ::
           h in g.phase && Stage(g.phase[h], h, g.chains[h].id, g.got, g.seen, g.posted, g.order))
    && (forall k | 0 <= k < |g.order| :: g.order[k] < g.got)
    && (forall j, k :: Differ(g.order, j, k))
  }

  ghost predicate QueuedAt(slot: nat, h: nat, chains: map<nat, Chain>, phase: map<nat, Phase>, j: int) {
    slot == h && h in chains && h in phase && phase[h] == Queued && chains[h].id == j
  }

  ghost predicate AvailOk(avail: seq<nat>, g: Ghosts) {
    && |avail| == NUM
    && forall j | g.got <= j < |g.submitted| :: QueuedAt(avail[j % NUM], g.submitted[j], g.chains, g.phase, j)
  }

  ghost predicate PostedAt(slot: nat, h: nat, chains: map<nat, Chain>, phase: map<nat, Phase>, k: nat) {
    slot == h && h in chains && h in phase && phase[h] == Posted(k)
  }

  ghost predicate UsedOk(used: seq<nat>, g: Ghosts) {
    && |used| == NUM
    && forall k | g.seen <= k < |g.posted| :: PostedAt(used[k % NUM], g.posted[k], g.chains, g.phase, k)
  }

  /** What the rings and the completion order say. */
  ghost predicate Rings(avail: seq<nat>, used: seq<nat>, g: Ghosts) {
    && Submissions(g.chains, g.submitted) && Progress(g) && AvailOk(avail, g) && UsedOk(used, g)
    && g.got <= |g.submitted| && g.seen <= |g.posted| == |g.order|
    && g.phase.Keys == g.chains.Keys
  }

  ghost predicate Counters(s: State, g: Ghosts) {
    && s.availIdx == Wrap(|g.submitted|) && s.fetched == Wrap(g.got)
    && s.usedId == Wrap(|g.posted|) && s.usedIdx == g.seen % NUM
  }

  /** The chains and what the driver knows about them. */
  ghost predicate Static(s: State, g: Ghosts) {
    && Shape(s) && AllLinked(s.desc, g.chains) && Partition(s.free, g.owner, g.chains)
    && Buffers(s.infoB, g.at, g.chains)
  }

  /** Where the requests are. */
  ghost predicate Dynamic(s: State, g: Ghosts) {
    Counters(s, g) && Phases(s.busy, s.held, g.chains, g.phase) && Rings(s.avail, s.used, g)
  }

  ghost predicate Inv(s: State, g: Ghosts) {
    Static(s, g) && Dynamic(s, g)
  }

  // ---------------------------------------------------------------- at most two requests in flight

  function Prefix(a: seq<nat>, n: nat): set<nat>
    requires n <= |a|
  {
    set i | 0 <= i < n :: a[i]
  }

  function Below(n: nat): (r: set<nat>)
    ensures |r| == n
    ensures forall x: nat :: x in r <==> x < n
  {
    if n == 0 then {} else Below(n - 1) + {n - 1}
  }

  lemma {:induction false} DistinctCount(a: seq<nat>, n: nat)
    requires n <= |a| && forall i, j | 0 <= i < j < |a| :: a[i] != a[j]
    ensures |Prefix(a, n)| == n
  {
    if n > 0 {
      DistinctCount(a, n - 1);
      assert Prefix(a, n) == Prefix(a, n - 1) + {a[n - 1]};
    }
  }

  lemma SubsetCount(a: set<nat>, b: set<nat>)
    requires a <= b
    ensures |a| <= |b|
  {
    assert b == a + (b - a);
  }

  // Nine numbers below 8 repeat one.
  lemma Pigeonhole(a: seq<nat>)
    requires |a| == 9 && forall i | 0 <= i < |a| :: a[i] < NUM
    ensures exists i, j | 0 <= i < j < |a| :: a[i] == a[j]
  {
    if forall i, j | 0 <= i < j < |a| :: a[i] != a[j] {
      DistinctCount(a, 9);
      assert Prefix(a, 9) <= Below(8);
      SubsetCount(Prefix(a, 9), Below(8));
    }
  }

  // Three chains would need nine descriptors.
  lemma NoThreeChains(owner: seq<Option<nat>>, chains: map<nat, Chain>, h1: nat, h2: nat, h3: nat)
    requires h1 in chains && h2 in chains && h3 in chains
    requires Owns(owner, h1, chains[h1]) && Owns(owner, h2, chains[h2]) && Owns(owner, h3, chains[h3])
    ensures h1 == h2 || h1 == h3 || h2 == h3
  {
    var c1, c2, c3 := chains[h1], chains[h2], chains[h3];
    if h1 != h2 && h1 != h3 && h2 != h3 {
      Pigeonhole([h1, c1.mid, c1.tail, h2, c2.mid, c2.tail, h3, c3.mid, c3.tail]);
    }
  }

  lemma {:induction false} WrapStep(n: nat)
    ensures Wrap(n) < U16 && Wrap(n + 1) == Inc(Wrap(n))
    ensures Wrap(n) % NUM == n % NUM
  {
    if n >= U16 { WrapStep(n - U16); }
  }

  lemma WrapTests(a: nat, b: nat)
    requires a <= b <= a + 2
    ensures (a % NUM) % NUM != Wrap(b) % NUM <==> a < b
    ensures Wrap(a) != Wrap(b) <==> a < b
  {
    WrapStep(a);
    WrapStep(a + 1);
    WrapStep(b);
  }

  // So each ring holds at most two entries, and the tests on the wrapped counters are exact.
  lemma RingsHoldTwo(s: State, g: Ghosts)
    requires Inv(s, g)
    ensures |g.submitted| <= g.got + 2 && |g.posted| <= g.seen + 2
    ensures s.usedIdx % NUM != s.usedId % NUM <==> g.seen < |g.posted|
    ensures s.fetched != s.availIdx <==> g.got < |g.submitted|
  {
    if |g.submitted| > g.got + 2 {
      NoThreeChains(g.owner, g.chains, g.submitted[g.got], g.submitted[g.got + 1], g.submitted[g.got + 2]);
    }
    if |g.posted| > g.seen + 2 {
      NoThreeChains(g.owner, g.chains, g.posted[g.seen], g.posted[g.seen + 1], g.posted[g.seen + 2]);
    }
    WrapTests(g.seen, |g.posted|);
    WrapTests(g.got, |g.submitted|);
  }

  lemma CarriesSlot(c: nat, n: nat)
    requires c == n % NUM
    ensures (c + 1) % NUM == (n + 1) % NUM
  {
  }

  // ---------------------------------------------------------------- adding and removing a chain

  lemma AddLinks(desc: seq<Desc>, chains: map<nat, Chain>, h: nat, c: Chain, free: seq<bool>, owner: seq<Option<nat>>)
    requires AllLinked(desc, chains) && Partition(free, owner, chains) && |desc| == NUM
    requires h < NUM && c.mid < NUM && c.tail < NUM && h != c.mid && h != c.tail && c.mid != c.tail
    requires free[h] && free[c.mid] && free[c.tail]
    ensures h !in chains
    ensures AllLinked(Set3(desc, h, c.mid, c.tail, Desc(Header(c.sector, c.write), false, true, c.mid),
                           Desc(Data(c.buf), !c.write, true, c.tail), Desc(Status(h), true, false, 0)), chains[h := c])
  {
    assert LinkOf(free[h], owner[h], chains, h);
    assert LinkOf(free[c.mid], owner[c.mid], chains, c.mid);
    assert LinkOf(free[c.tail], owner[c.tail], chains, c.tail);
    forall k | k in chains
      ensures k != h && k != c.mid && k != c.tail
      ensures chains[k].mid !in {h, c.mid, c.tail} && chains[k].tail !in {h, c.mid, c.tail}
    {
      assert Owns(owner, k, chains[k]);
    }
  }

  lemma AddPartition(free: seq<bool>, owner: seq<Option<nat>>, chains: map<nat, Chain>, h: nat, c: Chain)
    requires Partition(free, owner, chains)
    requires h < NUM && c.mid < NUM && c.tail < NUM && h != c.mid && h != c.tail && c.mid != c.tail
    requires free[h] && free[c.mid] && free[c.tail] && h !in chains
    ensures Partition(Set3(free, h, c.mid, c.tail, false, false, false),
                      Set3(owner, h, c.mid, c.tail, Some(h), Some(h), Some(h)), chains[h := c])
  {
    assert LinkOf(free[h], owner[h], chains, h);
    assert LinkOf(free[c.mid], owner[c.mid], chains, c.mid);
    assert LinkOf(free[c.tail], owner[c.tail], chains, c.tail);
    forall k | k in chains ensures Owns(Set3(owner, h, c.mid, c.tail, Some(h), Some(h), Some(h)), k, chains[k]) {
      assert Owns(owner, k, chains[k]);
    }
    forall i: nat | i < NUM
      ensures LinkOf(Set3(free, h, c.mid, c.tail, false, false, false)[i],
                     Set3(owner, h, c.mid, c.tail, Some(h), Some(h), Some(h))[i], chains[h := c], i)
    {
      assert LinkOf(free[i], owner[i], chains, i);
    }
  }

  lemma DropLinks(desc: seq<Desc>, chains: map<nat, Chain>, h: nat, owner: seq<Option<nat>>, x: Desc, y: Desc, z: Desc)
    requires AllLinked(desc, chains) && h in chains && |desc| == NUM
    requires forall k | k in chains :: Owns(owner, k, chains[k])
    ensures Owns(owner, h, chains[h])
    ensures AllLinked(Set3(desc, h, chains[h].mid, chains[h].tail, x, y, z), chains - {h})
  {
    var c := chains[h];
    assert Owns(owner, h, c);
    forall k | k in chains && k != h ensures Linked(Set3(desc, h, c.mid, c.tail, x, y, z), k, chains[k]) {
      assert Owns(owner, k, chains[k]) && Linked(desc, k, chains[k]);
    }
  }

  lemma DropPartition(free: seq<bool>, owner: seq<Option<nat>>, chains: map<nat, Chain>, h: nat)
    requires Partition(free, owner, chains) && h in chains
    ensures Owns(owner, h, chains[h])
    ensures var c := chains[h];
            Partition(Set3(free, h, c.mid, c.tail, true, true, true),
                      Set3(owner, h, c.mid, c.tail, None, None, None), chains - {h})
  {
    var c := chains[h];
    assert Owns(owner, h, c);
    forall k | k in chains && k != h ensures Owns(Set3(owner, h, c.mid, c.tail, None, None, None), k, chains[k]) {
      assert Owns(owner, k, chains[k]);
    }
    forall i: nat | i < NUM
      ensures LinkOf(Set3(free, h, c.mid, c.tail, true, true, true)[i],
                     Set3(owner, h, c.mid, c.tail, None, None, None)[i], chains - {h}, i)
    {
      assert LinkOf(free[i], owner[i], chains, i);
    }
  }

  lemma AddBuffer(infoB: seq<Option<nat>>, at: map<nat, nat>, chains: map<nat, Chain>, h: nat, c: Chain)
    requires Buffers(infoB, at, chains) && h !in chains && h < NUM && c.buf !in at
    ensures Buffers(infoB[h := Some(c.buf)], at[c.buf := h], chains[h := c])
  {
  }

  lemma DropBuffer(infoB: seq<Option<nat>>, at: map<nat, nat>, chains: map<nat, Chain>, h: nat)
    requires Buffers(infoB, at, chains) && h in chains
    ensures Buffers(infoB[h := None], at - {chains[h].buf}, chains - {h})
  {
  }

  // ---------------------------------------------------------------- phases

  lemma AddPhase(busy: set<nat>, held: set<nat>, chains: map<nat, Chain>, phase: map<nat, Phase>, at: map<nat, nat>,
                 h: nat, c: Chain)
    requires Phases(busy, held, chains, phase) && h !in chains && c.buf !in at
    requires forall k | k in chains :: chains[k].buf in at
    ensures Phases(busy + {c.buf}, held, chains[h := c], phase[h := Queued])
  {
  }

  lemma FetchPhase(busy: set<nat>, held: set<nat>, chains: map<nat, Chain>, phase: map<nat, Phase>, h: nat)
    requires Phases(busy, held, chains, phase) && h in chains && phase[h] == Queued
    ensures Phases(busy, held + {h}, chains, phase[h := Held])
  {
  }

  lemma CompletePhase(busy: set<nat>, held: set<nat>, chains: map<nat, Chain>, phase: map<nat, Phase>, h: nat, k: nat)
    requires Phases(busy, held, chains, phase) && h in held
    ensures h in chains && phase[h] == Held && Phases(busy, held - {h}, chains, phase[h := Posted(k)])
  {
  }

  lemma InterruptPhase(busy: set<nat>, held: set<nat>, chains: map<nat, Chain>, phase: map<nat, Phase>, at: map<nat,
                       nat>, h: nat, n: nat)
    requires Phases(busy, held, chains, phase) && h in chains && phase[h].Posted?
    requires forall k | k in chains :: chains[k].buf in at && at[chains[k].buf] == k
    ensures Phases(busy - {chains[h].buf}, held, chains, phase[h := Done(n)])
  {
  }

  lemma DropPhase(busy: set<nat>, held: set<nat>, chains: map<nat, Chain>, phase: map<nat, Phase>, h: nat)
    requires Phases(busy, held, chains, phase) && h in chains && chains[h].buf !in busy
    ensures phase[h].Done? && Phases(busy, held, chains - {h}, phase - {h})
  {
  }

  // ---------------------------------------------------------------- the two rings

  lemma DistinctSlots(i: nat, j: nat)
    requires i < j < i + NUM
    ensures i % NUM != j % NUM
  {
  }

  lemma AddProgress(g: Ghosts, f: Ghosts, h: nat, c: Chain)
    requires Progress(g) && h !in g.chains && g.got <= c.id
    requires f == g.(chains := g.chains[h := c], phase := g.phase[h := Queued], submitted := g.submitted + [h],
                     owner := f.owner, at := f.at)
    ensures Progress(f)
  {
  }

  lemma AddAvail(avail: seq<nat>, g: Ghosts, f: Ghosts, h: nat, c: Chain)
    requires AvailOk(avail, g) && g.got <= |g.submitted| == c.id <= g.got + 2 && h !in g.chains
    requires f == g.(chains := g.chains[h := c], phase := g.phase[h := Queued], submitted := g.submitted + [h],
                     owner := f.owner, at := f.at)
    ensures AvailOk(avail[|g.submitted| % NUM := h], f)
  {
    var slot := |g.submitted| % NUM;
    forall j | f.got <= j < |f.submitted|
      ensures QueuedAt(avail[slot := h][j % NUM], f.submitted[j], f.chains, f.phase, j)
    {
      if j < |g.submitted| {
        DistinctSlots(j, |g.submitted|);
        assert QueuedAt(avail[j % NUM], g.submitted[j], g.chains, g.phase, j);
      }
    }
  }

  lemma AddToRings(avail: seq<nat>, used: seq<nat>, g: Ghosts, f: Ghosts, h: nat, c: Chain)
    requires Rings(avail, used, g) && h !in g.chains && c.id == |g.submitted| <= g.got + 2
    requires f == g.(chains := g.chains[h := c], phase := g.phase[h := Queued], submitted := g.submitted + [h],
                     owner := f.owner, at := f.at)
    ensures Rings(avail[|g.submitted| % NUM := h], used, f)
  {
    AddProgress(g, f, h, c);
    AddAvail(avail, g, f, h, c);
    forall k | f.seen <= k < |f.posted| ensures PostedAt(used[k % NUM], f.posted[k], f.chains, f.phase, k) {
      assert PostedAt(used[k % NUM], g.posted[k], g.chains, g.phase, k);
    }
  }

  lemma FetchProgress(g: Ghosts, f: Ghosts, h: nat)
    requires Submissions(g.chains, g.submitted) && Progress(g) && g.got < |g.submitted|
    requires h in g.chains && g.chains[h].id == g.got
    requires f == g.(got := g.got + 1, phase := g.phase[h := Held])
    ensures Progress(f)
  {
    forall k | k in f.chains
      ensures k in f.phase && Stage(f.phase[k], k, f.chains[k].id, f.got, f.seen, f.posted, f.order)
    {
      assert Stage(g.phase[k], k, g.chains[k].id, g.got, g.seen, g.posted, g.order);
    }
  }

  lemma FetchFromRing(avail: seq<nat>, used: seq<nat>, g: Ghosts, f: Ghosts, h: nat)
    requires Rings(avail, used, g) && g.got < |g.submitted| && h == avail[g.got % NUM]
    requires f == g.(got := g.got + 1, phase := g.phase[h := Held])
    ensures h in g.chains && g.phase[h] == Queued && Rings(avail, used, f)
  {
    assert QueuedAt(avail[g.got % NUM], g.submitted[g.got], g.chains, g.phase, g.got);
    FetchProgress(g, f, h);
  }

  lemma PostProgress(g: Ghosts, f: Ghosts, h: nat)
    requires Submissions(g.chains, g.submitted) && Progress(g) && g.phase.Keys == g.chains.Keys
    requires h in g.chains && g.phase[h] == Held && g.seen <= |g.posted| == |g.order|
    requires f == g.(posted := g.posted + [h], order := g.order + [g.chains[h].id],
                     phase := g.phase[h := Posted(|g.posted|)])
    ensures Progress(f)
  {
    forall k | k in f.chains
      ensures Stage(f.phase[k], k, f.chains[k].id, f.got, f.seen, f.posted, f.order)
    {
      assert Stage(g.phase[k], k, g.chains[k].id, g.got, g.seen, g.posted, g.order);
      if k != h { assert g.chains[k].id != g.chains[h].id; }
    }
    forall j, k ensures Differ(f.order, j, k) { assert Differ(g.order, j, k); }
  }

  lemma PostToRing(avail: seq<nat>, used: seq<nat>, g: Ghosts, f: Ghosts, h: nat)
    requires Rings(avail, used, g) && h in g.chains && g.phase[h] == Held && |g.posted| <= g.seen + 2
    requires f == g.(posted := g.posted + [h], order := g.order + [g.chains[h].id],
                     phase := g.phase[h := Posted(|g.posted|)])
    ensures Rings(avail, used[|g.posted| % NUM := h], f)
  {
    PostProgress(g, f, h);
    var slot := |g.posted| % NUM;
    forall k | f.seen <= k < |f.posted|
      ensures PostedAt(used[slot := h][k % NUM], f.posted[k], f.chains, f.phase, k)
    {
      if k < |g.posted| {
        DistinctSlots(k, |g.posted|);
        assert PostedAt(used[k % NUM], g.posted[k], g.chains, g.phase, k);
      }
    }
  }

  lemma SeeProgress(g: Ghosts, f: Ghosts, h: nat)
    requires Progress(g) && h in g.chains && g.phase[h] == Posted(g.seen)
    requires f == g.(seen := g.seen + 1, phase := g.phase[h := Done(g.seen)])
    ensures Progress(f)
  {
    forall k | k in f.chains
      ensures k in f.phase && Stage(f.phase[k], k, f.chains[k].id, f.got, f.seen, f.posted, f.order)
    {
      assert Stage(g.phase[k], k, g.chains[k].id, g.got, g.seen, g.posted, g.order);
    }
  }

  lemma SeeInRing(avail: seq<nat>, used: seq<nat>, g: Ghosts, f: Ghosts, h: nat)
    requires Rings(avail, used, g) && g.seen < |g.posted| && h == used[g.seen % NUM]
    requires f == g.(seen := g.seen + 1, phase := g.phase[h := Done(g.seen)])
    ensures h in g.chains && g.phase[h] == Posted(g.seen) && Rings(avail, used, f)
  {
    assert PostedAt(used[g.seen % NUM], g.posted[g.seen], g.chains, g.phase, g.seen);
    SeeProgress(g, f, h);
  }

  lemma DropFromRings(avail: seq<nat>, used: seq<nat>, g: Ghosts, f: Ghosts, h: nat)
    requires Rings(avail, used, g) && h in g.chains && g.phase[h].Done?
    requires f == g.(chains := g.chains - {h}, phase := g.phase - {h}, owner := f.owner, at := f.at)
    ensures Rings(avail, used, f)
  {
  }

  // ---------------------------------------------------------------- every step keeps the invariant

  lemma SubmitStatic(s: State, g: Ghosts, h: nat, c: Chain, t: State, f: Ghosts)
    requires Static(s, g) && Next(s, g, Submit(h, c.mid, c.tail, c.buf, c.sector, c.write), t, f)
    requires c.id == |g.submitted|
    ensures h !in g.chains && Static(t, f)
  {
    AddLinks(s.desc, g.chains, h, c, s.free, g.owner);
    AddPartition(s.free, g.owner, g.chains, h, c);
    AddBuffer(s.infoB, g.at, g.chains, h, c);
  }

  lemma SubmitDynamic(s: State, g: Ghosts, h: nat, c: Chain, t: State, f: Ghosts)
    requires Dynamic(s, g) && Buffers(s.infoB, g.at, g.chains) && h !in g.chains
    requires Next(s, g, Submit(h, c.mid, c.tail, c.buf, c.sector, c.write), t, f)
    requires c.id == |g.submitted| <= g.got + 2
    ensures Dynamic(t, f)
  {
    WrapStep(|g.submitted|);
    AddPhase(s.busy, s.held, g.chains, g.phase, g.at, h, c);
    AddToRings(s.avail, s.used, g, f, h, c);
  }

  lemma FetchDynamic(s: State, g: Ghosts, t: State, f: Ghosts)
    requires Dynamic(s, g) && Next(s, g, Fetch, t, f) && g.got < |g.submitted|
    ensures Dynamic(t, f)
  {
    WrapStep(g.got);
    var h := s.avail[s.fetched % NUM];
    FetchFromRing(s.avail, s.used, g, f, h);
    FetchPhase(s.busy, s.held, g.chains, g.phase, h);
  }

  lemma CompleteDynamic(s: State, g: Ghosts, h: nat, status: int, t: State, f: Ghosts)
    requires Dynamic(s, g) && Next(s, g, Complete(h, status), t, f) && |g.posted| <= g.seen + 2
    ensures Dynamic(t, f)
  {
    WrapStep(|g.posted|);
    CompletePhase(s.busy, s.held, g.chains, g.phase, h, |g.posted|);
    PostToRing(s.avail, s.used, g, f, h);
  }

  lemma InterruptDynamic(s: State, g: Ghosts, t: State, f: Ghosts)
    requires Dynamic(s, g) && Buffers(s.infoB, g.at, g.chains) && Next(s, g, Interrupt, t, f) && g.seen < |g.posted|
    ensures Dynamic(t, f)
  {
    CarriesSlot(s.usedIdx, g.seen);
    var h := s.used[s.usedIdx];
    SeeInRing(s.avail, s.used, g, f, h);
    InterruptPhase(s.busy, s.held, g.chains, g.phase, g.at, h, g.seen);
  }

  lemma FinishStatic(s: State, g: Ghosts, a: Action, t: State, f: Ghosts)
    requires Static(s, g) && Next(s, g, a, t, f) && a.Finish?
    ensures Static(t, f)
  {
    var c := g.chains[a.h];
    DropLinks(s.desc, g.chains, a.h, g.owner, s.desc[a.h].(addr := Null), s.desc[c.mid].(addr := Null),
              s.desc[c.tail].(addr := Null));
    DropPartition(s.free, g.owner, g.chains, a.h);
    DropBuffer(s.infoB, g.at, g.chains, a.h);
  }

  lemma FinishDynamic(s: State, g: Ghosts, a: Action, t: State, f: Ghosts)
    requires Dynamic(s, g) && Next(s, g, a, t, f) && a.Finish?
    ensures Dynamic(t, f)
  {
    DropPhase(s.busy, s.held, g.chains, g.phase, a.h);
    DropFromRings(s.avail, s.used, g, f, a.h);
  }

  // Every step of a driver thread, of the interrupt handler and of the device keeps the invariant.
  lemma StepKeeps(s: State, g: Ghosts, a: Action, t: State, f: Ghosts)
    requires Inv(s, g) && Next(s, g, a, t, f)
    ensures Inv(t, f)
  {
    RingsHoldTwo(s, g);
    match a
    case Submit(h, mid, tail, b, sector, write) =>
      var c := Chain(|g.submitted|, mid, tail, b, sector, write);
      SubmitStatic(s, g, h, c, t, f);
      SubmitDynamic(s, g, h, c, t, f);
    case Fetch => FetchDynamic(s, g, t, f);
    case Complete(h, status) => CompleteDynamic(s, g, h, status, t, f);
    case Interrupt => InterruptDynamic(s, g, t, f);
    case Finish(_) =>
      FinishStatic(s, g, a, t, f);
      FinishDynamic(s, g, a, t, f);
  }

  // ---------------------------------------------------------------- whole runs

  /** The ring as `virtio_disk_init` leaves it. */
  ghost predicate Initial(s: State, g: Ghosts) {
    && Shape(s) && (forall i | 0 <= i < NUM :: s.free[i] && s.infoStatus[i] == 0)
    && s.availIdx == 0 && s.usedId == 0 && s.usedIdx == 0 && s.busy == {} && s.fetched == 0 && s.held == {}
    && g == Ghosts(map[], seq(NUM, _ => None), map[], map[], [], 0, [], [], 0)
  }

  ghost predicate StepAt(ss: seq<State>, gs: seq<Ghosts>, acts: seq<Action>, i: nat)
    requires |ss| == |gs| == |acts| + 1 && i < |acts|
  {
    Next(ss[i], gs[i], acts[i], ss[i + 1], gs[i + 1])
  }

  ghost predicate IsRun(ss: seq<State>, gs: seq<Ghosts>, acts: seq<Action>) {
    && |ss| == |gs| == |acts| + 1 && Initial(ss[0], gs[0])
    && forall i: nat | i < |acts| :: StepAt(ss, gs, acts, i)
  }

  lemma {:induction false} RunInvariant(ss: seq<State>, gs: seq<Ghosts>, acts: seq<Action>, k: nat)
    requires IsRun(ss, gs, acts) && k < |ss|
    ensures Inv(ss[k], gs[k])
    decreases k
  {
    if k > 0 {
      RunInvariant(ss, gs, acts, k - 1);
      assert StepAt(ss, gs, acts, k - 1);
      StepKeeps(ss[k - 1], gs[k - 1], acts[k - 1], ss[k], gs[k]);
    }
  }

  lemma AtMostTwo(owner: seq<Option<nat>>, chains: map<nat, Chain>)
    requires forall h | h in chains :: Owns(owner, h, chains[h])
    ensures |chains| <= 2
  {
    if |chains| > 2 {
      var keys := chains.Keys;
      var h1 :| h1 in keys;
      SubsetCount(keys, {h1} + (keys - {h1}));
      var h2 :| h2 in keys - {h1};
      SubsetCount(keys, {h1, h2} + (keys - {h1, h2}));
      var h3 :| h3 in keys - {h1, h2};
      NoThreeChains(owner, chains, h1, h2, h3);
    }
  }

  // In every run: a descriptor is free or a link of exactly one chain, no three chains exist, and the interrupt
  // handler's test holds exactly when a completion is waiting.
  lemma DescriptorsPartition(ss: seq<State>, gs: seq<Ghosts>, acts: seq<Action>, k: nat)
    requires IsRun(ss, gs, acts) && k < |ss|
    ensures Partition(ss[k].free, gs[k].owner, gs[k].chains) && AllLinked(ss[k].desc, gs[k].chains)
    ensures |gs[k].chains| <= 2
    ensures ss[k].usedIdx % NUM != ss[k].usedId % NUM <==> gs[k].seen < |gs[k].posted|
  {
    RunInvariant(ss, gs, acts, k);
    RingsHoldTwo(ss[k], gs[k]);
    AtMostTwo(gs[k].owner, gs[k].chains);
  }

  /** What a request asks the device for, and where it reports the status. */
  datatype Request = Request(sector: nat, write: bool, buf: nat, slot: nat)

  /** What a device makes of the chain at `h`: a header that it reads, the data, which it reads to write the disk and
      writes to read the disk, and a status that it writes, the last of the chain. */
  function DeviceReads(desc: seq<Desc>, h: nat): Option<Request> {
    if |desc| != NUM || h >= NUM || !desc[h].addr.Header? || desc[h].write || !desc[h].hasNext then None
    else
      var head, mid := desc[h].addr, desc[h].next;
      if mid >= NUM || !desc[mid].addr.Data? || desc[mid].write == head.write || !desc[mid].hasNext then None
      else
        var tail := desc[mid].next;
        if tail >= NUM || !desc[tail].addr.Status? || !desc[tail].write || desc[tail].hasNext then None
        else Some(Request(head.sector, head.write, desc[mid].addr.buf, desc[tail].addr.slot))
  }

  /** The chain at `h` carries this request. */
  ghost predicate Carries(chains: map<nat, Chain>, a: Action)
    requires a.Submit?
  {
    a.h in chains && chains[a.h].buf == a.b && chains[a.h].sector == a.sector && chains[a.h].write == a.write
  }

  lemma SubmitCarries(s: State, g: Ghosts, a: Action, t: State, f: Ghosts)
    requires a.Submit? && Next(s, g, a, t, f)
    ensures Carries(f.chains, a) && a.b in t.busy
  {
  }

  lemma HeadIsTaken(free: seq<bool>, owner: seq<Option<nat>>, chains: map<nat, Chain>, h: nat)
    requires Partition(free, owner, chains) && h in chains
    ensures h < NUM && !free[h]
  {
    assert Owns(owner, h, chains[h]);
    assert LinkOf(free[h], owner[h], chains, h);
  }

  lemma OtherStepKeepsChain(s: State, g: Ghosts, a: Action, t: State, f: Ghosts, h: nat)
    requires Next(s, g, a, t, f) && h in g.chains && a != Finish(h) && h < NUM && |s.free| == NUM && !s.free[h]
    ensures h in f.chains && f.chains[h] == g.chains[h]
  {
  }

  lemma {:induction false} ChainStays(ss: seq<State>, gs: seq<Ghosts>, acts: seq<Action>, i: nat, k: nat)
    requires IsRun(ss, gs, acts) && i < k < |ss| && acts[i].Submit?
    requires forall j | i < j < k :: acts[j] != Finish(acts[i].h)
    ensures Carries(gs[k].chains, acts[i])
    decreases k
  {
    var j := k - 1;
    assert StepAt(ss, gs, acts, j);
    if i == j {
      SubmitCarries(ss[j], gs[j], acts[j], ss[k], gs[k]);
    } else {
      ChainStays(ss, gs, acts, i, j);
      DescriptorsPartition(ss, gs, acts, j);
      HeadIsTaken(ss[j].free, gs[j].owner, gs[j].chains, acts[i].h);
      OtherStepKeepsChain(ss[j], gs[j], acts[j], ss[k], gs[k], acts[i].h);
    }
  }

  lemma LinkedIsRequest(desc: seq<Desc>, chains: map<nat, Chain>, a: Action)
    requires a.Submit? && AllLinked(desc, chains) && Carries(chains, a)
    ensures DeviceReads(desc, a.h) == Some(Request(a.sector, a.write, a.b, a.h))
  {
    assert Linked(desc, a.h, chains[a.h]);
  }

  // From its submission until it is finished, the device finds in the chain exactly the request that was submitted.
  lemma DeviceFindsRequest(ss: seq<State>, gs: seq<Ghosts>, acts: seq<Action>, i: nat, k: nat)
    requires IsRun(ss, gs, acts) && i < k < |ss| && acts[i].Submit?
    requires forall j | i < j < k :: acts[j] != Finish(acts[i].h)
    ensures DeviceReads(ss[k].desc, acts[i].h) == Some(Request(acts[i].sector, acts[i].write, acts[i].b, acts[i].h))
  {
    ChainStays(ss, gs, acts, i, k);
    DescriptorsPartition(ss, gs, acts, k);
    LinkedIsRequest(ss[k].desc, gs[k].chains, acts[i]);
  }

  // In every run, no request is completed twice, and when the handler finds a completion, it is the one the device
  // posted next, it leads to the buffer that was submitted with it, and that buffer is still waiting.
  lemma CompletionsAreServedOnce(ss: seq<State>, gs: seq<Ghosts>, acts: seq<Action>, k: nat)
    requires IsRun(ss, gs, acts) && k < |ss|
    ensures forall i, j | 0 <= i < j < |gs[k].order| :: gs[k].order[i] != gs[k].order[j]
    ensures var s, g := ss[k], gs[k];
            Shape(s) && (s.usedIdx % NUM != s.usedId % NUM ==>
              && g.seen < |g.order|
              && var h := s.used[s.usedIdx];
                 && h in g.chains && h < NUM && g.chains[h].id == g.order[g.seen]
                 && s.infoB[h] == Some(g.chains[h].buf) && g.chains[h].buf in s.busy)
  {
    RunInvariant(ss, gs, acts, k);
    RingsHoldTwo(ss[k], gs[k]);
    var s, g := ss[k], gs[k];
    forall i, j | 0 <= i < j < |g.order| ensures g.order[i] != g.order[j] { assert Differ(g.order, i, j); }
    if g.seen < |g.posted| {
      assert PostedAt(s.used[g.seen % NUM], g.posted[g.seen], g.chains, g.phase, g.seen);
    }
  }

  lemma DoneWasCompleted(s: State, g: Ghosts, h: nat)
    requires Inv(s, g) && h in g.chains && g.chains[h].buf !in s.busy
    ensures exists i :: 0 <= i < g.seen <= |g.order| && g.order[i] == g.chains[h].id
  {
    assert Stage(g.phase[h], h, g.chains[h].id, g.got, g.seen, g.posted, g.order);
    assert g.phase[h].Done? && g.order[g.phase[h].k] == g.chains[h].id;
  }

  // In every run, a thread is let go only after the device completed its own request.
  lemma FinishedWasCompleted(ss: seq<State>, gs: seq<Ghosts>, acts: seq<Action>, k: nat)
    requires IsRun(ss, gs, acts) && k < |acts| && acts[k].Finish?
    ensures acts[k].h in gs[k].chains
    ensures exists i :: 0 <= i < gs[k].seen <= |gs[k].order| && gs[k].order[i] == gs[k].chains[acts[k].h].id
  {
    RunInvariant(ss, gs, acts, k);
    assert StepAt(ss, gs, acts, k);
    DoneWasCompleted(ss[k], gs[k], acts[k].h);
  }

  function FreeSet(free: seq<bool>): set<nat> {
    set i: nat | i < |free| && free[i]
  }

  lemma CountOutside(n: nat, out: set<nat>, rest: set<nat>)
    requires forall i: nat | i < n && i !in out :: i in rest
    ensures |rest| + |out| >= n
  {
    SubsetCount(Below(n), out + rest);
    SubsetCount(out + rest, out + (rest - out));
    SubsetCount(rest - out, rest);
  }

  // If all links of all chains are among at most three descriptors, at least five are free.
  lemma FreeOutside(free: seq<bool>, owner: seq<Option<nat>>, chains: map<nat, Chain>, links: set<nat>)
    requires Partition(free, owner, chains) && |links| <= 3
    requires forall h | h in chains :: h in links && chains[h].mid in links && chains[h].tail in links
    ensures |FreeSet(free)| >= 5
  {
    forall i: nat | i < NUM && i !in links ensures i in FreeSet(free) {
      assert LinkOf(free[i], owner[i], chains, i);
    }
    CountOutside(NUM, links, FreeSet(free));
  }

  // A thread that finds fewer than three free descriptors waits for two requests in flight.
  lemma WaitsForTwo(free: seq<bool>, owner: seq<Option<nat>>, chains: map<nat, Chain>)
    requires Partition(free, owner, chains) && |FreeSet(free)| < 3
    ensures |chains| == 2
  {
    AtMostTwo(owner, chains);
    var keys := chains.Keys;
    if keys == {} {
      FreeOutside(free, owner, chains, {});
    } else {
      var h :| h in keys;
      if keys == {h} {
        FreeOutside(free, owner, chains, {h, chains[h].mid, chains[h].tail});
      } else {
        var h2 :| h2 in keys && h2 != h;
        SubsetCount({h, h2}, keys);
      }
    }
  }

  // While the device reports success, no status is ever an error.
  lemma {:induction false} StatusStaysGood(ss: seq<State>, gs: seq<Ghosts>, acts: seq<Action>, k: nat)
    requires IsRun(ss, gs, acts) && k < |ss|
    requires forall i | 0 <= i < |acts| :: acts[i].Complete? ==> acts[i].status == 0
    ensures Shape(ss[k]) && forall i | 0 <= i < NUM :: ss[k].infoStatus[i] == 0
    decreases k
  {
    if k > 0 {
      StatusStaysGood(ss, gs, acts, k - 1);
      assert StepAt(ss, gs, acts, k - 1);
    }
  }
}
