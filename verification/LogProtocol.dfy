/** All interleavings of kernel/log.c: any number of file system operations, the commit that the
last of them runs, buffer recycling, crashes at any point and the recovery that follows them.

`Enabled` holds what the source waits for or checks, and what it asks of its callers: an
operation logs every block it modified before it ends, and lists at most MAXOPBLOCKS new
blocks.  It may log blocks that are listed already as often as it likes.  The components `cur`, `done`, `acked` and
`started` are history: they record which updates belong to which transaction.
*/
module LogProtocol {
  import opened Common
  import opened LogSpec

  datatype Event = Event(op: nat, block: nat, data: Block)

  /** An operation between `begin_op` and `end_op`: the blocks it modified and has not logged, the block of a
      `log_write` that passed its test and waits for the lock, and the number of blocks it listed. */
  datatype Op = Op(id: nat, used: nat, dirty: set<nat>, checked: Option<nat>)

  /** `Redoing` also remembers the disk that the recovery works towards. */
  datatype Phase =
    | Running
    | Filling(tail: nat)
    | Installing(tail: nat)
    | Finishing
    | Booting
    | Redoing(tail: nat, goal: Disk)

  datatype State = State(
    m: Machine,
    phase: Phase,
    ops: seq<Op>,
    panicked: bool,
    cur: seq<Event>,
    done: seq<seq<Event>>,
    acked: nat,
    started: map<nat, nat>
  )

  datatype Action =
    | BeginOp(id: nat)
    | Modify(i: nat, b: nat, v: Block)
    | LogCheck(i: nat, b: nat)
    | LogAppend(i: nat)
    | EndOp(i: nat)
    | CommitStep
    | Finish
    | Evict(b: nat)
    | Crash
    | Boot
    | RedoStep

  // ---------------------------------------------------------------- what transactions mean

  function HomeIx(l: Layout, b: nat): int {
    if b < l.start then b else b - l.size
  }

  /** The home blocks after applying updates in order. */
  ghost function Replay(l: Layout, h: Disk, evs: seq<Event>): (r: Disk)
    ensures |r| == |h|
  {
    if evs == [] then h
    else
      var r := Replay(l, h, evs[..|evs| - 1]);
      var e := evs[|evs| - 1];
      var i := HomeIx(l, e.block);
      if 0 <= i < |h| then r[i := e.data] else r
  }

  ghost function ReplayAll(l: Layout, h: Disk, done: seq<seq<Event>>): Disk
  {
    if done == [] then h else Replay(l, ReplayAll(l, h, done[..|done| - 1]), done[|done| - 1])
  }

  lemma ReplayOne(l: Layout, h: Disk, evs: seq<Event>, e: Event)
    requires 0 <= HomeIx(l, e.block) < |h|
    ensures Replay(l, h, evs + [e]) == Replay(l, h, evs)[HomeIx(l, e.block) := e.data]
  {
    assert (evs + [e])[..|evs|] == evs;
  }

  lemma ReplayMore(l: Layout, h: Disk, done: seq<seq<Event>>, cur: seq<Event>)
    ensures ReplayAll(l, h, done + [cur]) == Replay(l, ReplayAll(l, h, done), cur)
  {
    assert (done + [cur])[..|done|] == done;
  }

  lemma HomeWrite(l: Layout, d: Disk, b: nat, v: Block)
    requires AreaOk(l, |d|) && IsHome(l, |d|, b)
    ensures 0 <= HomeIx(l, b) < |Home(l, d)|
    ensures Home(l, d[b := v]) == Home(l, d)[HomeIx(l, b) := v]
  {
  }

  // ---------------------------------------------------------------- steps

  function Dirty(ops: seq<Op>): (r: set<nat>)
    ensures forall i :: 0 <= i < |ops| ==> ops[i].dirty <= r
    ensures forall b :: b in r ==> exists i :: 0 <= i < |ops| && b in ops[i].dirty
  {
    if ops == [] then {} else
      assert forall i :: 0 < i < |ops| ==> ops[i] == ops[1..][i - 1];
      ops[0].dirty + Dirty(ops[1..])
  }

  ghost predicate Init(l: Layout, d0: Disk, s: State) {
    && MachineOk(l, s.m) && s.m.disk == s.m.view == d0 && d0[l.start][0] == 0
    && s.m.lh == [] && s.m.outstanding == 0 && !s.m.committing && s.m.pinned == {}
    && s.phase == Running && s.ops == [] && !s.panicked
    && s.cur == [] && s.done == [] && s.acked == 0 && s.started == map[]
  }

  /** The operation has budget left, or the block is listed already and its `log_write` will be absorbed. */
  predicate MayLog(o: Op, lh: seq<nat>, b: nat) {
    o.used < MAXOPBLOCKS || b in lh
  }

  ghost predicate CanInstall(l: Layout, s: State, t: nat) {
    if t < |s.m.lh| then s.m.lh[t] < |s.m.disk| && l.start + 1 + t < |s.m.disk| == |s.m.view|
    else l.start < |s.m.disk| == |s.m.view| && 0 < |s.m.view[l.start]|
  }

  ghost predicate CanCommitStep(l: Layout, s: State) {
    match s.phase
    case Filling(t) =>
      if t < |s.m.lh| then s.m.lh[t] < |s.m.view| && l.start + 1 + t < |s.m.disk| == |s.m.view|
      else l.start < |s.m.disk| == |s.m.view| && |s.m.lh| < |s.m.view[l.start]|
    case Installing(t) => CanInstall(l, s, t)
    case _ => false
  }

  ghost predicate Enabled(l: Layout, s: State, a: Action) {
    && (s.panicked ==> a.Crash?)
    && match a
       case BeginOp(id) => !s.phase.Booting? && !s.phase.Redoing? && CanBegin(s.m) && id !in s.started
       case Modify(i, b, v) => i < |s.ops| && IsHome(l, |s.m.disk|, b) && b < |s.m.view|
       case LogCheck(i, b) =>
         i < |s.ops| && b in s.ops[i].dirty && s.ops[i].checked.None? && MayLog(s.ops[i], s.m.lh, b)
       case LogAppend(i) => i < |s.ops| && s.ops[i].checked.Some?
       case EndOp(i) =>
         i < |s.ops| && s.ops[i].dirty == {} && s.ops[i].checked.None? && s.m.outstanding >= 1
       case CommitStep => CanCommitStep(l, s)
       case Finish => s.phase.Finishing?
       case Evict(b) => b < |s.m.disk| == |s.m.view| && b !in s.m.pinned && b !in Dirty(s.ops)
       case Crash => true
       case Boot => s.phase.Booting? && HeaderOk(l, s.m.disk)
       case RedoStep => s.phase.Redoing? && CanInstall(l, s, s.phase.tail)
  }

  ghost function Apply(l: Layout, s: State, a: Action): State
    requires Enabled(l, s, a)
  {
    match a
    case BeginOp(id) =>
      s.(m := Begin(s.m), ops := s.ops + [Op(id, 0, {}, None)], started := s.started[id := |s.done|])
    case Modify(i, b, v) =>
      s.(m := s.m.(view := s.m.view[b := v]),
         ops := s.ops[i := s.ops[i].(dirty := s.ops[i].dirty + {b})],
         cur := s.cur + [Event(s.ops[i].id, b, v)])
    case LogCheck(i, b) =>
      if GuardFails(l, s.m) then s.(panicked := true)
      else s.(ops := s.ops[i := s.ops[i].(checked := Some(b))])
    case LogAppend(i) =>
      var o := s.ops[i];
      var b := o.checked.value;
      s.(m := Append(s.m, b),
         ops := s.ops[i := Op(o.id, if b in s.m.lh then o.used else o.used + 1, o.dirty - {b}, None)])
    case EndOp(i) =>
      if s.m.committing then s.(panicked := true)
      else
        var s1 := s.(m := End(s.m), ops := s.ops[..i] + s.ops[i + 1..]);
        if s.m.outstanding > 1 then s1
        else if s.m.lh == [] then s1.(phase := Finishing, done := s.done + [s.cur], cur := [])
        else s1.(phase := Filling(0))
    case CommitStep =>
      (match s.phase
       case Filling(t) =>
         if t < |s.m.lh| then s.(m := WriteLogOne(l, s.m, t), phase := Filling(t + 1))
         else s.(m := WriteHead(l, s.m), phase := Installing(0), done := s.done + [s.cur], cur := [])
       case Installing(t) =>
         if t < |s.m.lh| then s.(m := InstallOne(l, s.m, t), phase := Installing(t + 1))
         else s.(m := ClearHead(l, s.m), phase := Finishing))
    case Finish => s.(m := s.m.(committing := false), phase := Running, acked := |s.done|)
    case Evict(b) => s.(m := s.m.(view := s.m.view[b := s.m.disk[b]]))
    case Crash =>
      s.(m := Machine(s.m.disk, s.m.disk, [], 0, false, {}), phase := Booting, ops := [], cur := [], panicked := false)
    case Boot =>
      var ts := HeadTargets(s.m.disk[l.start]);
      s.(m := s.m.(lh := ts), phase := Redoing(0, Install(l, s.m.disk, ts, |ts|)))
    case RedoStep =>
      var t := s.phase.tail;
      if t < |s.m.lh| then s.(m := InstallOne(l, s.m, t), phase := Redoing(t + 1, s.phase.goal))
      else s.(m := ClearHead(l, s.m), phase := Running)
  }

  // ---------------------------------------------------------------- the invariant

  ghost function Unused(ops: seq<Op>): int {
    if ops == [] then 0 else Unused(ops[..|ops| - 1]) + MAXOPBLOCKS - ops[|ops| - 1].used
  }

  /** A block whose `log_write` waits for the lock is modified, and it is listed or its operation has budget left. */
  ghost predicate OpOk(l: Layout, n: nat, lh: seq<nat>, o: Op) {
    && o.used <= MAXOPBLOCKS
    && (o.checked.Some? ==> o.checked.value in o.dirty && MayLog(o, lh, o.checked.value))
    && (forall b :: b in o.dirty ==> IsHome(l, n, b))
  }

  /** What the outstanding operations may still add to the log never exceeds the room left in it. */
  ghost predicate OpsInv(l: Layout, n: nat, lh: seq<nat>, outstanding: nat, ops: seq<Op>) {
    && outstanding == |ops|
    && |lh| + Unused(ops) <= LOGSIZE
    && (forall i :: 0 <= i < |ops| ==> OpOk(l, n, lh, ops[i]))
    && (ops == [] ==> lh == [])
  }

  /** Buffers differ from the disk only where the block is listed, or modified and about to be. */
  ghost predicate CleanOff(l: Layout, disk: Disk, view: Disk, lh: seq<nat>, dirty: set<nat>)
    requires |view| == |disk|
  {
    forall b: nat {:trigger IsHome(l, |disk|, b)} ::
      IsHome(l, |disk|, b) && b !in lh && b !in dirty ==> view[b] == disk[b]
  }

  ghost predicate PinnedFrom(lh: seq<nat>, pinned: set<nat>, t: nat) {
    && t <= |lh|
    && (forall b :: b in pinned ==> exists i :: t <= i < |lh| && lh[i] == b)
    && (forall i :: t <= i < |lh| ==> lh[i] in pinned)
  }

  /** While no commit runs: the log lists and pins home blocks, once each, and the header on disk is clear. */
  ghost predicate OpenInv(l: Layout, m: Machine, dirty: set<nat>) {
    && MachineOk(l, m) && TargetsOk(l, |m.disk|, m.lh) && Distinct(m.lh)
    && m.disk[l.start][0] == 0
    && CleanOff(l, m.disk, m.view, m.lh, dirty)
    && PinnedFrom(m.lh, m.pinned, 0)
  }

  ghost predicate InTxn(started: map<nat, nat>, evs: seq<Event>, k: nat) {
    forall i :: 0 <= i < |evs| ==> evs[i].op in started && started[evs[i].op] == k
  }

  ghost predicate DoneOk(started: map<nat, nat>, done: seq<seq<Event>>) {
    forall k :: 0 <= k < |done| ==> InTxn(started, done[k], k)
  }

  ghost predicate OpsStarted(started: map<nat, nat>, ops: seq<Op>, k: nat) {
    forall i :: 0 <= i < |ops| ==> ops[i].id in started && started[ops[i].id] == k
  }

  /** Every update, of the running transaction and of the committed ones, is filed under its operation's transaction. */
  ghost predicate HistoryInv(s: State) {
    && s.acked <= |s.done|
    && OpsStarted(s.started, s.ops, |s.done|)
    && InTxn(s.started, s.cur, |s.done|)
    && DoneOk(s.started, s.done)
  }

  /** The home blocks after all committed transactions. */
  ghost function Durable(l: Layout, h0: Disk, s: State): Disk {
    ReplayAll(l, h0, s.done)
  }

  ghost predicate RunningInv(l: Layout, h0: Disk, s: State) {
    && OpenInv(l, s.m, Dirty(s.ops)) && !s.m.committing
    && OpsInv(l, |s.m.disk|, s.m.lh, s.m.outstanding, s.ops)
    && Home(l, s.m.disk) == Durable(l, h0, s) && Home(l, s.m.view) == Replay(l, Durable(l, h0, s), s.cur)
  }

  ghost predicate Quiet(s: State) {
    s.ops == [] && s.m.outstanding == 0
  }

  ghost predicate FillingInv(l: Layout, h0: Disk, s: State, t: nat) {
    && Quiet(s) && s.m.committing && s.m.lh != []
    && InWriteLog(l, s.m, t) && PinnedFrom(s.m.lh, s.m.pinned, 0)
    && Home(l, s.m.disk) == Durable(l, h0, s) && Home(l, s.m.view) == Replay(l, Durable(l, h0, s), s.cur)
  }

  ghost predicate InstallingInv(l: Layout, h0: Disk, s: State, t: nat) {
    && Quiet(s) && s.m.committing && s.cur == []
    && InInstall(l, s.m, t) && PinnedFrom(s.m.lh, s.m.pinned, t)
    && Home(l, s.m.view) == Durable(l, h0, s)
  }

  ghost predicate FinishingInv(l: Layout, h0: Disk, s: State) {
    && Quiet(s) && s.m.committing && s.cur == []
    && OpenInv(l, s.m, {}) && s.m.lh == []
    && Home(l, s.m.disk) == Durable(l, h0, s) && Home(l, s.m.view) == Durable(l, h0, s)
  }

  ghost predicate BootingInv(l: Layout, h0: Disk, s: State) {
    && s.ops == [] && s.cur == [] && s.m == Machine(s.m.disk, s.m.disk, [], 0, false, {})
    && RecoversTo(l, s.m.disk, Durable(l, h0, s)) && Distinct(HeadTargets(s.m.disk[l.start]))
  }

  ghost predicate RedoingInv(l: Layout, h0: Disk, s: State, t: nat, goal: Disk) {
    && s.ops == [] && s.cur == [] && s.m == Machine(s.m.disk, s.m.disk, s.m.lh, 0, false, {})
    && InInstall(l, s.m.(view := goal), t)
    && Home(l, goal) == Durable(l, h0, s)
  }

  ghost predicate PhaseInv(l: Layout, h0: Disk, s: State) {
    match s.phase
    case Running => RunningInv(l, h0, s)
    case Filling(t) => FillingInv(l, h0, s, t)
    case Installing(t) => InstallingInv(l, h0, s, t)
    case Finishing => FinishingInv(l, h0, s)
    case Booting => BootingInv(l, h0, s)
    case Redoing(t, goal) => RedoingInv(l, h0, s, t, goal)
  }

  ghost predicate Inv(l: Layout, h0: Disk, s: State) {
    HistoryInv(s) && PhaseInv(l, h0, s)
  }

  // In every state that satisfies the invariant, a crash recovers exactly the committed transactions.
  lemma InvRecovers(l: Layout, h0: Disk, s: State)
    requires PhaseInv(l, h0, s)
    ensures RecoversTo(l, s.m.disk, Durable(l, h0, s))
    ensures Distinct(HeadTargets(s.m.disk[l.start]))
  {
    match s.phase
    case Running => RecoverOfClear(l, s.m.disk);
    case Filling(t) => RecoverOfClear(l, s.m.disk);
    case Installing(t) => CrashInInstall(l, s.m, t);
    case Finishing => RecoverOfClear(l, s.m.disk);
    case Booting =>
    case Redoing(t, goal) => CrashInInstall(l, s.m.(view := goal), t);
  }

  // Operations exist only while no commit runs and the machine is up.
  lemma OpsOnlyWhileRunning(l: Layout, h0: Disk, s: State)
    requires PhaseInv(l, h0, s) && s.ops != []
    ensures s.phase.Running? && !s.m.committing && s.m.outstanding >= 1
  {
  }

  // ---------------------------------------------------------------- steps of operations

  lemma UnusedOfAppend(ops: seq<Op>, o: Op)
    ensures Unused(ops + [o]) == Unused(ops) + MAXOPBLOCKS - o.used
  {
    assert (ops + [o])[..|ops|] == ops;
  }

  lemma {:induction false} UnusedBound(ops: seq<Op>)
    ensures Unused(ops) <= |ops| * MAXOPBLOCKS
  {
    if ops != [] { UnusedBound(ops[..|ops| - 1]); }
  }

  lemma DirtyOfAppend(ops: seq<Op>, o: Op)
    ensures Dirty(ops + [o]) == Dirty(ops) + o.dirty
  {
    var r := ops + [o];
    forall b ensures b in Dirty(r) <==> b in Dirty(ops) + o.dirty {
      if b in Dirty(r) {
        var i :| 0 <= i < |r| && b in r[i].dirty;
      } else {
        assert forall i :: 0 <= i < |ops| ==> r[i] == ops[i];
        assert r[|ops|] == o;
      }
    }
  }

  lemma BeginKeeps(l: Layout, h0: Disk, s: State, id: nat)
    requires PhaseInv(l, h0, s) && Enabled(l, s, BeginOp(id))
    ensures PhaseInv(l, h0, Apply(l, s, BeginOp(id)))
  {
    assert s.phase.Running?;
    var o := Op(id, 0, {}, None);
    UnusedOfAppend(s.ops, o);
    UnusedBound(s.ops);
    DirtyOfAppend(s.ops, o);
  }

  lemma {:induction false} UnusedOfUpdate(ops: seq<Op>, i: nat, o: Op)
    requires i < |ops|
    ensures Unused(ops[i := o]) == Unused(ops) + ops[i].used - o.used
  {
    var n := |ops| - 1;
    if i < n {
      UnusedOfUpdate(ops[..n], i, o);
      assert ops[i := o][..n] == ops[..n][i := o];
    } else {
      assert ops[i := o][..n] == ops[..n];
    }
  }

  lemma {:induction false} UnusedOfRemove(ops: seq<Op>, i: nat)
    requires i < |ops|
    ensures Unused(ops[..i] + ops[i + 1..]) == Unused(ops) + ops[i].used - MAXOPBLOCKS
  {
    var n := |ops| - 1;
    if i < n {
      UnusedOfRemove(ops[..n], i);
      var r := ops[..i] + ops[i + 1..];
      assert r[..n - 1] == ops[..n][..i] + ops[..n][i + 1..];
    } else {
      assert ops[..i] + ops[i + 1..] == ops[..n];
    }
  }

  // Changing one operation changes the modified blocks by what that operation gained or lost.
  lemma DirtyOfUpdate(ops: seq<Op>, i: nat, o: Op)
    requires i < |ops|
    ensures Dirty(ops) - (ops[i].dirty - o.dirty) <= Dirty(ops[i := o])
    ensures o.dirty <= Dirty(ops[i := o])
  {
    var r := ops[i := o];
    forall b | b in Dirty(ops) && !(b in ops[i].dirty && b !in o.dirty)
      ensures b in Dirty(r)
    {
      var j :| 0 <= j < |ops| && b in ops[j].dirty;
      assert b in r[j].dirty;
    }
    assert r[i] == o;
  }

  lemma DirtyOfRemove(ops: seq<Op>, i: nat)
    requires i < |ops| && ops[i].dirty == {}
    ensures Dirty(ops) <= Dirty(ops[..i] + ops[i + 1..])
  {
    var r := ops[..i] + ops[i + 1..];
    forall b | b in Dirty(ops)
      ensures b in Dirty(r)
    {
      var j :| 0 <= j < |ops| && b in ops[j].dirty;
      assert b in r[if j < i then j else j - 1].dirty;
    }
  }

  lemma ModifyKeeps(l: Layout, h0: Disk, s: State, i: nat, b: nat, v: Block)
    requires PhaseInv(l, h0, s) && Enabled(l, s, Modify(i, b, v))
    ensures PhaseInv(l, h0, Apply(l, s, Modify(i, b, v)))
  {
    OpsOnlyWhileRunning(l, h0, s);
    var o := s.ops[i].(dirty := s.ops[i].dirty + {b});
    UnusedOfUpdate(s.ops, i, o);
    DirtyOfUpdate(s.ops, i, o);
    HomeWriteKeepsLog(l, s.m.view, b, v);
    HomeWrite(l, s.m.view, b, v);
    ReplayOne(l, Durable(l, h0, s), s.cur, Event(s.ops[i].id, b, v));
  }

  lemma {:induction false} UnusedNonNegative(ops: seq<Op>, l: Layout, n: nat, lh: seq<nat>)
    requires forall j :: 0 <= j < |ops| ==> OpOk(l, n, lh, ops[j])
    ensures Unused(ops) >= 0
  {
    if ops != [] { UnusedNonNegative(ops[..|ops| - 1], l, n, lh); }
  }

  lemma RoomLeft(l: Layout, n: nat, lh: seq<nat>, ops: seq<Op>, i: nat)
    requires OpsInv(l, n, lh, |ops|, ops) && i < |ops| && ops[i].used < MAXOPBLOCKS
    ensures |lh| < LOGSIZE
  {
    UnusedOfRemove(ops, i);
    var r := ops[..i] + ops[i + 1..];
    assert forall j :: 0 <= j < |r| ==> r[j] == ops[if j < i then j else j + 1];
    UnusedNonNegative(r, l, n, lh);
  }

  // A `log_write` within the operation's budget passes its test, whatever the others do meanwhile.
  lemma GuardHolds(l: Layout, h0: Disk, s: State, i: nat)
    requires PhaseInv(l, h0, s) && l.size > LOGSIZE && i < |s.ops| && s.ops[i].used < MAXOPBLOCKS
    ensures !GuardFails(l, s.m)
  {
    OpsOnlyWhileRunning(l, h0, s);
    RoomLeft(l, |s.m.disk|, s.m.lh, s.ops, i);
  }

  lemma LogCheckKeeps(l: Layout, h0: Disk, s: State, i: nat, b: nat)
    requires PhaseInv(l, h0, s) && Enabled(l, s, LogCheck(i, b)) && !GuardFails(l, s.m)
    ensures PhaseInv(l, h0, Apply(l, s, LogCheck(i, b)))
  {
    OpsOnlyWhileRunning(l, h0, s);
    var o := s.ops[i].(checked := Some(b));
    UnusedOfUpdate(s.ops, i, o);
    DirtyOfUpdate(s.ops, i, o);
  }

  /** The log blocks of all listed blocks lie in the log area. */
  predicate Fits(l: Layout, s: State) {
    |s.m.lh| + 1 <= l.size
  }

  lemma AppendKeepsOpen(l: Layout, m: Machine, b: nat, dirty: set<nat>, dirty': set<nat>)
    requires OpenInv(l, m, dirty) && IsHome(l, |m.disk|, b) && dirty - {b} <= dirty'
    requires (b !in m.lh ==> |m.lh| < LOGSIZE) && |Append(m, b).lh| + 1 <= l.size
    ensures OpenInv(l, Append(m, b), dirty')
  {
    var m' := Append(m, b);
    if b !in m.lh {
      assert m'.lh[|m.lh|] == b;
      assert forall j :: 0 <= j < |m.lh| ==> m'.lh[j] == m.lh[j];
    }
  }

  lemma LogAppendKeeps(l: Layout, h0: Disk, s: State, i: nat)
    requires PhaseInv(l, h0, s) && Enabled(l, s, LogAppend(i)) && Fits(l, Apply(l, s, LogAppend(i)))
    ensures PhaseInv(l, h0, Apply(l, s, LogAppend(i)))
  {
    OpsOnlyWhileRunning(l, h0, s);
    assert OpOk(l, |s.m.disk|, s.m.lh, s.ops[i]);
    var b := s.ops[i].checked.value;
    if b !in s.m.lh { RoomLeft(l, |s.m.disk|, s.m.lh, s.ops, i); }
    var s' := Apply(l, s, LogAppend(i));
    UnusedOfUpdate(s.ops, i, s'.ops[i]);
    DirtyOfUpdate(s.ops, i, s'.ops[i]);
    AppendKeepsOpen(l, s.m, b, Dirty(s.ops), Dirty(s'.ops));
  }

  lemma OpsInvOfRemove(l: Layout, n: nat, lh: seq<nat>, ops: seq<Op>, i: nat)
    requires OpsInv(l, n, lh, |ops|, ops) && i < |ops| && |ops| > 1
    ensures OpsInv(l, n, lh, |ops| - 1, ops[..i] + ops[i + 1..])
  {
    UnusedOfRemove(ops, i);
    var r := ops[..i] + ops[i + 1..];
    assert forall j :: 0 <= j < |r| ==> r[j] == ops[if j < i then j else j + 1];
  }

  lemma CleanOffMore(l: Layout, m: Machine, dirty: set<nat>, dirty': set<nat>)
    requires OpenInv(l, m, dirty) && dirty <= dirty'
    ensures OpenInv(l, m, dirty')
  {
  }

  lemma EmptyTransaction(l: Layout, m: Machine)
    requires OpenInv(l, m, {}) && m.lh == []
    ensures Home(l, m.view) == Home(l, m.disk)
  {
    forall b: nat | b < |m.disk| && !InLog(l, b)
      ensures m.view[b] == m.disk[b]
    {
      assert IsHome(l, |m.disk|, b);
    }
    HomeIsPointwise(l, m.view, m.disk);
  }

  lemma LastEndKeeps(l: Layout, h0: Disk, s: State, s': State)
    requires RunningInv(l, h0, s) && OpenInv(l, s.m, {}) && s.m.outstanding == 1
    requires s'.m == End(s.m) && s'.ops == []
    requires if s.m.lh == [] then s'.phase == Finishing && s'.done == s.done + [s.cur] && s'.cur == []
             else s'.phase == Filling(0) && s'.done == s.done && s'.cur == s.cur
    ensures PhaseInv(l, h0, s')
  {
    if s.m.lh == [] {
      EmptyTransaction(l, s.m);
      ReplayMore(l, h0, s.done, s.cur);
    } else {
      assert CleanOffLog(l, s'.m);
    }
  }

  lemma EndOpKeeps(l: Layout, h0: Disk, s: State, i: nat)
    requires PhaseInv(l, h0, s) && Enabled(l, s, EndOp(i))
    ensures !s.m.committing && PhaseInv(l, h0, Apply(l, s, EndOp(i)))
  {
    OpsOnlyWhileRunning(l, h0, s);
    DirtyOfRemove(s.ops, i);
    var r := s.ops[..i] + s.ops[i + 1..];
    CleanOffMore(l, s.m, Dirty(s.ops), Dirty(r));
    if s.m.outstanding > 1 {
      OpsInvOfRemove(l, |s.m.disk|, s.m.lh, s.ops, i);
    } else {
      assert r == [];
      LastEndKeeps(l, h0, s, Apply(l, s, EndOp(i)));
    }
  }

  // ---------------------------------------------------------------- steps of the commit

  lemma FillKeeps(l: Layout, h0: Disk, s: State)
    requires PhaseInv(l, h0, s) && !s.panicked && s.phase.Filling? && s.phase.tail < |s.m.lh|
    ensures Enabled(l, s, CommitStep) && PhaseInv(l, h0, Apply(l, s, CommitStep))
  {
    WriteLogAdvances(l, s.m, s.phase.tail);
  }

  lemma CommitKeeps(l: Layout, h0: Disk, s: State)
    requires PhaseInv(l, h0, s) && !s.panicked && s.phase.Filling? && s.phase.tail == |s.m.lh|
    ensures Enabled(l, s, CommitStep) && PhaseInv(l, h0, Apply(l, s, CommitStep))
  {
    HeadWriteCommits(l, s.m);
    ReplayMore(l, h0, s.done, s.cur);
  }

  lemma InstallMoves(l: Layout, h0: Disk, s: State, r: State, next: nat)
    requires Quiet(s) && s.m.committing && s.cur == [] && AreaOk(l, |s.m.view|)
    requires Home(l, s.m.view) == Durable(l, h0, s)
    requires InInstall(l, r.m, next) && PinnedFrom(r.m.lh, r.m.pinned, next) && r.m.view == s.m.view
    requires r.m.outstanding == s.m.outstanding && r.m.committing == s.m.committing
    requires r.ops == s.ops && r.cur == s.cur && r.done == s.done && r.phase == Installing(next)
    ensures PhaseInv(l, h0, r)
  {
  }

  lemma UnpinOne(lh: seq<nat>, pinned: set<nat>, t: nat)
    requires Distinct(lh) && PinnedFrom(lh, pinned, t) && t < |lh|
    ensures PinnedFrom(lh, pinned - {lh[t]}, t + 1)
  {
    forall b | b in pinned - {lh[t]}
      ensures exists i :: t + 1 <= i < |lh| && lh[i] == b
    {
      var i :| t <= i < |lh| && lh[i] == b;
    }
  }

  lemma InstallOneKeeps(l: Layout, m: Machine, t: nat, next: nat)
    requires InInstall(l, m, t) && PinnedFrom(m.lh, m.pinned, t) && t < |m.lh| && next == t + 1
    ensures m.lh[t] < |m.disk| && l.start + 1 + t < |m.disk| == |m.view|
    ensures var r := InstallOne(l, m, t);
      && InInstall(l, r, next) && PinnedFrom(r.lh, r.pinned, next) && r.view == m.view
      && r.lh == m.lh && r.outstanding == m.outstanding && r.committing == m.committing
  {
    InstallAdvances(l, m, t);
    UnpinOne(m.lh, m.pinned, t);
  }

  lemma InstallKeepsInv(l: Layout, h0: Disk, s: State)
    requires PhaseInv(l, h0, s) && !s.panicked && s.phase.Installing? && s.phase.tail < |s.m.lh|
    ensures Enabled(l, s, CommitStep) && PhaseInv(l, h0, Apply(l, s, CommitStep))
  {
    InstallOneKeeps(l, s.m, s.phase.tail, s.phase.tail + 1);
    InstallMoves(l, h0, s, Apply(l, s, CommitStep), s.phase.tail + 1);
  }

  lemma NothingDirty(l: Layout, m: Machine)
    requires InWriteLog(l, m, 0) && m.lh == []
    requires m.pinned == {}
    ensures OpenInv(l, m, {})
  {
  }

  lemma EraseKeeps(l: Layout, h0: Disk, s: State)
    requires PhaseInv(l, h0, s) && !s.panicked && s.phase.Installing? && s.phase.tail == |s.m.lh|
    ensures Enabled(l, s, CommitStep) && PhaseInv(l, h0, Apply(l, s, CommitStep))
  {
    EraseEnds(l, s.m);
    NothingDirty(l, ClearHead(l, s.m));
  }

  // Commit steps never get stuck: each is possible whenever its phase is reached.
  lemma CommitStepKeeps(l: Layout, h0: Disk, s: State)
    requires PhaseInv(l, h0, s) && (s.phase.Filling? || s.phase.Installing?) && !s.panicked
    ensures Enabled(l, s, CommitStep) && PhaseInv(l, h0, Apply(l, s, CommitStep))
  {
    if s.phase.Filling? {
      if s.phase.tail < |s.m.lh| { FillKeeps(l, h0, s); } else { CommitKeeps(l, h0, s); }
    } else {
      if s.phase.tail < |s.m.lh| { InstallKeepsInv(l, h0, s); } else { EraseKeeps(l, h0, s); }
    }
  }

  lemma FinishKeeps(l: Layout, h0: Disk, s: State)
    requires PhaseInv(l, h0, s) && Enabled(l, s, Finish)
    ensures PhaseInv(l, h0, Apply(l, s, Finish))
  {
  }

  lemma EvictIsNoOp(l: Layout, h0: Disk, s: State, b: nat)
    requires PhaseInv(l, h0, s) && Enabled(l, s, Evict(b))
    ensures s.m.view[b] == s.m.disk[b]
  {
    if s.phase.Booting? || s.phase.Redoing? {
    } else if InLog(l, b) {
      LogAreaIsPointwise(l, s.m.view, s.m.disk, b);
    } else {
      assert IsHome(l, |s.m.disk|, b);
      if b in s.m.lh {
        var i :| 0 <= i < |s.m.lh| && s.m.lh[i] == b;
      }
    }
  }

  // Recycling an unpinned, unmodified buffer loses nothing.
  lemma EvictKeeps(l: Layout, h0: Disk, s: State, b: nat)
    requires PhaseInv(l, h0, s) && Enabled(l, s, Evict(b))
    ensures PhaseInv(l, h0, Apply(l, s, Evict(b)))
  {
    assert s.m.view[b] == s.m.disk[b] by { EvictIsNoOp(l, h0, s, b); }
    assert s.m.view[b := s.m.disk[b]] == s.m.view;
    assert Apply(l, s, Evict(b)) == s;
  }

  // ---------------------------------------------------------------- crash and recovery

  lemma CrashKeeps(l: Layout, h0: Disk, s: State)
    requires PhaseInv(l, h0, s)
    ensures PhaseInv(l, h0, Apply(l, s, Crash))
  {
    InvRecovers(l, h0, s);
  }

  lemma RedoStarts(l: Layout, m: Machine)
    requires HeaderOk(l, m.disk) && m.lh == HeadTargets(m.disk[l.start]) && Distinct(m.lh)
    requires m.view == Install(l, m.disk, m.lh, |m.lh|)
    ensures InInstall(l, m, 0)
  {
    InstallKeepsLogArea(l, m.disk, m.lh, |m.lh|);
    forall b: nat | IsHome(l, |m.disk|, b) && b !in m.lh
      ensures m.view[b] == m.disk[b]
    {
      InstallKeeps(l, m.disk, m.lh, |m.lh|, b);
    }
    forall i | 0 <= i < |m.lh|
      ensures IsHome(l, |m.disk|, m.lh[i]) && m.disk[l.start + 1 + i] == m.view[m.lh[i]]
    {
      InstallGives(l, m.disk, m.lh, |m.lh|, i);
    }
  }

  lemma BootKeeps(l: Layout, h0: Disk, s: State)
    requires PhaseInv(l, h0, s) && Enabled(l, s, Boot)
    ensures PhaseInv(l, h0, Apply(l, s, Boot))
  {
    var d := s.m.disk;
    var ts := HeadTargets(d[l.start]);
    var goal := Install(l, d, ts, |ts|);
    InstallKeepsLogArea(l, d, ts, |ts|);
    LogWriteKeepsHome(l, goal, l.start, PutHead(d[l.start], []));
    RedoStarts(l, s.m.(lh := ts, view := goal));
  }

  lemma RedoOneKeeps(l: Layout, h0: Disk, s: State)
    requires PhaseInv(l, h0, s) && Enabled(l, s, RedoStep) && s.phase.tail < |s.m.lh|
    ensures PhaseInv(l, h0, Apply(l, s, RedoStep))
  {
    var t, g := s.phase.tail, s.m.(view := s.phase.goal);
    InstallAdvances(l, g, t);
    InstallStep(l, g, t);
  }

  lemma RedoEndKeeps(l: Layout, h0: Disk, s: State)
    requires PhaseInv(l, h0, s) && Enabled(l, s, RedoStep) && s.phase.tail >= |s.m.lh|
    ensures PhaseInv(l, h0, Apply(l, s, RedoStep))
  {
    var g := s.m.(view := s.phase.goal);
    EraseEnds(l, g);
    var d := ClearHead(l, g).disk;
    assert ClearHead(l, s.m) == ClearHead(l, g).(view := d);
    NothingDirty(l, ClearHead(l, s.m));
  }

  lemma RedoKeeps(l: Layout, h0: Disk, s: State)
    requires PhaseInv(l, h0, s) && Enabled(l, s, RedoStep)
    ensures PhaseInv(l, h0, Apply(l, s, RedoStep))
  {
    if s.phase.tail < |s.m.lh| { RedoOneKeeps(l, h0, s); } else { RedoEndKeeps(l, h0, s); }
  }

  // ---------------------------------------------------------------- history

  lemma HistoryOfBegin(s: State, id: nat)
    requires HistoryInv(s) && id !in s.started
    ensures var st := s.started[id := |s.done|];
      OpsStarted(st, s.ops + [Op(id, 0, {}, None)], |s.done|) && InTxn(st, s.cur, |s.done|) && DoneOk(st, s.done)
  {
    var st := s.started[id := |s.done|];
    forall k | 0 <= k < |s.done|
      ensures InTxn(st, s.done[k], k)
    {
      assert InTxn(s.started, s.done[k], k);
    }
  }

  lemma HistoryOfEnd(s: State, i: nat)
    requires HistoryInv(s) && i < |s.ops|
    ensures OpsStarted(s.started, s.ops[..i] + s.ops[i + 1..], |s.done|)
  {
    var r := s.ops[..i] + s.ops[i + 1..];
    assert forall j :: 0 <= j < |r| ==> r[j] == s.ops[if j < i then j else j + 1];
  }

  lemma HistoryOfCommit(started: map<nat, nat>, done: seq<seq<Event>>, cur: seq<Event>)
    requires DoneOk(started, done) && InTxn(started, cur, |done|)
    ensures DoneOk(started, done + [cur])
  {
  }

  lemma HistoryOfModify(s: State, i: nat, b: nat, v: Block)
    requires HistoryInv(s) && i < |s.ops|
    ensures InTxn(s.started, s.cur + [Event(s.ops[i].id, b, v)], |s.done|)
  {
  }

  /** Operations are counted, and there are none while a commit or a recovery runs. */
  ghost predicate Counted(s: State) {
    if s.phase.Running? then s.m.outstanding == |s.ops| else s.ops == []
  }

  lemma HistoryOfEndOp(l: Layout, s: State, i: nat)
    requires Counted(s) && HistoryInv(s) && Enabled(l, s, EndOp(i))
    ensures HistoryInv(Apply(l, s, EndOp(i)))
  {
    HistoryOfEnd(s, i);
    HistoryOfCommit(s.started, s.done, s.cur);
    assert |s.ops| == 1 ==> s.ops[..i] + s.ops[i + 1..] == [];
  }

  lemma HistoryKeeps(l: Layout, s: State, a: Action)
    requires Counted(s) && HistoryInv(s) && Enabled(l, s, a)
    ensures HistoryInv(Apply(l, s, a))
  {
    match a
    case BeginOp(id) => HistoryOfBegin(s, id);
    case Modify(i, b, v) => HistoryOfModify(s, i, b, v);
    case EndOp(i) => HistoryOfEndOp(l, s, i);
    case CommitStep => HistoryOfCommit(s.started, s.done, s.cur);
    case _ =>
  }

  // Committed transactions are never taken back or changed, not even by a crash.
  lemma DoneGrows(l: Layout, s: State, a: Action)
    requires Enabled(l, s, a)
    ensures s.done <= Apply(l, s, a).done
    ensures s.acked <= |s.done| ==> s.acked <= Apply(l, s, a).acked
  {
  }

  // A panic of `log_write` changes nothing, and only a crash follows it.
  lemma PhaseStep(l: Layout, h0: Disk, s: State, a: Action)
    requires PhaseInv(l, h0, s) && Enabled(l, s, a) && Fits(l, Apply(l, s, a))
    ensures PhaseInv(l, h0, Apply(l, s, a))
  {
    match a
    case BeginOp(id) => BeginKeeps(l, h0, s, id);
    case Modify(i, b, v) => ModifyKeeps(l, h0, s, i, b, v);
    case LogCheck(i, b) => if !GuardFails(l, s.m) { LogCheckKeeps(l, h0, s, i, b); }
    case LogAppend(i) => LogAppendKeeps(l, h0, s, i);
    case EndOp(i) => EndOpKeeps(l, h0, s, i);
    case CommitStep => CommitStepKeeps(l, h0, s);
    case Finish => FinishKeeps(l, h0, s);
    case Evict(b) => EvictKeeps(l, h0, s, b);
    case Crash => CrashKeeps(l, h0, s);
    case Boot => BootKeeps(l, h0, s);
    case RedoStep => RedoKeeps(l, h0, s);
  }

  /** A `log_write` of a listed block while the list is full. */
  predicate FullAbsorb(s: State, a: Action) {
    a.LogCheck? && a.b in s.m.lh && |s.m.lh| == LOGSIZE
  }

  // In an area of more than LOGSIZE blocks, the one step that panics is a `log_write` that would be absorbed
  // by a full list.
  lemma PanicStepIff(l: Layout, h0: Disk, s: State, a: Action)
    requires l.size > LOGSIZE && PhaseInv(l, h0, s) && !s.panicked && Enabled(l, s, a)
    ensures Apply(l, s, a).panicked <==> FullAbsorb(s, a)
  {
    if a.LogCheck? {
      OpsOnlyWhileRunning(l, h0, s);
      if s.ops[a.i].used < MAXOPBLOCKS { GuardHolds(l, h0, s, a.i); }
    } else if a.EndOp? {
      OpsOnlyWhileRunning(l, h0, s);
    }
  }

  lemma OpsAreCounted(l: Layout, h0: Disk, s: State)
    requires PhaseInv(l, h0, s)
    ensures Counted(s)
  {
  }

  lemma InvStep(l: Layout, h0: Disk, s: State, a: Action)
    requires Inv(l, h0, s) && Enabled(l, s, a) && Fits(l, Apply(l, s, a))
    ensures Inv(l, h0, Apply(l, s, a))
  {
    OpsAreCounted(l, h0, s);
    HistoryKeeps(l, s, a);
    PhaseStep(l, h0, s, a);
  }

  // ---------------------------------------------------------------- whole runs

  ghost predicate IsRun(l: Layout, d0: Disk, ss: seq<State>, acts: seq<Action>) {
    && |ss| == |acts| + 1
    && Init(l, d0, ss[0])
    && forall i :: 0 <= i < |acts| ==> Enabled(l, ss[i], acts[i]) && ss[i + 1] == Apply(l, ss[i], acts[i])
  }

  /** Up to step `i` of a run, the list never outgrew the log area. */
  ghost predicate FitsUpTo(l: Layout, ss: seq<State>, i: nat) {
    i < |ss| && forall j | 0 <= j <= i :: Fits(l, ss[j])
  }

  lemma InitInv(l: Layout, d0: Disk, s: State)
    requires Init(l, d0, s)
    ensures Inv(l, Home(l, d0), s)
  {
    assert s.m.lh == [];
  }

  lemma RunStep(l: Layout, d0: Disk, ss: seq<State>, acts: seq<Action>, i: nat, j: nat)
    requires IsRun(l, d0, ss, acts) && i < |acts| && j == i + 1
    ensures Enabled(l, ss[i], acts[i]) && ss[j] == Apply(l, ss[i], acts[i])
  {
  }

  lemma {:induction false} RunInvariant(l: Layout, d0: Disk, ss: seq<State>, acts: seq<Action>, i: nat)
    requires IsRun(l, d0, ss, acts) && FitsUpTo(l, ss, i)
    ensures Inv(l, Home(l, d0), ss[i])
  {
    if i == 0 {
      InitInv(l, d0, ss[0]);
    } else {
      RunInvariant(l, d0, ss, acts, i - 1);
      RunStep(l, d0, ss, acts, i - 1, i);
      assert Fits(l, ss[i]);
      InvStep(l, Home(l, d0), ss[i - 1], acts[i - 1]);
    }
  }

  // Group commit and crash safety: at every point of every run, a crash recovers to the result of exactly
  // the transactions committed so far, applied in order to the initial disk.
  lemma CrashSafety(l: Layout, d0: Disk, ss: seq<State>, acts: seq<Action>, i: nat)
    requires IsRun(l, d0, ss, acts) && FitsUpTo(l, ss, i)
    ensures RecoversTo(l, ss[i].m.disk, ReplayAll(l, Home(l, d0), ss[i].done))
  {
    RunInvariant(l, d0, ss, acts, i);
    InvRecovers(l, Home(l, d0), ss[i]);
  }

  lemma StepKeepsDone(l: Layout, d0: Disk, ss: seq<State>, acts: seq<Action>, i: nat)
    requires IsRun(l, d0, ss, acts) && i < |acts| && FitsUpTo(l, ss, i)
    ensures ss[i].done <= ss[i + 1].done && ss[i].acked <= ss[i + 1].acked
  {
    RunInvariant(l, d0, ss, acts, i);
    DoneGrows(l, ss[i], acts[i]);
  }

  lemma AckedIsDone(l: Layout, d0: Disk, ss: seq<State>, acts: seq<Action>, i: nat)
    requires IsRun(l, d0, ss, acts) && FitsUpTo(l, ss, i)
    ensures ss[i].acked <= |ss[i].done|
  {
    RunInvariant(l, d0, ss, acts, i);
  }

  // Durability: a transaction committed at step `i` is still committed, with the same updates, at step `j`;
  // and whatever was committed when an `end_op` returned is included.
  lemma {:induction false} Durability(l: Layout, d0: Disk, ss: seq<State>, acts: seq<Action>, i: nat, j: nat)
    requires IsRun(l, d0, ss, acts) && i <= j && FitsUpTo(l, ss, j)
    ensures ss[i].done <= ss[j].done && ss[i].acked <= ss[j].acked <= |ss[j].done|
    decreases j
  {
    if i < j {
      Durability(l, d0, ss, acts, i, j - 1);
      StepKeepsDone(l, d0, ss, acts, j - 1);
    }
    AckedIsDone(l, d0, ss, acts, j);
  }

  /** The transaction `k` is being filled, or has been committed. */
  ghost predicate Underway(s: State, k: nat) {
    |s.done| > k || (|s.done| == k && (s.phase.Running? || s.phase.Filling?))
  }

  lemma StaysUnderway(l: Layout, h0: Disk, s: State, a: Action, k: nat)
    requires PhaseInv(l, h0, s) && Enabled(l, s, a) && !a.Crash? && Underway(s, k)
    ensures Underway(Apply(l, s, a), k)
  {
    if a.EndOp? { OpsOnlyWhileRunning(l, h0, s); }
  }

  lemma {:induction false} RunUnderway(l: Layout, d0: Disk, ss: seq<State>, acts: seq<Action>, i: nat, j: nat, k: nat)
    requires IsRun(l, d0, ss, acts) && i <= j && FitsUpTo(l, ss, j) && Underway(ss[i], k)
    requires forall n | i <= n < j :: !acts[n].Crash?
    ensures Underway(ss[j], k)
    decreases j
  {
    if i < j {
      RunUnderway(l, d0, ss, acts, i, j - 1, k);
      RunInvariant(l, d0, ss, acts, j - 1);
      RunStep(l, d0, ss, acts, j - 1, j);
      StaysUnderway(l, Home(l, d0), ss[j - 1], acts[j - 1], k);
    }
  }

  // When a commit finishes, everything committed is acknowledged, and that includes every operation that ended before,
  // unless there was a crash in between.
  lemma EndedOpsCommit(l: Layout, d0: Disk, ss: seq<State>, acts: seq<Action>, i: nat, j: nat)
    requires IsRun(l, d0, ss, acts) && i < j < |acts| && FitsUpTo(l, ss, j) && acts[i].EndOp? && acts[j].Finish?
    requires forall n | i <= n < j :: !acts[n].Crash?
    ensures acts[i].i < |ss[i].ops| && ss[j + 1].acked == |ss[j + 1].done|
    ensures var id := ss[i].ops[acts[i].i].id; id in ss[i].started && ss[i].started[id] < ss[j + 1].acked
  {
    RunInvariant(l, d0, ss, acts, i);
    RunStep(l, d0, ss, acts, i, i + 1);
    OpsOnlyWhileRunning(l, Home(l, d0), ss[i]);
    RunUnderway(l, d0, ss, acts, i, j, |ss[i].done|);
    RunStep(l, d0, ss, acts, j, j + 1);
  }

  // All updates of an operation that ever commit do so in one transaction.
  lemma OneTransactionPerOp(l: Layout, d0: Disk, ss: seq<State>, acts: seq<Action>, i: nat, j: nat, k: nat, e: Event,
                            f: Event)
    requires IsRun(l, d0, ss, acts) && FitsUpTo(l, ss, i)
    requires j < |ss[i].done| && k < |ss[i].done| && e in ss[i].done[j] && f in ss[i].done[k] && e.op == f.op
    ensures j == k
  {
    RunInvariant(l, d0, ss, acts, i);
    assert InTxn(ss[i].started, ss[i].done[j], j) && InTxn(ss[i].started, ss[i].done[k], k);
  }

  // The list outgrows neither LOGSIZE nor, in an area of more than LOGSIZE blocks, the area.
  lemma StepFits(l: Layout, h0: Disk, s: State, a: Action)
    requires l.size > LOGSIZE && PhaseInv(l, h0, s) && Enabled(l, s, a)
    ensures Fits(l, Apply(l, s, a))
  {
    if a.LogAppend? {
      OpsOnlyWhileRunning(l, h0, s);
      assert OpOk(l, |s.m.disk|, s.m.lh, s.ops[a.i]);
      if s.ops[a.i].checked.value !in s.m.lh { RoomLeft(l, |s.m.disk|, s.m.lh, s.ops, a.i); }
    }
  }

  lemma NextFits(l: Layout, d0: Disk, ss: seq<State>, acts: seq<Action>, i: nat, j: nat)
    requires l.size > LOGSIZE && IsRun(l, d0, ss, acts) && FitsUpTo(l, ss, i) && j == i + 1 < |ss|
    ensures FitsUpTo(l, ss, j)
  {
    RunInvariant(l, d0, ss, acts, i);
    RunStep(l, d0, ss, acts, i, j);
    StepFits(l, Home(l, d0), ss[i], acts[i]);
  }

  // In an area of more than LOGSIZE blocks the log never overflows and lists no block twice.
  lemma {:induction false} LogSpace(l: Layout, d0: Disk, ss: seq<State>, acts: seq<Action>, i: nat)
    requires l.size > LOGSIZE && IsRun(l, d0, ss, acts) && i < |ss|
    ensures FitsUpTo(l, ss, i)
    ensures |ss[i].m.lh| <= LOGSIZE && Distinct(ss[i].m.lh)
  {
    if i > 0 {
      LogSpace(l, d0, ss, acts, i - 1);
      NextFits(l, d0, ss, acts, i - 1, i);
    }
    RunInvariant(l, d0, ss, acts, i);
  }

  // In such an area a running kernel panics exactly at a `log_write` that would be absorbed by a full list:
  // no other `log_write`, and no `end_op`, ever does.
  lemma RunPanicsIff(l: Layout, d0: Disk, ss: seq<State>, acts: seq<Action>, i: nat, j: nat)
    requires l.size > LOGSIZE && IsRun(l, d0, ss, acts) && i < |acts| && j == i + 1 && !ss[i].panicked
    ensures ss[j].panicked <==> FullAbsorb(ss[i], acts[i])
  {
    LogSpace(l, d0, ss, acts, i);
    RunInvariant(l, d0, ss, acts, i);
    RunStep(l, d0, ss, acts, i, j);
    PanicStepIff(l, Home(l, d0), ss[i], acts[i]);
  }

  lemma {:induction false} NoPanic(l: Layout, d0: Disk, ss: seq<State>, acts: seq<Action>, i: nat)
    requires l.size > LOGSIZE && IsRun(l, d0, ss, acts) && i < |ss|
    requires forall k | 0 <= k < i :: !FullAbsorb(ss[k], acts[k])
    ensures !ss[i].panicked
  {
    if i > 0 {
      NoPanic(l, d0, ss, acts, i - 1);
      RunPanicsIff(l, d0, ss, acts, i - 1, i);
    }
  }

  // No operation modifies or logs a block, and none ends, while a commit or a recovery runs.
  lemma CommitIsExclusive(l: Layout, d0: Disk, ss: seq<State>, acts: seq<Action>, i: nat)
    requires IsRun(l, d0, ss, acts) && i < |acts| && FitsUpTo(l, ss, i)
    requires acts[i].Modify? || acts[i].LogCheck? || acts[i].LogAppend? || acts[i].EndOp?
    ensures ss[i].phase.Running? && !ss[i].m.committing
  {
    RunInvariant(l, d0, ss, acts, i);
    OpsOnlyWhileRunning(l, Home(l, d0), ss[i]);
  }

  /** A `begin_op` is admitted, or an operation has not ended, or a commit or a recovery can take its next step. */
  ghost predicate CanProgress(l: Layout, s: State) {
    || (s.phase.Running? && CanBegin(s.m))
    || s.ops != []
    || Enabled(l, s, CommitStep) || Enabled(l, s, Finish)
    || Enabled(l, s, Boot) || Enabled(l, s, RedoStep)
  }

  lemma RedoEnabled(l: Layout, h0: Disk, s: State)
    requires PhaseInv(l, h0, s) && s.phase.Redoing? && !s.panicked
    ensures Enabled(l, s, RedoStep)
  {
    var g := s.m.(view := s.phase.goal);
    if s.phase.tail < |s.m.lh| { InstallStep(l, g, s.phase.tail); }
  }

  lemma InvProgress(l: Layout, h0: Disk, s: State)
    requires PhaseInv(l, h0, s) && !s.panicked
    ensures CanProgress(l, s)
  {
    if s.phase.Filling? || s.phase.Installing? {
      CommitStepKeeps(l, h0, s);
    } else if s.phase.Redoing? {
      RedoEnabled(l, h0, s);
    }
  }

  // A `begin_op` that has to wait has something to wait for.
  lemma BeginWaitsForProgress(l: Layout, d0: Disk, ss: seq<State>, acts: seq<Action>, i: nat)
    requires IsRun(l, d0, ss, acts) && FitsUpTo(l, ss, i) && !ss[i].panicked
    ensures CanProgress(l, ss[i])
  {
    RunInvariant(l, d0, ss, acts, i);
    InvProgress(l, Home(l, d0), ss[i]);
  }

  // When a recovery has completed, the buffers hold the committed transactions and nothing else.
  lemma RecoveryCompletes(l: Layout, d0: Disk, ss: seq<State>, acts: seq<Action>, i: nat)
    requires IsRun(l, d0, ss, acts) && i < |acts| && FitsUpTo(l, ss, i + 1)
    requires acts[i].RedoStep? && ss[i + 1].phase.Running?
    ensures ss[i + 1].done == ss[i].done
    ensures AreaOk(l, |ss[i + 1].m.view|) && Home(l, ss[i + 1].m.view) == ReplayAll(l, Home(l, d0), ss[i + 1].done)
  {
    RunInvariant(l, d0, ss, acts, i);
    RunInvariant(l, d0, ss, acts, i + 1);
  }
}
