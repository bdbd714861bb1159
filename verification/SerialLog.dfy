/** One process that runs operations one after another through the log (kernel/log.c), each of them between
`begin_op` and `end_op` and each touching a known set of blocks: a crash at any point leaves the effect of a
prefix of them. */
module SerialLog {
  import opened Common
  import opened LogSpec
  import opened LogProtocol

  /** The home blocks `h` and `g` agree outside `op`. */
  ghost predicate DifferOn(l: Layout, h: Disk, g: Disk, op: set<nat>) {
    && |g| == |h|
    && forall b: nat {:trigger HomeIx(l, b)} |
         b !in op && !InLog(l, b) && 0 <= HomeIx(l, b) < |h| :: g[HomeIx(l, b)] == h[HomeIx(l, b)]
  }

  /** A set of home blocks that one operation may touch. */
  ghost predicate OpFits(l: Layout, op: set<nat>) {
    |op| <= MAXOPBLOCKS && forall b | b in op :: !InLog(l, b)
  }

  /** Operation `k` takes the home blocks from `hs[k]` to `hs[k + 1]` within the blocks `ops[k]`. */
  ghost predicate Plan(l: Layout, hs: seq<Disk>, ops: seq<set<nat>>) {
    && |hs| == |ops| + 1
    && (forall k | 0 <= k < |ops| :: DifferOn(l, hs[k], hs[k + 1], ops[k]))
    && (forall k | 0 <= k < |ops| :: OpFits(l, ops[k]))
  }

  /** Home block `b` of the disk `d` is as in `h`. */
  ghost predicate Agrees(l: Layout, d: Disk, h: Disk, b: nat) {
    IsHome(l, |d|, b) && 0 <= HomeIx(l, b) < |h| ==> d[b] == h[HomeIx(l, b)]
  }

  /** What the process does: it begins operation `k` when `k` are done, modifies only blocks of that operation, and has
      made all its changes when it ends.  After the planned operations it may begin one that never ends. */
  ghost predicate WriterStep(l: Layout, hs: seq<Disk>, ops: seq<set<nat>>, s: State, a: Action) {
    match a
    case BeginOp(id) => s.ops == [] && id == |s.done|
    case Modify(i, b, v) => i < |s.ops| && (s.ops[i].id < |ops| ==> b in ops[s.ops[i].id])
    case EndOp(i) =>
      && i < |s.ops| && s.ops[i].id < |ops| && s.ops[i].id + 1 < |hs|
      && forall b | b in ops[s.ops[i].id] :: Agrees(l, s.m.view, hs[s.ops[i].id + 1], b)
    case _ => true
  }

  ghost predicate WriterRun(l: Layout, d0: Disk, ss: seq<State>, acts: seq<Action>, hs: seq<Disk>, ops: seq<set<nat>>) {
    && IsRun(l, d0, ss, acts) && |hs| == |ops| + 1 && hs[0] == Home(l, d0)
    && forall i | 0 <= i < |acts| :: WriterStep(l, hs, ops, ss[i], acts[i])
  }

  // ---------------------------------------------------------------- the invariant

  ghost predicate Within(evs: seq<Event>, op: set<nat>) {
    forall e | e in evs :: e.block in op
  }

  lemma {:induction false} ReplayWithin(l: Layout, h: Disk, evs: seq<Event>, op: set<nat>)
    requires Within(evs, op) && forall b | b in op :: !InLog(l, b)
    ensures DifferOn(l, h, Replay(l, h, evs), op)
  {
    if evs != [] {
      ReplayWithin(l, h, evs[..|evs| - 1], op);
      assert evs[|evs| - 1].block in op;
    }
  }

  /** The open operation modified and listed only its own blocks. */
  ghost predicate OpenOp(o: Op, lh: seq<nat>, cur: seq<Event>, op: set<nat>) {
    o.dirty <= op && Within(cur, op) && forall b | b in lh :: b in op
  }

  ghost predicate Serial(l: Layout, hs: seq<Disk>, ops: seq<set<nat>>, s: State)
    requires |hs| == |ops| + 1
  {
    && |s.done| <= |ops| && Durable(l, hs[0], s) == hs[|s.done|]
    && (s.phase.Running? && s.ops == [] ==> s.cur == [])
    && (s.ops != [] ==>
          && |s.ops| == 1 && s.ops[0].id == |s.done| && s.ops[0].used == |s.m.lh|
          && (|s.done| < |ops| ==> OpenOp(s.ops[0], s.m.lh, s.cur, ops[|s.done|])))
    && (s.phase.Filling? ==> |s.done| < |ops| && Replay(l, hs[|s.done|], s.cur) == hs[|s.done| + 1])
  }

  // ---------------------------------------------------------------- steps

  // A list of distinct elements of a set is no longer than the set, and holds all of it if it is as long.
  lemma {:induction false} DistinctWithin(ts: seq<nat>, op: set<nat>)
    requires Distinct(ts) && forall b | b in ts :: b in op
    ensures |ts| <= |op| && (|ts| == |op| ==> forall b | b in op :: b in ts)
  {
    if ts != [] {
      var most, last := ts[..|ts| - 1], ts[|ts| - 1];
      assert ts == most + [last];
      DistinctWithin(most, op - {last});
    }
  }

  // An operation that touches at most MAXOPBLOCKS blocks may log each of them whenever it likes.
  lemma BudgetHolds(l: Layout, o: Op, lh: seq<nat>, cur: seq<Event>, op: set<nat>, b: nat)
    requires OpenOp(o, lh, cur, op) && o.used == |lh| && Distinct(lh) && OpFits(l, op) && b in op
    ensures MayLog(o, lh, b)
  {
    DistinctWithin(lh, op);
  }

  // When an operation ends, its updates lead to the next state of the plan.
  lemma UpdatesMade(l: Layout, hs: seq<Disk>, ops: seq<set<nat>>, s: State, k: nat)
    requires Plan(l, hs, ops) && RunningInv(l, hs[0], s) && Serial(l, hs, ops, s) && s.ops != [] && k == |s.done|
    requires WriterStep(l, hs, ops, s, EndOp(0))
    ensures Replay(l, hs[k], s.cur) == hs[k + 1]
  {
    var h, g, op := hs[k], hs[k + 1], ops[k];
    assert DifferOn(l, h, g, op) && OpFits(l, op);
    ReplayWithin(l, h, s.cur, op);
    var r := Replay(l, h, s.cur);
    forall x | 0 <= x < |r| ensures r[x] == g[x] {
      var b := if x < l.start then x else x + l.size;
      assert HomeIx(l, b) == x && Home(l, s.m.view)[x] == s.m.view[b];
      if b in op { assert Agrees(l, s.m.view, g, b); }
    }
  }

  /** What the log keeps of its phases, its counters and its open operation. */
  ghost predicate Phased(s: State) {
    && (s.ops != [] ==> s.phase.Running?) && (s.phase.Running? && s.ops == [] ==> s.m.lh == [])
    && (s.phase.Running? ==> !s.m.committing && s.m.outstanding == |s.ops|)
    && (s.phase.Filling? || s.phase.Installing? || s.phase.Finishing? ==> s.m.committing)
    && (s.phase.Running? || s.phase.Filling? || s.cur == [])
    && (forall i | 0 <= i < |s.ops| :: s.ops[i].checked.Some? ==> s.ops[i].checked.value in s.ops[i].dirty)
  }

  lemma InvPhased(l: Layout, h0: Disk, s: State)
    requires PhaseInv(l, h0, s)
    ensures Phased(s)
  {
  }

  /** The disk that the run has to reach after the operation that is ending. */
  ghost predicate NextIs(l: Layout, hs: seq<Disk>, s: State) {
    |s.done| + 1 < |hs| && Replay(l, hs[|s.done|], s.cur) == hs[|s.done| + 1]
  }

  lemma EndOpSerial(l: Layout, hs: seq<Disk>, ops: seq<set<nat>>, s: State, i: nat)
    requires |hs| == |ops| + 1 && Phased(s) && Serial(l, hs, ops, s) && NextIs(l, hs, s)
    requires Enabled(l, s, EndOp(i))
    ensures Serial(l, hs, ops, Apply(l, s, EndOp(i)))
  {
    ReplayMore(l, hs[0], s.done, s.cur);
    assert s.ops[..i] + s.ops[i + 1..] == [];
  }

  lemma OpStepSerial(l: Layout, hs: seq<Disk>, ops: seq<set<nat>>, s: State, a: Action)
    requires |hs| == |ops| + 1 && Phased(s) && Serial(l, hs, ops, s)
    requires Enabled(l, s, a) && WriterStep(l, hs, ops, s, a)
    requires (a.BeginOp? || a.Modify? || a.LogCheck? || a.LogAppend?)
    ensures Serial(l, hs, ops, Apply(l, s, a))
  {
  }

  lemma LogStepSerial(l: Layout, hs: seq<Disk>, ops: seq<set<nat>>, s: State, a: Action)
    requires |hs| == |ops| + 1 && Phased(s) && Serial(l, hs, ops, s) && Enabled(l, s, a)
    requires a.CommitStep? || a.Finish? || a.Evict? || a.Crash? || a.Boot? || a.RedoStep?
    ensures Serial(l, hs, ops, Apply(l, s, a))
  {
    if a.CommitStep? { ReplayMore(l, hs[0], s.done, s.cur); }
  }

  lemma SerialStep(l: Layout, hs: seq<Disk>, ops: seq<set<nat>>, s: State, a: Action)
    requires Plan(l, hs, ops) && PhaseInv(l, hs[0], s) && Serial(l, hs, ops, s)
    requires Enabled(l, s, a) && WriterStep(l, hs, ops, s, a)
    ensures Serial(l, hs, ops, Apply(l, s, a))
  {
    InvPhased(l, hs[0], s);
    if a.EndOp? {
      UpdatesMade(l, hs, ops, s, |s.done|);
      EndOpSerial(l, hs, ops, s, a.i);
    } else if a.BeginOp? || a.Modify? || a.LogCheck? || a.LogAppend? {
      OpStepSerial(l, hs, ops, s, a);
    } else {
      LogStepSerial(l, hs, ops, s, a);
    }
  }

  // ---------------------------------------------------------------- whole runs

  lemma {:induction false} RunSerial(l: Layout, d0: Disk, ss: seq<State>, acts: seq<Action>, hs: seq<Disk>,
                                     ops: seq<set<nat>>, i: nat)
    requires Plan(l, hs, ops) && WriterRun(l, d0, ss, acts, hs, ops) && FitsUpTo(l, ss, i)
    ensures Inv(l, hs[0], ss[i]) && Serial(l, hs, ops, ss[i])
  {
    RunInvariant(l, d0, ss, acts, i);
    if i > 0 {
      RunSerial(l, d0, ss, acts, hs, ops, i - 1);
      RunStep(l, d0, ss, acts, i - 1, i);
      SerialStep(l, hs, ops, ss[i - 1], acts[i - 1]);
    }
  }

  // At every point of every such run a crash recovers to the disk after a prefix of the operations: those that
  // committed.  It is never less than what was acknowledged.
  lemma RecoversPrefix(l: Layout, d0: Disk, ss: seq<State>, acts: seq<Action>, hs: seq<Disk>, ops: seq<set<nat>>,
                       i: nat)
    requires Plan(l, hs, ops) && WriterRun(l, d0, ss, acts, hs, ops) && FitsUpTo(l, ss, i)
    ensures ss[i].acked <= |ss[i].done| <= |ops| && RecoversTo(l, ss[i].m.disk, hs[|ss[i].done|])
  {
    RunSerial(l, d0, ss, acts, hs, ops, i);
    CrashSafety(l, d0, ss, acts, i);
  }

  // While a planned operation is open, the log takes any block that the operation modified.
  lemma MayLogOwn(l: Layout, d0: Disk, ss: seq<State>, acts: seq<Action>, hs: seq<Disk>, ops: seq<set<nat>>, i: nat,
                  b: nat)
    requires Plan(l, hs, ops) && WriterRun(l, d0, ss, acts, hs, ops) && FitsUpTo(l, ss, i)
    requires ss[i].ops != [] && ss[i].ops[0].checked.None? && b in ss[i].ops[0].dirty && !ss[i].panicked
    requires |ss[i].done| < |ops|
    ensures Enabled(l, ss[i], LogCheck(0, b))
  {
    var s := ss[i];
    RunSerial(l, d0, ss, acts, hs, ops, i);
    OpsOnlyWhileRunning(l, hs[0], s);
    BudgetHolds(l, s.ops[0], s.m.lh, s.cur, ops[|s.done|], b);
  }

  // One operation at a time: its list stays short, so neither the area nor a guard is in the way.
  lemma WriterStepFits(l: Layout, hs: seq<Disk>, ops: seq<set<nat>>, s: State, a: Action)
    requires l.size > MAXOPBLOCKS + 1 && |hs| == |ops| + 1 && PhaseInv(l, hs[0], s) && Serial(l, hs, ops, s)
    requires Enabled(l, s, a) && !s.panicked
    ensures Fits(l, Apply(l, s, a)) && !Apply(l, s, a).panicked
  {
    if s.ops != [] {
      OpsOnlyWhileRunning(l, hs[0], s);
      assert OpOk(l, |s.m.disk|, s.m.lh, s.ops[0]);
    }
  }

  // In an area of at least MAXOPBLOCKS + 2 blocks, and mkfs makes a larger one, such a run never panics, and the list
  // always fits.
  lemma {:induction false} WriterNeverPanics(l: Layout, d0: Disk, ss: seq<State>, acts: seq<Action>, hs: seq<Disk>,
                                             ops: seq<set<nat>>, i: nat)
    requires l.size > MAXOPBLOCKS + 1 && Plan(l, hs, ops) && WriterRun(l, d0, ss, acts, hs, ops) && i < |ss|
    ensures !ss[i].panicked && FitsUpTo(l, ss, i)
  {
    if i > 0 {
      WriterNeverPanics(l, d0, ss, acts, hs, ops, i - 1);
      RunSerial(l, d0, ss, acts, hs, ops, i - 1);
      RunStep(l, d0, ss, acts, i - 1, i);
      WriterStepFits(l, hs, ops, ss[i - 1], acts[i - 1]);
    }
  }
}
