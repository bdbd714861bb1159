/** All lock-level interleavings of kernel/pipe.c with `sleep` and `wakeup` of kernel/proc.c.

A process takes its own lock before it releases the pipe lock and keeps it until it sleeps
(`Sleep1`, `Sleep2`); `wakeup` visits the processes one by one and waits for each one's lock
(`Waking`).  `stored` and `taken` are history: all bytes ever put in and taken out.
*/
module PipeProtocol {
  import opened Common
  import opened PipeRing

  datatype Chan = NRead | NWrite

  datatype Op =
    | Write(src: seq<int>, i: nat)
    | Read(n: nat, i: nat, started: bool)
    | Close(writable: bool)

  datatype Pc =
    | Out
    | Want
    | Run
    | Waking(chan: Chan, k: nat, thenSleep: bool)
    | Sleep1(chan: Chan)
    | Sleep2(chan: Chan)
    | Asleep(chan: Chan)
    | Ready

  datatype Proc = Proc(op: Op, pc: Pc, killed: bool)

  datatype State = State(
    ring: Ring,
    readopen: bool,
    writeopen: bool,
    lock: Option<nat>,
    procs: seq<Proc>,
    stored: seq<int>,
    taken: seq<int>
  )

  datatype Action =
    | Enter(p: nat, op: Op)
    | Acquire(p: nat)
    | Step(p: nat)
    | WakeOne(p: nat)
    | Release(p: nat)
    | FallAsleep(p: nat)
    | Resume(p: nat)
    | Kill(p: nat)

  // ---------------------------------------------------------------- steps

  ghost predicate Busy(s: State, p: nat)
    requires p < |s.procs|
  {
    !s.procs[p].pc.Out?
  }

  /** The end of the pipe a call works on; true is the write end. */
  predicate WriteSide(op: Op) {
    match op
    case Write(_, _) => true
    case Read(_, _, _) => false
    case Close(w) => w
  }

  predicate Open(s: State, writable: bool) {
    if writable then s.writeopen else s.readopen
  }

  /** The last reference to an end is gone, so its close runs beside no other call on that end. */
  predicate Conflict(a: Op, b: Op) {
    WriteSide(a) == WriteSide(b) && (a.Close? || b.Close?)
  }

  predicate Fresh(op: Op) {
    match op
    case Write(_, i) => i == 0
    case Read(_, i, started) => i == 0 && !started
    case Close(_) => true
  }

  ghost predicate MayEnter(s: State, op: Op) {
    && Fresh(op) && Open(s, WriteSide(op))
    && forall q | 0 <= q < |s.procs| :: Busy(s, q) ==> !Conflict(op, s.procs[q].op)
  }

  /** Process `q` holds its own lock, on the way to sleep. */
  predicate HoldsOwnLock(pc: Pc) {
    pc.Sleep1? || pc.Sleep2?
  }

  ghost predicate Enabled(s: State, a: Action) {
    && a.p < |s.procs|
    && var pr := s.procs[a.p];
       match a
       case Enter(p, op) => pr.pc.Out? && MayEnter(s, op)
       case Acquire(p) => pr.pc.Want? && s.lock.None?
       case Step(p) => pr.pc.Run? && |s.ring.data| == PIPESIZE && (pr.op.Write? ==> pr.op.i <= |pr.op.src|)
       case WakeOne(p) => pr.pc.Waking? && (pr.pc.k < |s.procs| ==> !HoldsOwnLock(s.procs[pr.pc.k].pc))
       case Release(p) => pr.pc.Sleep1?
       case FallAsleep(p) => pr.pc.Sleep2?
       case Resume(p) => pr.pc.Ready?
       case Kill(p) => !HoldsOwnLock(pr.pc)
  }

  function SetPc(s: State, p: nat, pc: Pc): State
    requires p < |s.procs|
  {
    s.(procs := s.procs[p := s.procs[p].(pc := pc)])
  }

  function SetOp(s: State, p: nat, op: Op): State
    requires p < |s.procs|
  {
    s.(procs := s.procs[p := s.procs[p].(op := op)])
  }

  function Leave(s: State, p: nat): State
    requires p < |s.procs|
  {
    SetPc(s, p, Out).(lock := None)
  }

  /** One step of the code that runs under the pipe lock. */
  function RunStep(s: State, p: nat): State
    requires p < |s.procs| && |s.ring.data| == PIPESIZE
    requires s.procs[p].op.Write? ==> s.procs[p].op.i <= |s.procs[p].op.src|
  {
    var pr := s.procs[p];
    match pr.op
    case Write(src, i) =>
      if i == |src| then SetPc(s, p, Waking(NRead, 0, false))
      else if Full(s.ring) then
        if !s.readopen || pr.killed then Leave(s, p) else SetPc(s, p, Waking(NRead, 0, true))
      else SetOp(s, p, Write(src, i + 1)).(ring := Put(s.ring, src[i]), stored := s.stored + [src[i]])
    case Read(n, i, started) =>
      if !started then
        if Empty(s.ring) && s.writeopen then
          if pr.killed then Leave(s, p) else SetPc(s, p, Sleep1(NRead))
        else SetOp(s, p, Read(n, i, true))
      else if i < n && !Empty(s.ring) then
        SetOp(s, p, Read(n, i + 1, true)).(ring := Drop(s.ring), taken := s.taken + [Head(s.ring)])
      else SetPc(s, p, Waking(NWrite, 0, false))
    case Close(w) =>
      if w then SetPc(s, p, Waking(NRead, 0, false)).(writeopen := false)
      else SetPc(s, p, Waking(NWrite, 0, false)).(readopen := false)
  }

  /** One round of `wakeup`; after the last one the caller goes to sleep or releases the lock. */
  function WakeStep(s: State, p: nat): State
    requires p < |s.procs| && s.procs[p].pc.Waking?
  {
    var pc := s.procs[p].pc;
    if pc.k < |s.procs| then
      var s1 := if s.procs[pc.k].pc == Asleep(pc.chan) then SetPc(s, pc.k, Ready) else s;
      SetPc(s1, p, Waking(pc.chan, pc.k + 1, pc.thenSleep))
    else if pc.thenSleep then SetPc(s, p, Sleep1(NWrite))
    else Leave(s, p)
  }

  function Apply(s: State, a: Action): State
    requires Enabled(s, a)
  {
    var pr := s.procs[a.p];
    match a
    case Enter(p, op) => s.(procs := s.procs[p := Proc(op, Want, pr.killed)])
    case Acquire(p) => SetPc(s, p, Run).(lock := Some(p))
    case Step(p) => RunStep(s, p)
    case WakeOne(p) => WakeStep(s, p)
    case Release(p) => SetPc(s, p, Sleep2(pr.pc.chan)).(lock := None)
    case FallAsleep(p) => SetPc(s, p, Asleep(pr.pc.chan))
    case Resume(p) => SetPc(s, p, Want)
    case Kill(p) =>
      s.(procs := s.procs[p := Proc(pr.op, if pr.pc.Asleep? then Ready else pr.pc, true)])
  }

  // ---------------------------------------------------------------- the invariant

  predicate Inside(pc: Pc) {
    pc.Run? || pc.Waking? || pc.Sleep1?
  }

  predicate Sleeping(pc: Pc) {
    pc.Sleep2? || pc.Asleep?
  }

  /** Exactly the holder of the pipe lock is in the code that runs under it. */
  ghost predicate LockOk(s: State) {
    && (s.lock.Some? ==> s.lock.value < |s.procs| && Inside(s.procs[s.lock.value].pc))
    && forall q | 0 <= q < |s.procs| :: Inside(s.procs[q].pc) ==> s.lock == Some(q)
  }

  /** Readers sleep on `nread`, writers on `nwrite`, and the counters of running calls are in range. */
  ghost predicate ProcOk(pr: Proc) {
    && (pr.op.Write? ==> pr.op.i <= |pr.op.src|)
    && (pr.pc == Sleep1(NRead) || pr.pc == Sleep2(NRead) || pr.pc == Asleep(NRead) ==> pr.op.Read? && !pr.op.started)
    && (pr.pc == Sleep1(NWrite) || pr.pc == Sleep2(NWrite) || pr.pc == Asleep(NWrite) ==> pr.op.Write?)
    && (pr.pc.Waking? && pr.pc.thenSleep ==> pr.pc.chan == NRead && pr.op.Write?)
  }

  /** Only its close still runs on a closed end, and a close runs alone. */
  ghost predicate EndsOk(s: State) {
    && (forall q | 0 <= q < |s.procs| :: Busy(s, q) && !Open(s, WriteSide(s.procs[q].op)) ==> s.procs[q].op.Close?)
    && (forall q, r | 0 <= q < |s.procs| && 0 <= r < |s.procs| && q != r ::
          Busy(s, q) && Busy(s, r) ==> !Conflict(s.procs[q].op, s.procs[r].op))
  }

  /** The reason to sleep on a channel. */
  predicate Reason(s: State, c: Chan) {
    match c
    case NRead => Empty(s.ring) && s.writeopen
    case NWrite => Full(s.ring) && s.readopen
  }

  /** A holder `h` of the pipe lock will still visit process `q` in a `wakeup` of channel `c`. */
  predicate Owes(h: Proc, c: Chan, q: nat) {
    || (h.pc.Waking? && h.pc.chan == c && h.pc.k <= q)
    || (h.pc.Run? && c == NRead && h.op.Write?)
    || (h.pc.Run? && c == NWrite && h.op.Read? && h.op.started)
  }

  ghost predicate Owed(s: State, c: Chan, q: nat) {
    s.lock.Some? && s.lock.value < |s.procs| && Owes(s.procs[s.lock.value], c, q)
  }

  /** A sleeping process has its reason, or is owed a wakeup; one that is about to sleep has its reason. */
  ghost predicate SleepOk(s: State, q: nat)
    requires q < |s.procs|
  {
    var pc := s.procs[q].pc;
    && (Sleeping(pc) ==> Reason(s, pc.chan) || Owed(s, pc.chan, q))
    && (pc.Sleep1? ==> Reason(s, pc.chan))
    && (pc.Waking? && pc.thenSleep ==> Reason(s, NWrite))
  }

  ghost predicate Inv(s: State) {
    && Holds(s.ring, s.stored, s.taken)
    && LockOk(s) && EndsOk(s)
    && (forall q | 0 <= q < |s.procs| :: ProcOk(s.procs[q]))
    && (forall q: nat | q < |s.procs| :: SleepOk(s, q))
  }

  /** While the pipe lock is free, a process sleeps on `nread` only if the pipe is empty and open for writing, and on
      `nwrite` only if it is full and open for reading. */
  ghost predicate NoLostWakeup(s: State) {
    s.lock.None? ==> forall q | 0 <= q < |s.procs| && Sleeping(s.procs[q].pc) :: Reason(s, s.procs[q].pc.chan)
  }

  // ---------------------------------------------------------------- every step keeps the invariant

  /** The early return of a killed writer, taken while a reader sleeps. */
  ghost predicate SkipsWakeup(s: State, a: Action) {
    && Enabled(s, a) && a.Step?
    && (var pr := s.procs[a.p];
        pr.op.Write? && pr.op.i < |pr.op.src| && Full(s.ring) && s.readopen && pr.killed)
    && exists q | 0 <= q < |s.procs| :: s.procs[q].pc == Sleep2(NRead) || s.procs[q].pc == Asleep(NRead)
  }

  lemma StepKeepsRing(s: State, a: Action)
    requires Enabled(s, a) && Holds(s.ring, s.stored, s.taken)
    ensures var t := Apply(s, a); Holds(t.ring, t.stored, t.taken)
  {
    if a.Step? {
      var op := s.procs[a.p].op;
      if op.Write? && op.i < |op.src| && !Full(s.ring) { PutHolds(s.ring, s.stored, s.taken, op.src[op.i]); }
      if op.Read? && !Empty(s.ring) { DropHolds(s.ring, s.stored, s.taken); }
    }
  }

  /** What a step may do to a process other than the one that takes it. */
  predicate Untouched(before: Proc, after: Proc) {
    after == before || (before.pc.Asleep? && after == before.(pc := Ready))
  }

  ghost predicate OthersUntouched(s: State, t: State, p: nat) {
    && |t.procs| == |s.procs|
    && forall q | 0 <= q < |s.procs| && q != p :: Untouched(s.procs[q], t.procs[q])
  }

  /** The lock as the process that takes the step may change it. */
  ghost predicate LockChange(s: State, t: State, p: nat)
    requires p < |s.procs| == |t.procs|
  {
    && (t.lock == Some(p) <==> Inside(t.procs[p].pc))
    && (t.lock != Some(p) && s.lock != Some(p) ==> t.lock == s.lock)
    && (t.lock == Some(p) ==> s.lock == Some(p) || s.lock == None)
    && (s.lock == Some(p) ==> t.lock == Some(p) || t.lock == None)
  }

  lemma RunFrame(s: State, p: nat)
    requires Enabled(s, Step(p)) && LockOk(s)
    ensures OthersUntouched(s, RunStep(s, p), p) && LockChange(s, RunStep(s, p), p)
  {
    assert s.lock == Some(p);
  }

  lemma WakeFrame(s: State, p: nat)
    requires Enabled(s, WakeOne(p)) && LockOk(s)
    ensures OthersUntouched(s, WakeStep(s, p), p) && LockChange(s, WakeStep(s, p), p)
  {
    assert s.lock == Some(p);
  }

  lemma StepFrame(s: State, a: Action)
    requires Enabled(s, a) && LockOk(s)
    ensures OthersUntouched(s, Apply(s, a), a.p) && LockChange(s, Apply(s, a), a.p)
  {
    if a.Step? { RunFrame(s, a.p); }
    if a.WakeOne? { WakeFrame(s, a.p); }
  }

  lemma FrameKeepsLock(s: State, t: State, p: nat)
    requires LockOk(s) && p < |s.procs| && OthersUntouched(s, t, p) && LockChange(s, t, p)
    ensures LockOk(t)
  {
  }

  lemma RunProcOk(s: State, p: nat)
    requires Enabled(s, Step(p)) && ProcOk(s.procs[p])
    ensures ProcOk(RunStep(s, p).procs[p])
  {
  }

  lemma OwnProcOk(s: State, a: Action)
    requires Enabled(s, a) && ProcOk(s.procs[a.p])
    ensures a.p < |Apply(s, a).procs| && ProcOk(Apply(s, a).procs[a.p])
  {
    if a.Step? { RunProcOk(s, a.p); }
  }

  lemma FrameKeepsProcs(s: State, t: State, p: nat)
    requires (forall q | 0 <= q < |s.procs| :: ProcOk(s.procs[q])) && OthersUntouched(s, t, p)
    requires p < |s.procs| && ProcOk(t.procs[p])
    ensures forall q | 0 <= q < |t.procs| :: ProcOk(t.procs[q])
  {
  }

  /** The process stays in the call it was in, or starts one that may start; only a close closes an end. */
  ghost predicate EndsChange(s: State, t: State, p: nat)
    requires p < |s.procs| == |t.procs|
  {
    var before, after := s.procs[p].op, t.procs[p].op;
    && (Busy(t, p) ==>
          || (Busy(s, p) && WriteSide(after) == WriteSide(before) && (after.Close? <==> before.Close?))
          || MayEnter(s, after))
    && (forall w :: Open(t, w) == Open(s, w) || (!Open(t, w) && Busy(s, p) && before == Close(w)))
  }

  lemma RunEnds(s: State, p: nat)
    requires Enabled(s, Step(p))
    ensures |RunStep(s, p).procs| == |s.procs| && EndsChange(s, RunStep(s, p), p)
  {
  }

  lemma OwnEnds(s: State, a: Action)
    requires Enabled(s, a)
    ensures |Apply(s, a).procs| == |s.procs| && EndsChange(s, Apply(s, a), a.p)
  {
    if a.Step? { RunEnds(s, a.p); }
  }

  lemma FrameKeepsEnds(s: State, t: State, p: nat)
    requires EndsOk(s) && p < |s.procs| && OthersUntouched(s, t, p) && EndsChange(s, t, p)
    ensures EndsOk(t)
  {
    forall q | 0 <= q < |t.procs| && Busy(t, q) && !Open(t, WriteSide(t.procs[q].op))
      ensures t.procs[q].op.Close?
    {
      if q != p { assert Busy(s, q) && Untouched(s.procs[q], t.procs[q]); }
    }
    forall q, r | 0 <= q < |t.procs| && 0 <= r < |t.procs| && q != r && Busy(t, q) && Busy(t, r)
      ensures !Conflict(t.procs[q].op, t.procs[r].op)
    {
      if q != p { assert Busy(s, q) && Untouched(s.procs[q], t.procs[q]); }
      if r != p { assert Busy(s, r) && Untouched(s.procs[r], t.procs[r]); }
    }
  }

  lemma WriterSleepers(s: State, p: nat, q: nat)
    requires Inv(s) && Enabled(s, Step(p)) && s.procs[p].op.Write? && q < |s.procs|
    requires !SkipsWakeup(s, Step(p))
    ensures q < |RunStep(s, p).procs| && SleepOk(RunStep(s, p), q)
  {
    assert s.lock == Some(p);
    assert SleepOk(s, q) && ProcOk(s.procs[q]);
    assert Busy(s, q) && !Open(s, WriteSide(s.procs[q].op)) ==> s.procs[q].op.Close?;
  }

  lemma ReaderSleepers(s: State, p: nat, q: nat)
    requires Inv(s) && Enabled(s, Step(p)) && s.procs[p].op.Read? && q < |s.procs|
    ensures q < |RunStep(s, p).procs| && SleepOk(RunStep(s, p), q)
  {
    assert s.lock == Some(p);
    assert SleepOk(s, q);
  }

  lemma CloserSleepers(s: State, p: nat, q: nat)
    requires Inv(s) && Enabled(s, Step(p)) && s.procs[p].op.Close? && q < |s.procs|
    ensures q < |RunStep(s, p).procs| && SleepOk(RunStep(s, p), q)
  {
    assert s.lock == Some(p);
    assert SleepOk(s, q);
  }

  lemma WakerSleepers(s: State, p: nat, q: nat)
    requires Inv(s) && Enabled(s, WakeOne(p)) && q < |s.procs|
    ensures q < |WakeStep(s, p).procs| && SleepOk(WakeStep(s, p), q)
  {
    assert s.lock == Some(p);
    assert SleepOk(s, q) && SleepOk(s, p);
  }

  lemma QuietSleepers(s: State, a: Action, q: nat)
    requires Inv(s) && Enabled(s, a) && !a.Step? && !a.WakeOne? && q < |s.procs|
    ensures q < |Apply(s, a).procs| && SleepOk(Apply(s, a), q)
  {
    assert SleepOk(s, q);
    assert s.lock.Some? ==> Inside(s.procs[s.lock.value].pc);
  }

  lemma StepSleepers(s: State, a: Action, q: nat)
    requires Inv(s) && Enabled(s, a) && !SkipsWakeup(s, a) && q < |s.procs|
    ensures q < |Apply(s, a).procs| && SleepOk(Apply(s, a), q)
  {
    if a.Step? {
      match s.procs[a.p].op
      case Write(_, _) => WriterSleepers(s, a.p, q);
      case Read(_, _, _) => ReaderSleepers(s, a.p, q);
      case Close(_) => CloserSleepers(s, a.p, q);
    } else if a.WakeOne? {
      WakerSleepers(s, a.p, q);
    } else {
      QuietSleepers(s, a, q);
    }
  }

  // Every step keeps the invariant, except the early return of a killed writer while a reader sleeps.
  lemma StepKeepsInv(s: State, a: Action)
    requires Inv(s) && Enabled(s, a) && !SkipsWakeup(s, a)
    ensures Inv(Apply(s, a))
  {
    var t := Apply(s, a);
    StepKeepsRing(s, a);
    StepFrame(s, a);
    FrameKeepsLock(s, t, a.p);
    OwnProcOk(s, a);
    FrameKeepsProcs(s, t, a.p);
    OwnEnds(s, a);
    FrameKeepsEnds(s, t, a.p);
    forall q: nat | q < |t.procs| ensures SleepOk(t, q) { StepSleepers(s, a, q); }
  }

  lemma InvMeansNoLostWakeup(s: State)
    requires Inv(s)
    ensures NoLostWakeup(s)
  {
    forall q | 0 <= q < |s.procs| && s.lock.None? && Sleeping(s.procs[q].pc)
      ensures Reason(s, s.procs[q].pc.chan)
    {
      assert SleepOk(s, q);
    }
  }

  // A step that starts in the invariant loses a wakeup if and only if it is that early return.
  lemma StepLosesWakeupIff(s: State, a: Action)
    requires Inv(s) && Enabled(s, a)
    ensures NoLostWakeup(Apply(s, a)) <==> !SkipsWakeup(s, a)
  {
    if SkipsWakeup(s, a) {
      var t := Apply(s, a);
      Tests(s.ring, s.stored, s.taken);
      var q :| 0 <= q < |s.procs| && (s.procs[q].pc == Sleep2(NRead) || s.procs[q].pc == Asleep(NRead));
      assert t.procs[q] == s.procs[q];
    } else {
      StepKeepsInv(s, a);
      InvMeansNoLostWakeup(Apply(s, a));
    }
  }

  // ---------------------------------------------------------------- whole runs

  /** The pipe as `pipealloc` leaves it, with `n` processes outside. */
  ghost predicate Initial(s: State) {
    && |s.ring.data| == PIPESIZE && s.ring.nread == 0 && s.ring.nwrite == 0
    && s.readopen && s.writeopen && s.lock == None && s.stored == [] && s.taken == []
    && forall q | 0 <= q < |s.procs| :: s.procs[q].pc.Out? && Fresh(s.procs[q].op)
  }

  ghost predicate StepAt(ss: seq<State>, acts: seq<Action>, i: nat)
    requires |ss| == |acts| + 1 && i < |acts|
  {
    Enabled(ss[i], acts[i]) && ss[i + 1] == Apply(ss[i], acts[i])
  }

  /** `ss` are the states of a run that takes the steps `acts` in this order. */
  ghost predicate IsRun(ss: seq<State>, acts: seq<Action>) {
    && |ss| == |acts| + 1 && Initial(ss[0])
    && forall i: nat | i < |acts| :: StepAt(ss, acts, i)
  }

  // In every interleaving, with kills or without, the bytes taken out are a prefix of the bytes put in,
  // at most 512 bytes behind, and the wrapped counters and the ring describe exactly the difference.
  lemma {:induction false} Fifo(ss: seq<State>, acts: seq<Action>, k: nat)
    requires IsRun(ss, acts) && k < |ss|
    ensures Holds(ss[k].ring, ss[k].stored, ss[k].taken)
    ensures ss[k].taken <= ss[k].stored && |ss[k].stored| <= |ss[k].taken| + PIPESIZE
    decreases k
  {
    if k > 0 {
      Fifo(ss, acts, k - 1);
      assert StepAt(ss, acts, k - 1);
      StepKeepsRing(ss[k - 1], acts[k - 1]);
    }
  }

  ghost predicate NoSkipBefore(ss: seq<State>, acts: seq<Action>, k: nat)
    requires |ss| == |acts| + 1 && k <= |acts|
  {
    forall i | 0 <= i < k :: !SkipsWakeup(ss[i], acts[i])
  }

  lemma {:induction false} RunKeepsInv(ss: seq<State>, acts: seq<Action>, k: nat)
    requires IsRun(ss, acts) && k < |ss| && NoSkipBefore(ss, acts, k)
    ensures Inv(ss[k])
    decreases k
  {
    if k > 0 {
      RunKeepsInv(ss, acts, k - 1);
      assert StepAt(ss, acts, k - 1);
      StepKeepsInv(ss[k - 1], acts[k - 1]);
    }
  }

  // No run loses a wakeup, unless a killed writer returns early while a reader sleeps.
  lemma NoWakeupIsLost(ss: seq<State>, acts: seq<Action>, k: nat)
    requires IsRun(ss, acts) && k < |ss| && NoSkipBefore(ss, acts, k)
    ensures NoLostWakeup(ss[k])
    // so a reader and a writer never sleep for each other
    ensures forall q, r | 0 <= q < |ss[k].procs| && 0 <= r < |ss[k].procs| && ss[k].lock.None? ::
      !(ss[k].procs[q].pc == Asleep(NRead) && ss[k].procs[r].pc == Asleep(NWrite))
  {
    RunKeepsInv(ss, acts, k);
    InvMeansNoLostWakeup(ss[k]);
    Tests(ss[k].ring, ss[k].stored, ss[k].taken);
  }

  // Without kill there is no early return, so nothing needs to be assumed about readers.
  lemma {:induction false} NoKillNoSkip(ss: seq<State>, acts: seq<Action>, k: nat)
    requires IsRun(ss, acts) && k < |ss|
    requires forall q | 0 <= q < |ss[0].procs| :: !ss[0].procs[q].killed
    requires forall i | 0 <= i < |acts| :: !acts[i].Kill?
    ensures forall q | 0 <= q < |ss[k].procs| :: !ss[k].procs[q].killed
    ensures NoSkipBefore(ss, acts, k)
    decreases k
  {
    if k > 0 {
      NoKillNoSkip(ss, acts, k - 1);
      assert StepAt(ss, acts, k - 1);
    }
  }

  // The pipe lock is never held by a process that is stuck: it can step, or waits for a process on its way to
  // sleep, which can.
  lemma HolderProgress(s: State)
    requires Inv(s) && s.lock.Some?
    ensures var h := s.lock.value;
            || Enabled(s, Step(h)) || Enabled(s, WakeOne(h)) || Enabled(s, Release(h))
            || (s.procs[h].pc.Waking? && s.procs[h].pc.k < |s.procs| && Enabled(s, FallAsleep(s.procs[h].pc.k)))
  {
    var h := s.lock.value;
    assert ProcOk(s.procs[h]);
    if s.procs[h].pc.Waking? && s.procs[h].pc.k < |s.procs| {
      assert Inside(s.procs[s.procs[h].pc.k].pc) ==> s.lock == Some(s.procs[h].pc.k);
    }
  }

  // ---------------------------------------------------------------- the run that loses a wakeup

  function Zeros(n: nat): seq<int> {
    seq(n, _ => 0)
  }

  /** A pipe with `k` bytes, a reader with program counter `r` and a writer with program counter `w`. */
  function Two(k: nat, lock: Option<nat>, r: Pc, w: Pc, killed: bool): State {
    State(Ring(Zeros(PIPESIZE), 0, k), true, true, lock,
          [Proc(Read(1, 0, false), r, false), Proc(Write(Zeros(PIPESIZE + 1), k), w, killed)], Zeros(k), [])
  }

  function Opening(): seq<State> {
    [ Two(0, None, Out, Out, false),
      Two(0, None, Want, Out, false),
      Two(0, Some(0), Run, Out, false),
      Two(0, Some(0), Sleep1(NRead), Out, false),
      Two(0, None, Sleep2(NRead), Out, false),
      Two(0, None, Asleep(NRead), Out, false),
      Two(0, None, Asleep(NRead), Want, false),
      Two(0, None, Asleep(NRead), Want, true) ]
  }

  function OpeningSteps(): seq<Action> {
    [ Enter(0, Read(1, 0, false)), Acquire(0), Step(0), Release(0), FallAsleep(0),
      Enter(1, Write(Zeros(PIPESIZE + 1), 0)), Kill(1), Acquire(1) ]
  }

  function Filling(k: nat): State {
    Two(k, Some(1), Asleep(NRead), Run, true)
  }

  lemma OpeningRuns(i: nat)
    requires i < 8
    ensures Enabled(Opening()[i], OpeningSteps()[i])
    ensures Apply(Opening()[i], OpeningSteps()[i]) == if i < 7 then Opening()[i + 1] else Filling(0)
  {
  }

  lemma FillingRuns(k: nat)
    requires k < PIPESIZE
    ensures Enabled(Filling(k), Step(1)) && Apply(Filling(k), Step(1)) == Filling(k + 1)
  {
    assert Zeros(PIPESIZE)[k := 0] == Zeros(PIPESIZE);
    assert Zeros(k) + [0] == Zeros(k + 1);
  }

  function StrandedAt(i: nat): State {
    if i < 8 then Opening()[i]
    else if i <= 8 + PIPESIZE then Filling(i - 8)
    else Two(PIPESIZE, None, Asleep(NRead), Out, true)
  }

  function StrandingStep(i: nat): Action {
    if i < 8 then OpeningSteps()[i] else Step(1)
  }

  lemma StrandingRuns(i: nat)
    requires i < 9 + PIPESIZE
    ensures Enabled(StrandedAt(i), StrandingStep(i))
    ensures Apply(StrandedAt(i), StrandingStep(i)) == StrandedAt(i + 1)
  {
    if i < 8 { OpeningRuns(i); } else if i < 8 + PIPESIZE { FillingRuns(i - 8); }
  }

  // The reader sleeps, the writer is killed, fills the pipe and returns: a reader sleeps beside a full pipe.
  lemma KilledWriterStrandsReader() returns (ss: seq<State>, acts: seq<Action>)
    ensures IsRun(ss, acts)
    ensures var end := ss[|ss| - 1];
            && end.lock == None && Full(end.ring) && |end.procs| == 2 && end.procs[0].pc == Asleep(NRead)
            && !NoLostWakeup(end)
  {
    ss := seq(10 + PIPESIZE, (i: nat) => StrandedAt(i));
    acts := seq(9 + PIPESIZE, (i: nat) => StrandingStep(i));
    forall i: nat | i < |acts| ensures StepAt(ss, acts, i) { StrandingRuns(i); }
  }
}
