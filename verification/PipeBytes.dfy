/** Which bytes a call of `pipewrite` puts into a pipe and a call of `piperead` takes out (kernel/pipe.c), in every
    run of any number of processes. */
module PipeBytes {
  import opened Common
  import opened PipeRing
  import opened PipeProtocol

  /** What was added to a history. */
  ghost function Added(before: seq<int>, after: seq<int>): seq<int> {
    if |before| <= |after| then after[|before|..] else []
  }

  /** What one step of a run adds to what one process has put in or taken out. */
  ghost function OwnPart(own: bool, before: seq<int>, after: seq<int>): seq<int> {
    if own then Added(before, after) else []
  }

  /** The bytes that the steps of process `p` put into the pipe from step `from` on and before step `k`, in order. */
  ghost function PutBy(ss: seq<State>, acts: seq<Action>, p: nat, from: nat, k: nat): seq<int>
    requires |ss| == |acts| + 1 && k <= |acts|
  {
    if k <= from then []
    else PutBy(ss, acts, p, from, k - 1) + OwnPart(acts[k - 1].p == p, ss[k - 1].stored, ss[k].stored)
  }

  /** The bytes that they took out. */
  ghost function TakenBy(ss: seq<State>, acts: seq<Action>, p: nat, from: nat, k: nat): seq<int>
    requires |ss| == |acts| + 1 && k <= |acts|
  {
    if k <= from then []
    else TakenBy(ss, acts, p, from, k - 1) + OwnPart(acts[k - 1].p == p, ss[k - 1].taken, ss[k].taken)
  }

  /** Between these steps process `p` is in the call that it entered at step `from`. */
  ghost predicate InCall(ss: seq<State>, acts: seq<Action>, p: nat, op: Op, from: nat, k: nat) {
    && IsRun(ss, acts) && from < k <= |acts| && acts[from] == Enter(p, op)
    && forall j | from < j < k && acts[j].p == p :: !acts[j].Enter?
  }

  // ---------------------------------------------------------------- one step

  /** How far a call got, and what it moved on the way. */
  ghost predicate Moved(before: Op, after: Op, put: seq<int>, taken: seq<int>) {
    match before
    case Write(src, i) =>
      after.Write? && after.src == src && i <= after.i <= |src| && put == src[i..after.i] && taken == []
    case Read(n, i, _) => after.Read? && after.n == n && i <= after.i && put == [] && |taken| == after.i - i
    case Close(_) => after == before && put == [] && taken == []
  }

  ghost predicate InBounds(op: Op) {
    op.Write? ==> op.i <= |op.src|
  }

  /** From `s` to `t` only the call of process `p` moved bytes. */
  ghost predicate MovedBy(s: State, t: State, p: nat)
    requires p < |s.procs|
  {
    && |t.procs| == |s.procs| && s.stored <= t.stored && s.taken <= t.taken
    && Moved(s.procs[p].op, t.procs[p].op, Added(s.stored, t.stored), Added(s.taken, t.taken))
  }

  lemma WriterMoves(s: State, p: nat)
    requires Enabled(s, Step(p)) && s.procs[p].op.Write?
    ensures MovedBy(s, RunStep(s, p), p)
  {
  }

  lemma ReaderMoves(s: State, p: nat)
    requires Enabled(s, Step(p)) && s.procs[p].op.Read?
    ensures MovedBy(s, RunStep(s, p), p)
  {
  }

  lemma WakeMoves(s: State, p: nat)
    requires Enabled(s, WakeOne(p)) && InBounds(s.procs[p].op)
    ensures MovedBy(s, WakeStep(s, p), p)
  {
  }

  // A step moves the bytes of the call that takes it, and of no other.
  lemma StepMoves(s: State, a: Action)
    requires Enabled(s, a) && InBounds(s.procs[a.p].op) && !a.Enter?
    ensures MovedBy(s, Apply(s, a), a.p)
  {
    if a.Step? && s.procs[a.p].op.Write? {
      WriterMoves(s, a.p);
    } else if a.Step? && s.procs[a.p].op.Read? {
      ReaderMoves(s, a.p);
    } else if a.WakeOne? {
      WakeMoves(s, a.p);
    }
  }

  lemma EnterMovesNothing(s: State, a: Action)
    requires Enabled(s, a) && a.Enter?
    ensures var t := Apply(s, a);
      |t.procs| == |s.procs| && t.stored == s.stored && t.taken == s.taken && t.procs[a.p].op == a.op && Fresh(a.op)
  {
  }

  lemma RunOthersStay(s: State, p: nat, q: nat)
    requires Enabled(s, Step(p)) && q < |s.procs| && q != p
    ensures q < |RunStep(s, p).procs| && RunStep(s, p).procs[q] == s.procs[q]
  {
  }

  lemma OthersStay(s: State, a: Action, q: nat)
    requires Enabled(s, a) && q < |s.procs| && q != a.p
    ensures q < |Apply(s, a).procs| && Apply(s, a).procs[q].op == s.procs[q].op
  {
    if a.Step? { RunOthersStay(s, a.p, q); }
  }

  // Bytes move only in the code that runs under the pipe lock.
  lemma QuietMovesNothing(s: State, a: Action)
    requires Enabled(s, a) && !a.Step?
    ensures Apply(s, a).stored == s.stored && Apply(s, a).taken == s.taken
  {
  }

  // Step `k` of a run, with the call that takes it.
  lemma StepOfRun(ss: seq<State>, acts: seq<Action>, k: nat, next: nat)
    requires IsRun(ss, acts) && k < |acts| && next == k + 1 && acts[k].p < |ss[k].procs|
    requires InBounds(ss[k].procs[acts[k].p].op)
    ensures |ss[next].procs| == |ss[k].procs| && ss[k].stored <= ss[next].stored && ss[k].taken <= ss[next].taken
    ensures acts[k].Enter? ==> ss[next].procs[acts[k].p].op == acts[k].op && Fresh(acts[k].op)
    ensures !acts[k].Step? ==> ss[next].stored == ss[k].stored && ss[next].taken == ss[k].taken
    ensures !acts[k].Enter? ==> MovedBy(ss[k], ss[next], acts[k].p)
    ensures forall q | 0 <= q < |ss[k].procs| && q != acts[k].p :: ss[next].procs[q].op == ss[k].procs[q].op
  {
    assert StepAt(ss, acts, k);
    if !acts[k].Step? { QuietMovesNothing(ss[k], acts[k]); }
    if acts[k].Enter? { EnterMovesNothing(ss[k], acts[k]); } else { StepMoves(ss[k], acts[k]); }
    forall q | 0 <= q < |ss[k].procs| && q != acts[k].p ensures ss[next].procs[q].op == ss[k].procs[q].op {
      OthersStay(ss[k], acts[k], q);
    }
  }

  // ---------------------------------------------------------------- whole calls

  lemma {:induction false} RunInBounds(ss: seq<State>, acts: seq<Action>, k: nat)
    requires IsRun(ss, acts) && k < |ss|
    ensures forall q | 0 <= q < |ss[k].procs| :: InBounds(ss[k].procs[q].op)
    ensures k < |acts| ==> acts[k].p < |ss[k].procs|
    decreases k
  {
    if k < |acts| { assert StepAt(ss, acts, k); }
    if k > 0 {
      RunInBounds(ss, acts, k - 1);
      StepOfRun(ss, acts, k - 1, k);
    }
  }

  lemma PrefixMore(src: seq<int>, i: nat, j: nat)
    requires i <= j <= |src|
    ensures src[..i] + src[i..j] == src[..j] && src[..0] == []
  {
  }

  lemma TakenWasStored(ss: seq<State>, acts: seq<Action>, k: nat)
    requires IsRun(ss, acts) && k < |ss|
    ensures ss[k].taken <= ss[k].stored
  {
    Fifo(ss, acts, k);
  }

  lemma MiddleOf(first: seq<int>, mine: seq<int>, taken: seq<int>, all: seq<int>)
    requires taken == first + mine && taken <= all
    ensures |first| + |mine| <= |all| && mine == all[|first|..|first| + |mine|]
  {
  }

  // A call of `pipewrite` has put in exactly the first bytes of its source, in order, and nothing else.
  lemma {:induction false} WriterPutsSource(ss: seq<State>, acts: seq<Action>, p: nat, src: seq<int>, from: nat, k: nat)
    requires InCall(ss, acts, p, Write(src, 0), from, k)
    ensures p < |ss[k].procs| && ss[k].procs[p].op.Write? && ss[k].procs[p].op.src == src
    ensures ss[k].procs[p].op.i <= |src| && PutBy(ss, acts, p, from, k) == src[..ss[k].procs[p].op.i]
    ensures TakenBy(ss, acts, p, from, k) == []
    decreases k
  {
    var j := k - 1;
    RunInBounds(ss, acts, j);
    StepOfRun(ss, acts, j, k);
    if j > from { WriterPutsSource(ss, acts, p, src, from, j); }
    PrefixMore(src, if j > from then ss[j].procs[p].op.i else 0, ss[k].procs[p].op.i);
  }

  // A call of `piperead` has taken out as many bytes as it counted, and put none in.
  lemma {:induction false} ReaderTakesCount(ss: seq<State>, acts: seq<Action>, p: nat, n: nat, from: nat, k: nat)
    requires InCall(ss, acts, p, Read(n, 0, false), from, k)
    ensures p < |ss[k].procs| && ss[k].procs[p].op.Read? && ss[k].procs[p].op.n == n
    ensures |TakenBy(ss, acts, p, from, k)| == ss[k].procs[p].op.i && PutBy(ss, acts, p, from, k) == []
    decreases k
  {
    var j := k - 1;
    RunInBounds(ss, acts, j);
    StepOfRun(ss, acts, j, k);
    if j > from { ReaderTakesCount(ss, acts, p, n, from, j); }
  }

  /** Between these steps no process but `p` takes a step inside `pipewrite`. */
  ghost predicate OnlyWriter(ss: seq<State>, acts: seq<Action>, p: nat, from: nat, k: nat)
    requires |ss| == |acts| + 1 && k <= |acts|
  {
    forall j | from <= j < k && acts[j].Step? && acts[j].p != p && acts[j].p < |ss[j].procs| ::
      !ss[j].procs[acts[j].p].op.Write?
  }

  ghost predicate OnlyReader(ss: seq<State>, acts: seq<Action>, p: nat, from: nat, k: nat)
    requires |ss| == |acts| + 1 && k <= |acts|
  {
    forall j | from <= j < k && acts[j].Step? && acts[j].p != p && acts[j].p < |ss[j].procs| ::
      !ss[j].procs[acts[j].p].op.Read?
  }

  lemma Regroup(a: seq<int>, b: seq<int>, c: seq<int>)
    ensures (a + b) + c == a + (b + c)
  {
  }

  lemma OnlyWriterStep(ss: seq<State>, acts: seq<Action>, p: nat, j: nat, k: nat)
    requires IsRun(ss, acts) && j < |acts| && k == j + 1 && OnlyWriter(ss, acts, p, j, k)
    ensures ss[k].stored == ss[j].stored + OwnPart(acts[j].p == p, ss[j].stored, ss[k].stored)
  {
    RunInBounds(ss, acts, j);
    StepOfRun(ss, acts, j, k);
  }

  lemma OnlyReaderStep(ss: seq<State>, acts: seq<Action>, p: nat, j: nat, k: nat)
    requires IsRun(ss, acts) && j < |acts| && k == j + 1 && OnlyReader(ss, acts, p, j, k)
    ensures ss[k].taken == ss[j].taken + OwnPart(acts[j].p == p, ss[j].taken, ss[k].taken)
  {
    RunInBounds(ss, acts, j);
    StepOfRun(ss, acts, j, k);
  }

  // While nobody else writes, the pipe receives what the steps of `p` put in; the same for taking out.
  lemma {:induction false} OnlyWriterPuts(ss: seq<State>, acts: seq<Action>, p: nat, from: nat, k: nat)
    requires IsRun(ss, acts) && from <= k <= |acts| && OnlyWriter(ss, acts, p, from, k)
    ensures ss[k].stored == ss[from].stored + PutBy(ss, acts, p, from, k)
    decreases k
  {
    if from < k {
      OnlyWriterPuts(ss, acts, p, from, k - 1);
      OnlyWriterStep(ss, acts, p, k - 1, k);
      Regroup(ss[from].stored, PutBy(ss, acts, p, from, k - 1),
              OwnPart(acts[k - 1].p == p, ss[k - 1].stored, ss[k].stored));
    }
  }

  lemma {:induction false} OnlyReaderTakes(ss: seq<State>, acts: seq<Action>, p: nat, from: nat, k: nat)
    requires IsRun(ss, acts) && from <= k <= |acts| && OnlyReader(ss, acts, p, from, k)
    ensures ss[k].taken == ss[from].taken + TakenBy(ss, acts, p, from, k)
    decreases k
  {
    if from < k {
      OnlyReaderTakes(ss, acts, p, from, k - 1);
      OnlyReaderStep(ss, acts, p, k - 1, k);
      Regroup(ss[from].taken, TakenBy(ss, acts, p, from, k - 1),
              OwnPart(acts[k - 1].p == p, ss[k - 1].taken, ss[k].taken));
    }
  }

  // With one writer, the pipe grows by exactly the first bytes of its source.
  lemma StoredIsSource(ss: seq<State>, acts: seq<Action>, p: nat, src: seq<int>, from: nat, k: nat)
    requires InCall(ss, acts, p, Write(src, 0), from, k) && OnlyWriter(ss, acts, p, from, k)
    ensures p < |ss[k].procs| && ss[k].procs[p].op.Write? && ss[k].procs[p].op.i <= |src|
    ensures ss[k].stored == ss[from].stored + src[..ss[k].procs[p].op.i]
  {
    WriterPutsSource(ss, acts, p, src, from, k);
    OnlyWriterPuts(ss, acts, p, from, k);
  }

  // What one writer puts into an unused pipe comes out again, byte for byte and in order, whoever reads it.
  lemma ReadersGetSource(ss: seq<State>, acts: seq<Action>, p: nat, src: seq<int>, from: nat, k: nat)
    requires InCall(ss, acts, p, Write(src, 0), from, k) && OnlyWriter(ss, acts, p, from, k) && ss[from].stored == []
    ensures ss[k].taken <= ss[k].stored <= src
  {
    StoredIsSource(ss, acts, p, src, from, k);
    TakenWasStored(ss, acts, k);
  }

  // What one reader takes out are the next bytes of what was put in before and since.
  lemma ReaderGetsNext(ss: seq<State>, acts: seq<Action>, p: nat, from: nat, k: nat)
    requires IsRun(ss, acts) && from <= k <= |acts| && OnlyReader(ss, acts, p, from, k)
    ensures var start, mine := |ss[from].taken|, TakenBy(ss, acts, p, from, k);
      start + |mine| <= |ss[k].stored| && mine == ss[k].stored[start..start + |mine|]
  {
    OnlyReaderTakes(ss, acts, p, from, k);
    TakenWasStored(ss, acts, k);
    MiddleOf(ss[from].taken, TakenBy(ss, acts, p, from, k), ss[k].taken, ss[k].stored);
  }

  // ---------------------------------------------------------------- how calls end

  /** How far a call is at its program counter: a writer that does its last wakeup has put in everything; a reader that
      does so has all it asked for or has emptied the pipe, and a reader past its wait found bytes or the end of the
      file. */
  ghost predicate CallOk(pr: Proc, s: State) {
    match pr.op
    case Write(src, i) => pr.pc.Waking? && !pr.pc.thenSleep ==> i == |src|
    case Read(n, i, started) =>
      && i <= n && (!started ==> i == 0) && (started ==> Inside(pr.pc) || pr.pc.Out?) && (pr.pc.Sleep1? ==> !started)
      && (started && Inside(pr.pc) ==> i > 0 || !Empty(s.ring) || !s.writeopen)
      && (pr.pc.Waking? ==> started && !pr.pc.thenSleep && (i == n || Empty(s.ring)))
    case Close(w) => pr.pc.Waking? ==> !Open(s, w)
  }

  ghost predicate CallsOk(s: State) {
    LockOk(s) && forall q: nat | q < |s.procs| :: CallOk(s.procs[q], s)
  }

  lemma RunCallOk(s: State, p: nat)
    requires Enabled(s, Step(p)) && CallOk(s.procs[p], s)
    ensures p < |RunStep(s, p).procs| && CallOk(RunStep(s, p).procs[p], RunStep(s, p))
  {
  }

  lemma OwnCallOk(s: State, a: Action)
    requires Enabled(s, a) && CallOk(s.procs[a.p], s)
    ensures a.p < |Apply(s, a).procs| && CallOk(Apply(s, a).procs[a.p], Apply(s, a))
  {
    if a.Step? { RunCallOk(s, a.p); }
  }

  // A step that is not taken by the holder of the lock changes nothing that it looks at; ends are only ever closed.
  lemma PipeStays(s: State, a: Action)
    requires Enabled(s, a)
    ensures var t := Apply(s, a);
      && (!a.Step? ==> t.ring == s.ring && t.writeopen == s.writeopen)
      && (forall w :: Open(t, w) ==> Open(s, w))
  {
  }

  lemma OtherCallOk(s: State, a: Action, q: nat)
    requires Enabled(s, a) && CallsOk(s) && q < |s.procs| && q != a.p
    ensures q < |Apply(s, a).procs| && CallOk(Apply(s, a).procs[q], Apply(s, a))
  {
    StepFrame(s, a);
    PipeStays(s, a);
    assert CallOk(s.procs[q], s) && Untouched(s.procs[q], Apply(s, a).procs[q]);
  }

  lemma StepKeepsCalls(s: State, a: Action)
    requires Enabled(s, a) && CallsOk(s)
    ensures CallsOk(Apply(s, a))
  {
    var t := Apply(s, a);
    StepFrame(s, a);
    FrameKeepsLock(s, t, a.p);
    forall q: nat | q < |t.procs| ensures CallOk(t.procs[q], t) {
      if q == a.p { OwnCallOk(s, a); } else { OtherCallOk(s, a, q); }
    }
  }

  lemma {:induction false} RunKeepsCalls(ss: seq<State>, acts: seq<Action>, k: nat)
    requires IsRun(ss, acts) && k < |ss|
    ensures CallsOk(ss[k])
    decreases k
  {
    if k > 0 {
      RunKeepsCalls(ss, acts, k - 1);
      assert StepAt(ss, acts, k - 1);
      StepKeepsCalls(ss[k - 1], acts[k - 1]);
    }
  }

  /** In state `s` a call may return: a write when all is put in, or when the pipe is full and nobody will read it or
      the writer was killed; a read with what it asked for or an empty pipe, with nothing only at the end of file or
      when it was killed; a close when its end is closed. */
  ghost predicate MayReturn(pr: Proc, s: State) {
    match pr.op
    case Write(src, i) => i == |src| || (Full(s.ring) && (!s.readopen || pr.killed))
    case Read(n, i, started) =>
      || (i == n && (n == 0 || i > 0))
      || (0 < i < n && Empty(s.ring))
      || (i == 0 && Empty(s.ring) && (!s.writeopen || pr.killed))
    case Close(w) => !Open(s, w)
  }

  lemma LeavesRightly(s: State, a: Action, p: nat)
    requires Enabled(s, a) && CallsOk(s) && p < |s.procs| && OthersUntouched(s, Apply(s, a), a.p)
    requires !s.procs[p].pc.Out? && Apply(s, a).procs[p].pc.Out?
    ensures MayReturn(s.procs[p], s)
  {
    assert CallOk(s.procs[p], s);
  }

  // In every run a call returns only then.
  lemma CallsEnd(ss: seq<State>, acts: seq<Action>, k: nat, p: nat)
    requires IsRun(ss, acts) && k < |acts| && p < |ss[k].procs|
    ensures p < |ss[k + 1].procs|
    ensures !ss[k].procs[p].pc.Out? && ss[k + 1].procs[p].pc.Out? ==> MayReturn(ss[k].procs[p], ss[k])
  {
    RunKeepsCalls(ss, acts, k);
    assert StepAt(ss, acts, k);
    StepFrame(ss[k], acts[k]);
    if !ss[k].procs[p].pc.Out? && ss[k + 1].procs[p].pc.Out? { LeavesRightly(ss[k], acts[k], p); }
  }
}
