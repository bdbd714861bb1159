/** Where the guard of `log_write` (kernel/log.c:219) is not enough.

The guard compares `lh.n` with LOGSIZE and with the size of the log area, but it runs
before the lock is taken and before absorption.  The runs below are built step by step:
three operations take turns in logging fresh blocks, each within its budget.
*/
module LogLimits {
  import opened Common
  import opened LogSpec
  import opened LogProtocol

  /** The `k` home blocks right behind the log area. */
  function Fresh(l: Layout, k: nat): (r: seq<nat>)
    ensures |r| == k && forall i :: 0 <= i < k ==> r[i] == l.start + l.size + i
  {
    seq(k, i => l.start + l.size + i)
  }

  /** A kernel that runs, with this list and these three operations. */
  ghost predicate At(l: Layout, s: State, lh: seq<nat>, ops: seq<Op>) {
    && s.phase == Running && !s.panicked && !s.m.committing
    && s.m.lh == lh && s.m.outstanding == 3 && |ops| == 3 && s.ops == ops
    && |s.m.view| == |s.m.disk| >= l.start + l.size + LOGSIZE
  }

  /** Three operations at rest that have listed `k` blocks between them in turn. */
  function Three(k: nat): seq<Op> {
    [Op(0, (k + 2) / 3, {}, None), Op(1, (k + 1) / 3, {}, None), Op(2, k / 3, {}, None)]
  }

  lemma Extend(l: Layout, d0: Disk, ss: seq<State>, acts: seq<Action>, a: Action)
    requires IsRun(l, d0, ss, acts) && Enabled(l, ss[|ss| - 1], a)
    ensures IsRun(l, d0, ss + [Apply(l, ss[|ss| - 1], a)], acts + [a])
  {
    var tt := ss + [Apply(l, ss[|ss| - 1], a)];
    assert forall i :: 0 <= i < |ss| ==> tt[i] == ss[i];
  }

  lemma OpenThree(l: Layout, d0: Disk) returns (ss: seq<State>, acts: seq<Action>)
    requires AreaOk(l, |d0|) && LOGSIZE < |d0[l.start]| && d0[l.start][0] == 0
    requires |d0| >= l.start + l.size + LOGSIZE
    ensures IsRun(l, d0, ss, acts) && At(l, ss[|ss| - 1], Fresh(l, 0), Three(0))
  {
    var s0 := State(Machine(d0, d0, [], 0, false, {}), Running, [], false, [], [], 0, map[]);
    ss, acts := [s0], [];
    var j := 0;
    while j < 3
      invariant 0 <= j <= 3
      invariant IsRun(l, d0, ss, acts)
      invariant var s := ss[|ss| - 1];
        && s.phase == Running && !s.panicked && s.m == s0.m.(outstanding := j) && |s.ops| == j
        && (forall i :: 0 <= i < j ==> s.ops[i] == Op(i, 0, {}, None))
        && (forall i :: i in s.started ==> i < j)
    {
      var s := ss[|ss| - 1];
      Extend(l, d0, ss, acts, BeginOp(j));
      ss, acts := ss + [Apply(l, s, BeginOp(j))], acts + [BeginOp(j)];
      j := j + 1;
    }
  }

  /** Operation `o` after it modified `b` and passed the test of `log_write`. */
  function Passed(o: Op, b: nat): Op {
    o.(dirty := o.dirty + {b}, checked := Some(b))
  }

  /** Operation `o` after its `log_write` listed a new block. */
  function Listed(o: Op, b: nat): Op {
    Op(o.id, o.used + 1, o.dirty - {b}, None)
  }

  lemma ModifyNext(l: Layout, d0: Disk, ss: seq<State>, acts: seq<Action>, lh: seq<nat>, ops: seq<Op>, j: nat, b: nat)
    returns (ss': seq<State>, acts': seq<Action>)
    requires IsRun(l, d0, ss, acts) && At(l, ss[|ss| - 1], lh, ops)
    requires j < 3 && l.start + l.size <= b < l.start + l.size + LOGSIZE
    ensures IsRun(l, d0, ss', acts') && At(l, ss'[|ss'| - 1], lh, ops[j := ops[j].(dirty := ops[j].dirty + {b})])
  {
    var a := Modify(j, b, []);
    Extend(l, d0, ss, acts, a);
    ss', acts' := ss + [Apply(l, ss[|ss| - 1], a)], acts + [a];
  }

  lemma CheckNext(l: Layout, d0: Disk, ss: seq<State>, acts: seq<Action>, lh: seq<nat>, ops: seq<Op>, j: nat, b: nat)
    returns (ss': seq<State>, acts': seq<Action>)
    requires IsRun(l, d0, ss, acts) && At(l, ss[|ss| - 1], lh, ops)
    requires j < 3 && ops[j].checked.None? && b in ops[j].dirty && ops[j].used < MAXOPBLOCKS
    requires |lh| < LOGSIZE && |lh| < l.size - 1
    ensures IsRun(l, d0, ss', acts') && At(l, ss'[|ss'| - 1], lh, ops[j := ops[j].(checked := Some(b))])
  {
    var a := LogCheck(j, b);
    Extend(l, d0, ss, acts, a);
    ss', acts' := ss + [Apply(l, ss[|ss| - 1], a)], acts + [a];
  }

  // Operation `j` modifies a block and passes the test of `log_write`, while there is room.
  lemma PassTest(l: Layout, d0: Disk, ss: seq<State>, acts: seq<Action>, lh: seq<nat>, ops: seq<Op>, j: nat, b: nat)
    returns (ss': seq<State>, acts': seq<Action>)
    requires IsRun(l, d0, ss, acts) && At(l, ss[|ss| - 1], lh, ops)
    requires j < 3 && ops[j].checked.None? && ops[j].used < MAXOPBLOCKS
    requires l.start + l.size <= b < l.start + l.size + LOGSIZE && |lh| < LOGSIZE && |lh| < l.size - 1
    ensures IsRun(l, d0, ss', acts') && At(l, ss'[|ss'| - 1], lh, ops[j := Passed(ops[j], b)])
  {
    ss', acts' := ModifyNext(l, d0, ss, acts, lh, ops, j, b);
    var ops1 := ops[j := ops[j].(dirty := ops[j].dirty + {b})];
    ss', acts' := CheckNext(l, d0, ss', acts', lh, ops1, j, b);
    assert ops1[j := ops1[j].(checked := Some(b))] == ops[j := Passed(ops[j], b)];
  }

  // Operation `j` takes the lock and lists the block that passed the test; nothing is tested again.
  lemma AppendNext(l: Layout, d0: Disk, ss: seq<State>, acts: seq<Action>, lh: seq<nat>, ops: seq<Op>, j: nat, b: nat)
    returns (ss': seq<State>, acts': seq<Action>)
    requires IsRun(l, d0, ss, acts) && At(l, ss[|ss| - 1], lh, ops)
    requires j < 3 && ops[j].checked == Some(b) && b !in lh
    ensures IsRun(l, d0, ss', acts') && At(l, ss'[|ss'| - 1], lh + [b], ops[j := Listed(ops[j], b)])
  {
    var a := LogAppend(j);
    Extend(l, d0, ss, acts, a);
    ss', acts' := ss + [Apply(l, ss[|ss| - 1], a)], acts + [a];
  }

  lemma TakeTurn(k: nat, b: nat)
    ensures var j, ops := k % 3, Three(k); ops[j := Listed(Passed(ops[j], b), b)] == Three(k + 1)
  {
  }

  // The next operation in turn lists the next fresh block.
  lemma LogOne(l: Layout, d0: Disk, ss: seq<State>, acts: seq<Action>, k: nat)
    returns (ss': seq<State>, acts': seq<Action>)
    requires IsRun(l, d0, ss, acts) && At(l, ss[|ss| - 1], Fresh(l, k), Three(k)) && k < LOGSIZE && k < l.size - 1
    ensures IsRun(l, d0, ss', acts') && At(l, ss'[|ss'| - 1], Fresh(l, k + 1), Three(k + 1))
  {
    var j, b := k % 3, l.start + l.size + k;
    var ops := Three(k);
    ss', acts' := PassTest(l, d0, ss, acts, Fresh(l, k), ops, j, b);
    ss', acts' := AppendNext(l, d0, ss', acts', Fresh(l, k), ops[j := Passed(ops[j], b)], j, b);
    assert Fresh(l, k) + [b] == Fresh(l, k + 1);
    TakeTurn(k, b);
  }

  lemma FillLog(l: Layout, d0: Disk, k: nat) returns (ss: seq<State>, acts: seq<Action>)
    requires AreaOk(l, |d0|) && LOGSIZE < |d0[l.start]| && d0[l.start][0] == 0
    requires |d0| >= l.start + l.size + LOGSIZE && k <= LOGSIZE && k <= l.size - 1
    ensures IsRun(l, d0, ss, acts) && At(l, ss[|ss| - 1], Fresh(l, k), Three(k))
  {
    ss, acts := OpenThree(l, d0);
    var i := 0;
    while i < k
      invariant 0 <= i <= k && IsRun(l, d0, ss, acts) && At(l, ss[|ss| - 1], Fresh(l, i), Three(i))
    {
      ss, acts := LogOne(l, d0, ss, acts, i);
      i := i + 1;
    }
  }

  // Two operations pass the unlocked test on the last free slot, then both append.
  lemma RaceForLastSlot(l: Layout, d0: Disk, ss: seq<State>, acts: seq<Action>, k: nat)
    returns (ss': seq<State>, acts': seq<Action>)
    requires IsRun(l, d0, ss, acts) && At(l, ss[|ss| - 1], Fresh(l, k), Three(k)) && k + 2 == l.size <= LOGSIZE
    ensures IsRun(l, d0, ss', acts') && |ss'[|ss'| - 1].m.lh| == l.size
  {
    var i, j, b, c := k % 3, (k + 1) % 3, l.start + l.size + k, l.start + l.size + k + 1;
    var lh, o0 := Fresh(l, k), Three(k);
    ss', acts' := PassTest(l, d0, ss, acts, lh, o0, i, b);
    var o1 := o0[i := Passed(o0[i], b)];
    ss', acts' := PassTest(l, d0, ss', acts', lh, o1, j, c);
    var o2 := o1[j := Passed(o1[j], c)];
    ss', acts' := AppendNext(l, d0, ss', acts', lh, o2, i, b);
    ss', acts' := AppendNext(l, d0, ss', acts', lh + [b], o2[i := Listed(o2[i], b)], j, c);
  }

  /** In every run, the log blocks of all listed blocks lie in the log area. */
  ghost predicate AreaNeverOverrun(l: Layout, d0: Disk) {
    forall ss: seq<State>, acts: seq<Action> :: IsRun(l, d0, ss, acts) ==> Fits(l, ss[|ss| - 1])
  }

  // The log area is never overrun exactly when it has room for LOGSIZE blocks and the header.  An area of
  // LOGSIZE blocks in all, which is what mkfs makes, is one block short.
  lemma AreaNeverOverrunIff(l: Layout, d0: Disk)
    requires AreaOk(l, |d0|) && LOGSIZE < |d0[l.start]| && d0[l.start][0] == 0
    requires |d0| >= l.start + l.size + LOGSIZE && l.size >= 2
    ensures AreaNeverOverrun(l, d0) <==> l.size >= LOGSIZE + 1
  {
    if l.size >= LOGSIZE + 1 {
      forall ss: seq<State>, acts: seq<Action> | IsRun(l, d0, ss, acts)
        ensures Fits(l, ss[|ss| - 1])
      {
        LogSpace(l, d0, ss, acts, |ss| - 1);
      }
    } else {
      var ss, acts := FillLog(l, d0, l.size - 2);
      var ss', acts' := RaceForLastSlot(l, d0, ss, acts, l.size - 2);
    }
  }

  // In every area that is large enough there is a run of three operations, none of which lists more than its
  // MAXOPBLOCKS blocks, in which a `log_write` panics although its block is listed already.
  lemma FullLogRejectsAbsorption(l: Layout, d0: Disk) returns (ss: seq<State>, acts: seq<Action>)
    requires AreaOk(l, |d0|) && LOGSIZE < |d0[l.start]| && d0[l.start][0] == 0
    requires |d0| >= l.start + l.size + LOGSIZE && l.size >= LOGSIZE + 1
    ensures IsRun(l, d0, ss, acts) && |acts| > 0
    ensures var s, a := ss[|acts| - 1], acts[|acts| - 1];
      && !s.panicked && FullAbsorb(s, a) && a.b in s.ops[a.i].dirty
      && (forall o | o in s.ops :: o.used <= MAXOPBLOCKS)
    ensures ss[|acts|].panicked
  {
    var b := l.start + l.size;
    ss, acts := FillLog(l, d0, LOGSIZE);
    ss, acts := ModifyNext(l, d0, ss, acts, Fresh(l, LOGSIZE), Three(LOGSIZE), 0, b);
    assert Fresh(l, LOGSIZE)[0] == b;
    var s, a := ss[|ss| - 1], LogCheck(0, b);
    Extend(l, d0, ss, acts, a);
    ss, acts := ss + [Apply(l, s, a)], acts + [a];
  }
}
