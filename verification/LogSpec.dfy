/** The physical redo log of kernel/log.c as functions on a disk and on the state of one log.

A disk is a sequence of blocks and a block is a sequence of 32-bit words.  The block at
`start` is the header: word 0 holds the number of logged blocks, words 1.. their home
block numbers.  The blocks after it hold the logged contents, and everything outside
`start .. start + size` is a home block.

`Machine` adds what the kernel keeps in memory.  `view[b]` is what `bread(b)` would return:
the cached copy if there is one, the disk block otherwise.  Recycling a buffer makes
`view[b]` fall back to `disk[b]`; a crash does so for every block.
*/
module LogSpec {
  import opened Common

  type Block = seq<nat>
  type Disk = seq<Block>

  /** `log.start` and `log.size`. */
  datatype Layout = Layout(start: nat, size: nat)

  datatype Machine = Machine(
    disk: Disk,
    view: Disk,
    lh: seq<nat>,
    outstanding: nat,
    committing: bool,
    pinned: set<nat>
  )

  // ---------------------------------------------------------------- the disk alone

  predicate InLog(l: Layout, b: nat) {
    l.start <= b < l.start + l.size
  }

  /** A home block of a disk of `n` blocks. */
  predicate IsHome(l: Layout, n: nat, b: nat) {
    b < n && !InLog(l, b)
  }

  /** A disk of `n` blocks has a log area. */
  predicate AreaOk(l: Layout, n: nat) {
    1 <= l.size && l.start + l.size <= n
  }

  /** The home blocks of a disk, and its log area. */
  function Home(l: Layout, d: Disk): Disk
    requires AreaOk(l, |d|)
  {
    d[..l.start] + d[l.start + l.size..]
  }

  function LogArea(l: Layout, d: Disk): Disk
    requires AreaOk(l, |d|)
  {
    d[l.start..l.start + l.size]
  }

  /** The list of targets fits the log area and names home blocks only. */
  ghost predicate TargetsOk(l: Layout, n: nat, ts: seq<nat>) {
    && |ts| <= LOGSIZE
    && |ts| + 1 <= l.size
    && (forall t :: 0 <= t < |ts| ==> IsHome(l, n, ts[t]))
  }

  ghost predicate Distinct(s: seq<nat>) {
    forall i, j :: 0 <= i < j < |s| ==> s[i] != s[j]
  }

  /** The block numbers that a header block lists. */
  function HeadTargets(h: Block): seq<nat>
    requires 0 < |h| && h[0] < |h|
  {
    h[1..1 + h[0]]
  }

  /** A header block that recovery can act on, on a disk of `n` blocks. */
  ghost predicate HeadOk(l: Layout, n: nat, h: Block) {
    LOGSIZE < |h| && h[0] < |h| && TargetsOk(l, n, HeadTargets(h))
  }

  ghost predicate HeaderOk(l: Layout, d: Disk) {
    AreaOk(l, |d|) && HeadOk(l, |d|, d[l.start])
  }

  /** Overwrites the count and the first entries of a header block; later words keep their old value. */
  function PutHead(h: Block, lh: seq<nat>): (r: Block)
    requires |lh| < |h|
    ensures |r| == |h| && r[0] == |lh| && HeadTargets(r) == lh && r[1 + |lh|..] == h[1 + |lh|..]
  {
    [|lh|] + lh + h[1 + |lh|..]
  }

  /** The first `k` entries of a list, as a set. */
  ghost function Elems(ts: seq<nat>, k: nat): (r: set<nat>)
    requires k <= |ts|
    ensures forall i :: 0 <= i < k ==> ts[i] in r
    ensures forall b :: b in r ==> b in ts
  {
    if k == 0 then {} else Elems(ts, k - 1) + {ts[k - 1]}
  }

  /** The pins left over from `pinned` after unpinning the first `k` entries of a list. */
  ghost function Unpin(pinned: set<nat>, ts: seq<nat>, k: nat): set<nat>
    requires k <= |ts|
  {
    if k == 0 then pinned else Unpin(pinned, ts, k - 1) - {ts[k - 1]}
  }

  lemma {:induction false} UnpinRemoves(pinned: set<nat>, ts: seq<nat>, k: nat)
    requires k <= |ts|
    ensures Unpin(pinned, ts, k) == pinned - Elems(ts, k)
  {
    if k > 0 { UnpinRemoves(pinned, ts, k - 1); }
  }

  /** Copies the first `k` log blocks to their home blocks, in order. */
  ghost function Install(l: Layout, d: Disk, ts: seq<nat>, k: nat): (r: Disk)
    requires AreaOk(l, |d|) && TargetsOk(l, |d|, ts) && k <= |ts|
    ensures |r| == |d|
  {
    if k == 0 then d
    else
      var r := Install(l, d, ts, k - 1);
      assert IsHome(l, |d|, ts[k - 1]);
      r[ts[k - 1] := r[l.start + k]]
  }

  /** What a complete recovery makes of a disk: install what the header lists, then clear the header. */
  ghost function Recover(l: Layout, d: Disk): (r: Disk)
    requires HeaderOk(l, d)
    ensures |r| == |d|
  {
    var ts := HeadTargets(d[l.start]);
    Install(l, d, ts, |ts|)[l.start := PutHead(d[l.start], [])]
  }

  /** Recovery of `d` succeeds and leaves the home blocks `h`. */
  ghost predicate RecoversTo(l: Layout, d: Disk, h: Disk) {
    HeaderOk(l, d) && Home(l, Recover(l, d)) == h
  }

  // ---------------------------------------------------------------- facts about disks

  lemma LogWriteKeepsHome(l: Layout, d: Disk, b: nat, v: Block)
    requires AreaOk(l, |d|) && InLog(l, b)
    ensures Home(l, d[b := v]) == Home(l, d)
    ensures LogArea(l, d[b := v]) == LogArea(l, d)[b - l.start := v]
  {
  }

  lemma HomeWriteKeepsLog(l: Layout, d: Disk, b: nat, v: Block)
    requires AreaOk(l, |d|) && IsHome(l, |d|, b)
    ensures LogArea(l, d[b := v]) == LogArea(l, d)
    ensures d[b := v][l.start] == d[l.start]
  {
  }

  // Two disks agree on the home blocks exactly when they agree on every block outside the log area.
  lemma HomeIsPointwise(l: Layout, d: Disk, e: Disk)
    requires AreaOk(l, |d|) && |d| == |e|
    ensures Home(l, d) == Home(l, e) <==> forall b :: 0 <= b < |d| && !InLog(l, b) ==> d[b] == e[b]
  {
    if Home(l, d) == Home(l, e) {
      forall b | 0 <= b < |d| && !InLog(l, b)
        ensures d[b] == e[b]
      {
        var i := if b < l.start then b else b - l.size;
        assert Home(l, d)[i] == d[b] && Home(l, e)[i] == e[b];
      }
    }
  }

  lemma LogAreaIsPointwise(l: Layout, d: Disk, e: Disk, b: nat)
    requires AreaOk(l, |d|) && |d| == |e| && LogArea(l, d) == LogArea(l, e) && InLog(l, b)
    ensures d[b] == e[b]
  {
    assert LogArea(l, d)[b - l.start] == d[b] && LogArea(l, e)[b - l.start] == e[b];
  }

  // Installing leaves the log area alone, and every block that is not a target.
  lemma {:induction false} InstallKeeps(l: Layout, d: Disk, ts: seq<nat>, k: nat, b: nat)
    requires AreaOk(l, |d|) && TargetsOk(l, |d|, ts) && k <= |ts| && b < |d|
    requires InLog(l, b) || b !in Elems(ts, k)
    ensures Install(l, d, ts, k)[b] == d[b]
  {
    if k > 0 {
      assert IsHome(l, |d|, ts[k - 1]);
      InstallKeeps(l, d, ts, k - 1, b);
    }
  }

  lemma {:induction false} InstallKeepsLogArea(l: Layout, d: Disk, ts: seq<nat>, k: nat)
    requires AreaOk(l, |d|) && TargetsOk(l, |d|, ts) && k <= |ts|
    ensures LogArea(l, Install(l, d, ts, k)) == LogArea(l, d)
    ensures Install(l, d, ts, k)[l.start] == d[l.start]
  {
    if k > 0 {
      assert IsHome(l, |d|, ts[k - 1]);
      InstallKeepsLogArea(l, d, ts, k - 1);
      var r := Install(l, d, ts, k - 1);
      HomeWriteKeepsLog(l, r, ts[k - 1], r[l.start + k]);
    }
  }

  // Installed blocks carry the logged contents; with distinct targets every one survives.
  lemma {:induction false} InstallGives(l: Layout, d: Disk, ts: seq<nat>, k: nat, i: nat)
    requires AreaOk(l, |d|) && TargetsOk(l, |d|, ts) && Distinct(ts) && i < k <= |ts|
    ensures IsHome(l, |d|, ts[i]) && Install(l, d, ts, k)[ts[i]] == d[l.start + 1 + i]
  {
    assert IsHome(l, |d|, ts[i]) && IsHome(l, |d|, ts[k - 1]);
    if i < k - 1 {
      InstallGives(l, d, ts, k - 1, i);
    } else {
      InstallKeeps(l, d, ts, k - 1, l.start + k);
    }
  }

  // Blocks in which two disks agree, and installed blocks, agree after installing from the same log area.
  lemma {:induction false} InstallAbsorbs(l: Layout, d: Disk, e: Disk, ts: seq<nat>, k: nat, b: nat)
    requires AreaOk(l, |d|) && |d| == |e| && TargetsOk(l, |d|, ts) && k <= |ts| && b < |d|
    requires LogArea(l, d) == LogArea(l, e)
    requires d[b] == e[b] || b in Elems(ts, k)
    ensures Install(l, d, ts, k)[b] == Install(l, e, ts, k)[b]
  {
    if k > 0 {
      assert IsHome(l, |d|, ts[k - 1]);
      if b == ts[k - 1] {
        InstallKeeps(l, d, ts, k - 1, l.start + k);
        InstallKeeps(l, e, ts, k - 1, l.start + k);
        LogAreaIsPointwise(l, d, e, l.start + k);
      } else {
        InstallAbsorbs(l, d, e, ts, k - 1, b);
      }
    }
  }

  lemma {:induction false} ElemsGrow(ts: seq<nat>, k: nat, n: nat)
    requires k <= n <= |ts|
    ensures Elems(ts, k) <= Elems(ts, n)
    decreases n
  {
    if k < n { ElemsGrow(ts, k, n - 1); }
  }

  // Installing over a partly installed disk changes nothing: recovery may be cut short and started again.
  lemma RecoverAfterPartialInstall(l: Layout, d: Disk, k: nat)
    requires HeaderOk(l, d) && k <= |HeadTargets(d[l.start])|
    ensures var e := Install(l, d, HeadTargets(d[l.start]), k);
      HeaderOk(l, e) && Recover(l, e) == Recover(l, d)
  {
    var ts := HeadTargets(d[l.start]);
    var e := Install(l, d, ts, k);
    InstallKeepsLogArea(l, d, ts, k);
    forall b | 0 <= b < |d|
      ensures Install(l, d, ts, |ts|)[b] == Install(l, e, ts, |ts|)[b]
    {
      if b in Elems(ts, k) {
        ElemsGrow(ts, k, |ts|);
      } else {
        InstallKeeps(l, d, ts, k, b);
      }
      InstallAbsorbs(l, d, e, ts, |ts|, b);
    }
    assert Install(l, d, ts, |ts|) == Install(l, e, ts, |ts|);
  }

  // A clear header recovers to the same home blocks.
  lemma RecoverOfClear(l: Layout, d: Disk)
    requires AreaOk(l, |d|) && LOGSIZE < |d[l.start]| && d[l.start][0] == 0
    ensures RecoversTo(l, d, Home(l, d))
  {
    assert HeadTargets(d[l.start]) == [];
    LogWriteKeepsHome(l, d, l.start, PutHead(d[l.start], []));
  }

  // Recovery leaves home blocks alone that the header does not list, and copies the others from the log area.
  lemma RecoverKeeps(l: Layout, d: Disk, b: nat)
    requires HeaderOk(l, d) && IsHome(l, |d|, b) && b !in HeadTargets(d[l.start])
    ensures Recover(l, d)[b] == d[b]
  {
    var ts := HeadTargets(d[l.start]);
    InstallKeeps(l, d, ts, |ts|, b);
  }

  lemma RecoverGives(l: Layout, d: Disk, ts: seq<nat>, i: nat)
    requires HeaderOk(l, d) && ts == HeadTargets(d[l.start]) && Distinct(ts) && i < |ts|
    ensures IsHome(l, |d|, ts[i]) && Recover(l, d)[ts[i]] == d[l.start + 1 + i]
  {
    InstallGives(l, d, ts, |ts|, i);
  }

  // ---------------------------------------------------------------- steps of one log

  ghost predicate MachineOk(l: Layout, m: Machine) {
    && AreaOk(l, |m.disk|)
    && |m.view| == |m.disk|
    && LogArea(l, m.view) == LogArea(l, m.disk)
    && LOGSIZE < |m.disk[l.start]|
  }

  /** A write-through block write. */
  function BWrite(m: Machine, b: nat, v: Block): Machine
    requires b < |m.disk| && |m.view| == |m.disk|
  {
    m.(disk := m.disk[b := v], view := m.view[b := v])
  }

  predicate CanBegin(m: Machine) {
    !m.committing && |m.lh| + (m.outstanding + 1) * MAXOPBLOCKS <= LOGSIZE
  }

  function Begin(m: Machine): Machine {
    m.(outstanding := m.outstanding + 1)
  }

  /** The test at the head of `log_write`, made before the lock is taken. */
  predicate GuardFails(l: Layout, m: Machine) {
    |m.lh| >= LOGSIZE || |m.lh| >= l.size - 1 || m.outstanding < 1
  }

  /** The locked part of `log_write`: absorb a block already listed, else list and pin it. */
  function Append(m: Machine, b: nat): Machine {
    if b in m.lh then m else m.(lh := m.lh + [b], pinned := m.pinned + {b})
  }

  function End(m: Machine): Machine
    requires m.outstanding >= 1
  {
    m.(outstanding := m.outstanding - 1, committing := m.outstanding == 1)
  }

  function WriteLogOne(l: Layout, m: Machine, t: nat): Machine
    requires t < |m.lh| && m.lh[t] < |m.view| && l.start + 1 + t < |m.disk| == |m.view|
  {
    BWrite(m, l.start + 1 + t, m.view[m.lh[t]])
  }

  function WriteHead(l: Layout, m: Machine): Machine
    requires l.start < |m.disk| == |m.view| && |m.lh| < |m.view[l.start]|
  {
    BWrite(m, l.start, PutHead(m.view[l.start], m.lh))
  }

  function InstallOne(l: Layout, m: Machine, t: nat): Machine
    requires t < |m.lh| && m.lh[t] < |m.disk| && l.start + 1 + t < |m.disk| == |m.view|
  {
    BWrite(m, m.lh[t], m.view[l.start + 1 + t]).(pinned := m.pinned - {m.lh[t]})
  }

  function ClearHead(l: Layout, m: Machine): Machine
    requires l.start < |m.disk| == |m.view| && 0 < |m.view[l.start]|
  {
    WriteHead(l, m.(lh := []))
  }

  /** Off the listed blocks, the buffers agree with the disk. */
  ghost predicate CleanOffLog(l: Layout, m: Machine)
    requires |m.view| == |m.disk|
  {
    forall b: nat {:trigger IsHome(l, |m.disk|, b)} :: IsHome(l, |m.disk|, b) && b !in m.lh ==> m.view[b] == m.disk[b]
  }

  // ---- one step of each kind: what it keeps and where it leads

  lemma WriteLogStep(l: Layout, m: Machine, t: nat)
    requires MachineOk(l, m) && TargetsOk(l, |m.disk|, m.lh) && t < |m.lh|
    ensures IsHome(l, |m.disk|, m.lh[t])
    ensures var r := WriteLogOne(l, m, t);
      && MachineOk(l, r) && r.disk[l.start] == m.disk[l.start]
      && Home(l, r.disk) == Home(l, m.disk) && Home(l, r.view) == Home(l, m.view)
      && r.disk[l.start + 1 + t] == m.view[m.lh[t]]
      && (forall i :: 0 <= i < |m.lh| ==> r.view[m.lh[i]] == m.view[m.lh[i]])
  {
    assert forall i :: 0 <= i < |m.lh| ==> IsHome(l, |m.disk|, m.lh[i]);
    var v := m.view[m.lh[t]];
    LogWriteKeepsHome(l, m.disk, l.start + 1 + t, v);
    LogWriteKeepsHome(l, m.view, l.start + 1 + t, v);
  }

  lemma WriteHeadStep(l: Layout, m: Machine)
    requires MachineOk(l, m) && |m.lh| <= LOGSIZE
    ensures m.view[l.start] == m.disk[l.start]
    ensures var r := WriteHead(l, m);
      && MachineOk(l, r) && r.lh == m.lh && r.disk[l.start][0] == |m.lh| && HeadTargets(r.disk[l.start]) == m.lh
      && Home(l, r.disk) == Home(l, m.disk) && Home(l, r.view) == Home(l, m.view)
  {
    LogAreaIsPointwise(l, m.disk, m.view, l.start);
    var h := PutHead(m.view[l.start], m.lh);
    LogWriteKeepsHome(l, m.disk, l.start, h);
    LogWriteKeepsHome(l, m.view, l.start, h);
  }

  lemma InstallStep(l: Layout, m: Machine, t: nat)
    requires MachineOk(l, m) && TargetsOk(l, |m.disk|, m.lh) && t < |m.lh|
    ensures IsHome(l, |m.disk|, m.lh[t])
    ensures var r := InstallOne(l, m, t);
      && MachineOk(l, r) && r.disk[l.start] == m.disk[l.start]
      && LogArea(l, r.disk) == LogArea(l, m.disk)
      && r.disk == m.disk[m.lh[t] := m.disk[l.start + 1 + t]]
      && r.view == m.view[m.lh[t] := m.disk[l.start + 1 + t]]
  {
    assert IsHome(l, |m.disk|, m.lh[t]);
    LogAreaIsPointwise(l, m.disk, m.view, l.start + 1 + t);
    var v := m.view[l.start + 1 + t];
    HomeWriteKeepsLog(l, m.disk, m.lh[t], v);
    HomeWriteKeepsLog(l, m.view, m.lh[t], v);
  }

  // ---------------------------------------------------------------- the phases of commit

  ghost predicate Ready(l: Layout, m: Machine) {
    MachineOk(l, m) && TargetsOk(l, |m.disk|, m.lh) && Distinct(m.lh) && CleanOffLog(l, m)
  }

  /** Log block `i` holds the buffered contents of listed block `i`, for the first `t` listed blocks. */
  ghost predicate Logged(l: Layout, m: Machine, t: nat)
    requires MachineOk(l, m) && TargetsOk(l, |m.disk|, m.lh) && t <= |m.lh|
  {
    forall i :: 0 <= i < t ==> IsHome(l, |m.disk|, m.lh[i]) && m.disk[l.start + 1 + i] == m.view[m.lh[i]]
  }

  /** `write_log` has written its first `t` blocks. */
  ghost predicate InWriteLog(l: Layout, m: Machine, t: nat) {
    Ready(l, m) && m.disk[l.start][0] == 0 && t <= |m.lh| && Logged(l, m, t)
  }

  /** The header is written and `install_trans` has written its first `t` blocks. */
  ghost predicate InInstall(l: Layout, m: Machine, t: nat) {
    && Ready(l, m) && m.disk[l.start][0] == |m.lh| && HeadTargets(m.disk[l.start]) == m.lh
    && t <= |m.lh| && Logged(l, m, |m.lh|)
    && (forall i :: 0 <= i < t ==> IsHome(l, |m.disk|, m.lh[i]) && m.disk[m.lh[i]] == m.view[m.lh[i]])
  }

  // While the log area is being filled, a crash loses the whole transaction.
  lemma CrashInWriteLog(l: Layout, m: Machine, t: nat)
    requires InWriteLog(l, m, t)
    ensures RecoversTo(l, m.disk, Home(l, m.disk))
  {
    RecoverOfClear(l, m.disk);
  }

  lemma WriteLogAdvances(l: Layout, m: Machine, t: nat)
    requires InWriteLog(l, m, t) && t < |m.lh|
    ensures IsHome(l, |m.disk|, m.lh[t])
    ensures var r := WriteLogOne(l, m, t);
      && InWriteLog(l, r, t + 1)
      && Home(l, r.disk) == Home(l, m.disk) && Home(l, r.view) == Home(l, m.view)
  {
    WriteLogStep(l, m, t);
    var r := WriteLogOne(l, m, t);
    HomeIsPointwise(l, m.disk, r.disk);
    HomeIsPointwise(l, m.view, r.view);
  }

  // The header write is the commit point.
  lemma HeadWriteCommits(l: Layout, m: Machine)
    requires InWriteLog(l, m, |m.lh|)
    ensures m.view[l.start] == m.disk[l.start]
    ensures var r := WriteHead(l, m);
      && InInstall(l, r, 0)
      && Home(l, r.disk) == Home(l, m.disk) && Home(l, r.view) == Home(l, m.view)
  {
    WriteHeadStep(l, m);
    var r := WriteHead(l, m);
    HomeIsPointwise(l, m.disk, r.disk);
    HomeIsPointwise(l, m.view, r.view);
  }

  lemma CrashInInstallListed(l: Layout, m: Machine, t: nat, i: nat)
    requires InInstall(l, m, t) && i < |m.lh|
    ensures HeaderOk(l, m.disk) && IsHome(l, |m.disk|, m.lh[i])
    ensures Recover(l, m.disk)[m.lh[i]] == m.view[m.lh[i]]
  {
    assert HeaderOk(l, m.disk);
    RecoverGives(l, m.disk, m.lh, i);
  }

  lemma CrashInInstallOther(l: Layout, m: Machine, t: nat, b: nat)
    requires InInstall(l, m, t) && IsHome(l, |m.disk|, b) && b !in m.lh
    ensures HeaderOk(l, m.disk) && Recover(l, m.disk)[b] == m.view[b]
  {
    RecoverKeeps(l, m.disk, b);
  }

  // From the commit point on, a crash loses nothing: recovery yields the buffered contents.
  lemma CrashInInstall(l: Layout, m: Machine, t: nat)
    requires InInstall(l, m, t)
    ensures RecoversTo(l, m.disk, Home(l, m.view))
  {
    forall b: nat | b < |m.disk| && !InLog(l, b)
      ensures Recover(l, m.disk)[b] == m.view[b]
    {
      if b in m.lh {
        var i :| 0 <= i < |m.lh| && m.lh[i] == b;
        CrashInInstallListed(l, m, t, i);
      } else {
        CrashInInstallOther(l, m, t, b);
      }
    }
    HomeIsPointwise(l, Recover(l, m.disk), m.view);
  }

  lemma InstallAdvances(l: Layout, m: Machine, t: nat)
    requires InInstall(l, m, t) && t < |m.lh|
    ensures IsHome(l, |m.disk|, m.lh[t])
    ensures var r := InstallOne(l, m, t);
      InInstall(l, r, t + 1) && r.view == m.view
  {
    InstallStep(l, m, t);
    var r := InstallOne(l, m, t);
    assert r.view == m.view;
    forall i | 0 <= i < |m.lh|
      ensures r.disk[l.start + 1 + i] == r.view[m.lh[i]]
    {
      LogAreaIsPointwise(l, m.disk, r.disk, l.start + 1 + i);
    }
  }

  // Once everything is installed and the header is cleared, disk and buffers agree and nothing is left to redo.
  lemma EraseEnds(l: Layout, m: Machine)
    requires InInstall(l, m, |m.lh|)
    ensures m.view[l.start] == m.disk[l.start]
    ensures var r := ClearHead(l, m);
      && InWriteLog(l, r, 0) && r.lh == []
      && Home(l, r.view) == Home(l, m.view) && Home(l, r.disk) == Home(l, m.view)
  {
    WriteHeadStep(l, m.(lh := []));
    forall b: nat | b < |m.disk| && !InLog(l, b)
      ensures m.disk[b] == m.view[b]
    {
      assert IsHome(l, |m.disk|, b);
      if b in m.lh {
        var i :| 0 <= i < |m.lh| && m.lh[i] == b;
      }
    }
    HomeIsPointwise(l, m.disk, m.view);
    var r := ClearHead(l, m);
    HomeIsPointwise(l, r.disk, r.view);
  }
}
