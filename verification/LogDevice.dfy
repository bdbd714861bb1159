/** kernel/log.c as a mutable object over a disk with atomic block writes.

Every block write appends the resulting disk to the ghost `trace`, so `trace` lists the
disks that a crash could leave behind.  The methods are proved against the functions of
`LogSpec`; `Commit` and `RecoverFromLog` also say what recovery makes of every crash point.
*/
module LogDevice {
  import opened Common
  import opened LogSpec

  /** `e` is a disk that a crash in the middle of recovering `d` can leave behind. */
  ghost predicate RecoveryCrashPoint(l: Layout, d: Disk, e: Disk)
    requires HeaderOk(l, d)
  {
    || e == Recover(l, d)
    || exists k: nat :: k <= |HeadTargets(d[l.start])| && e == Install(l, d, HeadTargets(d[l.start]), k)
  }

  /** `ds` are crash points of the recovery of `d`. */
  ghost predicate AllCrashPoints(l: Layout, d: Disk, ds: seq<Disk>)
    requires HeaderOk(l, d)
  {
    forall i :: 0 <= i < |ds| ==> RecoveryCrashPoint(l, d, ds[i])
  }

  lemma InstallIsCrashPoint(l: Layout, d: Disk, ds: seq<Disk>, k: nat)
    requires HeaderOk(l, d) && AllCrashPoints(l, d, ds) && k <= |HeadTargets(d[l.start])|
    ensures AllCrashPoints(l, d, ds + [Install(l, d, HeadTargets(d[l.start]), k)])
  {
  }

  lemma CrashPointRecoversAlike(l: Layout, d: Disk, e: Disk)
    requires HeaderOk(l, d) && RecoveryCrashPoint(l, d, e)
    ensures RecoversTo(l, e, Home(l, Recover(l, d)))
  {
    if e == Recover(l, d) {
      RecoverOfClear(l, e);
    } else {
      var k: nat :| k <= |HeadTargets(d[l.start])| && e == Install(l, d, HeadTargets(d[l.start]), k);
      RecoverAfterPartialInstall(l, d, k);
    }
  }

  /** Every disk of `ds` recovers to the home blocks `h`. */
  ghost predicate AllRecoverTo(l: Layout, ds: seq<Disk>, h: Disk) {
    forall i {:trigger RecoversTo(l, ds[i], h)} :: 0 <= i < |ds| ==> RecoversTo(l, ds[i], h)
  }

  lemma CrashPointsRecoverAlike(l: Layout, d: Disk, ds: seq<Disk>)
    requires HeaderOk(l, d) && AllCrashPoints(l, d, ds)
    ensures AllRecoverTo(l, ds, Home(l, Recover(l, d)))
  {
    forall i | 0 <= i < |ds|
      ensures RecoversTo(l, ds[i], Home(l, Recover(l, d)))
    {
      CrashPointRecoversAlike(l, d, ds[i]);
    }
  }

  // However often recovery is cut short, the recovery that completes gives the same home blocks.
  lemma {:induction false} RepeatedCrashes(l: Layout, ds: seq<Disk>)
    requires |ds| > 0 && HeaderOk(l, ds[0])
    requires forall i :: 0 <= i < |ds| - 1 && HeaderOk(l, ds[i]) ==> RecoveryCrashPoint(l, ds[i], ds[i + 1])
    ensures RecoversTo(l, ds[|ds| - 1], Home(l, Recover(l, ds[0])))
  {
    if |ds| == 1 {
    } else {
      var n := |ds| - 1;
      RepeatedCrashes(l, ds[..n]);
      assert RecoveryCrashPoint(l, ds[n - 1], ds[n - 1 + 1]);
      CrashPointRecoversAlike(l, ds[n - 1], ds[n]);
    }
  }

  lemma AllRecoverToMore(l: Layout, ds: seq<Disk>, es: seq<Disk>, h: Disk)
    requires AllRecoverTo(l, ds, h) && AllRecoverTo(l, es, h)
    ensures AllRecoverTo(l, ds + es, h)
  {
  }

  lemma OneRecoversTo(l: Layout, d: Disk, h: Disk)
    requires RecoversTo(l, d, h)
    ensures AllRecoverTo(l, [d], h)
  {
  }

  lemma Regroup<T>(a: seq<T>, b: seq<T>, c: seq<T>)
    ensures a + b + c == a + (b + c)
  {
  }

  lemma EmptyCommit(l: Layout, m: Machine)
    requires Ready(l, m) && m.lh == []
    ensures Home(l, m.view) == Home(l, m.disk)
  {
    forall b: nat | b < |m.disk| && !InLog(l, b)
      ensures m.view[b] == m.disk[b]
    {
      assert IsHome(l, |m.disk|, b);
    }
    HomeIsPointwise(l, m.view, m.disk);
  }

  class Log {
    const l: Layout
    var block: seq<nat>           // lh.block, of fixed length LOGSIZE
    var n: nat                    // lh.n
    var outstanding: nat
    var committing: bool
    var disk: Disk
    var view: Disk                // what bread returns
    var pinned: set<nat>
    ghost var trace: seq<Disk>

    ghost function Abs(): Machine
      reads this
      requires n <= |block|
    {
      Machine(disk, view, block[..n], outstanding, committing, pinned)
    }

    ghost predicate Valid()
      reads this
    {
      && n <= |block| == LOGSIZE
      && MachineOk(l, Abs())
      && TargetsOk(l, |disk|, block[..n])
      && Distinct(block[..n])
    }

    /** `bwrite` after `bread`: the block is written through. */
    method BWrite(b: nat, v: Block)
      requires b < |disk| == |view|
      modifies this`view, this`disk, this`trace
      ensures disk == old(disk)[b := v] && view == old(view)[b := v]
      ensures trace == old(trace) + [disk]
    {
      view := view[b := v];
      disk := disk[b := v];
      trace := trace + [disk];
    }

    /** Locked part of `begin_op`: `ok` is false where the source sleeps and tries again. */
    method BeginOp() returns (ok: bool)
      requires Valid()
      modifies this`outstanding
      ensures Valid()
      ensures ok <==> !committing && n + (old(outstanding) + 1) * 10 <= 30
      ensures outstanding == old(outstanding) + if ok then 1 else 0
      ensures ok == CanBegin(old(Abs()))
      ensures Abs() == if ok then Begin(old(Abs())) else old(Abs())
    {
      ok := !committing && n + (outstanding + 1) * MAXOPBLOCKS <= LOGSIZE;
      if ok {
        outstanding := outstanding + 1;
      }
    }

    /** `log_write`; `ok` is false where the source panics. */
    method LogWrite(b: nat) returns (ok: bool)
      requires Valid() && IsHome(l, |disk|, b)
      modifies this`n, this`pinned, this`block
      ensures Valid()
      ensures ok <==> old(n) < 30 && old(n) < l.size - 1 && outstanding >= 1
      ensures ok && b in old(block[..n]) ==> block[..n] == old(block[..n]) && pinned == old(pinned)
      ensures ok && b !in old(block[..n]) ==> block[..n] == old(block[..n]) + [b] && pinned == old(pinned) + {b}
      ensures ok == !GuardFails(l, old(Abs()))
      ensures Abs() == if ok then Append(old(Abs()), b) else old(Abs())
    {
      if n >= LOGSIZE || n >= l.size - 1 || outstanding < 1 {
        return false;
      }
      var i := 0;
      while i < n && block[i] != b
        invariant 0 <= i <= n
        invariant b !in block[..i]
      {
        i := i + 1;
      }
      ghost var was := block[..n];
      assert i == n ==> b !in was;
      assert i < n ==> was[i] == b;
      block := block[i := b];
      if i == n {
        pinned := pinned + {b};
        n := n + 1;
        assert block[..n] == was + [b];
      } else {
        assert block[..n] == was;
      }
      return true;
    }

    /** Locked part of `end_op`; the caller runs `Commit` and then clears `committing` when `doCommit`. */
    method EndOp() returns (doCommit: bool)
      requires Valid() && outstanding >= 1 && !committing
      modifies this`outstanding, this`committing
      ensures Valid()
      ensures Abs() == End(old(Abs())) && outstanding == old(outstanding) - 1
      ensures doCommit == committing && (doCommit <==> outstanding == 0)
    {
      outstanding := outstanding - 1;
      doCommit := outstanding == 0;
      if doCommit {
        committing := true;
      }
    }

    /** Copies the cached contents of the listed blocks into the log area.  A crash on the way loses
        the transaction. */
    method WriteLog() returns (ghost ds: seq<Disk>)
      requires n <= |block| && InWriteLog(l, Abs(), 0)
      modifies this`view, this`disk, this`trace
      ensures InWriteLog(l, Abs(), n)
      ensures Home(l, disk) == old(Home(l, disk)) && Home(l, view) == old(Home(l, view))
      ensures trace == old(trace) + ds && |ds| == n && AllRecoverTo(l, ds, old(Home(l, disk)))
    {
      ghost var h, hv := Home(l, disk), Home(l, view);
      ds := [];
      var tail := 0;
      while tail < n
        invariant 0 <= tail <= n
        invariant InWriteLog(l, Abs(), tail)
        invariant Home(l, disk) == h && Home(l, view) == hv
        invariant trace == old(trace) + ds && |ds| == tail && AllRecoverTo(l, ds, h)
      {
        ghost var m := Abs();
        WriteLogAdvances(l, m, tail);
        BWrite(l.start + tail + 1, view[block[tail]]);
        assert Abs() == WriteLogOne(l, m, tail);
        CrashInWriteLog(l, Abs(), tail + 1);
        OneRecoversTo(l, disk, h);
        AllRecoverToMore(l, ds, [disk], h);
        Regroup(old(trace), ds, [disk]);
        ds := ds + [disk];
        tail := tail + 1;
      }
    }

    /** Writes the in-memory header to the header block. */
    method PutHeader()
      requires n <= |block| && l.start < |disk| == |view| && n < |view[l.start]|
      modifies this`view, this`disk, this`trace
      ensures Abs() == WriteHead(l, old(Abs()))
      ensures trace == old(trace) + [disk]
    {
      var hb := view[l.start];
      ghost var h0 := hb;
      hb := hb[0 := n];
      var i := 0;
      while i < n
        invariant 0 <= i <= n
        invariant |hb| == |h0| && hb[0] == n
        invariant forall j :: 0 <= j < i ==> hb[1 + j] == block[j]
        invariant forall j :: 1 + i <= j < |h0| ==> hb[j] == h0[j]
      {
        hb := hb[i + 1 := block[i]];
        i := i + 1;
      }
      assert hb == PutHead(h0, block[..n]);
      BWrite(l.start, hb);
    }

    /** Clears the in-memory header and writes it out. */
    method EraseHeader()
      requires n <= |block| && l.start < |disk| == |view| && 0 < |view[l.start]|
      modifies this`view, this`disk, this`trace, this`n
      ensures n == 0 && Abs() == ClearHead(l, old(Abs()))
      ensures trace == old(trace) + [disk]
    {
      n := 0;
      assert Abs() == old(Abs()).(lh := []);
      PutHeader();
    }

    /** Copies one logged block home and unpins it. */
    method InstallBlock(tail: nat)
      requires n <= |block| && tail < n && block[tail] < |disk| && l.start + 1 + tail < |disk| == |view|
      modifies this`view, this`disk, this`trace, this`pinned
      ensures Abs() == InstallOne(l, old(Abs()), tail)
      ensures trace == old(trace) + [disk]
    {
      BWrite(block[tail], view[l.start + 1 + tail]);
      pinned := pinned - {block[tail]};
    }

    /** One round of `install_trans` in a commit. */
    method InstallRound(tail: nat)
      requires tail < n <= |block| && InInstall(l, Abs(), tail)
      modifies this`view, this`disk, this`trace, this`pinned
      ensures InInstall(l, Abs(), tail + 1) && view == old(view)
      ensures pinned == old(pinned) - {block[tail]}
      ensures trace == old(trace) + [disk] && AllRecoverTo(l, [disk], Home(l, view))
    {
      InstallAdvances(l, Abs(), tail);
      InstallBlock(tail);
      CrashInInstall(l, Abs(), tail + 1);
    }

    /** The first `t` blocks are installed and unpinned, and all disks `ds` on the way keep the transaction. */
    ghost predicate InstalledUpTo(t: nat, pinned0: set<nat>, trace0: seq<Disk>, ds: seq<Disk>)
      reads this
    {
      && t <= n <= |block| && InInstall(l, Abs(), t)
      && pinned == Unpin(pinned0, block[..n], t)
      && trace == trace0 + ds && |ds| == t && AllRecoverTo(l, ds, Home(l, view))
    }

    method InstallNext(tail: nat, ghost next: nat, ghost pinned0: set<nat>, ghost trace0: seq<Disk>,
                       ghost ds: seq<Disk>)
      returns (ghost es: seq<Disk>)
      requires tail < n && next == tail + 1 && InstalledUpTo(tail, pinned0, trace0, ds)
      modifies this`view, this`disk, this`trace, this`pinned
      ensures InstalledUpTo(next, pinned0, trace0, es) && view == old(view)
    {
      InstallRound(tail);
      es := ds + [disk];
      AllRecoverToMore(l, ds, [disk], Home(l, view));
      Regroup(trace0, ds, [disk]);
    }

    /** `install_trans` as `commit` runs it: a crash on the way keeps the transaction. */
    method InstallTrans() returns (ghost ds: seq<Disk>)
      requires n <= |block| && InInstall(l, Abs(), 0)
      modifies this`view, this`disk, this`trace, this`pinned
      ensures InInstall(l, Abs(), n) && view == old(view)
      ensures pinned == Unpin(old(pinned), block[..n], n)
      ensures trace == old(trace) + ds && |ds| == n && AllRecoverTo(l, ds, Home(l, view))
    {
      ds := [];
      var tail := 0;
      while tail < n
        invariant 0 <= tail <= n
        invariant InstalledUpTo(tail, old(pinned), old(trace), ds) && view == old(view)
      {
        ds := InstallNext(tail, tail + 1, old(pinned), old(trace), ds);
        tail := tail + 1;
      }
    }

    /** The rest of `commit` once the log area is filled. */
    method CommitLogged() returns (ghost ds: seq<Disk>)
      requires n <= |block| == LOGSIZE && InWriteLog(l, Abs(), n)
      modifies this`view, this`disk, this`trace, this`pinned, this`n
      ensures n == 0 && InWriteLog(l, Abs(), 0)
      ensures Home(l, disk) == old(Home(l, view)) && Home(l, view) == Home(l, disk)
      ensures pinned == Unpin(old(pinned), old(block[..n]), old(n))
      ensures trace == old(trace) + ds && |ds| == old(n) + 2 && AllRecoverTo(l, ds, old(Home(l, view)))
    {
      ghost var h := Home(l, view);
      HeadWriteCommits(l, Abs());
      PutHeader();
      CrashInInstall(l, Abs(), 0);
      OneRecoversTo(l, disk, h);
      ghost var first := [disk];
      ghost var mid := InstallTrans();
      AllRecoverToMore(l, first, mid, h);
      Regroup(old(trace), first, mid);
      EraseEnds(l, Abs());
      EraseHeader();
      CrashInWriteLog(l, Abs(), 0);
      OneRecoversTo(l, disk, h);
      AllRecoverToMore(l, first + mid, [disk], h);
      Regroup(old(trace), first + mid, [disk]);
      ds := first + mid + [disk];
    }

    /** `commit`.  Of its crash points `lost + kept`, those before the header write recover to the disk
        without the transaction and all others to the disk with all of it. */
    method Commit() returns (ghost lost: seq<Disk>, ghost kept: seq<Disk>)
      requires n <= |block| == LOGSIZE && InWriteLog(l, Abs(), 0)
      modifies this`view, this`disk, this`trace, this`pinned, this`n
      ensures n == 0 && InWriteLog(l, Abs(), 0)
      ensures Home(l, disk) == old(Home(l, view)) && Home(l, view) == Home(l, disk)
      ensures pinned == old(pinned) - Elems(old(block[..n]), old(n))
      ensures trace == old(trace) + lost + kept
      ensures |lost| == old(n) && AllRecoverTo(l, lost, old(Home(l, disk)))
      ensures |kept| == (if old(n) == 0 then 0 else old(n) + 2) && AllRecoverTo(l, kept, old(Home(l, view)))
    {
      if n == 0 {
        EmptyCommit(l, Abs());
        return [], [];
      }
      lost := WriteLog();
      UnpinRemoves(pinned, block[..n], n);
      kept := CommitLogged();
    }

    /** Reads the header block into the in-memory header. */
    method ReadHead()
      requires |block| == LOGSIZE && HeaderOk(l, disk)
      requires view == disk
      modifies this`n, this`block
      ensures |block| == LOGSIZE && n == |HeadTargets(disk[l.start])| && block[..n] == HeadTargets(disk[l.start])
    {
      var hb := view[l.start];
      ghost var ts := HeadTargets(disk[l.start]);
      n := hb[0];
      assert n == |ts|;
      var i := 0;
      while i < n
        invariant 0 <= i <= n
        invariant |block| == LOGSIZE && n == |ts|
        invariant block[..i] == ts[..i]
      {
        block := block[i := hb[i + 1]];
        assert block[..i + 1] == ts[..i] + [ts[i]];
        i := i + 1;
      }
    }

    /** `install_trans` as recovery runs it, on buffers that hold nothing but the disk. */
    method Reinstall() returns (ghost ds: seq<Disk>)
      requires HeaderOk(l, disk) && view == disk
      requires n == |HeadTargets(disk[l.start])| && n <= |block| && block[..n] == HeadTargets(disk[l.start])
      modifies this`view, this`disk, this`trace, this`pinned
      ensures disk == Install(l, old(disk), block[..n], n) && view == disk
      ensures trace == old(trace) + ds && AllCrashPoints(l, old(disk), ds)
    {
      ds := [];
      var tail := 0;
      while tail < n
        invariant 0 <= tail <= n
        invariant disk == Install(l, old(disk), block[..n], tail) && view == disk
        invariant trace == old(trace) + ds && AllCrashPoints(l, old(disk), ds)
      {
        assert IsHome(l, |disk|, block[..n][tail]);
        InstallBlock(tail);
        InstallIsCrashPoint(l, old(disk), ds, tail + 1);
        Regroup(old(trace), ds, [disk]);
        ds := ds + [disk];
        tail := tail + 1;
      }
    }

    /** `recover_from_log`, run on a freshly started machine.  Every crash point `ds` on the way
        recovers to what this run would have reached. */
    method RecoverFromLog() returns (ghost ds: seq<Disk>)
      requires |block| == LOGSIZE && HeaderOk(l, disk) && view == disk
      modifies this`view, this`disk, this`trace, this`pinned, this`n, this`block
      ensures n == 0 && disk == Recover(l, old(disk)) && view == disk
      ensures trace == old(trace) + ds && |ds| > 0 && ds[|ds| - 1] == disk
      ensures AllCrashPoints(l, old(disk), ds)
      ensures AllRecoverTo(l, ds, Home(l, Recover(l, old(disk))))
    {
      ghost var d0 := disk;
      ReadHead();
      ghost var done := Reinstall();
      InstallKeepsLogArea(l, d0, block[..n], n);
      EraseHeader();
      Regroup(old(trace), done, [disk]);
      ds := done + [disk];
      CrashPointsRecoverAlike(l, d0, ds);
    }
  }
}
