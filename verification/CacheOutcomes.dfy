/** What a process has when a call that locks a cached file comes back, whatever the others do in
    the meantime, and what purges can come to. */
module CacheOutcomes {
  import opened Wrappers
  import opened CacheProtocol

  /** The process as the call found it, but for a new descriptor f of inode i and its lock; a
      record that is there already is not replaced. */
  function Locked(a: Proc, t: string, f: Fd, i: Inode, m: Mode): Proc {
    a.(pc := Idle, fds := a.fds[f := i], held := a.held[i := m],
       records := if t in a.records then a.records else a.records[t := f])
  }

  /** On the way: the info file is locked, and then the file. */
  ghost predicate Underway(op: Op, a: Proc, x: Proc)
    requires op.ReadLock? || op.CreateAndLock?
  {
    var t := op.target;
    || x == a.(pc := WaitInfo(op))
    || x == a.(info := x.info, pc := if op.ReadLock? then OpenRead(t) else Create(t))
    || x == a.(info := x.info, pc := UnlockInfo)
    || ((x.pc.WaitRead? || x.pc.WaitCreate?) && x.pc.fd !in a.fds && x.pc.fd in x.fds
        && x == a.(info := x.info, fds := a.fds[x.pc.fd := x.fds[x.pc.fd]],
                   pc := if op.ReadLock? then WaitRead(t, x.pc.fd) else WaitCreate(t, x.pc.fd)))
    || (exists f: Fd, i: Inode :: f !in a.fds
          && x == Locked(a, t, f, i, ModeOf(op)).(info := x.info, pc := UnlockInfo))
  }

  /** Reading takes a shared lock, creating an exclusive one. */
  function ModeOf(op: Op): Mode { if op.ReadLock? then Shared else Exclusive }

  /** Nothing has changed, or the file is open under a new descriptor, locked and on record. */
  ghost predicate Outcome(op: Op, a: Proc, b: Proc)
    requires op.ReadLock? || op.CreateAndLock?
  {
    || b == a
    || exists f: Fd, i: Inode :: f !in a.fds && b == Locked(a, op.target, f, i, ModeOf(op))
  }

  lemma OthersStay(s: State, p: nat, q: nat, e: Event)
    requires p < |s.procs| && q < |s.procs| && p != q && Step(s, q, e).Some?
    ensures |Step(s, q, e).value.procs| == |s.procs| && Step(s, q, e).value.procs[p] == s.procs[p]
  {
  }

  /** The steps of a call before it waits for the file. */
  lemma BeforeTheFile(op: Op, a: Proc, s: State, p: nat, e: Event)
    requires (op.ReadLock? || op.CreateAndLock?) && a.pc.Idle? && a.info.None?
    requires p < |s.procs| && Underway(op, a, s.procs[p]) && Step(s, p, e).Some?
    requires var pc := s.procs[p].pc; pc.WaitInfo? || pc.OpenRead? || pc.Create?
    ensures var s1 := Step(s, p, e).value;
      p < |s1.procs| && !s1.procs[p].pc.Idle? && Underway(op, a, s1.procs[p])
  {
    hide LockGranted, InfoGranted, StepLoop, StepUnlock, StepIdle;
    var x, y := s.procs[p], Step(s, p, e).value.procs[p];
    var t := op.target;
    match x.pc
    case WaitInfo(_) =>
    case OpenRead(_) =>
      if t in s.dir {
        assert y == a.(info := y.info, fds := a.fds[e.newFd := s.dir[t]], pc := WaitRead(t, e.newFd));
      }
    case Create(_) =>
      if t !in s.dir {
        assert y == a.(info := y.info, fds := a.fds[e.newFd := s.unused], pc := WaitCreate(t, e.newFd));
      }
  }

  /** The lock on the file is granted. */
  lemma FileGranted(op: Op, a: Proc, s: State, p: nat, e: Event)
    requires (op.ReadLock? || op.CreateAndLock?) && a.pc.Idle? && a.info.None?
    requires p < |s.procs| && Underway(op, a, s.procs[p]) && Step(s, p, e).Some?
    requires s.procs[p].pc.WaitRead? || s.procs[p].pc.WaitCreate?
    ensures var s1 := Step(s, p, e).value;
      p < |s1.procs| && !s1.procs[p].pc.Idle? && Underway(op, a, s1.procs[p])
  {
    hide LockGranted, InfoGranted, StepLoop, StepUnlock, StepIdle;
    var x, y := s.procs[p], Step(s, p, e).value.procs[p];
    var f := x.pc.fd;
    assert f !in a.fds
        && y == Locked(a, op.target, f, x.fds[f], ModeOf(op)).(info := y.info, pc := UnlockInfo);
  }

  lemma OnTheWay(op: Op, a: Proc, s: State, p: nat, e: Event)
    requires (op.ReadLock? || op.CreateAndLock?) && a.pc.Idle? && a.info.None?
    requires p < |s.procs| && Underway(op, a, s.procs[p]) && Step(s, p, e).Some?
    ensures var s1 := Step(s, p, e).value;
      && p < |s1.procs|
      && if s1.procs[p].pc.Idle? then Outcome(op, a, s1.procs[p]) else Underway(op, a, s1.procs[p])
  {
    var x := s.procs[p];
    if x.pc.WaitInfo? || x.pc.OpenRead? || x.pc.Create? {
      BeforeTheFile(op, a, s, p, e);
    } else if x.pc.WaitRead? || x.pc.WaitCreate? {
      FileGranted(op, a, s, p, e);
    } else {
      CallReturns(op, a, s, p, e);
    }
  }

  /** The info file is unlocked. */
  lemma CallReturns(op: Op, a: Proc, s: State, p: nat, e: Event)
    requires (op.ReadLock? || op.CreateAndLock?) && a.pc.Idle? && a.info.None?
    requires p < |s.procs| && Underway(op, a, s.procs[p]) && Step(s, p, e).Some?
    requires s.procs[p].pc.UnlockInfo?
    ensures var s1 := Step(s, p, e).value;
      p < |s1.procs| && s1.procs[p].pc.Idle? && Outcome(op, a, s1.procs[p])
  {
    hide LockGranted, InfoGranted, StepLoop, StepUnlock, StepIdle;
    var x, y := s.procs[p], Step(s, p, e).value.procs[p];
    if x != a.(info := x.info, pc := UnlockInfo) {
      var f: Fd, i: Inode :|
        f !in a.fds && x == Locked(a, op.target, f, i, ModeOf(op)).(info := x.info, pc := UnlockInfo);
      assert y == Locked(a, op.target, f, i, ModeOf(op));
    }
  }

  /** A call of get_read_lock or create_and_lock that has come back, after any steps of the other
      processes in between, has changed nothing in the process, or has left it with the file
      open, locked in the mode of the call, and on record under its name. */
  lemma {:induction false} CallOutcome(op: Op, a: Proc, s: State, tr: Trace, p: nat)
    requires (op.ReadLock? || op.CreateAndLock?) && a.pc.Idle? && a.info.None?
    requires p < |s.procs| && Underway(op, a, s.procs[p])
    requires Exec(s, tr).Some? && forall k :: 0 <= k < |tr| && tr[k].0 == p ==> tr[k].1.Advance?
    ensures var s1 := Exec(s, tr).value;
      && p < |s1.procs|
      && (s1.procs[p].pc.Idle? ==> Outcome(op, a, s1.procs[p]))
    decreases |tr|
  {
    if tr != [] {
      var q, e := tr[0].0, tr[0].1;
      var s1 := Step(s, q, e).value;
      if q != p {
        OthersStay(s, p, q, e);
        CallOutcome(op, a, s1, tr[1..], p);
      } else {
        OnTheWay(op, a, s, p, e);
        if s1.procs[p].pc.Idle? {
          IdleStays(s1, tr[1..], p);
        } else {
          CallOutcome(op, a, s1, tr[1..], p);
        }
      }
    }
  }

  /** Between operations a process does not advance by itself. */
  lemma {:induction false} IdleStays(s: State, tr: Trace, p: nat)
    requires p < |s.procs| && s.procs[p].pc.Idle? && Exec(s, tr).Some?
    requires forall k :: 0 <= k < |tr| && tr[k].0 == p ==> tr[k].1.Advance?
    ensures p < |Exec(s, tr).value.procs| && Exec(s, tr).value.procs[p] == s.procs[p]
    decreases |tr|
  {
    if tr != [] {
      if tr[0].0 != p { OthersStay(s, p, tr[0].0, tr[0].1); }
      IdleStays(Step(s, tr[0].0, tr[0].1).value, tr[1..], p);
    }
  }

  // ---------------------------------------------------------------- what a purge can do

  /** The inodes of the files that the loop opens among the names, which spares the new file. */
  function Looked(dir: map<string, Inode>, n: string, names: seq<string>): set<Inode> {
    set x | x in names && x != n && x in dir :: dir[x]
  }

  /** Those that no other process has locked. */
  function Gone(s: State, p: nat, n: string, names: seq<string>): set<string> {
    set x | x in names && x != n && x in s.dir && LockGranted(s, p, s.dir[x], Exclusive) :: x
  }

  function Inodes(dir: map<string, Inode>, names: set<string>): set<Inode> {
    set x | x in names && x in dir :: dir[x]
  }

  /** The state after the loop has dealt with the names. */
  function Dealt(s: State, p: nat, n: string, names: seq<string>, pc: Pc): State
    requires p < |s.procs|
  {
    var a := s.procs[p];
    var gone := Gone(s, p, n, names);
    With(s, p, a.(pc := pc, held := a.held - Looked(s.dir, n, names),
                  removed := a.removed + Inodes(s.dir, gone))).(dir := s.dir - gone)
  }

  predicate Only(p: nat, tr: Trace) { forall k :: 0 <= k < |tr| ==> tr[k].0 == p }

  lemma {:induction false} ExecConcat(s: State, t: Trace, u: Trace)
    requires Exec(s, t).Some?
    ensures Exec(s, t + u) == Exec(Exec(s, t).value, u)
    decreases |t|
  {
    if t == [] {
      assert t + u == u;
    } else {
      assert (t + u)[0] == t[0] && (t + u)[1..] == t[1..] + u;
      ExecConcat(Step(s, t[0].0, t[0].1).value, t[1..], u);
    }
  }

  lemma ExecOne(s: State, p: nat, e: Event)
    requires p < |s.procs|
    ensures Exec(s, [(p, e)]) == Step(s, p, e)
  {
    assert [(p, e)][1..] == [];
  }

  /** One step, and then a run. */
  lemma ExecFirst(s: State, p: nat, e: Event, u: Trace)
    requires p < |s.procs| && Step(s, p, e).Some?
    ensures Exec(s, [(p, e)] + u) == Exec(Step(s, p, e).value, u)
  {
    ExecOne(s, p, e);
    ExecConcat(s, [(p, e)], u);
  }

  lemma WithTwice(s: State, p: nat, a: Proc, b: Proc)
    requires p < |s.procs|
    ensures With(With(s, p, a), p, b) == With(s, p, b)
  {
    assert s.procs[p := a][p := b] == s.procs[p := b];
  }

  /** Locks are granted as the other processes allow. */
  lemma OthersDecide(s: State, p: nat, a: Proc, dir: map<string, Inode>)
    requires p < |s.procs|
    ensures forall i :: LockGranted(With(s, p, a).(dir := dir), p, i, Exclusive) <==> LockGranted(s, p, i, Exclusive)
  {
    var s1 := With(s, p, a).(dir := dir);
    assert |s1.procs| == |s.procs| && forall q :: 0 <= q < |s.procs| && q != p ==> s1.procs[q] == s.procs[q];
  }

  /** Descriptor f has been opened on a file that somebody else has locked. */
  lemma Passed(s: State, p: nat, f: Fd) returns (tr: Trace)
    requires p < |s.procs| && s.procs[p].pc.TryLock? && f == s.procs[p].pc.fd && f in s.procs[p].fds
    requires !LockGranted(s, p, s.procs[p].fds[f], Exclusive)
    ensures var a := s.procs[p];
      && Only(p, tr)
      && Exec(s, tr) == Some(With(s, p, a.(held := a.held - {a.fds[f]}, fds := a.fds - {f},
                                           pc := Loop(a.pc.newFile, a.pc.rest))))
  {
    hide LockGranted;
    tr := [(p, Advance(0, [], false))];
    ExecOne(s, p, Advance(0, [], false));
  }

  /** ... or on one that nobody else has locked: it goes. */
  lemma Removed(s: State, p: nat, t: string, f: Fd) returns (tr: Trace)
    requires p < |s.procs| && s.procs[p].pc.TryLock? && f == s.procs[p].pc.fd && f in s.procs[p].fds
    requires t == s.procs[p].pc.target && t in s.dir && s.dir[t] == s.procs[p].fds[f]
    requires LockGranted(s, p, s.procs[p].fds[f], Exclusive)
    ensures var a := s.procs[p];
      && Only(p, tr)
      && Exec(s, tr) == Some(With(s, p, a.(held := a.held - {a.fds[f]}, fds := a.fds - {f},
                                           removed := a.removed + {a.fds[f]},
                                           pc := Loop(a.pc.newFile, a.pc.rest))).(dir := s.dir - {t}))
  {
    hide LockGranted, InfoGranted, StepLoop, StepIdle;
    var e := Advance(0, [], false);
    var a := s.procs[p];
    var n, i, rest := a.pc.newFile, a.fds[f], a.pc.rest;
    var s1 := With(s, p, a.(held := a.held[i := Exclusive], pc := Unlink(n, t, f, rest)));
    assert Step(s, p, e) == Some(s1);
    var b := a.(held := a.held[i := Exclusive], removed := a.removed + {i}, pc := Unlock(f, Loop(n, rest)));
    var s2 := With(s, p, b).(dir := s.dir - {t});
    WithTwice(s, p, s1.procs[p], b);
    assert Step(s1, p, e) == Some(s2);
    assert a.held[i := Exclusive] - {i} == a.held - {i};
    var c := b.(held := a.held - {i}, pc := Close(f, Loop(n, rest)));
    var s3 := With(s2, p, c);
    assert Step(s2, p, e) == Some(s3);
    assert a.held - {i} - {i} == a.held - {i};
    var d := b.(held := a.held - {i}, fds := a.fds - {f}, pc := Loop(n, rest));
    var s4 := With(s2, p, d);
    WithTwice(s2, p, c, d);
    WithTwice(s, p, b, d);
    assert Step(s3, p, e) == Some(s4);
    tr := [(p, e)];
    ExecOne(s3, p, e);
    ExecFirst(s2, p, e, tr);
    ExecFirst(s1, p, e, [(p, e)] + tr);
    ExecFirst(s, p, e, [(p, e)] + ([(p, e)] + tr));
    tr := [(p, e)] + ([(p, e)] + ([(p, e)] + tr));
  }

  /** The loop can deal with the next name at once. */
  lemma OneName(s: State, p: nat) returns (tr: Trace)
    requires p < |s.procs| && s.procs[p].pc.Loop? && s.procs[p].pc.rest != []
    ensures var pc := s.procs[p].pc;
      Only(p, tr) && Exec(s, tr) == Some(Dealt(s, p, pc.newFile, pc.rest[..1], Loop(pc.newFile, pc.rest[1..])))
  {
    var a := s.procs[p];
    var n, t, rest := a.pc.newFile, a.pc.rest[0], a.pc.rest[1..];
    assert a.pc.rest[..1] == [t];
    var f := FreshDescriptor(a.fds);
    var e := Advance(f, [], false);
    if t == n || t !in s.dir {
      tr := [(p, e)];
      ExecOne(s, p, e);
      assert Looked(s.dir, n, [t]) == {} && Gone(s, p, n, [t]) == {};
      assert a.held - {} == a.held && s.dir - {} == s.dir && a.removed + {} == a.removed;
      assert Inodes(s.dir, Gone(s, p, n, [t])) == {};
      assert Dealt(s, p, n, [t], Loop(n, rest)).procs[p] == a.(pc := Loop(n, rest));
    } else {
      var i := s.dir[t];
      var s1 := With(s, p, a.(fds := a.fds[f := i], pc := TryLock(n, t, f, rest)));
      assert Step(s, p, e) == Some(s1);
      OthersDecide(s, p, s1.procs[p], s.dir);
      assert Looked(s.dir, n, [t]) == {i} && a.fds[f := i] - {f} == a.fds;
      if LockGranted(s, p, i, Exclusive) {
        tr := Removed(s1, p, t, f);
        WithTwice(s, p, s1.procs[p], Exec(s1, tr).value.procs[p]);
        assert Gone(s, p, n, [t]) == {t} && Inodes(s.dir, {t}) == {i};
        assert Exec(s1, tr).value.procs[p] == Dealt(s, p, n, [t], Loop(n, rest)).procs[p];
      } else {
        tr := Passed(s1, p, f);
        WithTwice(s, p, s1.procs[p], Exec(s1, tr).value.procs[p]);
        assert Gone(s, p, n, [t]) == {} && s.dir - {} == s.dir && a.removed + {} == a.removed;
        assert Inodes(s.dir, Gone(s, p, n, [t])) == {};
        assert Exec(s1, tr).value.procs[p] == Dealt(s, p, n, [t], Loop(n, rest)).procs[p];
      }
      ExecFirst(s, p, e, tr);
      tr := [(p, e)] + tr;
    }
  }

  lemma DealtHeld(s: State, p: nat, n: string, x: seq<string>, y: seq<string>, pc: Pc)
    requires p < |s.procs|
    ensures var a, s1 := s.procs[p], Dealt(s, p, n, x, pc);
      a.held - Looked(s.dir, n, x) - Looked(s1.dir, n, y) == a.held - Looked(s.dir, n, x + y)
  {
    var s1 := Dealt(s, p, n, x, pc);
    forall t | t in y && t != n && t in s.dir && t !in s1.dir ensures s.dir[t] in Looked(s.dir, n, x) {
      assert t in Gone(s, p, n, x);
    }
    assert Looked(s.dir, n, x) + Looked(s1.dir, n, y) == Looked(s.dir, n, x + y);
  }

  /** Dealing with one name and then with the rest. */
  lemma DealtTwice(s: State, p: nat, n: string, x: seq<string>, y: seq<string>, pc: Pc, qc: Pc)
    requires p < |s.procs|
    ensures Dealt(Dealt(s, p, n, x, pc), p, n, y, qc) == Dealt(s, p, n, x + y, qc)
  {
    var a, s1 := s.procs[p], Dealt(s, p, n, x, pc);
    OthersDecide(s, p, s1.procs[p], s1.dir);
    var g, h := Gone(s, p, n, x), Gone(s1, p, n, y);
    assert g + h == Gone(s, p, n, x + y) && s.dir - g - h == s.dir - (g + h);
    var gi, hi := Inodes(s.dir, g), Inodes(s1.dir, h);
    assert gi + hi == Inodes(s.dir, g + h);
    assert a.removed + gi + hi == a.removed + (gi + hi);
    DealtHeld(s, p, n, x, y, pc);
    var b := Dealt(s1, p, n, y, qc).procs[p];
    assert b == Dealt(s, p, n, x + y, qc).procs[p];
    WithTwice(s, p, s1.procs[p], b);
  }

  /** update_and_purge can come back after any number of the names it has scanned: the files
      among them that nobody else has locked are gone, all others are still there, and the
      process has lost its own locks on all that it looked at, as it closed a descriptor of
      each. */
  lemma {:induction false} PurgePrefix(s: State, p: nat, k: nat) returns (tr: Trace)
    requires p < |s.procs| && s.procs[p].pc.Loop? && k <= |s.procs[p].pc.rest|
    ensures var n, names := s.procs[p].pc.newFile, s.procs[p].pc.rest[..k];
      && Only(p, tr) && Exec(s, tr).Some?
      && var s1 := Exec(s, tr).value;
        p < |s1.procs| && var a, b := s.procs[p], s1.procs[p];
        && (forall x :: x in s1.dir <==>
              x in s.dir && (x in names && x != n ==> !LockGranted(s, p, s.dir[x], Exclusive)))
        && b.pc.Idle? && b.info.None? && b.fds == a.fds && b.records == a.records
        && (forall i :: i in b.held <==> i in a.held && i !in Looked(s.dir, n, names))
    decreases k
  {
    var t := LoopPrefix(s, p, k);
    var a := s.procs[p];
    var s1 := Exec(s, t).value;
    var f := FreshDescriptor(a.fds);
    var e := Advance(f, [], true);
    var s2 := With(s1, p, s1.procs[p].(pc := UnlockInfo));
    assert Step(s1, p, e) == Some(s2);
    ExecOne(s2, p, e);
    ExecFirst(s1, p, e, [(p, e)]);
    ExecConcat(s, t, [(p, e)] + [(p, e)]);
    tr := t + ([(p, e)] + [(p, e)]);
  }

  /** The loop can get to any of the names. */
  lemma {:induction false} LoopPrefix(s: State, p: nat, k: nat) returns (tr: Trace)
    requires p < |s.procs| && s.procs[p].pc.Loop? && k <= |s.procs[p].pc.rest|
    ensures var n, rest := s.procs[p].pc.newFile, s.procs[p].pc.rest;
      Only(p, tr) && Exec(s, tr) == Some(Dealt(s, p, n, rest[..k], Loop(n, rest[k..])))
    decreases k
  {
    hide Step, Exec;
    var a := s.procs[p];
    var n, rest := a.pc.newFile, a.pc.rest;
    if k == 0 {
      tr := [];
      NothingDealt(s, p);
      assert rest[..0] == [] && rest[0..] == rest;
    } else {
      var t := OneName(s, p);
      var s1 := Exec(s, t).value;
      var u := LoopPrefix(s1, p, k - 1);
      ExecConcat(s, t, u);
      DealtTwice(s, p, n, rest[..1], rest[1..k], Loop(n, rest[1..]), Loop(n, rest[k..]));
      assert rest[1..][..k - 1] == rest[1..k] && rest[1..][k - 1..] == rest[k..];
      assert rest[..1] + rest[1..k] == rest[..k];
      tr := t + u;
    }
  }

  lemma NothingDealt(s: State, p: nat)
    requires p < |s.procs|
    ensures Exec(s, []) == Some(s)
    ensures s.procs[p].pc.Loop? ==> Dealt(s, p, s.procs[p].pc.newFile, [], s.procs[p].pc) == s
  {
    if s.procs[p].pc.Loop? {
      var a, n := s.procs[p], s.procs[p].pc.newFile;
      assert Looked(s.dir, n, []) == {} && Gone(s, p, n, []) == {} && Inodes(s.dir, {}) == {};
      assert a.held - {} == a.held && s.dir - {} == s.dir && a.removed + {} == a.removed;
      assert s.procs[p := a] == s.procs;
    }
  }

  /** purge_file of a file that is not there does nothing; of one that nobody else has locked, it
      can go on to the end: the file is gone, and with it the lock the process itself may have
      had on it. */
  lemma PurgeFileAlone(s: State, p: nat, t: string) returns (tr: Trace)
    requires p < |s.procs| && s.procs[p].pc == PurgeOpen(t)
    requires t in s.dir ==> LockGranted(s, p, s.dir[t], Exclusive) && InfoGranted(s, p, Shared)
    ensures var a := s.procs[p];
      && Only(p, tr)
      && if t !in s.dir then |tr| == 2 && Exec(s, tr) == Some(With(s, p, a.(pc := Idle, info := None)))
         else
           var i := s.dir[t];
           Exec(s, tr) == Some(With(s, p, a.(pc := Idle, info := None, held := a.held - {i},
                                             removed := a.removed + {i})).(dir := s.dir - {t}))
  {
    var a := s.procs[p];
    var f := FreshDescriptor(a.fds);
    var e := Advance(f, [], false);
    if t !in s.dir {
      var b := a.(pc := UnlockInfo);
      assert Step(s, p, e) == Some(With(s, p, b));
      WithTwice(s, p, b, a.(pc := Idle, info := None));
      ExecOne(With(s, p, b), p, e);
      ExecFirst(s, p, e, [(p, e)]);
      tr := [(p, e)] + [(p, e)];
    } else {
      var i := s.dir[t];
      var b := a.(fds := a.fds[f := i], pc := PurgeWait(t, f));
      var s1 := With(s, p, b);
      assert Step(s, p, e) == Some(s1);
      OthersDecide(s, p, b, s.dir);
      var u := PurgeFileLocks(s1, p, t, f);
      WithTwice(s, p, b, Exec(s1, u).value.procs[p]);
      assert a.fds[f := i] - {f} == a.fds;
      ExecFirst(s, p, e, u);
      tr := [(p, e)] + u;
    }
  }

  lemma PurgeFileLocks(s: State, p: nat, t: string, f: Fd) returns (tr: Trace)
    requires p < |s.procs| && s.procs[p].pc == PurgeWait(t, f) && f in s.procs[p].fds
    requires t in s.dir && s.dir[t] == s.procs[p].fds[f]
    requires LockGranted(s, p, s.dir[t], Exclusive) && InfoGranted(s, p, Shared)
    ensures var a, i := s.procs[p], s.dir[t];
      && Only(p, tr)
      && Exec(s, tr) == Some(With(s, p, a.(pc := Idle, info := None, fds := a.fds - {f}, held := a.held - {i},
                                           removed := a.removed + {i})).(dir := s.dir - {t}))
  {
    var a, i, e := s.procs[p], s.dir[t], Advance(0, [], false);
    hide LockGranted, StepLoop, StepIdle;
    var b := a.(held := a.held[i := Exclusive], pc := PurgeUnlink(t, f));
    assert Step(s, p, e) == Some(With(s, p, b));
    var c := b.(removed := a.removed + {i}, pc := Unlock(f, PurgeSize));
    var s2 := With(s, p, c).(dir := s.dir - {t});
    WithTwice(s, p, b, c);
    assert Step(With(s, p, b), p, e) == Some(s2);
    tr := PurgeFileEnds(s2, p, f);
    assert a.held[i := Exclusive] - {i} == a.held - {i};
    WithTwice(s, p, c, Exec(s2, tr).value.procs[p]);
    ExecFirst(With(s, p, b), p, e, tr);
    ExecFirst(s, p, e, [(p, e)] + tr);
    tr := [(p, e)] + ([(p, e)] + tr);
  }

  lemma PurgeFileEnds(s: State, p: nat, f: Fd) returns (tr: Trace)
    requires p < |s.procs| && s.procs[p].pc == Unlock(f, PurgeSize) && f in s.procs[p].fds
    requires InfoGranted(s, p, Shared)
    ensures var a := s.procs[p];
      && Only(p, tr)
      && Exec(s, tr) == Some(With(s, p, a.(pc := Idle, info := None, fds := a.fds - {f}, held := a.held - {a.fds[f]})))
  {
    var a, i, e := s.procs[p], s.procs[p].fds[f], Advance(0, [], false);
    hide LockGranted, StepLoop, StepIdle;
    var b := a.(held := a.held - {i}, pc := Close(f, PurgeSize));
    assert Step(s, p, e) == Some(With(s, p, b));
    assert a.held - {i} - {i} == a.held - {i};
    var c := a.(held := a.held - {i}, fds := a.fds - {f}, pc := PurgeSize);
    WithTwice(s, p, b, c);
    assert Step(With(s, p, b), p, e) == Some(With(s, p, c));
    var d := c.(info := Some(Shared), pc := UnlockInfo);
    WithTwice(s, p, c, d);
    assert Step(With(s, p, c), p, e) == Some(With(s, p, d));
    WithTwice(s, p, d, c.(info := None, pc := Idle));
    ExecOne(With(s, p, d), p, e);
    ExecFirst(With(s, p, c), p, e, [(p, e)]);
    ExecFirst(With(s, p, b), p, e, [(p, e)] + [(p, e)]);
    ExecFirst(s, p, e, [(p, e)] + ([(p, e)] + [(p, e)]));
    tr := [(p, e)] + ([(p, e)] + ([(p, e)] + [(p, e)]));
  }

  /** While purge_file asks for the size it holds the info file shared, so whoever waits to read
      from the cache can go on. */
  lemma ReadersLetIn(s: State, p: nat, q: nat, e: Event, op: Op)
    requires Inv(s) && p < |s.procs| && q < |s.procs| && p != q
    requires s.procs[p].pc.PurgeSize? && s.procs[q].pc == WaitInfo(op) && (op.ReadLock? || op.GetSize?)
    requires e.Advance?
    ensures Step(s, q, e).None? && Step(s, p, e).Some? && Step(Step(s, p, e).value, q, e).Some?
  {
  }
}
