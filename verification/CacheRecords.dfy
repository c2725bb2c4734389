/** d_locks: when a recorded lock is really held on a file that is really there. */
module CacheRecords {
  import opened CacheProtocol

  /** What a process has to respect for its records to stay true: it purges only while it has
      recorded nothing but the new file, does not purge a recorded file by name, and closes by
      descriptor only what no record is about. */
  predicate Careful(a: Proc, e: Event) {
    match e
    case Call(op) =>
      (match op
       case UpdateAndPurge(n) => OnlyNew(a, n)
       case PurgeFile(t) => t !in a.records
       case _ => true)
    case CloseFd(f) => Spare(a, f)
    case _ => true
  }

  predicate CarefulStep(s: State, p: nat, e: Event) { p < |s.procs| ==> Careful(s.procs[p], e) }

  /** A record: the file is in the directory, under a descriptor of the very inode, and the
      process has a lock on it. */
  predicate TrueRecord(dir: map<string, Inode>, a: Proc, n: string) {
    n in a.records && On(dir, a, n, a.records[n]) && dir[n] in a.held
  }

  /** A descriptor that no record speaks of, directly or through its inode. */
  predicate Spare(a: Proc, f: Fd) {
    forall n :: n in a.records ==>
      a.records[n] != f && (f in a.fds && a.records[n] in a.fds ==> a.fds[a.records[n]] != a.fds[f])
  }

  predicate OnlyNew(a: Proc, n: string) { a.records.Keys <= {n} }

  predicate NextTidy(a: Proc, next: Pc) { next.Loop? ==> OnlyNew(a, next.newFile) }

  predicate PcTidy(a: Proc) {
    match a.pc
    case WaitInfo(op) => Careful(a, Call(op))
    case WaitCreate(t, f) => t !in a.records && Spare(a, f)
    case Scan(n) => OnlyNew(a, n)
    case Loop(n, _) => OnlyNew(a, n)
    case TryLock(n, t, f, _) => OnlyNew(a, n) && t != n && Spare(a, f)
    case Unlink(n, t, f, _) => OnlyNew(a, n) && t != n && Spare(a, f)
    case PurgeOpen(t) => t !in a.records
    case PurgeWait(t, f) => t !in a.records && Spare(a, f)
    case PurgeUnlink(t, f) => t !in a.records && Spare(a, f)
    case Unlock(f, next) => Spare(a, f) && NextTidy(a, next)
    case Close(f, next) => Spare(a, f) && NextTidy(a, next)
    case _ => true
  }

  predicate Tidy(dir: map<string, Inode>, a: Proc) {
    PcTidy(a) && forall n :: n in a.records ==> TrueRecord(dir, a, n)
  }

  predicate AllTidy(s: State) { forall p :: 0 <= p < |s.procs| ==> Tidy(s.dir, s.procs[p]) }

  /** A record survives every step of another process. */
  lemma OthersTidy(s: State, p: nat, e: Event, q: nat)
    requires Inv(s) && p < |s.procs| && q < |s.procs| && p != q && Step(s, p, e).Some?
    requires Tidy(s.dir, s.procs[q])
    ensures Tidy(Step(s, p, e).value.dir, s.procs[q])
  {
    var a, c := s.procs[p], s.procs[q];
    var s' := Step(s, p, e).value;
    assert ProcOk(s.dir, s.unused, a) && Compatible(a, c);
    forall n | n in c.records ensures TrueRecord(s'.dir, c, n) {
      assert TrueRecord(s.dir, c, n);
    }
  }

  lemma SpareIfNew(s: State, a: Proc, n: string)
    requires DirOk(s.dir, s.unused) && n in s.dir && n !in a.records
    requires forall m :: m in a.records ==> TrueRecord(s.dir, a, m)
    ensures forall f :: f !in a.fds ==> Spare(a.(fds := a.fds[f := s.dir[n]]), f)
  {
    forall f | f !in a.fds ensures Spare(a.(fds := a.fds[f := s.dir[n]]), f) {
      forall m | m in a.records ensures a.records[m] != f && a.fds[f := s.dir[n]][a.records[m]] != s.dir[n] {
        assert TrueRecord(s.dir, a, m);
      }
    }
  }

  /** The calls between operations. */
  lemma IdleTidy(s: State, p: nat, e: Event)
    requires Inv(s) && p < |s.procs| && Step(s, p, e).Some? && s.procs[p].pc.Idle?
    requires Tidy(s.dir, s.procs[p]) && Careful(s.procs[p], e)
    ensures var s' := Step(s, p, e).value; Tidy(s'.dir, s'.procs[p])
  {
    var a := s.procs[p];
    var b := Step(s, p, e).value.procs[p];
    assert ProcOk(s.dir, s.unused, a);
    forall n | n in b.records ensures TrueRecord(s.dir, b, n) {
      assert TrueRecord(s.dir, a, n);
    }
    if e.CloseName? {
      forall n | n in b.records ensures b.records[n] != b.pc.fd && b.fds[b.records[n]] != b.fds[b.pc.fd] {
        assert TrueRecord(s.dir, a, n) && TrueRecord(s.dir, a, e.name);
      }
    }
  }

  /** Opening a file: one more descriptor, of an inode that no record is about. */
  lemma OpenTidy(s: State, p: nat, e: Event)
    requires Inv(s) && p < |s.procs| && Step(s, p, e).Some? && Tidy(s.dir, s.procs[p])
    requires var pc := s.procs[p].pc; pc.OpenRead? || pc.Create? || pc.PurgeOpen? || pc.Loop?
    ensures var s' := Step(s, p, e).value; Tidy(s'.dir, s'.procs[p])
  {
    var a := s.procs[p];
    var s' := Step(s, p, e).value;
    var b := s'.procs[p];
    assert ProcOk(s.dir, s.unused, a);
    forall n | n in a.records ensures TrueRecord(s'.dir, b, n) && a.fds[a.records[n]] < s.unused {
      assert TrueRecord(s.dir, a, n);
    }
    if a.pc.PurgeOpen? && a.pc.target in s.dir { SpareIfNew(s, a, a.pc.target); }
    if a.pc.Loop? && b.pc.TryLock? { SpareIfNew(s, a, b.pc.target); }
  }

  /** A lock is granted, and recorded unless it is for removing the file. */
  lemma GrantTidy(s: State, p: nat, e: Event)
    requires Inv(s) && p < |s.procs| && Step(s, p, e).Some? && Tidy(s.dir, s.procs[p])
    requires var a := s.procs[p];
      a.pc.WaitRead? || a.pc.WaitCreate? || a.pc.PurgeWait?
      || (a.pc.TryLock? && a.pc.fd in a.fds && LockGranted(s, p, a.fds[a.pc.fd], Exclusive))
    ensures var s' := Step(s, p, e).value; Tidy(s'.dir, s'.procs[p])
  {
    hide LockGranted;
    var a := s.procs[p];
    var b := Step(s, p, e).value.procs[p];
    assert ProcOk(s.dir, s.unused, a);
    forall n | n in b.records ensures TrueRecord(s.dir, b, n) {
      if n in a.records { assert TrueRecord(s.dir, a, n); }
    }
  }

  /** A descriptor that no record is about is unlocked or closed. */
  lemma ReleaseTidy(s: State, p: nat, e: Event)
    requires Inv(s) && p < |s.procs| && Step(s, p, e).Some? && Tidy(s.dir, s.procs[p])
    requires var a := s.procs[p];
      a.pc.Unlock? || a.pc.Close?
      || (a.pc.TryLock? && a.pc.fd in a.fds && !LockGranted(s, p, a.fds[a.pc.fd], Exclusive))
    ensures var s' := Step(s, p, e).value; Tidy(s'.dir, s'.procs[p])
  {
    hide LockGranted;
    var a := s.procs[p];
    var b := Step(s, p, e).value.procs[p];
    assert ProcOk(s.dir, s.unused, a) && Spare(a, a.pc.fd);
    forall n | n in b.records ensures TrueRecord(s.dir, b, n) {
      assert TrueRecord(s.dir, a, n);
    }
  }

  /** The unlinked file has no record. */
  lemma UnlinkTidy(s: State, p: nat, e: Event)
    requires Inv(s) && p < |s.procs| && Step(s, p, e).Some? && Tidy(s.dir, s.procs[p])
    requires s.procs[p].pc.Unlink? || s.procs[p].pc.PurgeUnlink?
    ensures var s' := Step(s, p, e).value; Tidy(s'.dir, s'.procs[p])
  {
    var a := s.procs[p];
    var s' := Step(s, p, e).value;
    forall n | n in a.records ensures TrueRecord(s'.dir, s'.procs[p], n) {
      assert TrueRecord(s.dir, a, n);
    }
  }

  lemma OtherTidy(s: State, p: nat, e: Event)
    requires Inv(s) && p < |s.procs| && Step(s, p, e).Some? && Tidy(s.dir, s.procs[p])
    requires var pc := s.procs[p].pc; pc.WaitInfo? || pc.Scan? || pc.PurgeSize? || pc.UnlockInfo?
    ensures var s' := Step(s, p, e).value; Tidy(s'.dir, s'.procs[p])
  {
    hide InfoGranted;
    var a := s.procs[p];
    var b := Step(s, p, e).value.procs[p];
    forall n | n in b.records ensures TrueRecord(s.dir, b, n) {
      assert TrueRecord(s.dir, a, n);
    }
  }

  lemma AdvanceTidy(s: State, p: nat, e: Event)
    requires Inv(s) && p < |s.procs| && Step(s, p, e).Some? && Tidy(s.dir, s.procs[p])
    requires !s.procs[p].pc.Idle?
    ensures var s' := Step(s, p, e).value; Tidy(s'.dir, s'.procs[p])
  {
    hide Tidy, Inv, LockGranted, InfoGranted;
    match s.procs[p].pc
    case OpenRead(_) => OpenTidy(s, p, e);
    case Create(_) => OpenTidy(s, p, e);
    case PurgeOpen(_) => OpenTidy(s, p, e);
    case Loop(_, _) => OpenTidy(s, p, e);
    case WaitRead(_, _) => GrantTidy(s, p, e);
    case WaitCreate(_, _) => GrantTidy(s, p, e);
    case PurgeWait(_, _) => GrantTidy(s, p, e);
    case TryLock(_, _, f, _) =>
      if LockGranted(s, p, s.procs[p].fds[f], Exclusive) { GrantTidy(s, p, e); } else { ReleaseTidy(s, p, e); }
    case Unlock(_, _) => ReleaseTidy(s, p, e);
    case Close(_, _) => ReleaseTidy(s, p, e);
    case Unlink(_, _, _, _) => UnlinkTidy(s, p, e);
    case PurgeUnlink(_, _) => UnlinkTidy(s, p, e);
    case _ => OtherTidy(s, p, e);
  }

  lemma TidyStep(s: State, p: nat, e: Event)
    requires Inv(s) && AllTidy(s) && p < |s.procs| && Step(s, p, e).Some? && Careful(s.procs[p], e)
    ensures AllTidy(Step(s, p, e).value)
  {
    var s' := Step(s, p, e).value;
    forall q | 0 <= q < |s'.procs| ensures Tidy(s'.dir, s'.procs[q]) {
      if q != p {
        OthersTidy(s, p, e, q);
      } else if s.procs[p].pc.Idle? {
        IdleTidy(s, p, e);
      } else {
        AdvanceTidy(s, p, e);
      }
    }
  }

  lemma {:induction false} TidyRun(s: State, t: Trace)
    requires Inv(s) && AllTidy(s) && Keeps(CarefulStep, s, t) && Exec(s, t).Some?
    ensures Inv(Exec(s, t).value) && AllTidy(Exec(s, t).value)
    decreases |t|
  {
    if t != [] {
      var (p, e) := t[0];
      StepInv(s, p, e);
      TidyStep(s, p, e);
      TidyRun(Step(s, p, e).value, t[1..]);
    }
  }

  /** At every moment of every careful run, each recorded file is in the directory, recorded
      under a descriptor of its own inode, and locked by the process that recorded it. */
  lemma RecordsAreTrue(s: State, t: Trace, p: nat, n: string)
    requires Init(s) && Keeps(CarefulStep, s, t) && Exec(s, t).Some?
    requires var s' := Exec(s, t).value; p < |s'.procs| && n in s'.procs[p].records
    ensures var s' := Exec(s, t).value; var a := s'.procs[p];
      n in s'.dir && a.records[n] in a.fds && a.fds[a.records[n]] == s'.dir[n] && s'.dir[n] in a.held
  {
    TidyRun(s, t);
    assert TrueRecord(Exec(s, t).value.dir, Exec(s, t).value.procs[p], n);
  }
}
