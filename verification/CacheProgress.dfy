/** Nobody waits for ever: with creators that downgrade before they lock anything new, and
    without purge_file, waiting never closes a circle. */
module CacheProgress {
  import opened CacheProtocol

  predicate NoExclusive(a: Proc) { forall i :: i in a.held ==> a.held[i] == Shared }

  /** The process has a lock on the file of this name already. */
  predicate OwnLock(dir: map<string, Inode>, a: Proc, t: string) { t in dir && dir[t] in a.held }

  /** Asking for the size, and reading a file one has a lock on, is always safe; any other call
      wants everything that one has created to be downgraded or closed; purge_file is not used. */
  predicate Considerate(dir: map<string, Inode>, a: Proc, e: Event) {
    match e
    case Call(op) =>
      (match op
       case GetSize => true
       case ReadLock(t) => NoExclusive(a) || OwnLock(dir, a, t)
       case PurgeFile(_) => false
       case _ => NoExclusive(a))
    case _ => true
  }

  predicate ConsiderateStep(s: State, p: nat, e: Event) { p < |s.procs| ==> Considerate(s.dir, s.procs[p], e) }

  /** All locks but the one on descriptor f are shared. */
  predicate SharedBut(a: Proc, f: Fd) {
    forall i :: i in a.held && a.held[i] == Exclusive ==> f in a.fds && a.fds[f] == i
  }

  predicate Calm(dir: map<string, Inode>, a: Proc) {
    match a.pc
    case Idle => true
    case UnlockInfo => true
    case Unlink(_, _, f, _) => SharedBut(a, f)
    case Unlock(f, next) => next.Idle? || (next.Loop? && SharedBut(a, f))
    case Close(f, next) => next.Idle? || (next.Loop? && SharedBut(a, f))
    case WaitInfo(op) => Considerate(dir, a, Call(op))
    case OpenRead(t) => NoExclusive(a) || OwnLock(dir, a, t)
    case WaitRead(_, f) => NoExclusive(a) || (f in a.fds && a.fds[f] in a.held)
    case PurgeOpen(_) => false
    case PurgeWait(_, _) => false
    case PurgeUnlink(_, _) => false
    case PurgeSize => false
    case _ => NoExclusive(a)
  }

  predicate AllCalm(s: State) { forall p :: 0 <= p < |s.procs| ==> Calm(s.dir, s.procs[p]) }

  lemma CalmStep(s: State, p: nat, e: Event)
    requires Inv(s) && p < |s.procs| && Step(s, p, e).Some? && Calm(s.dir, s.procs[p]) && ConsiderateStep(s, p, e)
    ensures var s' := Step(s, p, e).value; Calm(s'.dir, s'.procs[p])
  {
    hide LockGranted, InfoGranted;
    var a := s.procs[p];
    assert ProcOk(s.dir, s.unused, a);
    if a.pc.Idle? {
      CalmIdle(s.dir, a, e);
    } else if a.pc.Unlock? || a.pc.Close? {
      CalmUnlock(s.dir, a);
    } else {
      CalmAdvance(s, p, e);
    }
  }

  lemma CalmIdle(dir: map<string, Inode>, a: Proc, e: Event)
    requires a.pc.Idle? && Considerate(dir, a, e) && StepIdle(a, e).Some?
    ensures Calm(dir, StepIdle(a, e).value)
  {
  }

  lemma CalmUnlock(dir: map<string, Inode>, a: Proc)
    requires (a.pc.Unlock? || a.pc.Close?) && PcOk(dir, a) && Calm(dir, a)
    ensures Calm(dir, StepUnlock(a))
  {
  }

  lemma CalmAdvance(s: State, p: nat, e: Event)
    requires p < |s.procs| && PcOk(s.dir, s.procs[p]) && Calm(s.dir, s.procs[p]) && Step(s, p, e).Some?
    requires var pc := s.procs[p].pc; !pc.Idle? && !pc.Unlock? && !pc.Close?
    ensures var s' := Step(s, p, e).value; Calm(s'.dir, s'.procs[p])
  {
    hide LockGranted, InfoGranted, On, HoldsX;
    match s.procs[p].pc
    case Unlink(_, _, _, _) =>
    case TryLock(_, _, _, _) =>
    case Loop(_, _) =>
    case WaitRead(_, _) =>
    case _ =>
  }

  lemma AllCalmStep(s: State, p: nat, e: Event)
    requires Inv(s) && AllCalm(s) && p < |s.procs| && Step(s, p, e).Some? && ConsiderateStep(s, p, e)
    ensures AllCalm(Step(s, p, e).value)
  {
    var s' := Step(s, p, e).value;
    forall q | 0 <= q < |s'.procs| ensures Calm(s'.dir, s'.procs[q]) {
      if q == p { CalmStep(s, p, e); } else { OtherCalm(s, p, e, q); }
    }
  }

  /** No other process can take a file away that one has a lock on. */
  lemma OtherCalm(s: State, p: nat, e: Event, q: nat)
    requires Inv(s) && p < |s.procs| && q < |s.procs| && p != q && Step(s, p, e).Some?
    requires Calm(s.dir, s.procs[q])
    ensures var s' := Step(s, p, e).value; s'.procs[q] == s.procs[q] && Calm(s'.dir, s.procs[q])
  {
    hide LockGranted, InfoGranted;
    var s' := Step(s, p, e).value;
    var c := s.procs[q];
    assert ProcOk(s.dir, s.unused, s.procs[p]) && Compatible(s.procs[p], c);
    forall t | OwnLock(s.dir, c, t) ensures OwnLock(s'.dir, c, t) {
    }
  }

  lemma {:induction false} CalmRun(s: State, t: Trace)
    requires Inv(s) && AllCalm(s) && Keeps(ConsiderateStep, s, t) && Exec(s, t).Some?
    ensures Inv(Exec(s, t).value) && AllCalm(Exec(s, t).value)
    decreases |t|
  {
    hide Inv, AllCalm, Step;
    if t != [] {
      var (p, e) := t[0];
      StepInv(s, p, e);
      AllCalmStep(s, p, e);
      CalmRun(Step(s, p, e).value, t[1..]);
    }
  }

  // ---------------------------------------------------------------- waiting

  predicate InfoStands(a: Proc, m: Mode) {
    a.info.Some? && (m.Exclusive? || a.info.value.Exclusive?)
  }

  predicate LockStands(a: Proc, i: Inode, m: Mode) {
    i in a.held && (m.Exclusive? || a.held[i].Exclusive?)
  }

  /** p cannot go on because of a lock that q has. */
  predicate WaitsFor(s: State, p: nat, q: nat)
    requires p < |s.procs| && q < |s.procs|
  {
    var a, c := s.procs[p], s.procs[q];
    p != q && match a.pc
    case WaitInfo(op) => InfoStands(c, InfoMode(op))
    case PurgeSize => InfoStands(c, Shared)
    case WaitRead(_, f) => f in a.fds && LockStands(c, a.fds[f], Shared)
    case WaitCreate(_, f) => f in a.fds && LockStands(c, a.fds[f], Exclusive)
    case PurgeWait(_, f) => f in a.fds && LockStands(c, a.fds[f], Exclusive)
    case _ => false
  }

  /** p has something left to do: it is inside an operation, or it has created a file and
      still owes the downgrade. */
  predicate Unfinished(a: Proc) { !a.pc.Idle? || !NoExclusive(a) }

  ghost predicate CanStep(s: State, p: nat)
    requires p < |s.procs|
  {
    exists e :: Considerate(s.dir, s.procs[p], e) && Step(s, p, e).Some?
  }

  /** What a process that waits for no one wants is granted. */
  lemma WaitsForNone(s: State, p: nat)
    requires p < |s.procs| && forall q :: 0 <= q < |s.procs| ==> !WaitsFor(s, p, q)
    ensures var a := s.procs[p];
      match a.pc
      case WaitInfo(op) => InfoGranted(s, p, InfoMode(op))
      case PurgeSize => InfoGranted(s, p, Shared)
      case WaitRead(_, f) => f in a.fds ==> LockGranted(s, p, a.fds[f], Shared)
      case WaitCreate(_, f) => f in a.fds ==> LockGranted(s, p, a.fds[f], Exclusive)
      case PurgeWait(_, f) => f in a.fds ==> LockGranted(s, p, a.fds[f], Exclusive)
      case _ => true
  {
    forall q | 0 <= q < |s.procs| && q != p
      ensures s.procs[q].info.Some? ==> s.procs[q].info.value.Shared? || s.procs[q].info.value.Exclusive?
      ensures !WaitsFor(s, p, q) {
    }
  }

  /** An unfinished process that waits for no one can step. */
  lemma UnlessWaiting(s: State, p: nat)
    requires Inv(s) && p < |s.procs| && Unfinished(s.procs[p])
    requires forall q :: 0 <= q < |s.procs| ==> !WaitsFor(s, p, q)
    ensures CanStep(s, p)
  {
    var a := s.procs[p];
    assert ProcOk(s.dir, s.unused, a);
    var f := FreshDescriptor(a.fds);
    var e := Advance(f, [], true);
    if a.pc.Idle? {
      var i :| i in a.held && a.held[i] == Exclusive;
      assert i in a.fds.Values;
      var g :| g in a.fds && a.fds[g] == i;
      assert Considerate(s.dir, a, Downgrade(g)) && Step(s, p, Downgrade(g)).Some?;
    } else {
      WaitsForNone(s, p);
      assert Considerate(s.dir, a, e) && Step(s, p, e).Some?;
    }
  }

  /** A process that waits for a cached file waits for one that owes a downgrade or is closing
      its file, and that waits for nobody. */
  lemma FileWaitersEnd(s: State, p: nat, q: nat)
    requires Inv(s) && AllCalm(s) && p < |s.procs| && q < |s.procs|
    requires WaitsFor(s, p, q) && !s.procs[p].pc.WaitInfo?
    ensures Unfinished(s.procs[q]) && forall r :: 0 <= r < |s.procs| ==> !WaitsFor(s, q, r)
  {
    var a, c := s.procs[p], s.procs[q];
    assert Calm(s.dir, a) && Calm(s.dir, c) && Compatible(a, c) && Compatible(c, a);
    assert ProcOk(s.dir, s.unused, a) && ProcOk(s.dir, s.unused, c);
    forall r | 0 <= r < |s.procs| ensures !WaitsFor(s, q, r) {
      assert r != p ==> Compatible(s.procs[r], a);
      assert r != q ==> Compatible(s.procs[r], c);
    }
  }

  lemma NoWaitForNext(s: State, p: nat, q: nat)
    requires Inv(s) && AllCalm(s) && p < |s.procs| && q < |s.procs| && WaitsFor(s, p, q)
    ensures Unfinished(s.procs[q])
    ensures s.procs[p].pc.WaitInfo? ==> !s.procs[q].pc.WaitInfo?
  {
    var a, c := s.procs[p], s.procs[q];
    assert Calm(s.dir, a) && Calm(s.dir, c) && Compatible(a, c) && Compatible(c, a);
    assert ProcOk(s.dir, s.unused, a) && ProcOk(s.dir, s.unused, c);
  }

  /** Whoever is waited for by a process that is itself waited for waits for nobody. */
  lemma NoThirdWait(s: State, p: nat, q: nat, r: nat, u: nat)
    requires Inv(s) && AllCalm(s) && p < |s.procs| && q < |s.procs| && r < |s.procs| && u < |s.procs|
    requires WaitsFor(s, p, q) && WaitsFor(s, q, r)
    ensures !WaitsFor(s, r, u)
  {
    NoWaitForNext(s, p, q);
    if s.procs[p].pc.WaitInfo? { FileWaitersEnd(s, q, r); } else { FileWaitersEnd(s, p, q); }
  }

  /** Waiting goes at most two deep, so no set of processes waits in a circle: whoever is
      waited for by a process that is itself waited for waits for nobody. */
  lemma WaitsAreShort(s: State, t: Trace, p: nat, q: nat, r: nat, u: nat)
    requires Init(s) && Keeps(ConsiderateStep, s, t) && Exec(s, t).Some?
    requires var s' := Exec(s, t).value;
      && p < |s'.procs| && q < |s'.procs| && r < |s'.procs| && u < |s'.procs|
      && WaitsFor(s', p, q) && WaitsFor(s', q, r)
    ensures !WaitsFor(Exec(s, t).value, r, u)
  {
    CalmRun(s, t);
    NoThirdWait(Exec(s, t).value, p, q, r, u);
  }

  /** As long as some process is unfinished, some unfinished process can take a step, and a
      considerate one: a process that waits leads in at most two hops to one that can. */
  lemma SomeoneCanStep(s: State, t: Trace, p: nat) returns (q: nat)
    requires Init(s) && Keeps(ConsiderateStep, s, t) && Exec(s, t).Some?
    requires p < |Exec(s, t).value.procs| && Unfinished(Exec(s, t).value.procs[p])
    ensures var s' := Exec(s, t).value;
      q < |s'.procs| && Unfinished(s'.procs[q]) && CanStep(s', q)
  {
    CalmRun(s, t);
    var s' := Exec(s, t).value;
    q := p;
    if x :| 0 <= x < |s'.procs| && WaitsFor(s', q, x) {
      NoWaitForNext(s', q, x);
      q := x;
      if y :| 0 <= y < |s'.procs| && WaitsFor(s', q, y) {
        if s'.procs[p].pc.WaitInfo? { FileWaitersEnd(s', q, y); } else { FileWaitersEnd(s', p, q); }
        q := y;
      }
    }
    UnlessWaiting(s', q);
  }
}
