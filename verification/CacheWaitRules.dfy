/** The rules of CacheProgress are exact: each call that they forbid can be continued, by
    processes that keep to the rules, until two processes wait for each other. */
module CacheWaitRules {
  import opened Wrappers
  import opened CacheProtocol
  import opened CacheProgress

  ghost predicate MutualWait(s: State) {
    exists p, q :: 0 <= p < |s.procs| && 0 <= q < |s.procs| && WaitsFor(s, p, q) && WaitsFor(s, q, p)
  }

  ghost predicate Locks(rule: (State, nat, Event) -> bool, s: State) {
    exists s1 :: Leads(rule, s, s1) && MutualWait(s1)
  }

  /** No process but p has the info file. */
  predicate OthersOff(s: State, p: nat) { forall q :: 0 <= q < |s.procs| && q != p ==> s.procs[q].info.None? }

  // ---------------------------------------------------------------- whole operations of one process

  /** q reads a file that nobody else has locked exclusively. */
  lemma ReadsWhole(s0: State, s: State, q: nat, t: string) returns (s': State)
    requires Leads(ConsiderateStep, s0, s) && q < |s.procs| && s.procs[q].pc.Idle? && NoExclusive(s.procs[q])
    requires OthersOff(s, q) && t in s.dir && LockGranted(s, q, s.dir[t], Shared)
    ensures Leads(ConsiderateStep, s0, s') && s'.dir == s.dir && |s'.procs| == |s.procs|
    ensures forall r :: 0 <= r < |s.procs| && r != q ==> s'.procs[r] == s.procs[r]
    ensures s'.procs[q].pc.Idle? && s'.procs[q].info.None? && s.dir[t] in s'.procs[q].held
  {
    hide Leads, Keeps, NoExclusive;
    var g := FreshDescriptor(s.procs[q].fds);
    var go := Advance(g, [], false);
    LeadsOn(ConsiderateStep, s0, s, q, Call(ReadLock(t)));
    var s1 := Step(s, q, Call(ReadLock(t))).value;
    LeadsOn(ConsiderateStep, s0, s1, q, go);
    var s2 := Step(s1, q, go).value;
    LeadsOn(ConsiderateStep, s0, s2, q, go);
    var s3 := Step(s2, q, go).value;
    LeadsOn(ConsiderateStep, s0, s3, q, go);
    var s4 := Step(s3, q, go).value;
    LeadsOn(ConsiderateStep, s0, s4, q, go);
    s' := Step(s4, q, go).value;
  }

  /** q creates a file. */
  lemma CreatesWhole(s0: State, s: State, q: nat, t: string) returns (s': State)
    requires Leads(ConsiderateStep, s0, s) && q < |s.procs| && s.procs[q].pc.Idle? && NoExclusive(s.procs[q])
    requires OthersOff(s, q) && t !in s.dir
    requires forall r :: 0 <= r < |s.procs| ==> s.unused !in s.procs[r].held
    ensures Leads(ConsiderateStep, s0, s') && s'.dir == s.dir[t := s.unused] && |s'.procs| == |s.procs|
    ensures forall r :: 0 <= r < |s.procs| && r != q ==> s'.procs[r] == s.procs[r]
    ensures s'.procs[q].pc.Idle? && s'.procs[q].info.None? && HoldsX(s'.procs[q], s.unused)
  {
    hide Leads, Keeps, NoExclusive;
    var g := FreshDescriptor(s.procs[q].fds);
    var go := Advance(g, [], false);
    LeadsOn(ConsiderateStep, s0, s, q, Call(CreateAndLock(t)));
    var s1 := Step(s, q, Call(CreateAndLock(t))).value;
    LeadsOn(ConsiderateStep, s0, s1, q, go);
    var s2 := Step(s1, q, go).value;
    LeadsOn(ConsiderateStep, s0, s2, q, go);
    var s3 := Step(s2, q, go).value;
    LeadsOn(ConsiderateStep, s0, s3, q, go);
    var s4 := Step(s3, q, go).value;
    LeadsOn(ConsiderateStep, s0, s4, q, go);
    s' := Step(s4, q, go).value;
  }

  /** q purges just one file. */
  lemma PurgesWhole(s0: State, s: State, q: nat, u: string) returns (s': State)
    requires Leads(ConsiderateStep, s0, s) && q < |s.procs| && s.procs[q].pc.Idle? && NoExclusive(s.procs[q])
    requires OthersOff(s, q) && u in s.dir && LockGranted(s, q, s.dir[u], Exclusive)
    ensures Leads(ConsiderateStep, s0, s') && s'.dir == s.dir - {u} && s'.unused == s.unused
    ensures |s'.procs| == |s.procs| && forall r :: 0 <= r < |s.procs| && r != q ==> s'.procs[r] == s.procs[r]
    ensures var b := s'.procs[q];
      b.pc.Idle? && b.info.None? && NoExclusive(b) && b.held.Keys <= s.procs[q].held.Keys
  {
    hide Leads, Keeps;
    var n := if u == "" then "x" else "";
    var g := FreshDescriptor(s.procs[q].fds);
    var s4 := PurgeBegins(s0, s, q, n, u, g);
    var go := Advance(g, [u], false);
    assert LockGranted(s4, q, s.dir[u], Exclusive);
    LeadsOn(ConsiderateStep, s0, s4, q, go);
    var s5 := Step(s4, q, go).value;
    LeadsOn(ConsiderateStep, s0, s5, q, go);
    s' := PurgeEnds(s0, Step(s5, q, go).value, q, n, g);
  }

  /** Up to where the purge tries to lock the file. */
  lemma PurgeBegins(s0: State, s: State, q: nat, n: string, u: string, g: Fd) returns (s': State)
    requires Leads(ConsiderateStep, s0, s) && q < |s.procs| && s.procs[q].pc.Idle? && NoExclusive(s.procs[q])
    requires OthersOff(s, q) && u in s.dir && u != n && g !in s.procs[q].fds
    ensures Leads(ConsiderateStep, s0, s') && s'.dir == s.dir && s'.unused == s.unused
    ensures |s'.procs| == |s.procs| && forall r :: 0 <= r < |s.procs| && r != q ==> s'.procs[r] == s.procs[r]
    ensures var a, b := s.procs[q], s'.procs[q];
      b == a.(pc := TryLock(n, u, g, []), info := Some(Exclusive), fds := a.fds[g := s.dir[u]])
  {
    hide Leads, Keeps, NoExclusive, LockGranted;
    var a, go := s.procs[q], Advance(g, [u], false);
    LeadsOn(ConsiderateStep, s0, s, q, Call(UpdateAndPurge(n)));
    var s1 := Step(s, q, Call(UpdateAndPurge(n))).value;
    assert s1 == With(s, q, a.(pc := WaitInfo(UpdateAndPurge(n)))) && InfoGranted(s1, q, Exclusive);
    LeadsOn(ConsiderateStep, s0, s1, q, go);
    var s2 := Step(s1, q, go).value;
    assert s2.procs[q] == a.(info := Some(Exclusive), pc := Scan(n));
    LeadsOn(ConsiderateStep, s0, s2, q, go);
    var s3 := Step(s2, q, go).value;
    assert s3.procs[q] == a.(info := Some(Exclusive), pc := Loop(n, [u]));
    LeadsOn(ConsiderateStep, s0, s3, q, go);
    s' := Step(s3, q, go).value;
    assert [u][1..] == [] && s'.procs[q] == StepLoop(s3.dir, s3.procs[q], g, false);
  }

  /** After the file is gone. */
  lemma PurgeEnds(s0: State, s: State, q: nat, n: string, f: Fd) returns (s': State)
    requires Leads(ConsiderateStep, s0, s) && q < |s.procs|
    requires s.procs[q].pc == Unlock(f, Loop(n, [])) && f in s.procs[q].fds
    ensures Leads(ConsiderateStep, s0, s') && s'.dir == s.dir && s'.unused == s.unused
    ensures |s'.procs| == |s.procs| && forall r :: 0 <= r < |s.procs| && r != q ==> s'.procs[r] == s.procs[r]
    ensures var a, b := s.procs[q], s'.procs[q];
      b.pc.Idle? && b.info.None? && b.held == Drop(a.held, a.fds[f])
  {
    hide Leads, Keeps;
    var g := FreshDescriptor(s.procs[q].fds);
    var go := Advance(g, [], true);
    LeadsOn(ConsiderateStep, s0, s, q, go);
    var s1 := Step(s, q, go).value;
    LeadsOn(ConsiderateStep, s0, s1, q, go);
    var s2 := Step(s1, q, go).value;
    LeadsOn(ConsiderateStep, s0, s2, q, go);
    var s3 := Step(s2, q, go).value;
    LeadsOn(ConsiderateStep, s0, s3, q, go);
    s' := Step(s3, q, go).value;
  }

  /** q closes a file it has locked. */
  lemma ClosesWhole(s0: State, s: State, q: nat, i: Inode) returns (s': State)
    requires Leads(ConsiderateStep, s0, s) && q < |s.procs| && s.procs[q].pc.Idle?
    requires i in s.procs[q].held && i in s.procs[q].fds.Values
    ensures Leads(ConsiderateStep, s0, s') && s'.dir == s.dir && s'.unused == s.unused
    ensures |s'.procs| == |s.procs| && forall r :: 0 <= r < |s.procs| && r != q ==> s'.procs[r] == s.procs[r]
    ensures var a, b := s.procs[q], s'.procs[q]; b.pc.Idle? && b.info == a.info && b.held == Drop(a.held, i)
  {
    hide Leads, Keeps;
    var f :| f in s.procs[q].fds && s.procs[q].fds[f] == i;
    var go := Advance(0, [], true);
    LeadsOn(ConsiderateStep, s0, s, q, CloseFd(f));
    var s1 := Step(s, q, CloseFd(f)).value;
    LeadsOn(ConsiderateStep, s0, s1, q, go);
    var s2 := Step(s1, q, go).value;
    LeadsOn(ConsiderateStep, s0, s2, q, go);
    s' := Step(s2, q, go).value;
  }

  predicate AtRest(a: Proc) { a.pc.Idle? && a.info.None? && forall i :: i in a.held ==> i in a.fds.Values }

  /** Everybody but p gives up the locks on a file. */
  lemma {:induction false} AllClose(s0: State, p: nat, i: Inode, k: nat) returns (s: State)
    requires p < |s0.procs| && k <= |s0.procs|
    requires forall q :: 0 <= q < |s0.procs| && q != p ==> AtRest(s0.procs[q])
    ensures Leads(ConsiderateStep, s0, s) && s.dir == s0.dir && s.unused == s0.unused
    ensures |s.procs| == |s0.procs| && s.procs[p] == s0.procs[p]
    ensures forall q :: 0 <= q < |s.procs| && q != p ==>
      var c := s.procs[q];
      && c.pc.Idle? && c.info.None? && c.held.Keys <= s0.procs[q].held.Keys
      && (NoExclusive(s0.procs[q]) ==> NoExclusive(c))
      && (q < k ==> i !in c.held) && (q >= k ==> c == s0.procs[q])
    decreases k
  {
    hide Leads, Keeps;
    if k == 0 {
      LeadsNowhere(ConsiderateStep, s0);
      s := s0;
    } else {
      s := AllClose(s0, p, i, k - 1);
      if k - 1 != p && i in s.procs[k - 1].held {
        assert s.procs[k - 1] == s0.procs[k - 1];
        s := ClosesWhole(s0, s, k - 1, i);
      }
    }
  }

  // ---------------------------------------------------------------- a creator wants the info file to itself

  /** p has created t and waits for the info file; q comes to read t. */
  lemma ReaderMeetsCreator(s0: State, p: nat, q: nat, t: string)
    requires p < |s0.procs| && q < |s0.procs| && p != q
    requires var a := s0.procs[p]; a.pc.WaitInfo? && InfoMode(a.pc.op).Exclusive?
    requires t in s0.dir && HoldsX(s0.procs[p], s0.dir[t])
    requires s0.procs[q].pc.Idle? && NoExclusive(s0.procs[q])
    requires forall r :: 0 <= r < |s0.procs| ==> s0.procs[r].info.None?
    ensures Locks(ConsiderateStep, s0)
  {
    LeadsNowhere(ConsiderateStep, s0);
    hide Leads, Keeps, NoExclusive;
    var g := FreshDescriptor(s0.procs[q].fds);
    var go := Advance(g, [], false);
    LeadsOn(ConsiderateStep, s0, s0, q, Call(ReadLock(t)));
    var s1 := Step(s0, q, Call(ReadLock(t))).value;
    LeadsOn(ConsiderateStep, s0, s1, q, go);
    var s2 := Step(s1, q, go).value;
    LeadsOn(ConsiderateStep, s0, s2, q, go);
    var s3 := Step(s2, q, go).value;
    assert WaitsFor(s3, p, q) && WaitsFor(s3, q, p);
  }

  // ---------------------------------------------------------------- purge_file

  /** p is about to purge u, on which r has a lock; r asks for the size of the cache. */
  lemma PurgerMeetsHolder(s0: State, s: State, p: nat, r: nat, u: string)
    requires Leads(ConsiderateStep, s0, s) && p < |s.procs| && r < |s.procs| && p != r
    requires s.procs[p].pc == WaitInfo(PurgeFile(u)) && OthersOff(s, p)
    requires u in s.dir && s.procs[r].pc.Idle? && s.dir[u] in s.procs[r].held
    ensures Locks(ConsiderateStep, s0)
  {
    hide Leads, Keeps;
    var g := FreshDescriptor(s.procs[p].fds);
    var go := Advance(g, [], false);
    LeadsOn(ConsiderateStep, s0, s, p, go);
    var s1 := Step(s, p, go).value;
    LeadsOn(ConsiderateStep, s0, s1, p, go);
    var s2 := Step(s1, p, go).value;
    LeadsOn(ConsiderateStep, s0, s2, r, Call(GetSize));
    var s3 := Step(s2, r, Call(GetSize)).value;
    assert WaitsFor(s3, p, r) && WaitsFor(s3, r, p);
  }

  /** Whatever file is to be purged, another process can have it locked by then. */
  lemma PurgeFileLocks(s0: State, p: nat, q: nat, u: string)
    requires p < |s0.procs| && q < |s0.procs| && p != q
    requires s0.procs[p].pc == WaitInfo(PurgeFile(u)) && NoExclusive(s0.procs[p]) && NoExclusive(s0.procs[q])
    requires forall r :: 0 <= r < |s0.procs| ==>
      && s0.procs[r].info.None? && (r != p ==> s0.procs[r].pc.Idle?)
      && forall i :: i in s0.procs[r].held ==> i < s0.unused
    ensures Locks(ConsiderateStep, s0)
  {
    LeadsNowhere(ConsiderateStep, s0);
    hide Leads, Keeps;
    if u !in s0.dir {
      var s := CreatesWhole(s0, s0, q, u);
      PurgerMeetsHolder(s0, s, p, q, u);
    } else if r :| 0 <= r < |s0.procs| && r != p && s0.dir[u] in s0.procs[r].held {
      PurgerMeetsHolder(s0, s0, p, r, u);
    } else {
      var s := ReadsWhole(s0, s0, q, u);
      PurgerMeetsHolder(s0, s, p, q, u);
    }
  }

  // ---------------------------------------------------------------- get_read_lock

  /** The rule without its clause for get_read_lock. */
  predicate AlsoReads(s: State, p: nat, e: Event) {
    p < |s.procs| ==> Considerate(s.dir, s.procs[p], e) || (e.Call? && e.op.ReadLock?)
  }

  lemma {:induction false} KeepsMore(s: State, t: Trace)
    requires Keeps(ConsiderateStep, s, t)
    ensures Keeps(AlsoReads, s, t)
    decreases |t|
  {
    hide Step, Considerate;
    if t != [] && Step(s, t[0].0, t[0].1).Some? {
      KeepsMore(Step(s, t[0].0, t[0].1).value, t[1..]);
    }
  }

  lemma LeadsMore(s: State, s1: State)
    requires Leads(ConsiderateStep, s, s1)
    ensures Leads(AlsoReads, s, s1)
  {
    var t: Trace :| Keeps(ConsiderateStep, s, t) && Exec(s, t) == Some(s1);
    KeepsMore(s, t);
  }

  /** p has created t and comes to read u, q has created u and comes to read t. */
  lemma ReadersMeet(s0: State, s: State, p: nat, q: nat, t: string, u: string)
    requires Leads(AlsoReads, s0, s) && p < |s.procs| && q < |s.procs| && p != q
    requires s.procs[p].pc == WaitInfo(ReadLock(u)) && s.procs[q].pc.Idle?
    requires forall r :: 0 <= r < |s.procs| ==> s.procs[r].info.None?
    requires t in s.dir && HoldsX(s.procs[p], s.dir[t])
    requires u in s.dir && HoldsX(s.procs[q], s.dir[u])
    ensures Locks(AlsoReads, s0)
  {
    hide Leads, Keeps, Considerate;
    var g := FreshDescriptor(s.procs[p].fds);
    var h := FreshDescriptor(s.procs[q].fds);
    var goP, goQ := Advance(g, [], false), Advance(h, [], false);
    assert AlsoReads(s, q, Call(ReadLock(t)));
    LeadsOn(AlsoReads, s0, s, q, Call(ReadLock(t)));
    var s1 := Step(s, q, Call(ReadLock(t))).value;
    assert forall s, r, e: Event :: e.Advance? ==> AlsoReads(s, r, e) by { AdvanceKeeps(); }
    LeadsOn(AlsoReads, s0, s1, q, goQ);
    var s2 := Step(s1, q, goQ).value;
    LeadsOn(AlsoReads, s0, s2, q, goQ);
    var s3 := Step(s2, q, goQ).value;
    LeadsOn(AlsoReads, s0, s3, p, goP);
    var s4 := Step(s3, p, goP).value;
    LeadsOn(AlsoReads, s0, s4, p, goP);
    var s5 := Step(s4, p, goP).value;
    assert WaitsFor(s5, p, q) && WaitsFor(s5, q, p);
  }

  lemma AdvanceKeeps()
    ensures forall s, r, e: Event :: e.Advance? ==> AlsoReads(s, r, e)
  {
  }

  /** q has no exclusive locks: it can come to be the creator of u, unless somebody else is
      already, or p has a lock on u. */
  lemma ReadLockLocks(s0: State, p: nat, q: nat, t: string, u: string)
    requires p < |s0.procs| && q < |s0.procs| && p != q && NoExclusive(s0.procs[q])
    requires DirOk(s0.dir, s0.unused)
    requires s0.procs[p].pc == WaitInfo(ReadLock(u)) && s0.procs[p].info.None?
    requires forall r :: 0 <= r < |s0.procs| && r != p ==> AtRest(s0.procs[r])
    requires forall r, i :: 0 <= r < |s0.procs| && i in s0.procs[r].held ==> i < s0.unused
    requires t in s0.dir && HoldsX(s0.procs[p], s0.dir[t]) && !OwnLock(s0.dir, s0.procs[p], u)
    ensures Locks(AlsoReads, s0)
  {
    hide Leads, Keeps, NoExclusive;
    LeadsNowhere(ConsiderateStep, s0);
    if r :| 0 <= r < |s0.procs| && r != p && u in s0.dir && HoldsX(s0.procs[r], s0.dir[u]) {
      LeadsMore(s0, s0);
      ReadersMeet(s0, s0, p, r, t, u);
    } else {
      var s1 := s0;
      if u in s0.dir {
        s1 := AllClose(s0, p, s0.dir[u], |s0.procs|);
        s1 := PurgesWhole(s0, s1, q, u);
      }
      var s2 := CreatesWhole(s0, s1, q, u);
      assert s2.procs[p] == s0.procs[p];
      LeadsMore(s0, s2);
      ReadersMeet(s0, s2, p, q, t, u);
    }
  }

  // ---------------------------------------------------------------- the rules

  /** From any state in which nobody is inside an operation, the files of p's exclusive locks
      are in the directory and some other process has created nothing: a call of p other than
      get_read_lock keeps to the rules if and only if, as long as everybody keeps to them
      afterwards, no two processes ever wait for each other.  A get_read_lock that keeps to the
      rules is just as safe; were it and others like it allowed when it does not, two processes
      could come to wait for each other. */
  lemma ConsiderateExact(s: State, p: nat, q: nat, op: Op)
    requires Inv(s) && Resting(s) && p < |s.procs| && q < |s.procs| && p != q && NoExclusive(s.procs[q])
    requires forall i :: HoldsX(s.procs[p], i) ==> i in s.dir.Values
    ensures var s0 := Step(s, p, Call(op)).value;
      && (Considerate(s.dir, s.procs[p], Call(op)) ==> !Locks(ConsiderateStep, s0))
      && (!Considerate(s.dir, s.procs[p], Call(op)) ==>
            Locks(if op.ReadLock? then AlsoReads else ConsiderateStep, s0))
  {
    var s0 := Step(s, p, Call(op)).value;
    var a := s.procs[p];
    forall r | 0 <= r < |s.procs|
      ensures ProcOk(s.dir, s.unused, s.procs[r]) && AtRest(s.procs[r])
      ensures forall i :: i in s.procs[r].held ==> i < s.unused {
      HeldBelow(s.dir, s.unused, s.procs[r]);
    }
    if Considerate(s.dir, a, Call(op)) {
      StepInv(s, p, Call(op));
      AllCalmStep(s, p, Call(op));
      CalmNeverLocks(s0);
    } else if NoExclusive(a) {
      PurgeFileLocks(s0, p, q, op.target);
    } else {
      var i :| i in a.held && a.held[i] == Exclusive;
      assert HoldsX(a, i);
      var t :| t in s.dir && s.dir[t] == i;
      if op.ReadLock? {
        ReadLockLocks(s0, p, q, t, op.target);
      } else {
        ReaderMeetsCreator(s0, p, q, t);
      }
    }
  }

  lemma CalmNeverLocks(s: State)
    requires Inv(s) && AllCalm(s)
    ensures !Locks(ConsiderateStep, s)
  {
    hide Keeps, Inv, AllCalm;
    forall s1 | Leads(ConsiderateStep, s, s1) ensures !MutualWait(s1) {
      var t: Trace :| Keeps(ConsiderateStep, s, t) && Exec(s, t) == Some(s1);
      CalmRun(s, t);
      forall p, q | 0 <= p < |s1.procs| && 0 <= q < |s1.procs| && WaitsFor(s1, p, q) && WaitsFor(s1, q, p)
        ensures false {
        NoThirdWait(s1, p, q, p, q);
      }
    }
  }
}
