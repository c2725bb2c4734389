/** The rules of CacheRecords are exact: each call that they forbid can be continued, by
    processes that keep to the rules, until a record is false. */
module CacheRecordRules {
  import opened Wrappers
  import opened CacheProtocol
  import opened CacheRecords

  ghost predicate RecordsTrue(s: State) {
    forall q, n :: 0 <= q < |s.procs| && n in s.procs[q].records ==> TrueRecord(s.dir, s.procs[q], n)
  }

  /** Some run within the rules makes a record false. */
  ghost predicate GoesWrong(s: State) { exists s1 :: Leads(CarefulStep, s, s1) && !RecordsTrue(s1) }

  lemma WrongNow(s: State, s1: State, q: nat, n: string)
    requires Leads(CarefulStep, s, s1) && q < |s1.procs|
    requires n in s1.procs[q].records && !TrueRecord(s1.dir, s1.procs[q], n)
    ensures GoesWrong(s)
  {
    assert !RecordsTrue(s1);
  }

  // ---------------------------------------------------------------- closing by descriptor

  lemma CloseWrong(s: State, p: nat, f: Fd)
    requires p < |s.procs| && s.procs[p].pc.Idle? && Tidy(s.dir, s.procs[p])
    requires f in s.procs[p].fds && !Spare(s.procs[p], f)
    ensures GoesWrong(Step(s, p, CloseFd(f)).value)
  {
    hide Leads, Keeps, PcTidy;
    var a := s.procs[p];
    var n :| n in a.records && (a.records[n] == f || (a.records[n] in a.fds && a.fds[a.records[n]] == a.fds[f]));
    assert TrueRecord(s.dir, a, n);
    var s1 := Step(s, p, CloseFd(f)).value;
    var e := Advance(0, [], false);
    LeadsNowhere(CarefulStep, s1);
    LeadsOn(CarefulStep, s1, s1, p, e);
    WrongNow(s1, Step(s1, p, e).value, p, n);
  }

  // ---------------------------------------------------------------- purging with other files on record

  /** The purge looks at the recorded file m: it removes it, or loses its lock on it. */
  lemma PurgeWrong(s: State, p: nat, n: string, m: string)
    requires p < |s.procs| && s.procs[p].pc.Idle? && TrueRecord(s.dir, s.procs[p], m) && m != n
    requires InfoGranted(s, p, Exclusive)
    ensures GoesWrong(Step(s, p, Call(UpdateAndPurge(n))).value)
  {
    var a := s.procs[p];
    var g := FreshDescriptor(a.fds);
    var s1 := Step(s, p, Call(UpdateAndPurge(n))).value;
    var go := Advance(g, [m], false);
    LeadsNowhere(CarefulStep, s1);
    hide Leads, Keeps, LockGranted;
    LeadsOn(CarefulStep, s1, s1, p, go);
    var s2 := Step(s1, p, go).value;
    LeadsOn(CarefulStep, s1, s2, p, go);
    var s3 := Step(s2, p, go).value;
    LeadsOn(CarefulStep, s1, s3, p, go);
    var s4 := Step(s3, p, go).value;
    assert s4.procs[p].pc == TryLock(n, m, g, []) && s4.procs[p].fds[g] == s.dir[m] && s4.dir == s.dir;
    assert s4.procs[p].records == a.records;
    hide InfoGranted;
    TryWrong(s1, s4, p, m);
  }

  lemma TryWrong(s1: State, s: State, p: nat, m: string)
    requires Leads(CarefulStep, s1, s) && p < |s.procs| && m in s.procs[p].records
    requires var a := s.procs[p]; a.pc.TryLock? && a.pc.target == m && On(s.dir, a, m, a.pc.fd)
    ensures GoesWrong(s1)
  {
    hide Leads, Keeps, LockGranted;
    var go := Advance(0, [], false);
    LeadsOn(CarefulStep, s1, s, p, go);
    var s2 := Step(s, p, go).value;
    if s2.procs[p].pc.Unlink? {
      LeadsOn(CarefulStep, s1, s2, p, go);
      WrongNow(s1, Step(s2, p, go).value, p, m);
    } else {
      WrongNow(s1, s2, p, m);
    }
  }

  // ---------------------------------------------------------------- purging a recorded file by name

  /** A resting process gives up its lock on a file, and keeps to the rules. */
  lemma OneReleases(s0: State, s: State, q: nat, i: Inode) returns (s2: State)
    requires Leads(CarefulStep, s0, s) && q < |s.procs|
    requires s.procs[q].pc.Idle? && s.procs[q].info.None? && i in s.procs[q].held
    requires ProcOk(s.dir, s.unused, s.procs[q]) && Tidy(s.dir, s.procs[q])
    ensures Leads(CarefulStep, s0, s2) && s2.dir == s.dir && s2.unused == s.unused && |s2.procs| == |s.procs|
    ensures forall r :: 0 <= r < |s.procs| && r != q ==> s2.procs[r] == s.procs[r]
    ensures s2.procs[q].info.None? && i !in s2.procs[q].held
  {
    hide Leads, Keeps;
    var c := s.procs[q];
    var e: Event;
    if n :| n in c.records && s.dir[n] == i {
      assert TrueRecord(s.dir, c, n);
      e := CloseName(n);
    } else {
      var f :| f in c.fds && c.fds[f] == i;
      forall n | n in c.records ensures c.records[n] != f && c.fds[c.records[n]] != i {
        assert TrueRecord(s.dir, c, n);
      }
      e := CloseFd(f);
    }
    var go := Advance(0, [], false);
    LeadsOn(CarefulStep, s0, s, q, e);
    var s1 := Step(s, q, e).value;
    LeadsOn(CarefulStep, s0, s1, q, go);
    s2 := Step(s1, q, go).value;
  }

  /** The others give up their locks on a file, one after the other. */
  lemma {:induction false} AllRelease(s0: State, p: nat, i: Inode, k: nat) returns (s: State)
    requires p < |s0.procs| && k <= |s0.procs|
    requires forall q :: 0 <= q < |s0.procs| && q != p ==>
      && s0.procs[q].pc.Idle? && s0.procs[q].info.None?
      && ProcOk(s0.dir, s0.unused, s0.procs[q]) && Tidy(s0.dir, s0.procs[q])
    ensures Leads(CarefulStep, s0, s) && s.dir == s0.dir && s.unused == s0.unused
    ensures |s.procs| == |s0.procs| && s.procs[p] == s0.procs[p]
    ensures forall q :: 0 <= q < |s.procs| && q != p ==>
      s.procs[q].info.None? && (q < k ==> i !in s.procs[q].held) && (q >= k ==> s.procs[q] == s0.procs[q])
    decreases k
  {
    hide Leads, Keeps, Tidy, ProcOk;
    if k == 0 {
      LeadsNowhere(CarefulStep, s0);
      s := s0;
    } else {
      s := AllRelease(s0, p, i, k - 1);
      if k - 1 != p && i in s.procs[k - 1].held {
        assert s.procs[k - 1] == s0.procs[k - 1];
        s := OneReleases(s0, s, k - 1, i);
      }
    }
  }

  lemma PurgeFileWrong(s: State, p: nat, t: string)
    requires Inv(s) && AllTidy(s) && Resting(s) && p < |s.procs| && t in s.procs[p].records
    ensures GoesWrong(Step(s, p, Call(PurgeFile(t))).value)
  {
    hide Leads, Keeps;
    var a := s.procs[p];
    forall q | 0 <= q < |s.procs| ensures ProcOk(s.dir, s.unused, s.procs[q]) && Tidy(s.dir, s.procs[q]) {
    }
    assert TrueRecord(s.dir, a, t);
    var s0 := Step(s, p, Call(PurgeFile(t))).value;
    var s1 := AllRelease(s0, p, s.dir[t], |s.procs|);
    var g := FreshDescriptor(a.fds);
    var go := Advance(g, [], false);
    LeadsOn(CarefulStep, s0, s1, p, go);
    var s2 := Step(s1, p, go).value;
    LeadsOn(CarefulStep, s0, s2, p, go);
    var s3 := Step(s2, p, go).value;
    LeadsOn(CarefulStep, s0, s3, p, go);
    var s4 := Step(s3, p, go).value;
    LeadsOn(CarefulStep, s0, s4, p, go);
    WrongNow(s0, Step(s4, p, go).value, p, t);
  }

  // ---------------------------------------------------------------- the rules

  /** From any state with true records in which nobody is inside an operation, a call keeps to
      the rules if and only if, as long as everybody keeps to them afterwards, every record of
      every process stays true. */
  lemma CarefulExact(s: State, p: nat, e: Event)
    requires Inv(s) && AllTidy(s) && Resting(s) && p < |s.procs| && Step(s, p, e).Some?
    ensures Careful(s.procs[p], e) <==>
      forall s1 :: Leads(CarefulStep, Step(s, p, e).value, s1) ==> RecordsTrue(s1)
  {
    var s0 := Step(s, p, e).value;
    if Careful(s.procs[p], e) {
      forall s1 | Leads(CarefulStep, s0, s1) ensures RecordsTrue(s1) {
        StepInv(s, p, e);
        TidyStep(s, p, e);
        var t: Trace :| Keeps(CarefulStep, s0, t) && Exec(s0, t) == Some(s1);
        TidyRun(s0, t);
        forall q, n | 0 <= q < |s1.procs| && n in s1.procs[q].records ensures TrueRecord(s1.dir, s1.procs[q], n) {
          assert Tidy(s1.dir, s1.procs[q]);
        }
      }
    } else {
      assert GoesWrong(s0) by {
        if e.CloseFd? {
          assert Tidy(s.dir, s.procs[p]);
          CloseWrong(s, p, e.fd);
        } else if e.op.UpdateAndPurge? {
          assert forall q :: 0 <= q < |s.procs| ==> ProcOk(s.dir, s.unused, s.procs[q]);
          var m :| m in s.procs[p].records && m != e.op.newFile;
          assert Tidy(s.dir, s.procs[p]);
          PurgeWrong(s, p, e.op.newFile, m);
        } else {
          PurgeFileWrong(s, p, e.op.target);
        }
      }
    }
  }
}
