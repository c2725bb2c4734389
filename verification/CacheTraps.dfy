/** Runs that go wrong when a caller does not keep to the rules of CacheRecords and
    CacheProgress. */
module CacheTraps {
  import opened Wrappers
  import opened CacheProtocol
  import opened CacheProgress

  lemma Reach(s: State, p: nat, e: Event, s': State)
    requires Reachable(s) && p < |s.procs| && Step(s, p, e) == Some(s')
    ensures Reachable(s')
  {
    var s0: State, t: Trace :| Init(s0) && Exec(s0, t) == Some(s);
    ExecSnoc((_, _, _) => true, s0, t, p, e);
    assert Init(s0) && Exec(s0, t + [(p, e)]) == Some(s');
  }

  /** Two processes, of which process p is `a` and the other one is `b`. */
  function Duo(dir: map<string, Inode>, unused: Inode, p: nat, a: Proc, b: Proc): State {
    State(dir, unused, if p == 0 then [a, b] else [b, a])
  }

  /** A step of process p that leaves the directory alone. */
  lemma Move(dir: map<string, Inode>, unused: Inode, p: nat, a: Proc, b: Proc, e: Event, a': Proc)
    requires p < 2 && Reachable(Duo(dir, unused, p, a, b))
    requires Step(Duo(dir, unused, p, a, b), p, e) == Some(With(Duo(dir, unused, p, a, b), p, a'))
    ensures Reachable(Duo(dir, unused, p, a', b))
  {
    assert [a, b][0 := a'] == [a', b] && [b, a][1 := a'] == [b, a'];
    Reach(Duo(dir, unused, p, a, b), p, e, With(Duo(dir, unused, p, a, b), p, a'));
  }

  const GO: Event := Advance(5, [], false)

  const ONE_FILE: map<string, Inode> := map["A" := 0]

  /** A process that has a read lock on the only file. */
  const READER: Proc := Proc(Idle, None, map[5 := 0], map[0 := Shared], map["A" := 5], {})

  lemma InitDuo(dir: map<string, Inode>, unused: Inode)
    requires DirOk(dir, unused)
    ensures Reachable(Duo(dir, unused, 0, NEW_PROC, NEW_PROC))
  {
    var s := Duo(dir, unused, 0, NEW_PROC, NEW_PROC);
    assert Init(s) && Exec(s, []) == Some(s);
  }

  /** get_read_lock while the other process rests or reads too. */
  lemma Reads(p: nat, b: Proc)
    requires p < 2 && Reachable(Duo(ONE_FILE, 1, p, NEW_PROC, b)) && b.info.None?
    requires 0 in b.held ==> b.held[0] == Shared
    ensures Reachable(Duo(ONE_FILE, 1, p, READER, b))
  {
    hide Reachable;
    var a0 := NEW_PROC;
    var a1 := a0.(pc := WaitInfo(ReadLock("A")));
    var a2 := a0.(info := Some(Shared), pc := OpenRead("A"));
    var a3 := a2.(fds := map[5 := 0], pc := WaitRead("A", 5));
    var a4 := a3.(held := map[0 := Shared], records := map["A" := 5], pc := UnlockInfo);
    Move(ONE_FILE, 1, p, a0, b, Call(ReadLock("A")), a1);
    Move(ONE_FILE, 1, p, a1, b, GO, a2);
    Move(ONE_FILE, 1, p, a2, b, GO, a3);
    Move(ONE_FILE, 1, p, a3, b, GO, a4);
    Move(ONE_FILE, 1, p, a4, b, GO, READER);
  }

  /** The second process closes the file it reads. */
  lemma Closes(a: Proc)
    requires Reachable(Duo(ONE_FILE, 1, 1, READER, a))
    ensures Reachable(Duo(ONE_FILE, 1, 1, NEW_PROC, a))
  {
    hide Reachable;
    var b1 := READER.(records := map[], pc := Unlock(5, Idle));
    var b2 := b1.(held := map[], pc := Close(5, Idle));
    Move(ONE_FILE, 1, 1, READER, a, CloseName("A"), b1);
    Move(ONE_FILE, 1, 1, b1, a, GO, b2);
    Move(ONE_FILE, 1, 1, b2, a, GO, NEW_PROC);
  }

  // ---------------------------------------------------------------- a purge loses a read lock

  /** What is left of READER when its own purge has tried the file it reads: closing the
      second descriptor has dropped the lock, but the record stays. */
  const ROBBED: Proc := Proc(Idle, None, map[5 := 0], map[], map["A" := 5], {})

  lemma ReaderPurges()
    requires Reachable(Duo(ONE_FILE, 1, 0, READER, READER))
    ensures Reachable(Duo(ONE_FILE, 1, 0, ROBBED, READER))
  {
    hide Reachable;
    var a1 := READER.(pc := WaitInfo(UpdateAndPurge("")));
    var a2 := READER.(info := Some(Exclusive), pc := Scan(""));
    var a3 := a2.(pc := Loop("", ["A"]));
    var a4 := a2.(fds := map[5 := 0, 6 := 0], pc := TryLock("", "A", 6, []));
    var a5 := a2.(fds := map[5 := 0], held := map[], pc := Loop("", []));
    var a6 := a5.(pc := UnlockInfo);
    Move(ONE_FILE, 1, 0, READER, READER, Call(UpdateAndPurge("")), a1);
    Move(ONE_FILE, 1, 0, a1, READER, GO, a2);
    Move(ONE_FILE, 1, 0, a2, READER, Advance(5, ["A"], false), a3);
    assert ["A"][1..] == [];
    Move(ONE_FILE, 1, 0, a3, READER, Advance(6, [], false), a4);
    assert map[5 := 0, 6 := 0] - {6} == map[5 := 0];
    assert !LockGranted(Duo(ONE_FILE, 1, 0, a4, READER), 0, 0, Exclusive) by {
      assert Duo(ONE_FILE, 1, 0, a4, READER).procs[1] == READER;
    }
    Move(ONE_FILE, 1, 0, a4, READER, GO, a5);
    Move(ONE_FILE, 1, 0, a5, READER, Advance(6, [], false), a6);
    Move(ONE_FILE, 1, 0, a6, READER, GO, ROBBED);
  }

  lemma SecondPurges() returns (b: Proc)
    requires Reachable(Duo(ONE_FILE, 1, 1, NEW_PROC, ROBBED))
    ensures Reachable(Duo(map[], 1, 1, b, ROBBED)) && b.removed == {0}
  {
    hide Reachable;
    var c1 := NEW_PROC.(pc := WaitInfo(UpdateAndPurge("")));
    var c2 := NEW_PROC.(info := Some(Exclusive), pc := Scan(""));
    var c3 := c2.(pc := Loop("", ["A"]));
    var c4 := c2.(fds := map[5 := 0], pc := TryLock("", "A", 5, []));
    var c5 := c4.(held := map[0 := Exclusive], pc := Unlink("", "A", 5, []));
    b := c5.(removed := {0}, pc := Unlock(5, Loop("", [])));
    Move(ONE_FILE, 1, 1, NEW_PROC, ROBBED, Call(UpdateAndPurge("")), c1);
    Move(ONE_FILE, 1, 1, c1, ROBBED, GO, c2);
    Move(ONE_FILE, 1, 1, c2, ROBBED, Advance(5, ["A"], false), c3);
    assert ["A"][1..] == [];
    Move(ONE_FILE, 1, 1, c3, ROBBED, GO, c4);
    Move(ONE_FILE, 1, 1, c4, ROBBED, GO, c5);
    assert ONE_FILE - {"A"} == map[] && [ROBBED, c5][1 := b] == [ROBBED, b] && c5.removed + {0} == {0};
    Reach(Duo(ONE_FILE, 1, 1, c5, ROBBED), 1, GO, Duo(map[], 1, 1, b, ROBBED));
  }

  /** Without the rule for purging, a file can go away while a process still has it on record:
      two processes read it, the first purges and so loses its lock unawares, the second closes
      its copy and purges. */
  lemma PurgingWhileReading() returns (s: State)
    ensures Reachable(s) && |s.procs| == 2
    ensures "A" in s.procs[0].records && "A" !in s.dir
    ensures s.procs[0].held == map[] && s.procs[0].removed == {} && 0 in s.procs[1].removed
  {
    hide Reachable;
    InitDuo(ONE_FILE, 1);
    Reads(0, NEW_PROC);
    assert Duo(ONE_FILE, 1, 0, READER, NEW_PROC) == Duo(ONE_FILE, 1, 1, NEW_PROC, READER);
    Reads(1, READER);
    assert Duo(ONE_FILE, 1, 1, READER, READER) == Duo(ONE_FILE, 1, 0, READER, READER);
    ReaderPurges();
    assert Duo(ONE_FILE, 1, 0, ROBBED, READER) == Duo(ONE_FILE, 1, 1, READER, ROBBED);
    Closes(ROBBED);
    var b := SecondPurges();
    s := Duo(map[], 1, 1, b, ROBBED);
  }

  // ---------------------------------------------------------------- deadlocks

  /** Nobody can take any step. */
  ghost predicate Stuck(s: State) {
    forall p, e :: 0 <= p < |s.procs| ==> Step(s, p, e).None?
  }

  /** A creator that goes on to a cache-wide call without downgrading, and a reader that has
      locked the info file and waits for the new file. */
  lemma DeadlockWithoutDowngrade() returns (s: State)
    ensures Reachable(s) && |s.procs| == 2 && Stuck(s) && WaitsFor(s, 0, 1) && WaitsFor(s, 1, 0)
  {
    hide Reachable;
    var a1 := NEW_PROC.(pc := WaitInfo(CreateAndLock("A")));
    var a2 := NEW_PROC.(info := Some(Exclusive), pc := Create("A"));
    var a3 := a2.(fds := map[5 := 0], pc := WaitCreate("A", 5));
    var a4 := a3.(held := map[0 := Exclusive], records := map["A" := 5], pc := UnlockInfo);
    var a5 := a4.(info := None, pc := Idle);
    var a6 := a5.(pc := WaitInfo(UpdateInfo));
    var b1 := NEW_PROC.(pc := WaitInfo(ReadLock("A")));
    var b2 := NEW_PROC.(info := Some(Shared), pc := OpenRead("A"));
    var b3 := b2.(fds := map[5 := 0], pc := WaitRead("A", 5));
    InitDuo(map[], 0);
    Move(map[], 0, 0, NEW_PROC, NEW_PROC, Call(CreateAndLock("A")), a1);
    Move(map[], 0, 0, a1, NEW_PROC, GO, a2);
    assert [a2, NEW_PROC][0 := a3] == [a3, NEW_PROC];
    Reach(Duo(map[], 0, 0, a2, NEW_PROC), 0, GO, Duo(ONE_FILE, 1, 0, a3, NEW_PROC));
    Move(ONE_FILE, 1, 0, a3, NEW_PROC, GO, a4);
    Move(ONE_FILE, 1, 0, a4, NEW_PROC, GO, a5);
    assert Duo(ONE_FILE, 1, 0, a5, NEW_PROC) == Duo(ONE_FILE, 1, 1, NEW_PROC, a5);
    Move(ONE_FILE, 1, 1, NEW_PROC, a5, Call(ReadLock("A")), b1);
    Move(ONE_FILE, 1, 1, b1, a5, GO, b2);
    Move(ONE_FILE, 1, 1, b2, a5, GO, b3);
    assert Duo(ONE_FILE, 1, 1, b3, a5) == Duo(ONE_FILE, 1, 0, a5, b3);
    Move(ONE_FILE, 1, 0, a5, b3, Call(UpdateInfo), a6);
    s := Duo(ONE_FILE, 1, 0, a6, b3);
    assert s.procs[0] == a6 && s.procs[1] == b3;
    assert !InfoGranted(s, 0, Exclusive) && !LockGranted(s, 1, 0, Shared);
  }

  /** purge_file waits for a file while it has the info file locked, so a reader of that file
      cannot start anything else. */
  lemma DeadlockWithPurgeFile() returns (s: State)
    ensures Reachable(s) && |s.procs| == 2 && Stuck(s) && WaitsFor(s, 0, 1) && WaitsFor(s, 1, 0)
  {
    hide Reachable;
    var b1 := NEW_PROC.(pc := WaitInfo(PurgeFile("A")));
    var b2 := NEW_PROC.(info := Some(Exclusive), pc := PurgeOpen("A"));
    var b3 := b2.(fds := map[5 := 0], pc := PurgeWait("A", 5));
    var a1 := READER.(pc := WaitInfo(GetSize));
    InitDuo(ONE_FILE, 1);
    Reads(0, NEW_PROC);
    assert Duo(ONE_FILE, 1, 0, READER, NEW_PROC) == Duo(ONE_FILE, 1, 1, NEW_PROC, READER);
    Move(ONE_FILE, 1, 1, NEW_PROC, READER, Call(PurgeFile("A")), b1);
    Move(ONE_FILE, 1, 1, b1, READER, GO, b2);
    Move(ONE_FILE, 1, 1, b2, READER, GO, b3);
    assert Duo(ONE_FILE, 1, 1, b3, READER) == Duo(ONE_FILE, 1, 0, READER, b3);
    Move(ONE_FILE, 1, 0, READER, b3, Call(GetSize), a1);
    s := Duo(ONE_FILE, 1, 0, a1, b3);
    assert s.procs[0] == a1 && s.procs[1] == b3;
    assert !InfoGranted(s, 0, Shared) && !LockGranted(s, 1, 0, Exclusive);
  }
}
