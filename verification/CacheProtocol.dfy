/** The locking protocol of DAPCache3 as a state machine: several processes, each inside at
    most one cache operation, take single open, fcntl, unlink and close steps in any order.
    Locks follow POSIX fcntl(): they belong to a process and an inode, a process's own locks
    never stand in its way, and closing any descriptor of an inode drops all the locks the
    process has on it. */
module CacheProtocol {
  import opened Wrappers

  type Inode = nat
  type Fd = nat

  datatype Mode = Shared | Exclusive

  /** The operations that begin by locking the cache info file. */
  datatype Op =
    | ReadLock(target: string)
    | CreateAndLock(target: string)
    | UpdateInfo
    | GetSize
    | UpdateAndPurge(newFile: string)
    | PurgeFile(target: string)

  /** Where a process is.  `Unlock` and `Close` are the two steps of unlock(fd); `next` is
      what follows them. */
  datatype Pc =
    | Idle
    | WaitInfo(op: Op)
    | OpenRead(target: string) | WaitRead(target: string, fd: Fd)
    | Create(target: string) | WaitCreate(target: string, fd: Fd)
    | Scan(newFile: string) | Loop(newFile: string, rest: seq<string>)
    | TryLock(newFile: string, target: string, fd: Fd, rest: seq<string>)
    | Unlink(newFile: string, target: string, fd: Fd, rest: seq<string>)
    | PurgeOpen(target: string) | PurgeWait(target: string, fd: Fd) | PurgeUnlink(target: string, fd: Fd)
    | PurgeSize
    | Unlock(fd: Fd, next: Pc) | Close(fd: Fd, next: Pc)
    | UnlockInfo

  /** A process: its lock on the info file, its open descriptors of cached files, its locks
      on their inodes, d_locks, and the inodes it has unlinked so far. */
  datatype Proc = Proc(pc: Pc, info: Option<Mode>, fds: map<Fd, Inode>, held: map<Inode, Mode>,
                       records: map<string, Fd>, removed: set<Inode>)

  /** The cache directory and the processes that share it. */
  datatype State = State(dir: map<string, Inode>, unused: Inode, procs: seq<Proc>)

  const NEW_PROC: Proc := Proc(Idle, None, map[], map[], map[], {})

  /** What a process does next.  An advance carries the choices the system makes: the number
      of a new descriptor, the order of a directory scan, and whether the purge has reached
      its target. */
  datatype Event =
    | Call(op: Op)
    | Downgrade(fd: Fd)
    | CloseName(name: string)
    | CloseFd(fd: Fd)
    | Advance(newFd: Fd, scan: seq<string>, stop: bool)

  // ---------------------------------------------------------------- locks

  predicate InfoGranted(s: State, p: nat, m: Mode) {
    forall q :: 0 <= q < |s.procs| && q != p ==>
      s.procs[q].info.None? || (m == Shared && s.procs[q].info == Some(Shared))
  }

  predicate LockGranted(s: State, p: nat, i: Inode, m: Mode) {
    forall q :: 0 <= q < |s.procs| && q != p && i in s.procs[q].held ==>
      m == Shared && s.procs[q].held[i] == Shared
  }

  function InfoMode(op: Op): Mode {
    if op.ReadLock? || op.GetSize? then Shared else Exclusive
  }

  /** The first step after the info file is locked. */
  function First(op: Op): Pc {
    match op
    case ReadLock(t) => OpenRead(t)
    case CreateAndLock(t) => Create(t)
    case UpdateInfo => UnlockInfo
    case GetSize => UnlockInfo
    case UpdateAndPurge(n) => Scan(n)
    case PurgeFile(t) => PurgeOpen(t)
  }

  /** d_locks is a std::map, and insert() does not replace. */
  function Recorded(records: map<string, Fd>, name: string, f: Fd): map<string, Fd> {
    if name in records then records else records[name := f]
  }

  function Drop(held: map<Inode, Mode>, i: Inode): map<Inode, Mode> { held - {i} }

  // ---------------------------------------------------------------- steps

  function With(s: State, p: nat, a: Proc): State
    requires p < |s.procs|
  {
    s.(procs := s.procs[p := a])
  }

  /** The calls a process may make between operations. */
  function StepIdle(a: Proc, e: Event): Option<Proc> {
    match e
    case Call(op) => Some(a.(pc := WaitInfo(op)))
    case Downgrade(f) =>
      if f in a.fds && a.fds[f] in a.held && a.held[a.fds[f]] == Exclusive
      then Some(a.(held := a.held[a.fds[f] := Shared])) else None
    case CloseName(n) =>
      if n in a.records then Some(a.(records := a.records - {n}, pc := Unlock(a.records[n], Idle))) else None
    case CloseFd(f) => if f in a.fds then Some(a.(pc := Unlock(f, Idle))) else None
    case Advance(_, _, _) => None
  }

  /** unlock(fd): F_UNLCK and then close; both fail on a descriptor that is not open. */
  function StepUnlock(a: Proc): Proc
    requires a.pc.Unlock? || a.pc.Close?
  {
    var f, next := a.pc.fd, a.pc.next;
    if f !in a.fds then a.(pc := if next.Idle? then Idle else UnlockInfo)
    else if a.pc.Unlock? then a.(held := Drop(a.held, a.fds[f]), pc := Close(f, next))
    else a.(held := Drop(a.held, a.fds[f]), fds := a.fds - {f}, pc := next)
  }

  /** The loop of update_and_purge looks at its next entry. */
  function StepLoop(dir: map<string, Inode>, a: Proc, newFd: Fd, stop: bool): Proc
    requires a.pc.Loop?
  {
    var rest := a.pc.rest;
    if stop || rest == [] then a.(pc := UnlockInfo)
    else if rest[0] == a.pc.newFile || rest[0] !in dir then a.(pc := Loop(a.pc.newFile, rest[1..]))
    else a.(fds := a.fds[newFd := dir[rest[0]]], pc := TryLock(a.pc.newFile, rest[0], newFd, rest[1..]))
  }

  /** The next step may open a file. */
  predicate Opens(pc: Pc) { pc.OpenRead? || pc.Create? || pc.Loop? || pc.PurgeOpen? }

  /** One step of process p, or None when e is not a step it can take now. */
  function Step(s: State, p: nat, e: Event): Option<State>
    requires p < |s.procs|
  {
    var a := s.procs[p];
    if a.pc.Idle? then
      match StepIdle(a, e) case None => None case Some(b) => Some(With(s, p, b))
    else if !e.Advance? || (Opens(a.pc) && e.newFd in a.fds) then None
    else match a.pc
      case Idle => None
      case WaitInfo(op) =>
        if InfoGranted(s, p, InfoMode(op))
        then Some(With(s, p, a.(info := Some(InfoMode(op)), pc := First(op)))) else None
      case OpenRead(t) =>
        Some(With(s, p, if t in s.dir then a.(fds := a.fds[e.newFd := s.dir[t]], pc := WaitRead(t, e.newFd))
                        else a.(pc := UnlockInfo)))
      case WaitRead(t, f) =>
        if f in a.fds && LockGranted(s, p, a.fds[f], Shared)
        then Some(With(s, p, a.(held := a.held[a.fds[f] := Shared], records := Recorded(a.records, t, f),
                                pc := UnlockInfo)))
        else None
      case Create(t) =>
        if t in s.dir then Some(With(s, p, a.(pc := UnlockInfo)))
        else Some(With(s, p, a.(fds := a.fds[e.newFd := s.unused], pc := WaitCreate(t, e.newFd)))
                  .(dir := s.dir[t := s.unused], unused := s.unused + 1))
      case WaitCreate(t, f) =>
        if f in a.fds && LockGranted(s, p, a.fds[f], Exclusive)
        then Some(With(s, p, a.(held := a.held[a.fds[f] := Exclusive], records := Recorded(a.records, t, f),
                                pc := UnlockInfo)))
        else None
      case Scan(n) =>
        if forall x :: x in e.scan ==> x in s.dir then Some(With(s, p, a.(pc := Loop(n, e.scan)))) else None
      case Loop(_, _) => Some(With(s, p, StepLoop(s.dir, a, e.newFd, e.stop)))
      case TryLock(n, t, f, rest) =>
        if f !in a.fds then None
        else if LockGranted(s, p, a.fds[f], Exclusive)
        then Some(With(s, p, a.(held := a.held[a.fds[f] := Exclusive], pc := Unlink(n, t, f, rest))))
        else Some(With(s, p, a.(held := Drop(a.held, a.fds[f]), fds := a.fds - {f}, pc := Loop(n, rest))))
      case Unlink(n, t, f, rest) =>
        if t !in s.dir then None
        else Some(With(s, p, a.(removed := a.removed + {s.dir[t]}, pc := Unlock(f, Loop(n, rest))))
                  .(dir := s.dir - {t}))
      case PurgeOpen(t) =>
        Some(With(s, p, if t in s.dir then a.(fds := a.fds[e.newFd := s.dir[t]], pc := PurgeWait(t, e.newFd))
                        else a.(pc := UnlockInfo)))
      case PurgeWait(t, f) =>
        if f in a.fds && LockGranted(s, p, a.fds[f], Exclusive)
        then Some(With(s, p, a.(held := a.held[a.fds[f] := Exclusive], pc := PurgeUnlink(t, f)))) else None
      case PurgeUnlink(t, f) =>
        if t !in s.dir then None
        else Some(With(s, p, a.(removed := a.removed + {s.dir[t]}, pc := Unlock(f, PurgeSize)))
                  .(dir := s.dir - {t}))
      case PurgeSize =>
        if InfoGranted(s, p, Shared) then Some(With(s, p, a.(info := Some(Shared), pc := UnlockInfo))) else None
      case Unlock(_, _) => Some(With(s, p, StepUnlock(a)))
      case Close(_, _) => Some(With(s, p, StepUnlock(a)))
      case UnlockInfo => Some(With(s, p, a.(info := None, pc := Idle)))
  }

  /** A run: who steps, and how. */
  type Trace = seq<(nat, Event)>

  function Exec(s: State, t: Trace): Option<State>
    decreases |t|
  {
    if t == [] then Some(s)
    else if t[0].0 >= |s.procs| then None
    else match Step(s, t[0].0, t[0].1)
      case None => None
      case Some(s1) => Exec(s1, t[1..])
  }

  /** Every step of the run is one that the rule allows. */
  predicate Keeps(rule: (State, nat, Event) -> bool, s: State, t: Trace)
    decreases |t|
  {
    t == []
    || (t[0].0 < |s.procs| && rule(s, t[0].0, t[0].1)
        && match Step(s, t[0].0, t[0].1)
           case None => true
           case Some(s1) => Keeps(rule, s1, t[1..]))
  }

  /** Some run within the rule goes from s to s1. */
  ghost predicate Leads(rule: (State, nat, Event) -> bool, s: State, s1: State) {
    exists t: Trace :: Keeps(rule, s, t) && Exec(s, t) == Some(s1)
  }

  lemma LeadsNowhere(rule: (State, nat, Event) -> bool, s: State)
    ensures Leads(rule, s, s)
  {
    assert Keeps(rule, s, []) && Exec(s, []) == Some(s);
  }

  lemma {:induction false} ExecSnoc(rule: (State, nat, Event) -> bool, s: State, t: Trace, p: nat, e: Event)
    requires Exec(s, t).Some? && p < |Exec(s, t).value.procs|
    ensures Exec(s, t + [(p, e)]) == Step(Exec(s, t).value, p, e)
    ensures Keeps(rule, s, t) && rule(Exec(s, t).value, p, e) ==> Keeps(rule, s, t + [(p, e)])
    decreases |t|
  {
    if t == [] {
      var one := [(p, e)];
      assert [] + one == one && one[1..] == [];
    } else {
      assert (t + [(p, e)])[0] == t[0] && (t + [(p, e)])[1..] == t[1..] + [(p, e)];
      ExecSnoc(rule, Step(s, t[0].0, t[0].1).value, t[1..], p, e);
    }
  }

  /** One step more. */
  lemma LeadsOn(rule: (State, nat, Event) -> bool, s: State, s1: State, p: nat, e: Event)
    requires Leads(rule, s, s1) && p < |s1.procs| && rule(s1, p, e) && Step(s1, p, e).Some?
    ensures Leads(rule, s, Step(s1, p, e).value)
  {
    var t: Trace :| Keeps(rule, s, t) && Exec(s, t) == Some(s1);
    ExecSnoc(rule, s, t, p, e);
    assert Keeps(rule, s, t + [(p, e)]);
  }

  lemma FreshDescriptor(fds: map<Fd, Inode>) returns (f: Fd)
    ensures f !in fds
  {
    f := Above(fds.Keys);
  }

  lemma Above(ks: set<nat>) returns (n: nat)
    ensures forall k :: k in ks ==> k < n
  {
    n := 0;
    var rest := ks;
    while rest != {}
      invariant rest <= ks
      invariant forall k :: k in ks && k !in rest ==> k < n
    {
      var k :| k in rest;
      rest := rest - {k};
      if n <= k { n := k + 1; }
    }
  }

  /** Nobody is inside an operation. */
  predicate Resting(s: State) { forall p :: 0 <= p < |s.procs| ==> s.procs[p].pc.Idle? }

  /** Any number of processes that have done nothing, and any files with distinct inodes. */
  predicate Init(s: State) {
    && DirOk(s.dir, s.unused)
    && forall p :: 0 <= p < |s.procs| ==> s.procs[p] == NEW_PROC
  }

  predicate DirOk(dir: map<string, Inode>, unused: Inode) {
    && (forall n :: n in dir ==> dir[n] < unused)
    && (forall m, n :: m in dir && n in dir && m != n ==> dir[m] != dir[n])
  }

  // ---------------------------------------------------------------- invariant

  /** The name still leads to the inode that the descriptor was opened on. */
  predicate On(dir: map<string, Inode>, a: Proc, t: string, f: Fd) {
    f in a.fds && t in dir && dir[t] == a.fds[f]
  }

  predicate PcOk(dir: map<string, Inode>, a: Proc) {
    match a.pc
    case Idle => a.info.None?
    case WaitInfo(_) => a.info.None?
    case OpenRead(_) => a.info == Some(Shared)
    case WaitRead(t, f) => a.info == Some(Shared) && On(dir, a, t, f)
    case Create(_) => a.info == Some(Exclusive)
    case WaitCreate(t, f) => a.info == Some(Exclusive) && On(dir, a, t, f)
    case Scan(_) => a.info == Some(Exclusive)
    case Loop(_, _) => a.info == Some(Exclusive)
    case TryLock(_, t, f, _) => a.info == Some(Exclusive) && On(dir, a, t, f)
    case Unlink(_, t, f, _) => a.info == Some(Exclusive) && On(dir, a, t, f) && HoldsX(a, a.fds[f])
    case PurgeOpen(_) => a.info == Some(Exclusive)
    case PurgeWait(t, f) => a.info == Some(Exclusive) && On(dir, a, t, f)
    case PurgeUnlink(t, f) => a.info == Some(Exclusive) && On(dir, a, t, f) && HoldsX(a, a.fds[f])
    case PurgeSize => a.info == Some(Exclusive)
    case Unlock(_, next) => NextOk(a, next)
    case Close(_, next) => NextOk(a, next)
    case UnlockInfo => true
  }

  predicate NextOk(a: Proc, next: Pc) {
    (next.Idle? && a.info.None?) || ((next.Loop? || next.PurgeSize?) && a.info == Some(Exclusive))
  }

  predicate HoldsX(a: Proc, i: Inode) { i in a.held && a.held[i] == Exclusive }

  /** One process by itself: its locks are on open descriptors, and on files that are still
      in the directory or that it removed itself. */
  predicate ProcOk(dir: map<string, Inode>, unused: Inode, a: Proc) {
    && PcOk(dir, a)
    && (forall f :: f in a.fds ==> a.fds[f] < unused)
    && (forall i :: i in a.held ==> i in a.fds.Values && (i in dir.Values || i in a.removed))
  }

  /** Two processes: an exclusive holder of anything is its only holder, and nobody has a lock
      on a file that is being created. */
  predicate Compatible(a: Proc, b: Proc) {
    && (a.info == Some(Exclusive) ==> b.info.None?)
    && (forall i :: HoldsX(a, i) ==> i !in b.held)
    && (a.pc.WaitCreate? && a.pc.fd in a.fds ==> a.fds[a.pc.fd] !in b.held)
  }

  predicate Inv(s: State) {
    && DirOk(s.dir, s.unused)
    && (forall p :: 0 <= p < |s.procs| ==> ProcOk(s.dir, s.unused, s.procs[p]))
    && (forall p, q :: 0 <= p < |s.procs| && 0 <= q < |s.procs| && p != q ==>
          Compatible(s.procs[p], s.procs[q]))
  }

  /** How the invariant is shown to survive a step of p from a to b. */
  lemma InvFromParts(s: State, s': State, p: nat)
    requires Inv(s) && p < |s.procs| && |s'.procs| == |s.procs|
    requires forall q :: 0 <= q < |s.procs| && q != p ==> s'.procs[q] == s.procs[q]
    requires DirOk(s'.dir, s'.unused) && ProcOk(s'.dir, s'.unused, s'.procs[p])
    requires forall q :: 0 <= q < |s.procs| && q != p ==>
      && ProcOk(s'.dir, s'.unused, s.procs[q])
      && Compatible(s'.procs[p], s.procs[q]) && Compatible(s.procs[q], s'.procs[p])
    ensures Inv(s')
  {
    hide ProcOk, Compatible, DirOk;
  }

  /** A step that leaves the directory alone. */
  lemma LocalStep(s: State, p: nat, b: Proc)
    requires Inv(s) && p < |s.procs|
    requires ProcOk(s.dir, s.unused, b)
    requires forall q :: 0 <= q < |s.procs| && q != p ==>
      Compatible(b, s.procs[q]) && Compatible(s.procs[q], b)
    ensures Inv(With(s, p, b))
  {
    hide ProcOk, Compatible, DirOk;
    InvFromParts(s, With(s, p, b), p);
  }

  /** Giving up locks and moving on cannot hurt the others. */
  lemma Weaker(a: Proc, b: Proc, c: Proc)
    requires Compatible(a, c) && Compatible(c, a)
    requires b.info == a.info || b.info.None? || (a.info == Some(Exclusive) && b.info == Some(Shared))
    requires forall i :: i in b.held ==> i in a.held && (b.held[i] == a.held[i] || b.held[i] == Shared)
    requires !b.pc.WaitCreate?
    ensures Compatible(b, c) && Compatible(c, b)
  {
  }

  /** A new exclusive or shared lock that was granted. */
  lemma Granted(s: State, p: nat, a: Proc, b: Proc, i: Inode, m: Mode)
    requires p < |s.procs| && a == s.procs[p] && Inv(s) && LockGranted(s, p, i, m)
    requires b.held == a.held[i := m] && b.info == a.info && !b.pc.WaitCreate?
    requires a.info.Some?
    ensures forall q :: 0 <= q < |s.procs| && q != p ==>
      Compatible(b, s.procs[q]) && Compatible(s.procs[q], b)
  {
    forall q | 0 <= q < |s.procs| && q != p
      ensures Compatible(b, s.procs[q]) && Compatible(s.procs[q], b) {
      var c := s.procs[q];
      assert Compatible(a, c) && Compatible(c, a) && ProcOk(s.dir, s.unused, c);
    }
  }

  lemma StepInv(s: State, p: nat, e: Event)
    requires Inv(s) && p < |s.procs| && Step(s, p, e).Some?
    ensures Inv(Step(s, p, e).value)
  {
    var a := s.procs[p];
    var s' := Step(s, p, e).value;
    assert ProcOk(s.dir, s.unused, a);
    if a.pc.Create? && a.pc.target !in s.dir {
      StepCreate(s, p, e);
    } else if a.pc.Unlink? || a.pc.PurgeUnlink? {
      StepUnlink(s, p, e);
    } else if a.pc.WaitInfo? {
      StepInfo(s, p, e);
    } else if a.pc.WaitRead? || a.pc.WaitCreate? || a.pc.PurgeWait?
              || (a.pc.TryLock? && LockGranted(s, p, a.fds[a.pc.fd], Exclusive)) {
      StepGrant(s, p, e);
    } else if a.pc.Unlock? || a.pc.Close? || a.pc.TryLock? {
      StepClose(s, p, e);
    } else {
      StepMove(s, p, e);
    }
  }

  lemma StepCreate(s: State, p: nat, e: Event)
    requires Inv(s) && p < |s.procs| && Step(s, p, e).Some?
    requires s.procs[p].pc.Create? && s.procs[p].pc.target !in s.dir
    ensures Inv(Step(s, p, e).value)
  {
    var a := s.procs[p];
    var s' := Step(s, p, e).value;
    var t := a.pc.target;
    assert ProcOk(s.dir, s.unused, a);
    assert s'.dir.Values == s.dir.Values + {s.unused} by { MapGrows(s.dir, t, s.unused); }
    MapGrows(a.fds, e.newFd, s.unused);
    forall q | 0 <= q < |s.procs| && q != p
      ensures ProcOk(s'.dir, s'.unused, s.procs[q])
      ensures Compatible(s'.procs[p], s.procs[q]) && Compatible(s.procs[q], s'.procs[p]) {
      var c := s.procs[q];
      assert ProcOk(s.dir, s.unused, c) && Compatible(a, c) && Compatible(c, a);
      assert s.unused !in c.held by { HeldBelow(s.dir, s.unused, c); }
    }
    InvFromParts(s, s', p);
  }

  lemma MapGrows<K, V>(m: map<K, V>, k: K, v: V)
    requires k !in m
    ensures m[k := v].Values == m.Values + {v}
  {
    var n := m[k := v];
    forall x | x in m.Values ensures x in n.Values {
      var j :| j in m && m[j] == x;
      assert n[j] == x;
    }
    assert n[k] == v;
  }

  lemma MapShrinks<K, V>(m: map<K, V>, k: K)
    requires k in m
    ensures forall v :: v in m.Values && v != m[k] ==> v in (m - {k}).Values
  {
    forall v | v in m.Values && v != m[k] ensures v in (m - {k}).Values {
      var j :| j in m && m[j] == v;
      assert (m - {k})[j] == v;
    }
  }

  lemma HeldBelow(dir: map<string, Inode>, unused: Inode, a: Proc)
    requires ProcOk(dir, unused, a)
    ensures forall i :: i in a.held ==> i < unused
  {
  }

  /** A name is unlinked by a process that holds its inode exclusively, so nobody else has a
      lock on it. */
  lemma StepUnlink(s: State, p: nat, e: Event)
    requires Inv(s) && p < |s.procs| && Step(s, p, e).Some?
    requires s.procs[p].pc.Unlink? || s.procs[p].pc.PurgeUnlink?
    ensures Inv(Step(s, p, e).value)
  {
    var a := s.procs[p];
    var s' := Step(s, p, e).value;
    var t := a.pc.target;
    var i := s.dir[t];
    assert ProcOk(s.dir, s.unused, a) && HoldsX(a, i);
    MapShrinks(s.dir, t);
    forall q | 0 <= q < |s.procs| && q != p
      ensures ProcOk(s'.dir, s'.unused, s.procs[q])
      ensures Compatible(s'.procs[p], s.procs[q]) && Compatible(s.procs[q], s'.procs[p]) {
      var c := s.procs[q];
      assert ProcOk(s.dir, s.unused, c) && Compatible(a, c) && Compatible(c, a);
    }
    InvFromParts(s, s', p);
  }

  lemma StepInfo(s: State, p: nat, e: Event)
    requires Inv(s) && p < |s.procs| && Step(s, p, e).Some? && s.procs[p].pc.WaitInfo?
    ensures Inv(Step(s, p, e).value)
  {
    var a := s.procs[p];
    var b := Step(s, p, e).value.procs[p];
    assert ProcOk(s.dir, s.unused, a);
    forall q | 0 <= q < |s.procs| && q != p
      ensures Compatible(b, s.procs[q]) && Compatible(s.procs[q], b) {
      assert Compatible(a, s.procs[q]) && Compatible(s.procs[q], a);
    }
    LocalStep(s, p, b);
  }

  lemma StepGrant(s: State, p: nat, e: Event)
    requires Inv(s) && p < |s.procs| && Step(s, p, e).Some?
    requires var pc := s.procs[p].pc;
      pc.WaitRead? || pc.WaitCreate? || pc.PurgeWait?
      || (pc.TryLock? && pc.fd in s.procs[p].fds && LockGranted(s, p, s.procs[p].fds[pc.fd], Exclusive))
    ensures Inv(Step(s, p, e).value)
  {
    var a := s.procs[p];
    var b := Step(s, p, e).value.procs[p];
    assert ProcOk(s.dir, s.unused, a);
    var i := a.fds[a.pc.fd];
    assert i in a.fds.Values && i in s.dir.Values;
    Granted(s, p, a, b, i, if a.pc.WaitRead? then Shared else Exclusive);
    LocalStep(s, p, b);
  }

  /** Opening or closing one descriptor, and giving up locks. */
  lemma DescriptorsChange(dir: map<string, Inode>, unused: Inode, a: Proc, b: Proc, f: Fd)
    requires ProcOk(dir, unused, a) && PcOk(dir, b) && b.removed == a.removed && b.held.Keys <= a.held.Keys
    requires || b.fds == a.fds
             || (f !in a.fds && f in b.fds && b.fds[f] < unused && b.fds == a.fds[f := b.fds[f]])
             || (f in a.fds && b.fds == a.fds - {f} && a.fds[f] !in b.held)
    ensures ProcOk(dir, unused, b)
  {
    if f in a.fds {
      MapShrinks(a.fds, f);
    } else if f in b.fds {
      MapGrows(a.fds, f, b.fds[f]);
    }
  }

  /** A lock is given up or a descriptor is closed. */
  lemma StepClose(s: State, p: nat, e: Event)
    requires Inv(s) && p < |s.procs| && Step(s, p, e).Some?
    requires var a := s.procs[p];
      a.pc.Unlock? || a.pc.Close?
      || (a.pc.TryLock? && a.pc.fd in a.fds && !LockGranted(s, p, a.fds[a.pc.fd], Exclusive))
    ensures Inv(Step(s, p, e).value)
  {
    hide LockGranted;
    var a := s.procs[p];
    var b := Step(s, p, e).value.procs[p];
    assert ProcOk(s.dir, s.unused, a);
    DescriptorsChange(s.dir, s.unused, a, b, a.pc.fd);
    forall q | 0 <= q < |s.procs| && q != p
      ensures Compatible(b, s.procs[q]) && Compatible(s.procs[q], b) {
      Weaker(a, b, s.procs[q]);
    }
    LocalStep(s, p, b);
  }

  /** A step that takes no lock and closes nothing. */
  lemma StepMove(s: State, p: nat, e: Event)
    requires Inv(s) && p < |s.procs| && Step(s, p, e).Some?
    requires var pc := s.procs[p].pc;
      pc.Idle? || pc.OpenRead? || pc.Scan? || pc.Loop? || pc.PurgeOpen? || pc.PurgeSize? || pc.UnlockInfo?
      || (pc.Create? && pc.target in s.dir)
    ensures Inv(Step(s, p, e).value)
  {
    hide InfoGranted;
    var a := s.procs[p];
    var b := Step(s, p, e).value.procs[p];
    assert ProcOk(s.dir, s.unused, a);
    DescriptorsChange(s.dir, s.unused, a, b, if e.Advance? && Opens(a.pc) then e.newFd else 0);
    forall q | 0 <= q < |s.procs| && q != p
      ensures Compatible(b, s.procs[q]) && Compatible(s.procs[q], b) {
      Weaker(a, b, s.procs[q]);
    }
    LocalStep(s, p, b);
  }

  /** Every reachable state satisfies the invariant. */
  lemma {:induction false} ExecInv(s: State, t: Trace)
    requires Inv(s) && Exec(s, t).Some?
    ensures Inv(Exec(s, t).value)
    decreases |t|
  {
    if t != [] {
      StepInv(s, t[0].0, t[0].1);
      ExecInv(Step(s, t[0].0, t[0].1).value, t[1..]);
    }
  }

  ghost predicate Reachable(s: State) {
    exists s0: State, t: Trace :: Init(s0) && Exec(s0, t) == Some(s)
  }

  lemma ReachableInv(s: State)
    requires Reachable(s)
    ensures Inv(s)
  {
    var s0: State, t: Trace :| Init(s0) && Exec(s0, t) == Some(s);
    ExecInv(s0, t);
  }

  // ---------------------------------------------------------------- safety

  /** In every reachable state, an exclusive holder of a cached file, or of the info file, is
      the only holder; and whoever holds a lock holds it on a file that is still in the
      directory, unless that very process has unlinked it. */
  lemma LocksExclude(s: State, p: nat, q: nat, i: Inode)
    requires Reachable(s) && p < |s.procs| && q < |s.procs| && p != q
    ensures HoldsX(s.procs[p], i) ==> i !in s.procs[q].held
    ensures s.procs[p].info == Some(Exclusive) ==> s.procs[q].info.None?
    ensures i in s.procs[p].held ==> i in s.dir.Values || i in s.procs[p].removed
  {
    ReachableInv(s);
    assert Compatible(s.procs[p], s.procs[q]) && ProcOk(s.dir, s.unused, s.procs[p]);
  }

  /** Whatever the interleaving, a step that takes a name out of the directory is made by a
      process that holds the info file and the inode exclusively, and no other process has
      any lock on that inode. */
  lemma NeverUnlinkedWhileLocked(s: State, p: nat, e: Event, n: string, q: nat)
    requires Reachable(s) && p < |s.procs| && Step(s, p, e).Some?
    requires n in s.dir && n !in Step(s, p, e).value.dir
    requires q < |s.procs| && q != p
    ensures HoldsX(s.procs[p], s.dir[n]) && s.procs[p].info == Some(Exclusive)
    ensures s.dir[n] !in s.procs[q].held && s.procs[q].info.None?
  {
    ReachableInv(s);
    assert ProcOk(s.dir, s.unused, s.procs[p]) && Compatible(s.procs[p], s.procs[q]);
  }
}
