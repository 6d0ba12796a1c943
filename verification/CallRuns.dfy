/** Whole runs of netsipd/netsipd.cpp: calls stay symmetric, and ports at an address apart. */
module CallRuns {
  import opened Runs
  import opened Options
  import opened Negotiation
  import opened Calls
  import opened Ports

  // ---------------------------------------------------------------- the ping timer

  predicate Overdue(c: Conn, deadline: int) {
    c.ping < deadline
  }

  /** The connection at one descriptor, if it is overdue, is logged out and dropped. */
  ghost function ExpireOne(m: Conns, fd: int, deadline: int): Conns {
    if fd in m && Overdue(m[fd], deadline) && CanEnd(m, fd) then Remove(Logout(m, fd), fd) else m
  }

  ghost function Expire(m: Conns, fds: seq<int>, deadline: int): Conns
    decreases |fds|
  {
    if fds == [] then m else Expire(ExpireOne(m, fds[0], deadline), fds[1..], deadline)
  }

  lemma ExpireOneKeeps(m: Conns, fd: int, deadline: int)
    requires Symmetric(m)
    ensures var n := ExpireOne(m, fd, deadline);
            && Symmetric(n) && n.Keys <= m.Keys
            && (forall g :: g in n ==> n[g].ping == m[g].ping && n[g].peer == m[g].peer && n[g].zombie == m[g].zombie
                                       && (n[g].port == m[g].port || n[g].port == 0))
            && (fd in n ==> !Overdue(n[fd], deadline))
            && (forall g :: g in m && g != fd ==> g in n)
            && (fd in m && !Overdue(m[fd], deadline) ==> fd in n)
  {
    if fd in m && Overdue(m[fd], deadline) {
      SymmetricAt(m, fd);
      LogoutFrees(m, fd);
      DropFreed(m, fd);
    }
  }

  lemma DropFreed(m: Conns, fd: int)
    requires Symmetric(m) && fd in m && CanEnd(m, fd)
    ensures Symmetric(Remove(Logout(m, fd), fd))
  {
    hide Logout;
    LogoutFrees(m, fd);
    SymmetricAt(m, fd);
    forall g | g in m && g != fd
      ensures UserFits(Logout(m, fd)[g])
      ensures Idle(Logout(m, fd)[g]) || Paired(Remove(Logout(m, fd), fd), g)
    {
      SymmetricAt(m, g);
    }
  }

  /** No overdue connection remains, no other is dropped, and calls stay symmetric. */
  lemma {:induction false} ExpireKeeps(m: Conns, fds: seq<int>, deadline: int)
    requires Symmetric(m)
    ensures var n := Expire(m, fds, deadline);
            && Symmetric(n) && n.Keys <= m.Keys
            && (forall g :: g in n ==> n[g].ping == m[g].ping && n[g].peer == m[g].peer && n[g].zombie == m[g].zombie
                                       && (n[g].port == m[g].port || n[g].port == 0))
            && (forall g :: g in m ==> (g in n <==> !(g in fds && Overdue(m[g], deadline))))
    decreases |fds|
  {
    hide ExpireOne, Symmetric;
    if fds != [] {
      ExpireOneKeeps(m, fds[0], deadline);
      ExpireKeeps(ExpireOne(m, fds[0], deadline), fds[1..], deadline);
    }
  }

  // ---------------------------------------------------------------- runs

  datatype Event =
    | Connect(fd: int, peer: Addr, now: int)
    | LI(fd: int, wellFormed: bool, user: Option<User>, local: Addr, version: string)
    | PW(fd: int, wellFormed: bool, hash: string)
    | CA(fd: int, callee: int, cid: Option<nat>)
    | BY(fd: int)
    | Close(fd: int)
    | Pong(fd: int, now: int)
    | ZombieTimer
    | PingTimer(fds: seq<int>, deadline: int)

  /** What the system and the directory keep to: only free descriptors are given out, users are numbered
      from one, and a timer goes through all connections. Anyone may send anything, also after the end. */
  ghost predicate Possible(m: Conns, e: Event) {
    match e
    case Connect(fd, _, _) => fd >= 0 && (fd in m ==> m[fd].zombie)
    case LI(fd, _, user, _, _) => fd in m && (user.Some? ==> user.value.uid > 0)
    case PW(fd, _, _) => fd in m
    case CA(fd, d, _) =>
      && fd in m && m[fd].auth && |m| < MOST
      && d in m && m[d].uid > 0 && IsLast(m, m[d].uid, d) && m[d].connFd < 0
    case BY(fd) => fd in m && m[fd].auth
    case Close(fd) => fd in m
    case Pong(fd, _) => fd in m
    case ZombieTimer => true
    case PingTimer(fds, _) => forall g :: g in m ==> g in fds
  }

  /** What the server does not test of a call, and nothing else warrants: the caller is idle, calls another
      who has logged in, and neither is gone. */
  predicate CallGuard(m: Conns, fd: int, d: int)
    requires fd in m && d in m
  {
    Idle(m[fd]) && d != fd && m[d].auth && !m[fd].zombie && !m[d].zombie
  }

  ghost predicate Guarded(m: Conns, e: Event)
    requires Possible(m, e)
  {
    e.CA? ==> CallGuard(m, e.fd, e.callee)
  }

  ghost predicate Allowed(m: Conns, e: Event) {
    Possible(m, e) && Guarded(m, e)
  }

  ghost function Step(m: Conns, e: Event): Conns {
    if !Possible(m, e) || (exists g :: g in m && !CanEnd(m, g)) then m
    else match e
    case Connect(fd, peer, now) => m[fd := FreshConn(peer, now)]
    case LI(fd, wellFormed, user, local, version) => Login(m, fd, wellFormed, user, local, version)
    case PW(fd, wellFormed, hash) => Password(m, fd, wellFormed, hash)
    case CA(fd, d, cid) => SetUpPorts(m, fd, d, cid)
    case BY(fd) => EndCall(m, fd)
    case Close(fd) => Kill(m, fd)
    case Pong(fd, now) => m[fd := m[fd].(ping := now)]
    case ZombieTimer => Reap(m)
    case PingTimer(fds, deadline) => Expire(m, fds, deadline)
  }

  lemma AllCanEnd(m: Conns)
    requires Symmetric(m)
    ensures forall g :: g in m ==> CanEnd(m, g)
  {
    forall g | g in m
      ensures CanEnd(m, g)
    {
      SymmetricAt(m, g);
    }
  }

  /** Every event but an unguarded call keeps calls symmetric. */
  lemma StepKeepsSymmetric(m: Conns, e: Event)
    requires Symmetric(m) && Allowed(m, e)
    ensures Symmetric(Step(m, e))
  {
    hide Login, Password, EndCall, Kill, Reap, Expire, SetUpPorts, IsLast, Symmetric, CanEnd;
    AllCanEnd(m);
    match e
    case Connect(fd, peer, now) => ConnectKeeps(m, fd, peer, now);
    case LI(fd, wellFormed, user, local, version) => LoginKeeps(m, fd, wellFormed, user, local, version);
    case PW(fd, wellFormed, hash) => PasswordKeeps(m, fd, wellFormed, hash);
    case CA(fd, d, cid) => CallKeepsSymmetric(m, fd, d, cid);
    case BY(fd) => EndCallFrees(m, fd);
    case Close(fd) => KillKeeps(m, fd);
    case Pong(fd, now) => PongKeeps(m, fd, now);
    case ZombieTimer => ReapKeeps(m);
    case PingTimer(fds, deadline) => ExpireKeeps(m, fds, deadline);
  }

  lemma CallKeepsSymmetric(m: Conns, fd: int, d: int, cid: Option<nat>)
    requires Symmetric(m) && fd in m && d in m && |m| < MOST && m[fd].auth && m[d].uid > 0 && m[d].connFd < 0
    requires CallGuard(m, fd, d)
    ensures Symmetric(SetUpPorts(m, fd, d, cid))
  {
    hide SetUp, CallPorts;
    SymmetricAt(m, d);
    SetUpKeeps(m, fd, d, CallPorts(m, fd, d).0, CallPorts(m, fd, d).1, cid);
  }

  /** A call is sound exactly when it is guarded. */
  lemma CallSoundExactly(m: Conns, fd: int, d: int, cid: Option<nat>)
    requires Symmetric(m) && Possible(m, CA(fd, d, cid))
    ensures Sound(Step(m, CA(fd, d, cid)), fd, d) <==> CallGuard(m, fd, d)
  {
    hide SetUp, CallPorts, Sound, IsLast, CanEnd;
    AllCanEnd(m);
    SetUpExact(m, fd, d, CallPorts(m, fd, d).0, CallPorts(m, fd, d).1, cid);
  }

  lemma PongKeeps(m: Conns, fd: int, now: int)
    requires Symmetric(m) && fd in m
    ensures Symmetric(m[fd := m[fd].(ping := now)])
  {
    var n := m[fd := m[fd].(ping := now)];
    forall g | g in n
      ensures UserFits(n[g]) && (Idle(n[g]) || Paired(n, g))
    {
      SymmetricAt(m, g);
    }
  }

  ghost predicate AllAllowed(m: Conns, run: seq<Event>)
    decreases |run|
  {
    run == [] || (Allowed(m, run[0]) && AllAllowed(Step(m, run[0]), run[1..]))
  }

  /** In every run of guarded calls, whatever else is sent, the connections in calls are matched in pairs:
      each has a live partner, not itself, that has it for its partner and the same call number. */
  lemma {:induction false} RunKeepsSymmetric(m: Conns, run: seq<Event>)
    requires Symmetric(m) && AllAllowed(m, run)
    ensures Symmetric(Fold(Step, m, run)) && Matched(Fold(Step, m, run))
    decreases |run|
  {
    hide Step, Symmetric, Allowed, Matched;
    if run == [] {
      SymmetricIsMatched(m);
    } else {
      StepKeepsSymmetric(m, run[0]);
      RunKeepsSymmetric(Step(m, run[0]), run[1..]);
    }
  }

  ghost predicate AllPossible(m: Conns, run: seq<Event>)
    decreases |run|
  {
    run == [] || (Possible(m, run[0]) && AllPossible(Step(m, run[0]), run[1..]))
  }

  /** Every call of the run is sound when it is set up. */
  ghost predicate AllSound(m: Conns, run: seq<Event>)
    decreases |run|
  {
    run == [] || (
      && (run[0].CA? ==> Sound(Step(m, run[0]), run[0].fd, run[0].callee))
      && AllSound(Step(m, run[0]), run[1..]))
  }

  /** Over any run that can happen, all calls are sound exactly when all were guarded. */
  lemma {:induction false} RunSoundExactly(m: Conns, run: seq<Event>)
    requires Symmetric(m) && AllPossible(m, run)
    ensures AllSound(m, run) <==> AllAllowed(m, run)
    decreases |run|
  {
    hide Step, Symmetric, Possible, Sound, CallGuard;
    if run != [] {
      var e := run[0];
      if e.CA? {
        CallSoundExactly(m, e.fd, e.callee, e.cid);
      }
      if Guarded(m, e) {
        StepKeepsSymmetric(m, e);
        RunSoundExactly(Step(m, e), run[1..]);
      }
    }
  }

  // ---------------------------------------------------------------- ports

  /** Fewer connections, or ports given up, but none taken. */
  ghost predicate NoNewPorts(m: Conns, n: Conns) {
    forall g :: g in n ==> n[g].port == 0 || (g in m && n[g].peer == m[g].peer && n[g].port == m[g].port)
  }

  lemma NoNewPortsUnique(m: Conns, n: Conns)
    requires UniquePorts(m) && NoNewPorts(m, n)
    ensures UniquePorts(n)
  {
  }

  lemma KillTakesNoPorts(m: Conns, fd: int)
    requires CanEnd(m, fd)
    ensures NoNewPorts(m, Kill(m, fd)) && NoNewPorts(m, EndCall(m, fd))
  {
  }

  /** The ports found for a call are free at the public addresses. */
  ghost predicate Fits(m: Conns, e: Event) {
    e.CA? && e.fd in m && e.callee in m && |m| < MOST ==> PortsFit(m, e.fd, e.callee)
  }

  lemma QuietStep(m: Conns, e: Event)
    requires Symmetric(m) && Allowed(m, e) && !e.CA?
    ensures NoNewPorts(m, Step(m, e))
  {
    hide Login, Password, EndCall, Kill, Expire, IsLast, Symmetric, CanEnd, SetUpPorts;
    AllCanEnd(m);
    match e
    case PingTimer(fds, deadline) => ExpireKeeps(m, fds, deadline);
    case LI(fd, wellFormed, user, local, version) => LoginTakesNoPorts(m, fd, wellFormed, user, local, version);
    case PW(fd, wellFormed, hash) => PasswordTakesNoPorts(m, fd, wellFormed, hash);
    case BY(fd) => KillTakesNoPorts(m, fd);
    case Close(fd) => KillTakesNoPorts(m, fd);
    case _ =>
  }

  /** An event keeps ports at every address apart exactly when, being a call, its ports fit. */
  lemma StepPortsExact(m: Conns, e: Event)
    requires Symmetric(m) && UniquePorts(m) && Allowed(m, e)
    ensures UniquePorts(Step(m, e)) <==> Fits(m, e)
  {
    hide SetUpPorts, UniquePorts, PortsFit, CanEnd, IsLast;
    AllCanEnd(m);
    if e.CA? {
      SetUpUniqueExact(m, e.fd, e.callee, e.cid);
    } else {
      QuietStep(m, e);
      NoNewPortsUnique(m, Step(m, e));
    }
  }

  lemma LoginTakesNoPorts(m: Conns, fd: int, wellFormed: bool, user: Option<User>, local: Addr, version: string)
    requires CanEnd(m, fd)
    ensures NoNewPorts(m, Login(m, fd, wellFormed, user, local, version))
  {
    hide Kill;
    KillTakesNoPorts(m, fd);
  }

  lemma PasswordTakesNoPorts(m: Conns, fd: int, wellFormed: bool, hash: string)
    requires CanEnd(m, fd)
    ensures NoNewPorts(m, Password(m, fd, wellFormed, hash))
  {
    hide Kill, PasswordOk;
    KillTakesNoPorts(m, fd);
  }

  ghost predicate AlwaysUnique(m: Conns, run: seq<Event>)
    decreases |run|
  {
    UniquePorts(m) && (run == [] || AlwaysUnique(Step(m, run[0]), run[1..]))
  }

  ghost predicate AllFit(m: Conns, run: seq<Event>)
    decreases |run|
  {
    run == [] || (Fits(m, run[0]) && AllFit(Step(m, run[0]), run[1..]))
  }

  /** Over such a run no two connections at one address ever share a port exactly when the ports of every
      call fitted. */
  lemma {:induction false} RunPortsExactly(m: Conns, run: seq<Event>)
    requires Symmetric(m) && UniquePorts(m) && AllAllowed(m, run)
    ensures AlwaysUnique(m, run) <==> AllFit(m, run)
    decreases |run|
  {
    hide Step, Symmetric, Allowed, UniquePorts, Fits;
    if run != [] {
      StepKeepsSymmetric(m, run[0]);
      StepPortsExact(m, run[0]);
      if Fits(m, run[0]) {
        RunPortsExactly(Step(m, run[0]), run[1..]);
      }
    }
  }

  /** A call between different public addresses. */
  predicate Apart(m: Conns, e: Event) {
    e.CA? && e.fd in m && e.callee in m ==> m[e.fd].peer != m[e.callee].peer
  }

  ghost predicate AllApart(m: Conns, run: seq<Event>)
    decreases |run|
  {
    run == [] || (Apart(m, run[0]) && AllApart(Step(m, run[0]), run[1..]))
  }

  /** They do in every run whose calls join different public addresses. */
  lemma {:induction false} RunKeepsPortsApart(m: Conns, run: seq<Event>)
    requires Symmetric(m) && UniquePorts(m) && AllAllowed(m, run) && AllApart(m, run)
    ensures AllFit(m, run) && AlwaysUnique(m, run)
    decreases |run|
  {
    hide Step, Symmetric, Allowed, UniquePorts, PortsFit;
    RunPortsExactly(m, run);
    if run != [] {
      var e := run[0];
      if e.CA? && e.fd in m && e.callee in m && |m| < MOST {
        DifferentAddressesFit(m, e.fd, e.callee);
      }
      StepKeepsSymmetric(m, e);
      StepPortsExact(m, e);
      RunKeepsPortsApart(Step(m, e), run[1..]);
    }
  }
}
