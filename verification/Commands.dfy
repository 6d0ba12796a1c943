/**
 * netsipd/netsipd.cpp on values: what each line of a client does to the connections, and what is written for it.
 * First the functions that the server's methods act as, then what they come to in plain terms.
 */
module Commands {
  import opened Words
  import opened Options
  import opened Text
  import opened Audio
  import opened Negotiation
  import opened Calls
  import opened Ports
  import opened CallRuns

  /** What the directory and the clock answer: the user a login names and its challenge, the user a call
      names, the number the call is logged under, and the commands that tell of either side. */
  datatype World = World(
    user: Option<User>, challenge: string, callee: Option<nat>, callId: Option<nat>,
    ofCaller: seq<string>, ofCallee: seq<string>, now: int)

  // response codes
  const USER_INVALID := 1
  const USER_ACTIVE := 2
  const MALFORMED := 3
  const UNKNOWN_COMMAND := 4
  const LOGIN_NEEDED := 5
  const PROCEEDING := 10
  const CALLEE_UNKNOWN := 11
  const CALLEE_OFFLINE := 12
  const CALLEE_BUSY := 13

  const REGISTRATION := 300  // seconds

  function Er(code: nat): string {
    "ER " + Decimal(code) + "!"
  }

  // ---------------------------------------------------------------- what is written to the sockets

  function EndSends(m: Conns, fd: int): seq<(int, string)>
    requires CanEnd(m, fd)
  {
    (if m[fd].connFd >= 0 then [(m[fd].connFd, "MS!")] else []) + [(fd, "MS!")]
  }

  function LogoutSends(m: Conns, fd: int): seq<(int, string)>
    requires CanEnd(m, fd)
  {
    if !m[fd].auth || m[fd].uid <= 0 || m[fd].cid < 0 then [] else EndSends(m, fd)
  }

  function KillSends(m: Conns, fd: int): seq<(int, string)>
    requires CanEnd(m, fd)
  {
    if m[fd].zombie then [] else LogoutSends(m, fd)
  }

  /** What the ping timer writes: the end of calls that were overdue, and a ping to the others. */
  ghost function PingSends(m: Conns, fd: int, deadline: int): seq<(int, string)> {
    if fd in m && Overdue(m[fd], deadline) && CanEnd(m, fd) then LogoutSends(m, fd) else [(fd, "PG!")]
  }

  ghost function AllPingSends(m: Conns, fds: seq<int>, deadline: int): seq<(int, string)>
    decreases |fds|
  {
    if fds == [] then []
    else PingSends(m, fds[0], deadline) + AllPingSends(ExpireOne(m, fds[0], deadline), fds[1..], deadline)
  }

  function PasswordCode(m: Conns, fd: int, wellFormed: bool, hash: string): nat
    requires fd in m
  {
    if !wellFormed then MALFORMED
    else if m[fd].uid == 0 || hash != m[fd].hash then USER_INVALID
    else USER_ACTIVE
  }

  function PasswordSends(m: Conns, fd: int, wellFormed: bool, hash: string): seq<(int, string)>
    requires CanEnd(m, fd)
  {
    if PasswordOk(m, fd, wellFormed, hash) then [(fd, "OK " + Decimal(REGISTRATION) + "!")]
    else [(fd, Er(PasswordCode(m, fd, wellFormed, hash)))] + KillSends(m, fd)
  }

  /** What is written when a call is set up, `n` being the connections after it. */
  function CallSends(n: Conns, fd: int, d: int, cmd: seq<string>, world: World): seq<(int, string)>
    requires fd in n && d in n && |cmd| == 14
  {
    [(fd, Er(PROCEEDING))] + MediaSends(n, fd, d, cmd) + To(d, world.ofCaller) + To(fd, world.ofCallee)
  }

  function MediaSends(n: Conns, fd: int, d: int, cmd: seq<string>): seq<(int, string)>
    requires fd in n && d in n && |cmd| == 14
  {
    [(fd, Spaced(ToCaller(n[d].username, n[fd].port, SourceAddr(n, d, fd), n[d].port, cmd)) + "!"),
     (d, Spaced(ToCallee(n[fd].username, n[d].port, SourceAddr(n, fd, d), n[fd].port, cmd)) + "!")]
  }

  function To(fd: int, cmds: seq<string>): (s: seq<(int, string)>)
    ensures |s| == |cmds|
  {
    seq(|cmds|, i requires 0 <= i < |cmds| => (fd, cmds[i]))
  }

  lemma ToNext(fd: int, cmds: seq<string>, i: nat)
    requires i < |cmds|
    ensures To(fd, cmds[..i]) + [(fd, cmds[i])] == To(fd, cmds[..i + 1])
  {
  }

  function ForwardSends(m: Conns, fd: int, cmd: seq<string>): seq<(int, string)>
    requires fd in m
  {
    if m[fd].connFd < 0 then [] else [(m[fd].connFd, Spaced(cmd) + "!")]
  }

  ghost predicate IsCallee(m: Conns, uid: int, d: int) {
    if d < 0 then forall g :: g in m ==> m[g].uid != uid else IsLast(m, uid, d)
  }

  /** The connections after a CA, and what is written, `d` being the connection found for the callee. */
  ghost function CallOutcome(m: Conns, fd: int, cmd: seq<string>, world: World, d: int): (Conns, seq<(int, string)>)
    requires fd in m && |m| < MOST
  {
    if |cmd| != 14 then (m, [(fd, Er(MALFORMED))])
    else if world.callee.None? then (m, [(fd, Er(CALLEE_UNKNOWN))])
    else if d < 0 || d !in m then (m, [(fd, Er(CALLEE_OFFLINE))])
    else if m[d].connFd >= 0 then (m, [(fd, Er(CALLEE_BUSY))])
    else
      var n := SetUpPorts(m, fd, d, world.callId);
      (n, CallSends(n, fd, d, cmd, world))
  }

  /** What the commands of a logged-in client do. */
  ghost function UserOutcome(m: Conns, fd: int, cmds: seq<string>, world: World, d: int): (Conns, seq<(int, string)>)
    requires CanEnd(m, fd) && |m| < MOST && cmds != []
  {
    if cmds[0] == "CA" then CallOutcome(m, fd, cmds, world, d)
    else if cmds[0] == "BY" then (EndCall(m, fd), EndSends(m, fd))
    else if cmds[0] == "CB" || cmds[0] == "ER" then (m, ForwardSends(m, fd, cmds))
    else if cmds[0] == "MD" then (m, [])
    else if cmds[0] == "PG" then (m[fd := m[fd].(ping := world.now)], [])
    else (m, [(fd, Er(UNKNOWN_COMMAND))])
  }

  /** What any command does; all but LI and PW need a login. */
  ghost function CommandOutcome(m: Conns, fd: int, cmds: seq<string>, world: World, d: int): (Conns, seq<(int, string)>)
    requires CanEnd(m, fd) && |m| < MOST && cmds != []
  {
    if cmds[0] == "LI" then
      if |cmds| == 4 then (Login(m, fd, true, world.user, ParseAddr(cmds[2]), cmds[3]), [(fd, "LI "
          + world.challenge + "!")])
      else (Kill(m, fd), [(fd, Er(MALFORMED))] + KillSends(m, fd))
    else if cmds[0] == "PW" then
      var hash := if |cmds| == 2 then cmds[1] else "";
      (Password(m, fd, |cmds| == 2, hash), PasswordSends(m, fd, |cmds| == 2, hash))
    else if !m[fd].auth then (Kill(m, fd), [(fd, Er(LOGIN_NEEDED))] + KillSends(m, fd))
    else UserOutcome(m, fd, cmds, world, d)
  }

  // ---------------------------------------------------------------- both sides of a call

  /** The two lines, read by the two clients, start one call: what the caller asked for, with ports and
      addresses crossed. */
  lemma MediaSendsAgree(n: Conns, fd: int, d: int, s: Settings)
    requires fd in n && d in n && Word(n[fd].username) && Word(n[d].username)
    requires SourceAddr(n, fd, d) != NULL_ADDR && SourceAddr(n, d, fd) != NULL_ADDR
    ensures var cmd := Heard(n[d].username, s);
            && |cmd| == 14
            && var sends := MediaSends(n, fd, d, cmd);
            && |sends| == 2 && sends[0].0 == fd && sends[1].0 == d && sends[0].1 != [] && sends[1].1 != []
            && var here, there := MediaStart(Split(sends[0].1[..|sends[0].1| - 1], ' '), true),
                                  MediaStart(Split(sends[1].1[..|sends[1].1| - 1], ' '), true);
            && here.Started? && there.Started?
            && here.src == there.dest == n[fd].port && here.dest == there.src == n[d].port
            && here.addr == SourceAddr(n, d, fd) && there.addr == SourceAddr(n, fd, d)
            && here.settings.transmit == s.Get(Transmit) && there.settings.transmit == s.Get(Receive)
            && SameSound(here.settings.transmit, there.settings.receive)
            && here.settings.rate == there.settings.rate == s.rate
  {
    hide MediaStart, Split, Spaced, ToCaller, ToCallee, Heard;
    var cmd := Heard(n[d].username, s);
    Agreement(n[fd].username, n[d].username, s, n[fd].port, SourceAddr(n, fd, d), n[d].port, SourceAddr(n, d, fd));
    var a, b := Spaced(ToCaller(n[d].username, n[fd].port, SourceAddr(n, d, fd), n[d].port, cmd)),
                Spaced(ToCallee(n[fd].username, n[d].port, SourceAddr(n, fd, d), n[fd].port, cmd));
    assert (a + "!")[..|a + "!"| - 1] == a && (b + "!")[..|b + "!"| - 1] == b;
  }

  // ---------------------------------------------------------------- symmetry

  /** A call, if the line sets one up, is guarded. The server does not see to it; a client calls only when
      its own codec is idle, which may be so while the server already has it in a call. */
  ghost predicate CallsWell(m: Conns, fd: int, cmds: seq<string>, world: World, d: int)
    requires fd in m && cmds != []
  {
    cmds[0] == "CA" && |cmds| == 14 && world.callee.Some? && d in m && m[d].connFd < 0 ==> CallGuard(m, fd, d)
  }

  /** A client that has logged in spoils a login, which ends it, and calls before the connection is dropped:
      it is still taken for logged in, and the callee is left with a partner that is not there. */
  lemma GoneCallerStillCalls(peer: Addr, world: World, ca: seq<string>)
    requires |ca| == 14 && ca[0] == "CA" && world.callee == Some(2)
    ensures var m: Conns := map[4 := LoggedIn(peer, 1), 5 := LoggedIn(peer, 2)];
            && |m| < MOST && Symmetric(m) && CanEnd(m, 4)
            && var gone := CommandOutcome(m, 4, ["LI"], world, -1).0;
            && |gone| < MOST && CanEnd(gone, 4) && IsCallee(gone, 2, 5)
            && var called := CommandOutcome(gone, 4, ca, world, 5).0;
            && Matched(called) && 4 !in Reap(called) && 5 in Reap(called) && Reap(called)[5].connFd == 4
            && !Matched(Reap(called))
  {
    hide CallPorts, CallSends, Decimal, SetUp, Reap, Matched;
    var m: Conns := map[4 := LoggedIn(peer, 1), 5 := LoggedIn(peer, 2)];
    assert |m| == 2;
    var gone := CommandOutcome(m, 4, ["LI"], world, -1).0;
    assert gone == Kill(m, 4) && gone[4].zombie && gone[4].auth && gone[5] == m[5];
    assert gone.Keys == m.Keys && |gone.Keys| == |gone| && |m.Keys| == |m|;
    var (p, q) := CallPorts(gone, 4, 5);
    KillKeeps(m, 4);
    SymmetricIsMatched(gone);
    GoneIsMatched(gone, 4, 5, p, q, world.callId);
  }

  lemma GoneIsMatched(m: Conns, fd: int, d: int, p: uint16, q: uint16, cid: Option<nat>)
    requires Matched(m) && fd in m && d in m && fd != d && Idle(m[fd]) && Idle(m[d]) && m[fd].zombie && !m[d].zombie
    ensures var n := SetUp(m, fd, d, p, q, cid);
            Matched(n) && fd !in Reap(n) && d in Reap(n) && Reap(n)[d].connFd == fd && !Matched(Reap(n))
  {
    hide SetUp;
    SetUpMatchedExact(m, fd, d, p, q, cid);
    SetUpSides(m, fd, d, p, q, cid);
  }

  lemma LoginMalformed(m: Conns, fd: int, user: Option<User>, local: Addr, version: string)
    requires CanEnd(m, fd)
    ensures Login(m, fd, false, user, local, version) == Kill(m, fd)
  {
  }

  /** Every line a client may send, even one that is gone, keeps calls symmetric, unless it sets up an
      unguarded call. */
  lemma CommandKeepsSymmetric(m: Conns, fd: int, cmds: seq<string>, world: World, d: int)
    requires Symmetric(m) && fd in m && |m| < MOST && cmds != []
    requires (world.user.Some? ==> world.user.value.uid > 0) && (world.callee.Some? ==> world.callee.value > 0)
    requires world.callee.Some? ==> d < 0 || IsCallee(m, world.callee.value, d)
    requires CallsWell(m, fd, cmds, world, d)
    ensures CanEnd(m, fd) && Symmetric(CommandOutcome(m, fd, cmds, world, d).0)
  {
    hide Login, Password, EndCall, Kill, SetUpPorts, Symmetric, Decimal, Spaced, ParseAddr, CallSends;
    SymmetricAt(m, fd);
    if cmds[0] == "LI" && |cmds| == 4 {
      LoginKeeps(m, fd, true, world.user, ParseAddr(cmds[2]), cmds[3]);
    }
    PasswordKeeps(m, fd, |cmds| == 2, if |cmds| == 2 then cmds[1] else "");
    KillKeeps(m, fd);
    EndCallFrees(m, fd);
    PongKeeps(m, fd, world.now);
    if cmds[0] == "CA" && m[fd].auth && |cmds| == 14 && world.callee.Some? && d in m && m[d].connFd < 0 && d >= 0 {
      CallKeepsSymmetric(m, fd, d, world.callId);
    }
  }

  // ---------------------------------------------------------------- lines as events

  /** The event of a CA, if it sets up a call. */
  function CallEvent(m: Conns, fd: int, cmds: seq<string>, world: World, d: int): Option<Event> {
    if |cmds| == 14 && world.callee.Some? && d in m && m[d].connFd < 0 then Some(CA(fd, d, world.callId)) else None
  }

  /** The event that a line is, read off its words; CB, ER, MD, a refused call and an unknown command are none. */
  function EventOf(m: Conns, fd: int, cmds: seq<string>, world: World, d: int): Option<Event>
    requires fd in m && cmds != []
  {
    match cmds[0]
    case "LI" =>
      Some(if |cmds| == 4 then LI(fd, true, world.user, ParseAddr(cmds[2]), cmds[3])
           else LI(fd, false, world.user, NULL_ADDR, ""))
    case "PW" => Some(PW(fd, |cmds| == 2, if |cmds| == 2 then cmds[1] else ""))
    case _ =>
      if !m[fd].auth then Some(Close(fd))
      else
        match cmds[0]
        case "CA" => CallEvent(m, fd, cmds, world, d)
        case "BY" => Some(BY(fd))
        case "PG" => Some(Pong(fd, world.now))
        case _ => None
  }

  ghost function AfterEvent(m: Conns, e: Option<Event>): Conns {
    if e.None? then m else Step(m, e.value)
  }

  /** The line asks for a call to a user that the directory knows. */
  predicate Asks(m: Conns, fd: int, cmds: seq<string>, world: World)
    requires fd in m && cmds != []
  {
    cmds[0] == "CA" && |cmds| == 14 && m[fd].auth && world.callee.Some?
  }

  /** Users are numbered from one. */
  predicate Numbers(world: World) {
    (world.user.Some? ==> world.user.value.uid > 0) && (world.callee.Some? ==> world.callee.value > 0)
  }

  /** What a line meets: a directory, and the connection, if any, of the callee. */
  ghost predicate Answers(m: Conns, fd: int, cmds: seq<string>, world: World, d: int)
    requires fd in m && cmds != []
  {
    Numbers(world) && (Asks(m, fd, cmds, world) ==> IsCallee(m, world.callee.value, d))
  }

  lemma CallIsStep(m: Conns, fd: int, cmds: seq<string>, world: World, d: int)
    requires Symmetric(m) && fd in m && |m| < MOST && m[fd].auth && cmds != [] && cmds[0] == "CA"
    requires Answers(m, fd, cmds, world, d)
    ensures var e := CallEvent(m, fd, cmds, world, d);
            && CallOutcome(m, fd, cmds, world, d).0 == AfterEvent(m, e)
            && (e.Some? ==> Possible(m, e.value))
  {
    hide SetUpPorts, Symmetric, Er, CallSends, CanEnd;
    AllCanEnd(m);
    if d in m {
      SymmetricAt(m, d);
    }
  }

  /** Every line does what its event does, an event that can happen; one that is no event changes nothing. */
  lemma CommandIsStep(m: Conns, fd: int, cmds: seq<string>, world: World, d: int)
    requires Symmetric(m) && fd in m && |m| < MOST && cmds != [] && Answers(m, fd, cmds, world, d)
    ensures CanEnd(m, fd)
    ensures CommandOutcome(m, fd, cmds, world, d).0 == AfterEvent(m, EventOf(m, fd, cmds, world, d))
    ensures var e := EventOf(m, fd, cmds, world, d);
            e.Some? ==> Possible(m, e.value)
  {
    hide Login, Password, EndCall, Kill, SetUpPorts, Symmetric, Er, Spaced, ParseAddr, PasswordSends, KillSends,
         EndSends, ForwardSends, CallOutcome, CallEvent, Answers, CanEnd;
    AllCanEnd(m);
    LoginMalformed(m, fd, world.user, NULL_ADDR, "");
    if m[fd].auth && cmds[0] == "CA" {
      CallIsStep(m, fd, cmds, world, d);
    }
    UserIsPositive(m, fd, cmds, world, d);
  }

  lemma UserIsPositive(m: Conns, fd: int, cmds: seq<string>, world: World, d: int)
    requires fd in m && cmds != [] && Answers(m, fd, cmds, world, d)
    ensures world.user.Some? ==> world.user.value.uid > 0
  {
  }
}
