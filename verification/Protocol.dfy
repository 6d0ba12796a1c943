/**
 * What netsipd/netsipd.cpp does with each line of a client, said field by field and line by line, and what that
 * comes to over whole runs. The answers are those of `CommandOutcome`, which the server's methods act as.
 */
module Protocols {
  import opened Words
  import opened Options
  import opened Runs
  import opened Text
  import opened Negotiation
  import opened Calls
  import opened Ports
  import opened CallRuns
  import opened Commands

  lemma OneDigit(n: nat)
    requires n < 10
    ensures Decimal(n) == [Digit(n)]
  {
  }

  lemma Teens(n: nat)
    requires 10 <= n < 20
    ensures Decimal(n) == ['1', Digit(n - 10)]
  {
    OneDigit(n - 10);
    OneDigit(1);
  }

  lemma Codes()
    ensures Er(1) == "ER 1!" && Er(2) == "ER 2!" && Er(3) == "ER 3!" && Er(4) == "ER 4!" && Er(5) == "ER 5!"
    ensures Er(10) == "ER 10!" && Er(11) == "ER 11!" && Er(12) == "ER 12!" && Er(13) == "ER 13!"
    ensures Decimal(300) == "300"
  {
    hide Decimal;
    OneDigit(1);
    OneDigit(2);
    OneDigit(3);
    OneDigit(4);
    OneDigit(5);
    Teens(10);
    Teens(11);
    Teens(12);
    Teens(13);
    ThreeHundred();
  }

  lemma ThreeHundred()
    ensures Decimal(300) == "300"
  {
    assert Decimal(30) == "30";
  }

  ghost predicate OthersKept(m: Conns, n: Conns, a: int, b: int) {
    n.Keys == m.Keys && forall g :: g in m && g != a && g != b ==> n[g] == m[g]
  }

  // ---------------------------------------------------------------- BY

  /** BY from a client that has logged in: both sides are idle, without ports, no one else changes, and the
      partner and then the sender are told. */
  lemma ByEndsTheCall(m: Conns, fd: int, cmds: seq<string>, world: World, d: int)
    requires Symmetric(m) && fd in m && |m| < MOST && cmds != [] && cmds[0] == "BY" && m[fd].auth
    ensures CanEnd(m, fd)
    ensures var (n, sends), g := CommandOutcome(m, fd, cmds, world, d), m[fd].connFd;
            && OthersKept(m, n, fd, g)
            && n[fd] == m[fd].(connFd := -1, cid := -1, port := 0)
            && (g >= 0 ==> g in m && g != fd && n[g] == m[g].(connFd := -1, cid := -1, port := 0))
            && sends == if g >= 0 then [(g, "MS!"), (fd, "MS!")] else [(fd, "MS!")]
  {
    hide Symmetric;
    SymmetricAt(m, fd);
  }

  // ---------------------------------------------------------------- closing

  /** What closing does to the entry: a user that has logged in is logged out first. */
  ghost predicate Closed(c: Conn, n: Conn) {
    n == if c.zombie then c
         else if !c.auth || c.uid <= 0 then c.(zombie := true)
         else c.(zombie := true, uid := 0, username := "", hash := "", local := NULL_ADDR, connFd := -1, cid := -1,
                 port := if c.cid >= 0 then 0 else c.port)
  }

  /** The one answer that logs in: the hash, for a user that no other connection has. */
  ghost predicate RightAnswer(m: Conns, fd: int, cmds: seq<string>) {
    && fd in m && |cmds| == 2 && m[fd].uid != 0 && cmds[1] == m[fd].hash
    && forall g :: g in m && g != fd ==> m[g].uid != m[fd].uid
  }

  /** What a wrong answer is told, by the test that fails first. */
  ghost function WrongAnswer(m: Conns, fd: int, cmds: seq<string>): string
    requires fd in m
  {
    if |cmds| != 2 then "ER 3!" else if m[fd].uid == 0 || cmds[1] != m[fd].hash then "ER 1!" else "ER 2!"
  }

  /** A connection closes: its call ends, with MS to both sides if the call has a number, and no one else changes. */
  ghost predicate Closes(m: Conns, fd: int, n: Conns, sends: seq<(int, string)>)
    requires fd in m
  {
    var g, numbered := m[fd].connFd, m[fd].cid >= 0;
    && OthersKept(m, n, fd, g) && Closed(m[fd], n[fd])
    && (g >= 0 ==> g in m && g != fd
                   && n[g] == m[g].(connFd := -1, cid := -1, port := if numbered then 0 else m[g].port))
    && (numbered ==> sends == [(g, "MS!"), (fd, "MS!")])
    && (!numbered ==> sends == [])
  }

  lemma ClosingEndsTheCall(m: Conns, fd: int)
    requires Symmetric(m) && fd in m
    ensures CanEnd(m, fd) && Closes(m, fd, Kill(m, fd), KillSends(m, fd))
  {
    hide Symmetric;
    SymmetricAt(m, fd);
    assert m[fd].cid >= 0 ==> Paired(m, fd);
  }

  /** An LI or a PW that has too few or too many words, and a wrong PW at any time, closes the connection. */
  lemma BadLoginCloses(m: Conns, fd: int, cmds: seq<string>, world: World, d: int)
    requires Symmetric(m) && fd in m && |m| < MOST && cmds != []
    requires (cmds[0] == "LI" && |cmds| != 4) || (cmds[0] == "PW" && !RightAnswer(m, fd, cmds))
    ensures CanEnd(m, fd)
    ensures var (n, sends) := CommandOutcome(m, fd, cmds, world, d);
            && sends != [] && sends[0].0 == fd && Closes(m, fd, n, sends[1..])
            && (cmds[0] == "LI" ==> sends[0].1 == "ER 3!")
            && (cmds[0] == "PW" ==> sends[0].1 == WrongAnswer(m, fd, cmds))
  {
    hide Symmetric, Er, Kill, KillSends, Closes;
    Codes();
    ClosingEndsTheCall(m, fd);
    assert RightAnswer(m, fd, cmds) <==> |cmds| == 2 && PasswordOk(m, fd, true, cmds[1]);
  }

  /** Before login every line but LI and PW is refused, and closes the connection. */
  lemma LoginNeeded(m: Conns, fd: int, cmds: seq<string>, world: World, d: int)
    requires Symmetric(m) && fd in m && |m| < MOST && cmds != [] && cmds[0] != "LI" && cmds[0] != "PW" && !m[fd].auth
    ensures CanEnd(m, fd)
    ensures var (n, sends) := CommandOutcome(m, fd, cmds, world, d);
            n == m[fd := m[fd].(zombie := true)] && sends == [(fd, "ER 5!")]
  {
    hide Symmetric, Decimal;
    Codes();
    SymmetricAt(m, fd);
  }

  // ---------------------------------------------------------------- LI

  /** LI: the user that the directory has, its hash for the challenge that is sent, and the client's own address. */
  lemma LoginNamesTheUser(m: Conns, fd: int, cmds: seq<string>, world: World, d: int)
    requires Symmetric(m) && fd in m && |m| < MOST && |cmds| == 4 && cmds[0] == "LI"
    ensures CanEnd(m, fd)
    ensures var (n, sends) := CommandOutcome(m, fd, cmds, world, d);
            && OthersKept(m, n, fd, fd)
            && sends == [(fd, "LI " + world.challenge + "!")]
            && (world.user.None? ==> n[fd] == m[fd])
            && (world.user.Some? ==>
                  && n[fd].uid == world.user.value.uid && n[fd].username == world.user.value.username
                  && n[fd].hash == world.user.value.hash && n[fd].version == cmds[3]
                  && (forall x :: cmds[2] == Dotted(x) ==> n[fd].local == x)
                  && n[fd] == m[fd].(uid := n[fd].uid, username := n[fd].username, hash := n[fd].hash,
                                     local := n[fd].local, version := n[fd].version))
  {
    hide Symmetric, Decimal, ParseAddr, Dotted;
    SymmetricAt(m, fd);
    forall x | cmds[2] == Dotted(x)
      ensures ParseAddr(cmds[2]) == x
    {
      DottedRoundTrip(x);
    }
  }

  // ---------------------------------------------------------------- PW

  /** PW on a connection that is neither logged in nor closed: it logs in exactly on the right answer; any other
      closes it, with a code that tells the test that failed first. */
  lemma PasswordLogsInExactly(m: Conns, fd: int, cmds: seq<string>, world: World, d: int)
    requires Symmetric(m) && fd in m && |m| < MOST && cmds != [] && cmds[0] == "PW" && !m[fd].auth && !m[fd].zombie
    ensures CanEnd(m, fd)
    ensures var (n, sends) := CommandOutcome(m, fd, cmds, world, d);
            && OthersKept(m, n, fd, fd)
            && (n[fd].auth <==> RightAnswer(m, fd, cmds)) && (n[fd].zombie <==> !RightAnswer(m, fd, cmds))
            && n[fd] == m[fd].(auth := n[fd].auth, zombie := n[fd].zombie)
            && |sends| == 1 && sends[0].0 == fd
            && sends[0].1 == (if RightAnswer(m, fd, cmds) then "OK 300!" else WrongAnswer(m, fd, cmds))
  {
    hide Symmetric, Er;
    Codes();
    SymmetricAt(m, fd);
    assert KillSends(m, fd) == [];
    assert RightAnswer(m, fd, cmds) <==> |cmds| == 2 && PasswordOk(m, fd, true, cmds[1]);
  }

  // ---------------------------------------------------------------- CB and ER

  /** CB and ER from a client in a call: one line to its partner in the call, the only one that points back, which
      reads in it the words that were sent; from an idle one, nothing. */
  lemma ForwardedToPartner(m: Conns, fd: int, line: string, world: World, d: int)
    requires Symmetric(m) && fd in m && |m| < MOST && m[fd].auth && '!' !in line
    requires var cmds := Split(Strip(line), ' '); cmds != [] && (cmds[0] == "CB" || cmds[0] == "ER")
    ensures CanEnd(m, fd)
    ensures var cmds, g := Split(Strip(line), ' '), m[fd].connFd;
            var (n, sends) := CommandOutcome(m, fd, cmds, world, d);
            && n == m
            && (Idle(m[fd]) ==> sends == [])
            && (!Idle(m[fd]) ==>
                  && g in m && g != fd && m[g].connFd == fd && m[g].cid == m[fd].cid
                  && |sends| == 1 && sends[0].0 == g
                  && exists told :: ReadAll(Reading([], []), sends[0].1) == Reading([], [told])
                                    && Split(Strip(told), ' ') == cmds)
  {
    hide Symmetric, Split, Strip, Spaced, Read, Fold;
    SymmetricAt(m, fd);
    var cmds := Split(Strip(line), ' ');
    WordsBack(line);
    OneCommand(Spaced(cmds));
  }

  lemma OneCommand(s: string)
    requires '!' !in s
    ensures ReadAll(Reading([], []), s + "!") == Reading([], [s])
  {
    CommandsRoundTrip(Reading([], []), [s], [s + "!"]);
    assert Terminated([s]) == s + "!" + [];
    assert Concat([s + "!"]) == s + "!" + [];
    assert [] + [s] == [s];
  }

  // ---------------------------------------------------------------- CA

  /** The lines written to one socket, in order. */
  function Lines(sends: seq<(int, string)>, fd: int): seq<string> {
    if sends == [] then [] else (if sends[0].0 == fd then [sends[0].1] else []) + Lines(sends[1..], fd)
  }

  lemma {:induction false} LinesJoin(a: seq<(int, string)>, b: seq<(int, string)>, fd: int)
    ensures Lines(a + b, fd) == Lines(a, fd) + Lines(b, fd)
  {
    if a == [] {
      assert a + b == b;
    } else {
      LinesJoin(a[1..], b, fd);
      assert (a + b)[0] == a[0] && (a + b)[1..] == a[1..] + b;
      Regroup(if a[0].0 == fd then [a[0].1] else [], Lines(a[1..], fd), Lines(b, fd));
    }
  }

  lemma {:induction false} LinesOfOne(g: int, cmds: seq<string>, fd: int)
    ensures Lines(To(g, cmds), fd) == if g == fd then cmds else []
  {
    if cmds != [] {
      LinesOfOne(g, cmds[1..], fd);
      assert To(g, cmds)[1..] == To(g, cmds[1..]);
      assert [cmds[0]] + cmds[1..] == cmds;
    }
  }

  /** A CA that sets up no call tells its sender why, and changes nothing. */
  lemma CallRefused(m: Conns, fd: int, cmds: seq<string>, world: World, d: int)
    requires Symmetric(m) && fd in m && |m| < MOST && cmds != [] && cmds[0] == "CA" && m[fd].auth
    requires Answers(m, fd, cmds, world, d)
    requires |cmds| != 14 || world.callee.None? || d < 0 || m[d].connFd >= 0
    ensures CanEnd(m, fd)
    ensures var (n, sends) := CommandOutcome(m, fd, cmds, world, d);
            && n == m && |sends| == 1 && sends[0].0 == fd
            && sends[0].1 == (if |cmds| != 14 then "ER 3!"
                              else if world.callee.None? then "ER 11!"
                              else if forall g :: g in m ==> m[g].uid != world.callee.value then "ER 12!"
                              else "ER 13!")
  {
    hide Symmetric, Er, SetUpPorts, CallSends;
    Codes();
    SymmetricAt(m, fd);
  }

  /** The address at which the port of `a` is searched, in a call with `b`. */
  ghost function SearchedAt(a: Conn, b: Conn): Addr {
    if a.peer == b.peer then a.local else a.peer
  }

  /** A CA that sets up a call: the two sides point at each other, get the least even ports free where each is
      searched, the caller's first, and the number of the call if it has one; no one else changes. */
  lemma CallMade(m: Conns, fd: int, cmds: seq<string>, world: World, d: int)
    requires Symmetric(m) && fd in m && |m| < MOST && |cmds| == 14 && cmds[0] == "CA" && m[fd].auth
    requires world.callee.Some? && d in m && m[d].connFd < 0 && d != fd
    ensures CanEnd(m, fd)
    ensures var n := CommandOutcome(m, fd, cmds, world, d).0;
            && OthersKept(m, n, fd, d)
            && IsLeastPort(m, SearchedAt(m[fd], m[d]), n[fd].port)
            && IsLeastPort(m[fd := m[fd].(port := n[fd].port)], SearchedAt(m[d], m[fd]), n[d].port)
            && n[fd] == m[fd].(connFd := d, port := n[fd].port,
                               cid := if world.callId.Some? then world.callId.value else m[fd].cid)
            && n[d] == m[d].(connFd := fd, port := n[d].port,
                             cid := if world.callId.Some? then world.callId.value else m[d].cid)
  {
    hide Symmetric, Er, CallSends, IsLeastPort, LeastPort;
    SymmetricAt(m, fd);
    SymmetricAt(m, d);
    SameSize(m, fd, m[fd].(port := CallPorts(m, fd, d).0));
  }

  /** And what is written: to the caller that the call proceeds, its ME line, and what the directory knows of the
      callee; to the callee its ME line and what the directory knows of the caller; to no one else anything. */
  lemma CallTold(m: Conns, fd: int, cmds: seq<string>, world: World, d: int, g: int)
    requires Symmetric(m) && fd in m && |m| < MOST && |cmds| == 14 && cmds[0] == "CA" && m[fd].auth
    requires world.callee.Some? && d in m && m[d].connFd < 0 && d != fd
    ensures CanEnd(m, fd)
    ensures var (n, sends) := CommandOutcome(m, fd, cmds, world, d);
            && fd in n && d in n
            && var me := MediaSends(n, fd, d, cmds);
            Lines(sends, g) == if g == fd then ["ER 10!", me[0].1] + world.ofCallee
                               else if g == d then [me[1].1] + world.ofCaller else []
  {
    hide Symmetric, Er, Lines, MediaSends, To, SetUp, CallPorts;
    Codes();
    SymmetricAt(m, fd);
    SymmetricAt(m, d);
    var (n, sends) := CommandOutcome(m, fd, cmds, world, d);
    SetUpShape(m, fd, d, CallPorts(m, fd, d).0, CallPorts(m, fd, d).1, world.callId);
    CallLines(n, fd, d, cmds, world, g);
  }

  lemma CallLines(n: Conns, fd: int, d: int, cmds: seq<string>, world: World, g: int)
    requires fd in n && d in n && fd != d && |cmds| == 14
    ensures var me := MediaSends(n, fd, d, cmds);
            Lines(CallSends(n, fd, d, cmds, world), g) ==
            if g == fd then ["ER 10!", me[0].1] + world.ofCallee
            else if g == d then [me[1].1] + world.ofCaller else []
  {
    hide Er, To, ToCaller, ToCallee, Spaced, Lines;
    Codes();
    var me := MediaSends(n, fd, d, cmds);
    var a, b := [(fd, "ER 10!")] + me, To(d, world.ofCaller);
    LinesJoin(a + b, To(fd, world.ofCallee), g);
    LinesJoin(a, b, g);
    LinesOfOne(d, world.ofCaller, g);
    LinesOfOne(fd, world.ofCallee, g);
    assert a == [(fd, "ER 10!"), me[0], me[1]];
    ThreeLines((fd, "ER 10!"), me[0], me[1], g);
  }

  lemma ThreeLines(a: (int, string), b: (int, string), c: (int, string), g: int)
    ensures Lines([a, b, c], g) == (if a.0 == g then [a.1] else []) + (if b.0 == g then [b.1] else [])
                                   + (if c.0 == g then [c.1] else [])
  {
    LinesOfOne(a.0, [a.1], g);
    assert [a, b, c] == [a] + [b] + [c];
    LinesJoin([a] + [b], [c], g);
    LinesJoin([a], [b], g);
  }

  // ---------------------------------------------------------------- the other lines

  /** MD changes and tells nothing, PG notes the time, and what is no command is told so. */
  lemma OtherLines(m: Conns, fd: int, cmds: seq<string>, world: World, d: int)
    requires Symmetric(m) && fd in m && |m| < MOST && cmds != [] && m[fd].auth
    requires cmds[0] !in {"LI", "PW", "CA", "BY", "CB", "ER"}
    ensures CanEnd(m, fd)
    ensures var (n, sends) := CommandOutcome(m, fd, cmds, world, d);
            match cmds[0]
            case "MD" => n == m && sends == []
            case "PG" => n == m[fd := m[fd].(ping := world.now)] && sends == []
            case _ => n == m && sends == [(fd, "ER 4!")]
  {
    hide Symmetric, Er;
    Codes();
    SymmetricAt(m, fd);
  }

  // ---------------------------------------------------------------- connections come and go

  /** A new connection is nobody's, is in no call, and has just given a sign of life; the others are as they were. */
  lemma ConnectionIsNew(m: Conns, fd: int, peer: Addr, now: int, deadline: int)
    requires Symmetric(m) && Possible(m, Connect(fd, peer, now))
    ensures var n := Step(m, Connect(fd, peer, now));
            && n.Keys == m.Keys + {fd} && (forall g :: g in m && g != fd ==> n[g] == m[g])
            && n[fd].uid == 0 && !n[fd].auth && !n[fd].zombie && Idle(n[fd]) && n[fd].port == 0
            && n[fd].peer == peer && n[fd].local == Addr(0, 0, 0, 0) && n[fd].hash == "" && n[fd].username == ""
            && n[fd].ping == now && (Overdue(n[fd], deadline) <==> now < deadline)
  {
    hide Symmetric, CanEnd;
    AllCanEnd(m);
  }

  /** The zombie timer drops exactly the connections that are closed, and changes no other. */
  lemma ZombiesGo(m: Conns)
    requires Symmetric(m)
    ensures var n := Step(m, ZombieTimer);
            && (forall g :: g in n <==> g in m && !m[g].zombie)
            && (forall g :: g in n ==> n[g] == m[g])
  {
    hide Symmetric, CanEnd;
    AllCanEnd(m);
  }

  /** The ping timer finds the other side of the connection's call overdue, or the connection itself. */
  ghost predicate CallExpires(m: Conns, g: int, fds: seq<int>, deadline: int)
    requires g in m
  {
    || (g in fds && Overdue(m[g], deadline))
    || (m[g].connFd in m && m[g].connFd in fds && Overdue(m[m[g].connFd], deadline))
  }

  lemma ExpireOneExact(m: Conns, fd: int, deadline: int)
    requires Symmetric(m) && fd in m
    ensures CanEnd(m, fd)
    ensures var n := ExpireOne(m, fd, deadline);
            if !Overdue(m[fd], deadline) then n == m
            else
              && n.Keys == m.Keys - {fd}
              && forall g :: g in n ==>
                   n[g] == if g == m[fd].connFd
                           then m[g].(connFd := -1, cid := -1, port := if m[g].cid >= 0 then 0 else m[g].port) else m[g]
  {
    hide Symmetric;
    SymmetricAt(m, fd);
    if m[fd].connFd >= 0 {
      SymmetricAt(m, m[fd].connFd);
    } else if m[fd].connFd in m {
      SymmetricAt(m, m[fd].connFd);
      assert false;
    }
  }

  /** Of the connections that stay, those whose partner goes are left idle, and the others as they were. */
  lemma {:induction false} OverdueGo(m: Conns, fds: seq<int>, deadline: int)
    requires Symmetric(m) && (forall g :: g in fds ==> g in m) && forall i, j :: 0 <= i < j < |fds| ==> fds[i] != fds[j]
    ensures var n := Expire(m, fds, deadline);
            && (forall g :: g in n <==> g in m && !(g in fds && Overdue(m[g], deadline)))
            && (forall g :: g in n ==>
                  n[g] == if CallExpires(m, g, fds, deadline)
                          then m[g].(connFd := -1, cid := -1, port := if m[g].cid >= 0 then 0 else m[g].port) else m[g])
    decreases |fds|
  {
    hide Symmetric, ExpireOne;
    if fds != [] {
      var next := ExpireOne(m, fds[0], deadline);
      ExpireOneKeeps(m, fds[0], deadline);
      ExpireOneExact(m, fds[0], deadline);
      assert forall g :: g in fds[1..] ==> g in fds && g != fds[0];
      OverdueGo(next, fds[1..], deadline);
      forall g | g in Expire(m, fds, deadline)
        ensures Expire(m, fds, deadline)[g] ==
                if CallExpires(m, g, fds, deadline)
                then m[g].(connFd := -1, cid := -1, port := if m[g].cid >= 0 then 0 else m[g].port) else m[g]
      {
        SymmetricAt(m, g);
        SymmetricAt(m, fds[0]);
      }
    }
  }

  /** So many pings, so many ends of calls, and nothing else. */
  ghost predicate Tally(lines: seq<string>, pings: nat, ends: nat) {
    |lines| == pings + ends && multiset(lines)["PG!"] == pings && multiset(lines)["MS!"] == ends
  }

  ghost function PingsDue(m: Conns, g: int, fds: seq<int>, deadline: int): nat {
    if g in m && g in fds && !Overdue(m[g], deadline) then 1 else 0
  }

  ghost function EndsDue(m: Conns, g: int, fds: seq<int>, deadline: int): nat {
    if g in m && m[g].cid >= 0 && CallExpires(m, g, fds, deadline) then 1 else 0
  }

  lemma TallyJoin(a: seq<string>, b: seq<string>, p: nat, e: nat, q: nat, f: nat)
    requires Tally(a, p, e) && Tally(b, q, f)
    ensures Tally(a + b, p + q, e + f)
  {
  }

  /** What the timer writes for one connection, as seen by any. */
  lemma PingTold(m: Conns, fd: int, deadline: int, g: int)
    requires Symmetric(m) && fd in m
    ensures Tally(Lines(PingSends(m, fd, deadline), g),
                  if g == fd && !Overdue(m[fd], deadline) then 1 else 0,
                  if Overdue(m[fd], deadline) && m[fd].cid >= 0 && (g == fd || g == m[fd].connFd) then 1 else 0)
  {
    hide Symmetric, Lines;
    SymmetricAt(m, fd);
    LinesOfOne(fd, ["PG!"], g);
    assert To(fd, ["PG!"]) == [(fd, "PG!")];
    LinesOfOne(fd, [], g);
    assert To(fd, []) == [];
    LinesOfOne(fd, ["MS!"], g);
    assert To(fd, ["MS!"]) == [(fd, "MS!")];
    LinesOfOne(m[fd].connFd, ["MS!"], g);
    assert To(m[fd].connFd, ["MS!"]) == [(m[fd].connFd, "MS!")];
    LinesJoin([(m[fd].connFd, "MS!")], [(fd, "MS!")], g);
  }

  lemma DueInSteps(m: Conns, fds: seq<int>, deadline: int, g: int)
    requires Symmetric(m) && fds != [] && (forall h :: h in fds ==> h in m)
    requires forall i, j :: 0 <= i < j < |fds| ==> fds[i] != fds[j]
    ensures var next, f := ExpireOne(m, fds[0], deadline), fds[0];
            && PingsDue(m, g, fds, deadline) ==
               (if g == f && !Overdue(m[f], deadline) then 1 else 0) + PingsDue(next, g, fds[1..], deadline)
            && EndsDue(m, g, fds, deadline) ==
               (if Overdue(m[f], deadline) && m[f].cid >= 0 && (g == f || g == m[f].connFd) then 1 else 0)
               + EndsDue(next, g, fds[1..], deadline)
  {
    hide Symmetric, ExpireOne;
    var f := fds[0];
    ExpireOneExact(m, f, deadline);
    SymmetricAt(m, f);
    if g in m {
      SymmetricAt(m, g);
    }
    assert forall h :: h in fds <==> h == f || h in fds[1..];
  }

  /** Over the whole pass, each connection that is not overdue is asked for a sign of life once, and each side of a
      numbered call of which a side is overdue is told of its end once. */
  lemma {:induction false} PingedOnce(m: Conns, fds: seq<int>, deadline: int, g: int)
    requires Symmetric(m) && (forall h :: h in fds ==> h in m) && forall i, j :: 0 <= i < j < |fds| ==> fds[i] != fds[j]
    ensures Tally(Lines(AllPingSends(m, fds, deadline), g), PingsDue(m, g, fds, deadline), EndsDue(m, g, fds, deadline))
    decreases |fds|
  {
    hide Symmetric, ExpireOne, PingSends, Tally, Lines, PingsDue, EndsDue;
    if fds == [] {
      NothingDue(m, deadline, g);
    } else {
      var next, f := ExpireOne(m, fds[0], deadline), fds[0];
      ExpireOneKeeps(m, f, deadline);
      PingTold(m, f, deadline, g);
      DueInSteps(m, fds, deadline, g);
      assert forall h :: h in fds[1..] ==> h in fds && h != f;
      PingedOnce(next, fds[1..], deadline, g);
      var a, b := PingSends(m, f, deadline), AllPingSends(next, fds[1..], deadline);
      LinesJoin(a, b, g);
      TallyJoin(Lines(a, g), Lines(b, g),
                if g == f && !Overdue(m[f], deadline) then 1 else 0,
                if Overdue(m[f], deadline) && m[f].cid >= 0 && (g == f || g == m[f].connFd) then 1 else 0,
                PingsDue(next, g, fds[1..], deadline), EndsDue(next, g, fds[1..], deadline));
    }
  }

  lemma NothingDue(m: Conns, deadline: int, g: int)
    ensures Tally(Lines([], g), PingsDue(m, g, [], deadline), EndsDue(m, g, [], deadline))
  {
  }

  // ---------------------------------------------------------------- who has logged in, over runs

  /** The event at which a connection logs in. */
  ghost predicate LogsIn(m: Conns, e: Event, fd: int) {
    && fd in m && e == PW(fd, true, m[fd].hash) && m[fd].uid != 0
    && forall g :: g in m && g != fd ==> m[g].uid != m[fd].uid
  }

  /** The descriptor gets a new connection. */
  ghost predicate Replaced(m: Conns, e: Event, fd: int) {
    e.Connect? && e.fd == fd && Step(m, e) == m[fd := FreshConn(e.peer, e.now)]
  }

  lemma KillKeepsAuth(m: Conns, fd: int)
    requires CanEnd(m, fd)
    ensures Kill(m, fd).Keys == m.Keys && forall g :: g in m ==> Kill(m, fd)[g].auth == m[g].auth
  {
  }

  lemma EndKeepsAuth(m: Conns, fd: int)
    requires CanEnd(m, fd)
    ensures EndCall(m, fd).Keys == m.Keys && forall g :: g in m ==> EndCall(m, fd)[g].auth == m[g].auth
  {
  }

  lemma SetUpKeepsAuth(m: Conns, fd: int, d: int, p: uint16, q: uint16, cid: Option<nat>)
    requires fd in m && d in m
    ensures var n := SetUp(m, fd, d, p, q, cid);
            n.Keys == m.Keys && forall g :: g in m ==> n[g].auth == m[g].auth
  {
  }

  lemma {:induction false} ExpireKeepsAuth(m: Conns, fds: seq<int>, deadline: int)
    ensures var n := Expire(m, fds, deadline);
            n.Keys <= m.Keys && forall g :: g in n ==> n[g].auth == m[g].auth
    decreases |fds|
  {
    if fds != [] {
      ExpireKeepsAuth(ExpireOne(m, fds[0], deadline), fds[1..], deadline);
    }
  }

  /** Any event leaves logged in who was, if the connection is the same, and logs in no one but as LogsIn says. */
  lemma StepLogsIn(m: Conns, e: Event, fd: int)
    requires fd in Step(m, e) && Step(m, e)[fd].auth
    ensures (fd in m && m[fd].auth && !Replaced(m, e, fd)) || LogsIn(m, e, fd)
  {
    hide Kill, EndCall, Expire, SetUp, CallPorts, IsLast, CanEnd;
    if Possible(m, e) && forall g :: g in m ==> CanEnd(m, g) {
      match e
      case LI(_, _, _, _, _) => KillKeepsAuth(m, e.fd);
      case PW(_, _, _) => KillKeepsAuth(m, e.fd);
      case CA(_, d, cid) => SetUpKeepsAuth(m, e.fd, d, CallPorts(m, e.fd, d).0, CallPorts(m, e.fd, d).1, cid);
      case BY(_) => EndKeepsAuth(m, e.fd);
      case Close(_) => KillKeepsAuth(m, e.fd);
      case PingTimer(fds, deadline) => ExpireKeepsAuth(m, fds, deadline);
      case _ =>
    }
  }

  /** And LogsIn logs in. */
  lemma LogsInWorks(m: Conns, e: Event, fd: int)
    requires Symmetric(m) && LogsIn(m, e, fd)
    ensures Step(m, e) == m[fd := m[fd].(auth := true)]
  {
    hide CanEnd, Symmetric;
    AllCanEnd(m);
  }

  /** Over any run at all, a connection that is logged in at the end and was not at the start did so at a PW with
      the hash that it held then, while no other connection had its user, and is the same connection since. */
  lemma {:induction false} LoggedInByPassword(m: Conns, run: seq<Event>, fd: int) returns (k: nat)
    requires var n := Fold(Step, m, run); fd in n && n[fd].auth
    requires fd !in m || !m[fd].auth
    ensures k < |run| && LogsIn(Fold(Step, m, run[..k]), run[k], fd)
    ensures forall j :: k < j < |run| ==> !Replaced(Fold(Step, m, run[..j]), run[j], fd)
    decreases |run|
  {
    hide Step, Replaced, LogsIn;
    var n := |run| - 1;
    if run == [] {
      assert false;
    }
    var before := Fold(Step, m, run[..n]);
    assert run == run[..n] + [run[n]];
    FoldJoin(Step, m, run[..n], [run[n]]);
    FoldOne(Step, before, run[n]);
    StepLogsIn(before, run[n], fd);
    if LogsIn(before, run[n], fd) {
      k := n;
    } else {
      k := LoggedInByPassword(m, run[..n], fd);
      assert run[..n][..k] == run[..k];
      forall j | k < j < n
        ensures run[..n][..j] == run[..j]
      {
      }
    }
  }

  // ---------------------------------------------------------------- runs of lines

  /** What happens to the server: a line of a client, `callee` being who a call in it finds, or anything else. */
  datatype Input = Line(fd: int, words: seq<string>, world: World, callee: int) | Other(event: Event)

  ghost function AfterInput(m: Conns, i: Input): Conns {
    match i
    case Line(fd, words, world, d) =>
      if CanEnd(m, fd) && |m| < MOST && words != [] then CommandOutcome(m, fd, words, world, d).0 else m
    case Other(e) => Step(m, e)
  }

  ghost function EventsIn(m: Conns, i: Input): seq<Event> {
    match i
    case Line(fd, words, world, d) =>
      if fd in m && words != [] && EventOf(m, fd, words, world, d).Some?
      then [EventOf(m, fd, words, world, d).value] else []
    case Other(e) => [e]
  }

  ghost function AllEventsIn(m: Conns, inputs: seq<Input>): seq<Event>
    decreases |inputs|
  {
    if inputs == [] then [] else EventsIn(m, inputs[0]) + AllEventsIn(AfterInput(m, inputs[0]), inputs[1..])
  }

  /** Anyone may send anything; a call that a line sets up is guarded. */
  ghost predicate Welcome(m: Conns, i: Input) {
    match i
    case Line(fd, words, world, d) =>
      && fd in m && |m| < MOST && words != [] && Answers(m, fd, words, world, d)
      && (EventOf(m, fd, words, world, d) == Some(CA(fd, d, world.callId)) ==> d in m && CallGuard(m, fd, d))
    case Other(e) => Allowed(m, e)
  }

  ghost predicate AllWelcome(m: Conns, inputs: seq<Input>)
    decreases |inputs|
  {
    inputs == [] || (Welcome(m, inputs[0]) && AllWelcome(AfterInput(m, inputs[0]), inputs[1..]))
  }

  /** The event of a line can only be a call as the line says it. */
  lemma CallOfLine(m: Conns, fd: int, words: seq<string>, world: World, d: int)
    requires fd in m && words != []
    ensures var e := EventOf(m, fd, words, world, d);
            e.Some? && e.value.CA? ==> e.value == CA(fd, d, world.callId) && d in m
  {
    hide ParseAddr;
  }

  lemma InputIsRun(m: Conns, i: Input)
    requires Symmetric(m) && Welcome(m, i)
    ensures AfterInput(m, i) == Fold(Step, m, EventsIn(m, i))
    ensures |EventsIn(m, i)| <= 1 && (EventsIn(m, i) != [] ==> Allowed(m, EventsIn(m, i)[0]))
    ensures Symmetric(AfterInput(m, i))
  {
    hide Symmetric, CommandOutcome, Step, EventOf, CallGuard, Answers, Possible;
    match i
    case Line(fd, words, world, d) =>
      CommandIsStep(m, fd, words, world, d);
      CallOfLine(m, fd, words, world, d);
      var e := EventOf(m, fd, words, world, d);
      if e.Some? {
        FoldOne(Step, m, e.value);
        StepKeepsSymmetric(m, e.value);
      }
    case Other(e) =>
      FoldOne(Step, m, e);
      StepKeepsSymmetric(m, e);
  }

  lemma AllowedJoin(m: Conns, first: seq<Event>, rest: seq<Event>)
    requires |first| <= 1 && (first != [] ==> Allowed(m, first[0]))
    requires AllAllowed(Fold(Step, m, first), rest)
    ensures AllAllowed(m, first + rest)
  {
    hide Step, Allowed;
    if first == [] {
      assert first + rest == rest;
    } else {
      assert first == [first[0]] && (first + rest)[1..] == rest;
      FoldOne(Step, m, first[0]);
    }
  }

  /** Over any lines and other happenings, the server's answers make a run of events, to which all that holds of
      runs applies: connections in calls are matched in pairs. */
  lemma {:induction false} LinesAreRun(m: Conns, inputs: seq<Input>)
    requires Symmetric(m) && AllWelcome(m, inputs)
    ensures var run := AllEventsIn(m, inputs);
            Fold(AfterInput, m, inputs) == Fold(Step, m, run) && AllAllowed(m, run)
    ensures Symmetric(Fold(AfterInput, m, inputs)) && Matched(Fold(AfterInput, m, inputs))
    decreases |inputs|
  {
    hide AfterInput, EventsIn, Welcome, Symmetric, Matched, Allowed, Step;
    if inputs == [] {
      SymmetricIsMatched(m);
    } else {
      var next, first := AfterInput(m, inputs[0]), EventsIn(m, inputs[0]);
      InputIsRun(m, inputs[0]);
      LinesAreRun(next, inputs[1..]);
      FoldJoin(Step, m, first, AllEventsIn(next, inputs[1..]));
      AllowedJoin(m, first, AllEventsIn(next, inputs[1..]));
    }
  }

  /** At any point of such a run, what a client in a call forwards reaches the one it is in the call with. */
  lemma ForwardedInRuns(m: Conns, inputs: seq<Input>, fd: int, line: string, world: World, d: int)
    requires Symmetric(m) && AllWelcome(m, inputs)
    requires var n := Fold(AfterInput, m, inputs); fd in n && |n| < MOST && n[fd].auth && !Idle(n[fd])
    requires '!' !in line
    requires var cmds := Split(Strip(line), ' '); cmds != [] && (cmds[0] == "CB" || cmds[0] == "ER")
    ensures var n, cmds := Fold(AfterInput, m, inputs), Split(Strip(line), ' ');
            var g := n[fd].connFd;
            && CanEnd(n, fd) && g in n && g != fd && n[g].connFd == fd && n[g].cid == n[fd].cid
            && var sends := CommandOutcome(n, fd, cmds, world, d).1;
            && |sends| == 1 && sends[0].0 == g
            && exists told :: ReadAll(Reading([], []), sends[0].1) == Reading([], [told])
                              && Split(Strip(told), ' ') == cmds
  {
    hide AfterInput, Symmetric, Split, Strip, Read, CommandOutcome, AllWelcome, Matched, AllAllowed;
    LinesAreRun(m, inputs);
    ForwardedToPartner(Fold(AfterInput, m, inputs), fd, line, world, d);
  }
}
