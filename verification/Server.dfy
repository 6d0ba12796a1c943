/** netsipd/netsipd.cpp and netsipd/sipconnection.cpp: the server's connections and its commands. */
module Servers {
  import opened Words
  import opened Options
  import opened Runs
  import opened Text
  import opened Negotiation
  import opened Calls
  import opened Ports
  import opened CallRuns
  import opened Commands

  // ---------------------------------------------------------------- keys in order

  ghost predicate Ascending(s: seq<int>) {
    forall i, j :: 0 <= i < j < |s| ==> s[i] < s[j]
  }

  lemma NotEmpty(s: set<int>)
    requires s != {}
    ensures exists x :: x in s
  {
    assert (forall x :: x !in s) ==> s == {};
  }

  method Least(s: set<int>) returns (x: int)
    requires s != {}
    ensures x in s && forall y :: y in s ==> x <= y
  {
    NotEmpty(s);
    x :| x in s;
    var rest := s - {x};
    while rest != {}
      invariant rest <= s && x in s
      invariant forall y :: y in s ==> y in rest || x <= y
      decreases |rest|
    {
      NotEmpty(rest);
      var y :| y in rest;
      rest := rest - {y};
      if y < x {
        x := y;
      }
    }
  }

  /** The order in which the map is gone through. */
  method InOrder(s: set<int>) returns (keys: seq<int>)
    ensures Ascending(keys)
    ensures forall x :: x in keys <==> x in s
  {
    keys := [];
    var rest := s;
    while rest != {}
      invariant rest <= s
      invariant forall i, j :: 0 <= i < j < |keys| ==> keys[i] < keys[j]
      invariant forall x :: x in s <==> x in keys || x in rest
      invariant forall x, y :: x in keys && y in rest ==> x < y
      decreases |rest|
    {
      var x := Least(rest);
      assert forall i :: 0 <= i < |keys| ==> keys[i] in keys;
      keys := keys + [x];
      rest := rest - {x};
    }
  }

  class SipConnection {
    var uid: int
    var cid: int
    var username: string
    var hash: string
    var connFd: int
    var port: uint16
    const peer: Addr
    var local: Addr
    var version: string
    var zombie: bool
    var auth: bool
    var ping: int

    function View(): Conn
      reads this
    {
      Conn(uid, cid, username, hash, connFd, port, peer, local, version, zombie, auth, ping)
    }

    constructor (peer: Addr, now: int)
      ensures View() == FreshConn(peer, now)
    {
      uid, cid, connFd, port := 0, -1, -1, 0;
      username, hash, version := "", "", "0.0.0";
      this.peer := peer;
      local := NULL_ADDR;
      zombie, auth := false, false;
      ping := now;
    }
  }

  class Server {
    var connections: map<int, SipConnection>
    ghost var sent: seq<(int, string)>  // what was written to the sockets

    /** No object stands for two descriptors. */
    ghost predicate Valid()
      reads this`connections
    {
      forall a, b :: a in connections && b in connections && a != b ==> connections[a] != connections[b]
    }

    ghost function View(): (m: Conns)
      reads this`connections, connections.Values
      ensures m.Keys == connections.Keys
    {
      map fd | fd in connections :: connections[fd].View()
    }

    lemma ViewAt(fd: int)
      requires fd in connections
      ensures View()[fd] == connections[fd].View()
    {
    }

    constructor ()
      ensures Valid() && View() == map[] && sent == []
    {
      connections := map[];
      sent := [];
    }

    // -------------------------------------------------------------- single fields

    /** A change to one connection's object is a change to its entry and to no other. */
    twostate lemma OneChanged(fd: int)
      requires old(Valid()) && fd in connections && connections == old(connections)
      requires forall g :: g in connections && g != fd ==> unchanged(connections[g])
      ensures View() == old(View())[fd := connections[fd].View()]
    {
      hide SipConnection.View;
      forall g | g in connections && g != fd
        ensures connections[g].View() == old(connections[g].View())
      {
        assert unchanged(connections[g]);
      }
    }

    method SetConnectionFd(fd: int, to: int)
      requires Valid() && fd in connections
      modifies connections[fd]
      ensures View() == old(View())[fd := old(View())[fd].(connFd := to)]
    {
      connections[fd].connFd := to;
      OneChanged(fd);
    }

    method SetCid(fd: int, cid: int)
      requires Valid() && fd in connections
      modifies connections[fd]
      ensures View() == old(View())[fd := old(View())[fd].(cid := cid)]
    {
      connections[fd].cid := cid;
      OneChanged(fd);
    }

    method SetSourcePort(fd: int, port: uint16)
      requires Valid() && fd in connections
      modifies connections[fd]
      ensures View() == old(View())[fd := old(View())[fd].(port := port)]
    {
      connections[fd].port := port;
      OneChanged(fd);
    }

    method SetZombie(fd: int)
      requires Valid() && fd in connections
      modifies connections[fd]
      ensures View() == old(View())[fd := old(View())[fd].(zombie := true)]
    {
      connections[fd].zombie := true;
      OneChanged(fd);
    }

    method SetUser(fd: int, uid: int, username: string, hash: string, local: Addr)
      requires Valid() && fd in connections
      modifies connections[fd]
      ensures View() == old(View())[fd := old(View())[fd].(uid := uid, username := username, hash := hash,
          local := local)]
    {
      connections[fd].uid := uid;
      connections[fd].username := username;
      connections[fd].hash := hash;
      connections[fd].local := local;
      OneChanged(fd);
    }

    /** Writing to a socket; the connection must be there. */
    method SendCommand(fd: int, cmd: string)
      requires fd in connections
      modifies this`sent
      ensures sent == old(sent) + [(fd, cmd)]
    {
      sent := sent + [(fd, cmd)];
    }

    // -------------------------------------------------------------- ending

    method Hang(fd: int)
      requires Valid() && fd in connections
      modifies connections[fd]
      ensures View() == old(View())[fd := Hung(old(View())[fd])]
    {
      connections[fd].connFd := -1;
      connections[fd].cid := -1;
      connections[fd].port := 0;
      OneChanged(fd);
    }

    method End(fd: int)
      requires Valid() && CanEnd(View(), fd)
      modifies this`sent, connections.Values
      ensures View() == EndCall(old(View()), fd)
      ensures sent == old(sent) + EndSends(old(View()), fd)
    {
      hide View;
      ViewAt(fd);
      var d := connections[fd].connFd;
      if d >= 0 {
        SendCommand(d, "MS!");
        Hang(d);
      }
      SendCommand(fd, "MS!");
      Hang(fd);
    }

    method Unpair(fd: int)
      requires Valid() && CanEnd(View(), fd)
      modifies connections.Values
      ensures View() == Unpaired(old(View()), fd)
    {
      hide View;
      ViewAt(fd);
      if connections[fd].connFd >= 0 {
        SetConnectionFd(connections[fd].connFd, -1);
      }
      SetConnectionFd(fd, -1);
    }

    /** Clears the user, without closing the socket. */
    method LogoutUser(fd: int)
      requires Valid() && CanEnd(View(), fd)
      modifies this`sent, connections.Values
      ensures View() == Logout(old(View()), fd)
      ensures sent == old(sent) + LogoutSends(old(View()), fd)
    {
      hide View, EndCall, Unpaired;
      ViewAt(fd);
      if !connections[fd].auth || connections[fd].uid <= 0 {
        return;
      }
      EndCallCanEnd(View(), fd);
      if connections[fd].cid >= 0 {
        End(fd);
      }
      Unpair(fd);
      SetUser(fd, 0, "", "", NULL_ADDR);
    }

    method SocketKill(fd: int)
      requires Valid() && CanEnd(View(), fd)
      modifies this`sent, connections.Values
      ensures View() == Kill(old(View()), fd)
      ensures sent == old(sent) + KillSends(old(View()), fd)
    {
      hide View, Logout;
      ViewAt(fd);
      if !connections[fd].zombie {
        LogoutUser(fd);
        LogoutKeys(old(View()), fd);
        SetZombie(fd);
      }
    }

    // -------------------------------------------------------------- connections come and go

    method NewConnection(fd: int, peer: Addr, now: int)
      requires Valid()
      modifies this`connections
      ensures Valid() && View() == old(View())[fd := FreshConn(peer, now)]
    {
      var conn := new SipConnection(peer, now);
      connections := connections[fd := conn];
    }

    method Drop(fd: int)
      requires Valid()
      modifies this`connections
      ensures Valid() && View() == Remove(old(View()), fd)
      ensures connections == map g | g in old(connections) && g != fd :: old(connections)[g]
    {
      connections := map g | g in connections && g != fd :: connections[g];
    }

    method ZombieData()
      requires Valid()
      modifies this`connections
      ensures Valid() && View() == Reap(old(View()))
    {
      hide View, Survivors, Remove, Reap;
      var fds := InOrder(connections.Keys);
      ghost var was := View();
      SurvivorsNone(was);
      var i := 0;
      while i < |fds|
        invariant 0 <= i <= |fds| && Valid() && View() == Survivors(was, fds[..i])
      {
        SurvivorsNext(was, fds, i);
        if fds[i] in connections {
          ViewAt(fds[i]);
          if connections[fds[i]].zombie {
            Drop(fds[i]);
          }
        }
        i := i + 1;
      }
      assert fds[..i] == fds;
      SurvivorsAll(was, fds);
    }

    /** Overdue connections go, the others are asked for a sign of life. */
    method PingTimerData(deadline: int) returns (ghost fds: seq<int>)
      requires Valid() && Symmetric(View())
      modifies this`connections, this`sent, connections.Values
      ensures Ascending(fds) && forall g :: g in fds <==> g in old(connections)
      ensures Valid() && View() == Expire(old(View()), fds, deadline)
      ensures sent == old(sent) + AllPingSends(old(View()), fds, deadline)
    {
      hide View, Expire, ExpireOne, Symmetric, Logout, Remove, PingSends, AllPingSends;
      var order := InOrder(connections.Keys);
      fds := order;
      ghost var was, objects, before := View(), connections.Values, sent;
      ghost var done: seq<(int, string)> := [];
      assert forall j :: 0 <= j < |order| ==> order[j] in order;
      assert order[0..] == order;
      var i := 0;
      while i < |order|
        invariant 0 <= i <= |order| && Valid() && Symmetric(View())
        invariant connections.Values <= objects
        invariant Expire(View(), order[i..], deadline) == Expire(was, order, deadline)
        invariant sent == before + done
        invariant done + AllPingSends(View(), order[i..], deadline) == AllPingSends(was, order, deadline)
        invariant forall j :: i <= j < |order| ==> order[j] in connections
      {
        ExpireNext(View(), order[i..], deadline);
        assert order[i..][0] == order[i] && order[i..][1..] == order[i + 1..];
        ghost var one := PingSends(View(), order[i], deadline);
        Regroup(before, done, one);
        Regroup(done, one, AllPingSends(ExpireOne(View(), order[i], deadline), order[i + 1..], deadline));
        done := done + one;
        PingOne(order[i], deadline);
        i := i + 1;
      }
      assert order[i..] == [];
      ExpireNone(View(), deadline);
    }

    method PingOne(fd: int, deadline: int)
      requires Valid() && Symmetric(View()) && fd in connections
      modifies this`connections, this`sent, connections.Values
      ensures Valid() && View() == ExpireOne(old(View()), fd, deadline) && Symmetric(View())
      ensures sent == old(sent) + PingSends(old(View()), fd, deadline)
      ensures connections.Values <= old(connections.Values)
      ensures forall g :: g in old(connections) && g != fd ==> g in connections
    {
      hide View, Symmetric, Logout, Remove;
      ViewAt(fd);
      SymmetricAt(View(), fd);
      ExpireOneKeeps(View(), fd, deadline);
      if connections[fd].ping < deadline {
        LogoutUser(fd);
        Drop(fd);
      } else {
        SendCommand(fd, "PG!");
      }
    }

    // -------------------------------------------------------------- logging in

    /** The first connection but one that has the user. */
    method GetFdByUid(uid: int, exceptFd: int) returns (fd: int)
      requires Valid() && forall g :: g in connections ==> g >= 0
      ensures fd >= 0 <==> Elsewhere(View(), uid, exceptFd)
      ensures fd >= 0 ==> fd in connections && fd != exceptFd && View()[fd].uid == uid
      ensures fd >= 0 ==> forall g :: g in connections && g != exceptFd && View()[g].uid == uid ==> fd <= g
    {
      var fds := InOrder(connections.Keys);
      var i := 0;
      while i < |fds|
        invariant 0 <= i <= |fds|
        invariant forall g :: g in fds[..i] && g != exceptFd ==> connections[g].uid != uid
      {
        assert fds[i] in fds;
        if connections[fds[i]].uid == uid && fds[i] != exceptFd {
          return fds[i];
        }
        i := i + 1;
      }
      assert fds[..i] == fds;
      fd := -1;
    }

    method LogIn(fd: int, wellFormed: bool, user: Option<User>, challenge: string, local: Addr, version: string)
      requires Valid() && CanEnd(View(), fd)
      modifies this`sent, connections.Values
      ensures View() == Login(old(View()), fd, wellFormed, user, local, version)
      ensures sent == old(sent) + if wellFormed then [(fd, "LI " + challenge + "!")]
                                  else [(fd, Er(MALFORMED))] + KillSends(old(View()), fd)
    {
      hide View, Kill, Decimal;
      if !wellFormed {
        SendCommand(fd, Er(MALFORMED));
        SocketKill(fd);
        return;
      }
      SendCommand(fd, "LI " + challenge + "!");
      if user.Some? {
        SetUser(fd, user.value.uid, user.value.username, user.value.hash, local);
        SetVersion(fd, version);
      }
    }

    method SetVersion(fd: int, version: string)
      requires Valid() && fd in connections
      modifies connections[fd]
      ensures View() == old(View())[fd := old(View())[fd].(version := version)]
    {
      connections[fd].version := version;
      OneChanged(fd);
    }

    method SetIsAuthenticated(fd: int)
      requires Valid() && fd in connections
      modifies connections[fd]
      ensures View() == old(View())[fd := old(View())[fd].(auth := true)]
    {
      connections[fd].auth := true;
      OneChanged(fd);
    }

    method UpdatePing(fd: int, now: int)
      requires Valid() && fd in connections
      modifies connections[fd]
      ensures View() == old(View())[fd := old(View())[fd].(ping := now)]
    {
      connections[fd].ping := now;
      OneChanged(fd);
    }

    method Refuse(fd: int, code: nat)
      requires Valid() && CanEnd(View(), fd)
      modifies this`sent, connections.Values
      ensures View() == Kill(old(View()), fd)
      ensures sent == old(sent) + ([(fd, Er(code))] + KillSends(old(View()), fd))
    {
      hide View, Kill, Decimal;
      SendCommand(fd, Er(code));
      SocketKill(fd);
    }

    method CheckPassword(fd: int, wellFormed: bool, hash: string)
      requires Valid() && CanEnd(View(), fd) && forall g :: g in connections ==> g >= 0
      modifies this`sent, connections.Values
      ensures View() == Password(old(View()), fd, wellFormed, hash)
      ensures sent == old(sent) + PasswordSends(old(View()), fd, wellFormed, hash)
    {
      hide View, Kill, Decimal, KillSends, Elsewhere;
      ViewAt(fd);
      if !wellFormed {
        Refuse(fd, MALFORMED);
        return;
      }
      if connections[fd].uid == 0 {
        Refuse(fd, USER_INVALID);
        return;
      }
      if hash != connections[fd].hash {
        Refuse(fd, USER_INVALID);
        return;
      }
      var other := GetFdByUid(connections[fd].uid, fd);
      if other >= 0 {
        Refuse(fd, USER_ACTIVE);
        return;
      }
      SetIsAuthenticated(fd);
      SendCommand(fd, "OK " + Decimal(REGISTRATION) + "!");
    }

    // -------------------------------------------------------------- calls

    /** Goes through the connections until a pass finds the port used by none from the address. */
    method GeneratePort(addr: Addr) returns (port: uint16)
      requires Valid() && |View()| < MOST
      ensures port == LeastPort(View(), addr)
    {
      hide LeastPort, View;
      var fds := InOrder(connections.Keys);
      port := FIRST;
      var found := true;
      while found
        invariant FIRST <= port <= FIRST + 2 * |View()| && port % 2 == 0 && UsedBelow(View(), addr, port)
        invariant !found ==> !Used(View(), addr, port)
        decreases FIRST + 2 * |View()| - port, found
      {
        port, found := NextPort(fds, addr, port);
      }
      LeastPortUnique(View(), addr, port, LeastPort(View(), addr));
    }

    /** One pass. */
    method NextPort(fds: seq<int>, addr: Addr, from: uint16) returns (port: uint16, found: bool)
      requires Valid() && |View()| < MOST && forall g :: g in fds <==> g in connections
      requires FIRST <= from <= FIRST + 2 * |View()| && from % 2 == 0 && UsedBelow(View(), addr, from)
      ensures from <= port <= FIRST + 2 * |View()| && port % 2 == 0 && UsedBelow(View(), addr, port)
      ensures if found then port > from else port == from && !Used(View(), addr, port)
    {
      hide View, UsedBelow;
      port, found := from, false;
      var i := 0;
      while i < |fds|
        invariant 0 <= i <= |fds| && from <= port <= FIRST + 2 * |View()| && port % 2 == 0
        invariant UsedBelow(View(), addr, port)
        invariant if found then port > from else port == from
        invariant !found ==> forall j :: 0 <= j < i ==>
                    fds[j] in View() && !(View()[fds[j]].peer == addr && View()[fds[j]].port == port)
      {
        assert fds[i] in fds;
        ViewAt(fds[i]);
        if connections[fds[i]].peer == addr && connections[fds[i]].port == port {
          assert Used(View(), addr, port);
          OneMoreUsed(View(), addr, port);
          FewUsed(View(), addr, port + 2);
          port := port + 2;
          found := true;
        }
        i := i + 1;
      }
    }

    /** The last connection that has the user. */
    method FindCallee(uid: int) returns (d: int)
      requires Valid() && forall g :: g in connections ==> g >= 0
      ensures d < 0 <==> forall g :: g in connections ==> View()[g].uid != uid
      ensures d >= 0 ==> IsLast(View(), uid, d)
      ensures d >= -1
    {
      var fds := InOrder(connections.Keys);
      d := -1;
      var i := 0;
      while i < |fds|
        invariant 0 <= i <= |fds| && d >= -1
        invariant d < 0 ==> forall g :: g in fds[..i] ==> connections[g].uid != uid
        invariant d >= 0 ==> d in connections && connections[d].uid == uid
        invariant d >= 0 ==> forall g :: g in fds[..i] && connections[g].uid == uid ==> g <= d
        invariant d >= 0 ==> forall j :: i <= j < |fds| ==> d < fds[j]
      {
        assert fds[i] in fds;
        if connections[fds[i]].uid == uid {
          d := fds[i];
        }
        i := i + 1;
      }
      assert fds[..i] == fds;
    }

    method SendAll(fd: int, cmds: seq<string>)
      requires fd in connections
      modifies this`sent
      ensures sent == old(sent) + To(fd, cmds)
    {
      var i := 0;
      while i < |cmds|
        invariant 0 <= i <= |cmds|
        invariant sent == old(sent) + To(fd, cmds[..i])
      {
        ToNext(fd, cmds, i);
        SendCommand(fd, cmds[i]);
        i := i + 1;
      }
      assert cmds[..i] == cmds;
    }

    method Point(fd: int, d: int)
      requires Valid() && fd in connections && d in connections
      modifies connections.Values
      ensures View() == Pointed(old(View()), fd, d)
    {
      hide View;
      SetConnectionFd(fd, d);
      SetConnectionFd(d, fd);
    }

    method Number(fd: int, d: int, callId: Option<nat>)
      requires Valid() && fd in connections && d in connections
      modifies connections.Values
      ensures View() == Numbered(old(View()), fd, d, callId)
    {
      hide View;
      if callId.Some? {
        SetCid(fd, callId.value);
        SetCid(d, callId.value);
      }
    }

    method GivePorts(fd: int, d: int, src: Addr, dest: Addr)
      requires Valid() && fd in connections && d in connections && |View()| < MOST
      modifies connections.Values
      ensures View() == PortsGiven(old(View()), fd, d, src, dest)
    {
      hide View, LeastPort;
      var p := GeneratePort(src);
      SetSourcePort(fd, p);
      var q := GeneratePort(dest);
      SetSourcePort(d, q);
    }

    /** The two sides point at each other and get their ports and the number of the call. */
    method Join(fd: int, d: int, callId: Option<nat>)
      requires Valid() && fd in connections && d in connections && |View()| < MOST
      modifies connections.Values
      ensures View() == SetUpPorts(old(View()), fd, d, callId)
    {
      hide View, PortsGiven, Pointed, Numbered, SetUpPorts;
      ghost var m := View();
      ViewAt(fd);
      ViewAt(d);
      var same := connections[fd].peer == connections[d].peer;
      var src := if same then connections[fd].local else connections[fd].peer;
      var dest := if same then connections[d].local else connections[d].peer;
      JoinInSteps(m, fd, d, callId);
      Point(fd, d);
      GivePorts(fd, d, src, dest);
      Number(fd, d, callId);
    }

    /** CA: the callee is looked up by its user number and only has to be idle. `d` is who was called. */
    method InitiateCall(fd: int, cmd: seq<string>, world: World) returns (ghost d: int)
      requires Valid() && fd in connections && |View()| < MOST && forall g :: g in connections ==> g >= 0
      modifies this`sent, connections.Values
      ensures View() == CallOutcome(old(View()), fd, cmd, world, d).0
      ensures sent == old(sent) + CallOutcome(old(View()), fd, cmd, world, d).1
      ensures |cmd| == 14 && world.callee.Some? ==> IsCallee(old(View()), world.callee.value, d)
      ensures |cmd| != 14 || world.callee.None? ==> d < 0
    {
      hide View, Er, SetUpPorts, CallSends, IsLast;
      d := -1;
      if |cmd| != 14 {
        SendCommand(fd, Er(MALFORMED));
        return;
      }
      if world.callee.None? {
        SendCommand(fd, Er(CALLEE_UNKNOWN));
        return;
      }
      var callee := FindCallee(world.callee.value);
      d := callee;
      if callee < 0 {
        SendCommand(fd, Er(CALLEE_OFFLINE));
        return;
      }
      ViewAt(callee);
      if connections[callee].connFd >= 0 {
        SendCommand(fd, Er(CALLEE_BUSY));
        return;
      }
      Start(fd, callee, cmd, world);
    }

    method Start(fd: int, d: int, cmd: seq<string>, world: World)
      requires Valid() && fd in connections && d in connections && |View()| < MOST && |cmd| == 14
      modifies this`sent, connections.Values
      ensures View() == SetUpPorts(old(View()), fd, d, world.callId)
      ensures sent == old(sent) + CallSends(View(), fd, d, cmd, world)
    {
      hide View, Er, SetUpPorts, MediaSends, To;
      SendCommand(fd, Er(PROCEEDING));
      Join(fd, d, world.callId);
      Tell(fd, d, cmd, world);
    }

    /** Both sides are told of the call and of each other. */
    method Tell(fd: int, d: int, cmd: seq<string>, world: World)
      requires Valid() && fd in connections && d in connections && |cmd| == 14
      modifies this`sent
      ensures [(fd, Er(PROCEEDING))] <= CallSends(View(), fd, d, cmd, world)
      ensures sent == old(sent) + CallSends(View(), fd, d, cmd, world)[1..]
    {
      hide View, Er, MediaSends, To;
      SendMedia(fd, d, cmd);
      SendAll(d, world.ofCaller);
      SendAll(fd, world.ofCallee);
    }

    method SendMedia(fd: int, d: int, cmd: seq<string>)
      requires Valid() && fd in connections && d in connections && |cmd| == 14
      modifies this`sent
      ensures sent == old(sent) + MediaSends(View(), fd, d, cmd)
    {
      hide View, ToCaller, ToCallee, Spaced;
      ViewAt(fd);
      ViewAt(d);
      var same := connections[fd].peer == connections[d].peer;
      var src := if same then connections[fd].local else connections[fd].peer;
      var dest := if same then connections[d].local else connections[d].peer;
      SendCommand(fd, Spaced(ToCaller(connections[d].username, connections[fd].port, dest, connections[d].port,
          cmd)) + "!");
      SendCommand(d, Spaced(ToCallee(connections[fd].username, connections[d].port, src, connections[fd].port,
          cmd)) + "!");
    }

    /** CB and ER go to the other side of the call, word by word, if there is one. */
    method ForwardMessage(fd: int, cmd: seq<string>)
      requires Valid() && CanEnd(View(), fd) && cmd != []
      modifies this`sent
      ensures sent == old(sent) + ForwardSends(View(), fd, cmd)
    {
      ViewAt(fd);
      if connections[fd].connFd < 0 {
        return;
      }
      var msg: string := [];
      var i := 0;
      while i < |cmd|
        invariant 0 <= i <= |cmd|
        invariant msg + Spaced(cmd[i..]) + (if i == |cmd| then [] else " ") == Spaced(cmd) + " "
      {
        assert cmd[i..][0] == cmd[i] && cmd[i..][1..] == cmd[i + 1..];
        msg := msg + (cmd[i] + " ");
        i := i + 1;
      }
      assert msg == Spaced(cmd) + " ";
      SendCommand(connections[fd].connFd, msg[..|msg| - 1] + "!");
    }

    /** One line of a client, split into words. */
    method ParseCommand(fd: int, line: string, world: World) returns (ghost d: int)
      requires Valid() && CanEnd(View(), fd) && |View()| < MOST && forall g :: g in connections ==> g >= 0
      requires Split(Strip(line), ' ') != []
      modifies this`sent, connections.Values
      ensures var o := CommandOutcome(old(View()), fd, Split(Strip(line), ' '), world, d);
              View() == o.0 && sent == old(sent) + o.1
      ensures world.callee.Some? ==> d < 0 || IsCallee(old(View()), world.callee.value, d)
      ensures Symmetric(old(View())) && Numbers(world) ==>
                && Answers(old(View()), fd, Split(Strip(line), ' '), world, d)
                && View() == AfterEvent(old(View()), EventOf(old(View()), fd, Split(Strip(line), ' '), world, d))
    {
      hide View, Decimal, Symmetric, AfterEvent, EventOf, Login, Password, Kill, EndCall, CallOutcome,
           PasswordSends, KillSends, EndSends, ForwardSends, ParseAddr, Split, Strip, IsLast;
      d := -1;
      var cmds := Split(Strip(line), ' ');
      ViewAt(fd);
      if cmds[0] == "LI" {
        LoginMalformed(View(), fd, world.user, NULL_ADDR, "");
        LogIn(fd, |cmds| == 4, world.user, world.challenge, if |cmds| == 4 then ParseAddr(cmds[2]) else NULL_ADDR,
              if |cmds| == 4 then cmds[3] else "");
      } else if cmds[0] == "PW" {
        CheckPassword(fd, |cmds| == 2, if |cmds| == 2 then cmds[1] else "");
      } else if !connections[fd].auth {
        Refuse(fd, LOGIN_NEEDED);
      } else {
        d := Dispatch(fd, cmds, world);
      }
      if Symmetric(old(View())) && Numbers(world) {
        CommandIsStep(old(View()), fd, cmds, world, d);
      }
    }

    /** The commands of a client that has logged in. */
    method Dispatch(fd: int, cmds: seq<string>, world: World) returns (ghost d: int)
      requires Valid() && CanEnd(View(), fd) && |View()| < MOST && forall g :: g in connections ==> g >= 0
      requires cmds != []
      modifies this`sent, connections.Values
      ensures var o := UserOutcome(old(View()), fd, cmds, world, d);
              View() == o.0 && sent == old(sent) + o.1
      ensures world.callee.Some? ==> d < 0 || IsCallee(old(View()), world.callee.value, d)
      ensures cmds[0] == "CA" && |cmds| == 14 && world.callee.Some? ==> IsCallee(old(View()), world.callee.value, d)
    {
      hide View, Decimal, EndCall, CallOutcome, EndSends, ForwardSends, IsLast;
      d := -1;
      if cmds[0] == "CA" {
        d := InitiateCall(fd, cmds, world);
      } else if cmds[0] == "BY" {
        End(fd);
      } else if cmds[0] == "CB" || cmds[0] == "ER" {
        ForwardMessage(fd, cmds);
      } else if cmds[0] == "MD" {
      } else if cmds[0] == "PG" {
        UpdatePing(fd, world.now);
      } else {
        SendCommand(fd, Er(UNKNOWN_COMMAND));
      }
    }
  }

  function Pointed(m: Conns, fd: int, d: int): (n: Conns)
    requires fd in m && d in m
    ensures n.Keys == m.Keys
  {
    var m1 := m[fd := m[fd].(connFd := d)];
    m1[d := m1[d].(connFd := fd)]
  }

  ghost function PortsGiven(m: Conns, fd: int, d: int, src: Addr, dest: Addr): (n: Conns)
    requires fd in m && d in m && |m| < MOST
    ensures n.Keys == m.Keys
  {
    var m1 := m[fd := m[fd].(port := LeastPort(m, src))];
    SameSize(m, fd, m[fd].(port := LeastPort(m, src)));
    m1[d := m1[d].(port := LeastPort(m1, dest))]
  }

  function Numbered(m: Conns, fd: int, d: int, callId: Option<nat>): Conns
    requires fd in m && d in m
  {
    if callId.None? then m
    else
      var m1 := m[fd := m[fd].(cid := callId.value)];
      m1[d := m1[d].(cid := callId.value)]
  }

  /** Pointing first changes nothing for the search of ports. */
  lemma JoinInSteps(m: Conns, fd: int, d: int, callId: Option<nat>)
    requires fd in m && d in m && |m| < MOST
    ensures var m2 := Pointed(m, fd, d);
            && |m2| < MOST
            && Numbered(PortsGiven(m2, fd, d, SourceAddr(m, fd, d), SourceAddr(m, d, fd)), fd, d, callId) ==
               SetUpPorts(m, fd, d, callId)
  {
    hide LeastPort;
    var p := LeastPort(m, SourceAddr(m, fd, d));
    JoinSizes(m, fd, d, p);
    LeastPortSame(m, Pointed(m, fd, d), SourceAddr(m, fd, d));
    var m1 := m[fd := m[fd].(port := p)];
    SameSize(m, fd, m[fd].(port := p));
    var m2 := Pointed(m, fd, d);
    LeastPortSame(m1, m2[fd := m2[fd].(port := p)], SourceAddr(m, d, fd));
  }

  lemma JoinSizes(m: Conns, fd: int, d: int, p: uint16)
    requires fd in m && d in m
    ensures var m1 := m[fd := m[fd].(connFd := d)];
            var m2 := m1[d := m1[d].(connFd := fd)];
            |m1| == |m2| == |m| && |m2[fd := m2[fd].(port := p)]| == |m|
  {
    var m1 := m[fd := m[fd].(connFd := d)];
    var m2 := m1[d := m1[d].(connFd := fd)];
    SameSize(m, fd, m[fd].(connFd := d));
    SameSize(m1, d, m1[d].(connFd := fd));
    SameSize(m2, fd, m2[fd].(port := p));
  }

  lemma ExpireNext(m: Conns, fds: seq<int>, deadline: int)
    requires fds != []
    ensures Expire(m, fds, deadline) == Expire(ExpireOne(m, fds[0], deadline), fds[1..], deadline)
    ensures AllPingSends(m, fds, deadline) ==
            PingSends(m, fds[0], deadline) + AllPingSends(ExpireOne(m, fds[0], deadline), fds[1..], deadline)
  {
  }

  lemma ExpireNone(m: Conns, deadline: int)
    ensures Expire(m, [], deadline) == m && AllPingSends(m, [], deadline) == []
  {
  }

  /** The map when the zombies of some descriptors are gone. */
  function Survivors(m: Conns, gone: seq<int>): Conns {
    map g | g in m && !(g in gone && m[g].zombie) :: m[g]
  }

  lemma SurvivorsNone(m: Conns)
    ensures Survivors(m, []) == m
  {
  }

  lemma SurvivorsNext(m: Conns, fds: seq<int>, i: nat)
    requires i < |fds|
    ensures var s := Survivors(m, fds[..i]);
            Survivors(m, fds[..i + 1]) == if fds[i] in s && s[fds[i]].zombie then Remove(s, fds[i]) else s
  {
    assert fds[..i + 1] == fds[..i] + [fds[i]];
  }

  lemma SurvivorsAll(m: Conns, fds: seq<int>)
    requires forall g :: g in m ==> g in fds
    ensures Survivors(m, fds) == Reap(m)
  {
    var a, b := Survivors(m, fds), Reap(m);
    assert forall g :: g in a <==> g in b;
  }
}
