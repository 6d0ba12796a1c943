/**
 * netsipd/netsipd.cpp on values: the map of connections, what each command does to it, and the symmetry
 * of calls that every run keeps.
 */
module Calls {
  import opened Words
  import opened Options
  import opened Negotiation

  datatype Conn = Conn(
    uid: int, cid: int, username: string, hash: string, connFd: int, port: uint16,
    peer: Addr, local: Addr, version: string, zombie: bool, auth: bool, ping: int)

  type Conns = map<int, Conn>

  function FreshConn(peer: Addr, now: int): Conn {
    Conn(0, -1, "", "", -1, 0, peer, NULL_ADDR, "0.0.0", false, false, now)
  }

  // ---------------------------------------------------------------- what the commands do

  predicate CanEnd(m: Conns, fd: int) {
    fd in m && (m[fd].connFd >= 0 ==> m[fd].connFd in m)
  }

  function Hung(c: Conn): Conn {
    c.(connFd := -1, cid := -1, port := 0)
  }

  /** BY: both sides of the call are idle. */
  function EndCall(m: Conns, fd: int): Conns
    requires CanEnd(m, fd)
  {
    var m1 := if m[fd].connFd >= 0 then m[m[fd].connFd := Hung(m[m[fd].connFd])] else m;
    m1[fd := Hung(m1[fd])]
  }

  function Unpaired(m: Conns, fd: int): Conns
    requires CanEnd(m, fd)
  {
    var m1 := if m[fd].connFd >= 0 then m[m[fd].connFd := m[m[fd].connFd].(connFd := -1)] else m;
    m1[fd := m1[fd].(connFd := -1)]
  }

  /** Clears the user of a connection; one without a user is left as it is, call and all. */
  function Logout(m: Conns, fd: int): Conns
    requires CanEnd(m, fd)
  {
    if !m[fd].auth || m[fd].uid <= 0 then m
    else
      var m1 := if m[fd].cid >= 0 then EndCall(m, fd) else m;
      var m2 := Unpaired(m1, fd);
      m2[fd := m2[fd].(uid := 0, username := "", hash := "", local := NULL_ADDR)]
  }

  lemma EndCallCanEnd(m: Conns, fd: int)
    requires CanEnd(m, fd)
    ensures CanEnd(EndCall(m, fd), fd) && EndCall(m, fd).Keys == m.Keys && Unpaired(m, fd).Keys == m.Keys
  {
  }

  lemma LogoutKeys(m: Conns, fd: int)
    requires CanEnd(m, fd)
    ensures Logout(m, fd).Keys == m.Keys
  {
  }

  function Kill(m: Conns, fd: int): Conns
    requires CanEnd(m, fd)
  {
    if m[fd].zombie then m
    else
      var m1 := Logout(m, fd);
      m1[fd := m1[fd].(zombie := true)]
  }

  function Remove(m: Conns, fd: int): Conns {
    map g | g in m && g != fd :: m[g]
  }

  function Reap(m: Conns): Conns {
    map g | g in m && !m[g].zombie :: m[g]
  }

  datatype User = User(uid: nat, username: string, hash: string)

  /** LI: the user found in the directory, if any. */
  function Login(m: Conns, fd: int, wellFormed: bool, user: Option<User>, local: Addr, version: string): Conns
    requires CanEnd(m, fd)
  {
    if !wellFormed then Kill(m, fd)
    else if user.None? then m
    else m[fd := m[fd].(uid := user.value.uid, username := user.value.username, hash := user.value.hash,
                        local := local, version := version)]
  }

  /** Whether another connection has the user, logged in or not. */
  predicate Elsewhere(m: Conns, uid: int, fd: int) {
    exists g :: g in m && g != fd && m[g].uid == uid
  }

  predicate PasswordOk(m: Conns, fd: int, wellFormed: bool, hash: string)
    requires fd in m
  {
    wellFormed && m[fd].uid != 0 && hash == m[fd].hash && !Elsewhere(m, m[fd].uid, fd)
  }

  /** PW: anything but the right answer for a user seen once ends the connection. */
  function Password(m: Conns, fd: int, wellFormed: bool, hash: string): Conns
    requires CanEnd(m, fd)
  {
    if PasswordOk(m, fd, wellFormed, hash) then m[fd := m[fd].(auth := true)] else Kill(m, fd)
  }

  /** The callee of a user number is the last connection that has it. */
  ghost predicate IsLast(m: Conns, uid: int, d: int) {
    d in m && m[d].uid == uid && forall g :: g in m && m[g].uid == uid ==> g <= d
  }

  /** The two connections after a call is set up: the ports first, then the call's number, if any. */
  function SetUp(m: Conns, fd: int, d: int, p: uint16, q: uint16, cid: Option<nat>): Conns
    requires fd in m && d in m
  {
    var m1 := m[fd := m[fd].(connFd := d)];
    var m2 := m1[d := m1[d].(connFd := fd)];
    var m3 := m2[fd := m2[fd].(port := p)];
    var m4 := m3[d := m3[d].(port := q)];
    if cid.None? then m4
    else
      var m5 := m4[fd := m4[fd].(cid := cid.value)];
      m5[d := m5[d].(cid := cid.value)]
  }

  // ---------------------------------------------------------------- the symmetry of calls

  predicate Idle(c: Conn) {
    c.connFd == -1 && c.cid == -1
  }

  /** The connection's partner is there, is another, and is in the same call with it. */
  predicate PointsBack(m: Conns, fd: int)
    requires fd in m
  {
    var c := m[fd];
    c.connFd in m && c.connFd != fd && m[c.connFd].connFd == fd && m[c.connFd].cid == c.cid
  }

  /** Connections in calls are matched in pairs. */
  ghost predicate Matched(m: Conns) {
    forall fd :: fd in m ==> fd >= 0 && (Idle(m[fd]) || (m[fd].connFd >= 0 && PointsBack(m, fd)))
  }

  /** A connection in a call is one that a logout frees: it has a user, has logged in and is not gone. */
  predicate Paired(m: Conns, fd: int)
    requires fd in m
  {
    PointsBack(m, fd) && m[fd].auth && m[fd].uid > 0 && !m[fd].zombie
  }

  /** Whoever has logged in and is not gone has a user. */
  predicate UserFits(c: Conn) {
    c.uid >= 0 && c.cid >= -1 && (c.auth && !c.zombie ==> c.uid > 0)
  }

  /** Matched, and will be when connections close: the invariant of runs. */
  ghost predicate Symmetric(m: Conns) {
    forall fd :: fd in m ==> fd >= 0 && UserFits(m[fd]) && (Idle(m[fd]) || Paired(m, fd))
  }

  lemma SymmetricIsMatched(m: Conns)
    requires Symmetric(m)
    ensures Matched(m)
  {
    forall fd | fd in m
      ensures Idle(m[fd]) || (m[fd].connFd >= 0 && PointsBack(m, fd))
    {
      SymmetricAt(m, fd);
    }
  }

  lemma SymmetricAt(m: Conns, fd: int)
    requires Symmetric(m) && fd in m
    ensures CanEnd(m, fd) && UserFits(m[fd]) && fd >= 0
    ensures m[fd].connFd >= 0 <==> !Idle(m[fd])
    ensures m[fd].connFd >= 0 <==> Paired(m, fd)
    ensures m[fd].connFd >= 0 ==> Paired(m, m[fd].connFd)
  {
  }

  /** Ending a call leaves both sides idle and everyone else as they were. */
  lemma EndCallFrees(m: Conns, fd: int)
    requires Symmetric(m) && fd in m
    ensures Symmetric(EndCall(m, fd)) && EndCall(m, fd).Keys == m.Keys
    ensures Idle(EndCall(m, fd)[fd]) && (m[fd].connFd >= 0 ==> Idle(EndCall(m, fd)[m[fd].connFd]))
    ensures forall g :: g in m && g != fd && g != m[fd].connFd ==> EndCall(m, fd)[g] == m[g]
    ensures forall g :: g in m ==> EndCall(m, fd)[g].connFd != fd
  {
    SymmetricAt(m, fd);
  }

  /** So does a logout, which also leaves the connection without a user. */
  lemma LogoutFrees(m: Conns, fd: int)
    requires Symmetric(m) && fd in m
    ensures var n := Logout(m, fd);
            && n.Keys == m.Keys && Idle(n[fd]) && (m[fd].connFd >= 0 ==> Idle(n[m[fd].connFd]))
            && (forall g :: g in m && g != fd && g != m[fd].connFd ==> n[g] == m[g])
            && (forall g :: g in m && g != fd ==>
                  n[g].uid == m[g].uid && n[g].auth == m[g].auth && n[g].zombie == m[g].zombie)
            && (forall g :: g in m ==> n[g].connFd != fd)
            && n[fd].auth == m[fd].auth && n[fd].zombie == m[fd].zombie
            && (m[fd].auth ==> n[fd].uid == 0) && n[fd].uid >= 0
  {
    SymmetricAt(m, fd);
    if m[fd].auth && m[fd].cid >= 0 {
      EndCallFrees(m, fd);
      SymmetricAt(EndCall(m, fd), fd);
    }
  }

  lemma Rebuild(m: Conns, n: Conns, a: int, b: int)
    requires Symmetric(m) && n.Keys == m.Keys && a in m && m[a].connFd == b
    requires Idle(n[a]) && (b >= 0 ==> Idle(n[b])) && UserFits(n[a]) && (b >= 0 ==> UserFits(n[b]))
    requires forall g :: g in m && g != a && g != b ==> n[g] == m[g]
    ensures Symmetric(n)
  {
    SymmetricAt(m, a);
    forall g | g in n
      ensures g >= 0 && UserFits(n[g]) && (Idle(n[g]) || Paired(n, g))
    {
      SymmetricAt(m, g);
    }
  }

  lemma KillKeeps(m: Conns, fd: int)
    requires Symmetric(m) && fd in m
    ensures Symmetric(Kill(m, fd)) && Kill(m, fd).Keys == m.Keys
    ensures Kill(m, fd)[fd].zombie && Idle(Kill(m, fd)[fd])
    ensures m[fd].connFd >= 0 ==> Idle(Kill(m, fd)[m[fd].connFd])
  {
    SymmetricAt(m, fd);
    if !m[fd].zombie {
      LogoutFrees(m, fd);
      Rebuild(m, Kill(m, fd), fd, m[fd].connFd);
    }
  }

  lemma RemoveKeeps(m: Conns, fd: int)
    requires Symmetric(m) && (fd in m ==> Idle(m[fd]))
    ensures Symmetric(Remove(m, fd))
  {
    forall g | g in Remove(m, fd)
      ensures Idle(m[g]) || Paired(Remove(m, fd), g)
    {
      SymmetricAt(m, g);
    }
  }

  lemma ReapKeeps(m: Conns)
    requires Symmetric(m)
    ensures Symmetric(Reap(m))
    ensures forall g :: g in m && m[g].connFd >= 0 ==> g in Reap(m) && Reap(m)[g] == m[g]
  {
    forall g | g in m
      ensures m[g].zombie ==> Idle(m[g])
      ensures !m[g].zombie ==> Idle(m[g]) || Paired(Reap(m), g)
    {
      SymmetricAt(m, g);
    }
  }

  /** A new connection takes a descriptor that is free, or one whose old connection is gone. */
  lemma ConnectKeeps(m: Conns, fd: int, peer: Addr, now: int)
    requires Symmetric(m) && fd >= 0 && (fd in m ==> m[fd].zombie)
    ensures Symmetric(m[fd := FreshConn(peer, now)])
  {
    var n := m[fd := FreshConn(peer, now)];
    forall g | g in n
      ensures UserFits(n[g]) && (Idle(n[g]) || Paired(n, g))
    {
      if g != fd {
        SymmetricAt(m, g);
        if m[g].connFd == fd {
          SymmetricAt(m, fd);
        }
      }
    }
  }

  lemma LoginKeeps(m: Conns, fd: int, wellFormed: bool, user: Option<User>, local: Addr, version: string)
    requires Symmetric(m) && fd in m && (user.Some? ==> user.value.uid > 0)
    ensures CanEnd(m, fd) && Symmetric(Login(m, fd, wellFormed, user, local, version))
  {
    SymmetricAt(m, fd);
    KillKeeps(m, fd);
    if wellFormed && user.Some? {
      var n := Login(m, fd, wellFormed, user, local, version);
      forall g | g in n
        ensures UserFits(n[g]) && (Idle(n[g]) || Paired(n, g))
      {
        SymmetricAt(m, g);
      }
    }
  }

  lemma PasswordKeeps(m: Conns, fd: int, wellFormed: bool, hash: string)
    requires Symmetric(m) && fd in m
    ensures CanEnd(m, fd) && Symmetric(Password(m, fd, wellFormed, hash))
  {
    SymmetricAt(m, fd);
    KillKeeps(m, fd);
    if PasswordOk(m, fd, wellFormed, hash) {
      var n := Password(m, fd, wellFormed, hash);
      forall g | g in n
        ensures UserFits(n[g]) && (Idle(n[g]) || Paired(n, g))
      {
        SymmetricAt(m, g);
      }
    }
  }

  // ---------------------------------------------------------------- setting up a call

  /** A connection closed and then dropped, as by the zombie timer or when its descriptor is used again. */
  function Gone(m: Conns, fd: int): Conns
    requires CanEnd(m, fd)
  {
    Remove(Kill(m, fd), fd)
  }

  lemma MatchedAt(m: Conns, fd: int)
    requires Matched(m) && fd in m
    ensures CanEnd(m, fd) && fd >= 0
    ensures m[fd].connFd >= 0 <==> !Idle(m[fd])
    ensures m[fd].connFd >= 0 <==> PointsBack(m, fd)
  {
  }

  /** Setting up a call with an idle connection keeps connections matched exactly when the caller is idle
      too and is not the callee. */
  lemma SetUpMatchedExact(m: Conns, fd: int, d: int, p: uint16, q: uint16, cid: Option<nat>)
    requires Matched(m) && fd in m && d in m && m[d].connFd < 0
    ensures Matched(SetUp(m, fd, d, p, q, cid)) <==> Idle(m[fd]) && d != fd
  {
    var n := SetUp(m, fd, d, p, q, cid);
    MatchedAt(m, fd);
    MatchedAt(m, d);
    if Idle(m[fd]) && d != fd {
      forall g | g in n
        ensures g >= 0 && (Idle(n[g]) || (n[g].connFd >= 0 && PointsBack(n, g)))
      {
        MatchedAt(m, g);
      }
    } else if Matched(n) {
      MatchedAt(n, fd);
      MatchedAt(n, d);
      if d != fd {
        MatchedAt(n, m[fd].connFd);
      }
      assert false;
    }
  }

  /** The connections are matched, and stay so when either side of the call goes. */
  ghost predicate Sound(m: Conns, a: int, b: int) {
    && Matched(m) && CanEnd(m, a) && CanEnd(m, b)
    && Matched(Gone(m, a)) && Matched(Gone(m, b))
  }

  lemma SetUpKeeps(m: Conns, fd: int, d: int, p: uint16, q: uint16, cid: Option<nat>)
    requires Symmetric(m) && fd in m && d in m && m[fd].auth && m[d].uid > 0
    requires Idle(m[fd]) && Idle(m[d]) && d != fd && m[d].auth && !m[fd].zombie && !m[d].zombie
    ensures Symmetric(SetUp(m, fd, d, p, q, cid))
  {
    var n := SetUp(m, fd, d, p, q, cid);
    SymmetricAt(m, fd);
    SymmetricAt(m, d);
    forall g | g in n
      ensures UserFits(n[g]) && (Idle(n[g]) || Paired(n, g))
    {
      SymmetricAt(m, g);
    }
  }

  lemma GoneKeeps(m: Conns, fd: int)
    requires Symmetric(m) && fd in m
    ensures CanEnd(m, fd) && Matched(Gone(m, fd))
  {
    hide Kill, Remove;
    SymmetricAt(m, fd);
    KillKeeps(m, fd);
    RemoveKeeps(Kill(m, fd), fd);
    SymmetricIsMatched(Gone(m, fd));
  }

  /** A side of a call that no logout frees leaves the other pointing at nothing. */
  lemma GoneUnfreed(m: Conns, a: int, b: int)
    requires Matched(m) && a in m && b in m && m[a].connFd == b && b >= 0 && m[b].connFd == a
    requires m[a].zombie || !m[a].auth
    ensures CanEnd(m, a) && !Matched(Gone(m, a))
  {
    MatchedAt(m, a);
    assert Gone(m, a)[b].connFd == a && a !in Gone(m, a);
  }

  /** Setting up a call with an idle connection leaves a sound call exactly when the caller is idle too, is
      not the callee, the callee has logged in, and neither is gone; the server looks at none of these. */
  lemma SetUpExact(m: Conns, fd: int, d: int, p: uint16, q: uint16, cid: Option<nat>)
    requires Symmetric(m) && fd in m && d in m && m[fd].auth && m[d].uid > 0 && m[d].connFd < 0
    ensures Sound(SetUp(m, fd, d, p, q, cid), fd, d) <==>
            Idle(m[fd]) && d != fd && m[d].auth && !m[fd].zombie && !m[d].zombie
  {
    hide Gone, SetUp, Matched, Symmetric, Paired;
    var n := SetUp(m, fd, d, p, q, cid);
    SymmetricAt(m, fd);
    SymmetricAt(m, d);
    SymmetricIsMatched(m);
    SetUpMatchedExact(m, fd, d, p, q, cid);
    if Idle(m[fd]) && d != fd {
      SetUpSides(m, fd, d, p, q, cid);
      if m[d].auth && !m[fd].zombie && !m[d].zombie {
        SetUpKeeps(m, fd, d, p, q, cid);
        SymmetricIsMatched(n);
        GoneKeeps(n, fd);
        GoneKeeps(n, d);
      } else if m[fd].zombie {
        GoneUnfreed(n, fd, d);
      } else {
        GoneUnfreed(n, d, fd);
      }
    }
  }

  lemma SetUpSides(m: Conns, fd: int, d: int, p: uint16, q: uint16, cid: Option<nat>)
    requires fd in m && d in m && d != fd
    ensures var n := SetUp(m, fd, d, p, q, cid);
            && fd in n && d in n && n[fd].connFd == d && n[d].connFd == fd
            && n[fd].zombie == m[fd].zombie && n[d].zombie == m[d].zombie
            && n[fd].auth == m[fd].auth && n[d].auth == m[d].auth
  {
  }

  // ---------------------------------------------------------------- each condition fails somewhere

  function LoggedIn(peer: Addr, uid: nat): Conn {
    FreshConn(peer, 0).(uid := uid, auth := true)
  }

  /** A caller that is in a call with 5 calls 6: 5 is left with a partner that has another. */
  lemma BusyCaller(peer: Addr)
    ensures var m: Conns := map[4 := LoggedIn(peer, 1), 5 := LoggedIn(peer, 2), 6 := LoggedIn(peer, 3)];
            var n := SetUp(m, 4, 5, 5004, 5006, None);
            var o := SetUp(n, 4, 6, 5008, 5010, None);
            Symmetric(n) && !Matched(o) && o[5].connFd == 4 && o[4].connFd == 6
  {
    var m: Conns := map[4 := LoggedIn(peer, 1), 5 := LoggedIn(peer, 2), 6 := LoggedIn(peer, 3)];
    SetUpKeeps(m, 4, 5, 5004, 5006, None);
    var n := SetUp(m, 4, 5, 5004, 5006, None);
    var o := SetUp(n, 4, 6, 5008, 5010, None);
    assert o[5].connFd == 4 && o[4].connFd == 6;
    if Matched(o) {
      MatchedAt(o, 5);
      assert false;
    }
  }

  /** A callee that has named its user but not logged in is called, closes and is reaped: the caller is
      left with a partner that is not there. */
  lemma UnauthenticatedCallee(peer: Addr)
    ensures var m: Conns := map[4 := LoggedIn(peer, 1), 5 := FreshConn(peer, 0).(uid := 2)];
            var n := SetUp(m, 4, 5, 5004, 5006, None);
            && Symmetric(m) && Matched(n) && CanEnd(n, 5)
            && var o := Reap(Kill(n, 5));
            !Matched(o) && 4 in o && o[4].connFd == 5 && 5 !in o
  {
    var m: Conns := map[4 := LoggedIn(peer, 1), 5 := FreshConn(peer, 0).(uid := 2)];
    var n := SetUp(m, 4, 5, 5004, 5006, None);
    var o := Reap(Kill(n, 5));
    assert 4 in o && o[4].connFd == 5 && 5 !in o;
  }
}
