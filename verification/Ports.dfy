/** netsipd/netsipd.cpp, GeneratePort on values, and the ports of calls at one public address. */
module Ports {
  import opened Words
  import opened Options
  import opened Negotiation
  import opened Calls

  const FIRST := 5004
  const MOST := 30266  // connections, for the port to stay within 16 bits

  ghost predicate Used(m: Conns, addr: Addr, p: int) {
    exists g :: g in m && m[g].peer == addr && m[g].port == p
  }

  /** Every even port from the first one up to `p` is used at the address. */
  ghost predicate UsedBelow(m: Conns, addr: Addr, p: int) {
    forall k: nat :: FIRST + 2 * k < p ==> Used(m, addr, FIRST + 2 * k)
  }

  ghost predicate IsLeastPort(m: Conns, addr: Addr, p: int) {
    p >= FIRST && p % 2 == 0 && !Used(m, addr, p) && UsedBelow(m, addr, p)
  }

  lemma LeastPortUnique(m: Conns, addr: Addr, p: int, q: int)
    requires IsLeastPort(m, addr, p) && IsLeastPort(m, addr, q)
    ensures p == q
  {
    assert FIRST + 2 * ((p - FIRST) / 2) == p;
    assert FIRST + 2 * ((q - FIRST) / 2) == q;
  }

  lemma RemoveOne(s: set<int>, g: int)
    requires g in s
    ensures |s - {g}| == |s| - 1
  {
  }

  /** One of the owners has the k-th port. */
  ghost predicate Owned(m: Conns, addr: Addr, k: nat, owners: set<int>) {
    exists g :: g in owners && g in m && m[g].peer == addr && m[g].port == FIRST + 2 * k
  }

  /** Used ports have distinct owners, so there are no more of them than connections. */
  lemma {:induction false} Owners(m: Conns, addr: Addr, n: nat, owners: set<int>)
    requires forall k: nat :: k < n ==> Owned(m, addr, k, owners)
    ensures n <= |owners|
    decreases n
  {
    if n > 0 {
      assert Owned(m, addr, n - 1, owners);
      var g :| g in owners && g in m && m[g].peer == addr && m[g].port == FIRST + 2 * (n - 1);
      forall j: nat | j < n - 1
        ensures Owned(m, addr, j, owners - {g})
      {
        assert Owned(m, addr, j, owners);
        var h :| h in owners && h in m && m[h].peer == addr && m[h].port == FIRST + 2 * j;
        assert h in owners - {g};
      }
      Owners(m, addr, n - 1, owners - {g});
      RemoveOne(owners, g);
    }
  }

  lemma FewUsed(m: Conns, addr: Addr, p: int)
    requires p >= FIRST && p % 2 == 0 && UsedBelow(m, addr, p)
    ensures p <= FIRST + 2 * |m|
  {
    var n: nat := (p - FIRST) / 2;
    forall k: nat | k < n
      ensures Owned(m, addr, k, m.Keys)
    {
      assert Used(m, addr, FIRST + 2 * k);
    }
    Owners(m, addr, n, m.Keys);
    assert |m| == |m.Keys|;
  }

  ghost function PortFrom(m: Conns, addr: Addr, p: int): (q: int)
    requires p >= FIRST && p % 2 == 0 && UsedBelow(m, addr, p)
    ensures IsLeastPort(m, addr, q) && q <= FIRST + 2 * |m|
    decreases FIRST + 2 * |m| - p + 1
  {
    FewUsed(m, addr, p);
    if Used(m, addr, p) then
      assert UsedBelow(m, addr, p + 2) by { OneMoreUsed(m, addr, p); }
      FewUsed(m, addr, p + 2);
      PortFrom(m, addr, p + 2)
    else p
  }

  lemma OneMoreUsed(m: Conns, addr: Addr, p: int)
    requires p >= FIRST && p % 2 == 0 && UsedBelow(m, addr, p) && Used(m, addr, p)
    ensures UsedBelow(m, addr, p + 2)
  {
    forall k: nat | FIRST + 2 * k < p + 2
      ensures Used(m, addr, FIRST + 2 * k)
    {
      assert FIRST + 2 * k < p || FIRST + 2 * k == p;
    }
  }

  /** The least even port from 5004 that no connection from the address has. */
  ghost function LeastPort(m: Conns, addr: Addr): (p: uint16)
    requires |m| < MOST
    ensures IsLeastPort(m, addr, p)
  {
    PortFrom(m, addr, FIRST)
  }

  /** Only public addresses and ports matter to it. */
  lemma LeastPortSame(m: Conns, n: Conns, addr: Addr)
    requires n.Keys == m.Keys && |m| < MOST && |n| < MOST
    requires forall g :: g in m ==> n[g].peer == m[g].peer && n[g].port == m[g].port
    ensures LeastPort(n, addr) == LeastPort(m, addr)
  {
    hide LeastPort;
    var p := LeastPort(m, addr);
    forall q: int
      ensures Used(n, addr, q) == Used(m, addr, q)
    {
    }
    assert IsLeastPort(n, addr, p);
    LeastPortUnique(n, addr, p, LeastPort(n, addr));
  }

  // ---------------------------------------------------------------- ports of calls

  /** The addresses told of the two sides: public ones, but between clients behind one address their own. */
  function SourceAddr(m: Conns, fd: int, d: int): Addr
    requires fd in m && d in m
  {
    if m[fd].peer == m[d].peer then m[fd].local else m[fd].peer
  }

  /** The ports of the two sides, the second searched when the first is taken. */
  ghost function CallPorts(m: Conns, fd: int, d: int): (uint16, uint16)
    requires fd in m && d in m && |m| < MOST
  {
    var p := LeastPort(m, SourceAddr(m, fd, d));
    SameSize(m, fd, m[fd].(port := p));
    (p, LeastPort(m[fd := m[fd].(port := p)], SourceAddr(m, d, fd)))
  }

  ghost function SetUpPorts(m: Conns, fd: int, d: int, cid: Option<nat>): (n: Conns)
    requires fd in m && d in m && |m| < MOST
  {
    SetUp(m, fd, d, CallPorts(m, fd, d).0, CallPorts(m, fd, d).1, cid)
  }

  lemma SameSize(m: Conns, fd: int, c: Conn)
    requires fd in m
    ensures |m[fd := c]| == |m|
  {
    assert m[fd := c].Keys == m.Keys;
    assert |m[fd := c].Keys| == |m[fd := c]| && |m.Keys| == |m|;
  }

  /** No two connections from one public address have the same port, and ports are even. */
  ghost predicate UniquePorts(m: Conns) {
    && (forall a, b :: a in m && b in m && a != b && m[a].peer == m[b].peer && m[a].port != 0 ==>
          m[a].port != m[b].port)
    && (forall a :: a in m ==> m[a].port % 2 == 0)
  }

  /** A third connection from the address has the port. */
  ghost predicate TakenBeside(m: Conns, addr: Addr, p: int, fd: int, d: int) {
    exists g :: g in m && g != fd && g != d && m[g].peer == addr && m[g].port == p
  }

  /** The ports found for a call, wherever they were searched, are free at the public addresses. */
  ghost predicate PortsFit(m: Conns, fd: int, d: int)
    requires fd in m && d in m && |m| < MOST
  {
    var (p, q) := CallPorts(m, fd, d);
    && !TakenBeside(m, m[fd].peer, p, fd, d) && !TakenBeside(m, m[d].peer, q, fd, d)
    && (m[fd].peer == m[d].peer ==> p != q)
  }

  lemma SetUpShape(m: Conns, fd: int, d: int, p: uint16, q: uint16, cid: Option<nat>)
    requires fd in m && d in m && fd != d
    ensures var n := SetUp(m, fd, d, p, q, cid);
            && n.Keys == m.Keys && n[fd].port == p && n[d].port == q
            && n[fd].peer == m[fd].peer && n[d].peer == m[d].peer
            && (forall g :: g in m && g != fd && g != d ==> n[g] == m[g])
  {
  }

  /** A call keeps ports at every public address apart exactly when the ports found fit there. */
  lemma SetUpUniqueExact(m: Conns, fd: int, d: int, cid: Option<nat>)
    requires UniquePorts(m) && fd in m && d in m && fd != d && |m| < MOST
    ensures UniquePorts(SetUpPorts(m, fd, d, cid)) <==> PortsFit(m, fd, d)
  {
    hide LeastPort, SetUp;
    var (p, q) := CallPorts(m, fd, d);
    var n := SetUp(m, fd, d, p, q, cid);
    SameSize(m, fd, m[fd].(port := p));
    SetUpShape(m, fd, d, p, q, cid);
    if TakenBeside(m, m[fd].peer, p, fd, d) {
      var g :| g in m && g != fd && g != d && m[g].peer == m[fd].peer && m[g].port == p;
      assert n[g] == m[g];
    }
    if TakenBeside(m, m[d].peer, q, fd, d) {
      var g :| g in m && g != fd && g != d && m[g].peer == m[d].peer && m[g].port == q;
      assert n[g] == m[g];
    }
  }

  /** They fit between different public addresses, where they are searched. */
  lemma DifferentAddressesFit(m: Conns, fd: int, d: int)
    requires fd in m && d in m && |m| < MOST && m[fd].peer != m[d].peer
    ensures PortsFit(m, fd, d)
  {
    hide LeastPort;
    SearchedWhereUsed(m, fd, d);
  }

  /** And between clients that give the public address as their own. */
  lemma OwnAddressesFit(m: Conns, fd: int, d: int)
    requires fd in m && d in m && fd != d && |m| < MOST && m[fd].local == m[fd].peer && m[d].local == m[d].peer
    ensures PortsFit(m, fd, d)
  {
    hide LeastPort;
    SearchedWhereUsed(m, fd, d);
  }

  lemma SearchedWhereUsed(m: Conns, fd: int, d: int)
    requires fd in m && d in m && fd != d && |m| < MOST
    requires SourceAddr(m, fd, d) == m[fd].peer && SourceAddr(m, d, fd) == m[d].peer
    ensures PortsFit(m, fd, d)
  {
    hide LeastPort;
    var (p, q) := CallPorts(m, fd, d);
    var m1 := m[fd := m[fd].(port := p)];
    SameSize(m, fd, m[fd].(port := p));
    assert !Used(m, m[fd].peer, p) && !Used(m1, m[d].peer, q);
    forall g | g in m
      ensures g != fd && m[g].peer == m[d].peer ==> m[g].port != q
    {
      assert g in m1 && !(m1[g].peer == m[d].peer && m1[g].port == q);
    }
    assert !(m1[fd].peer == m[d].peer && m1[fd].port == q);
  }

  /** So a call between different public addresses keeps ports apart. */
  lemma SetUpKeepsUnique(m: Conns, fd: int, d: int, cid: Option<nat>)
    requires UniquePorts(m) && fd in m && d in m && |m| < MOST && m[fd].peer != m[d].peer
    ensures UniquePorts(SetUpPorts(m, fd, d, cid))
  {
    hide SetUpPorts, PortsFit;
    DifferentAddressesFit(m, fd, d);
    SetUpUniqueExact(m, fd, d, cid);
  }

  ghost predicate NobodysPeer(m: Conns, addr: Addr) {
    forall g :: g in m ==> m[g].peer != addr
  }

  lemma FirstIsFree(m: Conns, addr: Addr)
    requires |m| < MOST && NobodysPeer(m, addr)
    ensures LeastPort(m, addr) == FIRST
  {
    LeastPortUnique(m, addr, FIRST, LeastPort(m, addr));
  }

  /** The first port anyone gets at an address is 5004. */
  lemma FirstPort(m: Conns, addr: Addr)
    requires |m| < MOST && forall g :: g in m ==> !(m[g].peer == addr && m[g].port == 5004)
    ensures LeastPort(m, addr) == 5004
  {
    hide LeastPort;
    LeastPortUnique(m, addr, 5004, LeastPort(m, addr));
  }

  /** They never fit between clients behind one address whose own addresses are nobody's public one:
      the search is made at their own addresses, and both get the first port. */
  lemma SamePeerCollides(m: Conns, fd: int, d: int, cid: Option<nat>)
    requires fd in m && d in m && fd != d && |m| < MOST && m[fd].peer == m[d].peer
    requires NobodysPeer(m, m[fd].local) && NobodysPeer(m, m[d].local)
    ensures CallPorts(m, fd, d) == (FIRST, FIRST) && !PortsFit(m, fd, d)
    ensures var n := SetUpPorts(m, fd, d, cid);
            n[fd].port == n[d].port == FIRST && !UniquePorts(n)
  {
    hide LeastPort, SetUp;
    var m1 := m[fd := m[fd].(port := FIRST)];
    SameSize(m, fd, m[fd].(port := FIRST));
    FirstIsFree(m, m[fd].local);
    FirstIsFree(m1, m[d].local);
    SetUpShape(m, fd, d, FIRST, FIRST, cid);
  }

  function BehindOne(peer: Addr, a: Addr, b: Addr): Conns {
    map[4 := FreshConn(peer, 0).(uid := 1, auth := true, local := a),
        5 := FreshConn(peer, 0).(uid := 2, auth := true, local := b)]
  }

  /** An instance: the first two clients, both idle, ports apart before the call and not after it. */
  lemma FirstCallBehindOneAddress(peer: Addr, a: Addr, b: Addr)
    requires a != peer && b != peer
    ensures var m := BehindOne(peer, a, b);
            && |m| < MOST && Symmetric(m) && UniquePorts(m) && Idle(m[4]) && Idle(m[5])
            && !UniquePorts(SetUpPorts(m, 4, 5, None))
  {
    hide SetUpPorts, PortsFit, CallPorts;
    var m := BehindOne(peer, a, b);
    assert |m| == 2;
    SamePeerCollides(m, 4, 5, None);
  }

  /** So the pairs of ports for sound and for reports are disjoint. */
  lemma PairsDisjoint(m: Conns, a: int, b: int)
    requires UniquePorts(m) && a in m && b in m && a != b && m[a].peer == m[b].peer && m[a].port != 0 && m[b].port != 0
    ensures {m[a].port, m[a].port + 1} !! {m[b].port, m[b].port + 1}
  {
  }
}
