/** Clients of a tree of services, with one process's table for all clients: what Client.Subspace and
    Client.Close make of the references that keep the services alive. */
module Tree {
  import opened Namespaces
  import opened Kernel
  import opened Accounts
  import opened Api
  import opened Flags
  import opened Subspaces
  import opened Service
  import opened Clients
  import opened Session
  import Lifetime

  // The table's descriptors for near ends, each of which keeps a service alive. A service goes by the
  // number of the pair that connects it.
  function Refs(f: Fds): map<Lifetime.Holder, nat> {
    map fd | fd in f && f[fd].Socket? && !f[fd].far :: Lifetime.Client(fd) := f[fd].pair
  }

  lemma RefsOf(f: Fds, q: nat)
    ensures forall fd | fd in f && f[fd] == Socket(q, false) ::
              Lifetime.Client(fd) in Refs(f) && Refs(f)[Lifetime.Client(fd)] == q
  {
  }

  // No request is being handled, and the clients' descriptors are all references that there are.
  ghost predicate Represents(w: Lifetime.World, f: Fds) {
    w.refs == Refs(f) && Lifetime.Owned(w)
  }

  // Of the new descriptors only the connection is a socket.
  lemma OneNewSocket(f0: Fds, f: Fds, wanted: set<NsType>, kid: Child, conn: int, user: int, pid: int)
    requires TakenOver(f0, f, wanted, kid, conn, user, pid) && conn >= 0
    ensures Extends(f0, f) && conn in f && conn !in f0 && f[conn] == Socket(kid.pair, false)
    ensures forall fd | fd in f && fd !in f0 :: fd == conn || f[fd].Namespace?
  {
    hide Borrowed, OnlyNearEnd;
    var own := Conns(conn) + Borrowed([user, pid]);
    ElemsConcat(Conns(conn), Borrowed([user, pid]));
    assert conn in Elems(own);
    forall fd | fd in f && fd !in f0 ensures fd == conn || f[fd].Namespace? {
      assert fd in f.Keys && fd in Elems(own);
      if fd != conn {
        assert fd in Borrowed([user, pid]);
        OnlyTwo(user, pid, fd);
      }
    }
  }

  lemma OneMoreRef(f0: Fds, f: Fds, wanted: set<NsType>, kid: Child, conn: int, user: int, pid: int)
    requires Unused(f0, kid.pair) && TakenOver(f0, f, wanted, kid, conn, user, pid) && conn >= 0
    ensures Refs(f) == Refs(f0)[Lifetime.Client(conn) := kid.pair] && Lifetime.Client(conn) !in Refs(f0)
    ensures forall h | h in Refs(f0) :: h.Client? && Refs(f0)[h] != kid.pair
  {
    hide TakenOver;
    OneNewSocket(f0, f, wanted, kid, conn, user, pid);
    forall fd | fd in f0 ensures fd in f && f[fd] == f0[fd] && fd != conn {
      assert fd in f0.Keys;
    }
  }

  lemma OnlyTwo(user: int, pid: int, fd: int)
    requires fd in Borrowed([user, pid])
    ensures (fd == user || fd == pid) && fd > 0
  {
    BorrowedConcat([user], [pid]);
    assert [user] + [pid] == [user, pid];
    BorrowedOne(user);
    BorrowedOne(pid);
  }

  // Without a connection there is no socket among the new descriptors.
  lemma NoMoreRefs(f0: Fds, f: Fds, wanted: set<NsType>, kid: Child, conn: int, user: int, pid: int)
    requires Unused(f0, kid.pair) && TakenOver(f0, f, wanted, kid, conn, user, pid) && conn < 0
    ensures Refs(f) == Refs(f0)
  {
    hide Borrowed;
    assert Conns(conn) + Borrowed([user, pid]) == Borrowed([user, pid]);
    forall fd | fd in f && fd !in f0 ensures f[fd].Namespace? {
      assert fd in f.Keys && fd in Borrowed([user, pid]);
      OnlyTwo(user, pid, fd);
    }
    forall fd | fd in f0 ensures fd in f && f[fd] == f0[fd] {
      assert fd in f0.Keys;
    }
  }

  // Starting, sending and taking over one after another.
  lemma StartSendTake(w: Lifetime.World, p: nat, q: nat, fd: int)
    requires Lifetime.Owned(w) && w.Idle(p) && q !in w.alive && !w.Referenced(q) && Lifetime.Client(fd) !in w.refs
    ensures var w' := Lifetime.Run(w, [Lifetime.Start(p, q), Lifetime.Send(p), Lifetime.Take(p, fd)]);
            && Lifetime.Owned(w') && w'.refs == w.refs[Lifetime.Client(fd) := q] && w'.alive == w.alive + {q}
  {
    hide Lifetime.Owned;
    var e1, e2, e3 := Lifetime.Start(p, q), Lifetime.Send(p), Lifetime.Take(p, fd);
    var w1 := Lifetime.World(w.alive + {q}, w.refs[Lifetime.Handling(p) := q]);
    var w2 := w1.(refs := w.refs[Lifetime.Queued(p) := q]);
    var w3 := w1.(refs := w.refs[Lifetime.Client(fd) := q]);
    var h :| h in w.refs && h.Client? && w.refs[h] == p;
    assert h in w1.refs && w1.refs[h] == p;
    MovedOn(w.refs, Lifetime.Handling(p), Lifetime.Queued(p), q);
    MovedOn(w.refs, Lifetime.Queued(p), Lifetime.Client(fd), q);
    assert Lifetime.Step(w, e1) == w1 && Lifetime.Step(w1, e2) == w2 && Lifetime.Step(w2, e3) == w3;
    Lifetime.StepKeeps(w, e1);
    Lifetime.StepKeeps(w1, e2);
    Lifetime.StepKeeps(w2, e3);
    RunThree(w, e1, e2, e3);
  }

  // Starting and failing one after another.
  lemma StartFail(w: Lifetime.World, p: nat, q: nat)
    requires Lifetime.Owned(w) && w.Idle(p) && q !in w.alive && !w.Referenced(q)
    ensures var w' := Lifetime.Run(w, [Lifetime.Start(p, q), Lifetime.Fail(p)]);
            Lifetime.Owned(w') && w'.refs == w.refs && w'.alive == w.alive + {q}
  {
    hide Lifetime.Owned;
    var e1, e2 := Lifetime.Start(p, q), Lifetime.Fail(p);
    var w1 := Lifetime.World(w.alive + {q}, w.refs[Lifetime.Handling(p) := q]);
    assert w.refs[Lifetime.Handling(p) := q] - {Lifetime.Handling(p)} == w.refs;
    assert Lifetime.Step(w, e1) == w1 && Lifetime.Step(w1, e2) == w1.(refs := w.refs);
    Lifetime.StepKeeps(w, e1);
    Lifetime.StepKeeps(w1, e2);
    assert [e1, e2][..1] == [e1] && [e1][..0] == [];
    assert Lifetime.Run(w, [e1]) == w1;
  }

  lemma MovedOn(refs: map<Lifetime.Holder, nat>, from: Lifetime.Holder, to: Lifetime.Holder, q: nat)
    requires from !in refs
    ensures Lifetime.Moved(refs[from := q], from, to) == refs[to := q]
  {
  }

  lemma RunThree(w: Lifetime.World, a: Lifetime.Event, b: Lifetime.Event, c: Lifetime.Event)
    ensures Lifetime.Run(w, [a, b, c]) == Lifetime.Step(Lifetime.Step(Lifetime.Step(w, a), b), c)
  {
    hide Lifetime.Step;
    assert [a, b, c][..2] == [a, b] && [a, b][..1] == [a] && [a][..0] == [];
    assert Lifetime.Run(w, [a]) == Lifetime.Step(w, a);
    assert Lifetime.Run(w, [a, b]) == Lifetime.Step(Lifetime.Run(w, [a]), b);
  }

  // How the clients' process changes its table: a client asks service p for a subspace, which its call
  // returns, or the service fails after it has started one; a client is closed; a service that has lost
  // its client terminates; or something else happens that leaves all connections alone.
  datatype Move =
    | Called(p: nat, kid: Child, wanted: set<NsType>, conn: int, user: int, pid: int)
    | Refused(p: nat, kid: Child)
    | Closed(conn: int)
    | Ended(q: nat)
    | Other

  ghost predicate Moves(m: Move, w: Lifetime.World, f: Fds, f': Fds) {
    match m
    case Called(p, kid, wanted, conn, user, pid) =>
      && w.Idle(p) && kid.pair !in w.alive && Unused(f, kid.pair) && TakenOver(f, f', wanted, kid, conn, user, pid)
    case Refused(p, kid) => w.Idle(p) && kid.pair !in w.alive && Unused(f, kid.pair) && f' == f
    case Closed(conn) => f' == f - {conn}
    case Ended(_) => f' == f
    case Other => Refs(f') == Refs(f)
  }

  // A connection that could not be made is dropped.
  function Events(m: Move): seq<Lifetime.Event> {
    match m
    case Called(p, kid, _, conn, _, _) =>
      if conn < 0 then [Lifetime.Start(p, kid.pair), Lifetime.Fail(p)]
      else [Lifetime.Start(p, kid.pair), Lifetime.Send(p), Lifetime.Take(p, conn)]
    case Refused(p, kid) => [Lifetime.Start(p, kid.pair), Lifetime.Fail(p)]
    case Closed(conn) => [Lifetime.Close(conn)]
    case Ended(q) => [Lifetime.Exit(q)]
    case Other => []
  }

  ghost function Next(w: Lifetime.World, m: Move): Lifetime.World {
    Lifetime.Run(w, Events(m))
  }

  lemma RunOne(w: Lifetime.World, e: Lifetime.Event)
    ensures Lifetime.Run(w, [e]) == Lifetime.Step(w, e)
  {
    assert [e][..0] == [];
  }

  lemma MoveKeeps(w: Lifetime.World, m: Move, f: Fds, f': Fds)
    requires Represents(w, f) && Moves(m, w, f, f')
    ensures Represents(Next(w, m), f')
    ensures m.Called? ==> Next(w, m).alive == w.alive + {m.kid.pair}
    ensures m.Refused? || m.Other? || (m.Called? && m.conn < 0) ==> Next(w, m).refs == w.refs
    ensures m.Called? && m.conn >= 0 ==> Next(w, m).refs == w.refs[Lifetime.Client(m.conn) := m.kid.pair]
  {
    hide Lifetime.Owned, Lifetime.Run, TakenOver, Refs;
    match m
    case Called(p, kid, wanted, conn, user, pid) =>
      NotReferenced(w, f, kid.pair);
      if conn < 0 {
        NoMoreRefs(f, f', wanted, kid, conn, user, pid);
        StartFail(w, p, kid.pair);
      } else {
        OneMoreRef(f, f', wanted, kid, conn, user, pid);
        StartSendTake(w, p, kid.pair, conn);
      }
    case Refused(p, kid) =>
      NotReferenced(w, f, kid.pair);
      StartFail(w, p, kid.pair);
    case Closed(conn) =>
      RunOne(w, Lifetime.Close(conn));
      Lifetime.StepKeeps(w, Lifetime.Close(conn));
      OneRefLess(w, f, conn);
    case Ended(q) =>
      RunOne(w, Lifetime.Exit(q));
      Lifetime.StepKeeps(w, Lifetime.Exit(q));
    case Other => assert Lifetime.Run(w, []) == w by { RunNone(w); }
  }

  lemma RunNone(w: Lifetime.World)
    ensures Lifetime.Run(w, []) == w
  {
  }

  lemma NotReferenced(w: Lifetime.World, f: Fds, q: nat)
    requires Represents(w, f) && Unused(f, q)
    ensures !w.Referenced(q)
  {
  }

  lemma OneRefLess(w: Lifetime.World, f: Fds, conn: int)
    requires Represents(w, f)
    ensures Lifetime.Step(w, Lifetime.Close(conn)).refs == Refs(f - {conn})
  {
    hide Lifetime.Owned;
    var h, w', g := Lifetime.Client(conn), Lifetime.Step(w, Lifetime.Close(conn)), f - {conn};
    assert forall x | x in w.refs :: x.Client?;
    assert w'.refs == Refs(f) - {h};
    assert forall fd | fd in g :: fd != conn && g[fd] == f[fd];
  }

  // The tree after these moves.
  ghost function After(w: Lifetime.World, ms: seq<Move>): Lifetime.World {
    if ms == [] then w else Next(After(w, ms[..|ms| - 1]), ms[|ms| - 1])
  }

  // The moves lead from each of these tables to the next one.
  ghost predicate Lead(w: Lifetime.World, ms: seq<Move>, fs: seq<Fds>) {
    |fs| == |ms| + 1 && forall i | 0 <= i < |ms| :: Moves(ms[i], After(w, ms[..i]), fs[i], fs[i + 1])
  }

  /** However many calls, failed calls and closes there are, in whatever order, and with services that
      terminate as soon as they have lost their client, the connections in the table stay all references
      there are, and a service of the tree is only lost when its own client is closed. */
  lemma {:induction false} TreeStands(w: Lifetime.World, ms: seq<Move>, fs: seq<Fds>)
    requires Lead(w, ms, fs) && Represents(w, fs[0])
    ensures Represents(After(w, ms), fs[|ms|])
    ensures forall fd | Lifetime.Client(fd) in w.refs && Closed(fd) !in ms :: StillServed(w, After(w, ms), fd)
  {
    hide Lifetime.Owned, Moves, Next;
    if ms == [] {
      ServedNow(w);
    } else {
      var n := |ms| - 1;
      var init, m, w1 := ms[..n], ms[n], After(w, ms[..n]);
      LeadBefore(w, ms, fs);
      TreeStands(w, init, fs[..n + 1]);
      MoveKeeps(w1, m, fs[n], fs[n + 1]);
      forall fd | Lifetime.Client(fd) in w.refs && Closed(fd) !in ms ensures StillServed(w, After(w, ms), fd) {
        assert m in ms && Closed(fd) !in init;
        ServedNext(w, w1, m, fd);
      }
    }
  }

  lemma LeadBefore(w: Lifetime.World, ms: seq<Move>, fs: seq<Fds>)
    requires Lead(w, ms, fs) && ms != []
    ensures var n := |ms| - 1;
            Lead(w, ms[..n], fs[..n + 1]) && Moves(ms[n], After(w, ms[..n]), fs[n], fs[n + 1])
  {
    hide Moves;
    var n := |ms| - 1;
    forall i | 0 <= i < n ensures Moves(ms[i], After(w, ms[..n][..i]), fs[i], fs[i + 1]) {
      assert ms[..n][..i] == ms[..i];
    }
  }

  // A client still has the service that it had.
  ghost predicate StillServed(w: Lifetime.World, w': Lifetime.World, fd: int)
    requires Lifetime.Client(fd) in w.refs
  {
    var h := Lifetime.Client(fd);
    h in w'.refs && w'.refs[h] == w.refs[h] && w.refs[h] in w'.alive
  }

  lemma ServedNow(w: Lifetime.World)
    requires Lifetime.Owned(w)
    ensures forall fd | Lifetime.Client(fd) in w.refs :: StillServed(w, w, fd)
  {
  }

  lemma ServedNext(w: Lifetime.World, w1: Lifetime.World, m: Move, fd: int)
    requires Lifetime.Client(fd) in w.refs && StillServed(w, w1, fd) && Lifetime.Owned(w1) && m != Closed(fd)
    ensures StillServed(w, Next(w1, m), fd)
  {
    Lifetime.OnlyItsOwnCloseEndsIt(w1, Events(m), fd);
  }

  /** A Subspace call on the client of an idle service p adds one service to the tree, kept alive by the
      new client's connection alone; that is so, too, if the call fails after the connection was made.
      If the service reports an error, or no connection can be made of its response, no reference is
      left, whether or not a child was started. */
  method Subspace(c: Task, s: Task, home: View, turn: Turn, x: Exchange, pidKnown: bool,
                  ghost w: Lifetime.World, ghost p: nat)
    returns (o: Outcome, exit: Exit, conn: int, user: int, pid: int, sent: seq<Message>, ghost m: Move)
    requires c.Valid() && s.Valid() && Unused(c.fds, turn.kid.pair) && Unused(s.fds, turn.kid.pair)
    requires turn.receipt.Got? && turn.receipt.req.SubspaceRequest?
    requires Represents(w, c.fds) && w.Idle(p) && turn.kid.pair !in w.alive
    modifies s`fds, s`faults, s`nextIno, s`secluded, s`pairs, s`children, c`fds, c`faults, c`cleanups
    ensures o.Normal? ==> conn >= 0
    ensures conn >= 0 ==> SubspaceArrives(Exchanged(x, sent))
    ensures SubspaceArrives(Exchanged(x, sent)) ==>
      && m == Called(p, turn.kid, Wanted(turn.receipt.req.spaces), conn, user, pid)
      && Moves(m, w, old(c.fds), c.fds) && Represents(Next(w, m), c.fds)
      && Next(w, m).refs == if conn < 0 then w.refs else w.refs[Lifetime.Client(conn) := turn.kid.pair]
    ensures exit != CannotEncode && (exit != Running || (sent != [] && sent[0].body.ErrorBody?)) ==>
      && m == (if s.children == old(s.children) then Other else Refused(p, turn.kid))
      && Moves(m, w, old(c.fds), c.fds) && Represents(Next(w, m), c.fds) && Next(w, m).refs == w.refs
  {
    hide TakenOver, Lifetime.Owned, Lifetime.Run, Refs, Unused, Wanted;
    ghost var f, children := c.fds, s.children;
    o, exit, conn, user, pid, sent := SubspaceSession(c, s, home, turn, x, pidKnown);
    m := if s.children == children then Other else Refused(p, turn.kid);
    if SubspaceArrives(Exchanged(x, sent)) {
      m := Called(p, turn.kid, Wanted(turn.receipt.req.spaces), conn, user, pid);
    }
    if Moves(m, w, f, c.fds) {
      MoveKeeps(w, m, f, c.fds);
    }
  }

  /** Client.Close leaves no reference to the service's peer, so that the service can see its end, and
      keeps all other services. */
  method Close(c: Task, conn: int, ghost w: Lifetime.World)
    requires c.Valid() && Represents(w, c.fds) && conn > 0 && Lifetime.Client(conn) in w.refs
    modifies c`fds
    ensures c.Valid() && Moves(Closed(conn), w, old(c.fds), c.fds) && Represents(Next(w, Closed(conn)), c.fds)
    ensures forall fd | fd in c.fds :: c.fds[fd] != Socket(w.refs[Lifetime.Client(conn)], false)
    ensures var q, w' := w.refs[Lifetime.Client(conn)], Next(w, Closed(conn));
            && q !in Next(w', Ended(q)).alive
            && forall r | r != q && w.Referenced(r) :: w'.Referenced(r)
  {
    hide Lifetime.Owned, Lifetime.Run;
    ghost var q := w.refs[Lifetime.Client(conn)];
    Lifetime.CloseEnds(w, conn);
    MoveKeeps(w, Closed(conn), c.fds, c.fds - {conn});
    RunOne(w, Lifetime.Close(conn));
    RunOne(Next(w, Closed(conn)), Lifetime.Exit(q));
    c.Close(conn);
    RefsOf(c.fds, q);
  }
}
