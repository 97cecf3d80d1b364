/** Spacemaker.Subspace: a child service in new user and pid namespaces, and a connection to it. */
module Subspaces {
  import opened Namespaces
  import opened Kernel
  import opened Accounts
  import opened Flags
  import opened Api
  import opened Rooms

  /** NewUnixConn takes over the descriptor: the connection has a duplicate, and the descriptor itself
      is closed, also on failure. */
  method NewUnixConn(k: Task, fd: int) returns (conn: int)
    requires k.Valid() && fd != 0
    modifies k`fds, k`faults
    ensures k.Valid() && k.faults >= old(k.faults)
    ensures conn < 0 ==> k.fds == old(k.fds) - {fd}
    ensures conn < 0 && fd in old(k.fds) && old(k.fds)[fd].Socket? ==> k.faults > old(k.faults)
    ensures 0 <= conn ==> 0 < conn && conn !in old(k.fds) && fd in old(k.fds) && old(k.fds)[fd].Socket?
    ensures 0 <= conn ==> k.fds == old(k.fds)[conn := old(k.fds)[fd]] - {fd}
  {
    if fd < 0 {
      assert fd !in k.fds;
      return -1;
    }
    if fd in k.fds {
      var o := k.fds[fd];
      conn := k.TryInstall(o);
      if 0 <= conn && !o.Socket? {
        k.Close(conn);
        conn := -1;
        assert k.fds == old(k.fds);
      }
    } else {
      conn := -1;
    }
    k.Close(fd);
  }

  method NewPair(k: Task, pair: nat) returns (ok: bool, dupond: int, dupont: int)
    requires k.Valid()
    modifies k`fds, k`faults, k`pairs
    ensures k.Valid() && k.faults >= old(k.faults)
    ensures k.pairs == if ok then old(k.pairs) + [pair] else old(k.pairs)
    ensures !ok ==> k.fds == old(k.fds) && k.faults > old(k.faults)
    ensures ok ==>
      && 0 < dupond && 0 < dupont && dupond != dupont && dupond !in old(k.fds) && dupont !in old(k.fds)
      && k.fds == old(k.fds)[dupond := Socket(pair, false)][dupont := Socket(pair, true)]
  {
    ghost var f := k.fds;
    dupond, dupont := -1, -1;
    var a, b;
    ok, a, b := k.Socketpair(pair);
    if !ok { return; }
    ok := false;
    dupond := NewUnixConn(k, a);
    PairExchanged(f, a, b, dupond, Socket(pair, false), Socket(pair, true));
    if dupond < 0 {
      k.Close(b);
      return;
    }
    ghost var g := k.fds;
    dupont := NewUnixConn(k, b);
    ConnClosed(f, dupond, Socket(pair, false));
    if dupont < 0 {
      FarClosed(f, dupond, Socket(pair, false), b, Socket(pair, true));
      k.Close(dupond);
      return;
    }
    ok, k.pairs := true, k.pairs + [pair];
    FarExchanged(f, dupond, Socket(pair, false), b, dupont, Socket(pair, true));
  }

  // The descriptor a of a new pair was closed, after it had been exchanged for conn if that was possible.
  lemma PairExchanged(f: Fds, a: int, b: int, conn: int, near: Object, far: Object)
    requires a != b && a !in f && b !in f
    ensures f[a := near][b := far] - {a} - {b} == f
    ensures conn !in f[a := near][b := far] ==> f[a := near][b := far][conn := near] - {a} == f[conn := near][b := far]
  {
  }

  lemma ConnClosed(f: Fds, conn: int, near: Object)
    requires conn !in f
    ensures f[conn := near] - {conn} == f
  {
  }

  lemma FarClosed(f: Fds, conn: int, near: Object, b: int, far: Object)
    requires conn != b && b !in f
    ensures f[conn := near][b := far] - {b} == f[conn := near]
  {
  }

  lemma FarExchanged(f: Fds, conn: int, near: Object, b: int, conn': int, far: Object)
    requires conn != b && b !in f && conn' !in f[conn := near][b := far]
    ensures f[conn := near][b := far][conn' := far] - {b} == f[conn := near][conn' := far]
  {
  }

  // Exactly the descriptors that a subspace response must have are new.
  predicate Made(wanted: set<NsType>, kid: Child, f0: Fds, f1: Fds, fields: seq<int>) {
    && |fields| == 4 && fields[0] > 0 && fields[1] > 0 && fields[2] >= 0 && fields[3] >= 0
    && (fields[2] > 0 <==> User in wanted) && (fields[3] > 0 <==> Pid in wanted)
    && Opened(f0, f1, Borrowed(fields))
    && fields[0] in f1 && f1[fields[0]] == Socket(kid.pair, false)
    && fields[1] in f1 && f1[fields[1]] == Process(kid.pid)
    && (fields[2] > 0 ==> Names(f1, fields[2], Ref(User, kid.userNs)))
    && (fields[3] > 0 ==> Names(f1, fields[3], Ref(Pid, kid.pidNs)))
  }

  lemma {:induction false} BorrowedHas(fields: seq<int>, i: nat)
    requires i < |fields| && fields[i] > 0
    ensures fields[i] in Borrowed(fields)
  {
    var n := |fields| - 1;
    if i < n { BorrowedHas(fields[..n], i); }
  }

  lemma {:induction false} BorrowedFor(fields: seq<int>, fd: int) returns (i: nat)
    requires fd in Borrowed(fields)
    ensures i < |fields| && fields[i] == fd && fd > 0
  {
    i := |fields| - 1;
    if fields[i] != fd || fd <= 0 { i := BorrowedFor(fields[..i], fd); }
  }

  lemma BorrowedElems(fields: seq<int>)
    requires forall i | 0 <= i < |fields| :: fields[i] >= 0
    ensures Elems(Borrowed(fields)) == set i | 0 <= i < |fields| && fields[i] > 0 :: fields[i]
  {
    hide Borrowed;
    forall fd | fd in Borrowed(fields) ensures exists i | 0 <= i < |fields| && fields[i] > 0 :: fields[i] == fd {
      var i := BorrowedFor(fields, fd);
    }
    forall i | 0 <= i < |fields| && fields[i] > 0 ensures fields[i] in Borrowed(fields) {
      BorrowedHas(fields, i);
    }
  }

  // A descriptor that is opened only if it is wanted.
  predicate OpenedIf(wanted: bool, f: Fds, f': Fds, fd: int, o: Object) {
    if wanted then fd > 0 && fd !in f && f' == f[fd := o] else fd == 0 && f' == f
  }

  lemma ClosedAgain(wanted: bool, f: Fds, f': Fds, fd: int, o: Object)
    requires OpenedIf(wanted, f, f', fd, o) || (wanted && fd > 0 && fd !in f && f' == f[fd := o])
    ensures OpenedIf(wanted, f, f', fd, o) && f' - (if fd > 0 then {fd} else {}) == f && 0 <= fd
  {
  }

  // Opens the namespace of type t of the child if requested; fd is 0 if not, negative on failure.
  method OpenIfRequested(k: Task, spaces: Mask, kid: Child, t: NsType) returns (fd: int)
    requires k.Valid() && k.HasChild(kid) && (t == User || t == Pid)
    modifies k`fds, k`faults
    ensures k.Valid() && k.faults >= old(k.faults) && (fd < 0 ==> k.faults > old(k.faults))
    ensures fd < 0 ==> k.fds == old(k.fds) && t in Wanted(spaces)
    ensures 0 <= fd ==>
      OpenedIf(t in Wanted(spaces), old(k.fds), k.fds, fd,
               Namespace(Ref(t, if t == User then kid.userNs else kid.pidNs)))
  {
    fd := 0;
    if Requests(spaces, t) {
      fd := k.OpenChild(kid, t);
    }
  }

  method CloseIfPositive(k: Task, fd: int)
    requires k.Valid()
    modifies k`fds
    ensures k.Valid() && k.fds == old(k.fds) - if fd > 0 then {fd} else {}
  {
    if fd > 0 {
      k.Close(fd);
    }
  }

  // Why a proper request can fail, before and after its child was started.
  predicate SubspaceFailure(reason: string, wanted: set<NsType>, started: bool) {
    if started then
      || reason == "failed to fetch client *os.File" || reason == "failed to fetch client fd"
      || (User in wanted && reason == "failed to determine new user namespace")
      || (Pid in wanted && reason == "failed to determine new PID namespace")
      || reason == "cannot get PID fd"
    else
      reason == "failed to fetch service *os.File" || reason == "failed to start sub service"
  }

  lemma Failures(wanted: set<NsType>)
    ensures SubspaceFailure("failed to fetch client fd", wanted, true)
    ensures User in wanted ==> SubspaceFailure("failed to determine new user namespace", wanted, true)
    ensures Pid in wanted ==> SubspaceFailure("failed to determine new PID namespace", wanted, true)
    ensures SubspaceFailure("cannot get PID fd", wanted, true)
  {
  }

  // Everything from the duplicate of the near end on; what was opened is closed on every failure.
  method Describe(k: Task, spaces: Mask, kid: Child, dupondf: int) returns (r: Reply)
    requires k.Valid() && k.HasChild(kid) && dupondf in k.fds && k.fds[dupondf] == Socket(kid.pair, false)
    modifies k`fds, k`faults
    ensures k.Valid() && (r.Error? || r.MadeSubspace?) && k.faults >= old(k.faults)
    ensures r.Error? ==> k.fds == old(k.fds) && k.faults > old(k.faults)
    ensures r.Error? ==> SubspaceFailure(r.reason, Wanted(spaces), true)
    ensures r.MadeSubspace? ==> fresh(r.subspace) && Made(Wanted(spaces), kid, old(k.fds), k.fds, r.subspace.Fields())
  {
    hide Made, Wanted, OpenedIf, SubspaceFailure;
    Failures(Wanted(spaces));
    ghost var f0, wanted := k.fds, Wanted(spaces);
    var connfd := k.TryInstall(k.fds[dupondf]);
    if connfd < 0 { return Error("failed to fetch client fd"); }
    ghost var f1 := k.fds;
    ClosedAgain(true, f0, f1, connfd, Socket(kid.pair, false));
    var userfd := OpenIfRequested(k, spaces, kid, User);
    if userfd < 0 {
      k.Close(connfd);
      return Error("failed to determine new user namespace");
    }
    ghost var f2 := k.fds;
    ClosedAgain(User in wanted, f1, f2, userfd, Namespace(Ref(User, kid.userNs)));
    var pidfd := OpenIfRequested(k, spaces, kid, Pid);
    if pidfd < 0 {
      CloseIfPositive(k, userfd);
      k.Close(connfd);
      return Error("failed to determine new PID namespace");
    }
    ghost var f3 := k.fds;
    ClosedAgain(Pid in wanted, f2, f3, pidfd, Namespace(Ref(Pid, kid.pidNs)));
    var procidfd := k.PidfdOpen(kid);
    if procidfd < 0 {
      CloseIfPositive(k, pidfd);
      CloseIfPositive(k, userfd);
      k.Close(connfd);
      return Error("cannot get PID fd");
    }
    ClosedAgain(true, f3, k.fds, procidfd, Process(kid.pid));
    var resp := new SubspaceResponse(connfd, procidfd, userfd, pidfd);
    DescribedMade(wanted, kid, f0, f1, f2, f3, k.fds, connfd, userfd, pidfd, procidfd);
    r := MadeSubspace(resp);
  }

  function One(fd: int): seq<int> {
    if fd > 0 then [fd] else []
  }

  lemma OpenedIfAnother(f0: Fds, f: Fds, own: seq<int>, wanted: bool, f': Fds, fd: int, o: Object)
    requires Opened(f0, f, own) && OpenedIf(wanted, f, f', fd, o)
    ensures Opened(f0, f', own + One(fd)) && Extends(f, f')
    ensures wanted ==> fd in f' && f'[fd] == o
  {
    if wanted {
      OpenedAnother(f0, f, own, fd, o);
    } else {
      assert own + [] == own;
    }
  }

  // The descriptors that Describe opens, in the order of opening.
  lemma DescribedMade(wanted: set<NsType>, kid: Child, f0: Fds, f1: Fds, f2: Fds,
                      f3: Fds, f4: Fds, conn: int, user: int, pid: int, procid: int)
    requires OpenedIf(true, f0, f1, conn, Socket(kid.pair, false))
    requires OpenedIf(User in wanted, f1, f2, user, Namespace(Ref(User, kid.userNs)))
    requires OpenedIf(Pid in wanted, f2, f3, pid, Namespace(Ref(Pid, kid.pidNs)))
    requires OpenedIf(true, f3, f4, procid, Process(kid.pid))
    ensures Made(wanted, kid, f0, f4, [conn, procid, user, pid])
  {
    var o1 := [] + One(conn);
    var o2 := o1 + One(user);
    var o3 := o2 + One(pid);
    assert Elems([]) == {};
    OpenedIfAnother(f0, f0, [], true, f1, conn, Socket(kid.pair, false));
    OpenedIfAnother(f0, f1, o1, User in wanted, f2, user, Namespace(Ref(User, kid.userNs)));
    OpenedIfAnother(f0, f2, o2, Pid in wanted, f3, pid, Namespace(Ref(Pid, kid.pidNs)));
    OpenedIfAnother(f0, f3, o3, true, f4, procid, Process(kid.pid));
    Regrouped(f0, f4, conn, procid, user, pid);
  }

  // The order of opening does not matter.
  lemma Regrouped(f0: Fds, f: Fds, conn: int, procid: int, user: int, pid: int)
    requires conn > 0 && procid > 0 && user >= 0 && pid >= 0
    requires Opened(f0, f, [] + One(conn) + One(user) + One(pid) + One(procid))
    ensures Opened(f0, f, Borrowed([conn, procid, user, pid]))
  {
    var a, b := [] + One(conn) + One(user) + One(pid) + One(procid), Borrowed([conn, procid, user, pid]);
    BorrowedFour(conn, procid, user, pid);
    assert One(conn) == Borrowed([conn]) by { BorrowedOne(conn); }
    assert One(procid) == Borrowed([procid]) by { BorrowedOne(procid); }
    assert One(user) == Borrowed([user]) by { BorrowedOne(user); }
    assert One(pid) == Borrowed([pid]) by { BorrowedOne(pid); }
    assert b == [] + One(conn) + One(procid) + One(user) + One(pid);
    assert Elems(a) == Elems(b);
  }

  lemma BorrowedOne(fd: int)
    ensures Borrowed([fd]) == One(fd)
  {
    assert [fd][..0] == [];
  }

  // How a stretch of Subspace changes the table: not at all, or by a complete response.
  ghost predicate AllOrNothing(r: Reply, wanted: set<NsType>, kid: Child, f0: Fds, f1: Fds)
    reads if r.MadeSubspace? then {r.subspace} else {}
  {
    && (r.Error? || r.MadeSubspace?)
    && (r.Error? ==> f1 == f0)
    && (r.MadeSubspace? ==> Made(wanted, kid, f0, f1, r.subspace.Fields()))
  }

  // A descriptor that was open around the stretch is closed after it.
  lemma ClosedAround(wanted: set<NsType>, kid: Child, f0: Fds, fd: int, o: Object, f1: Fds, fields: seq<int>)
    requires fd !in f0 && Made(wanted, kid, f0[fd := o], f1, fields)
    ensures Made(wanted, kid, f0, f1 - {fd}, fields)
  {
    var g := f0[fd := o];
    var own := Elems(Borrowed(fields));
    BorrowedElems(fields);
    assert fields[0] in own && fields[1] in own;
    assert (fields[2] > 0 ==> fields[2] in own) && (fields[3] > 0 ==> fields[3] in own);
    assert fd in g.Keys && fd !in own;
    assert (f1 - {fd}).Keys == f0.Keys + own;
    forall x | x in f0 ensures x in f1 - {fd} && (f1 - {fd})[x] == f0[x] {
      assert x in g && f1[x] == g[x];
    }
  }

  // How the child for this request is started: it serves the far end of the pair.
  function Born(kid: Child, spaces: Mask): Birth {
    Birth(kid, Socket(kid.pair, true), (spaces & SUBSPACE_MASK) | Flag(Mnt))
  }

  // The child has the far end of its own pair, and new namespaces of exactly the requested types and one
  // for its mounts.
  ghost predicate Inherits(b: Birth, kid: Child, spaces: Mask) {
    b.kid == kid && b.inherited == Socket(kid.pair, true) && Wanted(b.spaces) == Wanted(spaces) + {Mnt}
  }

  lemma BornInherits(kid: Child, spaces: Mask)
    requires spaces & !SUBSPACE_MASK == 0
    ensures Inherits(Born(kid, spaces), kid, spaces)
  {
    hide Requests;
    forall t ensures Requests((spaces & SUBSPACE_MASK) | Flag(Mnt), t) <==> Requests(spaces, t) || t == Mnt {
      BornFlag(spaces, t);
    }
  }

  lemma BornFlag(spaces: Mask, t: NsType)
    requires spaces & !SUBSPACE_MASK == 0
    ensures Requests((spaces & SUBSPACE_MASK) | Flag(Mnt), t) <==> Requests(spaces, t) || t == Mnt
  {
  }

  lemma PairClosedAround(wanted: set<NsType>, kid: Child, f0: Fds, near: int, far: int, f1: Fds, fields: seq<int>)
    requires near != far && near !in f0 && far !in f0
    requires Made(wanted, kid, f0[near := Socket(kid.pair, false)][far := Socket(kid.pair, true)], f1, fields)
    ensures Made(wanted, kid, f0, f1 - {far} - {near}, fields)
  {
    hide Made;
    ClosedAround(wanted, kid, f0[near := Socket(kid.pair, false)], far, Socket(kid.pair, true), f1, fields);
    ClosedAround(wanted, kid, f0, near, Socket(kid.pair, false), f1 - {far}, fields);
  }

  // From starting the child on: whether it was started, it has inherited the far end.
  method WithFarFile(k: Task, spaces: Mask, kid: Child, dupond: int, dupontf: int) returns (r: Reply, started: bool)
    requires k.Valid() && dupond in k.fds && k.fds[dupond] == Socket(kid.pair, false)
    requires dupontf in k.fds && k.fds[dupontf] == Socket(kid.pair, true)
    modifies k`fds, k`faults, k`children
    ensures k.Valid() && AllOrNothing(r, Wanted(spaces), kid, old(k.fds), k.fds)
    ensures k.children == if started then old(k.children) + [Born(kid, spaces)] else old(k.children)
    ensures k.faults >= old(k.faults) && (r.Error? ==> k.faults > old(k.faults))
    ensures !started ==> r == Error("failed to start sub service")
    ensures r.Error? ==> SubspaceFailure(r.reason, Wanted(spaces), started)
    ensures r.MadeSubspace? ==> fresh(r.subspace) && started
  {
    ghost var f0 := k.fds;
    started := k.StartChild(kid, dupontf, (spaces & SUBSPACE_MASK) | Flag(Mnt));
    if !started { return Error("failed to start sub service"), false; }
    var dupondf := k.TryInstall(k.fds[dupond]);
    if dupondf < 0 { return Error("failed to fetch client *os.File"), true; }
    r := Describe(k, spaces, kid, dupondf);
    ghost var f1 := k.fds;
    k.Close(dupondf);
    if r.MadeSubspace? {
      ClosedAround(Wanted(spaces), kid, f0, dupondf, Socket(kid.pair, false), f1, r.subspace.Fields());
    } else {
      assert k.fds == f0;
    }
  }

  method WithPair(k: Task, spaces: Mask, kid: Child, dupond: int, dupont: int) returns (r: Reply, started: bool)
    requires k.Valid() && dupond in k.fds && k.fds[dupond] == Socket(kid.pair, false)
    requires dupont in k.fds && k.fds[dupont] == Socket(kid.pair, true)
    modifies k`fds, k`faults, k`children
    ensures k.Valid() && AllOrNothing(r, Wanted(spaces), kid, old(k.fds), k.fds)
    ensures k.children == if started then old(k.children) + [Born(kid, spaces)] else old(k.children)
    ensures k.faults >= old(k.faults) && (r.Error? ==> k.faults > old(k.faults))
    ensures r.Error? ==> SubspaceFailure(r.reason, Wanted(spaces), started)
    ensures r.MadeSubspace? ==> fresh(r.subspace) && started
  {
    ghost var f0, o := k.fds, k.fds[dupont];
    var dupontf := k.TryInstall(k.fds[dupont]);
    if dupontf < 0 { return Error("failed to fetch service *os.File"), false; }
    r, started := WithFarFile(k, spaces, kid, dupond, dupontf);
    ghost var f1 := k.fds;
    k.Close(dupontf);
    if r.MadeSubspace? {
      ClosedAround(Wanted(spaces), kid, f0, dupontf, o, f1, r.subspace.Fields());
    } else {
      assert k.fds == f0;
    }
  }

  /** Balanced on every path: an error, which takes a bad request or a failing system call, leaves the
      table as it was, even after the child was started, and success adds exactly the connection, the
      process descriptor and the requested namespaces. A child that was started holds the far end of the
      pair. If and only if the socket pair could not be made,
      the deferred closes of nil connections crash the service. */
  method Subspace(k: Task, spaces: Mask, kid: Child) returns (r: Reply, started: bool)
    requires k.Valid()
    modifies k`fds, k`faults, k`pairs, k`children
    ensures k.Valid() && k.faults >= old(k.faults)
    ensures k.children == if started then old(k.children) + [Born(kid, spaces)] else old(k.children)
    ensures started ==> Inherits(k.children[|old(k.children)|], kid, spaces)
    ensures r.Crash? || AllOrNothing(r, Wanted(spaces), kid, old(k.fds), k.fds)
    ensures r.Crash? ==> k.fds == old(k.fds)
    ensures r.MadeSubspace? ==> fresh(r.subspace) && started
    ensures !ProperSubspace(spaces) ==>
      && !started && k.fds == old(k.fds) && k.pairs == old(k.pairs)
      && r == Error(if spaces & !SUBSPACE_MASK != 0 then "out of space" else "no space requested")
    ensures ProperSubspace(spaces) ==>
      && k.pairs == (if r.Crash? then old(k.pairs) else old(k.pairs) + [kid.pair])
      && (r.Error? ==> SubspaceFailure(r.reason, Wanted(spaces), started))
      && (r.Crash? ==> !started) && (r.MadeSubspace? || k.faults > old(k.faults))
  {
    if spaces & !SUBSPACE_MASK != 0 { return Error("out of space"), false; }
    if spaces & SUBSPACE_MASK == 0 { return Error("no space requested"), false; }
    hide Inherits, Born, Wanted, Made, SubspaceFailure;
    ghost var f0 := k.fds;
    BornInherits(kid, spaces);
    var ok, dupond, dupont := NewPair(k, kid.pair);
    if !ok { return Crash, false; }
    r, started := WithPair(k, spaces, kid, dupond, dupont);
    ghost var f1 := k.fds;
    k.Close(dupont);
    k.Close(dupond);
    if r.MadeSubspace? {
      PairClosedAround(Wanted(spaces), kid, f0, dupond, dupont, f1, r.subspace.Fields());
    } else {
      assert k.fds == f0;
    }
  }

  // No descriptor names either end of this pair.
  predicate Unused(f: Fds, pair: nat) {
    forall fd | fd in f :: f[fd] != Socket(pair, false) && f[fd] != Socket(pair, true)
  }

  /** After success the response's connection is the service's only reference to either end. */
  lemma OnlyTheConnection(wanted: set<NsType>, kid: Child, f0: Fds, f1: Fds, fields: seq<int>)
    requires Unused(f0, kid.pair) && Made(wanted, kid, f0, f1, fields)
    ensures forall fd | fd in f1 :: f1[fd] != Socket(kid.pair, true)
    ensures forall fd | fd in f1 :: f1[fd] == Socket(kid.pair, false) <==> fd == fields[0]
  {
    BorrowedElems(fields);
    forall fd | fd in f1
      ensures f1[fd] != Socket(kid.pair, true) && (f1[fd] == Socket(kid.pair, false) <==> fd == fields[0])
    {
      assert fd in f1.Keys;
      if fd in f0 {
        assert f1[fd] == f0[fd];
        assert fields[0] in Elems(Borrowed(fields));
      } else {
        var i :| 0 <= i < |fields| && fields[i] == fd;
      }
    }
  }
}
