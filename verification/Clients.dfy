/** The client's half of a request: send, receive one response, and take over its descriptors. */
module Clients {
  import opened Wrappers
  import opened Namespaces
  import opened Kernel
  import opened Accounts
  import opened Flags
  import opened Api
  import opened Uds
  import opened Delivery
  import opened Rooms
  import opened Subspaces
  import opened Service

  // What happens on the connection: the calls that succeed, and the message that arrives, if any.
  datatype Exchange = Exchange(sends: bool, deadlineSet: bool, arrives: Option<Message>, parses: bool, decodes: bool)

  // The call does not fail by itself, and brings a response that is no error.
  predicate Arrives(x: Exchange) {
    x.sends && x.deadlineSet && x.arrives.Some? && x.parses && x.decodes && !x.arrives.value.body.ErrorBody?
  }

  // Client.do up to the descriptors, which belong to the client once they are received.
  method Do(k: Task, x: Exchange) returns (o: Outcome, body: Body, fds: seq<int>)
    requires k.Valid()
    modifies k`fds
    ensures k.Valid() && Extends(old(k.fds), k.fds) && (o.Normal? <==> Arrives(x))
    ensures o.Normal? ==>
      && body == x.arrives.value.body
      && Received(x.arrives.value.files, CLIENT_CAPACITY, old(k.fds), k.fds, fds)
    ensures o.Panic? && (x.arrives.Some? ==> x.arrives.value.files == []) ==> k.fds == old(k.fds)
  {
    o, body, fds := Panic, ErrorBody(""), [];
    if !x.sends || !x.deadlineSet { return; }
    ghost var f := k.fds;
    var files := if x.arrives.Some? then x.arrives.value.files else [];
    var ok; ghost var installed;
    ok, fds, installed := ReceiveWithFds(k, files, CLIENT_CAPACITY, x.arrives.Some?, x.parses);
    if files == [] {
      OpenedThenClosed(f, k.fds, installed);
      assert Elems(installed) == {} && k.fds - {} == k.fds;
    }
    if !ok || !x.decodes { return; }
    body := x.arrives.value.body;
    if body.ErrorBody? { return; }
    o := Normal;
  }

  // The client's and the service's view of the same rooms: the first four requested types name the
  // same namespaces, and any later one still has the service's own descriptor number.
  predicate SameRooms(fields: seq<int>, s: Fds, fields': seq<int>, c0: Fds, c: Fds) {
    && |fields| == |fields'| && AllOpen(Borrowed(fields), s)
    && forall i | 0 <= i < |fields| :: SameRoom(fields, s, fields', c0, c, i)
  }

  predicate SameRoom(fields: seq<int>, s: Fds, fields': seq<int>, c0: Fds, c: Fds, i: nat)
    requires i < |fields| == |fields'|
  {
    if fields[i] > 0 && Rank(fields, i) < 4
    then fields'[i] in c && fields'[i] !in c0 && fields[i] in s && c[fields'[i]] == s[fields[i]]
    else fields'[i] == fields[i]
  }

  lemma RoomsArrive(fields: seq<int>, s: Fds, r0: Fds, r1: Fds, fds: seq<int>)
    requires WellTyped(ROOM_TYPES, fields, s) && AllOpen(Borrowed(fields), s)
    requires Received(Files(s, Borrowed(fields)), 4, r0, r1, fds)
    ensures SameRooms(fields, s, Placed(ROOM_TYPES, fields, r1, fds), r0, r1)
    ensures Strays(ROOM_TYPES, r1, fds) == {}
  {
    var fields' := Placed(ROOM_TYPES, fields, r1, fds);
    forall i | 0 <= i < |fields| ensures SameRoom(fields, s, fields', r0, r1, i) {
      EndToEnd(ROOM_TYPES, fields, s, 4, r0, r1, fds, i);
    }
    EndToEnd(ROOM_TYPES, fields, s, 4, r0, r1, fds, 0);
  }

  // From the fifth requested type on, the number in the field is none of the client's new descriptors
  // for a namespace of this type.
  predicate LateRooms(fields: seq<int>, fields': seq<int>, c0: Fds, c: Fds) {
    && |fields| == |fields'| == |ROOM_TYPES|
    && forall i | 0 <= i < |fields| && fields[i] > 0 && Rank(fields, i) >= 4 ::
         fields'[i] in c && fields'[i] !in c0 ==> TypeAt(c, fields'[i]) != Some(ROOM_TYPES[i])
  }

  lemma RoomsArriveLate(fields: seq<int>, s: Fds, r0: Fds, r1: Fds, fds: seq<int>)
    requires WellTyped(ROOM_TYPES, fields, s) && AllOpen(Borrowed(fields), s)
    requires Received(Files(s, Borrowed(fields)), 4, r0, r1, fds)
    ensures LateRooms(fields, Placed(ROOM_TYPES, fields, r1, fds), r0, r1)
  {
    hide Borrowed, Rank, Placed;
    var fields', b := Placed(ROOM_TYPES, fields, r1, fds), Borrowed(fields);
    forall i | 0 <= i < |fields| && fields[i] > 0 && Rank(fields, i) >= 4 && fields'[i] in r1 && fields'[i] !in r0
      ensures TypeAt(r1, fields'[i]) != Some(ROOM_TYPES[i])
    {
      assert fields'[i] in r1.Keys && fields'[i] in Elems(fds);
      var j :| 0 <= j < |fds| && fds[j] == fields'[i];
      assert r1[fds[j]] == Files(s, b)[j];
      TypeOfBorrowed(ROOM_TYPES, fields, s, i, j);
    }
  }

  lemma ReceivedPositive(files: seq<Object>, r0: Fds, f: Fds, fds: seq<int>)
    requires (forall fd | fd in f :: 0 <= fd) && Received(files, 4, r0, f, fds)
    ensures 0 !in fds && forall fd | fd in fds :: fd > 0
  {
  }

  lemma RoomsOpened(fields: seq<int>, s: Fds, r0: Fds, r1: Fds, fds: seq<int>)
    requires WellTyped(ROOM_TYPES, fields, s) && AllOpen(Borrowed(fields), s) && |Borrowed(fields)| <= 4
    requires Received(Files(s, Borrowed(fields)), 4, r0, r1, fds) && forall fd | fd in fds :: fd > 0
    ensures Opened(r0, r1, Borrowed(Placed(ROOM_TYPES, fields, r1, fds)))
  {
    NothingLost(ROOM_TYPES, fields, s, 4, r0, r1, fds);
  }

  // The decoded response takes over the descriptors, which are scheduled for closing.
  method TakeOverRooms(k: Task, fields: seq<int>, fds: seq<int>, ghost s: Fds, ghost r0: Fds)
    returns (resp: RoomsResponse)
    requires k.Valid() && WellTyped(ROOM_TYPES, fields, s) && AllOpen(Borrowed(fields), s)
    requires Received(Files(s, Borrowed(fields)), 4, r0, k.fds, fds)
    modifies k`fds, k`cleanups
    ensures k.Valid() && fresh(resp) && k.fds == old(k.fds)
    ensures SameRooms(fields, s, resp.Fields(), r0, k.fds) && LateRooms(fields, resp.Fields(), r0, k.fds)
    ensures |Borrowed(fields)| <= 4 ==> Opened(r0, k.fds, Borrowed(resp.Fields()))
    ensures k.cleanups == old(k.cleanups) + Borrowed(resp.Fields())
  {
    hide SameRooms, LateRooms, Placed, Borrowed, AllOpen, Received, Opened;
    RoomsArrive(fields, s, r0, k.fds, fds);
    RoomsArriveLate(fields, s, r0, k.fds, fds);
    ReceivedPositive(Files(s, Borrowed(fields)), r0, k.fds, fds);
    if |Borrowed(fields)| <= 4 {
      RoomsOpened(fields, s, r0, k.fds, fds);
    }
    resp := new RoomsResponse.Decoded(fields);
    resp.DecodeFds(k, fds);
    k.cleanups := k.cleanups + Borrowed(resp.Fields());
  }

  // The first four requested types name namespaces that were made for this response.
  predicate NewRooms(fields: seq<int>, fields': seq<int>, c: Fds, g: Making) {
    && |fields| == |fields'| == |ROOM_TYPES|
    && forall i | 0 <= i < |fields| :: NewRoom(fields, fields', c, g, i)
  }

  predicate NewRoom(fields: seq<int>, fields': seq<int>, c: Fds, g: Making, i: nat)
    requires i < |fields| == |fields'| == |ROOM_TYPES|
  {
    fields[i] > 0 && Rank(fields, i) < 4 ==>
      && fields'[i] in c && c[fields'[i]].Namespace? && c[fields'[i]].ref.typ == ROOM_TYPES[i]
      && IsNew(ROOM_TYPES[i], c[fields'[i]].ref.ino, g.home, g.b0.ino, g.b)
  }

  // What TakeOverRooms needs of the message.
  lemma RoomsAnswer(m: Message, spaces: Mask, kid: Child, g: Making)
    requires Answers(m, RoomsRequest(spaces), kid, g) && m.body.RoomsBody?
    ensures var fields := m.body.fields;
      && WellTyped(ROOM_TYPES, fields, g.b.fds) && AllOpen(Borrowed(fields), g.b.fds)
      && m.files == Files(g.b.fds, Borrowed(fields))
  {
    ProgressIsWellTyped(Wanted(spaces), m.body.fields, g.home, g.b0, g.b);
  }

  lemma RoomsAreNew(m: Message, spaces: Mask, kid: Child, g: Making, fields': seq<int>, c0: Fds, c: Fds)
    requires Answers(m, RoomsRequest(spaces), kid, g) && m.body.RoomsBody?
    requires SameRooms(m.body.fields, g.b.fds, fields', c0, c)
    ensures NewRooms(m.body.fields, fields', c, g)
  {
    hide Wanted, Borrowed;
    var fields := m.body.fields;
    forall i | 0 <= i < |fields| ensures NewRoom(fields, fields', c, g, i) {
      assert SameRoom(fields, g.b.fds, fields', c0, c, i);
      assert Filled(Wanted(spaces), ROOM_TYPES[i], fields[i], g.home, g.b0.ino, g.b);
    }
  }

  /** Client.Rooms, for a message that answers the request as g says. The first four requested types name
      the very namespaces that were made for it, any other one none of the new descriptors. The closes
      that it schedules are for whatever numbers are in the fields: up to four, these are exactly the
      client's new descriptors. */
  method RoomsCall(k: Task, x: Exchange, spaces: Mask, ghost kid: Child, ghost g: Making)
    returns (o: Outcome, resp: RoomsResponse)
    requires k.Valid()
    requires x.arrives.Some? ==> Answers(x.arrives.value, RoomsRequest(spaces), kid, g)
    modifies k`fds, k`cleanups
    ensures k.Valid() && fresh(resp)
    ensures o.Normal? <==> Arrives(x) && x.arrives.value.body.RoomsBody?
    ensures o.Normal? ==>
      && SameRooms(x.arrives.value.body.fields, g.b.fds, resp.Fields(), old(k.fds), k.fds)
      && NewRooms(x.arrives.value.body.fields, resp.Fields(), k.fds, g)
      && LateRooms(x.arrives.value.body.fields, resp.Fields(), old(k.fds), k.fds)
      && k.cleanups == old(k.cleanups) + Borrowed(resp.Fields())
      && (|Borrowed(x.arrives.value.body.fields)| <= 4 ==> Opened(old(k.fds), k.fds, Borrowed(resp.Fields())))
  {
    hide Answers, SameRooms, NewRooms, LateRooms, Received, AllOpen, Borrowed, Files, Opened;
    Capacities();
    var body, fds;
    o, body, fds := Do(k, x);
    if o.Normal? && body.RoomsBody? {
      RoomsAnswer(x.arrives.value, spaces, kid, g);
      resp := TakeOverRooms(k, body.fields, fds, g.b.fds, old(k.fds));
      RoomsAreNew(x.arrives.value, spaces, kid, g, resp.Fields(), old(k.fds), k.fds);
    } else {
      o := Panic;
      resp := new RoomsResponse();
    }
  }

  // The client has exactly one new descriptor for the near end of the pair.
  predicate OnlyNearEnd(f: Fds, pair: nat, conn: int) {
    forall fd | fd in f :: f[fd] != Socket(pair, true) && (f[fd] == Socket(pair, false) <==> fd == conn)
  }

  // A field of the response and of the new client name the same namespace, or are both unset.
  predicate SameSpace(fd: int, s: Fds, fd': int, c: Fds) {
    if fd > 0 then fd' in c && fd in s && c[fd'] == s[fd] else fd' == fd
  }

  // The descriptors of a subspace response, before the connection and the process are dealt with.
  method TakeOverSubspace(k: Task, fields: seq<int>, fds: seq<int>, ghost s: Fds, ghost r0: Fds,
                          ghost kid: Child)
    returns (resp: SubspaceResponse)
    requires k.Valid() && |fields| == 4 && WellTyped(SUBSPACE_TYPES, fields[2..], s)
    requires fields[0] > 0 && fields[0] in s && s[fields[0]] == Socket(kid.pair, false)
    requires fields[1] > 0 && fields[1] in s && s[fields[1]] == Process(kid.pid)
    requires AllOpen(Borrowed(fields), s) && Received(Files(s, Borrowed(fields)), 4, r0, k.fds, fds)
    requires Unused(r0, kid.pair) && 0 in r0
    modifies k`fds
    ensures k.Valid() && fresh(resp) && k.fds == old(k.fds)
    ensures resp.conn in k.fds && resp.conn > 0 && k.fds[resp.conn] == Socket(kid.pair, false)
    ensures resp.pidfd in k.fds && resp.pidfd > 0 && k.fds[resp.pidfd] == Process(kid.pid)
    ensures SameSpace(fields[2], s, resp.user, k.fds) && SameSpace(fields[3], s, resp.pid, k.fds)
    ensures (fields[2] > 0 ==> resp.user > 0) && (fields[3] > 0 ==> resp.pid > 0)
    ensures OnlyNearEnd(k.fds, kid.pair, resp.conn)
    ensures Parted(r0, k.fds, resp.conn, resp.pidfd, Borrowed([resp.user, resp.pid]))
  {
    hide Borrowed, AllOpen, OnlyNearEnd, Unused, Opened, Received, Files, Strays;
    Capacities();
    ReceivedPositive(Files(s, Borrowed(fields)), r0, k.fds, fds);
    var spaces := fields[2..];
    assert fields == [fields[0], fields[1]] + spaces;
    SubspaceDelivered(fields[0], fields[1], spaces, s, r0, k.fds, fds);
    OneNearEnd(fields[0], fields[1], spaces, s, r0, k.fds, fds, kid);
    resp := new SubspaceResponse(fields[0], fields[1], fields[2], fields[3]);
    assert resp.Spaces() == spaces;
    ghost var f := k.fds;
    var o := resp.DecodeFds(k, fds);
    assert k.fds == f;
    assert resp.user == resp.Spaces()[0] && resp.pid == resp.Spaces()[1];
    PartedFrom(Files(s, Borrowed(fields)), r0, k.fds, fds, Borrowed([resp.user, resp.pid]));
  }

  // The new descriptors are these two and, besides, the others.
  predicate Parted(f0: Fds, f: Fds, a: int, b: int, others: seq<int>) {
    Opened(f0, f, [a, b] + others) && a != b && a !in others && b !in others
  }

  lemma PartedFrom(files: seq<Object>, f0: Fds, f: Fds, fds: seq<int>, others: seq<int>)
    requires Received(files, 4, f0, f, fds) && |fds| >= 2 && Elems(others) == Elems(fds[2..])
    ensures Parted(f0, f, fds[0], fds[1], others)
  {
    var tail := fds[2..];
    assert fds == [fds[0], fds[1]] + tail;
    ElemsConcat([fds[0], fds[1]], others);
    ElemsConcat([fds[0], fds[1]], tail);
    forall x | x in others ensures x != fds[0] && x != fds[1] {
      assert x in Elems(tail);
    }
  }

  // Only the first file of a subspace response is the near end.
  lemma OneNearEnd(conn: int, pidfd: int, spaces: seq<int>, s: Fds,
                   r0: Fds, r1: Fds, fds: seq<int>, kid: Child)
    requires WellTyped(SUBSPACE_TYPES, spaces, s) && conn > 0 && pidfd > 0 && conn in s && pidfd in s
    requires s[conn] == Socket(kid.pair, false) && s[pidfd] == Process(kid.pid)
    requires AllOpen(Borrowed([conn, pidfd] + spaces), s)
    requires Received(Files(s, Borrowed([conn, pidfd] + spaces)), 4, r0, r1, fds)
    requires Unused(r0, kid.pair)
    ensures |fds| >= 2 && OnlyNearEnd(r1, kid.pair, fds[0])
  {
    SubspaceList(conn, pidfd, spaces);
    var all := Borrowed([conn, pidfd] + spaces);
    forall fd | fd in r1
      ensures r1[fd] != Socket(kid.pair, true) && (r1[fd] == Socket(kid.pair, false) <==> fd == fds[0])
    {
      assert fd in r1.Keys;
      if fd in r0 {
        assert r1[fd] == r0[fd];
        assert fds[0] in Elems(fds);
      } else {
        var j :| 0 <= j < |fds| && fds[j] == fd;
        assert r1[fds[j]] == Files(s, all)[j];
        if j >= 2 {
          assert all[j] == Borrowed(spaces)[j - 2];
          var i := BorrowedFrom(spaces, j - 2);
        }
      }
    }
  }

  // fd names r, or is 0 if it is not wanted.
  predicate NamesIf(wanted: bool, f: Fds, fd: int, r: Ref) {
    if wanted then fd > 0 && Names(f, fd, r) else fd == 0
  }

  /** What a subspace response leaves in the client: its connection, if it could be made, and the
      requested namespaces of the child, and no other new descriptor. The connection is the one and
      only descriptor for the child's peer. */
  ghost predicate TakenOver(f0: Fds, f: Fds, wanted: set<NsType>, kid: Child, conn: int, user: int, pid: int) {
    && Opened(f0, f, Conns(conn) + Borrowed([user, pid]))
    && NamesIf(User in wanted, f, user, Ref(User, kid.userNs))
    && NamesIf(Pid in wanted, f, pid, Ref(Pid, kid.pidNs))
    && (if conn >= 0 then conn in f && f[conn] == Socket(kid.pair, false) && OnlyNearEnd(f, kid.pair, conn)
        else Unused(f, kid.pair))
  }

  function Conns(conn: int): seq<int> {
    if conn >= 0 then [conn] else []
  }

  // The response's connection was exchanged for a duplicate, if that succeeded, and the process closed.
  function Kept(f: Fds, a: int, b: int, conn: int): Fds
    requires a in f
  {
    (if conn >= 0 then f[conn := f[a]] else f) - {a} - {b}
  }

  lemma OpenedKept(f0: Fds, f: Fds, a: int, b: int, others: seq<int>, conn: int)
    requires Parted(f0, f, a, b, others) && a in f && conn !in f
    ensures Opened(f0, Kept(f, a, b, conn), Conns(conn) + others)
  {
    var g := Kept(f, a, b, conn);
    ElemsConcat([a, b], others);
    ElemsConcat(Conns(conn), others);
    assert conn !in f.Keys;
    assert g.Keys == f0.Keys + Elems(Conns(conn)) + Elems(others);
    forall fd | fd in f0 ensures fd in g && g[fd] == f0[fd] {
      assert fd in f0.Keys && fd in f;
    }
  }

  lemma NamesKept(wanted: bool, s: Fds, fd: int, r: Ref, f: Fds, fd': int, a: int, b: int, others: seq<int>, conn: int)
    requires NamesIf(wanted, s, fd, r) && SameSpace(fd, s, fd', f) && (fd > 0 ==> fd' > 0 && fd' in others)
    requires a in f && a !in others && b !in others && conn !in f
    ensures NamesIf(wanted, Kept(f, a, b, conn), fd', r)
  {
  }

  lemma NearEndKept(f: Fds, kid: Child, a: int, b: int, conn: int)
    requires a in f && f[a] == Socket(kid.pair, false) && OnlyNearEnd(f, kid.pair, a)
    requires conn !in f && a != b && b != conn
    ensures var g := Kept(f, a, b, conn);
      if conn >= 0 then conn in g && g[conn] == Socket(kid.pair, false) && OnlyNearEnd(g, kid.pair, conn)
      else Unused(g, kid.pair)
  {
  }

  lemma BorrowedBoth(user: int, pid: int)
    ensures user > 0 ==> user in Borrowed([user, pid])
    ensures pid > 0 ==> pid in Borrowed([user, pid])
  {
    BorrowedConcat([user], [pid]);
    assert [user] + [pid] == [user, pid];
    BorrowedOne(user);
    BorrowedOne(pid);
  }

  // What TakeOverSubspace needs of the message.
  lemma SubspaceAnswer(m: Message, spaces: Mask, kid: Child, g: Making)
    requires Answers(m, SubspaceRequest(spaces), kid, g) && m.body.SubspaceBody?
    ensures var fields, s := m.body.fields, g.b.fds;
      && |fields| == 4 && WellTyped(SUBSPACE_TYPES, fields[2..], s)
      && fields[0] > 0 && fields[0] in s && s[fields[0]] == Socket(kid.pair, false)
      && fields[1] > 0 && fields[1] in s && s[fields[1]] == Process(kid.pid)
      && AllOpen(Borrowed(fields), s) && m.files == Files(s, Borrowed(fields))
      && NamesIf(User in Wanted(spaces), s, fields[2], Ref(User, kid.userNs))
      && NamesIf(Pid in Wanted(spaces), s, fields[3], Ref(Pid, kid.pidNs))
  {
    hide Wanted, Borrowed, Opened;
    var fields, s := m.body.fields, g.b.fds;
    assert fields[2..] == [fields[2], fields[3]];
  }

  lemma ErrorHasNoFiles(m: Message, req: Request, kid: Child, g: Making)
    requires Answers(m, req, kid, g)
    ensures m.body.ErrorBody? ==> m.files == []
  {
  }

  // A response that fits the request has arrived.
  predicate SubspaceArrives(x: Exchange) {
    Arrives(x) && x.arrives.value.body.SubspaceBody?
  }

  /** Client.Subspace up to the new client, for a message that answers the request as g says. A response
      leaves the connection and the child's namespaces in the client. The call succeeds if and only if
      the connection could be made and the child's number is known; otherwise no close is scheduled,
      so that a connection that was made stays, and with it the child. */
  method SubspaceCall(k: Task, x: Exchange, pidKnown: bool, spaces: Mask, ghost kid: Child, ghost g: Making)
    returns (o: Outcome, conn: int, user: int, pid: int)
    requires k.Valid() && Unused(k.fds, kid.pair)
    requires x.arrives.Some? ==> Answers(x.arrives.value, SubspaceRequest(spaces), kid, g)
    modifies k`fds, k`faults, k`cleanups
    ensures k.Valid() && k.faults >= old(k.faults)
    ensures (o.Normal? <==> SubspaceArrives(x) && conn >= 0 && pidKnown) && (conn >= 0 ==> SubspaceArrives(x))
    ensures SubspaceArrives(x) ==> TakenOver(old(k.fds), k.fds, Wanted(spaces), kid, conn, user, pid)
    ensures SubspaceArrives(x) && conn < 0 ==> k.faults > old(k.faults)
    ensures k.cleanups == if o.Normal? then old(k.cleanups) + Borrowed([pid]) + Borrowed([user]) else old(k.cleanups)
    ensures (x.arrives.Some? ==> x.arrives.value.body.ErrorBody?) ==> k.fds == old(k.fds)
  {
    hide Answers, Received, Borrowed, Opened, OnlyNearEnd, SameSpace, WellTyped, AllOpen, Unused, Parted, NamesIf;
    conn, user, pid := -1, -1, -1;
    Capacities();
    var body, fds;
    o, body, fds := Do(k, x);
    if o.Panic? {
      if x.arrives.Some? { ErrorHasNoFiles(x.arrives.value, SubspaceRequest(spaces), kid, g); }
      return;
    }
    if !body.SubspaceBody? { return Panic, conn, user, pid; }
    SubspaceAnswer(x.arrives.value, spaces, kid, g);
    var resp := TakeOverSubspace(k, body.fields, fds, g.b.fds, old(k.fds), kid);
    ghost var f, a, b, others := k.fds, resp.conn, resp.pidfd, Borrowed([resp.user, resp.pid]);
    user, pid := resp.user, resp.pid;
    conn := NewUnixConn(k, resp.conn);
    k.Close(resp.pidfd);  // deferred
    assert k.fds == Kept(f, a, b, conn) && conn !in f;
    BorrowedBoth(user, pid);
    PartedApart(old(k.fds), f, a, b, others);
    OpenedKept(old(k.fds), f, a, b, others, conn);
    NearEndKept(f, kid, a, b, conn);
    NamesIfPositive(User in Wanted(spaces), g.b.fds, body.fields[2], Ref(User, kid.userNs));
    NamesIfPositive(Pid in Wanted(spaces), g.b.fds, body.fields[3], Ref(Pid, kid.pidNs));
    NamesKept(User in Wanted(spaces), g.b.fds, body.fields[2], Ref(User, kid.userNs), f, user, a, b, others, conn);
    NamesKept(Pid in Wanted(spaces), g.b.fds, body.fields[3], Ref(Pid, kid.pidNs), f, pid, a, b, others, conn);
    if conn < 0 || !pidKnown { return Panic, conn, user, pid; }
    k.cleanups := k.cleanups + Borrowed([pid]) + Borrowed([user]);
  }

  lemma PartedApart(f0: Fds, f: Fds, a: int, b: int, others: seq<int>)
    requires Parted(f0, f, a, b, others)
    ensures a != b && a !in others && b !in others
  {
  }

  lemma NamesIfPositive(wanted: bool, f: Fds, fd: int, r: Ref)
    requires NamesIf(wanted, f, fd, r)
    ensures fd > 0 <==> wanted
  {
  }
}
