/** A request from the client's call to its return, across both processes' tables. */
module Session {
  import opened Wrappers
  import opened Namespaces
  import opened Kernel
  import opened Accounts
  import opened Flags
  import opened Api
  import opened Delivery
  import opened Rooms
  import opened Subspaces
  import opened Service
  import opened Clients

  // What the client makes of it if the service answers.
  function Exchanged(x: Exchange, sent: seq<Message>): Exchange {
    x.(arrives := if sent == [] then None else Some(sent[0]))
  }

  // The environment lets the request through: nothing is in its way but failing system calls.
  predicate Smooth(turn: Turn, x: Exchange) {
    && turn.receipt.Got? && Proper(turn.receipt.req) && turn.encodes && turn.sends
    && x.sends && x.deadlineSet && x.parses && x.decodes
  }

  /** Sole ownership: when Client.Subspace has returned, the new client's connection is the one and only
      reference to the peer of the child that the service has started, also when the service runs in
      the client's own process, and user and pid name the child's namespaces. The same is so, but for
      the call's success, if the child's number could not be found out. And if the service had to
      report an error, or could not answer, there is no reference at all. */
  method SubspaceSession(c: Task, s: Task, home: View, turn: Turn, x: Exchange, pidKnown: bool)
    returns (o: Outcome, exit: Exit, conn: int, user: int, pid: int, sent: seq<Message>)
    requires c.Valid() && s.Valid() && Unused(c.fds, turn.kid.pair) && Unused(s.fds, turn.kid.pair)
    requires turn.receipt.Got? && turn.receipt.req.SubspaceRequest?
    modifies s`fds, s`faults, s`nextIno, s`secluded, s`pairs, s`children, c`fds, c`faults, c`cleanups
    ensures c.Valid() && s.Valid() && (exit != Running ==> sent == [])
    ensures o.Normal? <==> SubspaceArrives(Exchanged(x, sent)) && conn >= 0 && pidKnown
    ensures conn >= 0 ==> SubspaceArrives(Exchanged(x, sent))
    ensures s.children == old(s.children) || s.children == old(s.children) + [Born(turn.kid, turn.receipt.req.spaces)]
    ensures SubspaceArrives(Exchanged(x, sent)) ==>
      && TakenOver(old(c.fds), c.fds, Wanted(turn.receipt.req.spaces), turn.kid, conn, user, pid)
      && s.children == old(s.children) + [Born(turn.kid, turn.receipt.req.spaces)]
      && Inherits(s.children[|old(s.children)|], turn.kid, turn.receipt.req.spaces)
      && (s != c ==> s.fds == old(s.fds))
    ensures exit != CannotEncode && (exit != Running || (sent != [] && sent[0].body.ErrorBody?)) ==>
      o.Panic? && c.fds == old(c.fds) && s.fds == old(s.fds)
    ensures Smooth(turn, x) && pidKnown && s.faults == old(s.faults) && c.faults == old(c.faults) ==> o.Normal?
  {
    hide Answers, OnlyNearEnd, TakenOver, Proper, Inherits, Born, Wanted;
    var started; ghost var g;
    exit, sent, started, g := Respond(s, home, turn);
    if started { ProperInherits(turn); }
    conn, user, pid := -1, -1, -1;
    if exit != Running { return Panic, exit, conn, user, pid, sent; }
    BodyKind(sent[0], turn, g);
    o, conn, user, pid := SubspaceCall(c, Exchanged(x, sent), pidKnown, turn.receipt.req.spaces, turn.kid, g);
  }

  lemma ProperInherits(turn: Turn)
    requires turn.receipt.Got? && turn.receipt.req.SubspaceRequest? && Proper(turn.receipt.req)
    ensures Inherits(Born(turn.kid, turn.receipt.req.spaces), turn.kid, turn.receipt.req.spaces)
  {
    BornInherits(turn.kid, turn.receipt.req.spaces);
  }

  // A response is of the kind that was requested, and a subspace response takes a child.
  lemma BodyKind(m: Message, turn: Turn, g: Making)
    requires turn.receipt.Got? && Answers(m, turn.receipt.req, turn.kid, g)
    ensures m.body.SubspaceBody? ==>
      turn.receipt.req.SubspaceRequest? && g.b.children == g.b0.children + [Born(turn.kid, turn.receipt.req.spaces)]
    ensures m.body.RoomsBody? ==> turn.receipt.req.RoomsRequest?
    ensures m.body.ErrorBody? ==> m.files == []
  {
  }

  lemma UnrequestedStayUnset(m: Message, turn: Turn, g: Making, fields: seq<int>, c0: Fds, c: Fds)
    requires turn.receipt.Got? && Answers(m, turn.receipt.req, turn.kid, g) && m.body.RoomsBody?
    requires SameRooms(m.body.fields, g.b.fds, fields, c0, c)
    ensures |fields| == |m.body.fields| == |ROOM_TYPES|
    ensures forall i | 0 <= i < |fields| && ROOM_TYPES[i] !in Wanted(turn.receipt.req.spaces) :: fields[i] == 0
  {
    forall i | 0 <= i < |fields| && ROOM_TYPES[i] !in Wanted(turn.receipt.req.spaces) ensures fields[i] == 0 {
      assert SameRoom(m.body.fields, g.b.fds, fields, c0, c, i);
    }
  }

  // Descriptor fd is new, and names a namespace of type t that a service has made between b0 and b.
  predicate MadeBy(t: NsType, c0: Fds, c: Fds, fd: int, home: View, b0: Books, b: Books) {
    && fd in c && fd !in c0 && c[fd].Namespace? && c[fd].ref.typ == t
    && (if t == Time then c[fd].ref.ino == home.time else b0.ino <= c[fd].ref.ino < b.ino)
    && (t == Mnt ==> c[fd].ref.ino in b.secluded)
  }

  // How many of these types are wanted.
  function Count(types: seq<NsType>, wanted: set<NsType>): nat {
    if types == [] then 0
    else Count(types[..|types| - 1], wanted) + if types[|types| - 1] in wanted then 1 else 0
  }

  lemma {:induction false} CountBorrowed(types: seq<NsType>, wanted: set<NsType>, fields: seq<int>)
    requires |fields| == |types|
    requires forall i | 0 <= i < |types| :: if types[i] in wanted then fields[i] > 0 else fields[i] == 0
    ensures |Borrowed(fields)| == Count(types, wanted)
  {
    if types != [] {
      CountBorrowed(types[..|types| - 1], wanted, fields[..|types| - 1]);
    }
  }

  /** A Rooms call gives the client, for each of the first four requested types, its own descriptor for
      a namespace that the service has made during this very call, and for each type that was not
      requested 0, and leaves the service as it was, also when that runs in the client's own process.
      So it gives the client all that it has requested if and only if it has requested at most four
      types, and then the closes that the call schedules leave the client as it was, too. */
  method RoomsSession(c: Task, s: Task, home: View, turn: Turn, x: Exchange)
    returns (o: Outcome, resp: RoomsResponse, sent: seq<Message>)
    requires c.Valid() && s.Valid()
    requires turn.receipt.Got? && turn.receipt.req.RoomsRequest?
    modifies s`fds, s`faults, s`nextIno, s`secluded, s`pairs, s`children, c`fds, c`cleanups
    ensures o.Normal? ==>
      && (s != c ==> s.fds == old(s.fds)) && s.children == old(s.children)
      && |sent| == 1 && sent[0].body.RoomsBody? && |sent[0].body.fields| == |ROOM_TYPES|
      && (forall i | 0 <= i < |ROOM_TYPES| ::
            if !Asked(turn, i) then resp.Fields()[i] == 0
            else Rank(sent[0].body.fields, i) < 4 ==>
                   MadeBy(ROOM_TYPES[i], old(c.fds), c.fds, resp.Fields()[i], home, old(At(s)), At(s)))
      && ((forall i | Asked(turn, i) ::
             MadeBy(ROOM_TYPES[i], old(c.fds), c.fds, resp.Fields()[i], home, old(At(s)), At(s)))
          <==> Count(ROOM_TYPES, Wanted(turn.receipt.req.spaces)) <= 4)
      && c.cleanups == old(c.cleanups) + Borrowed(resp.Fields())
      && (Count(ROOM_TYPES, Wanted(turn.receipt.req.spaces)) <= 4 ==>
            c.fds - Elems(Borrowed(resp.Fields())) == old(c.fds))
    ensures Smooth(turn, x) && s.faults == old(s.faults) ==> o.Normal?
  {
    hide Answers, SameRooms, NewRooms, LateRooms, Proper, Opened, Borrowed, Wanted, MadeBy, Rank, Count;
    var exit, started; ghost var g;
    exit, sent, started, g := Respond(s, home, turn);
    if exit != Running {
      resp := new RoomsResponse();
      return Panic, resp, sent;
    }
    BodyKind(sent[0], turn, g);
    o, resp := RoomsCall(c, Exchanged(x, sent), turn.receipt.req.spaces, turn.kid, g);
    if o.Normal? {
      ghost var fields := sent[0].body.fields;
      UnrequestedStayUnset(sent[0], turn, g, resp.Fields(), old(c.fds), c.fds);
      ArriveExactly(sent[0], turn, g, resp.Fields(), old(c.fds), c.fds, At(s));
      CountAnswered(sent[0], turn, g);
      if |Borrowed(fields)| <= 4 {
        OpenedThenClosed(old(c.fds), c.fds, Borrowed(resp.Fields()));
      }
    }
  }

  // The request is for the i-th type.
  predicate Asked(turn: Turn, i: int)
    requires turn.receipt.Got? && !turn.receipt.req.OtherRequest?
  {
    0 <= i < |ROOM_TYPES| && ROOM_TYPES[i] in Wanted(turn.receipt.req.spaces)
  }

  lemma ArriveExactly(m: Message, turn: Turn, g: Making, fields: seq<int>, c0: Fds, c: Fds, b: Books)
    requires turn.receipt.Got? && Answers(m, turn.receipt.req, turn.kid, g) && m.body.RoomsBody?
    requires SameRooms(m.body.fields, g.b.fds, fields, c0, c) && NewRooms(m.body.fields, fields, c, g)
    requires LateRooms(m.body.fields, fields, c0, c) && g.b == b.(fds := g.b.fds)
    ensures |fields| == |ROOM_TYPES| == |m.body.fields| && turn.receipt.req.RoomsRequest?
    ensures forall i | Asked(turn, i) && Rank(m.body.fields, i) < 4 ::
              MadeBy(ROOM_TYPES[i], c0, c, fields[i], g.home, g.b0, b)
    ensures (forall i | Asked(turn, i) :: MadeBy(ROOM_TYPES[i], c0, c, fields[i], g.home, g.b0, b))
            <==> |Borrowed(m.body.fields)| <= 4
  {
    hide SameRooms, Wanted, Borrowed, MadeBy, Rank, Progress;
    forall i | Asked(turn, i) && Rank(m.body.fields, i) < 4
      ensures MadeBy(ROOM_TYPES[i], c0, c, fields[i], g.home, g.b0, b)
    {
      RequestedIsNew(m, turn, g, fields, c0, c, i, b);
    }
    if |Borrowed(m.body.fields)| <= 4 {
      forall i | Asked(turn, i) ensures Rank(m.body.fields, i) < 4 {
        BorrowedAt(m.body.fields, i);
      }
    } else {
      var i := BorrowedFrom(m.body.fields, 4);
      assert Asked(turn, i);
      NotMadeBy(ROOM_TYPES[i], c0, c, fields[i], g.home, g.b0, b);
    }
  }

  lemma RequestedIsNew(m: Message, turn: Turn, g: Making, fields: seq<int>, c0: Fds, c: Fds, i: nat, b: Books)
    requires turn.receipt.Got? && Answers(m, turn.receipt.req, turn.kid, g) && m.body.RoomsBody?
    requires SameRooms(m.body.fields, g.b.fds, fields, c0, c) && NewRooms(m.body.fields, fields, c, g)
    requires i < |ROOM_TYPES| && ROOM_TYPES[i] in Wanted(turn.receipt.req.spaces) && Rank(m.body.fields, i) < 4
    requires g.b == b.(fds := g.b.fds)
    ensures MadeBy(ROOM_TYPES[i], c0, c, fields[i], g.home, g.b0, b)
  {
    hide Progress, Wanted, Borrowed;
    assert m.body.fields[i] > 0;
    assert SameRoom(m.body.fields, g.b.fds, fields, c0, c, i);
    assert NewRoom(m.body.fields, fields, c, g, i);
  }

  lemma CountAnswered(m: Message, turn: Turn, g: Making)
    requires turn.receipt.Got? && Answers(m, turn.receipt.req, turn.kid, g) && m.body.RoomsBody?
    ensures |Borrowed(m.body.fields)| == Count(ROOM_TYPES, Wanted(turn.receipt.req.spaces))
  {
    hide Wanted, Borrowed, Count;
    CountBorrowed(ROOM_TYPES, Wanted(turn.receipt.req.spaces), m.body.fields);
  }

  lemma NotMadeBy(t: NsType, c0: Fds, c: Fds, fd: int, home: View, b0: Books, b: Books)
    requires fd in c && fd !in c0 ==> TypeAt(c, fd) != Some(t)
    ensures !MadeBy(t, c0, c, fd, home, b0, b)
  {
  }

  function Bit(b: bool): nat {
    if b then 1 else 0
  }

  /** The count is that of the arguments that are set in Client.Rooms, so any five of them are too many. */
  lemma CountChosen(c: Choice)
    ensures Count(ROOM_TYPES, Wanted(RoomsMask(c))) ==
            Bit(c.cgroup) + Bit(c.ipc) + Bit(c.mnt) + Bit(c.net) + Bit(c.time) + Bit(c.uts)
    ensures c == Choice(true, true, true, true, true, false) ==> Count(ROOM_TYPES, Wanted(RoomsMask(c))) == 5
  {
    hide Wanted, RoomsMask, Count;
    var w := Wanted(RoomsMask(c));
    RoomsMaskExact(c);
    assert [] + [Cgroup] == [Cgroup] && [Cgroup] + [Ipc] == [Cgroup, Ipc];
    assert [Cgroup, Ipc] + [Mnt] == [Cgroup, Ipc, Mnt] && [Cgroup, Ipc, Mnt] + [Net] == [Cgroup, Ipc, Mnt, Net];
    assert [Cgroup, Ipc, Mnt, Net] + [Time] == [Cgroup, Ipc, Mnt, Net, Time];
    assert [Cgroup, Ipc, Mnt, Net, Time] + [Uts] == ROOM_TYPES;
    CountNext([], Cgroup, w);
    CountNext([Cgroup], Ipc, w);
    CountNext([Cgroup, Ipc], Mnt, w);
    CountNext([Cgroup, Ipc, Mnt], Net, w);
    CountNext([Cgroup, Ipc, Mnt, Net], Time, w);
    CountNext([Cgroup, Ipc, Mnt, Net, Time], Uts, w);
    assert Count([], w) == 0 by { CountNone(w); }
  }

  lemma CountNone(wanted: set<NsType>)
    ensures Count([], wanted) == 0
  {
  }

  lemma CountNext(types: seq<NsType>, t: NsType, wanted: set<NsType>)
    ensures Count(types + [t], wanted) == Count(types, wanted) + Bit(t in wanted)
  {
    assert (types + [t])[..|types|] == types;
  }
}
