/** The service's request loop. */
module Service {
  import opened Wrappers
  import opened Namespaces
  import opened Kernel
  import opened Accounts
  import opened Flags
  import opened Api
  import opened Delivery
  import opened Reports
  import opened Rooms
  import opened Subspaces

  datatype Request = RoomsRequest(spaces: Mask) | SubspaceRequest(spaces: Mask) | OtherRequest

  // A message carries the fields as they were before EncodeFds, and files beside it.
  datatype Body = RoomsBody(fields: seq<int>) | SubspaceBody(fields: seq<int>) | ErrorBody(reason: string)
  datatype Message = Message(body: Body, files: seq<Object>)

  datatype Receipt = Got(req: Request) | Undecodable | TimedOut | Disconnected | Failed

  // What one iteration of the loop meets. The loop runs for as long as its environment lasts.
  datatype Turn = Turn(cancelled: bool, deadlineSet: bool, receipt: Receipt, kid: Child, encodes: bool, sends: bool)

  datatype Exit = Running | Cancelled | NoDeadline | ClientGone | CannotReceive | CannotDecode | Unhandled
                | CannotEncode | CannotSend | Crashed

  // While a response was made in a service that started from home, its books went from b0 to b, and
  // these namespaces could not be made.
  datatype Making = Making(home: View, b0: Books, b: Books, failures: seq<Failure>)

  // The reason in an error response: what is wrong with the request, or what failed for it.
  ghost predicate Explained(reason: string, req: Request, g: Making) {
    match req
    case RoomsRequest(spaces) =>
      if !ProperRooms(spaces) then reason == Refusal(spaces & !ROOM_MASK != 0)
      else g.failures != [] && reason == Report(g.failures) && InOrder(Wanted(spaces), TypesOf(g.failures))
    case SubspaceRequest(spaces) =>
      if !ProperSubspace(spaces) then reason == Refusal(spaces & !SUBSPACE_MASK != 0)
      else SubspaceFailure(reason, Wanted(spaces), g.b.children != g.b0.children)
    case OtherRequest => false
  }

  function Refusal(excess: bool): string {
    if excess then "out of space" else "no space requested"
  }

  /** The message answers the request: an error that says why, without files, or exactly the requested types with, for
      each positive field, the very object that the field named in the service when the response was
      made. These descriptors were all that was opened for it, and they name what was asked for: new
      namespaces, or the namespaces and the process of the child that was started for the request. */
  ghost predicate Answers(m: Message, req: Request, kid: Child, g: Making) {
    match m.body
    case ErrorBody(reason) => m.files == [] && Explained(reason, req, g)
    case RoomsBody(fields) =>
      && req.RoomsRequest? && |fields| == |ROOM_TYPES|
      && Progress(Wanted(req.spaces), fields, [], g.home, g.b0, g.b)
      && (forall i | 0 <= i < |fields| :: if ROOM_TYPES[i] in Wanted(req.spaces) then fields[i] > 0 else fields[i] == 0)
      && AllOpen(Borrowed(fields), g.b.fds) && m.files == Files(g.b.fds, Borrowed(fields))
    case SubspaceBody(fields) =>
      && req.SubspaceRequest? && Made(Wanted(req.spaces), kid, g.b0.fds, g.b.fds, fields)
      && g.b.children == g.b0.children + [Born(kid, req.spaces)]
      && AllOpen(Borrowed(fields), g.b.fds) && m.files == Files(g.b.fds, Borrowed(fields))
  }

  /** So no two answers ever give away the same namespace (but the time namespace), if the second was
      made after the first. */
  lemma NeverGivenTwice(m: Message, req: Request, kid: Child, g: Making, i: nat,
                        m': Message, req': Request, kid': Child, g': Making, j: nat)
    requires Answers(m, req, kid, g) && Answers(m', req', kid', g') && m.body.RoomsBody? && m'.body.RoomsBody?
    requires i < |ROOM_TYPES| && j < |ROOM_TYPES| && ROOM_TYPES[i] != Time
    requires m.body.fields[i] > 0 && m'.body.fields[j] > 0 && g.b.ino <= g'.b0.ino
    ensures m.body.fields[i] in g.b.fds && m'.body.fields[j] in g'.b.fds
    ensures g.b.fds[m.body.fields[i]] != g'.b.fds[m'.body.fields[j]]
  {
    assert Filled(Wanted(req.spaces), ROOM_TYPES[i], m.body.fields[i], g.home, g.b0.ino, g.b);
    assert Filled(Wanted(req'.spaces), ROOM_TYPES[j], m'.body.fields[j], g'.home, g'.b0.ino, g'.b);
  }

  lemma BorrowedOpened(f0: Fds, f1: Fds, own: seq<int>)
    requires Opened(f0, f1, own)
    ensures AllOpen(own, f1)
  {
    forall i | 0 <= i < |own| ensures own[i] in f1 {
      assert own[i] in Elems(own) && own[i] in f1.Keys;
    }
  }

  lemma ProgressIsWellTyped(wanted: set<NsType>, fields: seq<int>, home: View, b0: Books, b: Books)
    requires Progress(wanted, fields, [], home, b0, b) && |fields| == |ROOM_TYPES|
    ensures WellTyped(ROOM_TYPES, fields, b.fds)
  {
    forall i | 0 <= i < |fields| && fields[i] > 0 ensures TypeAt(b.fds, fields[i]) == Some(ROOM_TYPES[i]) {
      assert Filled(wanted, ROOM_TYPES[i], fields[i], home, b0.ino, b);
    }
  }

  // How handing over a response ends.
  function HandOver(turn: Turn): Exit {
    if !turn.encodes then CannotEncode else if !turn.sends then CannotSend else Running
  }

  // A response's descriptors are listed and closed, whether or not the message could be sent.
  method HandOverRooms(k: Task, resp: RoomsResponse, spaces: Mask, kid: Child, ghost g: Making, turn: Turn)
    returns (exit: Exit, sent: seq<Message>)
    requires k.Valid() && g.b == At(k) && Progress(Wanted(spaces), resp.Fields(), [], g.home, g.b0, g.b)
    requires forall i | 0 <= i < |ROOM_TYPES| ::
      if ROOM_TYPES[i] in Wanted(spaces) then resp.Fields()[i] > 0 else resp.Fields()[i] == 0
    modifies k`fds, resp
    ensures k.Valid() && exit == HandOver(turn) && k.fds == if turn.encodes then g.b0.fds else old(k.fds)
    ensures exit != Running ==> sent == []
    ensures exit == Running ==>
      |sent| == 1 && !sent[0].body.ErrorBody? && Answers(sent[0], RoomsRequest(spaces), kid, g)
  {
    hide Wanted, Filled;
    ghost var s := k.fds;
    if !turn.encodes { return CannotEncode, []; }
    var body := RoomsBody(resp.Fields());
    var fds := resp.EncodeFds();
    BorrowedOpened(g.b0.fds, s, fds);
    OpenedThenClosed(g.b0.fds, s, fds);
    BorrowedPositive(body.fields);
    var files := Files(k.fds, fds);
    CloseAll(k, fds);
    if !turn.sends { return CannotSend, []; }
    return Running, [Message(body, files)];
  }

  lemma {:induction false} BorrowedPositive(fields: seq<int>)
    ensures forall fd | fd in Borrowed(fields) :: fd > 0
  {
    if fields != [] { BorrowedPositive(fields[..|fields| - 1]); }
  }

  method HandOverSubspace(k: Task, resp: SubspaceResponse, spaces: Mask, kid: Child, ghost g: Making, turn: Turn)
    returns (exit: Exit, sent: seq<Message>)
    requires k.Valid() && g.b == At(k) && Made(Wanted(spaces), kid, g.b0.fds, k.fds, resp.Fields())
    requires g.b.children == g.b0.children + [Born(kid, spaces)]
    modifies k`fds, resp
    ensures k.Valid() && exit == HandOver(turn) && k.fds == if turn.encodes then g.b0.fds else old(k.fds)
    ensures exit != Running ==> sent == []
    ensures exit == Running ==>
      |sent| == 1 && !sent[0].body.ErrorBody? && Answers(sent[0], SubspaceRequest(spaces), kid, g)
  {
    hide Wanted;
    ghost var s := k.fds;
    if !turn.encodes { return CannotEncode, []; }
    var body := SubspaceBody(resp.Fields());
    var fds := resp.EncodeFds();
    BorrowedOpened(g.b0.fds, s, fds);
    OpenedThenClosed(g.b0.fds, s, fds);
    BorrowedPositive(body.fields);
    var files := Files(k.fds, fds);
    CloseAll(k, fds);
    if !turn.sends { return CannotSend, []; }
    return Running, [Message(body, files)];
  }

  // A request that the service does not refuse: some types that it can make, and no other.
  predicate Proper(req: Request) {
    match req
    case RoomsRequest(spaces) => ProperRooms(spaces)
    case SubspaceRequest(spaces) => ProperSubspace(spaces)
    case OtherRequest => false
  }

  // A system call failed while the response was made.
  ghost predicate Failing(g: Making) {
    g.b0.faults < g.b.faults
  }

  // The one message that a request was answered by, if any. An error answers a request that is not
  // proper or that a system call failed for while it was served.
  ghost predicate Answered(exit: Exit, sent: seq<Message>, turn: Turn, g: Making)
    requires turn.receipt.Got?
  {
    && (exit == Running ==> |sent| == 1 && Answers(sent[0], turn.receipt.req, turn.kid, g))
    && (exit != Running ==> sent == [])
    && (exit == Running && sent[0].body.ErrorBody? ==> Failing(g) || !Proper(turn.receipt.req))
    && (exit == Crashed ==> Failing(g))
  }

  // Why the loop returns in this turn.
  predicate Explains(exit: Exit, turn: Turn) {
    match exit
    case Running => false
    case Cancelled => turn.cancelled
    case NoDeadline => !turn.deadlineSet
    case ClientGone => turn.receipt == Disconnected
    case CannotReceive => turn.receipt == Failed
    case CannotDecode => turn.receipt == Undecodable
    case Unhandled => turn.receipt.Got? && turn.receipt.req == OtherRequest
    case CannotEncode => turn.receipt.Got? && !turn.encodes
    case CannotSend => turn.receipt.Got? && turn.encodes && !turn.sends
    case Crashed => turn.receipt.Got? && turn.receipt.req.SubspaceRequest?
  }

  // What has to be so for the loop to go on after this turn, but for its being cancelled.
  predicate Continues(turn: Turn) {
    || turn.receipt == TimedOut
    || (turn.receipt.Got? && turn.receipt.req != OtherRequest && turn.encodes && turn.sends)
  }

  // What serving one request does to a process: it has its old descriptors again, and one more child if
  // one was started. Between, its response was made as g says.
  ghost predicate Served(home: View, b0: Books, b: Books, exit: Exit, sent: seq<Message>, started: bool, turn: Turn,
                         g: Making)
    requires turn.receipt.Got?
  {
    && Extends(b0.fds, b.fds) && b0.faults <= b.faults && (exit != CannotEncode ==> b.fds == b0.fds)
    && g.home == home && g.b0 == b0 && g.b == b.(fds := g.b.fds) && b0.ino <= b.ino
    && (!started ==> b.children == b0.children)
    && (started ==> turn.receipt.req.SubspaceRequest? && Proper(turn.receipt.req))
    && (started ==> b.children == b0.children + [Born(turn.kid, turn.receipt.req.spaces)])
    && Answered(exit, sent, turn, g)
    && exit in {Running, Unhandled, CannotEncode, CannotSend, Crashed}
    && (if exit == Running then Continues(turn) else Explains(exit, turn))
  }

  method RespondRooms(k: Task, home: View, turn: Turn, spaces: Mask)
    returns (exit: Exit, sent: seq<Message>, ghost g: Making)
    requires k.Valid() && turn.receipt == Got(RoomsRequest(spaces))
    modifies k`fds, k`faults, k`nextIno, k`secluded
    ensures k.Valid() && Served(home, old(At(k)), At(k), exit, sent, false, turn, g)
  {
    hide Wanted, Answers, Explained, InOrder, Report, Read, Missing, Filled, Borrowed, ProperRooms;
    var r; ghost var made, failures, b;
    r, made, failures, b := Room(k, home, spaces);
    g := Making(home, old(At(k)), b, failures);
    if r.MadeRooms? {
      exit, sent := HandOverRooms(k, r.rooms, spaces, turn.kid, g, turn);
    } else {
      RoomsExplained(r.reason, spaces, g);
      exit, sent := RespondError(r.reason, turn, g);
    }
  }

  lemma RoomsExplained(reason: string, spaces: Mask, g: Making)
    requires if !ProperRooms(spaces) then reason == Refusal(spaces & !ROOM_MASK != 0)
             else g.failures != [] && reason == Report(g.failures) && InOrder(Wanted(spaces), TypesOf(g.failures))
    ensures Explained(reason, RoomsRequest(spaces), g)
  {
    hide ProperRooms, ProperSubspace, Wanted, Report, InOrder, SubspaceFailure, Refusal, TypesOf;
  }

  lemma SubspaceExplained(reason: string, spaces: Mask, g: Making)
    requires if !ProperSubspace(spaces) then reason == Refusal(spaces & !SUBSPACE_MASK != 0)
             else SubspaceFailure(reason, Wanted(spaces), g.b.children != g.b0.children)
    ensures Explained(reason, SubspaceRequest(spaces), g)
  {
    hide ProperRooms, ProperSubspace, Wanted, Report, InOrder, SubspaceFailure, Refusal, TypesOf;
  }

  method RespondSubspace(k: Task, home: View, turn: Turn, spaces: Mask)
    returns (exit: Exit, sent: seq<Message>, started: bool, ghost g: Making)
    requires k.Valid() && turn.receipt == Got(SubspaceRequest(spaces))
    modifies k`fds, k`faults, k`pairs, k`children
    ensures k.Valid() && Served(home, old(At(k)), At(k), exit, sent, started, turn, g)
  {
    hide Made, Wanted, Answers, Explained, ProperSubspace, SubspaceFailure, Inherits;
    var r;
    r, started := Subspace(k, spaces, turn.kid);
    g := Making(home, old(At(k)), At(k), []);
    if r.MadeSubspace? {
      MadeExtends(Wanted(spaces), turn.kid, g.b0.fds, k.fds, r.subspace.Fields());
      exit, sent := HandOverSubspace(k, r.subspace, spaces, turn.kid, g, turn);
    } else if r.Crash? {
      exit, sent := Crashed, [];
    } else {
      SubspaceExplained(r.reason, spaces, g);
      exit, sent := RespondError(r.reason, turn, g);
    }
  }

  // An error response has no descriptors.
  method RespondError(reason: string, turn: Turn, ghost g: Making) returns (exit: Exit, sent: seq<Message>)
    requires turn.receipt.Got? && Explained(reason, turn.receipt.req, g)
    ensures exit == HandOver(turn) && sent == if exit == Running then [Message(ErrorBody(reason), [])] else []
    ensures exit == Running ==> Answers(sent[0], turn.receipt.req, turn.kid, g)
  {
    exit := HandOver(turn);
    sent := if exit == Running then [Message(ErrorBody(reason), [])] else [];
  }

  // From a decoded request on: serve it, encode the response, send it and close its descriptors.
  method Respond(k: Task, home: View, turn: Turn)
    returns (exit: Exit, sent: seq<Message>, started: bool, ghost g: Making)
    requires k.Valid() && turn.receipt.Got?
    modifies k`fds, k`faults, k`nextIno, k`secluded, k`pairs, k`children
    ensures k.Valid() && Served(home, old(At(k)), At(k), exit, sent, started, turn, g)
  {
    started := false;
    match turn.receipt.req
    case OtherRequest => exit, sent, g := Unhandled, [], Making(home, At(k), At(k), []);
    case RoomsRequest(spaces) => exit, sent, g := RespondRooms(k, home, turn, spaces);
    case SubspaceRequest(spaces) => exit, sent, started, g := RespondSubspace(k, home, turn, spaces);
  }

  lemma MadeExtends(wanted: set<NsType>, kid: Child, f0: Fds, f1: Fds, fields: seq<int>)
    requires Made(wanted, kid, f0, f1, fields)
    ensures Extends(f0, f1)
  {
  }

  // The turns that bring a request.
  function Requested(turns: seq<Turn>): seq<Turn> {
    if turns == [] then []
    else Requested(turns[..|turns| - 1]) + if turns[|turns| - 1].receipt.Got? then [turns[|turns| - 1]] else []
  }

  // A message that answers this turn's request.
  ghost predicate AnswersTurn(m: Message, turn: Turn, g: Making) {
    && turn.receipt.Got? && Answers(m, turn.receipt.req, turn.kid, g)
    && (m.body.ErrorBody? ==> Failing(g) || !Proper(turn.receipt.req))
  }

  // The messages answer the requests of these turns one by one, each made after those before it.
  ghost predicate AllAnswered(sent: seq<Message>, turns: seq<Turn>, gs: seq<Making>) {
    && |sent| == |turns| == |gs|
    && (forall i | 0 <= i < |sent| :: AnswersTurn(sent[i], turns[i], gs[i]))
    && (forall i, j | 0 <= i < j < |gs| :: gs[i].b.ino <= gs[j].b0.ino)
  }

  // Each response was made from the table f0 at a loop head, and within the time from b0 to b.
  predicate MadeBetween(gs: seq<Making>, home: View, b0: Books, b: Books) {
    forall i | 0 <= i < |gs| ::
      && gs[i].home == home && gs[i].b0.fds == b0.fds && b0.ino <= gs[i].b0.ino && gs[i].b.ino <= b.ino
      && b0.children <= gs[i].b0.children && gs[i].b.children <= b.children
  }

  lemma AnsweredNext(sent: seq<Message>, turns: seq<Turn>, gs: seq<Making>, m: Message, turn: Turn, g: Making,
                     home: View, b0: Books, b: Books, b': Books)
    requires AllAnswered(sent, turns, gs) && MadeBetween(gs, home, b0, b) && AnswersTurn(m, turn, g)
    requires b.fds == b0.fds && b0.ino <= b.ino <= b'.ino && g.home == home && g.b0 == b
    requires g.b.ino <= b'.ino && b0.children <= b.children <= g.b.children <= b'.children
    ensures AllAnswered(sent + [m], turns + [turn], gs + [g]) && MadeBetween(gs + [g], home, b0, b')
  {
    hide Answers, Proper;
  }

  lemma LaterStill(gs: seq<Making>, home: View, b0: Books, b: Books, b': Books)
    requires MadeBetween(gs, home, b0, b) && b.ino <= b'.ino && b.children <= b'.children
    ensures MadeBetween(gs, home, b0, b')
  {
  }

  /** However long the service runs, at the head of the loop, and when it returns, it has exactly the
      descriptors that it started with (unless a response could not be encoded): all it makes is
      handed over. Each request is answered by one message, in order, with namespaces that were made
      for it at that loop head, and by an error only if it was not proper or a system call failed
      while it was served.
      Once the context is cancelled, the next loop head is the last, so at most the request in
      progress is answered. */
  method Serve(k: Task, home: View, turns: seq<Turn>)
    returns (exit: Exit, sent: seq<Message>, used: nat, ghost gs: seq<Making>)
    requires k.Valid()
    modifies k`fds, k`faults, k`nextIno, k`secluded, k`pairs, k`children
    ensures k.Valid() && Extends(old(k.fds), k.fds) && k.faults >= old(k.faults)
    ensures exit != CannotEncode ==> k.fds == old(k.fds)
    ensures if exit == Running then used == |turns| else 0 < used <= |turns| && Explains(exit, turns[used - 1])
    ensures var n := if exit == Running then used else used - 1;
      && (forall i | 0 <= i < n :: !turns[i].cancelled && turns[i].deadlineSet && Continues(turns[i]))
      && AllAnswered(sent, Requested(turns[..n]), gs) && |sent| <= n
    ensures MadeBetween(gs, home, old(At(k)), At(k))
    ensures forall c | 0 <= c < |turns| && turns[c].cancelled :: used <= c + 1 && |sent| <= c
  {
    hide Answers, Proper, AllAnswered, MadeBetween, Explains, Continues;
    sent, used, gs := [], 0, [];
    ghost var b0 := At(k);
    NothingAnswered(home, b0);
    while used < |turns|
      invariant k.Valid() && k.fds == b0.fds && used <= |turns|
      invariant b0.faults <= k.faults && b0.ino <= k.nextIno && b0.children <= k.children
      invariant AllAnswered(sent, Requested(turns[..used]), gs) && |sent| <= used
      invariant MadeBetween(gs, home, b0, At(k))
      invariant forall i | 0 <= i < used :: !turns[i].cancelled && turns[i].deadlineSet && Continues(turns[i])
    {
      var turn := turns[used];
      ghost var asked, b := Requested(turns[..used]), At(k);
      RequestedNext(turns, used);
      ExplainsEach(turn);
      used := used + 1;
      if turn.cancelled { return Cancelled, sent, used, gs; }
      if !turn.deadlineSet { return NoDeadline, sent, used, gs; }
      match turn.receipt
      case TimedOut => continue;
      case Disconnected => return ClientGone, sent, used, gs;
      case Failed => return CannotReceive, sent, used, gs;
      case Undecodable => return CannotDecode, sent, used, gs;
      case Got(req) =>
        var answer, started; ghost var g;
        exit, answer, started, g := Respond(k, home, turn);
        if exit != Running {
          LaterStill(gs, home, b0, b, At(k));
          return;
        }
        AnsweredNext(sent, asked, gs, answer[0], turn, g, home, b0, b, At(k));
        assert answer == [answer[0]];
        sent, gs := sent + answer, gs + [g];
    }
    exit := Running;
    assert turns[..used] == turns;
  }

  lemma NothingAnswered(home: View, b: Books)
    ensures AllAnswered([], Requested([]), []) && MadeBetween([], home, b, b)
  {
  }

  lemma RequestedNext(turns: seq<Turn>, n: nat)
    requires n < |turns|
    ensures turns[n].receipt.Got? ==> Requested(turns[..n + 1]) == Requested(turns[..n]) + [turns[n]]
    ensures !turns[n].receipt.Got? ==> Requested(turns[..n + 1]) == Requested(turns[..n])
  {
    assert turns[..n + 1][..n] == turns[..n];
  }

  lemma ExplainsEach(turn: Turn)
    ensures turn.cancelled ==> Explains(Cancelled, turn)
    ensures !turn.deadlineSet ==> Explains(NoDeadline, turn)
    ensures turn.receipt == Disconnected ==> Explains(ClientGone, turn)
    ensures turn.receipt == Failed ==> Explains(CannotReceive, turn)
    ensures turn.receipt == Undecodable ==> Explains(CannotDecode, turn)
    ensures turn.receipt == TimedOut ==> Continues(turn)
  {
  }
}
