/** A tree of services: which of them see the end of their connection, and when. */
module Lifetime {

  // Who refers to the near end of a service's connection: a client's descriptor, a service that is
  // handling a request, or a response that the client of a service has not received yet.
  datatype Holder = Client(fd: int) | Handling(p: nat) | Queued(p: nat)

  datatype World = World(alive: set<nat>, refs: map<Holder, nat>)
  {
    ghost predicate Referenced(q: nat) {
      exists h | h in refs :: refs[h] == q
    }

    // The service has a client, and is not busy with a request.
    predicate Idle(p: nat) {
      p in alive && Handling(p) !in refs && Queued(p) !in refs && exists h | h in refs :: h.Client? && refs[h] == p
    }
  }

  datatype Event =
    | Start(p: nat, q: nat)      // service p, asked for a subspace, starts service q
    | Fail(p: nat)               // p reports an error and closes what it holds
    | Send(p: nat)               // p's response takes the reference along, if anyone can receive it
    | Take(p: nat, fd: int)      // p's client receives it as descriptor fd
    | Close(fd: int)             // a client is closed; what it has not received is dropped
    | Exit(q: nat)               // q sees the end of its connection and terminates

  function Without(m: map<Holder, nat>, h: Holder): map<Holder, nat> {
    m - {h}
  }

  // The reference moves from one holder to another.
  function Moved(m: map<Holder, nat>, from: Holder, to: Holder): map<Holder, nat>
    requires from in m
  {
    Without(m, from)[to := m[from]]
  }

  ghost function Step(w: World, e: Event): World {
    match e
    case Start(p, q) =>
      if w.Idle(p) && q !in w.alive && !w.Referenced(q) then World(w.alive + {q}, w.refs[Handling(p) := q]) else w
    case Fail(p) => w.(refs := Without(w.refs, Handling(p)))
    case Send(p) =>
      if Handling(p) !in w.refs || Queued(p) in w.refs then w
      else if w.Referenced(p) then w.(refs := Moved(w.refs, Handling(p), Queued(p)))
      else w.(refs := Without(w.refs, Handling(p)))
    case Take(p, fd) =>
      if Queued(p) in w.refs && Client(fd) !in w.refs then w.(refs := Moved(w.refs, Queued(p), Client(fd))) else w
    case Close(fd) =>
      if Client(fd) in w.refs
      then w.(refs := Without(Without(w.refs, Queued(w.refs[Client(fd)])), Client(fd))) else w
    case Exit(q) =>
      if q in w.alive && !w.Referenced(q) && Handling(q) !in w.refs then w.(alive := w.alive - {q}) else w
  }

  ghost function Run(w: World, es: seq<Event>): World {
    if es == [] then w else Step(Run(w, es[..|es| - 1]), es[|es| - 1])
  }

  // At most one reference to each near end, and none to a service that has terminated.
  ghost predicate Owned(w: World) {
    && (forall h | h in w.refs :: w.refs[h] in w.alive)
    && (forall g, h | g in w.refs && h in w.refs && w.refs[g] == w.refs[h] :: g == h)
  }

  lemma StepKeeps(w: World, e: Event)
    requires Owned(w)
    ensures Owned(Step(w, e))
    ensures forall fd | Client(fd) in w.refs && e != Close(fd) ::
              Client(fd) in Step(w, e).refs && Step(w, e).refs[Client(fd)] == w.refs[Client(fd)]
  {
  }

  /** Closing other clients, failing requests and terminating services, in any order, never ends a
      service whose own client stays open: a tree loses only the services of closed nodes. */
  lemma {:induction false} OnlyItsOwnCloseEndsIt(w: World, es: seq<Event>, fd: int)
    requires Owned(w) && Client(fd) in w.refs && Close(fd) !in es
    ensures Owned(Run(w, es))
    ensures var r := Run(w, es);
            Client(fd) in r.refs && r.refs[Client(fd)] == w.refs[Client(fd)] && w.refs[Client(fd)] in r.alive
  {
    if es != [] {
      var init := es[..|es| - 1];
      assert es[|es| - 1] in es && forall e | e in init :: e in es;
      OnlyItsOwnCloseEndsIt(w, init, fd);
      StepKeeps(Run(w, init), es[|es| - 1]);
    }
  }

  /** Closing a client always ends its service, and with it any service whose response it has not
      received, but no other: no other reference to their peers exists, so they see the end of the
      connection, once they have dealt with a request in progress. */
  lemma CloseEnds(w: World, fd: int)
    requires Owned(w) && Client(fd) in w.refs
    ensures var q, w' := w.refs[Client(fd)], Step(w, Close(fd));
            && !w'.Referenced(q)
            && (Handling(q) !in w.refs ==> q !in Step(w', Exit(q)).alive)
            && forall r | r != q && w.Referenced(r) ::
                 w'.Referenced(r) <==> (Queued(q) in w.refs ==> r != w.refs[Queued(q)])
  {
    var q, w' := w.refs[Client(fd)], Step(w, Close(fd));
    forall r | r != q && w.Referenced(r) && (Queued(q) in w.refs ==> r != w.refs[Queued(q)]) ensures w'.Referenced(r) {
      var h :| h in w.refs && w.refs[h] == r;
      assert h in w'.refs && w'.refs[h] == r;
    }
  }

  /** A service that was started for a request that then fails sees the end of its connection, too. */
  lemma FailureEnds(w: World, p: nat)
    requires Owned(w) && Handling(p) in w.refs
    ensures !Step(w, Fail(p)).Referenced(w.refs[Handling(p)])
  {
  }

  /** A response keeps the started service alive exactly as long as there is someone who can receive it. */
  lemma SentToNobodyEnds(w: World, p: nat)
    requires Owned(w) && Handling(p) in w.refs && Queued(p) !in w.refs && w.refs[Handling(p)] != p
    ensures Step(w, Send(p)).Referenced(w.refs[Handling(p)]) <==> w.Referenced(p)
  {
    var w' := Step(w, Send(p));
    if w.Referenced(p) { assert Queued(p) in w'.refs; }
  }
}
