/** Callers that wait for a throw-away goroutine to hand over its result: goSeparate for a panic,
    Room for a descriptor, and mntns.NewTransient for its idler's mount namespace. Such calls nest. */
module Rendezvous {

  datatype Kind = Root | Separate | Maker | Idler

  datatype Pc =
    | Running
    | Waiting(worker: nat)   // receives from the unbuffered channel of its worker
    | Sending                // sends on its own channel
    | Idling                 // has handed over its namespace and waits for the end of the test
    | Closing                // closes its own channel
    | Gone

  // got is what its caller received: a value, or the zero value of a closed channel. setUp counts the
  // set-up calls of an idler that have succeeded: unshare, remount, open.
  datatype Go = Go(kind: Kind, caller: nat, pc: Pc, setUp: nat, panicked: bool, got: Got)
  datatype Got = Nothing | Zero | Value

  const SET_UP := 3

  type World = seq<Go>

  datatype Event =
    | Spawn(g: nat, kind: Kind)      // g calls goSeparate, Room or mntns.NewTransient
    | Finish(g: nat, panics: bool)   // g's own code ends
    | SetUp(g: nat, ok: bool)        // an idler's next set-up call
    | Deliver(g: nat)                // g's send meets its caller's receive
    | Close(g: nat)
    | Release(g: nat)                // the test ends, and with it the idler's wait

  predicate Enabled(w: World, e: Event) {
    && e.g < |w|
    && match e
       case Spawn(g, kind) => w[g].pc == Running && w[g].kind in {Root, Separate} && kind != Root
       case Finish(g, panics) => w[g].pc == Running && w[g].kind != Idler && (w[g].kind == Maker ==> !panics)
       case SetUp(g, _) => w[g].pc == Running && w[g].kind == Idler
       case Deliver(g) => w[g].pc == Sending && w[g].caller < |w| && w[w[g].caller].pc == Waiting(g)
       case Close(g) => w[g].pc == Closing
       case Release(g) => w[g].pc == Idling
  }

  function Step(w: World, e: Event): (w': World)
    ensures |w'| == |w| + if Enabled(w, e) && e.Spawn? then 1 else 0
  {
    if !Enabled(w, e) then w else
    var go := w[e.g];
    match e
    case Spawn(g, kind) => w[g := go.(pc := Waiting(|w|))] + [Go(kind, g, Running, 0, false, Nothing)]
    case Finish(g, panics) =>
      var next := if go.kind == Root then Gone else if go.kind == Maker || panics then Sending else Closing;
      w[g := go.(panicked := panics, pc := next)]
    case SetUp(g, ok) =>
      if !ok then w[g := go.(panicked := true, pc := Closing)]
      else w[g := go.(setUp := go.setUp + 1, pc := if go.setUp + 1 == SET_UP then Sending else Running)]
    case Deliver(g) =>
      var caller := w[go.caller];
      w[g := go.(got := Value, pc := if go.kind == Idler then Idling else Closing)][go.caller := caller.(pc := Running)]
    case Close(g) =>
      if go.caller < |w| && w[go.caller].pc == Waiting(g) then
        w[g := go.(got := Zero, pc := Gone)][go.caller := w[go.caller].(pc := Running)]
      else w[g := go.(pc := Gone)]
    case Release(g) => w[g := go.(pc := Closing)]
  }

  function Run(w: World, es: seq<Event>): World {
    if es == [] then w else Step(Run(w, es[..|es| - 1]), es[|es| - 1])
  }

  // A goroutine by itself.
  predicate Consistent(go: Go) {
    && (go.pc == Idling ==> go.kind == Idler && go.got == Value)
    && (go.pc == Gone ==> go.kind == Root || go.got != Nothing)
    && (go.pc in {Running, Sending} || go.pc.Waiting? ==> go.got == Nothing)
    && match go.kind
       case Root => go.pc in {Running, Gone} || go.pc.Waiting?
       case Separate => && (go.got != Nothing ==> (go.got == Value <==> go.panicked))
                        && (go.pc == Sending ==> go.panicked)
                        && (go.pc == Closing && go.got == Nothing ==> !go.panicked)
       case Maker => && (go.got != Nothing ==> go.got == Value)
                     && !go.pc.Waiting? && (go.pc == Closing ==> go.got == Value)
       case Idler => && !go.pc.Waiting? && go.setUp <= SET_UP
                     && (go.pc == Running ==> go.setUp < SET_UP && !go.panicked)
                     && (go.pc == Sending || go.got == Value ==> go.setUp == SET_UP && !go.panicked)
                     && (go.got == Zero || (go.pc == Closing && go.got == Nothing) ==> go.panicked)
  }

  predicate Inv(w: World) {
    Linked(w) && forall g | 0 <= g < |w| :: Consistent(w[g])
  }

  // A caller waits for exactly the worker that it has not heard from yet.
  predicate Linked(w: World) {
    && (forall g | 0 <= g < |w| && w[g].kind != Root :: w[g].caller < g)
    && (forall g | 0 <= g < |w| && w[g].kind != Root && w[g].got == Nothing :: w[w[g].caller].pc == Waiting(g))
    && (forall g | 0 <= g < |w| && w[g].pc.Waiting? ::
          var x := w[g].pc.worker; g < x < |w| && w[x].kind != Root && w[x].caller == g && w[x].got == Nothing)
  }

  // What a step makes of the goroutine that steps, of its caller, and of a new one.
  lemma StepsConsistent(w: World, e: Event)
    requires Inv(w) && Enabled(w, e)
    ensures Consistent(Step(w, e)[e.g])
    ensures w[e.g].caller < |w| && w[e.g].caller != e.g ==> Consistent(Step(w, e)[w[e.g].caller])
    ensures e.Spawn? ==> Consistent(Step(w, e)[|w|])
  {
    assert Consistent(w[e.g]);
    assert w[e.g].caller < |w| ==> Consistent(w[w[e.g].caller]);
  }

  lemma StepsOnlyThere(w: World, e: Event, g: nat)
    requires Inv(w) && Enabled(w, e) && g < |w| && g != e.g && g != w[e.g].caller
    ensures Step(w, e)[g] == w[g]
  {
  }

  lemma StepKeeps(w: World, e: Event)
    requires Inv(w)
    ensures Inv(Step(w, e))
  {
    if Enabled(w, e) {
      var w' := Step(w, e);
      StepsConsistent(w, e);
      forall g | 0 <= g < |w'| ensures Consistent(w'[g]) {
        if g < |w| && g != e.g && g != w[e.g].caller {
          StepsOnlyThere(w, e, g);
        }
      }
      StepKeepsLinks(w, e);
    }
  }

  lemma StepKeepsLinks(w: World, e: Event)
    requires Inv(w) && Enabled(w, e)
    ensures Linked(Step(w, e))
  {
    hide Linked;
    var g, go, w' := e.g, w[e.g], Step(w, e);
    assert Consistent(go);
    if e.Spawn? {
      LinksAfterSpawn(w, g, e.kind);
    } else if e.Deliver? || (e.Close? && go.caller < |w| && w[go.caller].pc == Waiting(g)) {
      WaitedFor(w, g);
      LinksAfterPair(w, g, w'[g]);
    } else {
      LinksAfterOne(w, g, w'[g]);
    }
  }

  lemma LinksAfterSpawn(w: World, g: nat, kind: Kind)
    requires Linked(w) && g < |w| && !w[g].pc.Waiting? && kind != Root
    ensures Linked(w[g := w[g].(pc := Waiting(|w|))] + [Go(kind, g, Running, 0, false, Nothing)])
  {
    hide Consistent;
  }

  lemma WaitedFor(w: World, g: nat)
    requires Linked(w) && g < |w| && w[g].caller < |w| && w[w[g].caller].pc == Waiting(g)
    ensures w[g].kind != Root && w[g].got == Nothing && w[g].caller < g
  {
  }

  lemma LinksAfterPair(w: World, g: nat, go: Go)
    requires Linked(w) && g < |w| && w[g].caller < |w| && w[w[g].caller].pc == Waiting(g) && !w[g].pc.Waiting?
    requires go.kind == w[g].kind && go.caller == w[g].caller && go.got != Nothing && !go.pc.Waiting?
    ensures Linked(w[g := go][w[g].caller := w[w[g].caller].(pc := Running)])
  {
  }

  lemma LinksAfterOne(w: World, g: nat, go: Go)
    requires Linked(w) && g < |w| && !w[g].pc.Waiting? && !go.pc.Waiting?
    requires go.kind == w[g].kind && go.caller == w[g].caller && go.got == w[g].got
    ensures Linked(w[g := go])
  {
  }

  // Any number of goroutines that nobody waits for.
  predicate Start(w: World) {
    forall g | 0 <= g < |w| :: w[g] == Go(Root, 0, Running, 0, false, Nothing)
  }

  /** In every run: goSeparate receives a panic to rethrow if and only if its worker's code panicked,
      Room always receives a result, and mntns.NewTransient receives a namespace if and only if all
      of its idler's set-up calls succeeded. */
  lemma {:induction false} HandedOverExactly(w: World, es: seq<Event>, g: nat)
    requires Start(w) && g < |Run(w, es)|
    ensures Inv(Run(w, es))
    ensures var go := Run(w, es)[g];
      go.got != Nothing ==>
        && (go.kind == Separate ==> (go.got == Value <==> go.panicked))
        && (go.kind == Maker ==> go.got == Value)
        && (go.kind == Idler ==> (go.got == Value <==> go.setUp == 3 && !go.panicked))
  {
    AlwaysInv(w, es);
    assert Consistent(Run(w, es)[g]);
  }

  lemma {:induction false} AlwaysInv(w: World, es: seq<Event>)
    requires Start(w)
    ensures Inv(Run(w, es))
  {
    if es != [] {
      AlwaysInv(w, es[..|es| - 1]);
      StepKeeps(Run(w, es[..|es| - 1]), es[|es| - 1]);
    }
  }

  /** No deadlock: however deep calls are nested, whoever a waiting caller waits for in the end can go
      on, without anything new being started and before the test ends. */
  lemma {:induction false} NoDeadlock(w: World, g: nat) returns (e: Event)
    requires Inv(w) && g < |w| && w[g].pc.Waiting?
    ensures Enabled(w, e) && !e.Spawn? && !e.Release? && Step(w, e) != w
    decreases |w| - g
  {
    var x := w[g].pc.worker;
    assert Consistent(w[x]);
    if w[x].pc.Waiting? {
      e := NoDeadlock(w, x);
    } else {
      e := match w[x].pc
        case Running => if w[x].kind == Idler then SetUp(x, true) else Finish(x, false)
        case Sending => Deliver(x)
        case _ => Close(x);
      var w' := Step(w, e);
      assert w'[x] != w[x];
    }
  }

  // What is left to do for a goroutine before it ends, if it starts nothing new.
  function Left(go: Go): nat {
    match go.pc
    case Waiting(_) => 7
    case Running => if go.setUp < SET_UP then 6 - go.setUp else 6
    case Sending => 3
    case Idling => 2
    case Closing => 1
    case Gone => 0
  }

  function AllLeft(w: World): nat {
    if w == [] then 0 else AllLeft(w[..|w| - 1]) + Left(w[|w| - 1])
  }

  lemma {:induction false} LeftAfter(w: World, g: nat, go: Go)
    requires g < |w|
    ensures AllLeft(w[g := go]) == AllLeft(w) - Left(w[g]) + Left(go)
  {
    var n := |w| - 1;
    if g == n {
      assert w[g := go][..n] == w[..n];
    } else {
      LeftAfter(w[..n], g, go);
      assert w[g := go][..n] == w[..n][g := go];
    }
  }

  lemma StepBringsCloser(w: World, e: Event)
    requires Inv(w) && Enabled(w, e) && !e.Spawn?
    ensures AllLeft(Step(w, e)) < AllLeft(w)
  {
    hide AllLeft;
    var w', go := Step(w, e), w[e.g];
    assert Consistent(go);
    if go.kind != Root { assert go.caller < e.g; }
    hide Linked, Inv;
    LeftAfter(w, e.g, w'[e.g]);
    var w1 := w[e.g := w'[e.g]];
    if w' != w1 {
      LeftAfter(w1, go.caller, w'[go.caller]);
      assert w' == w1[go.caller := w'[go.caller]];
    }
  }

  /** And the waiting comes to an end: without new calls, only so many steps are possible. */
  lemma {:induction false} WaitingIsBounded(w: World, es: seq<Event>)
    requires Inv(w) && forall i | 0 <= i < |es| :: !es[i].Spawn? && Enabled(Run(w, es[..i]), es[i])
    ensures Inv(Run(w, es)) && |es| + AllLeft(Run(w, es)) <= AllLeft(w)
  {
    if es != [] {
      var n := |es| - 1;
      forall i | 0 <= i < n ensures !es[..n][i].Spawn? && Enabled(Run(w, es[..n][..i]), es[..n][i]) {
        assert es[..n][..i] == es[..i];
      }
      WaitingIsBounded(w, es[..n]);
      StepKeeps(Run(w, es[..n]), es[n]);
      StepBringsCloser(Run(w, es[..n]), es[n]);
    }
  }
}
