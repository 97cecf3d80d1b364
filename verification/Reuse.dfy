/** A client that is used again although its call failed: what its next call gets. */
module Reuse {
  import opened Wrappers
  import opened GobMsg
  import opened Lockstep

  /** Using a client again after a failed call breaks this: its next call returns the response to the
      call that failed. */
  lemma StaleResponse(size: Item -> nat, a: Value, b: Value, ra: Value)
    requires Fits(START.requests, a, size) && Fits(START.responses, ra, size)
    requires Size(size, Encoded({} + TypesIn(Deps(a.typ)), b)) <= BLOCKSIZE
    ensures var w := Run(START, [Ask(a), GiveUp, GoOn, Hear, Answer(ra), Ask(b), Receive], size);
            w.client == Ready && w.requests.values == [a, b] && w.requests.got == [a] && w.responses.got == [ra]
  {
    hide Encoded, Take, Size, Run;
    var es := [Ask(a), GiveUp, GoOn, Hear, Answer(ra), Ask(b), Receive];
    var q, r := START.requests, START.responses;
    PutThenTake(q, a, size);
    PutThenTake(r, ra, size);
    var w3 := World(Ready, Listening, Put(q, a), r);
    assert Step(Step(Step(START, es[0], size), es[1], size), es[2], size) == w3;
    var w5 := World(Ready, Listening, Passed(q, a), Put(r, ra));
    assert Step(Step(w3, es[3], size), es[4], size) == w5;
    var w7 := World(Ready, Listening, Put(Passed(q, a), b), Passed(r, ra));
    assert Step(Step(w5, es[5], size), es[6], size) == w7;
    RunFive(START, es[0], es[1], es[2], es[3], es[4], size);
    RunMore(START, es[..5], es[5], es[6], size);
    assert es[..5] == [es[0], es[1], es[2], es[3], es[4]] && es[..5] + [es[5], es[6]] == es;
  }

  // The next call of a client, with the service reading its request and answering it.
  function NextCall(b: Value, rb: Value): seq<Event> {
    [GoOn, Ask(b), Hear, Answer(rb), Receive]
  }

  // The failed call has left nothing behind: nothing is under way in either direction, and the service
  // is listening.
  predicate Clean(w: World) {
    Empty(w.requests) && Empty(w.responses) && w.service == Listening
  }

  /** The next call can get its own response, and leave client and service in step, if and only if the
      failed call has left nothing behind. */
  lemma ReuseIsHarmless(w: World, b: Value, rb: Value, size: Item -> nat)
    requires InStep(w) && w.client == Stopped
    requires Fits(w.requests, b, size) && Fits(w.responses, rb, size)
    ensures var w' := Run(w, NextCall(b, rb), size);
            && w'.client == Ready && InStep(w')
            && w'.requests.got == w.requests.got + [b] && w'.responses.got == w.responses.got + [rb]
            <==> Clean(w)
  {
    hide Encoded, Take, Size, Run;
    RunFive(w, GoOn, Ask(b), Hear, Answer(rb), Receive, size);
    var w1 := w.(client := Ready);
    var w2 := w.(client := Waiting, requests := Put(w.requests, b));
    assert Step(Step(w, GoOn, size), Ask(b), size) == w2;
    if Clean(w) {
      PutThenTake(w.requests, b, size);
      PutThenTake(w.responses, rb, size);
      var w3 := World(Waiting, Serving, Passed(w.requests, b), w.responses);
      var w5 := World(Ready, Listening, Passed(w.requests, b), Passed(w.responses, rb));
      assert Step(w2, Hear, size) == w3;
      assert Step(Step(w3, Answer(rb), size), Receive, size) == w5;
    } else {
      ReuseHarms(w, b, rb, size);
    }
  }

  lemma ReuseHarms(w: World, b: Value, rb: Value, size: Item -> nat)
    requires InStep(w) && w.client == Stopped
    requires !Clean(w)
    ensures var w2 := w.(client := Waiting, requests := Put(w.requests, b));
            var w' := Step(Step(Step(w2, Hear, size), Answer(rb), size), Receive, size);
            !(w'.client == Ready && InStep(w') && w'.requests.got == w.requests.got + [b])
  {
    hide Encoded, Deps, TypesIn, Size, Whole, Decoded, Learned;
  }

  // The client goes on and sends its next request.
  function Reused(w: World, b: Value, size: Item -> nat): World {
    Step(Step(w, GoOn, size), Ask(b), size)
  }

  // Nothing comes from the service any more.
  predicate Silent(w: World, k: nat) {
    w.service == Ended && w.responses.wire == [] && |w.responses.got| == k
  }

  // Request i, that is v, is on its way to the service or was the last one heard; or its response is on
  // its way to the client; or the client has decoded that.
  predicate Behind(w: World, i: nat, v: Value) {
    var got, qs, rs := w.responses.got, w.requests, w.responses.values;
    && (i < |qs.got| ==> qs.got[i] == v)
    && if |rs| <= i then
         && |got| == |rs| == i && w.responses.wire == []
         && if w.service == Listening then |qs.got| == i && FirstCarried(qs.wire) == Some(v)
            else w.service == Serving && |qs.got| == i + 1
       else
         && i < |qs.got|
         && if i < |got| then got[i] == rs[i]
            else |got| == i && (w.client == Stopped || FirstCarried(w.responses.wire) == Some(rs[i]))
  }

  lemma {:induction false} FirstOfMore(items: seq<Item>, more: seq<Item>)
    ensures FirstCarried(items).Some? ==> FirstCarried(items + more) == FirstCarried(items)
  {
    if items != [] {
      assert (items + more)[1..] == items[1..] + more;
      FirstOfMore(items[1..], more);
    }
  }

  lemma {:induction false} DecodesFirst(known: set<Type>, items: seq<Item>)
    ensures Decoded(known, items).Some? ==> Decoded(known, items) == FirstCarried(items)
    decreases items
  {
    if items != [] && items[0].Describes? {
      DecodesFirst(known + {items[0].typ}, items[1..]);
    }
  }

  // What is put in later does not overtake.
  lemma PutBehind(c: Channel, v: Value)
    ensures FirstCarried(c.wire).Some? ==> FirstCarried(Put(c, v).wire) == FirstCarried(c.wire)
    ensures c.wire == [] ==> FirstCarried(Put(c, v).wire) == Some(v)
    ensures Put(c, v).values == c.values + [v] && Put(c, v).got == c.got
  {
    FirstOfMore(c.wire, Encoded(c.sent, v));
    if c.wire == [] {
      RestCarries(c.sent, Deps(v.typ), v, 0);
      assert c.wire + Encoded(c.sent, v) == Encoded(c.sent, v)[0..];
    }
  }

  lemma TakesFirst(c: Channel, size: Item -> nat)
    ensures var (c', ok) := Take(c, size);
            && c'.values == c.values
            && (ok ==> FirstCarried(c.wire).Some? && c'.got == c.got + [FirstCarried(c.wire).value])
            && (!ok ==> c'.got == c.got)
  {
    var n := Whole(size, c.wire, BLOCKSIZE);
    DecodesFirst(c.known, c.wire[..n]);
    FirstOfMore(c.wire[..n], c.wire[n..]);
    assert c.wire[..n] + c.wire[n..] == c.wire;
  }

  lemma BehindKeeps(w: World, e: Event, size: Item -> nat, i: nat, v: Value)
    requires Behind(w, i, v) && e != GoOn
    ensures Behind(Step(w, e, size), i, v) || Silent(Step(w, e, size), i)
  {
    hide FirstCarried, Take, Put;
    match e
    case Ask(a) => PutBehind(w.requests, a);
    case Answer(a) => PutBehind(w.responses, a);
    case Hear => TakesFirst(w.requests, size);
    case Receive => TakesFirst(w.responses, size);
    case _ =>
  }

  lemma SilentKeeps(w: World, e: Event, size: Item -> nat, k: nat)
    requires Silent(w, k)
    ensures Silent(Step(w, e, size), k)
  {
  }

  lemma {:induction false} StaysBehind(w: World, es: seq<Event>, size: Item -> nat, i: nat, v: Value)
    requires (Behind(w, i, v) || Silent(w, i)) && GoOn !in es
    ensures Behind(Run(w, es, size), i, v) || Silent(Run(w, es, size), i)
    ensures Silent(w, i) ==> Silent(Run(w, es, size), i)
  {
    hide Behind, Silent, Step;
    if es != [] {
      var init := es[..|es| - 1];
      assert es[|es| - 1] in es && forall e | e in init :: e in es;
      StaysBehind(w, init, size, i, v);
      if Silent(Run(w, init, size), i) {
        SilentKeeps(Run(w, init, size), es[|es| - 1], size, i);
      } else {
        BehindKeeps(Run(w, init, size), es[|es| - 1], size, i, v);
      }
    }
  }

  // What a client that is used again finds.
  lemma BeginsBehind(w: World, b: Value, size: Item -> nat)
    requires InStep(w) && w.client == Stopped && !Clean(w)
    ensures var k, n, w' := |w.responses.got|, |w.requests.values|, Reused(w, b, size);
            Silent(w', k) || (k == n - 1 && Behind(w', k, w.requests.values[k]))
  {
    hide Encoded, Put, FirstCarried;
    PutBehind(w.requests, b);
    if OneMessage(w.requests) { CarriesLast(w.requests); }
    if OneMessage(w.responses) { CarriesLast(w.responses); }
  }

  lemma CarriesLast(c: Channel)
    requires OneMessage(c)
    ensures FirstCarried(c.wire) == Some(c.values[|c.values| - 1])
  {
    var v := c.values[|c.values| - 1];
    RestCarries(c.known, Deps(v.typ), v, 0);
    assert c.wire[0..] == c.wire;
  }

  lemma {:induction false} RequestsStay(w: World, es: seq<Event>, size: Item -> nat)
    ensures w.requests.values <= Run(w, es, size).requests.values
  {
    hide Take, Encoded, Deps;
    if es != [] {
      RequestsStay(w, es[..|es| - 1], size);
      TakesFirst(Run(w, es[..|es| - 1], size).requests, size);
    }
  }

  lemma CleanInStep(w: World, b: Value, size: Item -> nat)
    requires InStep(w) && w.client == Stopped && Clean(w)
    ensures var w' := Reused(w, b, size);
            && InStep(w') && w'.requests.values == w.requests.values + [b]
            && |w.responses.got| == |w.requests.values|
  {
    StepKeeps(w.(client := Ready), Ask(b), size);
  }

  lemma InStepGot(w: World)
    requires InStep(w)
    ensures w.responses.got <= w.responses.values && |w.responses.values| <= |w.requests.got|
    ensures w.requests.got <= w.requests.values
  {
  }

  lemma BehindGot(w: World, i: nat, v: Value)
    requires (Behind(w, i, v) || Silent(w, i)) && i < |w.responses.got|
    ensures !Silent(w, i) && i < |w.requests.got| && w.requests.got[i] == v
    ensures i < |w.responses.values| && w.responses.got[i] == w.responses.values[i]
  {
  }

  /** For every course of events after that, with messages of any size: if the client that is used again
      decodes a response at all, the first one answers the request that it has just sent if and only if
      the failed call has left nothing behind. Otherwise it answers the failed call's request. */
  lemma FirstResponse(w: World, b: Value, es: seq<Event>, size: Item -> nat)
    requires InStep(w) && w.client == Stopped && GoOn !in es
    ensures var asked := w.requests.values + [b];
            var k := |w.responses.got|;
            var w' := Run(Reused(w, b, size), es, size);
            k < |w'.responses.got| ==>
              && k == (if Clean(w) then |asked| - 1 else |asked| - 2)
              && k < |w'.requests.got| && w'.requests.got[k] == asked[k]
              && k < |w'.responses.values| && w'.responses.got[k] == w'.responses.values[k]
  {
    hide InStep, Clean, Behind, Silent, Run, Reused;
    var w1, k := Reused(w, b, size), |w.responses.got|;
    if Clean(w) {
      CleanInStep(w, b, size);
      RunKeeps(w1, es, size);
      RequestsStay(w1, es, size);
      InStepGot(Run(w1, es, size));
    } else {
      BeginsBehind(w, b, size);
      var v := if k < |w.requests.values| then w.requests.values[k] else b;
      StaysBehind(w1, es, size, k, v);
      if k < |Run(w1, es, size).responses.got| { BehindGot(Run(w1, es, size), k, v); }
    }
  }
}
