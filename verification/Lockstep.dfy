/** Client and service on one stream: requests and responses alternate, so every read gets exactly one
    message and the codecs stay in step. */
module Lockstep {
  import opened Wrappers
  import opened GobMsg

  const BLOCKSIZE := 8192

  datatype ClientState = Ready | Waiting | Stopped
  datatype ServiceState = Listening | Serving | Ended

  // One direction: the encoder's and the decoder's types, the bytes under way as items, and all values
  // so far that were put in and got out.
  datatype Channel = Channel(sent: set<Type>, known: set<Type>, wire: seq<Item>, values: seq<Value>, got: seq<Value>)

  datatype World = World(client: ClientState, service: ServiceState, requests: Channel, responses: Channel)

  datatype Event =
    | Ask(v: Value)        // the client sends a request
    | Hear                 // the service reads and decodes
    | Answer(v: Value)     // the service sends its response
    | Receive              // the client reads and decodes
    | GiveUp               // the client's call fails, for example at its deadline
    | Quit                 // the service returns
    | GoOn                 // the client is used again although its call failed

  function Put(c: Channel, v: Value): Channel {
    c.(sent := c.sent + TypesIn(Deps(v.typ)), wire := c.wire + Encoded(c.sent, v), values := c.values + [v])
  }

  function Size(size: Item -> nat, items: seq<Item>): nat {
    if items == [] then 0 else size(items[0]) + Size(size, items[1..])
  }

  // How many whole items there are in the first room bytes.
  function Whole(size: Item -> nat, items: seq<Item>, room: nat): (n: nat)
    ensures n <= |items|
  {
    if items == [] || size(items[0]) > room then 0 else 1 + Whole(size, items[1..], room - size(items[0]))
  }

  // A read takes all that is there, up to the size of the buffer. An item that is cut in two does not
  // decode. The decoder stops at the first value; what is behind it in the buffer is lost.
  function Take(c: Channel, size: Item -> nat): (Channel, bool) {
    var n := Whole(size, c.wire, BLOCKSIZE);
    var v := Decoded(c.known, c.wire[..n]);
    (c.(wire := c.wire[n..], known := Learned(c.known, c.wire[..n]),
        got := if v.Some? then c.got + [v.value] else c.got), v.Some?)
  }

  predicate Fits(c: Channel, v: Value, size: Item -> nat) {
    Size(size, Encoded(c.sent, v)) <= BLOCKSIZE
  }

  function Step(w: World, e: Event, size: Item -> nat): World {
    match e
    case Ask(v) =>
      if w.client == Ready then w.(client := Waiting, requests := Put(w.requests, v)) else w
    case Hear =>
      if w.service == Listening && w.requests.wire != [] then
        var (c, ok) := Take(w.requests, size);
        w.(requests := c, service := if ok then Serving else Ended)
      else w
    case Answer(v) =>
      if w.service == Serving then w.(service := Listening, responses := Put(w.responses, v)) else w
    case Receive =>
      if w.client == Waiting && w.responses.wire != [] then
        var (c, ok) := Take(w.responses, size);
        w.(responses := c, client := if ok then Ready else Stopped)
      else w
    case GiveUp => if w.client == Waiting then w.(client := Stopped) else w
    case Quit => w.(service := Ended)
    case GoOn => if w.client == Stopped then w.(client := Ready) else w
  }

  function Run(w: World, es: seq<Event>, size: Item -> nat): World {
    if es == [] then w else Step(Run(w, es[..|es| - 1], size), es[|es| - 1], size)
  }

  const START := World(Ready, Listening, Channel({}, {}, [], [], []), Channel({}, {}, [], [], []))

  // Nothing under way: the decoder knows all types sent, and has returned all values.
  predicate Empty(c: Channel) {
    c.wire == [] && c.known == c.sent && c.got == c.values
  }

  // One message under way: what the decoder does not know or has not returned is in it.
  predicate OneMessage(c: Channel) {
    && c.values != [] && c.got == c.values[..|c.values| - 1]
    && c.wire == Encoded(c.known, c.values[|c.values| - 1])
    && c.sent == c.known + TypesIn(Deps(c.values[|c.values| - 1].typ))
  }

  // The first value among the items.
  function FirstCarried(items: seq<Item>): Option<Value> {
    if items == [] then None
    else match items[0]
      case Describes(_) => FirstCarried(items[1..])
      case Carries(v) => Some(v)
  }

  // The last message was too large to be read in one go: its value is still under way.
  predicate CutOff(c: Channel) {
    && c.values != [] && c.got == c.values[..|c.values| - 1]
    && FirstCarried(c.wire) == Some(c.values[|c.values| - 1])
  }

  predicate InStep(w: World) {
    var n, m := |w.requests.values|, |w.responses.values|;
    && (w.client == Ready ==> Empty(w.requests) && Empty(w.responses) && n == m && w.service != Serving)
    && (w.service == Serving ==> Empty(w.requests) && Empty(w.responses) && n == m + 1)
    && (|| (Empty(w.requests) && Empty(w.responses) && m <= n <= m + 1)
        || (OneMessage(w.requests) && Empty(w.responses) && n == m + 1)
        || (Empty(w.requests) && OneMessage(w.responses) && n == m)
        || (CutOff(w.requests) && Empty(w.responses) && n == m + 1 && w.service == Ended)
        || (Empty(w.requests) && CutOff(w.responses) && n == m && w.client == Stopped))
    && (!Empty(w.requests) || !Empty(w.responses) ==> w.client != Ready && w.service != Serving)
    && (w.service == Listening && Empty(w.requests) && Empty(w.responses) ==> w.client != Waiting && n == m)
  }

  lemma PutOne(c: Channel, v: Value)
    requires Empty(c)
    ensures OneMessage(Put(c, v)) && !Empty(Put(c, v)) && Put(c, v).wire == Encoded(c.sent, v)
  {
    assert c.wire + Encoded(c.sent, v) == Encoded(c.sent, v);
  }

  lemma {:induction false} WholeFits(size: Item -> nat, items: seq<Item>, room: nat)
    ensures Whole(size, items, room) == |items| <==> Size(size, items) <= room
    decreases items
  {
    if items != [] && size(items[0]) <= room {
      WholeFits(size, items[1..], room - size(items[0]));
    }
  }

  /** The message under way comes out as the value that went in if and only if it fits the buffer. */
  lemma TakeOne(c: Channel, size: Item -> nat)
    requires OneMessage(c)
    ensures c.wire != [] && Take(c, size).0.values == c.values
    ensures Take(c, size).1 <==> Size(size, c.wire) <= 8192
    ensures if Take(c, size).1 then Empty(Take(c, size).0) else CutOff(Take(c, size).0)
  {
    var v, n := c.values[|c.values| - 1], Whole(size, c.wire, BLOCKSIZE);
    WholeFits(size, c.wire, BLOCKSIZE);
    if n == |c.wire| {
      assert c.wire[..n] == c.wire && c.wire[n..] == [];
      DecodeEncoded(c.known, v);
      assert c.got + [v] == c.values;
    } else {
      CutEncoded(c.known, c.known, v, n);
      RestCarries(c.known, Deps(v.typ), v, n);
    }
  }

  // However much of a message is cut off at its front, its value stays.
  lemma {:induction false} RestCarries(sent: set<Type>, ts: seq<Type>, v: Value, n: nat)
    requires n <= |Described(sent, ts)|
    ensures FirstCarried((Described(sent, ts) + [Carries(v)])[n..]) == Some(v)
    decreases ts
  {
    var items := Described(sent, ts) + [Carries(v)];
    if ts != [] {
      var more := Described(sent + {ts[0]}, ts[1..]) + [Carries(v)];
      if ts[0] in sent {
        assert items == more;
        RestCarries(sent + {ts[0]}, ts[1..], v, n);
      } else {
        assert items == [Describes(ts[0])] + more;
        RestCarries(sent + {ts[0]}, ts[1..], v, if n == 0 then 0 else n - 1);
        assert items[n..] == if n == 0 then [Describes(ts[0])] + more[0..] else more[n - 1..];
      }
    }
  }

  lemma StepKeeps(w: World, e: Event, size: Item -> nat)
    requires InStep(w) && e != GoOn
    ensures InStep(Step(w, e, size))
  {
    hide Encoded, Take, Deps, TypesIn;
    match e
    case Ask(v) => if w.client == Ready { PutOne(w.requests, v); }
    case Answer(v) => if w.service == Serving { PutOne(w.responses, v); }
    case Hear => if OneMessage(w.requests) { TakeOne(w.requests, size); }
    case Receive => if OneMessage(w.responses) { TakeOne(w.responses, size); }
    case _ =>
  }

  /** In every run in which a client whose call failed is not used again, with messages of any size: at
      most one message is under way in both directions together, each read gets just that one, the
      decoders know what the encoders have sent but for what is under way, and the n-th value out is
      the n-th value in. A message that is too large stops whoever reads it. */
  lemma AlwaysInStep(es: seq<Event>, size: Item -> nat)
    requires GoOn !in es
    ensures InStep(Run(START, es, size))
  {
    RunKeeps(START, es, size);
  }

  lemma {:induction false} RunKeeps(w: World, es: seq<Event>, size: Item -> nat)
    requires InStep(w) && GoOn !in es
    ensures InStep(Run(w, es, size))
  {
    if es != [] {
      var init := es[..|es| - 1];
      assert es[|es| - 1] in es && forall e | e in init :: e in es;
      RunKeeps(w, init, size);
      StepKeeps(Run(w, init, size), es[|es| - 1], size);
    }
  }

  /** What the client has decoded answers its requests one by one, and the service has decoded exactly
      the requests that were sent, but for one at most. */
  lemma NothingLostOrSwapped(es: seq<Event>, size: Item -> nat)
    requires GoOn !in es
    ensures var w := Run(START, es, size);
            && w.requests.got <= w.requests.values && |w.requests.values| <= |w.requests.got| + 1
            && w.responses.got <= w.responses.values && |w.responses.values| <= |w.responses.got| + 1
            && |w.responses.values| <= |w.requests.got|
            && (w.client == Ready ==> |w.responses.got| == |w.requests.values|)
  {
    AlwaysInStep(es, size);
  }

  /** Once the service has returned it hears and answers nothing more, whatever else happens. */
  lemma {:induction false} EndedForGood(w: World, es: seq<Event>, size: Item -> nat)
    ensures var w', r := Step(w, Quit, size), Run(Step(w, Quit, size), es, size);
            r.service == Ended && r.requests.got == w'.requests.got == w.requests.got
            && r.responses.values == w'.responses.values == w.responses.values
  {
    hide Put, Take;
    if es != [] {
      var v := Run(Step(w, Quit, size), es[..|es| - 1], size);
      EndedForGood(w, es[..|es| - 1], size);
      ReceivedKeepsValues(v.requests, size);
      ReceivedKeepsValues(v.responses, size);
    }
  }

  lemma ReceivedKeepsValues(c: Channel, size: Item -> nat)
    ensures Take(c, size).0.values == c.values && forall v :: Put(c, v).got == c.got
  {
  }

  // An empty channel that one more value has passed.
  function Passed(c: Channel, v: Value): Channel {
    var ts := c.sent + TypesIn(Deps(v.typ));
    Channel(ts, ts, [], c.values + [v], c.got + [v])
  }

  // A channel after one value has been put in, and after it has been taken out.
  lemma PutThenTake(c: Channel, v: Value, size: Item -> nat)
    requires Empty(c) && Fits(c, v, size)
    ensures Put(c, v).wire != [] && Take(Put(c, v), size).1
    ensures Take(Put(c, v), size).0 == Passed(c, v)
  {
    PutOne(c, v);
    TakeOne(Put(c, v), size);
    WholeFits(size, Put(c, v).wire, BLOCKSIZE);
    assert Put(c, v).wire[..|Put(c, v).wire|] == Put(c, v).wire;
    DecodeEncoded(c.known, v);
  }

  lemma RunNone(w: World, size: Item -> nat)
    ensures Run(w, [], size) == w
  {
  }

  lemma RunMore(w: World, es: seq<Event>, a: Event, b: Event, size: Item -> nat)
    ensures Run(w, es + [a, b], size) == Step(Step(Run(w, es, size), a, size), b, size)
  {
    hide Step;
    assert (es + [a, b])[..|es| + 1] == es + [a] && (es + [a])[..|es|] == es;
  }

  lemma RunFive(w: World, a: Event, b: Event, c: Event, d: Event, e: Event, size: Item -> nat)
    ensures Run(w, [a, b, c, d, e], size) ==
            Step(Step(Step(Step(Step(w, a, size), b, size), c, size), d, size), e, size)
  {
    hide Step;
    assert [a][..0] == [];
    RunMore(w, [a], b, c, size);
    RunMore(w, [a] + [b, c], d, e, size);
    assert [a] + [b, c] + [d, e] == [a, b, c, d, e];
  }

  // Codecs at the ends of an empty channel.
  ghost predicate AtEnds(c: Channel, enc: Encoder, dec: Decoder)
    reads enc, dec
  {
    c.wire == [] && c.sent == enc.sent && c.known == dec.known && dec.buff.Length == BLOCKSIZE
  }

  // Sizes are counted in items.
  const ONE: Item -> nat := _ => 1

  lemma {:induction false} SizeInItems(items: seq<Item>)
    ensures Size(ONE, items) == |items|
    decreases items
  {
    if items != [] { SizeInItems(items[1..]); }
  }

  /** The codecs do what the two ends of the stream do: one call, from the client's encoder to its decoder,
      leads where the events of that call lead. */
  method Call(cenc: Encoder, sdec: Decoder, senc: Encoder, cdec: Decoder, q: Value, r: Value, ghost w: World)
    returns (heard: Option<Value>, answer: Option<Value>, ghost w': World)
    requires cenc != senc && sdec != cdec && sdec.buff != cdec.buff
    requires w.client == Ready && w.service == Listening && InStep(w)
    requires AtEnds(w.requests, cenc, sdec) && AtEnds(w.responses, senc, cdec)
    modifies cenc, sdec, senc, cdec, sdec.buff, cdec.buff
    ensures w' == Run(w, [Ask(q), Hear] + if heard.Some? then [Answer(r), Receive] else [], ONE)
    ensures heard.Some? ==> heard == Some(q) && (answer.Some? ==> answer == Some(r))
    ensures heard.Some? <==> Fits(w.requests, q, ONE)
    ensures answer.Some? <==> Fits(w.requests, q, ONE) && Fits(w.responses, r, ONE)
    ensures answer.Some? ==>
      && w'.client == Ready && w'.service == Listening && InStep(w')
      && AtEnds(w'.requests, cenc, sdec) && AtEnds(w'.responses, senc, cdec)
      && w'.requests.got == w.requests.got + [q] && w'.responses.got == w.responses.got + [r]
  {
    hide Encoded, Take, Size, Run;
    SizeInItems(Encoded(w.requests.sent, q));
    SizeInItems(Encoded(w.responses.sent, r));
    heard := Transmit(cenc, sdec, q);
    answer := None;
    RunNone(w, ONE);
    RunMore(w, [], Ask(q), Hear, ONE);
    RunMore(w, [Ask(q), Hear], Answer(r), Receive, ONE);
    assert [] + [Ask(q), Hear] == [Ask(q), Hear] && [Ask(q), Hear] + [] == [Ask(q), Hear];
    if heard.None? {
      w' := Run(w, [Ask(q), Hear], ONE);
      return;
    }
    answer := Transmit(senc, cdec, r);
    w' := Run(w, [Ask(q), Hear] + [Answer(r), Receive], ONE);
    PutThenTake(w.requests, q, ONE);
    if answer.Some? {
      PutThenTake(w.responses, r, ONE);
    }
  }
}
