/** Discrete messages out of a stateful codec: each type is described to the peer only once. */
module GobMsg {
  import opened Wrappers

  // The registered types, and the struct that a subspace response embeds.
  datatype Type = ErrorResponse | SubspaceRequest | SubspaceResponse | Subspaces | RoomsRequest | RoomsResponse

  datatype Value = Value(typ: Type, content: nat)

  // What encoding puts on the wire, for some sizes in bytes.
  datatype Item = Describes(typ: Type) | Carries(value: Value)

  // The types that a decoder must know for a value of this type.
  function Deps(t: Type): seq<Type> {
    if t == SubspaceResponse then [SubspaceResponse, Subspaces] else [t]
  }

  function Described(sent: set<Type>, ts: seq<Type>): seq<Item>
    decreases ts
  {
    if ts == [] then []
    else (if ts[0] in sent then [] else [Describes(ts[0])]) + Described(sent + {ts[0]}, ts[1..])
  }

  function Encoded(sent: set<Type>, v: Value): seq<Item> {
    Described(sent, Deps(v.typ)) + [Carries(v)]
  }

  function TypesIn(ts: seq<Type>): set<Type> {
    set t | t in ts
  }

  // Read up to the first value; anything behind it is lost with the buffer.
  function Decoded(known: set<Type>, items: seq<Item>): Option<Value>
    decreases items
  {
    if items == [] then None
    else match items[0]
      case Describes(t) => Decoded(known + {t}, items[1..])
      case Carries(v) => if TypesIn(Deps(v.typ)) <= known then Some(v) else None
  }

  function Learned(known: set<Type>, items: seq<Item>): set<Type>
    decreases items
  {
    if items == [] then known
    else match items[0]
      case Describes(t) => Learned(known + {t}, items[1..])
      case Carries(_) => known
  }

  lemma {:induction false} DescribedThen(known: set<Type>, ts: seq<Type>, rest: seq<Item>)
    ensures Decoded(known, Described(known, ts) + rest) == Decoded(known + TypesIn(ts), rest)
    ensures Learned(known, Described(known, ts) + rest) == Learned(known + TypesIn(ts), rest)
    decreases ts
  {
    if ts == [] {
      assert known + TypesIn(ts) == known && Described(known, ts) + rest == rest;
    } else {
      var t, more := ts[0], Described(known + {ts[0]}, ts[1..]);
      assert known + TypesIn(ts) == known + {t} + TypesIn(ts[1..]) by {
        assert ts == [t] + ts[1..];
      }
      DescribedThen(known + {t}, ts[1..], rest);
      if t in known {
        assert known + {t} == known && Described(known, ts) + rest == more + rest;
      } else {
        assert Described(known, ts) + rest == [Describes(t)] + (more + rest);
      }
    }
  }

  /** A decoder that knows what the encoder has sent gets the value back and then knows what the
      encoder has sent by now. */
  lemma DecodeEncoded(known: set<Type>, v: Value)
    ensures Decoded(known, Encoded(known, v)) == Some(v)
    ensures Learned(known, Encoded(known, v)) == known + TypesIn(Deps(v.typ))
  {
    DescribedThen(known, Deps(v.typ), [Carries(v)]);
  }

  /** The first subspace response also describes the struct that it embeds; a later value of a type that
      has been sent before goes without any description. */
  lemma DescribedOnce(sent: set<Type>, v: Value, later: Value)
    requires later.typ == v.typ
    ensures Encoded(sent + TypesIn(Deps(v.typ)), later) == [Carries(later)]
    ensures sent == {} && v.typ == SubspaceResponse ==>
      Encoded(sent, v) == [Describes(SubspaceResponse), Describes(Subspaces), Carries(v)]
    ensures sent == {} && v.typ != SubspaceResponse ==> Encoded(sent, v) == [Describes(v.typ), Carries(v)]
  {
    NothingDescribed(sent + TypesIn(Deps(v.typ)), Deps(v.typ));
    if v.typ == SubspaceResponse {
      assert [SubspaceResponse, Subspaces][1..] == [Subspaces];
      DescribesOne({SubspaceResponse}, Subspaces);
    } else {
      DescribesOne({}, v.typ);
    }
  }

  lemma DescribesOne(sent: set<Type>, t: Type)
    requires t !in sent
    ensures Described(sent, [t]) == [Describes(t)]
  {
    assert Described(sent + {t}, [t][1..]) == [];
  }

  lemma {:induction false} NothingDescribed(sent: set<Type>, ts: seq<Type>)
    requires TypesIn(ts) <= sent
    ensures Described(sent, ts) == []
    decreases ts
  {
    if ts != [] {
      assert ts[0] in TypesIn(ts) && sent + {ts[0]} == sent;
      assert forall t | t in ts[1..] :: t in ts;
      NothingDescribed(sent + {ts[0]}, ts[1..]);
    }
  }

  // Without its last item a message has no value in it.
  lemma {:induction false} CutDescribed(sent: set<Type>, known: set<Type>, ts: seq<Type>, n: nat)
    requires n <= |Described(sent, ts)|
    ensures Decoded(known, Described(sent, ts)[..n]) == None
    decreases ts
  {
    if n > 0 {
      var t, more := ts[0], Described(sent + {ts[0]}, ts[1..]);
      if t in sent {
        assert Described(sent, ts) == more;
        CutDescribed(sent + {t}, known, ts[1..], n);
      } else {
        assert Described(sent, ts)[..n] == [Describes(t)] + more[..n - 1];
        CutDescribed(sent + {t}, known + {t}, ts[1..], n - 1);
      }
    }
  }

  lemma CutEncoded(sent: set<Type>, known: set<Type>, v: Value, n: nat)
    requires n < |Encoded(sent, v)|
    ensures Decoded(known, Encoded(sent, v)[..n]) == None
  {
    assert Encoded(sent, v)[..n] == Described(sent, Deps(v.typ))[..n];
    CutDescribed(sent, known, Deps(v.typ), n);
  }

  lemma NoTypes()
    ensures TypesIn([]) == {}
  {
  }

  lemma TypesInNext(sent: set<Type>, ts: seq<Type>, i: nat)
    requires i < |ts|
    ensures sent + TypesIn(ts[..i + 1]) == sent + TypesIn(ts[..i]) + {ts[i]}
  {
    assert ts[..i + 1] == ts[..i] + [ts[i]];
  }

  lemma DescribedNext(buff: seq<Item>, sent: set<Type>, ts: seq<Type>, i: nat)
    requires i < |ts|
    ensures if ts[i] in sent then sent + {ts[i]} == sent && Described(sent, ts[i..]) == Described(sent, ts[i + 1..])
            else buff + Described(sent, ts[i..]) == buff + [Describes(ts[i])] + Described(sent + {ts[i]}, ts[i + 1..])
  {
    assert ts[i..][1..] == ts[i + 1..];
    if ts[i] in sent {
      assert sent + {ts[i]} == sent;
      assert Described(sent, ts[i..]) == [] + Described(sent, ts[i + 1..]);
    } else {
      var rest := Described(sent + {ts[i]}, ts[i + 1..]);
      assert buff + ([Describes(ts[i])] + rest) == buff + [Describes(ts[i])] + rest;
    }
  }

  class Encoder {
    var buff: seq<Item>
    var sent: set<Type>

    constructor ()
      ensures sent == {}
    {
      buff, sent := [], {};
    }

    // Each type that the value needs is described unless it has been before.
    method Encode(v: Value) returns (msg: seq<Item>)
      modifies this
      ensures msg == Encoded(old(sent), v) && sent == old(sent) + TypesIn(Deps(v.typ))
    {
      hide Deps, TypesIn;
      buff := [];
      var ts := Deps(v.typ);
      assert sent + TypesIn(ts[..0]) == sent && [] + Described(sent, ts) == Described(sent, ts) && ts[0..] == ts by {
        NoTypes();
      }
      for i := 0 to |ts|
        invariant sent == old(sent) + TypesIn(ts[..i])
        invariant buff + Described(sent, ts[i..]) == Described(old(sent), ts)
      {
        DescribedNext(buff, sent, ts, i);
        TypesInNext(old(sent), ts, i);
        if ts[i] !in sent {
          buff := buff + [Describes(ts[i])];
          sent := sent + {ts[i]};
        }
      }
      assert ts[|ts|..] == [] && ts[..|ts|] == ts;
      buff := buff + [Carries(v)];
      msg := buff;
    }
  }

  class Decoder {
    const buff: array<Item>
    var known: set<Type>

    constructor (size: nat)
      ensures known == {} && fresh(buff) && buff.Length == size
    {
      buff, known := new Item[size](_ => Describes(ErrorResponse)), {};
    }

    // Reading into the buffer that Buffer returns: what was there before remains behind the message, and
    // what does not fit is not read.
    method Fill(msg: seq<Item>) returns (n: nat)
      modifies buff
      ensures n == (if |msg| <= buff.Length then |msg| else buff.Length)
      ensures buff[..n] == msg[..n] && buff[n..] == old(buff[n..])
    {
      n := if |msg| <= buff.Length then |msg| else buff.Length;
      for i := 0 to n
        invariant buff[..i] == msg[..i] && buff[n..] == old(buff[n..])
      {
        buff[i] := msg[i];
      }
    }

    // Decode what was received into the first n items of the buffer.
    method Decode(n: nat) returns (v: Option<Value>)
      requires n <= buff.Length
      modifies this`known
      ensures v == Decoded(old(known), buff[..n]) && known == Learned(old(known), buff[..n])
    {
      var i := 0;
      assert buff[0..n] == buff[..n];
      while i < n
        invariant i <= n
        invariant Decoded(known, buff[i..n]) == Decoded(old(known), buff[..n])
        invariant Learned(known, buff[i..n]) == Learned(old(known), buff[..n])
      {
        assert buff[i..n][1..] == buff[i + 1..n];
        match buff[i]
        case Carries(x) => return if TypesIn(Deps(x.typ)) <= known then Some(x) else None;
        case Describes(t) =>
          known := known + {t};
          i := i + 1;
      }
      v := None;
    }
  }

  /** A message that is written over whatever the decoder's buffer held before comes out as the value that
      went in, and keeps both codecs in step, if and only if it fits the buffer. */
  method Transmit(enc: Encoder, dec: Decoder, v: Value) returns (got: Option<Value>)
    requires dec.known == enc.sent
    modifies enc, dec, dec.buff
    ensures enc.sent == old(enc.sent) + TypesIn(Deps(v.typ))
    ensures if |Encoded(old(enc.sent), v)| <= dec.buff.Length then got == Some(v) && dec.known == enc.sent
            else got == None
  {
    ghost var sent := enc.sent;
    var msg := enc.Encode(v);
    var n := dec.Fill(msg);
    got := dec.Decode(n);
    if |msg| <= dec.buff.Length {
      assert msg[..n] == msg;
      DecodeEncoded(sent, v);
    } else {
      CutEncoded(sent, sent, v, n);
    }
  }
}
