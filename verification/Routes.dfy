/** Which namespaces a function sees that Execute runs: directly on the caller's thread, or on a
    separate thread that is brought into the caller's namespaces first. */
module Routes {
  import opened Namespaces

  // The types that a separate thread takes over from the caller unless they are overridden.
  const PICKUP := [Cgroup, Ipc, Net, Pid, Time, Uts]

  function Without(ts: seq<NsType>, t: NsType): (r: seq<NsType>)
    ensures forall u :: u in r <==> u in ts && u != t
    ensures |r| <= |ts|
  {
    if ts == [] then []
    else if ts[|ts| - 1] == t then Without(ts[..|ts| - 1], t)
    else
      assert ts == ts[..|ts| - 1] + [ts[|ts| - 1]];
      Without(ts[..|ts| - 1], t) + [ts[|ts| - 1]]
  }

  function Remaining(ts: seq<NsType>, taken: seq<NsType>): (r: seq<NsType>)
    ensures forall u :: u in r <==> u in ts && u !in taken
    decreases |taken|
  {
    if taken == [] then ts
    else
      assert taken == taken[..|taken| - 1] + [taken[|taken| - 1]];
      Without(Remaining(ts, taken[..|taken| - 1]), taken[|taken| - 1])
  }

  // The caller's own namespaces of these types.
  function Owned(v: View, ts: seq<NsType>): (r: seq<Ref>)
    ensures Types(r) == ts
  {
    seq(|ts|, i requires 0 <= i < |ts| => Ref(ts[i], v.Own(ts[i])))
  }

  function Pickups(v: View, others: seq<Ref>): seq<Ref> {
    Owned(v, Remaining(PICKUP, Types(others)))
  }

  function NonMnt(refs: seq<Ref>): seq<Ref> {
    if refs == [] then []
    else NonMnt(refs[..|refs| - 1]) + if refs[|refs| - 1].typ == Mnt then [] else [refs[|refs| - 1]]
  }

  // The separate thread skips a namespace that its own slot already names.
  function Visit(v: View, r: Ref): View {
    if v.Own(r.typ) == r.ino then v else v.Attached(r)
  }

  function Visited(v: View, refs: seq<Ref>): View {
    if refs == [] then v else Visit(Visited(v, refs[..|refs| - 1]), refs[|refs| - 1])
  }

  // What fn sees on a separate thread that started with view w, for a caller with view v.
  function Separated(w: View, v: View, mnt: Ino, others: seq<Ref>): View {
    Visited(w.Attached(Ref(Mnt, mnt)), others + Pickups(v, others))
  }

  lemma {:induction false} LastConcat(a: seq<Ref>, b: seq<Ref>, t: NsType, d: Ino)
    ensures Last(a + b, t, d) == Last(b, t, Last(a, t, d))
  {
    if b == [] {
      assert a + b == a;
    } else {
      assert (a + b)[..|a + b| - 1] == a + b[..|b| - 1];
      LastConcat(a, b[..|b| - 1], t, d);
    }
  }

  lemma {:induction false} LastOfOwned(v: View, ts: seq<NsType>, t: NsType, d: Ino)
    ensures Last(Owned(v, ts), t, d) == if t in ts then v.Own(t) else d
  {
    if ts != [] {
      assert Owned(v, ts)[..|ts| - 1] == Owned(v, ts[..|ts| - 1]);
      assert ts == ts[..|ts| - 1] + [ts[|ts| - 1]];
      LastOfOwned(v, ts[..|ts| - 1], t, d);
    }
  }

  lemma {:induction false} LastNonMnt(refs: seq<Ref>, t: NsType, d: Ino)
    requires t != Mnt
    ensures Last(NonMnt(refs), t, d) == Last(refs, t, d)
  {
    if refs != [] {
      var init, r := refs[..|refs| - 1], refs[|refs| - 1];
      LastNonMnt(init, t, d);
      if r.typ != Mnt {
        assert NonMnt(refs)[..|NonMnt(refs)| - 1] == NonMnt(init);
      } else {
        assert NonMnt(refs) == NonMnt(init);
      }
    }
  }

  lemma {:induction false} TypesNonMnt(refs: seq<Ref>, t: NsType)
    ensures t in Types(NonMnt(refs)) <==> t in Types(refs) && t != Mnt
  {
    if refs != [] {
      var init, r := refs[..|refs| - 1], refs[|refs| - 1];
      TypesNonMnt(init, t);
      assert Types(refs) == Types(init) + [r.typ];
      if r.typ != Mnt {
        assert Types(NonMnt(refs)) == Types(NonMnt(init)) + [r.typ];
      } else {
        assert NonMnt(refs) == NonMnt(init);
      }
    }
  }

  lemma {:induction false} LastOfPresent(refs: seq<Ref>, t: NsType, d: Ino, e: Ino)
    requires t in Types(refs)
    ensures Last(refs, t, d) == Last(refs, t, e)
  {
    if refs[|refs| - 1].typ != t {
      assert Types(refs) == Types(refs[..|refs| - 1]) + [refs[|refs| - 1].typ];
      LastOfPresent(refs[..|refs| - 1], t, d, e);
    }
  }

  lemma {:induction false} VisitedIsLastWins(v: View, refs: seq<Ref>)
    ensures forall t | t != Pid :: Visited(v, refs).Own(t) == Last(refs, t, v.Own(t))
    ensures Visited(v, refs).pid == v.pid
    ensures v.Settled() ==> Visited(v, refs).timeForChildren == Visited(v, refs).time
  {
    if refs != [] {
      VisitedIsLastWins(v, refs[..|refs| - 1]);
    }
  }

  // The separate thread's own slot of type t: referenced, picked up, or as it was.
  lemma SeparatedSlot(w: View, v: View, mnt: Ino, others: seq<Ref>, t: NsType)
    requires w.pid == v.pid && t != Mnt
    ensures t != Pid && t in Types(others) ==>
      Separated(w, v, mnt, others).Own(t) == Last(others, t, v.Own(t))
    ensures t !in Types(others) && t in PICKUP ==> Separated(w, v, mnt, others).Own(t) == v.Own(t)
    ensures t !in Types(others) && t !in PICKUP ==> Separated(w, v, mnt, others).Own(t) == w.Own(t)
    ensures Separated(w, v, mnt, others).pid == w.pid
  {
    var w0 := w.Attached(Ref(Mnt, mnt));
    var picked := Pickups(v, others);
    VisitedIsLastWins(w0, others + picked);
    LastConcat(others, picked, t, w0.Own(t));
    LastOfOwned(v, Remaining(PICKUP, Types(others)), t, Last(others, t, w0.Own(t)));
    if t in Types(others) {
      LastOfPresent(others, t, w0.Own(t), v.Own(t));
    } else {
      LastWithout(others, t, w0.Own(t));
    }
  }

  lemma SeparatedMnt(w: View, v: View, mnt: Ino, others: seq<Ref>)
    requires Mnt !in Types(others)
    ensures Separated(w, v, mnt, others).mnt == mnt
  {
    var w0 := w.Attached(Ref(Mnt, mnt));
    var picked := Pickups(v, others);
    VisitedIsLastWins(w0, others + picked);
    assert Visited(w0, others + picked).Own(Mnt) == Last(others + picked, Mnt, w0.Own(Mnt));
    LastConcat(others, picked, Mnt, mnt);
    LastOfOwned(v, Remaining(PICKUP, Types(others)), Mnt, Last(others, Mnt, mnt));
    LastWithout(others, Mnt, mnt);
  }

  /** Both routes refine one specification: on a separate thread, whatever state it started in, fn
      sees in each of its own slots what the left fold of all references over the caller's view has
      there: the last reference of a type wins and all other types are the caller's. */
  lemma SeparateRefinesFold(w: View, v: View, refs: seq<Ref>, mnt: Ino, t: NsType)
    requires w.pid == v.pid && w.user == v.user
    requires User !in Types(refs) && Mnt in Types(refs) && mnt == Last(refs, Mnt, mnt)
    ensures Separated(w, v, mnt, NonMnt(refs)).Own(t) == Fold(v, refs).Own(t)
  {
    FoldIsLastWins(v, refs);
    if t == Mnt {
      TypesNonMnt(refs, Mnt);
      SeparatedMnt(w, v, mnt, NonMnt(refs));
      LastOfPresent(refs, Mnt, v.mnt, mnt);
    } else {
      SeparatedSlot(w, v, mnt, NonMnt(refs), t);
      TypesNonMnt(refs, t);
      LastNonMnt(refs, t, v.Own(t));
      if t !in Types(refs) {
        LastWithout(refs, t, v.Own(t));
        assert t in PICKUP || t == User;
      }
    }
  }

  lemma {:induction false} NonMntOfNone(refs: seq<Ref>)
    requires forall i | 0 <= i < |refs| :: refs[i].typ != Mnt
    ensures NonMnt(refs) == refs
  {
    if refs != [] {
      NonMntOfNone(refs[..|refs| - 1]);
      assert refs == refs[..|refs| - 1] + [refs[|refs| - 1]];
    }
  }

  // The last pid reference other than the thread's own pid namespace.
  function LastForeign(refs: seq<Ref>, home: Ino, d: Ino): Ino {
    if refs == [] then d
    else if refs[|refs| - 1].typ == Pid && refs[|refs| - 1].ino != home then refs[|refs| - 1].ino
    else LastForeign(refs[..|refs| - 1], home, d)
  }

  lemma {:induction false} VisitedPidForChildren(v: View, refs: seq<Ref>)
    ensures Visited(v, refs).pidForChildren == LastForeign(refs, v.pid, v.pidForChildren)
  {
    if refs != [] {
      VisitedPidForChildren(v, refs[..|refs| - 1]);
      VisitedIsLastWins(v, refs[..|refs| - 1]);
    }
  }

  lemma {:induction false} LastForeignConcat(a: seq<Ref>, b: seq<Ref>, home: Ino, d: Ino)
    requires forall r | r in b && r.typ == Pid :: r.ino == home
    ensures LastForeign(a + b, home, d) == LastForeign(a, home, d)
  {
    if b == [] {
      assert a + b == a;
    } else {
      assert (a + b)[..|a + b| - 1] == a + b[..|b| - 1];
      assert b[|b| - 1] in b;
      LastForeignConcat(a, b[..|b| - 1], home, d);
    }
  }

  lemma {:induction false} LastForeignNonMnt(refs: seq<Ref>, home: Ino, d: Ino)
    ensures LastForeign(NonMnt(refs), home, d) == LastForeign(refs, home, d)
  {
    if refs != [] {
      var init, r := refs[..|refs| - 1], refs[|refs| - 1];
      LastForeignNonMnt(init, home, d);
      if r.typ != Mnt {
        assert NonMnt(refs)[..|NonMnt(refs)| - 1] == NonMnt(init);
      } else {
        assert NonMnt(refs) == NonMnt(init);
      }
    }
  }

  // No pid reference in refs leads away from home, unless the last one does.
  predicate PidOrderHarmless(refs: seq<Ref>, home: Ino) {
    Last(refs, Pid, home) != home || forall i | 0 <= i < |refs| :: refs[i].typ == Pid ==> refs[i].ino == home
  }

  lemma {:induction false} LastForeignIsLast(refs: seq<Ref>, home: Ino)
    ensures LastForeign(refs, home, home) == Last(refs, Pid, home) <==> PidOrderHarmless(refs, home)
    ensures LastForeign(refs, home, home) == home <==>
            forall i | 0 <= i < |refs| :: refs[i].typ == Pid ==> refs[i].ino == home
  {
    if refs != [] {
      LastForeignIsLast(refs[..|refs| - 1], home);
    }
  }

  /** The slots that only children get are not always the same on both routes. For a separate thread
      in its original state fn sees exactly the caller's fold if and only if no home pid reference
      follows a foreign one and the caller's children slots are referenced or settled. */
  lemma RoutesAgreeExactly(w: View, v: View, refs: seq<Ref>, mnt: Ino)
    requires w.pid == v.pid && w.user == v.user && w.Settled()
    requires User !in Types(refs) && Mnt in Types(refs) && mnt == Last(refs, Mnt, mnt)
    ensures Separated(w, v, mnt, NonMnt(refs)) == Fold(v, refs) <==>
            && (if Pid in Types(refs) then PidOrderHarmless(refs, v.pid) else v.pidForChildren == v.pid)
            && (Time in Types(refs) || v.timeForChildren == v.time)
  {
    var others := NonMnt(refs);
    var w0 := w.Attached(Ref(Mnt, mnt));
    var sep, fold := Separated(w, v, mnt, others), Fold(v, refs);
    FoldIsLastWins(v, refs);
    forall t ensures sep.Own(t) == fold.Own(t) {
      SeparateRefinesFold(w, v, refs, mnt, t);
    }
    VisitedIsLastWins(w0, others + Pickups(v, others));
    VisitedPidForChildren(w0, others + Pickups(v, others));
    LastForeignConcat(others, Pickups(v, others), v.pid, v.pid);
    LastForeignNonMnt(refs, v.pid, v.pid);
    assert sep.pidForChildren == LastForeign(refs, v.pid, v.pid);
    LastForeignIsLast(refs, v.pid);
    if Pid in Types(refs) {
      LastOfPresent(refs, Pid, v.pid, v.pidForChildren);
    } else {
      LastWithout(refs, Pid, v.pidForChildren);
      LastWithout(refs, Pid, v.pid);
      forall i | 0 <= i < |refs| ensures refs[i].typ != Pid { assert Types(refs)[i] == refs[i].typ; }
    }
    assert sep.timeForChildren == sep.Own(Time) == fold.Own(Time);
    if Time in Types(refs) {
      LastOfPresent(refs, Time, v.time, v.timeForChildren);
    } else {
      LastWithout(refs, Time, v.timeForChildren);
      LastWithout(refs, Time, v.time);
    }
    if sep.pidForChildren == fold.pidForChildren && sep.timeForChildren == fold.timeForChildren {
      SameSlots(sep, fold);
    }
  }
}
