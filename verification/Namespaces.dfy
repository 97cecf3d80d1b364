/** Namespace types, one thread's view of its namespaces, and what switching does to that view. */
module Namespaces {

  datatype NsType = Cgroup | Ipc | Mnt | Net | Pid | Time | User | Uts

  type Ino = nat

  // What an open namespace descriptor refers to.
  datatype Ref = Ref(typ: NsType, ino: Ino)

  // One slot per file below /proc/thread-self/ns, so pid and time have a second slot
  // that only new children get.
  datatype View = View(cgroup: Ino, ipc: Ino, mnt: Ino, net: Ino,
                       pid: Ino, pidForChildren: Ino,
                       time: Ino, timeForChildren: Ino,
                       user: Ino, uts: Ino)
  {
    // The namespace that opening /proc/thread-self/ns/<t> names.
    function Own(t: NsType): Ino {
      match t
      case Cgroup => cgroup
      case Ipc => ipc
      case Mnt => mnt
      case Net => net
      case Pid => pid
      case Time => time
      case User => user
      case Uts => uts
    }

    // unshare(2): a new pid or time namespace is for children only.
    function Unshared(t: NsType, ino: Ino): View {
      match t
      case Cgroup => this.(cgroup := ino)
      case Ipc => this.(ipc := ino)
      case Mnt => this.(mnt := ino)
      case Net => this.(net := ino)
      case Pid => this.(pidForChildren := ino)
      case Time => this.(timeForChildren := ino)
      case User => this.(user := ino)
      case Uts => this.(uts := ino)
    }

    // setns(2): like unshare(2), except that time moves the thread itself as well.
    function Attached(r: Ref): View {
      if r.typ == Time then this.(time := r.ino, timeForChildren := r.ino)
      else Unshared(r.typ, r.ino)
    }

    predicate Settled() {
      pidForChildren == pid && timeForChildren == time
    }
  }

  function Types(refs: seq<Ref>): (ts: seq<NsType>)
    ensures |ts| == |refs| && forall i :: 0 <= i < |refs| ==> ts[i] == refs[i].typ
  {
    seq(|refs|, i requires 0 <= i < |refs| => refs[i].typ)
  }

  // Attach to every reference in turn.
  function Fold(v: View, refs: seq<Ref>): View {
    if refs == [] then v
    else Fold(v, refs[..|refs| - 1]).Attached(refs[|refs| - 1])
  }

  // The namespaces saved before each of these switches.
  function Saves(v: View, refs: seq<Ref>): (s: seq<Ref>)
    ensures Types(s) == Types(refs)
  {
    if refs == [] then []
    else
      var init, typ := refs[..|refs| - 1], refs[|refs| - 1].typ;
      var s := Saves(v, init) + [Ref(typ, Fold(v, init).Own(typ))];
      assert Types(refs) == Types(init) + [typ];
      s
  }

  // Attach to every saved namespace, the most recently saved one first.
  function Undone(v: View, saves: seq<Ref>): View
    decreases saves
  {
    if saves == [] then v
    else Undone(v.Attached(saves[|saves| - 1]), saves[..|saves| - 1])
  }

  // The last (first) reference of type t, or d when there is none.
  function Last(refs: seq<Ref>, t: NsType, d: Ino): Ino {
    if refs == [] then d
    else if refs[|refs| - 1].typ == t then refs[|refs| - 1].ino
    else Last(refs[..|refs| - 1], t, d)
  }

  function First(refs: seq<Ref>, t: NsType, d: Ino): Ino {
    if refs == [] then d
    else First(refs[..|refs| - 1], t, if refs[|refs| - 1].typ == t then refs[|refs| - 1].ino else d)
  }

  // w is v, but for children slots that may have fallen back to the thread's own namespace.
  predicate Back(v: View, w: View) {
    && w == v.(pidForChildren := w.pidForChildren, timeForChildren := w.timeForChildren)
    && (w.pidForChildren == v.pidForChildren || w.pidForChildren == v.pid)
    && (w.timeForChildren == v.timeForChildren || w.timeForChildren == v.time)
  }

  lemma BackOfSettled(v: View, w: View)
    requires Back(v, w) && v.Settled()
    ensures w == v
  {
  }

  lemma BackTransitive(u: View, v: View, w: View)
    requires Back(u, v) && Back(v, w)
    ensures Back(u, w)
  {
  }

  // Folding is "the last reference of a type wins, all others are inherited".
  lemma {:induction false} FoldIsLastWins(v: View, refs: seq<Ref>)
    ensures forall t | t != Pid :: Fold(v, refs).Own(t) == Last(refs, t, v.Own(t))
    ensures Fold(v, refs).pid == v.pid
    ensures Fold(v, refs).pidForChildren == Last(refs, Pid, v.pidForChildren)
    ensures Fold(v, refs).timeForChildren == Last(refs, Time, v.timeForChildren)
  {
    if refs != [] {
      FoldIsLastWins(v, refs[..|refs| - 1]);
    }
  }

  // Undoing backwards makes the namespace saved first win.
  lemma {:induction false} UndoneIsFirstWins(v: View, saves: seq<Ref>)
    ensures forall t | t != Pid :: Undone(v, saves).Own(t) == First(saves, t, v.Own(t))
    ensures Undone(v, saves).pid == v.pid
    ensures Undone(v, saves).pidForChildren == First(saves, Pid, v.pidForChildren)
    ensures Undone(v, saves).timeForChildren == First(saves, Time, v.timeForChildren)
    decreases saves
  {
    if saves != [] {
      UndoneIsFirstWins(v.Attached(saves[|saves| - 1]), saves[..|saves| - 1]);
    }
  }

  lemma {:induction false} LastWithout(refs: seq<Ref>, t: NsType, d: Ino)
    requires t !in Types(refs)
    ensures Last(refs, t, d) == d
  {
    if refs != [] {
      assert refs[|refs| - 1].typ == Types(refs)[|refs| - 1];
      assert Types(refs[..|refs| - 1]) == Types(refs)[..|refs| - 1];
      LastWithout(refs[..|refs| - 1], t, d);
    }
  }

  // The first save of a type is the caller's own namespace of that type.
  lemma {:induction false} FirstSaveIsOwn(v: View, refs: seq<Ref>, t: NsType, d: Ino)
    ensures First(Saves(v, refs), t, d) == if t in Types(refs) then v.Own(t) else d
  {
    if refs != [] {
      var init, r := refs[..|refs| - 1], refs[|refs| - 1];
      var s := Saves(v, refs);
      assert s[..|s| - 1] == Saves(v, init);
      assert Types(refs) == Types(init) + [r.typ];
      FirstSaveIsOwn(v, init, t, if r.typ == t then Fold(v, init).Own(t) else d);
      if t !in Types(init) && r.typ == t {
        FoldIsLastWins(v, init);
        LastWithout(init, t, v.Own(t));
      }
    }
  }

  // A type that no reference mentions keeps its slots.
  lemma FoldInherits(v: View, refs: seq<Ref>, t: NsType)
    requires t !in Types(refs)
    ensures Fold(v, refs).Own(t) == v.Own(t)
    ensures t == Pid ==> Fold(v, refs).pidForChildren == v.pidForChildren
    ensures t == Time ==> Fold(v, refs).timeForChildren == v.timeForChildren
  {
    FoldIsLastWins(v, refs);
    LastWithout(refs, t, v.Own(t));
    LastWithout(refs, t, v.pidForChildren);
    LastWithout(refs, t, v.timeForChildren);
  }

  lemma SameSlots(v: View, w: View)
    requires forall t :: v.Own(t) == w.Own(t)
    requires v.pidForChildren == w.pidForChildren && v.timeForChildren == w.timeForChildren
    ensures v == w
  {
    assert v.Own(Cgroup) == w.Own(Cgroup) && v.Own(Ipc) == w.Own(Ipc) && v.Own(Mnt) == w.Own(Mnt);
    assert v.Own(Net) == w.Own(Net) && v.Own(Pid) == w.Own(Pid) && v.Own(Time) == w.Own(Time);
    assert v.Own(User) == w.Own(User) && v.Own(Uts) == w.Own(Uts);
  }

  // What undoing the saves of refs makes of any view w, slot by slot.
  lemma UndoneSlot(v: View, refs: seq<Ref>, w: View, t: NsType)
    ensures t != Pid ==> Undone(w, Saves(v, refs)).Own(t) == if t in Types(refs) then v.Own(t) else w.Own(t)
    ensures Undone(w, Saves(v, refs)).pid == w.pid
    ensures t == Pid ==>
      Undone(w, Saves(v, refs)).pidForChildren == if Pid in Types(refs) then v.pid else w.pidForChildren
    ensures t == Time ==>
      Undone(w, Saves(v, refs)).timeForChildren == if Time in Types(refs) then v.time else w.timeForChildren
  {
    UndoneIsFirstWins(w, Saves(v, refs));
    FirstSaveIsOwn(v, refs, t, w.Own(t));
    FirstSaveIsOwn(v, refs, t, w.pidForChildren);
    FirstSaveIsOwn(v, refs, t, w.timeForChildren);
  }

  // The view that a complete backwards restore of these types leaves.
  function Restored(v: View, ts: seq<NsType>): View {
    v.(pidForChildren := if Pid in ts then v.pid else v.pidForChildren,
       timeForChildren := if Time in ts then v.time else v.timeForChildren)
  }

  // Undo also covers a last switch that failed after its namespace had been saved.
  lemma UndoneFromPrefix(v: View, refs: seq<Ref>, n: nat)
    requires n == |refs| || n + 1 == |refs|
    ensures Undone(Fold(v, refs[..n]), Saves(v, refs)) == Restored(v, Types(refs))
  {
    var w := Fold(v, refs[..n]);
    var u := Undone(w, Saves(v, refs));
    FoldIsLastWins(v, refs[..n]);
    assert forall i :: 0 <= i < n ==> Types(refs[..n])[i] == Types(refs)[i];
    forall t ensures u.Own(t) == v.Own(t) {
      UndoneSlot(v, refs, w, t);
      if t !in Types(refs) { FoldInherits(v, refs[..n], t); }
    }
    UndoneSlot(v, refs, w, Pid);
    UndoneSlot(v, refs, w, Time);
    if Pid !in Types(refs) { FoldInherits(v, refs[..n], Pid); }
    if Time !in Types(refs) { FoldInherits(v, refs[..n], Time); }
    forall t ensures u.Own(t) == Restored(v, Types(refs)).Own(t) {
      assert u.Own(t) == v.Own(t);
    }
    SameSlots(u, Restored(v, Types(refs)));
  }

  /** Restoring backwards brings every slot back, for any list with any repetitions and from any
      prefix at which a switch failed, except that the children slot of a visited type falls back to
      the thread's own namespace. So the caller's view comes back exactly if and only if the visited
      pid and time slots were settled before. */
  lemma BackwardRestore(v: View, refs: seq<Ref>, n: nat)
    requires n == |refs| || n + 1 == |refs|
    ensures var u := Undone(Fold(v, refs[..n]), Saves(v, refs));
            && Back(v, u)
            && (u == v <==> && (Pid in Types(refs) ==> v.pidForChildren == v.pid)
                            && (Time in Types(refs) ==> v.timeForChildren == v.time))
  {
    UndoneFromPrefix(v, refs, n);
  }

  lemma {:induction false} UndoneKeepsBack(v: View, w: View, saves: seq<Ref>)
    requires Back(v, w)
    ensures Back(Undone(v, saves), Undone(w, saves))
    decreases saves
  {
    if saves != [] {
      var r := saves[|saves| - 1];
      UndoneKeepsBack(v.Attached(r), w.Attached(r), saves[..|saves| - 1]);
    }
  }
}
