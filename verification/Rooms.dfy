/** Spacemaker.Room: new namespaces of all requested types, or none. */
module Rooms {
  import opened Wrappers
  import opened Namespaces
  import opened Kernel
  import opened Accounts
  import opened Flags
  import opened Api
  import opened Reports

  // The part of newNamespace after the current namespace has been opened. Opening the thread's time
  // namespace after unsharing it finds the old one, as only children are in the new one.
  method CreateAndOpen(k: Task, th: Thread, typ: NsType) returns (fd: int)
    requires k.Valid() && th.locks > 0 && typ != User && typ != Pid
    modifies k`fds, k`faults, k`nextIno, k`secluded, th`view, th`fsPrivate
    ensures k.Valid() && k.nextIno >= old(k.nextIno) && k.faults >= old(k.faults) && old(k.secluded) <= k.secluded
    ensures fd == 0 ==> k.fds == old(k.fds) && k.faults > old(k.faults)
    ensures fd != 0 ==> fd > 0 && fd !in old(k.fds) && old(k.nextIno) < k.nextIno
    ensures fd != 0 && typ == Mnt ==> old(k.nextIno) in k.secluded && th.fsPrivate
    ensures fd != 0 ==> th.view == old(th.view).Unshared(typ, old(k.nextIno))
    ensures fd != 0 ==>
      k.fds == old(k.fds)[fd := Namespace(Ref(typ, if typ == Time then old(th.view).time else old(k.nextIno)))]
  {
    var ok := true;
    if typ == Mnt {
      ok := k.UnshareFs(th);
      if !ok { return 0; }
    }
    ok := k.Unshare(th, typ);
    if !ok { return 0; }
    if typ == Mnt {
      ok := k.RemountPrivate(th);
      if !ok { return 0; }
    }
    fd := k.OpenSelf(th, typ);
    if fd < 0 { return 0; }
  }

  /** newNamespace, on a goroutine and thread of its own, which stays locked, although it is back where it
      was unless that failed. */
  method NewNamespace(k: Task, th: Thread, typ: NsType) returns (fd: int, err: string)
    requires k.Valid() && typ != User && typ != Pid
    modifies k`fds, k`faults, k`nextIno, k`secluded, th
    ensures k.Valid() && th.locks == old(th.locks) + 1 && th.releases == old(th.releases)
    ensures k.nextIno >= old(k.nextIno) && k.faults >= old(k.faults) && old(k.secluded) <= k.secluded
    ensures fd == 0 ==> k.fds == old(k.fds) && k.faults > old(k.faults)
    ensures fd != 0 ==> fd > 0 && fd !in old(k.fds) && old(k.nextIno) < k.nextIno
    ensures fd != 0 && typ == Mnt ==> old(k.nextIno) in k.secluded && th.fsPrivate
    ensures fd != 0 && k.faults == old(k.faults) ==> Back(old(th.view), th.view)
    ensures fd != 0 ==>
      k.fds == old(k.fds)[fd := Namespace(Ref(typ, if typ == Time then old(th.view).time else old(k.nextIno)))]
  {
    fd := 0;
    err := *;
    th.Lock();
    var callers := k.OpenSelf(th, typ);
    if callers < 0 { return; }
    ghost var f := k.fds;
    fd := CreateAndOpen(k, th, typ);
    var _ := k.Setns(th, callers, None);  // deferred, like the close
    k.Close(callers);
    assert f - {callers} == old(k.fds);
  }

  // A process at one moment.
  datatype Books = Books(fds: Fds, ino: Ino, secluded: set<Ino>, children: seq<Birth>, faults: nat)

  ghost function At(k: Task): Books
    reads k
  {
    Books(k.fds, k.nextIno, k.secluded, k.children, k.faults)
  }

  // What the namespace in a field of this type must be: the old time namespace, or one that was made
  // since ino0 was the next one, and a mount namespace with private mounts only.
  predicate IsNew(t: NsType, ino: Ino, home: View, ino0: Ino, b: Books) {
    if t == Time then ino == home.time else ino0 <= ino < b.ino && (t == Mnt ==> ino in b.secluded)
  }

  // The requested types that have no descriptor.
  function Missing(wanted: set<NsType>, fields: seq<int>): seq<NsType>
    requires |fields| <= |ROOM_TYPES|
  {
    if fields == [] then []
    else
      var n := |fields| - 1;
      Missing(wanted, fields[..n]) + if ROOM_TYPES[n] in wanted && fields[n] == 0 then [ROOM_TYPES[n]] else []
  }

  // The first |fields| types have been dealt with, from b0 to b.
  predicate Progress(wanted: set<NsType>, fields: seq<int>, failures: seq<Failure>, home: View, b0: Books, b: Books) {
    && |fields| <= |ROOM_TYPES|
    && Opened(b0.fds, b.fds, Borrowed(fields))
    && TypesOf(failures) == Missing(wanted, fields)
    && (forall i | 0 <= i < |fields| :: Filled(wanted, ROOM_TYPES[i], fields[i], home, b0.ino, b))
    && b0.ino <= b.ino && |failures| <= b.faults - b0.faults
  }

  // A field of type t is 0, or has a descriptor for a namespace that was requested and made.
  predicate Filled(wanted: set<NsType>, t: NsType, fd: int, home: View, ino0: Ino, b: Books) {
    fd == 0 || (fd > 0 && t in wanted && fd in b.fds && b.fds[fd].Namespace?
                && b.fds[fd].ref.typ == t && IsNew(t, b.fds[fd].ref.ino, home, ino0, b))
  }

  // b' is b later, with no descriptor of b changed.
  predicate Later(b: Books, b': Books) {
    b.ino <= b'.ino && b.faults <= b'.faults && b.secluded <= b'.secluded && Extends(b.fds, b'.fds)
  }

  lemma FilledLater(wanted: set<NsType>, fields: seq<int>, home: View, ino0: Ino, b: Books, b': Books)
    requires |fields| <= |ROOM_TYPES| && Later(b, b')
    requires forall i | 0 <= i < |fields| :: Filled(wanted, ROOM_TYPES[i], fields[i], home, ino0, b)
    ensures forall i | 0 <= i < |fields| :: Filled(wanted, ROOM_TYPES[i], fields[i], home, ino0, b')
  {
    forall i | 0 <= i < |fields| ensures Filled(wanted, ROOM_TYPES[i], fields[i], home, ino0, b') {
      assert Filled(wanted, ROOM_TYPES[i], fields[i], home, ino0, b);
      assert fields[i] in b.fds ==> fields[i] in b.fds.Keys;
    }
  }

  lemma ProgressNew(wanted: set<NsType>, fields: seq<int>, failures: seq<Failure>, home: View,
                    b0: Books, b: Books, b': Books, fd: int, ino: Ino)
    requires Progress(wanted, fields, failures, home, b0, b) && |fields| < |ROOM_TYPES|
    requires fd > 0 && fd !in b.fds && ROOM_TYPES[|fields|] in wanted
    requires IsNew(ROOM_TYPES[|fields|], ino, home, b0.ino, b')
    requires Later(b, b') && b'.fds == b.fds[fd := Namespace(Ref(ROOM_TYPES[|fields|], ino))]
    ensures Progress(wanted, fields + [fd], failures, home, b0, b')
  {
    var fields', t := fields + [fd], ROOM_TYPES[|fields|];
    assert fields'[..|fields|] == fields;
    OpenedAnother(b0.fds, b.fds, Borrowed(fields), fd, Namespace(Ref(t, ino)));
    FilledLater(wanted, fields, home, b0.ino, b, b');
    forall i | 0 <= i < |fields'| ensures Filled(wanted, ROOM_TYPES[i], fields'[i], home, b0.ino, b') {
      if i < |fields| {
        assert Filled(wanted, ROOM_TYPES[i], fields[i], home, b0.ino, b');
      }
    }
    assert Missing(wanted, fields') == Missing(wanted, fields) + [];
  }

  lemma ProgressNone(wanted: set<NsType>, fields: seq<int>, failures: seq<Failure>, home: View,
                     b0: Books, b: Books, b': Books, f: Failure)
    requires Progress(wanted, fields, failures, home, b0, b) && |fields| < |ROOM_TYPES|
    requires f.typ == ROOM_TYPES[|fields|] && Later(b, b') && b'.fds == b.fds
    requires f.typ in wanted ==> b.faults < b'.faults
    ensures Progress(wanted, fields + [0], if f.typ in wanted then failures + [f] else failures, home, b0, b')
  {
    var fields' := fields + [0];
    assert fields'[..|fields|] == fields;
    assert (failures + [f])[..|failures|] == failures;
    assert Borrowed(fields') == Borrowed(fields) + [];
    FilledLater(wanted, fields, home, b0.ino, b, b');
    forall i | 0 <= i < |fields'| ensures Filled(wanted, ROOM_TYPES[i], fields'[i], home, b0.ino, b') {
      if i < |fields| {
        assert Filled(wanted, ROOM_TYPES[i], fields[i], home, b0.ino, b');
      }
    }
  }

  // The unshare closure: *fd becomes the new descriptor, or errmsg grows. The goroutine that it takes
  // leaves its thread locked. The ghosts say how far Room has come.
  method UnshareOne(k: Task, home: View, spaces: Mask, typ: NsType, errmsg: string,
                    ghost fields: seq<int>, ghost failures: seq<Failure>, ghost b0: Books)
    returns (fd: int, errmsg': string, ghost failures': seq<Failure>, ghost th: Thread?)
    requires k.Valid() && |fields| < |ROOM_TYPES| && typ == ROOM_TYPES[|fields|]
    requires Progress(Wanted(spaces), fields, failures, home, b0, At(k)) && errmsg == Report(failures)
    modifies k`fds, k`faults, k`nextIno, k`secluded
    ensures k.Valid() && (th == null <==> !Requests(spaces, typ))
    ensures th != null ==> fresh(th) && th.locks > 0 && th.releases == []
    ensures Progress(Wanted(spaces), fields + [fd], failures', home, b0, At(k)) && errmsg' == Report(failures')
  {
    hide Progress, Wanted, Requests, Report, NameOf, View.Own;
    failures' := failures;
    ghost var b, wanted := At(k), Wanted(spaces);
    ProgressMoves(wanted, fields, failures, home, b0, b);
    WantedMeans(spaces, typ);
    if !Requests(spaces, typ) {
      ProgressNone(wanted, fields, failures, home, b0, b, b, Failure(typ, ""));
      return 0, errmsg, failures, null;
    }
    ghost var ino := if typ == Time then home.time else k.nextIno;
    var thread := new Thread(home);
    var err;
    fd, err := NewNamespace(k, thread, typ);
    th := thread;
    if fd != 0 {
      ProgressNew(wanted, fields, failures, home, b0, b, At(k), fd, ino);
      return fd, errmsg, failures, th;
    }
    ProgressNone(wanted, fields, failures, home, b0, b, At(k), Failure(typ, err));
    failures' := failures + [Failure(typ, err)];
    ReportMore(failures, Failure(typ, err));
    errmsg' := (if errmsg != "" then errmsg + "," else errmsg) + NameOf(typ) + ":" + err;
  }

  lemma ProgressMoves(wanted: set<NsType>, fields: seq<int>, failures: seq<Failure>, home: View, b0: Books, b: Books)
    requires Progress(wanted, fields, failures, home, b0, b)
    ensures b0.ino <= b.ino
  {
  }

  lemma WantedMeans(spaces: Mask, t: NsType)
    ensures t in Wanted(spaces) <==> Requests(spaces, t)
  {
  }

  // Three of the six calls of the closure.
  method UnshareThree(k: Task, home: View, spaces: Mask, a: NsType, b: NsType, c: NsType, errmsg: string,
                      ghost fields: seq<int>, ghost failures: seq<Failure>, ghost b0: Books)
    returns (x: int, y: int, z: int, errmsg': string, ghost failures': seq<Failure>)
    requires k.Valid() && |fields| + 2 < |ROOM_TYPES|
    requires a == ROOM_TYPES[|fields|] && b == ROOM_TYPES[|fields| + 1] && c == ROOM_TYPES[|fields| + 2]
    requires Progress(Wanted(spaces), fields, failures, home, b0, At(k)) && errmsg == Report(failures)
    modifies k`fds, k`faults, k`nextIno, k`secluded
    ensures k.Valid() && errmsg' == Report(failures')
    ensures Progress(Wanted(spaces), fields + [x] + [y] + [z], failures', home, b0, At(k))
  {
    hide Progress, Wanted, Report;
    ghost var th;
    x, errmsg', failures', th := UnshareOne(k, home, spaces, a, errmsg, fields, failures, b0);
    y, errmsg', failures', th := UnshareOne(k, home, spaces, b, errmsg', fields + [x], failures', b0);
    z, errmsg', failures', th := UnshareOne(k, home, spaces, c, errmsg', fields + [x] + [y], failures', b0);
  }

  method UnshareEach(k: Task, home: View, spaces: Mask)
    returns (c: int, i: int, m: int, n: int, t: int, u: int, errmsg: string, ghost failures: seq<Failure>)
    requires k.Valid()
    modifies k`fds, k`faults, k`nextIno, k`secluded
    ensures k.Valid() && errmsg == Report(failures)
    ensures Progress(Wanted(spaces), [] + [c] + [i] + [m] + [n] + [t] + [u], failures, home, old(At(k)), At(k))
  {
    hide Progress, Wanted, Report;
    ghost var b0 := At(k);
    NoProgress(Wanted(spaces), home, b0);
    c, i, m, errmsg, failures := UnshareThree(k, home, spaces, Cgroup, Ipc, Mnt, "", [], [], b0);
    n, t, u, errmsg, failures :=
      UnshareThree(k, home, spaces, Net, Time, Uts, errmsg, [] + [c] + [i] + [m], failures, b0);
  }

  lemma NoProgress(wanted: set<NsType>, home: View, b: Books)
    ensures Progress(wanted, [], [], home, b, b) && Report([]) == ""
  {
    assert Elems(Borrowed([])) == {};
  }

  method CreateAll(k: Task, home: View, spaces: Mask, resp: RoomsResponse)
    returns (errmsg: string, ghost failures: seq<Failure>)
    requires k.Valid()
    modifies k`fds, k`faults, k`nextIno, k`secluded, resp
    ensures k.Valid() && errmsg == Report(failures)
    ensures Progress(Wanted(spaces), resp.Fields(), failures, home, old(At(k)), At(k))
  {
    hide Progress, Wanted, Report;
    var c, i, m, n, t, u;
    c, i, m, n, t, u, errmsg, failures := UnshareEach(k, home, spaces);
    resp.cgroup, resp.ipc, resp.mnt, resp.net, resp.time, resp.uts := c, i, m, n, t, u;
    ThreeAndThree(c, i, m, n, t, u);
    assert resp.Fields() == [c, i, m, n, t, u];
  }

  lemma ThreeAndThree(c: int, i: int, m: int, n: int, t: int, u: int)
    ensures [] + [c] + [i] + [m] + [n] + [t] + [u] == [c, i, m, n, t, u]
  {
  }

  lemma {:induction false} MissingNone(wanted: set<NsType>, fields: seq<int>)
    requires |fields| <= |ROOM_TYPES|
    ensures Missing(wanted, fields) == [] <==>
            forall i | 0 <= i < |fields| :: ROOM_TYPES[i] in wanted ==> fields[i] != 0
  {
    if fields != [] {
      MissingNone(wanted, fields[..|fields| - 1]);
    }
  }

  // Types in the order that Room creates them, all of them requested.
  predicate InOrder(wanted: set<NsType>, ts: seq<NsType>) {
    && (forall i | 0 <= i < |ts| :: ts[i] in wanted && ts[i] in ROOM_TYPES)
    && (forall i, j | 0 <= i < j < |ts| :: IndexOf(ROOM_TYPES, Some(ts[i])) < IndexOf(ROOM_TYPES, Some(ts[j])))
  }

  lemma {:induction false} MissingInOrder(wanted: set<NsType>, fields: seq<int>)
    requires |fields| <= |ROOM_TYPES|
    ensures InOrder(wanted, Missing(wanted, fields))
    ensures forall t | t in Missing(wanted, fields) :: IndexOf(ROOM_TYPES, Some(t)) < |fields|
  {
    if fields != [] {
      var n := |fields| - 1;
      MissingInOrder(wanted, fields[..n]);
      assert ROOM_TYPES[n] in ROOM_TYPES && IndexOf(ROOM_TYPES, Some(ROOM_TYPES[n])) == n by {
        RoomIndex(Some(ROOM_TYPES[n]));
      }
    }
  }

  method CloseIfOpen(k: Task, fd: int)
    requires k.Valid()
    modifies k`fds
    ensures k.Valid() && k.fds == old(k.fds) - Elems(Borrowed([fd]))
  {
    assert Borrowed([fd]) == Borrowed([]) + if fd > 0 then [fd] else [];
    if fd > 0 {
      k.Close(fd);
    }
  }

  lemma MinusElems(f: Fds, a: seq<int>, b: seq<int>)
    ensures f - Elems(a) - Elems(b) == f - Elems(a + b)
  {
    assert Elems(a + b) == Elems(a) + Elems(b);
  }

  method CloseFields(k: Task, resp: RoomsResponse)
    requires k.Valid()
    modifies k`fds
    ensures k.Valid() && k.fds == old(k.fds) - Elems(Borrowed(resp.Fields()))
  {
    hide Borrowed, Elems;
    ghost var f := k.fds;
    var c, i, m, n, t, u := resp.cgroup, resp.ipc, resp.mnt, resp.net, resp.time, resp.uts;
    ghost var fs := [c];
    CloseIfOpen(k, c);
    CloseIfOpen(k, i);
    MinusBorrowed(f, fs, i);
    fs := fs + [i];
    CloseIfOpen(k, m);
    MinusBorrowed(f, fs, m);
    fs := fs + [m];
    CloseIfOpen(k, n);
    MinusBorrowed(f, fs, n);
    fs := fs + [n];
    CloseIfOpen(k, t);
    MinusBorrowed(f, fs, t);
    fs := fs + [t];
    CloseIfOpen(k, u);
    MinusBorrowed(f, fs, u);
    fs := fs + [u];
    assert resp.Fields() == fs;
  }

  lemma MinusBorrowed(f: Fds, fields: seq<int>, fd: int)
    ensures f - Elems(Borrowed(fields)) - Elems(Borrowed([fd])) == f - Elems(Borrowed(fields + [fd]))
  {
    BorrowedConcat(fields, [fd]);
    MinusElems(f, Borrowed(fields), Borrowed([fd]));
  }

  datatype Reply =
    | MadeRooms(rooms: RoomsResponse)
    | MadeSubspace(subspace: SubspaceResponse)
    | Error(reason: string)
    | Crash

  /** All or nothing: either every requested type and no other has a positive descriptor, for a new
      namespace (but for time), and these are the only new descriptors; or the error, as a client
      reads it, reports in creation order exactly the requested types that were not made and why, a
      system call failed for each of them, and the table is as before. The ghosts say what had been made, and when. */
  method Room(k: Task, home: View, spaces: Mask)
    returns (r: Reply, ghost made: seq<int>, ghost failures: seq<Failure>, ghost b: Books)
    requires k.Valid()
    modifies k`fds, k`faults, k`nextIno, k`secluded
    ensures k.Valid() && (r.MadeRooms? || r.Error?) && b == At(k).(fds := b.fds)
    ensures !ProperRooms(spaces) ==>
      b == old(At(k)) && r == Error(if spaces & !ROOM_MASK != 0 then "out of space" else "no space requested")
    ensures ProperRooms(spaces) ==>
      && |made| == |ROOM_TYPES| && Progress(Wanted(spaces), made, failures, home, old(At(k)), b)
      && InOrder(Wanted(spaces), TypesOf(failures))
      && (r.Error? ==> failures != [] && r.reason == Report(failures))
      && (r.Error? && (forall f | f in failures :: ',' !in f.err) ==>
            Read(r.reason) == Readings(failures) && TypesOf(failures) == Missing(Wanted(spaces), made))
    ensures r.Error? ==> k.fds == old(k.fds)
    ensures r.MadeRooms? ==>
      && fresh(r.rooms) && made == r.rooms.Fields() && failures == [] && b.fds == k.fds
      && forall i | 0 <= i < |ROOM_TYPES| :: if ROOM_TYPES[i] in Wanted(spaces) then made[i] > 0 else made[i] == 0
    ensures k.faults >= old(k.faults)
  {
    made, failures, b := [], [], At(k);
    if spaces & !ROOM_MASK != 0 { return Error("out of space"), [], [], b; }
    if spaces & ROOM_MASK == 0 { return Error("no space requested"), [], [], b; }
    var resp := new RoomsResponse();
    var errmsg;
    errmsg, failures := CreateAll(k, home, spaces, resp);
    made, b := resp.Fields(), At(k);
    ReportEmpty(failures);
    MissingNone(Wanted(spaces), made);
    MissingInOrder(Wanted(spaces), made);
    if errmsg != "" {
      if forall f | f in failures :: ',' !in f.err { ReadReport(failures); }
      OpenedThenClosed(old(k.fds), k.fds, Borrowed(made));
      CloseFields(k, resp);
      r := Error(errmsg);
    } else {
      r := MadeRooms(resp);
    }
  }
}
