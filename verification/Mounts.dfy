/** Mount namespaces and mount propagation: what the mount tables look like while test code makes
    mount namespaces and mounts things in them. */
module Mounts {
  import opened Wrappers
  import opened Namespaces

  // A mount, named by the mount it is on and a place there.
  datatype Point = Root | Under(parent: Point, place: nat)

  // Each mount's peer group; a private mount has none.
  type Table = map<Point, Option<nat>>
  type Tables = map<Ino, Table>

  predicate AllPrivate(t: Table) {
    forall p | p in t :: t[p] == None
  }

  // unshare(CLONE_NEWNS): the copies of shared mounts join their peer groups.
  function Cloned(ts: Tables, from: Ino, to: Ino): Tables
    requires from in ts
  {
    ts[to := ts[from]]
  }

  // mount(..., "/", MS_REC|MS_PRIVATE)
  function MadePrivate(ts: Tables, n: Ino): Tables
    requires n in ts
  {
    ts[n := PrivateCopy(ts[n])]
  }

  function PrivateCopy(t: Table): Table {
    map p | p in t :: None
  }

  // What a mount under peer group x adds to one table; the new mounts form the peer group g.
  function Propagated(t: Table, x: nat, place: nat, g: nat): Table {
    t + map p | p in t && t[p] == Some(x) :: Under(p, place) := Some(g)
  }

  // mount(2) in namespace n, on a place of its mount p. It propagates to all peers of p.
  function Mounted(ts: Tables, n: Ino, p: Point, place: nat, g: nat): Tables
    requires n in ts && p in ts[n]
  {
    match ts[n][p]
    case None => ts[n := ts[n][Under(p, place) := None]]
    case Some(x) => map m | m in ts :: Propagated(ts[m], x, place, g)
  }

  // How a thread stands in its mount namespace: a new one is first shared with its original.
  datatype Phase = Ready | Sharing | Broken

  datatype Place = Place(ns: Ino, phase: Phase)

  // host is the process's original mount namespace, and the one of its locked leader thread. known
  // are the namespaces that callers can get hold of: as references, or by being inside.
  datatype World = World(host: Ino, tables: Tables, known: set<Ino>, threads: map<nat, Place>)

  datatype Event =
    | Unshare(t: nat, ns: Ino)               // unshare(CLONE_NEWNS) in one of the three callers
    | Remount(t: nat, ok: bool)              // the remount that follows it
    | Attach(t: nat, ns: Ino)                // back to the caller's namespace, or into a referenced one
    | MountSysfsRO(t: nat, p: Point, place: nat, g: nat)
    | UserMount(t: nat, p: Point, place: nat, g: nat)   // anywhere but in the original namespace

  function Step(w: World, e: Event): World {
    if e.t !in w.threads then w else
    var at := w.threads[e.t];
    match e
    case Unshare(t, ns) =>
      if at.phase == Sharing || ns in w.tables || at.ns !in w.tables then w
      else w.(tables := Cloned(w.tables, at.ns, ns), threads := w.threads[t := Place(ns, Sharing)])
    case Remount(t, ok) =>
      if at.phase != Sharing || at.ns !in w.tables then w
      else if !ok then w.(threads := w.threads[t := at.(phase := Broken)])
      else w.(tables := MadePrivate(w.tables, at.ns), known := w.known + {at.ns},
              threads := w.threads[t := at.(phase := Ready)])
    case Attach(t, ns) =>
      if at.phase == Sharing || ns !in w.known then w
      else w.(threads := w.threads[t := Place(ns, Ready)])
    case MountSysfsRO(t, p, place, g) => if at.ns == w.host then w else MountHere(w, at.ns, p, place, g)
    case UserMount(t, p, place, g) => if at.ns == w.host then w else MountHere(w, at.ns, p, place, g)
  }

  predicate IsMount(e: Event) {
    e.MountSysfsRO? || e.UserMount?
  }

  function MountHere(w: World, n: Ino, p: Point, place: nat, g: nat): World {
    if n in w.tables && p in w.tables[n] then w.(tables := Mounted(w.tables, n, p, place, g)) else w
  }

  function Run(w: World, es: seq<Event>): World {
    if es == [] then w else Step(Run(w, es[..|es| - 1]), es[|es| - 1])
  }

  // Every namespace that a caller can get hold of, other than the original, is private throughout.
  ghost predicate Isolated(w: World) {
    && w.host in w.tables && w.host in w.known && w.known <= w.tables.Keys
    && (forall n | n in w.known && n != w.host :: AllPrivate(w.tables[n]))
    && (forall t | t in w.threads :: w.threads[t].ns in w.tables)
    && (forall t | t in w.threads && w.threads[t].phase == Ready :: w.threads[t].ns in w.known)
    && (forall t | t in w.threads && w.threads[t].phase == Sharing ::
          w.threads[t].ns !in w.known && forall u | u in w.threads && u != t :: w.threads[u].ns != w.threads[t].ns)
  }

  predicate HostKept(w: World, w': World) {
    && w'.host == w.host && w.host in w.tables && w.host in w'.tables
    && w'.tables[w.host] == w.tables[w.host]
  }

  lemma UnshareKeeps(w: World, t: nat, ns: Ino)
    requires Isolated(w)
    ensures Isolated(Step(w, Unshare(t, ns))) && HostKept(w, Step(w, Unshare(t, ns)))
  {
  }

  lemma RemountKeeps(w: World, t: nat, ok: bool)
    requires Isolated(w)
    ensures Isolated(Step(w, Remount(t, ok))) && HostKept(w, Step(w, Remount(t, ok)))
  {
  }

  lemma AttachKeeps(w: World, t: nat, ns: Ino)
    requires Isolated(w)
    ensures Isolated(Step(w, Attach(t, ns))) && HostKept(w, Step(w, Attach(t, ns)))
  {
  }

  // A mount anywhere but in the original namespace leaves private namespaces private.
  lemma MountKeeps(w: World, n: Ino, p: Point, place: nat, g: nat)
    requires Isolated(w) && n != w.host
    ensures Isolated(MountHere(w, n, p, place, g)) && MountHere(w, n, p, place, g).host == w.host
  {
    var w' := MountHere(w, n, p, place, g);
    forall m | m in w.known && m != w.host ensures AllPrivate(w'.tables[m]) {
      assert AllPrivate(w.tables[m]);
    }
  }

  lemma StepKeepsIsolated(w: World, e: Event)
    requires Isolated(w)
    ensures Isolated(Step(w, e)) && Step(w, e).host == w.host
    ensures !IsMount(e) ==> HostKept(w, Step(w, e))
  {
    if e.Unshare? {
      UnshareKeeps(w, e.t, e.ns);
    } else if e.Remount? {
      RemountKeeps(w, e.t, e.ok);
    } else if e.Attach? {
      AttachKeeps(w, e.t, e.ns);
    } else if e.t in w.threads && w.threads[e.t].ns != w.host {
      MountKeeps(w, w.threads[e.t].ns, e.p, e.place, e.g);
    }
  }

  // Mount p of namespace n has a peer in the original namespace.
  predicate HasPeer(w: World, n: Ino, p: Point) {
    && w.host in w.tables && n in w.tables && p in w.tables[n] && w.tables[n][p].Some?
    && exists q | q in w.tables[w.host] :: w.tables[w.host][q] == w.tables[n][p]
  }

  /** A single mount, in any namespace at all, changes the original one if and only if it is made in
      the original or its mount has a peer there. */
  lemma MountReachesHost(w: World, n: Ino, p: Point, place: nat, g: nat)
    requires n in w.tables && p in w.tables[n] && w.host in w.tables
    requires NewGroup(w, g) && (n == w.host ==> Under(p, place) !in w.tables[w.host])
    ensures MountHere(w, n, p, place, g).tables[w.host] != w.tables[w.host] <==> n == w.host || HasPeer(w, n, p)
  {
    var t, t' := w.tables[w.host], MountHere(w, n, p, place, g).tables[w.host];
    match w.tables[n][p]
    case None =>
      if n == w.host { assert Under(p, place) in t'; }
    case Some(x) =>
      assert t' == Propagated(t, x, place, g);
      if q :| q in t && t[q] == Some(x) {
        assert Under(q, place) in t' && t'[Under(q, place)] == Some(g);
      } else {
        assert t' == t;
      }
  }

  // The original namespace has no mount in this peer group.
  predicate NewGroup(w: World, g: nat) {
    w.host in w.tables && forall q | q in w.tables[w.host] :: w.tables[w.host][q] != Some(g)
  }

  // The event does not mount anything on a peer of a mount of the original namespace.
  predicate Harmless(w: World, e: Event) {
    IsMount(e) && e.t in w.threads && w.threads[e.t].ns != w.host ==> !HasPeer(w, w.threads[e.t].ns, e.p)
  }

  lemma StepReachesHost(w: World, e: Event)
    requires Isolated(w)
    ensures Harmless(w, e) ==> HostKept(w, Step(w, e))
    ensures (IsMount(e) ==> NewGroup(w, e.g)) && HostKept(w, Step(w, e)) ==> Harmless(w, e)
  {
    if !IsMount(e) {
      StepKeepsIsolated(w, e);
    } else if e.t in w.threads && w.threads[e.t].ns != w.host {
      var n := w.threads[e.t].ns;
      if n in w.tables && e.p in w.tables[n] {
        if NewGroup(w, e.g) { MountReachesHost(w, n, e.p, e.place, e.g); }
        if !HasPeer(w, n, e.p) && w.tables[n][e.p].Some? {
          assert Propagated(w.tables[w.host], w.tables[n][e.p].value, e.place, e.g) == w.tables[w.host];
        }
      }
    }
  }

  predicate AlwaysHarmless(w: World, es: seq<Event>) {
    es == [] || (AlwaysHarmless(w, es[..|es| - 1]) && Harmless(Run(w, es[..|es| - 1]), es[|es| - 1]))
  }

  predicate HostAlwaysKept(w: World, es: seq<Event>) {
    HostKept(w, Run(w, es)) && (es == [] || HostAlwaysKept(w, es[..|es| - 1]))
  }

  /** In any run at all, the mounts of the original namespace stay as they were if nothing is ever mounted
      on a peer of one of them, and, with each mount in a new peer group, only if so. */
  lemma {:induction false} HostChangesExactly(w: World, es: seq<Event>)
    requires Isolated(w)
    ensures Isolated(Run(w, es)) && Run(w, es).host == w.host
    ensures AlwaysHarmless(w, es) ==> HostAlwaysKept(w, es)
    ensures (forall i | 0 <= i < |es| && IsMount(es[i]) :: NewGroup(w, es[i].g)) && HostAlwaysKept(w, es) ==>
              AlwaysHarmless(w, es)
  {
    if es != [] {
      var n := |es| - 1;
      var init, v := es[..n], Run(w, es[..n]);
      HostChangesExactly(w, init);
      StepKeepsIsolated(v, es[n]);
      StepReachesHost(v, es[n]);
      assert forall i | 0 <= i < n :: init[i] == es[i];
    }
  }

  // Whoever mounts something does so on a thread whose latest remount succeeded.
  predicate OnSetUpThreads(w: World, es: seq<Event>) {
    es == [] ||
    var v, e := Run(w, es[..|es| - 1]), es[|es| - 1];
    && OnSetUpThreads(w, es[..|es| - 1])
    && (IsMount(e) && e.t in v.threads ==> v.threads[e.t].phase == Ready)
  }

  /** So whatever threads do with the mount namespaces that this code makes, and whatever is mounted in
      them: while no thread goes on mounting after its remount has failed, the mounts of the original
      namespace stay as they were. */
  lemma {:induction false} HostNeverChanges(w: World, es: seq<Event>)
    requires Isolated(w) && OnSetUpThreads(w, es)
    ensures AlwaysHarmless(w, es) && HostAlwaysKept(w, es)
  {
    HostChangesExactly(w, es);
    if es != [] {
      var n := |es| - 1;
      HostNeverChanges(w, es[..n]);
      HostChangesExactly(w, es[..n]);
      ReadyIsHarmless(Run(w, es[..n]), es[n]);
    }
  }

  lemma ReadyIsHarmless(w: World, e: Event)
    requires Isolated(w) && (IsMount(e) && e.t in w.threads ==> w.threads[e.t].phase == Ready)
    ensures Harmless(w, e)
  {
    if IsMount(e) && e.t in w.threads && w.threads[e.t].ns != w.host {
      assert AllPrivate(w.tables[w.threads[e.t].ns]);
    }
  }

  /** And if one does go on, its first mount changes the original namespace if and only if the mount that
      it is made on has a peer there. */
  lemma FirstMountOnBrokenThread(w: World, es: seq<Event>, e: Event)
    requires Isolated(w) && OnSetUpThreads(w, es) && IsMount(e) && NewGroup(w, e.g)
    requires var v := Run(w, es); e.t in v.threads && v.threads[e.t].phase == Broken
    ensures var v := Run(w, es);
            !HostKept(w, Step(v, e)) <==> v.threads[e.t].ns != w.host && HasPeer(v, v.threads[e.t].ns, e.p)
  {
    HostChangesExactly(w, es);
    HostNeverChanges(w, es);
    StepReachesHost(Run(w, es), e);
    StepKeepsIsolated(Run(w, es), e);
  }

  /** It does mount: after any run MountSysfsRO leaves, on a thread outside the original namespace, a mount
      at its place in the thread's namespace; on a thread that has been set up that is a private mount,
      and no other mount and no other namespace changes. On a thread in the original namespace, or where
      there is nothing to mount on, it changes nothing at all. */
  lemma MountsWhereItShould(v: World, es: seq<Event>, t: nat, p: Point, place: nat, g: nat)
    requires Isolated(v) && t in Run(v, es).threads
    ensures var w, at := Run(v, es), Run(v, es).threads[t];
            var w' := Step(w, MountSysfsRO(t, p, place, g));
            && w'.threads == w.threads && w'.known == w.known && w'.host == w.host && at.ns in w.tables
            && (at.ns == w.host || p !in w.tables[at.ns] ==> w' == w)
            && (at.ns != w.host && p in w.tables[at.ns] ==>
                  && at.ns in w'.tables && Under(p, place) in w'.tables[at.ns]
                  && (at.phase == Ready ==> w'.tables == w.tables[at.ns := w.tables[at.ns][Under(p, place) := None]]))
  {
    HostChangesExactly(v, es);
    var w, at := Run(v, es), Run(v, es).threads[t];
    if at.ns != w.host && p in w.tables[at.ns] {
      match w.tables[at.ns][p]
      case None =>
      case Some(x) => assert Under(p, place) in Propagated(w.tables[at.ns], x, place, g);
    }
  }

  /** The documented use, from any world: enter a new mount namespace, mount there and leave. The new
      namespace is a private copy of the one the thread came from with just that mount, all others are
      as before, and the thread is back. */
  lemma EnterMountLeave(w: World, t: nat, ns: Ino, p: Point, place: nat, g: nat)
    requires Isolated(w) && t in w.threads && w.threads[t].phase == Ready && ns !in w.tables
    requires p in w.tables[w.threads[t].ns]
    ensures var from := w.threads[t].ns;
            var w' := Run(w, [Unshare(t, ns), Remount(t, true), MountSysfsRO(t, p, place, g), Attach(t, from)]);
            var copy := PrivateCopy(w.tables[from]);
            && w'.tables == w.tables[ns := copy[Under(p, place) := None]]
            && w'.threads == w.threads && w'.host == w.host && w'.known == w.known + {ns}
  {
    hide Step, PrivateCopy, Run;
    var from := w.threads[t].ns;
    var e1, e2, e3, e4 := Unshare(t, ns), Remount(t, true), MountSysfsRO(t, p, place, g), Attach(t, from);
    var copy := PrivateCopy(w.tables[from]);
    EntersPrivately(w, t, ns);
    var w2 := w.(tables := w.tables[ns := copy], known := w.known + {ns}, threads := w.threads[t := Place(ns, Ready)]);
    assert p in w2.tables[ns] && w2.tables[ns][p] == None by { Private(w.tables[from], p); }
    var w3 := w2.(tables := w.tables[ns := copy[Under(p, place) := None]]);
    MountsPrivately(w2, t, p, place, g);
    assert w2.tables[ns := copy[Under(p, place) := None]] == w3.tables;
    LeavesTo(w3, t, from);
    assert w3.threads[t := Place(from, Ready)] == w.threads;
    RunFour(w, e1, e2, e3, e4);
  }

  lemma Private(t: Table, p: Point)
    requires p in t
    ensures p in PrivateCopy(t) && PrivateCopy(t)[p] == None
  {
  }

  // The new mount namespace is a copy, and private.
  lemma EntersPrivately(w: World, t: nat, ns: Ino)
    requires Isolated(w) && t in w.threads && w.threads[t].phase == Ready && ns !in w.tables
    ensures var copy := PrivateCopy(w.tables[w.threads[t].ns]);
            Step(Step(w, Unshare(t, ns)), Remount(t, true)) ==
            w.(tables := w.tables[ns := copy], known := w.known + {ns}, threads := w.threads[t := Place(ns, Ready)])
  {
    var from := w.threads[t].ns;
    var copy := PrivateCopy(w.tables[from]);
    var w1 := w.(tables := w.tables[ns := w.tables[from]], threads := w.threads[t := Place(ns, Sharing)]);
    assert Step(w, Unshare(t, ns)) == w1;
    assert MadePrivate(w1.tables, ns) == w.tables[ns := copy];
    assert w1.threads[t := Place(ns, Ready)] == w.threads[t := Place(ns, Ready)];
  }

  lemma MountsPrivately(w: World, t: nat, p: Point, place: nat, g: nat)
    requires t in w.threads && w.threads[t].ns in w.tables && w.threads[t].ns != w.host
    requires p in w.tables[w.threads[t].ns] && w.tables[w.threads[t].ns][p] == None
    ensures var n := w.threads[t].ns;
            Step(w, MountSysfsRO(t, p, place, g)) == w.(tables := w.tables[n := w.tables[n][Under(p, place) := None]])
  {
  }

  lemma LeavesTo(w: World, t: nat, ns: Ino)
    requires t in w.threads && w.threads[t].phase == Ready && ns in w.known
    ensures Step(w, Attach(t, ns)) == w.(threads := w.threads[t := Place(ns, Ready)])
  {
  }

  lemma RunFour(w: World, a: Event, b: Event, c: Event, d: Event)
    ensures Run(w, [a, b, c, d]) == Step(Step(Step(Step(w, a), b), c), d)
  {
    hide Step;
    assert [a, b, c, d][..3] == [a, b, c] && [a, b, c][..2] == [a, b] && [a, b][..1] == [a] && [a][..0] == [];
    assert Run(w, [a]) == Step(w, a) && Run(w, [a, b]) == Step(Run(w, [a]), b);
    assert Run(w, [a, b, c]) == Step(Run(w, [a, b]), c);
  }

  // One thread in an original namespace whose root mount is shared, and after its remount has failed.
  const SHARED := World(0, map[0 := map[Root := Some(7)]], {0}, map[1 := Place(0, Ready)])
  const BROKEN := World(0, map[0 := map[Root := Some(7)], 5 := map[Root := Some(7)]], {0}, map[1 := Place(5, Broken)])

  lemma BrokenIsReached()
    ensures Isolated(SHARED) && Run(SHARED, [Unshare(1, 5), Remount(1, false)]) == BROKEN
  {
    var one, two := [Unshare(1, 5)], [Unshare(1, 5), Remount(1, false)];
    assert one[..0] == [] && two[..1] == one;
    var w := SHARED.(tables := BROKEN.tables, threads := map[1 := Place(5, Sharing)]);
    assert Run(SHARED, one) == Step(Run(SHARED, one[..0]), one[0]) == w;
    assert Run(SHARED, two) == Step(Run(SHARED, two[..1]), two[1]);
    assert Step(w, two[1]).threads == BROKEN.threads;
  }

  /** So the guard of MountSysfsRO is not enough on its own: on a thread whose remount failed it lets a
      mount through to the original namespace. */
  lemma BrokenThreadReachesHost()
    ensures Isolated(SHARED) && Run(SHARED, [Unshare(1, 5), Remount(1, false)]) == BROKEN
    ensures 1 in BROKEN.threads && BROKEN.threads[1].ns != BROKEN.host
    ensures !HostKept(SHARED, Step(BROKEN, MountSysfsRO(1, Root, 3, 8)))
  {
    BrokenIsReached();
    assert BROKEN.tables[0][Root] == BROKEN.tables[5][Root];
    MountReachesHost(BROKEN, 5, Root, 3, 8);
  }
}
