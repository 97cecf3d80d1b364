/** The thread-switching calls on a kernel with descriptors, as runs of the pool's goroutines: what holds
    of every step in Pool holds of what the calls do. */
module Paths {
  import opened Namespaces
  import opened Kernel
  import opened Accounts
  import opened Execution
  import Rooms
  import Pool

  function Run(l: Pool.Local, es: seq<Pool.Event>): Pool.Local
    decreases es
  {
    if es == [] then l else Run(Pool.Step(l, es[0]), es[1..])
  }

  lemma {:induction false} RunAppend(l: Pool.Local, a: seq<Pool.Event>, b: seq<Pool.Event>)
    ensures Run(l, a + b) == Run(Run(l, a), b)
    decreases a
  {
    if a == [] {
      assert a + b == b;
    } else {
      assert (a + b)[1..] == a[1..] + b;
      RunAppend(Pool.Step(l, a[0]), a[1..], b);
    }
  }

  lemma RunOne(l: Pool.Local, e: Pool.Event)
    ensures Run(l, [e]) == Pool.Step(l, e)
  {
  }

  lemma RunTwo(l: Pool.Local, a: Pool.Event, b: Pool.Event)
    ensures Run(l, [a, b]) == Pool.Step(Pool.Step(l, a), b)
  {
    assert [a, b][1..] == [b];
    RunOne(Pool.Step(l, a), b);
  }

  lemma RunThree(l: Pool.Local, a: Pool.Event, b: Pool.Event, c: Pool.Event)
    ensures Run(l, [a, b, c]) == Pool.Step(Pool.Step(Pool.Step(l, a), b), c)
  {
    assert [a, b, c][1..] == [b, c];
    RunTwo(Pool.Step(l, a), b, c);
  }

  /** The pool's invariant holds after any run. */
  lemma {:induction false} RunKeeps(l: Pool.Local, es: seq<Pool.Event>, home: View)
    requires Pool.Inv(l, home) && home.Settled()
    ensures Pool.Inv(Run(l, es), home)
    decreases es
  {
    if es != [] {
      Pool.StepKeeps(l, es[0], home);
      RunKeeps(Pool.Step(l, es[0]), es[1..], home);
    }
  }

  // The thread as the pool sees it.
  function ThreadOf(s: Snap): Pool.OsThread {
    Pool.OsThread(s.view, s.locks, s.fsPrivate)
  }

  function OsThreadOf(th: Thread): Pool.OsThread
    reads th
  {
    Pool.OsThread(th.view, th.locks, th.fsPrivate)
  }

  ghost predicate On(l: Pool.Local, th: Thread)
    reads th
  {
    l.th == OsThreadOf(th)
  }

  // Calls in progress: f is the innermost one.
  function In(th: Pool.OsThread, below: seq<Pool.Frame>, f: Pool.Frame, panicking: bool): Pool.Local {
    Pool.Local(th, below + [f], panicking)
  }

  // From one system call of a call in progress to the next.
  lemma Steps(th: Pool.OsThread, below: seq<Pool.Frame>, f: Pool.Frame, p: bool)
    ensures var l := In(th, below, f, p);
            && l.th == th && l.panicking == p && l.stack != [] && l.Top() == f && l.stack[..|l.stack| - 1] == below
            && (forall g :: l.At(g) == In(th, below, g, p))
            && (forall b :: l.Drop(b) == Pool.Local(th, below, b))
            && (forall v :: l.View(v) == In(th.(view := v), below, f, p))
            && (forall x :: l.(th := x) == In(x, below, f, p))
  {
    var l := In(th, below, f, p);
    assert l.stack[..|l.stack| - 1] == below;
  }

  const GOOD := Pool.Sys(true, 0)
  const BAD := Pool.Sys(false, 0)

  // The calls that save and unshare a namespace of one type.
  predicate Unsharer(c: Pool.Call, t: NsType) {
    || (c == Pool.Enter(t) && t in Transient.ENTERABLE)
    || (c == Pool.Create(t) && t in Transient.CREATABLE)
    || (c == Pool.EnterMnt && t == Mnt)
  }

  lemma Locks(l: Pool.Local, c: Pool.Call, t: NsType)
    requires l.InUserCode() && !l.panicking && Unsharer(c, t)
    ensures Pool.Step(l, Pool.Begin(c)) ==
            In(l.th.(locks := l.th.locks + 1), l.stack, Pool.Frame(c, Pool.Opening, []), false)
  {
  }

  lemma Opens(th: Pool.OsThread, below: seq<Pool.Frame>, c: Pool.Call, t: NsType)
    requires Unsharer(c, t)
    ensures var l := In(th, below, Pool.Frame(c, Pool.Opening, []), false);
            && Pool.Step(l, BAD) == Pool.Local(th, below, true)
            && Pool.Step(l, GOOD) ==
                 In(th, below, Pool.Frame(c, Pool.Unsharing, [Ref(t, th.view.Own(t))]), false)
  {
    hide In;
    Steps(th, below, Pool.Frame(c, Pool.Opening, []), false);
  }

  lemma Unshares(th: Pool.OsThread, below: seq<Pool.Frame>, c: Pool.Call, t: NsType, saves: seq<Ref>, ino: Ino)
    requires Unsharer(c, t)
    ensures var l := In(th, below, Pool.Frame(c, Pool.Unsharing, saves), false);
            && Pool.Step(l, BAD) == Pool.Local(th, below, true)
            && (c != Pool.Enter(Pid) || th.view.pidForChildren == th.view.pid ==>
                  Pool.Step(l, Pool.Sys(true, ino)) ==
                  In(Unshared(th, c, t, ino), below, Pool.Frame(c, After(c), saves), false))
  {
    hide In;
    Steps(th, below, Pool.Frame(c, Pool.Unsharing, saves), false);
    Steps(Unshared(th, c, t, ino), below, Pool.Frame(c, Pool.Unsharing, saves), false);
  }

  function Unshared(th: Pool.OsThread, c: Pool.Call, t: NsType, ino: Ino): Pool.OsThread {
    th.(view := th.view.Unshared(t, ino), fsPrivate := th.fsPrivate || c.EnterMnt?)
  }

  function After(c: Pool.Call): Pool.Pc {
    match c
    case Enter(_) => Pool.Inside
    case Create(_) => Pool.Reopening
    case _ => Pool.Remounting
  }

  // Setting up fails before or after the old namespace was opened.
  lemma SetUpFails(l: Pool.Local, c: Pool.Call, t: NsType, held: bool) returns (es: seq<Pool.Event>)
    requires l.InUserCode() && !l.panicking && Unsharer(c, t)
    ensures Run(l, es) == Pool.Local(l.th.(locks := l.th.locks + 1), l.stack, true)
  {
    hide Pool.Step, In;
    var th, begin := l.th.(locks := l.th.locks + 1), Pool.Begin(c);
    Locks(l, c, t);
    Opens(th, l.stack, c, t);
    Unshares(th, l.stack, c, t, [Ref(t, th.view.Own(t))], 0);
    if held {
      es := [begin, GOOD, BAD];
      RunThree(l, begin, GOOD, BAD);
    } else {
      es := [begin, BAD];
      RunTwo(l, begin, BAD);
    }
  }

  lemma SetsUp(l: Pool.Local, c: Pool.Call, t: NsType, ino: Ino) returns (es: seq<Pool.Event>)
    requires l.InUserCode() && !l.panicking && Unsharer(c, t)
    requires c == Pool.Enter(Pid) ==> l.th.view.pidForChildren == l.th.view.pid
    ensures Run(l, es) == In(Unshared(l.th.(locks := l.th.locks + 1), c, t, ino), l.stack,
                             Pool.Frame(c, After(c), [Ref(t, l.th.view.Own(t))]), false)
  {
    hide Pool.Step, In;
    var th := l.th.(locks := l.th.locks + 1);
    es := [Pool.Begin(c), GOOD, Pool.Sys(true, ino)];
    Locks(l, c, t);
    Opens(th, l.stack, c, t);
    Unshares(th, l.stack, c, t, [Ref(t, th.view.Own(t))], ino);
    RunThree(l, Pool.Begin(c), GOOD, Pool.Sys(true, ino));
  }

  lemma Reattaches(th: Pool.OsThread, below: seq<Pool.Frame>, c: Pool.Call, r: Ref, p: bool)
    requires c.Enter? || c.Create? || c.EnterMnt?
    ensures var l, v := In(th, below, Pool.Frame(c, Pool.Leaving, [r]), p), th.view.Attached(r);
            && Pool.Step(l, BAD) == Pool.Local(th, below, true)
            && Pool.Step(l, GOOD) == if c.EnterMnt? then Pool.Local(th.(view := v), below, p)
                                     else In(th.(view := v), below, Pool.Frame(c, Pool.Unlocking, []), p)
  {
    hide In;
    var f := Pool.Frame(c, Pool.Leaving, [r]);
    assert [r][..0] == [];
    Steps(th, below, f, p);
    Steps(th.(view := th.view.Attached(r)), below, f, p);
    Steps(th.(view := th.view.Attached(r)), below, f.(saves := []), p);
  }

  lemma Unlocks(th: Pool.OsThread, below: seq<Pool.Frame>, c: Pool.Call, p: bool)
    requires (c.Enter? || c.Create?) && th.locks > 0
    ensures Pool.Step(In(th, below, Pool.Frame(c, Pool.Unlocking, []), p), GOOD) ==
            Pool.Local(th.(locks := th.locks - 1), below, p)
  {
    hide In;
    Steps(th, below, Pool.Frame(c, Pool.Unlocking, []), p);
  }

  lemma Leaves(th: Pool.OsThread, below: seq<Pool.Frame>, c: Pool.Call, r: Ref, p: bool, ok: bool)
    returns (es: seq<Pool.Event>)
    requires (c.Enter? || c.EnterMnt?) && th.locks > 0
    ensures Run(In(th, below, Pool.Frame(c, Pool.Inside, [r]), p), es) ==
            if !ok then Pool.Local(th, below, true)
            else Pool.Local(th.(view := th.view.Attached(r), locks := th.locks - if c.Enter? then 1 else 0), below, p)
  {
    hide In, Pool.Local.InUserCode;
    var l := In(th, below, Pool.Frame(c, Pool.Inside, [r]), p);
    Steps(th, below, Pool.Frame(c, Pool.Inside, [r]), p);
    assert Pool.Step(l, Pool.End) == In(th, below, Pool.Frame(c, Pool.Leaving, [r]), p) by {
      EndsInside(l);
    }
    Reattaches(th, below, c, r, p);
    if ok && c.Enter? {
      Unlocks(th.(view := th.view.Attached(r)), below, c, p);
      es := [Pool.End, GOOD, GOOD];
      RunThree(l, Pool.End, GOOD, GOOD);
    } else {
      es := [Pool.End, if ok then GOOD else BAD];
      RunTwo(l, Pool.End, es[1]);
    }
  }

  lemma EndsInside(l: Pool.Local)
    requires l.stack != [] && l.Top().pc == Pool.Inside
    ensures Pool.Step(l, Pool.End) == Pool.Ended(l)
  {
  }

  // From a created namespace to its end, unless reopening it or returning fails.
  lemma Returns(th: Pool.OsThread, below: seq<Pool.Frame>, t: NsType, r: Ref, reopened: bool, ok: bool)
    returns (es: seq<Pool.Event>)
    requires th.locks > 0 && (ok ==> reopened)
    ensures Run(In(th, below, Pool.Frame(Pool.Create(t), Pool.Reopening, [r]), false), es) ==
            if !ok then Pool.Local(th, below, true)
            else Pool.Local(th.(view := th.view.Attached(r), locks := th.locks - 1), below, false)
  {
    hide In, Pool.Step;
    var c := Pool.Create(t);
    var l := In(th, below, Pool.Frame(c, Pool.Reopening, [r]), false);
    Reopens(th, below, t, r);
    Reattaches(th, below, c, r, false);
    if !reopened {
      es := [BAD];
      RunOne(l, BAD);
    } else if !ok {
      es := [GOOD, BAD];
      RunTwo(l, GOOD, BAD);
    } else {
      Unlocks(th.(view := th.view.Attached(r)), below, c, false);
      es := [GOOD, GOOD, GOOD];
      RunThree(l, GOOD, GOOD, GOOD);
    }
  }

  lemma Reopens(th: Pool.OsThread, below: seq<Pool.Frame>, t: NsType, r: Ref)
    ensures var l := In(th, below, Pool.Frame(Pool.Create(t), Pool.Reopening, [r]), false);
            && Pool.Step(l, BAD) == Pool.Local(th, below, true)
            && Pool.Step(l, GOOD) == In(th, below, Pool.Frame(Pool.Create(t), Pool.Leaving, [r]), false)
  {
    hide In;
    Steps(th, below, Pool.Frame(Pool.Create(t), Pool.Reopening, [r]), false);
  }

  // The goroutine and its thread after a call, or a part of one, that ends like this.
  ghost predicate Reaches(l: Pool.Local, es: seq<Pool.Event>, th: Thread, stack: seq<Pool.Frame>, panicking: bool)
    reads th
  {
    var l' := Run(l, es);
    On(l', th) && l'.stack == stack && l'.panicking == panicking
  }

  /** EnterTransient makes some run of the pool's goroutine, and if it returns, leaves it inside. */
  method Enter(k: Task, th: Thread, typ: NsType, ghost l: Pool.Local)
    returns (o: Outcome, saved: int, ghost es: seq<Pool.Event>)
    requires k.Valid() && On(l, th) && l.InUserCode() && !l.panicking
    modifies k`fds, k`faults, k`nextIno, th`view, th`locks
    ensures k.Valid()
    ensures Reaches(l, es, th, if o.Panic? then l.stack else l.stack + [Entered(typ, old(th.view))], o.Panic?)
    ensures o.Normal? ==> saved > 0 && Names(k.fds, saved, Ref(typ, old(th.view).Own(typ)))
  {
    hide Pool.Step, Run, View.Own, View.Unshared;
    var ino := k.nextIno;
    o, saved := Transient.EnterTransient(k, th, typ);
    if typ !in Transient.ENTERABLE {
      es := [Pool.Begin(Pool.Enter(typ))];
      Refuses(l, typ);
    } else if o.Panic? {
      es := SetUpFails(l, Pool.Enter(typ), typ, saved >= 0);
    } else {
      es := SetsUp(l, Pool.Enter(typ), typ, ino);
    }
  }

  function Entered(typ: NsType, v: View): Pool.Frame {
    Pool.Frame(if typ == Mnt then Pool.EnterMnt else Pool.Enter(typ), Pool.Inside, [Ref(typ, v.Own(typ))])
  }

  lemma Refuses(l: Pool.Local, t: NsType)
    requires l.InUserCode() && !l.panicking
    ensures t !in Transient.ENTERABLE ==> Run(l, [Pool.Begin(Pool.Enter(t))]) == l.(panicking := true)
    ensures t !in Transient.CREATABLE ==> Run(l, [Pool.Begin(Pool.Create(t))]) == l.(panicking := true)
  {
    RunOne(l, Pool.Begin(Pool.Enter(t)));
    RunOne(l, Pool.Begin(Pool.Create(t)));
  }

  /** So does the function that it returns, from inside. */
  method Leave(k: Task, th: Thread, typ: NsType, saved: int,
               ghost l: Pool.Local, ghost below: seq<Pool.Frame>, ghost r: Ref)
    returns (o: Outcome, ghost es: seq<Pool.Event>)
    requires k.Valid() && On(l, th) && th.locks > 0 && saved > 0 && Names(k.fds, saved, r)
    requires l.stack == below + [Pool.Frame(Pool.Enter(typ), Pool.Inside, [r])]
    modifies k`fds, k`faults, th`view, th`locks, th`releases
    ensures k.Valid() && Reaches(l, es, th, below, l.panicking || o.Panic?)
  {
    hide Pool.Step, Run;
    o := Transient.LeaveTransient(k, th, typ, saved);
    es := Leaves(l.th, below, Pool.Enter(typ), r, l.panicking, o.Normal?);
    assert l == In(l.th, below, Pool.Frame(Pool.Enter(typ), Pool.Inside, [r]), l.panicking);
  }

  /** NewTransient runs to its end, or panics and leaves its lock. */
  method Create(k: Task, th: Thread, typ: NsType, ghost l: Pool.Local)
    returns (o: Outcome, fd: int, ghost es: seq<Pool.Event>)
    requires k.Valid() && On(l, th) && l.InUserCode() && !l.panicking
    modifies k`fds, k`faults, k`nextIno, k`cleanups, th`view, th`locks, th`releases
    ensures k.Valid() && Reaches(l, es, th, l.stack, o.Panic?)
  {
    hide Pool.Step, Run, View.Own, View.Unshared, View.Attached, In;
    ghost var ino, locked, c := k.nextIno, l.th.(locks := l.th.locks + 1), Pool.Create(typ);
    o, fd := Transient.NewTransient(k, th, typ);
    if typ !in Transient.CREATABLE {
      es := [Pool.Begin(c)];
      Refuses(l, typ);
    } else if o.Panic? && th.view == l.th.view {
      es := SetUpFails(l, c, typ, false);
    } else {
      ghost var made := Unshared(locked, c, typ, ino);
      ghost var setUp := SetsUp(l, c, typ, ino);
      ghost var rest := Returns(made, l.stack, typ, Ref(typ, l.th.view.Own(typ)), fd >= 0, o.Normal?);
      RunAppend(l, setUp, rest);
      es := setUp + rest;
      ReturnsHome(l.th.view, typ, ino);
    }
  }

  lemma ReturnsHome(v: View, t: NsType, ino: Ino)
    requires t in Transient.CREATABLE
    ensures v.Unshared(t, ino).Attached(Ref(t, v.Own(t))) == v
  {
  }

  /** mntns.EnterTransient, and the function that it returns. */
  method EnterMnt(k: Task, th: Thread, ghost l: Pool.Local)
    returns (o: Outcome, saved: int, ghost es: seq<Pool.Event>)
    requires k.Valid() && On(l, th) && l.InUserCode() && !l.panicking
    modifies k`fds, k`faults, k`nextIno, k`secluded, th`view, th`locks, th`fsPrivate
    ensures k.Valid()
    ensures Reaches(l, es, th, if o.Panic? then l.stack else l.stack + [Entered(Mnt, old(th.view))], o.Panic?)
    ensures o.Normal? ==> saved > 0 && Names(k.fds, saved, Ref(Mnt, old(th.view).mnt))
  {
    hide Pool.Step, Run, View.Unshared, In;
    ghost var ino := k.nextIno;
    o, saved := Transient.EnterTransientMnt(k, th);
    if o.Panic? && th.view == l.th.view && th.fsPrivate == l.th.fsPrivate {
      es := SetUpFails(l, Pool.EnterMnt, Mnt, saved >= 0);
    } else {
      ghost var made := Unshared(l.th.(locks := l.th.locks + 1), Pool.EnterMnt, Mnt, ino);
      ghost var setUp := SetsUp(l, Pool.EnterMnt, Mnt, ino);
      ghost var last := if o.Normal? then GOOD else BAD;
      Remounts(made, l.stack, Ref(Mnt, l.th.view.mnt));
      RunOne(Run(l, setUp), last);
      RunAppend(l, setUp, [last]);
      es := setUp + [last];
      EnteredIn(made, l.stack, Mnt, l.th.view);
    }
  }

  lemma EnteredIn(th: Pool.OsThread, below: seq<Pool.Frame>, t: NsType, v: View)
    ensures In(th, below, Entered(t, v), false) == Pool.Local(th, below + [Entered(t, v)], false)
  {
  }

  lemma Remounts(th: Pool.OsThread, below: seq<Pool.Frame>, r: Ref)
    ensures var l := In(th, below, Pool.Frame(Pool.EnterMnt, Pool.Remounting, [r]), false);
            && Pool.Step(l, BAD) == Pool.Local(th, below, true)
            && Pool.Step(l, GOOD) == In(th, below, Pool.Frame(Pool.EnterMnt, Pool.Inside, [r]), false)
  {
    hide In;
    Steps(th, below, Pool.Frame(Pool.EnterMnt, Pool.Remounting, [r]), false);
  }

  method LeaveMnt(k: Task, th: Thread, saved: int, ghost l: Pool.Local, ghost below: seq<Pool.Frame>, ghost r: Ref)
    returns (o: Outcome, ghost es: seq<Pool.Event>)
    requires k.Valid() && On(l, th) && th.locks > 0 && saved > 0 && Names(k.fds, saved, r)
    requires l.stack == below + [Pool.Frame(Pool.EnterMnt, Pool.Inside, [r])]
    modifies k`fds, k`faults, th`view
    ensures k.Valid() && Reaches(l, es, th, below, l.panicking || o.Panic?)
  {
    hide Pool.Step, Run;
    o := Transient.LeaveTransientMnt(k, th, saved);
    es := Leaves(l.th, below, Pool.EnterMnt, r, l.panicking, o.Normal?);
    assert l == In(l.th, below, Pool.Frame(Pool.EnterMnt, Pool.Inside, [r]), l.panicking);
  }

  // goInAndOut with these saves.
  function Bracket(pc: Pool.Pc, saves: seq<Ref>): Pool.Frame {
    Pool.Frame(Pool.InAndOut, pc, saves)
  }

  // One round of its loop.
  lemma SwitchesOne(th: Pool.OsThread, below: seq<Pool.Frame>, saves: seq<Ref>, r: Ref)
    ensures var l, held := In(th, below, Bracket(Pool.Saving, saves), false), saves + [Ref(r.typ, th.view.Own(r.typ))];
            var l1 := Pool.Step(l, Pool.Save(r.typ, true));
            && Pool.Step(l, Pool.Save(r.typ, false)) == In(th, below, Bracket(Pool.Unwinding, saves), true)
            && Pool.Step(l, Pool.CallFn) == In(th, below, Bracket(Pool.Inside, saves), false)
            && l1 == In(th, below, Bracket(Pool.Switching, held), false)
            && Pool.Step(l1, BAD) == In(th, below, Bracket(Pool.Unwinding, held), true)
            && Pool.Step(l1, Pool.Sys(true, r.ino)) ==
                 In(th.(view := th.view.Attached(r)), below, Bracket(Pool.Saving, held), false)
  {
    hide In, View.Own, View.Attached;
    var held := saves + [Ref(r.typ, th.view.Own(r.typ))];
    assert Ref(held[|saves|].typ, r.ino) == r;
    Steps(th, below, Bracket(Pool.Saving, saves), false);
    Steps(th, below, Bracket(Pool.Switching, held), false);
    Steps(th.(view := th.view.Attached(r)), below, Bracket(Pool.Switching, held), false);
    Panics(th, below, Bracket(Pool.Unwinding, saves));
    Panics(th, below, Bracket(Pool.Unwinding, held));
  }

  lemma Panics(th: Pool.OsThread, below: seq<Pool.Frame>, f: Pool.Frame)
    ensures In(th, below, f, false).(panicking := true) == In(th, below, f, true)
  {
  }

  lemma {:induction false} SwitchesAll(th: Pool.OsThread, below: seq<Pool.Frame>, marks: seq<Ref>)
    returns (es: seq<Pool.Event>)
    ensures Run(In(th, below, Bracket(Pool.Saving, []), false), es) ==
            In(th.(view := Fold(th.view, marks)), below, Bracket(Pool.Saving, Saves(th.view, marks)), false)
  {
    hide In, Pool.Step, View.Own, View.Attached;
    var l := In(th, below, Bracket(Pool.Saving, []), false);
    es := [];
    if marks != [] {
      var n := |marks| - 1;
      var r := marks[n];
      var init := SwitchesAll(th, below, marks[..n]);
      var th1, saves := th.(view := Fold(th.view, marks[..n])), Saves(th.view, marks[..n]);
      var round := [Pool.Save(r.typ, true), Pool.Sys(true, r.ino)];
      assert marks[..n] + [r] == marks;
      SavesOneMore(th.view, marks[..n], r);
      SwitchesOne(th1, below, saves, r);
      RunTwo(In(th1, below, Bracket(Pool.Saving, saves), false), round[0], round[1]);
      RunAppend(l, init, round);
      es := init + round;
    }
  }

  // Up to the call of fn, or to the failure that prevents it.
  lemma GoesIn(s0: Snap, s1: Snap, saved: seq<int>, marks: seq<Ref>, done: nat, ok: bool, l: Pool.Local)
    returns (es: seq<Pool.Event>)
    requires Begun(s0.(locks := s0.locks + 1), s1, saved, marks, done) && (ok ==> done == |marks|)
    requires l.th == ThreadOf(s0) && l.InUserCode() && !l.panicking
    ensures Run(l, es) ==
            In(ThreadOf(s1), l.stack, Bracket(if ok then Pool.Inside else Pool.Unwinding, Saves(s0.view, marks)), !ok)
  {
    hide In, Pool.Step, View.Own, View.Attached, Fold, Saves, Run;
    var th, th1, b, begin := l.th.(locks := l.th.locks + 1), ThreadOf(s1), l.stack, Pool.Begin(Pool.InAndOut);
    BeginsInAndOut(l);
    RunOne(l, begin);
    var first := marks[..done];
    assert th1 == th.(view := Fold(th.view, first));
    var loop := SwitchesAll(th, b, first);
    RunAppend(l, [begin], loop);
    var l1 := In(th1, b, Bracket(Pool.Saving, Saves(th.view, first)), false);
    var rest;
    if done == |marks| {
      assert first == marks;
      rest := [if ok then Pool.CallFn else Pool.Save(Net, false)];
      SwitchesOne(th1, b, Saves(th.view, first), Ref(Net, 0));
      RunOne(l1, rest[0]);
    } else {
      var r := marks[done];
      assert first + [r] == marks;
      SavesOneMore(th.view, first, r);
      rest := [Pool.Save(r.typ, true), BAD];
      SwitchesOne(th1, b, Saves(th.view, first), r);
      RunTwo(l1, rest[0], rest[1]);
    }
    RunAppend(l, [begin] + loop, rest);
    es := [begin] + loop + rest;
  }

  lemma BeginsInAndOut(l: Pool.Local)
    requires l.InUserCode() && !l.panicking
    ensures Pool.Step(l, Pool.Begin(Pool.InAndOut)) ==
            In(l.th.(locks := l.th.locks + 1), l.stack, Bracket(Pool.Saving, []), false)
  {
  }

  // The last namespace first.
  function Restorings(oks: seq<bool>): seq<Pool.Event> {
    if oks == [] then [] else [Pool.Sys(oks[|oks| - 1], 0)] + Restorings(oks[..|oks| - 1])
  }

  lemma RestoresOne(th: Pool.OsThread, below: seq<Pool.Frame>, pc: Pool.Pc, saves: seq<Ref>, p: bool)
    requires (pc == Pool.Leaving || pc == Pool.Unwinding) && saves != []
    ensures var l, n := In(th, below, Bracket(pc, saves), p), |saves| - 1;
            && Pool.Step(l, GOOD) == In(th.(view := th.view.Attached(saves[n])), below, Bracket(pc, saves[..n]), p)
            && Pool.Step(l, BAD) == if pc == Pool.Leaving then Pool.Local(th, below, true)
                                    else In(th, below, Bracket(pc, saves[..n]), p)
  {
    hide In, View.Attached;
    Steps(th, below, Bracket(pc, saves), p);
    Steps(th.(view := th.view.Attached(saves[|saves| - 1])), below, Bracket(pc, saves), p);
  }

  lemma UndoneWhereStart(v: View, saves: seq<Ref>, oks: seq<bool>)
    requires |oks| <= |saves|
    ensures var m, k, n := |saves| - |oks|, |oks| - 1, |saves| - 1;
            UndoneWhere(v, saves[m..], oks) ==
            if oks == [] then v
            else UndoneWhere(if oks[k] then v.Attached(saves[n]) else v, saves[..n][m..], oks[..k])
  {
    if oks != [] {
      var m, k, n := |saves| - |oks|, |oks| - 1, |saves| - 1;
      assert saves[..n][m..] == saves[m..][..k] && saves[m..][k] == saves[n];
    }
  }

  lemma {:induction false} Restores(th: Pool.OsThread, below: seq<Pool.Frame>, pc: Pool.Pc, saves: seq<Ref>, p: bool,
                                    oks: seq<bool>)
    requires |oks| <= |saves| && (pc == Pool.Leaving || pc == Pool.Unwinding)
    requires pc == Pool.Leaving ==> forall i | 0 <= i < |oks| :: oks[i]
    ensures var n := |saves| - |oks|;
            Run(In(th, below, Bracket(pc, saves), p), Restorings(oks)) ==
            In(th.(view := UndoneWhere(th.view, saves[n..], oks)), below, Bracket(pc, saves[..n]), p)
    decreases oks
  {
    hide In, Run, Restorings, Pool.Step, View.Attached, UndoneWhere;
    var l := In(th, below, Bracket(pc, saves), p);
    UndoneWhereStart(th.view, saves, oks);
    if oks == [] {
      assert saves[..|saves|] == saves;
      RestoringsStart(oks);
      RunNone(l);
    } else {
      var m, k, n := |saves| - |oks|, |oks| - 1, |saves| - 1;
      var v := if oks[k] then th.view.Attached(saves[n]) else th.view;
      RestoresOne(th, below, pc, saves, p);
      Restores(th.(view := v), below, pc, saves[..n], p, oks[..k]);
      assert saves[..n][..m] == saves[..m];
      RestoringsStart(oks);
      RunOne(l, Pool.Sys(oks[k], 0));
      RunAppend(l, [Pool.Sys(oks[k], 0)], Restorings(oks[..k]));
    }
  }

  lemma RestoringsStart(oks: seq<bool>)
    ensures oks == [] ==> Restorings(oks) == []
    ensures oks != [] ==> Restorings(oks) == [Pool.Sys(oks[|oks| - 1], 0)] + Restorings(oks[..|oks| - 1])
  {
  }

  // From the end of fn, or the failure before it, to the end of goInAndOut: how its panicking says.
  lemma GoesOut(s: Snap, s': Snap, below: seq<Pool.Frame>, called: bool, saved: seq<int>, saves: seq<Ref>, p: bool,
                restored: bool, oks: seq<bool>)
    returns (es: seq<Pool.Event>)
    requires Finished(s, s', saved, saves, restored, !p && restored) && Tried(saves, p, restored, oks)
    requires s'.view == UndoneWhere(s.view, saves[|saves| - |oks|..], oks) && s.locks > 0 && (!called ==> p)
    ensures Run(In(ThreadOf(s), below, Bracket(if called then Pool.Inside else Pool.Unwinding, saves), p), es) ==
            Pool.Local(ThreadOf(s'), below, p || !restored)
  {
    hide In, Pool.Step, Run, UndoneWhere, Misses;
    var th, pc := ThreadOf(s), if p then Pool.Unwinding else Pool.Leaving;
    var l := In(th, below, Bracket(pc, saves), p);
    var out := RestoresAndEnds(th, ThreadOf(s'), below, pc, saves, p, restored, oks);
    if called {
      var l0 := In(th, below, Bracket(Pool.Inside, saves), p);
      EndsCallback(th, below, saves, p);
      RunOne(l0, Pool.End);
      RunAppend(l0, [Pool.End], out);
      es := [Pool.End] + out;
    } else {
      es := out;
    }
  }

  lemma EndsCallback(th: Pool.OsThread, below: seq<Pool.Frame>, saves: seq<Ref>, p: bool)
    ensures Pool.Step(In(th, below, Bracket(Pool.Inside, saves), p), Pool.End) ==
            In(th, below, Bracket(if p then Pool.Unwinding else Pool.Leaving, saves), p)
  {
    hide In;
    Steps(th, below, Bracket(Pool.Inside, saves), p);
  }

  lemma RestoresAndEnds(th: Pool.OsThread, th': Pool.OsThread, below: seq<Pool.Frame>, pc: Pool.Pc, saves: seq<Ref>,
                        p: bool, restored: bool, oks: seq<bool>)
    returns (es: seq<Pool.Event>)
    requires Tried(saves, p, restored, oks) && th.locks > 0 && pc == if p then Pool.Unwinding else Pool.Leaving
    requires th' == th.(view := UndoneWhere(th.view, saves[|saves| - |oks|..], oks),
                        locks := if !p && restored then th.locks - 1 else th.locks)
    ensures Run(In(th, below, Bracket(pc, saves), p), es) == Pool.Local(th', below, p || !restored)
  {
    hide In, Pool.Step, Run, UndoneWhere, Misses;
    var l, n := In(th, below, Bracket(pc, saves), p), |saves| - |oks|;
    if p || restored {
      if !p { MissesNone(oks); }
      var th1 := th.(view := UndoneWhere(th.view, saves, oks));
      assert saves[0..] == saves && saves[..0] == [];
      Restores(th, below, pc, saves, p, oks);
      EndsBracket(th1, below, pc, p);
      RunOne(In(th1, below, Bracket(pc, []), p), GOOD);
      RunAppend(l, Restorings(oks), [GOOD]);
      es := Restorings(oks) + [GOOD];
    } else {
      OneMiss(saves, oks);
      assert oks == [false] + oks[1..];
      UndoneWhereAppend(th.view, saves, oks[1..], n + 1, false);
      var th1 := th.(view := UndoneWhere(th.view, saves[n + 1..], oks[1..]));
      Restores(th, below, pc, saves, p, oks[1..]);
      RestoresOne(th1, below, pc, saves[..n + 1], p);
      RunOne(In(th1, below, Bracket(pc, saves[..n + 1]), p), BAD);
      RunAppend(l, Restorings(oks[1..]), [BAD]);
      es := Restorings(oks[1..]) + [BAD];
    }
  }

  lemma OneMiss(saves: seq<Ref>, oks: seq<bool>)
    requires Tried(saves, false, false, oks)
    ensures oks != [] && !oks[0]
    ensures forall i | 0 <= i < |oks[1..]| :: oks[1..][i]
  {
    MissesNone(oks[1..]);
  }

  lemma EndsBracket(th: Pool.OsThread, below: seq<Pool.Frame>, pc: Pool.Pc, p: bool)
    requires pc == (if p then Pool.Unwinding else Pool.Leaving) && th.locks > 0
    ensures Pool.Step(In(th, below, Bracket(pc, []), p), GOOD) ==
            Pool.Local(if p then th else th.(locks := th.locks - 1), below, p)
  {
    hide In;
    Steps(th, below, Bracket(pc, []), p);
  }

  /** goInAndOut as a whole, from the contracts of its parts: if what fn does is a run of the pool's
      goroutine, then so is the call, and it ends with what the parts have made of the thread. */
  lemma InAndOut(l: Pool.Local, s0: Snap, s1: Snap, s2: Snap, s3: Snap, ok: bool, p: bool, saved: seq<int>,
                 marks: seq<Ref>, done: nat, restored: bool, oks: seq<bool>, body: seq<Pool.Event>)
    returns (es: seq<Pool.Event>)
    requires l.th == ThreadOf(s0) && l.InUserCode() && !l.panicking
    requires Begun(s0.(locks := s0.locks + 1), s1, saved, marks, done) && (ok ==> done == |marks|)
    requires var f := Bracket(Pool.Inside, Saves(s0.view, marks));
             if ok then Run(In(ThreadOf(s1), l.stack, f, false), body) == In(ThreadOf(s2), l.stack, f, p)
             else s2 == s1 && p
    requires Finished(s2, s3, saved, Saves(s0.view, marks), restored, !p && restored) && s2.locks > 0
    requires Tried(Saves(s0.view, marks), p, restored, oks)
    requires s3.view == UndoneWhere(s2.view, Saves(s0.view, marks)[|marks| - |oks|..], oks)
    ensures Run(l, es) == Pool.Local(ThreadOf(s3), l.stack, p || !restored)
  {
    hide In, Run, Saves, Begun, Finished, Tried, UndoneWhere;
    var saves := Saves(s0.view, marks);
    var before := GoesIn(s0, s1, saved, marks, done, ok, l);
    var after := GoesOut(s2, s3, l.stack, ok, saved, saves, p, restored, oks);
    var middle := if ok then body else [];
    RunNone(Run(l, before));
    RunAppend(l, before, middle);
    RunAppend(l, before + middle, after);
    es := before + middle + after;
  }

  lemma RunNone(l: Pool.Local)
    ensures Run(l, []) == l
  {
  }

  // What a goroutine that never unlocks its thread leaves behind.
  predicate Stranded(l: Pool.Local, es: seq<Pool.Event>, th: Pool.OsThread, panicking: bool) {
    && Run(l, es) == Pool.Local(th, l.stack, panicking)
    && (|l.stack| <= l.th.locks ==> |l.stack| < th.locks)
  }

  lemma WorkerSteps(th: Pool.OsThread, below: seq<Pool.Frame>, v: View, private: bool)
    ensures var f, th' := Pool.Frame(Pool.Worker, Pool.Opening, []), th.(view := v, fsPrivate := private);
            var l := In(th, below, f, false);
            && Pool.Step(l, Pool.SetUp(v, private)) == In(th', below, f, false)
            && Pool.Step(l, Pool.CallFn) == In(th, below, f.(pc := Pool.Inside), false)
            && Pool.Step(l, BAD) == Pool.Local(th, below, true)
            && Pool.Step(In(th, below, f.(pc := Pool.Inside), false), Pool.End) == Pool.Local(th, below, false)
  {
    hide In;
    Steps(th, below, Pool.Frame(Pool.Worker, Pool.Opening, []), false);
    Steps(th, below, Pool.Frame(Pool.Worker, Pool.Inside, []), false);
  }

  lemma BeginsWorker(l: Pool.Local)
    requires l.InUserCode() && !l.panicking
    ensures Pool.Step(l, Pool.Begin(Pool.Worker)) ==
            In(l.th.(locks := l.th.locks + 1), l.stack, Pool.Frame(Pool.Worker, Pool.Opening, []), false)
  {
  }

  // In a worker's function, each lock that it leaves behind is as good as a worker's own.
  lemma {:induction false} LeavesLocks(l: Pool.Local, n: nat) returns (es: seq<Pool.Event>)
    requires l.InUserCode() && !l.panicking
    ensures Run(l, es) == l.(th := l.th.(locks := l.th.locks + n))
  {
    hide In, Pool.Step;
    es := [];
    if n > 0 {
      var first := LeavesLocks(l, n - 1);
      var l1, last := Run(l, first), [Pool.Begin(Pool.Worker), Pool.CallFn, Pool.End];
      BeginsWorker(l1);
      WorkerSteps(l.th.(locks := l.th.locks + n), l.stack, l.th.view, false);
      RunThree(l1, last[0], last[1], last[2]);
      RunAppend(l, first, last);
      es := first + last;
    }
  }

  // A worker sets up its thread, and calls its function unless that has failed.
  lemma Strands(l: Pool.Local, v: View, private: bool, more: nat, called: bool) returns (es: seq<Pool.Event>)
    requires l.InUserCode() && !l.panicking && (!called ==> more == 0)
    ensures Stranded(l, es, Pool.OsThread(v, l.th.locks + 1 + more, private), !called)
  {
    hide In, Pool.Step, Run;
    var th, f := Pool.OsThread(v, l.th.locks + 1, private), Pool.Frame(Pool.Worker, Pool.Opening, []);
    var setUp := [Pool.Begin(Pool.Worker), Pool.SetUp(v, private)];
    BeginsWorker(l);
    WorkerSteps(l.th.(locks := l.th.locks + 1), l.stack, v, private);
    RunTwo(l, setUp[0], setUp[1]);
    WorkerSteps(th, l.stack, v, private);
    var l1 := In(th, l.stack, f, false);
    if !called {
      RunOne(l1, BAD);
      RunAppend(l, setUp, [BAD]);
      es := setUp + [BAD];
    } else {
      var l2 := In(th, l.stack, f.(pc := Pool.Inside), false);
      UserCode(th, l.stack, f.(pc := Pool.Inside));
      var body := LeavesLocks(l2, more);
      var l3 := In(th.(locks := th.locks + more), l.stack, f.(pc := Pool.Inside), false);
      Steps(th, l.stack, f.(pc := Pool.Inside), false);
      WorkerSteps(th.(locks := th.locks + more), l.stack, v, private);
      RunOne(l1, Pool.CallFn);
      RunOne(l3, Pool.End);
      RunAppend(l, setUp, [Pool.CallFn]);
      RunAppend(l, setUp + [Pool.CallFn], body);
      RunAppend(l, setUp + [Pool.CallFn] + body, [Pool.End]);
      es := setUp + [Pool.CallFn] + body + [Pool.End];
    }
  }

  lemma UserCode(th: Pool.OsThread, below: seq<Pool.Frame>, f: Pool.Frame)
    requires f.pc == Pool.Inside
    ensures In(th, below, f, false).InUserCode() && !In(th, below, f, false).panicking
  {
  }

  /** The goroutine of goSeparate, whatever its function does: it makes some run of the pool's worker and
      ends on a thread that is still locked. */
  method Worker(k: Task, worker: Thread, mntnsfd: int, nsfds: seq<int>, picked: seq<int>, body: Prog,
                ghost s0: Snap, ghost l: Pool.Local)
    returns (o: Outcome, seen: seq<View>, ghost es: seq<Pool.Event>)
    requires k.Valid() && Opened(s0.fds, k.fds, picked) && 0 !in picked && (forall fd | fd in s0.fds :: 0 <= fd)
    requires k.cleanups == s0.cleanups + picked && k.faults >= s0.faults
    requires k.nextIno == s0.ino && k.secluded == s0.secluded
    requires AllNamespaces(s0.fds, nsfds) ==> Holding(k.fds, picked, Routes.Pickups(s0.view, RefsOf(s0.fds, nsfds)))
    requires On(l, worker) && l.InUserCode() && !l.panicking
    modifies k, worker
    ensures k.Valid() && Stranded(l, es, OsThreadOf(worker), seen == [])
  {
    hide Stranded, Balanced, SeenSeparately, Called, Raises, Recovers, Holding, RefsOf;
    var ledger; ghost var t;
    o, ledger, seen, t := Execution.Worker(k, worker, mntnsfd, nsfds, picked, body, s0);
    AtMostOnce(body, Between(s0, Aside(s0, k)), o, seen, t);
    es := Strands(l, worker.view, worker.fsPrivate, worker.locks - l.th.locks - 1, seen != []);
  }

  /** Its caller waits for it on a locked thread, and goes on with that as it was. */
  method Separate(k: Task, th: Thread, mntnsfd: int, nsfds: seq<int>, body: Prog, ghost l: Pool.Local)
    returns (o: Outcome, ghost es: seq<Pool.Event>)
    requires k.Valid() && On(l, th) && l.InUserCode() && !l.panicking
    modifies k, th
    ensures k.Valid() && Reaches(l, es, th, l.stack, o.Panic?)
  {
    hide Pool.Step, Run, SeenSeparately, Called, Raises, Recovers;
    var ledger, seen, worker0; ghost var t, worker;
    o, ledger, seen, t, worker0, worker := GoSeparate(k, th, mntnsfd, nsfds, body);
    es := [Pool.Begin(Pool.Separate), Pool.Joined(o.Panic?)];
    Joins(l, o.Panic?);
    RunTwo(l, es[0], es[1]);
  }

  lemma Joins(l: Pool.Local, panicked: bool)
    requires l.InUserCode() && !l.panicking
    ensures Pool.Step(Pool.Step(l, Pool.Begin(Pool.Separate)), Pool.Joined(panicked)) ==
            Pool.Local(l.th, l.stack, panicked)
  {
    var th, f := l.th.(locks := l.th.locks + 1), Pool.Frame(Pool.Separate, Pool.Unlocking, []);
    assert Pool.Step(l, Pool.Begin(Pool.Separate)) == In(th, l.stack, f, false);
    Steps(th, l.stack, f, false);
  }

  /** So do the idler of mntns.NewTransient, up to handing over its mount namespace, */
  method Idler(k: Task, idler: Thread, ghost l: Pool.Local) returns (fd: int, ghost es: seq<Pool.Event>)
    requires k.Valid() && On(l, idler) && l.InUserCode() && !l.panicking
    modifies k`fds, k`faults, k`nextIno, k`cleanups, k`secluded, idler
    ensures k.Valid() && Stranded(l, es, OsThreadOf(idler), fd == 0)
  {
    hide Stranded;
    fd := Transient.SetUpIdler(k, idler);
    es := Strands(l, idler.view, idler.fsPrivate, 0, fd != 0);
  }

  /** and the goroutine of newNamespace. */
  method NewNamespace(k: Task, th: Thread, typ: NsType, ghost l: Pool.Local)
    returns (fd: int, err: string, ghost es: seq<Pool.Event>)
    requires k.Valid() && typ != User && typ != Pid && On(l, th) && l.InUserCode() && !l.panicking
    modifies k`fds, k`faults, k`nextIno, k`secluded, th
    ensures k.Valid() && Stranded(l, es, OsThreadOf(th), fd == 0)
  {
    hide Stranded;
    fd, err := Rooms.NewNamespace(k, th, typ);
    es := Strands(l, th.view, th.fsPrivate, 0, fd != 0);
  }
}
