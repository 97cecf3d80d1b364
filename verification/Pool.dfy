/** Any number of goroutines running the thread-switching calls, interleaved at every system call,
    and the Go scheduler moving goroutines between OS-level threads whenever they are not locked. */
module Pool {
  import opened Namespaces
  import opened Transient

  datatype OsThread = OsThread(view: View, locks: nat, fsPrivate: bool)

  // How far an API call has come: before which system call it is, or inside the caller's code.
  datatype Pc = Opening | Unsharing | Remounting | Reopening | Saving | Switching
              | Inside | Leaving | Unwinding | Unlocking

  datatype Call =
    | Enter(typ: NsType)
    | EnterMnt
    | Create(typ: NsType)
    | InAndOut          // goInAndOut
    | Separate          // goSeparate, waiting for its worker
    | Worker            // a throw-away goroutine: goSeparate's, mntns.NewTransient's, newNamespace's

  // An API call in progress, with the namespaces it has yet to restore.
  datatype Frame = Frame(call: Call, pc: Pc, saves: seq<Ref>)
  {
    // Whether the call will release its lock if nothing fails from here on.
    predicate WillUnlock() {
      && !call.EnterMnt? && !call.Worker?
      && pc != Unwinding
    }

    predicate WellFormed() {
      match call
      case Enter(t) => && t in ENTERABLE && pc in {Opening, Unsharing, Inside, Leaving, Unlocking}
                       && (if pc in {Opening, Unlocking} then saves == [] else Types(saves) == [t])
      case Create(t) => && t in CREATABLE && pc in {Opening, Unsharing, Reopening, Leaving, Unlocking}
                        && (if pc in {Opening, Unlocking} then saves == [] else Types(saves) == [t])
      case InAndOut => && pc in {Saving, Switching, Inside, Leaving, Unwinding}
                       && (pc == Switching ==> saves != [])
      case EnterMnt => && pc in {Opening, Unsharing, Remounting, Inside, Leaving}
                       && (pc != Opening ==> Types(saves) == [Mnt])
      case Separate => pc == Unlocking && saves == []
      case Worker => saves == []
    }
  }

  // A goroutine together with the thread it is running on.
  datatype Local = Local(th: OsThread, stack: seq<Frame>, panicking: bool)
  {
    function Top(): Frame
      requires stack != []
    {
      stack[|stack| - 1]
    }

    predicate InUserCode() {
      stack == [] || Top().pc == Inside
    }

    function At(f: Frame): Local
      requires stack != []
    {
      this.(stack := stack[..|stack| - 1] + [f])
    }

    function View(v: View): Local {
      this.(th := th.(view := v))
    }

    // The call locks the thread first.
    function Push(c: Call, pc: Pc): Local {
      this.(th := th.(locks := th.locks + 1), stack := stack + [Frame(c, pc, [])])
    }

    // The call ends without unlocking.
    function Drop(panics: bool): Local
      requires stack != []
    {
      this.(stack := stack[..|stack| - 1], panicking := panics)
    }

    function Unlock(): Local
      requires stack != []
    {
      Drop(panicking).(th := th.(locks := if th.locks > 0 then th.locks - 1 else 0))
    }
  }

  // What happens next. The scheduler, the kernel and the caller's code choose freely.
  datatype Event =
    | Begin(call: Call)                 // user code makes this call
    | Raise                             // user code panics
    | Recover                           // user code recovers from a panic
    | End                               // user code inside a call ends, or unwinds
    | Sys(ok: bool, ino: Ino)           // the next system call of the call in progress
    | Save(typ: NsType, ok: bool)       // goInAndOut opens the thread's namespace of this type
    | CallFn                            // all is set up: user code runs
    | SetUp(view: View, private: bool)  // a throw-away goroutine changes its own thread
    | Joined(panicked: bool)            // goSeparate has received its worker's result

  function Step(l: Local, e: Event): Local {
    if l.InUserCode() then
      match e
      case Begin(c) => if l.panicking then l else Called(l, c)
      case Raise => l.(panicking := true)
      case Recover => l.(panicking := false)
      case End => if l.stack == [] then l else Ended(l)
      case _ => l
    else
      match l.Top().call
      case Enter(t) => EnterStep(l, t, e)
      case Create(t) => CreateStep(l, t, e)
      case InAndOut => InAndOutStep(l, e)
      case EnterMnt => EnterMntStep(l, e)
      case Separate => if e.Joined? then l.Unlock().(panicking := e.panicked) else l
      case Worker => WorkerStep(l, e)
  }

  function Called(l: Local, c: Call): Local {
    match c
    case Enter(t) => if t in ENTERABLE then l.Push(c, Opening) else l.(panicking := true)
    case Create(t) => if t in CREATABLE then l.Push(c, Opening) else l.(panicking := true)
    case EnterMnt => l.Push(c, Opening)
    case InAndOut => l.Push(c, Saving)
    case Separate => l.Push(c, Unlocking)
    case Worker => l.Push(c, Opening)
  }

  function Ended(l: Local): Local
    requires l.stack != []
  {
    var f := l.Top();
    match f.call
    case InAndOut => l.At(f.(pc := if l.panicking then Unwinding else Leaving))
    case Worker => l.Drop(l.panicking)
    case _ => l.At(f.(pc := Leaving))
  }

  // The next system call succeeds with this result, or the call fails and panics.
  function Try(l: Local, e: Event, next: Local): Local
    requires l.stack != []
  {
    if !e.Sys? then l else if e.ok then next else l.Drop(true)
  }

  // Reattaching to the namespace saved last.
  function Reattached(l: Local, pc: Pc): Local
    requires l.stack != []
  {
    var f := l.Top();
    if f.saves == [] then l
    else l.View(l.th.view.Attached(f.saves[|f.saves| - 1])).At(f.(pc := pc, saves := f.saves[..|f.saves| - 1]))
  }

  function EnterStep(l: Local, t: NsType, e: Event): Local
    requires l.stack != []
  {
    var f := l.Top();
    match f.pc
    case Opening => Try(l, e, l.At(f.(pc := Unsharing, saves := [Ref(t, l.th.view.Own(t))])))
    case Unsharing =>
      if e.Sys? && t == Pid && l.th.view.pidForChildren != l.th.view.pid then l.Drop(true)
      else Try(l, e, l.View(l.th.view.Unshared(t, if e.Sys? then e.ino else 0)).At(f.(pc := Inside)))
    case Leaving => Try(l, e, Reattached(l, Unlocking))
    case _ => l.Unlock()
  }

  function CreateStep(l: Local, t: NsType, e: Event): Local
    requires l.stack != []
  {
    var f := l.Top();
    match f.pc
    case Opening => Try(l, e, l.At(f.(pc := Unsharing, saves := [Ref(t, l.th.view.Own(t))])))
    case Unsharing => Try(l, e, l.View(l.th.view.Unshared(t, if e.Sys? then e.ino else 0)).At(f.(pc := Reopening)))
    case Reopening => Try(l, e, l.At(f.(pc := Leaving)))
    case Leaving => Try(l, e, Reattached(l, Unlocking))
    case _ => l.Unlock()
  }

  function EnterMntStep(l: Local, e: Event): Local
    requires l.stack != []
  {
    var f := l.Top();
    match f.pc
    case Opening => Try(l, e, l.At(f.(pc := Unsharing, saves := [Ref(Mnt, l.th.view.mnt)])))
    case Unsharing =>
      var v := l.th.view.Unshared(Mnt, if e.Sys? then e.ino else 0);
      Try(l, e, l.(th := l.th.(view := v, fsPrivate := true)).At(f.(pc := Remounting)))
    case Remounting => Try(l, e, l.At(f.(pc := Inside)))
    case _ => Try(l, e, Reattached(l, Leaving).Drop(l.panicking))
  }

  function InAndOutStep(l: Local, e: Event): Local
    requires l.stack != []
  {
    var f := l.Top();
    var n := |f.saves|;
    match f.pc
    case Saving =>
      if e.CallFn? then l.At(f.(pc := Inside))
      else if !e.Save? then l
      else if !e.ok then l.At(f.(pc := Unwinding)).(panicking := true)
      else l.At(f.(pc := Switching, saves := f.saves + [Ref(e.typ, l.th.view.Own(e.typ))]))
    case Switching =>
      if !e.Sys? || n == 0 then l
      else if !e.ok then l.At(f.(pc := Unwinding)).(panicking := true)
      else l.View(l.th.view.Attached(Ref(f.saves[n - 1].typ, e.ino))).At(f.(pc := Saving))
    case Leaving => if n == 0 then l.Unlock() else Try(l, e, Reattached(l, Leaving))
    case _ =>
      if n == 0 then l.Drop(true)
      else if !e.Sys? then l
      else if e.ok then Reattached(l, Unwinding)
      else l.At(f.(saves := f.saves[..n - 1]))
  }

  function WorkerStep(l: Local, e: Event): Local
    requires l.stack != []
  {
    match e
    case SetUp(v, private) => l.(th := l.th.(view := v, fsPrivate := private))
    case CallFn => l.At(l.Top().(pc := Inside))
    case Sys(ok, _) => if ok then l else l.Drop(true)
    case _ => l
  }

  function AllSaves(stack: seq<Frame>): seq<Ref> {
    if stack == [] then [] else AllSaves(stack[..|stack| - 1]) + stack[|stack| - 1].saves
  }

  /** Each call in progress holds a lock. And if it is only these calls that hold locks, and all of
      them will release theirs, then restoring what they saved leads home. */
  predicate Inv(l: Local, home: View) {
    && (forall i | 0 <= i < |l.stack| :: l.stack[i].WellFormed())
    && |l.stack| <= l.th.locks
    && (|l.stack| == l.th.locks && (forall i | 0 <= i < |l.stack| :: l.stack[i].WillUnlock()) ==>
          Undone(l.th.view, AllSaves(l.stack)) == home && !l.th.fsPrivate)
  }

  lemma TopIsWellFormed(l: Local, home: View)
    requires Inv(l, home) && l.stack != []
    ensures l.Top().WellFormed() && |l.stack| <= l.th.locks
  {
  }

  // Replacing the top frame and the view keeps Inv if undoing the new saves leads where undoing the
  // old ones led, up to children slots.
  lemma TopReplaced(l: Local, l': Local, home: View, f: Frame, v: View)
    requires Inv(l, home) && home.Settled() && l.stack != []
    requires l'.stack == l.At(f).stack && l'.th.view == v && l'.th.locks == l.th.locks && f.WellFormed()
    requires f.WillUnlock() ==> l.Top().WillUnlock() && l'.th.fsPrivate == l.th.fsPrivate
    requires f.WillUnlock() ==> Back(Undone(l.th.view, l.Top().saves), Undone(v, f.saves))
    ensures Inv(l', home)
  {
    var n := |l.stack| - 1;
    var below := l.stack[..n];
    assert l'.stack[..n] == below && l'.stack[n] == f;
    if |l'.stack| == l'.th.locks && forall i | 0 <= i < |l'.stack| :: l'.stack[i].WillUnlock() {
      forall i | 0 <= i < |l.stack| ensures l.stack[i].WillUnlock() {
        if i < n { assert l.stack[i] == l'.stack[i]; }
      }
      UndoneConcat(l.th.view, AllSaves(below), l.Top().saves);
      UndoneConcat(v, AllSaves(below), f.saves);
      UndoneKeepsBack(Undone(l.th.view, l.Top().saves), Undone(v, f.saves), AllSaves(below));
      BackOfSettled(home, Undone(v, AllSaves(l'.stack)));
    }
  }

  lemma {:induction false} UndoneConcat(v: View, a: seq<Ref>, b: seq<Ref>)
    ensures Undone(v, a + b) == Undone(Undone(v, b), a)
    decreases b
  {
    if b == [] {
      assert a + b == a;
    } else {
      assert (a + b)[..|a + b| - 1] == a + b[..|b| - 1];
      UndoneConcat(v.Attached(b[|b| - 1]), a, b[..|b| - 1]);
    }
  }

  // Undoing a save on its own, and undoing one after another change of the same type.
  lemma UndoneOne(v: View, r: Ref)
    ensures Undone(v, [r]) == v.Attached(r)
    ensures Undone(v, []) == v
  {
    assert [r][..0] == [];
  }

  lemma UndoneLast(v: View, saves: seq<Ref>)
    requires saves != []
    ensures Undone(v, saves) == Undone(v.Attached(saves[|saves| - 1]), saves[..|saves| - 1])
  {
  }

  // A call that ends without unlocking leaves a thread that will never be unlocked.
  lemma Dropped(l: Local, l': Local, home: View)
    requires Inv(l, home) && l.stack != []
    requires l'.stack == l.stack[..|l.stack| - 1] && l'.th.locks == l.th.locks
    ensures Inv(l', home)
  {
  }

  lemma Unlocked(l: Local, home: View)
    requires Inv(l, home) && l.stack != [] && l.Top().WillUnlock() && l.Top().saves == []
    ensures Inv(l.Unlock(), home) && forall b :: Inv(l.Unlock().(panicking := b), home)
  {
    hide Undone, Frame.WellFormed, Frame.WillUnlock;
    var l', n := l.Unlock(), |l.stack| - 1;
    SavesBelow(l);
    assert forall i | 0 <= i < n :: l.stack[i] == l'.stack[i];
    if forall i | 0 <= i < n :: l'.stack[i].WillUnlock() {
      assert forall i | 0 <= i < |l.stack| :: l.stack[i].WillUnlock();
    }
    forall b: bool ensures Inv(l'.(panicking := b), home) {
      PanicIgnored(l', b, home);
    }
  }

  lemma SavesBelow(l: Local)
    requires l.stack != [] && l.Top().saves == []
    ensures AllSaves(l.Unlock().stack) == AllSaves(l.stack)
  {
  }

  lemma PanicIgnored(l: Local, b: bool, home: View)
    requires Inv(l, home)
    ensures Inv(l.(panicking := b), home)
  {
  }

  lemma Pushed(l: Local, c: Call, pc: Pc, home: View)
    requires Inv(l, home) && Frame(c, pc, []).WellFormed()
    ensures Inv(l.Push(c, pc), home)
  {
    var l' := l.Push(c, pc);
    assert l'.stack[..|l.stack|] == l.stack;
    assert AllSaves(l'.stack) == AllSaves(l.stack);
    if |l'.stack| == l'.th.locks && forall i | 0 <= i < |l'.stack| :: l'.stack[i].WillUnlock() {
      forall i | 0 <= i < |l.stack| ensures l.stack[i].WillUnlock() {
        assert l.stack[i] == l'.stack[i];
      }
    }
  }

  lemma ReattachedKeeps(l: Local, pc: Pc, home: View)
    requires Inv(l, home) && home.Settled() && l.stack != [] && l.Top().saves != []
    requires var f := l.Top().(pc := pc, saves := l.Top().saves[..|l.Top().saves| - 1]);
             f.WellFormed() && (f.WillUnlock() ==> l.Top().WillUnlock())
    ensures Inv(Reattached(l, pc), home)
  {
    var f := l.Top();
    var r := f.saves[|f.saves| - 1];
    UndoneLast(l.th.view, f.saves);
    TopReplaced(l, Reattached(l, pc), home, f.(pc := pc, saves := f.saves[..|f.saves| - 1]), l.th.view.Attached(r));
  }

  lemma EnterKeeps(l: Local, t: NsType, e: Event, home: View)
    requires Inv(l, home) && home.Settled() && l.stack != [] && l.Top().call == Enter(t) && l.Top().pc != Inside
    ensures Inv(EnterStep(l, t, e), home)
  {
    hide Inv;
    var l' := EnterStep(l, t, e);
    var f := l.Top();
    TopIsWellFormed(l, home);
    if f.pc == Unlocking {
      Unlocked(l, home);
    } else if e.Sys? && l'.stack == l.stack[..|l.stack| - 1] {
      Dropped(l, l', home);
    } else if e.Sys? {
      if f.pc == Opening {
        var r := Ref(t, l.th.view.Own(t));
        UndoneOne(l.th.view, r);
        TopReplaced(l, l', home, f.(pc := Unsharing, saves := [r]), l.th.view);
      } else if f.pc == Unsharing {
        var v := l.th.view.Unshared(t, e.ino);
        assert Types(f.saves)[0] == f.saves[0].typ && f.saves == [f.saves[0]];
        UndoneOne(l.th.view, f.saves[0]);
        UndoneOne(v, f.saves[0]);
        TopReplaced(l, l', home, f.(pc := Inside), v);
      } else {
        ReattachedKeeps(l, Unlocking, home);
      }
    }
  }

  lemma CreateKeeps(l: Local, t: NsType, e: Event, home: View)
    requires Inv(l, home) && home.Settled() && l.stack != [] && l.Top().call == Create(t)
    ensures Inv(CreateStep(l, t, e), home)
  {
    hide Inv;
    var l' := CreateStep(l, t, e);
    var f := l.Top();
    TopIsWellFormed(l, home);
    if f.pc == Unlocking {
      Unlocked(l, home);
    } else if e.Sys? && !e.ok {
      Dropped(l, l', home);
    } else if e.Sys? {
      if f.pc == Opening {
        var r := Ref(t, l.th.view.Own(t));
        UndoneOne(l.th.view, r);
        TopReplaced(l, l', home, f.(pc := Unsharing, saves := [r]), l.th.view);
      } else if f.pc == Unsharing {
        var v := l.th.view.Unshared(t, e.ino);
        assert Types(f.saves)[0] == f.saves[0].typ && f.saves == [f.saves[0]];
        UndoneOne(l.th.view, f.saves[0]);
        UndoneOne(v, f.saves[0]);
        TopReplaced(l, l', home, f.(pc := Reopening), v);
      } else if f.pc == Reopening {
        TopReplaced(l, l', home, f.(pc := Leaving), l.th.view);
      } else {
        ReattachedKeeps(l, Unlocking, home);
      }
    }
  }

  lemma EnterMntKeeps(l: Local, e: Event, home: View)
    requires Inv(l, home) && home.Settled() && l.stack != [] && l.Top().call == EnterMnt && l.Top().pc != Inside
    ensures Inv(EnterMntStep(l, e), home)
  {
    var l' := EnterMntStep(l, e);
    var f := l.Top();
    assert f.WellFormed();
    if e.Sys? && l'.stack == l.stack[..|l.stack| - 1] {
      Dropped(l, l', home);
    } else if e.Sys? {
      var g := l'.Top();
      assert Types([Ref(Mnt, l.th.view.mnt)]) == [Mnt];
      TopReplaced(l, l', home, g, l'.th.view);
    }
  }

  lemma SavingKeeps(l: Local, e: Event, home: View)
    requires Inv(l, home) && home.Settled() && l.stack != [] && l.Top().call == InAndOut && l.Top().pc == Saving
    ensures Inv(InAndOutStep(l, e), home)
  {
    var l', f, v := InAndOutStep(l, e), l.Top(), l.th.view;
    if e.Save? && e.ok {
      var r := Ref(e.typ, v.Own(e.typ));
      UndoneLast(v, f.saves + [r]);
      assert (f.saves + [r])[..|f.saves|] == f.saves;
      UndoneKeepsBack(v, v.Attached(r), f.saves);
      TopReplaced(l, l', home, f.(pc := Switching, saves := f.saves + [r]), v);
    } else if e.Save? {
      TopReplaced(l, l', home, f.(pc := Unwinding), v);
    } else if e.CallFn? {
      TopReplaced(l, l', home, f.(pc := Inside), v);
    }
  }

  lemma SwitchingKeeps(l: Local, e: Event, home: View)
    requires Inv(l, home) && home.Settled() && l.stack != [] && l.Top().call == InAndOut && l.Top().pc == Switching
    ensures Inv(InAndOutStep(l, e), home)
  {
    var l', f := InAndOutStep(l, e), l.Top();
    if e.Sys? && f.saves != [] {
      if e.ok {
        var v := l.th.view.Attached(Ref(f.saves[|f.saves| - 1].typ, e.ino));
        UndoneLast(l.th.view, f.saves);
        UndoneLast(v, f.saves);
        TopReplaced(l, l', home, f.(pc := Saving), v);
      } else {
        TopReplaced(l, l', home, f.(pc := Unwinding), l.th.view);
      }
    }
  }

  lemma InAndOutKeeps(l: Local, e: Event, home: View)
    requires Inv(l, home) && home.Settled() && l.stack != [] && l.Top().call == InAndOut && l.Top().pc != Inside
    ensures Inv(InAndOutStep(l, e), home)
  {
    hide Inv;
    var l', f := InAndOutStep(l, e), l.Top();
    TopIsWellFormed(l, home);
    if f.pc == Saving {
      SavingKeeps(l, e, home);
    } else if f.pc == Switching {
      SwitchingKeeps(l, e, home);
    } else if f.saves == [] {
      if f.pc == Leaving { Unlocked(l, home); } else { Dropped(l, l', home); }
    } else if e.Sys? {
      if e.ok {
        ReattachedKeeps(l, f.pc, home);
      } else if f.pc == Leaving {
        Dropped(l, l', home);
      } else {
        TopReplaced(l, l', home, f.(saves := f.saves[..|f.saves| - 1]), l.th.view);
      }
    }
  }

  lemma WorkerKeeps(l: Local, e: Event, home: View)
    requires Inv(l, home) && home.Settled() && l.stack != [] && l.Top().call == Worker
    ensures Inv(WorkerStep(l, e), home)
  {
    var l' := WorkerStep(l, e);
    assert l.Top().WellFormed();
    match e
    case SetUp(v, private) => assert l'.stack == l.At(l.Top()).stack; TopReplaced(l, l', home, l.Top(), v);
    case CallFn => TopReplaced(l, l', home, l.Top().(pc := Inside), l.th.view);
    case Sys(ok, _) => if !ok { Dropped(l, l', home); }
    case _ =>
  }

  // Every step that a goroutine can make on its thread keeps the invariant.
  lemma StepKeeps(l: Local, e: Event, home: View)
    requires Inv(l, home) && home.Settled()
    ensures Inv(Step(l, e), home)
  {
    if l.InUserCode() {
      match e
      case Begin(c) =>
        if !l.panicking {
          match c
          case Enter(t) => if t in ENTERABLE { Pushed(l, c, Opening, home); }
          case Create(t) => if t in CREATABLE { Pushed(l, c, Opening, home); }
          case EnterMnt => Pushed(l, c, Opening, home);
          case InAndOut => Pushed(l, c, Saving, home);
          case Separate => Pushed(l, c, Unlocking, home);
          case Worker => Pushed(l, c, Opening, home);
        }
      case End =>
        if l.stack != [] {
          var l', f := Ended(l), l.Top();
          assert f.WellFormed();
          if f.call.Worker? {
            Dropped(l, l', home);
          } else {
            TopReplaced(l, l', home, l'.Top(), l.th.view);
          }
        }
      case _ =>
    } else {
      match l.Top().call
      case Enter(t) => EnterKeeps(l, t, e, home);
      case Create(t) => CreateKeeps(l, t, e, home);
      case InAndOut => InAndOutKeeps(l, e, home);
      case EnterMnt => EnterMntKeeps(l, e, home);
      case Separate => if e.Joined? { assert l.Top().WellFormed(); Unlocked(l, home); }
      case Worker => WorkerKeeps(l, e, home);
    }
  }

  // A step keeps, pushes or pops a frame together with its lock, or drops a frame and keeps its lock.
  ghost predicate Shape(l: Local, l': Local) {
    || (|l'.stack| == |l.stack| && l'.th.locks == l.th.locks)
    || (|l'.stack| == |l.stack| + 1 && l'.th.locks == l.th.locks + 1)
    || (|l'.stack| + 1 == |l.stack| && l'.th.locks + 1 == l.th.locks)
    || Drops(l, l')
  }

  ghost predicate Drops(l: Local, l': Local) {
    |l'.stack| + 1 == |l.stack| && l'.th.locks == l.th.locks
  }

  // Why a step drops a frame without unlocking.
  ghost predicate Excuse(l: Local, e: Event) {
    && l.stack != []
    && (|| (e.Sys? && !e.ok)
        || l.Top().call == Enter(Pid)
        || l.Top().pc == Unwinding
        || l.Top().call == EnterMnt || l.Top().call == Worker)
  }

  lemma EnterShape(l: Local, t: NsType, e: Event)
    requires 0 < |l.stack| <= l.th.locks && l.Top().call == Enter(t)
    ensures Shape(l, EnterStep(l, t, e))
    ensures Drops(l, EnterStep(l, t, e)) ==> Excuse(l, e)
  {
  }

  lemma CreateShape(l: Local, t: NsType, e: Event)
    requires 0 < |l.stack| <= l.th.locks && l.Top().call == Create(t)
    ensures Shape(l, CreateStep(l, t, e))
    ensures Drops(l, CreateStep(l, t, e)) ==> Excuse(l, e)
  {
  }

  lemma InAndOutShape(l: Local, e: Event)
    requires 0 < |l.stack| <= l.th.locks && l.Top().call == InAndOut && l.Top().pc != Inside
    ensures Shape(l, InAndOutStep(l, e))
    ensures Drops(l, InAndOutStep(l, e)) && l.Top().WellFormed() ==> Excuse(l, e)
  {
  }

  lemma StepShape(l: Local, e: Event)
    requires |l.stack| <= l.th.locks
    ensures Shape(l, Step(l, e))
    ensures Drops(l, Step(l, e)) && l.Top().WellFormed() ==> Excuse(l, e)
  {
    if !l.InUserCode() {
      match l.Top().call
      case Enter(t) => EnterShape(l, t, e);
      case Create(t) => CreateShape(l, t, e);
      case InAndOut => InAndOutShape(l, e);
      case EnterMnt => assert Step(l, e) == EnterMntStep(l, e);
      case Separate =>
      case Worker => assert Step(l, e) == WorkerStep(l, e);
    } else if e.End? && l.stack != [] {
      assert Step(l, e) == Ended(l);
    } else if e.Begin? && !l.panicking {
      assert Step(l, e) == Called(l, e.call);
    }
  }

  /** A lock that no call in progress accounts for is never released: such a thread can only end with
      its goroutine. And it takes a failed system call, a panic leaving goInAndOut, or one of the
      calls that keep the thread locked on purpose, to make such a lock. */
  lemma LockedForever(l: Local, e: Event)
    requires |l.stack| <= l.th.locks
    ensures |l.stack| < l.th.locks ==> |Step(l, e).stack| < Step(l, e).th.locks
    ensures |l.stack| == l.th.locks && |Step(l, e).stack| < Step(l, e).th.locks && l.Top().WellFormed() ==> Excuse(l, e)
  {
    StepShape(l, e);
  }

  // A goroutine either sits on a thread, or waits for one.
  datatype Goroutine = On(tid: nat, stack: seq<Frame>, panicking: bool) | Waiting(panicking: bool)

  datatype State = State(threads: map<nat, OsThread>, gos: map<nat, Goroutine>)
  {
    predicate Taken(tid: nat) {
      exists g | g in gos :: gos[g].On? && gos[g].tid == tid
    }

    function LocalOf(g: nat): Local
      requires g in gos && gos[g].On? && gos[g].tid in threads
    {
      Local(threads[gos[g].tid], gos[g].stack, gos[g].panicking)
    }
  }

  datatype Move =
    | Run(g: nat, e: Event)      // g makes a step on its thread
    | Park(g: nat)               // the scheduler takes g off its thread
    | Resume(g: nat, tid: nat)   // the scheduler puts g on a free thread
    | Grow(tid: nat)             // the Go runtime adds a thread in the process's original state
    | Spawn(g: nat)              // a go statement
    | Exit(g: nat)               // g ends; a thread it still locks ends with it

  function Next(s: State, m: Move, home: View): State {
    match m
    case Run(g, e) =>
      if g in s.gos && s.gos[g].On? && s.gos[g].tid in s.threads then
        var l := Step(s.LocalOf(g), e);
        s.(threads := s.threads[s.gos[g].tid := l.th],
           gos := s.gos[g := On(s.gos[g].tid, l.stack, l.panicking)])
      else s
    case Park(g) =>
      if g in s.gos && s.gos[g].On? && s.gos[g].tid in s.threads && s.threads[s.gos[g].tid].locks == 0 then
        s.(gos := s.gos[g := Waiting(s.gos[g].panicking)])
      else s
    case Resume(g, tid) =>
      if g in s.gos && s.gos[g].Waiting? && tid in s.threads && !s.Taken(tid) then
        s.(gos := s.gos[g := On(tid, [], s.gos[g].panicking)])
      else s
    case Grow(tid) =>
      if tid in s.threads then s else s.(threads := s.threads[tid := OsThread(home, 0, false)])
    case Spawn(g) =>
      if g in s.gos then s else s.(gos := s.gos[g := Waiting(false)])
    case Exit(g) =>
      if g in s.gos && s.gos[g].On? && s.gos[g].stack == [] && s.gos[g].tid in s.threads then
        s.(threads := if s.threads[s.gos[g].tid].locks > 0 then s.threads - {s.gos[g].tid} else s.threads,
           gos := s.gos - {g})
      else s
  }

  function Trace(s: State, ms: seq<Move>, home: View): State {
    if ms == [] then s else Next(Trace(s, ms[..|ms| - 1], home), ms[|ms| - 1], home)
  }

  predicate Pristine(th: OsThread, home: View) {
    th.view == home && th.locks == 0 && !th.fsPrivate
  }

  ghost predicate Sound(s: State, home: View) {
    && (forall g | g in s.gos && s.gos[g].On? :: s.gos[g].tid in s.threads && Inv(s.LocalOf(g), home))
    && (forall g, h | g in s.gos && h in s.gos && s.gos[g].On? && s.gos[h].On? ::
          s.gos[g].tid == s.gos[h].tid ==> g == h)
    && (forall t | t in s.threads && !s.Taken(t) :: Pristine(s.threads[t], home))
  }

  lemma UnlockedIsPristine(l: Local, home: View)
    requires Inv(l, home) && l.th.locks == 0
    ensures l.stack == [] && Pristine(l.th, home)
  {
  }

  lemma UntouchedIsInv(th: OsThread, panicking: bool, home: View)
    requires Pristine(th, home)
    ensures Inv(Local(th, [], panicking), home)
  {
  }

  lemma RunKeeps(s: State, g: nat, e: Event, home: View)
    requires Sound(s, home) && home.Settled() && g in s.gos && s.gos[g].On?
    ensures Sound(Next(s, Run(g, e), home), home)
  {
    StepKeeps(s.LocalOf(g), e, home);
    var s' := Next(s, Run(g, e), home);
    forall h | h in s'.gos && s'.gos[h].On? ensures Inv(s'.LocalOf(h), home) {
      if h != g {
        assert s'.LocalOf(h) == s.LocalOf(h);
      } else {
        assert s'.LocalOf(g) == Step(s.LocalOf(g), e);
      }
    }
    forall h | h in s.gos && s.gos[h].On? ensures h in s'.gos && s'.gos[h].On? && s'.gos[h].tid == s.gos[h].tid {
    }
    forall t | t in s'.threads && !s'.Taken(t) ensures Pristine(s'.threads[t], home) {
      assert !s.Taken(t);
    }
  }

  // Leaving a thread that is not locked, to wait or for good, gives it back as it was.
  lemma LeaveKeeps(s: State, s': State, g: nat, home: View)
    requires Sound(s, home) && g in s.gos && s.gos[g].On? && s.threads[s.gos[g].tid].locks == 0
    requires s'.threads == s.threads && (g in s'.gos ==> s'.gos[g].Waiting?) && s'.gos - {g} == s.gos - {g}
    ensures Sound(s', home)
  {
    hide Inv;
    forall h | h in s'.gos && s'.gos[h].On? ensures h in s.gos && s.gos[h] == s'.gos[h] && h != g {
      assert h in s'.gos - {g} && (s'.gos - {g})[h] == (s.gos - {g})[h];
    }
    forall h | h in s.gos && h != g ensures h in s'.gos && s'.gos[h] == s.gos[h] {
      assert h in s.gos - {g} && (s.gos - {g})[h] == (s'.gos - {g})[h];
    }
    forall t | t in s'.threads && !s'.Taken(t) ensures Pristine(s'.threads[t], home) {
      if s.Taken(t) {
        var h :| h in s.gos && s.gos[h].On? && s.gos[h].tid == t;
        if h == g { UnlockedIsPristine(s.LocalOf(g), home); }
      }
    }
    forall h | h in s'.gos && s'.gos[h].On? ensures s'.LocalOf(h) == s.LocalOf(h) && Inv(s'.LocalOf(h), home) {
    }
  }

  // A locked thread ends with its goroutine.
  lemma EndKeeps(s: State, g: nat, home: View)
    requires Sound(s, home) && g in s.gos && s.gos[g].On?
    ensures Sound(s.(threads := s.threads - {s.gos[g].tid}, gos := s.gos - {g}), home)
  {
    hide Inv;
    var s' := s.(threads := s.threads - {s.gos[g].tid}, gos := s.gos - {g});
    forall h | h in s'.gos && s'.gos[h].On? ensures s'.gos[h].tid in s'.threads && s'.LocalOf(h) == s.LocalOf(h) {
    }
    forall t | t in s'.threads && !s'.Taken(t) ensures !s.Taken(t) {
      forall h | h in s.gos && s.gos[h].On? ensures s.gos[h].tid != t {
        assert h != g ==> h in s'.gos && s'.gos[h] == s.gos[h];
      }
    }
  }

  lemma ResumeKeeps(s: State, g: nat, tid: nat, home: View)
    requires Sound(s, home) && g in s.gos && s.gos[g].Waiting? && tid in s.threads && !s.Taken(tid)
    ensures Sound(s.(gos := s.gos[g := On(tid, [], s.gos[g].panicking)]), home)
  {
    hide Inv;
    var s' := s.(gos := s.gos[g := On(tid, [], s.gos[g].panicking)]);
    UntouchedIsInv(s.threads[tid], s.gos[g].panicking, home);
    forall h | h in s'.gos && s'.gos[h].On? && h != g ensures s'.LocalOf(h) == s.LocalOf(h) {
    }
    forall t | t in s'.threads && !s'.Taken(t) ensures !s.Taken(t) {
      forall h | h in s.gos && s.gos[h].On? ensures s.gos[h].tid != t {
        assert h in s'.gos && s'.gos[h] == s.gos[h];
      }
    }
  }

  // New threads and goroutines.
  lemma MoreKeeps(s: State, s': State, home: View)
    requires Sound(s, home)
    requires forall t | t in s.threads :: t in s'.threads && s'.threads[t] == s.threads[t]
    requires forall t | t in s'.threads && t !in s.threads :: Pristine(s'.threads[t], home)
    requires forall g | g in s.gos :: g in s'.gos && s'.gos[g] == s.gos[g]
    requires forall g | g in s'.gos && g !in s.gos :: s'.gos[g].Waiting?
    ensures Sound(s', home)
  {
    hide Inv;
    forall h | h in s'.gos && s'.gos[h].On? ensures h in s.gos && s'.LocalOf(h) == s.LocalOf(h) {
    }
  }

  lemma NextKeeps(s: State, m: Move, home: View)
    requires Sound(s, home) && home.Settled()
    ensures Sound(Next(s, m, home), home)
  {
    hide Inv, Step, Sound;
    OnThreads(s, home);
    var s' := Next(s, m, home);
    if s' != s {
      match m
      case Run(g, e) => RunKeeps(s, g, e, home);
      case Park(g) => LeaveKeeps(s, s', g, home);
      case Resume(g, tid) => ResumeKeeps(s, g, tid, home);
      case Grow(tid) => MoreKeeps(s, s', home);
      case Spawn(g) => MoreKeeps(s, s', home);
      case Exit(g) =>
        if s.threads[s.gos[g].tid].locks > 0 { EndKeeps(s, g, home); } else { LeaveKeeps(s, s', g, home); }
    }
  }

  lemma OnThreads(s: State, home: View)
    requires Sound(s, home)
    ensures forall g | g in s.gos && s.gos[g].On? :: s.gos[g].tid in s.threads
  {
  }

  /** However goroutines, failing system calls and panics interleave: in every state that is ever
      reached, a thread that is not locked, and so may be given to any goroutine, has its original
      namespaces and shares its filesystem attributes. */
  lemma {:induction false} NoTaintedThreadIsPooled(s: State, ms: seq<Move>, home: View)
    requires Sound(s, home) && home.Settled()
    ensures Sound(Trace(s, ms, home), home)
    ensures var r := Trace(s, ms, home);
            forall t | t in r.threads && r.threads[t].locks == 0 :: Pristine(r.threads[t], home)
  {
    if ms != [] {
      NoTaintedThreadIsPooled(s, ms[..|ms| - 1], home);
      NextKeeps(Trace(s, ms[..|ms| - 1], home), ms[|ms| - 1], home);
    }
    var r := Trace(s, ms, home);
    forall t | t in r.threads && r.threads[t].locks == 0 ensures Pristine(r.threads[t], home) {
      if r.Taken(t) {
        var g :| g in r.gos && r.gos[g].On? && r.gos[g].tid == t;
        UnlockedIsPristine(r.LocalOf(g), home);
      }
    }
  }

  /** The scheduler passes a thread on to another goroutine, with all that has been done to it, exactly if
      it is not locked: this is what the locks are for. */
  lemma PassedOn(s: State, g: nat, h: nat, home: View)
    requires Sound(s, home) && g in s.gos && s.gos[g].On? && h in s.gos && s.gos[h].Waiting?
    ensures var tid := s.gos[g].tid;
            var r := Next(Next(s, Park(g), home), Resume(h, tid), home);
            && tid in s.threads && h in r.gos && r.threads == s.threads
            && (r.gos[h] == On(tid, [], s.gos[h].panicking) <==> s.threads[tid].locks == 0)
  {
    hide Inv;
    var tid, s' := s.gos[g].tid, Next(s, Park(g), home);
    if s.threads[tid].locks == 0 {
      assert s'.gos == s.gos[g := Waiting(s.gos[g].panicking)];
      assert !s'.Taken(tid);
    } else {
      assert s.Taken(tid);
    }
  }

  // A new goroutine gets a thread in its original state if there is no other.
  lemma StartedAfresh(s: State, g: nat, tid: nat, home: View)
    requires Sound(s, home) && g !in s.gos && tid !in s.threads
    ensures Next(Next(Next(s, Grow(tid), home), Spawn(g), home), Resume(g, tid), home) ==
            State(s.threads[tid := OsThread(home, 0, false)], s.gos[g := On(tid, [], false)])
  {
    hide Inv;
    var s' := Next(Next(s, Grow(tid), home), Spawn(g), home);
    assert s' == State(s.threads[tid := OsThread(home, 0, false)], s.gos[g := Waiting(false)]);
    assert !s'.Taken(tid);
    assert s.gos[g := Waiting(false)][g := On(tid, [], false)] == s.gos[g := On(tid, [], false)];
  }

  /** A process starts with the goroutine main on the initial thread, which it locks for good before any
      test runs, and otherwise with threads in their original state. */
  lemma StartIsSound(threads: map<nat, OsThread>, main: nat, initial: nat, home: View)
    requires initial !in threads && forall t | t in threads :: Pristine(threads[t], home)
    ensures Sound(State(threads[initial := OsThread(home, 1, false)], map[main := On(initial, [], false)]), home)
  {
    var s := State(threads[initial := OsThread(home, 1, false)], map[main := On(initial, [], false)]);
    forall t | t in s.threads && !s.Taken(t) ensures t in threads {
      assert main in s.gos && s.gos[main].On? && s.gos[main].tid == initial;
    }
  }
}
