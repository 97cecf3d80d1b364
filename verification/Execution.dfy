/** Execute: run a function in other namespaces, directly or on a separate thread, and the programs
    that nest all of this. */
module Execution {
  import opened Wrappers
  import opened Namespaces
  import opened Kernel
  import opened Accounts
  import opened Routes
  import opened Transient

  // A test body written against the API. Descriptors are any numbers at all.
  datatype Prog =
    | Skip
    | Fail                                  // panics
    | Seq(first: Prog, second: Prog)
    | Recover(body: Prog)                   // InterceptGomegaFailure
    | Enter(typ: NsType, body: Prog)        // defer EnterTransient(typ)(); body
    | EnterMnt(body: Prog)                  // defer mntns.EnterTransient()(); body
    | New(typ: NsType)                      // NewTransient(typ)
    | NewMnt                                // mntns.NewTransient()
    | Exec(nsfd: int, nsfds: seq<int>, body: Prog)

  predicate Recovers(p: Prog) {
    match p
    case Skip | Fail | New(_) | NewMnt => false
    case Seq(a, b) => Recovers(a) || Recovers(b)
    case Recover(_) => true
    case Enter(_, b) => Recovers(b)
    case EnterMnt(b) => Recovers(b)
    case Exec(_, _, b) => Recovers(b)
  }

  predicate Executes(p: Prog) {
    match p
    case Skip | Fail | New(_) | NewMnt => false
    case Seq(a, b) => Executes(a) || Executes(b)
    case Recover(b) => Executes(b)
    case Enter(_, b) => Executes(b)
    case EnterMnt(b) => Executes(b)
    case Exec(_, _, _) => true
  }

  // What a program did and what its user code saw, step by step.
  datatype Seen =
    | Unseen                                              // did not get that far
    | Looked(view: View)
    | Both(first: Seen, between: View, table: Fds, next: Ino, second: Seen)
    | Within(ino: Ino, inner: Seen)                       // in a new namespace
    | Through(table: Fds, refs: seq<Ref>, view: View, inner: Seen)    // in existing namespaces
    | Refused(table: Fds)                                 // not in a user namespace
    | Created(fd: int, ino: Ino)

  predicate AllNamespaces(fds: Fds, nsfds: seq<int>) {
    forall i | 0 <= i < |nsfds| :: nsfds[i] in fds && fds[nsfds[i]].Namespace?
  }

  function RefsOf(fds: Fds, nsfds: seq<int>): (refs: seq<Ref>)
    requires AllNamespaces(fds, nsfds)
  {
    seq(|nsfds|, i requires 0 <= i < |nsfds| => fds[nsfds[i]].ref)
  }

  predicate NamesUser(fds: Fds, nsfds: seq<int>) {
    exists i | 0 <= i < |nsfds| :: nsfds[i] in fds && fds[nsfds[i]].Namespace? && fds[nsfds[i]].ref.typ == User
  }

  // A run started with table f and lo as the next new namespace, and ended with g and hi. By then all
  // mounts in the secluded mount namespaces were private.
  datatype Span = Span(f: Fds, lo: Ino, g: Fds, hi: Ino, secluded: set<Ino>)

  predicate IsCreated(typ: NsType, sp: Span, t: Seen) {
    t.Created? && sp.lo <= t.ino < sp.hi && t.fd !in sp.f && Names(sp.g, t.fd, Ref(typ, t.ino))
  }

  /** What is seen is what the nesting of the calls says: inside a bracket the caller's view with one
      namespace that was made just then, and for mounts a private one; in an executed function the
      left fold over the caller's view of what the program's descriptors name at the time; and after a
      call that has returned again what was there before it. */
  predicate Follows(p: Prog, v: View, sp: Span, t: Seen) {
    t.Unseen? ||
    match p
    case Skip => t == Looked(v)
    case Fail => false
    case New(typ) => IsCreated(typ, sp, t)
    case NewMnt => IsCreated(Mnt, sp, t) && t.ino in sp.secluded
    case Seq(a, b) =>
      && t.Both? && Extends(sp.f, t.table) && sp.lo <= t.next <= sp.hi
      && Follows(a, v, Span(sp.f, sp.lo, t.table, t.next, sp.secluded), t.first)
      && Follows(b, t.between, Span(t.table, t.next, sp.g, sp.hi, sp.secluded), t.second)
      && (!Recovers(a) && t.second != Unseen ==> Back(v, t.between))
    case Recover(b) => Follows(b, v, sp, t)
    case Enter(typ, b) =>
      t.Within? && sp.lo <= t.ino < sp.hi && Follows(b, v.Unshared(typ, t.ino), sp.(lo := t.ino + 1), t.inner)
    case EnterMnt(b) =>
      && t.Within? && sp.lo <= t.ino < sp.hi && t.ino in sp.secluded
      && Follows(b, v.Unshared(Mnt, t.ino), sp.(lo := t.ino + 1), t.inner)
    case Exec(nsfd, nsfds, b) =>
      if t.Refused? then Extends(sp.f, t.table) && NamesUser(t.table, [nsfd] + nsfds)
      else
        && t.Through? && Extends(sp.f, t.table) && AllNamespaces(t.table, [nsfd] + nsfds)
        && t.refs == RefsOf(t.table, [nsfd] + nsfds) && User !in Types(t.refs)
        && (forall ty :: t.view.Own(ty) == Fold(v, t.refs).Own(ty))
        && Follows(b, t.view, sp.(f := t.table), t.inner)
  }

  // sp' is a longer run around sp that keeps what was opened in sp.
  predicate Wider(sp: Span, sp': Span) {
    && Extends(sp'.f, sp.f) && sp'.lo <= sp.lo && sp.hi <= sp'.hi && sp.secluded <= sp'.secluded
    && forall fd | fd in sp.g && fd !in sp.f :: fd in sp'.g && sp'.g[fd] == sp.g[fd]
  }

  lemma ExtendsTransitive(a: Fds, b: Fds, c: Fds)
    requires Extends(a, b) && Extends(b, c)
    ensures Extends(a, c)
  {
    forall fd | fd in a ensures fd in c && c[fd] == a[fd] {
      assert fd in a.Keys && fd in b.Keys;
    }
  }

  lemma {:induction false} FollowsWider(p: Prog, v: View, sp: Span, sp': Span, t: Seen)
    requires Follows(p, v, sp, t) && Wider(sp, sp')
    ensures Follows(p, v, sp', t)
    decreases p
  {
    hide Back, Types, View.Own, View.Unshared, Fold, RefsOf;
    if !t.Unseen? {
      match p
      case Skip | Fail =>
      case New(typ) => CreatedWider(typ, sp, sp', t);
      case NewMnt => CreatedWider(Mnt, sp, sp', t);
      case Seq(a, b) =>
        ExtendsTransitive(sp'.f, sp.f, t.table);
        var second := Span(t.table, t.next, sp.g, sp.hi, sp.secluded);
        FollowsWider(a, v, Span(sp.f, sp.lo, t.table, t.next, sp.secluded),
                     Span(sp'.f, sp'.lo, t.table, t.next, sp'.secluded), t.first);
        WiderAt(sp, sp', t.table);
        FollowsWider(b, t.between, second, Span(t.table, t.next, sp'.g, sp'.hi, sp'.secluded), t.second);
      case Recover(b) => FollowsWider(b, v, sp, sp', t);
      case Enter(typ, b) =>
        FollowsWider(b, v.Unshared(typ, t.ino), sp.(lo := t.ino + 1), sp'.(lo := t.ino + 1), t.inner);
      case EnterMnt(b) => FollowsWider(b, v.Unshared(Mnt, t.ino), sp.(lo := t.ino + 1), sp'.(lo := t.ino + 1), t.inner);
      case Exec(_, _, b) =>
        ExtendsTransitive(sp'.f, sp.f, t.table);
        if t.Through? {
          WiderAt(sp, sp', t.table);
          FollowsWider(b, t.view, sp.(f := t.table), sp'.(f := t.table), t.inner);
        }
    }
  }

  lemma CreatedWider(typ: NsType, sp: Span, sp': Span, t: Seen)
    requires IsCreated(typ, sp, t) && Wider(sp, sp')
    ensures IsCreated(typ, sp', t)
  {
    assert t.fd !in sp.f.Keys;
  }

  lemma WiderAt(sp: Span, sp': Span, f: Fds)
    requires Wider(sp, sp') && Extends(sp.f, f)
    ensures Wider(sp.(f := f), sp'.(f := f))
  {
    forall fd | fd in sp.g && fd !in f ensures fd !in sp.f { assert fd !in f.Keys; }
  }

  // All of the program's user code ran, but for what a recovered panic skipped.
  predicate Complete(p: Prog, t: Seen) {
    match p
    case Skip => t.Looked?
    case Fail => false
    case New(_) | NewMnt => t.Created?
    case Recover(_) => true
    case Seq(a, b) => t.Both? && Complete(a, t.first) && Complete(b, t.second)
    case Enter(_, b) => t.Within? && Complete(b, t.inner)
    case EnterMnt(b) => t.Within? && Complete(b, t.inner)
    case Exec(_, _, b) => t.Through? && Complete(b, t.inner)
  }

  // The program came to panic by itself, without a system call failing.
  predicate Raises(p: Prog, t: Seen) {
    match p
    case Skip | NewMnt | Recover(_) => false
    case Fail => true
    case New(typ) => typ !in CREATABLE
    case Seq(a, b) => t.Both? && (Raises(a, t.first) || Raises(b, t.second))
    case Enter(typ, b) => typ !in ENTERABLE || (t.Within? && Raises(b, t.inner))
    case EnterMnt(b) => t.Within? && Raises(b, t.inner)
    case Exec(_, _, b) => t.Refused? || (t.Through? && Raises(b, t.inner))
  }

  // The mount brackets that a program has entered on its own thread.
  function MntLeft(p: Prog, t: Seen): nat {
    match p
    case Skip | Fail | New(_) | NewMnt => 0
    case Seq(a, b) => if t.Both? then MntLeft(a, t.first) + MntLeft(b, t.second) else 0
    case Recover(b) => MntLeft(b, t)
    case Enter(_, b) => if t.Within? then MntLeft(b, t.inner) else 0
    case EnterMnt(b) => if t.Within? then 1 + MntLeft(b, t.inner) else 0
    case Exec(_, _, b) => if t.Through? && Mnt !in Types(t.refs) then MntLeft(b, t.inner) else 0
  }

  // The functions that Execute has run on the program's own thread.
  function Direct(p: Prog, t: Seen): nat {
    match p
    case Skip | Fail | New(_) | NewMnt => 0
    case Seq(a, b) => if t.Both? then Direct(a, t.first) + Direct(b, t.second) else 0
    case Recover(b) => Direct(b, t)
    case Enter(_, b) => if t.Within? then Direct(b, t.inner) else 0
    case EnterMnt(b) => if t.Within? then Direct(b, t.inner) else 0
    case Exec(_, _, b) => if t.Through? && Mnt !in Types(t.refs) then 1 + Direct(b, t.inner) else 0
  }

  /** The locks in the ledger are those of the program: one for each mount bracket that it entered, which
      is stuck only if leaving it failed. All other stuck locks are due to a failed system call or to
      a panic that left a function run by Execute. */
  predicate Counted(p: Prog, t: Seen, l: Ledger, failed: int) {
    l.left <= MntLeft(p, t) <= l.left + l.stuck && l.stuck <= failed + Direct(p, t)
  }

  lemma {:induction false} UnseenCounts(p: Prog)
    ensures MntLeft(p, Unseen) == 0 && Direct(p, Unseen) == 0
  {
    if p.Recover? { UnseenCounts(p.body); }
  }

  lemma NothingCounts(p: Prog, l: Ledger, failed: int)
    requires l.left == 0 && l.stuck <= failed
    ensures Counted(p, Unseen, l, failed)
  {
    UnseenCounts(p);
  }

  lemma SeqCounts(p: Prog, t: Seen, la: Ledger, lb: Ledger, fa: int, fb: int)
    requires p.Seq? && t.Both? && Counted(p.first, t.first, la, fa) && Counted(p.second, t.second, lb, fb)
    ensures Counted(p, t, Plus(la, lb), fa + fb)
  {
  }

  // A bracket of mount namespaces counts itself once it has been left; a bracket that was not left is
  // stuck because of a failed system call.
  lemma BracketCounts(p: Prog, ino: Ino, t: Seen, l: Ledger, l': Ledger, failed: int, failed': int)
    requires (p.Enter? || p.EnterMnt?) && Counted(p.body, t, l, failed) && failed <= failed'
    requires || (l'.stuck == l.stuck && l'.left == l.left + if p.EnterMnt? then 1 else 0)
             || (l'.stuck == l.stuck + 1 && l'.left == l.left && failed < failed')
    ensures Counted(p, Within(ino, t), l', failed')
  {
  }

  function Between(s: Snap, s': Snap): Span {
    Span(s.fds, s.ino, s'.fds, s'.ino, s'.secluded)
  }

  // A run of p from s to s'.
  predicate Reports(p: Prog, s: Snap, s': Snap, o: Outcome, t: Seen) {
    && Follows(p, s.view, Between(s, s'), t)
    && (o.Normal? ==> Complete(p, t))
    && (o.Panic? && s'.faults == s.faults ==> Raises(p, t))
  }

  // The descriptors fds hold exactly these references.
  predicate Holding(f: Fds, fds: seq<int>, refs: seq<Ref>) {
    |fds| == |refs| && forall i | 0 <= i < |fds| :: Names(f, fds[i], refs[i])
  }

  lemma OpenedOneMore(f0: Fds, f1: Fds, own: seq<int>, refs: seq<Ref>, fd: int, r: Ref)
    requires Opened(f0, f1, own) && fd !in f1 && Holding(f1, own, refs)
    ensures Opened(f0, f1[fd := Namespace(r)], own + [fd])
    ensures Holding(f1[fd := Namespace(r)], own + [fd], refs + [r])
  {
    OpenedAnother(f0, f1, own, fd, Namespace(r));
  }

  // One round of goInAndOut's loop; current is negative if it failed before saving a namespace.
  method SwitchOne(k: Task, th: Thread, nsfd: int) returns (ok: bool, current: int, ghost r: Ref)
    requires k.Valid() && th.locks > 0
    modifies k`fds, k`faults, th`view
    ensures k.Valid() && k.faults >= old(k.faults) && (!ok ==> k.faults > old(k.faults))
    ensures current < 0 ==> !ok && k.fds == old(k.fds)
    ensures 0 <= current ==>
      && 0 < current && current !in old(k.fds) && Names(old(k.fds), nsfd, r)
      && k.fds == old(k.fds)[current := Namespace(Ref(r.typ, old(th.view).Own(r.typ)))]
    ensures th.view == if ok then old(th.view).Attached(r) else old(th.view)
  {
    current, r := -1, Ref(Net, 0);
    var typ := k.TypeOf(nsfd);
    if typ.None? { return false, current, r; }
    r := k.fds[nsfd].ref;
    current := k.OpenSelf(th, typ.value);
    if current < 0 { return false, current, r; }
    ok := k.Setns(th, nsfd, typ);
  }

  // Saving and switching leads from s to s', with marks attempted and done of them succeeded.
  predicate Begun(s: Snap, s': Snap, saved: seq<int>, marks: seq<Ref>, done: nat) {
    && done <= |marks| <= done + 1 && s'.view == Fold(s.view, marks[..done])
    && Opened(s.fds, s'.fds, saved) && Holding(s'.fds, saved, Saves(s.view, marks))
    && s.faults <= s'.faults
    && s' == s.(fds := s'.fds, faults := s'.faults, view := s'.view)
  }

  // Restoring, unlocking if that succeeded, and closing leads from s to s'.
  predicate Finished(s: Snap, s': Snap, saved: seq<int>, saves: seq<Ref>, restored: bool, unlocked: bool) {
    && (restored ==> s'.view == Undone(s.view, saves))
    && (unlocked ==> restored && s'.locks + 1 == s.locks)
    && (!unlocked ==> s'.locks == s.locks)
    && s.faults <= s'.faults
    && s' == s.(fds := s.fds - Elems(saved), faults := s'.faults, view := s'.view, locks := s'.locks,
                releases := s.releases + if unlocked && s'.locks == 0 then [Release(s'.view, s'.fsPrivate)] else [])
  }

  lemma InAndOutBalances(s0: Snap, s1: Snap, s2: Snap, s3: Snap, l: Ledger, saved: seq<int>,
                         marks: seq<Ref>, done: nat, restored: bool, unlocked: bool)
    requires Begun(s0.(locks := s0.locks + 1), s1, saved, marks, done)
    requires Balanced(s1, s2, l)
    requires Finished(s2, s3, saved, Saves(s0.view, marks), restored, unlocked)
    ensures Balanced(s0, s3, l.(stuck := l.stuck + if unlocked then 0 else 1))
    ensures restored && l.stuck == 0 ==> Back(s0.view, s3.view)
  {
    TidyAround(s0.fds, s0.cleanups, Elems(saved), s1.fds, s2.fds, s2.cleanups, l.lost);
    if restored && l.stuck == 0 {
      BackwardRestore(s0.view, marks, done);
      UndoneKeepsBack(s1.view, s2.view, Saves(s0.view, marks));
      BackTransitive(s0.view, Undone(s1.view, Saves(s0.view, marks)), s3.view);
    }
    if s3.releases != s2.releases { ReleasedOnce(s0, s3); }
  }

  lemma HoldingKept(f0: Fds, f1: Fds, fds: seq<int>, refs: seq<Ref>)
    requires Holding(f0, fds, refs) && Extends(f0, f1)
    ensures Holding(f1, fds, refs)
  {
    forall i | 0 <= i < |fds| ensures Names(f1, fds[i], refs[i]) {
      assert Names(f0, fds[i], refs[i]);
      assert fds[i] in f0.Keys;
    }
  }

  lemma BegunThenBalanced(s0: Snap, s1: Snap, s2: Snap, saved: seq<int>, marks: seq<Ref>, done: nat, l: Ledger)
    requires Begun(s0, s1, saved, marks, done) && Balanced(s1, s2, l)
    ensures Holding(s2.fds, saved, Saves(s0.view, marks))
    ensures s0.locks <= s2.locks && s0.faults <= s1.faults <= s2.faults
    ensures done <= |marks| && s1.view == Fold(s0.view, marks[..done])
  {
    HoldingKept(s1.fds, s2.fds, saved, Saves(s0.view, marks));
  }

  lemma FinishedFaults(s: Snap, s': Snap, saved: seq<int>, saves: seq<Ref>, restored: bool, unlocked: bool)
    requires Finished(s, s', saved, saves, restored, unlocked)
    ensures s.faults <= s'.faults
  {
  }

  lemma WiderInAndOut(s0: Snap, s1: Snap, s2: Snap, s3: Snap, saved: seq<int>,
                      marks: seq<Ref>, done: nat, restored: bool, unlocked: bool)
    requires Begun(s0.(locks := s0.locks + 1), s1, saved, marks, done)
    requires Finished(s2, s3, saved, Saves(s0.view, marks), restored, unlocked)
    ensures Wider(Between(s1, s2), Between(s0, s3))
  {
    WiderAround(s0.fds, s1.fds, saved);
  }

  // What was not open before is not among the descriptors opened before.
  lemma WiderAround(f0: Fds, f1: Fds, own: seq<int>)
    requires Opened(f0, f1, own)
    ensures Extends(f0, f1) && forall fd | fd !in f1 :: fd !in Elems(own)
  {
    forall fd | fd !in f1 ensures fd !in Elems(own) { assert fd !in f1.Keys; }
  }

  // marks are the first references, as far as they were open descriptors in f.
  predicate Marked(f: Fds, nsfds: seq<int>, marks: seq<Ref>) {
    |marks| <= |nsfds| && forall j | 0 <= j < |marks| :: nsfds[j] in f ==> Names(f, nsfds[j], marks[j])
  }

  lemma SavesOneMore(v: View, refs: seq<Ref>, r: Ref)
    ensures Fold(v, refs + [r]) == Fold(v, refs).Attached(r)
    ensures Saves(v, refs + [r]) == Saves(v, refs) + [Ref(r.typ, Fold(v, refs).Own(r.typ))]
  {
    assert (refs + [r])[..|refs|] == refs;
  }

  lemma SwitchedOne(s0: Snap, s: Snap, s': Snap, nsfds: seq<int>, saved: seq<int>, marks: seq<Ref>,
                    current: int, r: Ref, ok: bool)
    requires Begun(s0, s, saved, marks, |marks|) && Marked(s0.fds, nsfds, marks) && |marks| < |nsfds|
    requires current !in s.fds && Names(s.fds, nsfds[|marks|], r) && s.faults <= s'.faults
    requires s' == s.(fds := s.fds[current := Namespace(Ref(r.typ, s.view.Own(r.typ)))], faults := s'.faults,
                      view := if ok then s.view.Attached(r) else s.view)
    ensures Begun(s0, s', saved + [current], marks + [r], if ok then |marks| + 1 else |marks|)
    ensures Marked(s0.fds, nsfds, marks + [r])
  {
    hide Fold, Saves, Types, View.Own, View.Attached;
    var n := |marks|;
    assert marks[..n] == marks && (marks + [r])[..n] == marks && (marks + [r])[..n + 1] == marks + [r];
    SavesOneMore(s0.view, marks, r);
    OpenedOneMore(s0.fds, s.fds, saved, Saves(s0.view, marks), current, Ref(r.typ, s.view.Own(r.typ)));
    assert nsfds[n] in s0.fds ==> s.fds[nsfds[n]] == s0.fds[nsfds[n]];
  }

  lemma MarkedAll(f: Fds, nsfds: seq<int>, marks: seq<Ref>)
    requires Marked(f, nsfds, marks) && |marks| == |nsfds| && AllNamespaces(f, nsfds)
    ensures marks == RefsOf(f, nsfds)
  {
  }

  lemma BegunEmpty(s: Snap)
    ensures Begun(s, s, [], [], 0)
  {
    assert Elems([]) == {};
  }

  lemma BegunFaulted(s0: Snap, s: Snap, s': Snap, saved: seq<int>, marks: seq<Ref>, done: nat)
    requires Begun(s0, s, saved, marks, done) && s' == s.(faults := s'.faults) && s.faults <= s'.faults
    ensures Begun(s0, s', saved, marks, done)
  {
  }

  // The loop of goInAndOut: save the current namespace of each type, then switch.
  method SwitchAll(k: Task, th: Thread, nsfds: seq<int>)
    returns (ok: bool, saved: seq<int>, ghost marks: seq<Ref>, ghost done: nat)
    requires k.Valid() && th.locks > 0
    modifies k`fds, k`faults, th`view
    ensures k.Valid() && Begun(old(Now(k, th)), Now(k, th), saved, marks, done)
    ensures 0 !in saved && (if ok then done == |marks| else k.faults > old(k.faults))
    ensures ok && AllNamespaces(old(k.fds), nsfds) ==> marks == RefsOf(old(k.fds), nsfds)
  {
    hide Begun, Fold, Saves, View.Own, View.Attached;
    ghost var s0 := Now(k, th);
    ok, saved, marks, done := true, [], [], 0;
    BegunEmpty(s0);
    while |saved| < |nsfds|
      invariant k.Valid() && ok && k.faults >= s0.faults && |saved| == |marks| == done
      invariant Begun(s0, Now(k, th), saved, marks, done) && 0 !in saved
      invariant Marked(s0.fds, nsfds, marks)
    {
      var current; ghost var r; ghost var s := Now(k, th);
      ok, current, r := SwitchOne(k, th, nsfds[|saved|]);
      if current < 0 {
        BegunFaulted(s0, s, Now(k, th), saved, marks, done);
        return;
      }
      SwitchedOne(s0, s, Now(k, th), nsfds, saved, marks, current, r, ok);
      saved, marks := saved + [current], marks + [r];
      if !ok { return; }
      done := done + 1;
    }
    if AllNamespaces(s0.fds, nsfds) {
      MarkedAll(s0.fds, nsfds, marks);
    }
  }

  // Attach backwards to those saved namespaces for which that succeeds.
  function UndoneWhere(v: View, saves: seq<Ref>, oks: seq<bool>): View
    requires |oks| == |saves|
    decreases saves
  {
    if saves == [] then v
    else
      var n := |saves| - 1;
      UndoneWhere(if oks[n] then v.Attached(saves[n]) else v, saves[..n], oks[..n])
  }

  function Misses(oks: seq<bool>): nat {
    if oks == [] then 0 else Misses(oks[1..]) + if oks[0] then 0 else 1
  }

  lemma {:induction false} UndoneWhereAppend(v: View, saves: seq<Ref>, oks: seq<bool>, i: nat, ok: bool)
    requires 0 < i <= |saves| && |oks| == |saves| - i
    ensures UndoneWhere(v, saves[i - 1..], [ok] + oks) ==
            var w := UndoneWhere(v, saves[i..], oks); if ok then w.Attached(saves[i - 1]) else w
    decreases |oks|
  {
    if oks == [] {
      assert saves[i..] == [] && ([ok] + oks)[..0] == [];
    } else {
      var n := |oks| - 1;
      assert saves[i - 1..][..n + 1] == saves[..|saves| - 1][i - 1..] && saves[i..][..n] == saves[..|saves| - 1][i..];
      assert ([ok] + oks)[..n + 1] == [ok] + oks[..n];
      UndoneWhereAppend(if oks[n] then v.Attached(saves[|saves| - 1]) else v, saves[..|saves| - 1], oks[..n], i, ok);
    }
  }

  lemma {:induction false} UndoneWhereAll(v: View, saves: seq<Ref>, oks: seq<bool>)
    requires |oks| == |saves| && forall i | 0 <= i < |oks| :: oks[i]
    ensures UndoneWhere(v, saves, oks) == Undone(v, saves) && Misses(oks) == 0
    decreases saves
  {
    NoMisses(oks);
    if saves != [] {
      UndoneWhereAll(v.Attached(saves[|saves| - 1]), saves[..|saves| - 1], oks[..|saves| - 1]);
    }
  }

  lemma {:induction false} NoMisses(oks: seq<bool>)
    requires forall i | 0 <= i < |oks| :: oks[i]
    ensures Misses(oks) == 0
  {
    if oks != [] { NoMisses(oks[1..]); }
  }

  // Reattach to the saved namespaces, the last one first. A silent restore tries all of them, whichever
  // fail; otherwise the first failure is the last try. oks says for the ones that were tried, which
  // are the last of all, which succeeded.
  method Restore(k: Task, th: Thread, saved: seq<int>, ghost saves: seq<Ref>, silent: bool)
    returns (ok: bool, ghost oks: seq<bool>)
    requires k.Valid() && th.locks > 0 && |saved| == |saves|
    requires forall i | 0 <= i < |saved| :: Names(k.fds, saved[i], saves[i])
    modifies k`faults, th`view
    ensures k.Valid() && k.faults == old(k.faults) + Misses(oks) && |oks| <= |saves|
    ensures th.view == UndoneWhere(old(th.view), saves[|saves| - |oks|..], oks)
    ensures (ok <==> Misses(oks) == 0) && (ok || silent ==> |oks| == |saves|)
    ensures !ok && !silent ==> Misses(oks) == 1 && !oks[0]
    ensures ok ==> th.view == Undone(old(th.view), saves)
  {
    ok, oks := true, [];
    var i := |saved|;
    assert saves[i..] == [];
    while i > 0
      invariant 0 <= i <= |saved| && k.Valid() && |oks| == |saves| - i
      invariant th.view == UndoneWhere(old(th.view), saves[i..], oks)
      invariant (ok <==> Misses(oks) == 0) && (!ok ==> silent) && k.faults == old(k.faults) + Misses(oks)
    {
      i := i - 1;
      var switched := k.Setns(th, saved[i], None);
      UndoneWhereAppend(old(th.view), saves, oks, i + 1, switched);
      assert ([switched] + oks)[1..] == oks;
      oks := [switched] + oks;
      if !switched {
        ok := false;
        if !silent { return; }
      }
    }
    assert saves[0..] == saves;
    if ok {
      MissesNone(oks);
      UndoneWhereAll(old(th.view), saves, oks);
    }
  }

  lemma {:induction false} MissesNone(oks: seq<bool>)
    requires Misses(oks) == 0
    ensures forall i | 0 <= i < |oks| :: oks[i]
  {
    if oks != [] {
      MissesNone(oks[1..]);
      forall i | 0 <= i < |oks| ensures oks[i] {
        if i > 0 { assert oks[i] == oks[1..][i - 1]; }
      }
    }
  }

  // Which restores were tried, and succeeded.
  predicate Tried(saves: seq<Ref>, silent: bool, restored: bool, oks: seq<bool>) {
    && |oks| <= |saves| && (restored <==> Misses(oks) == 0) && (restored || silent ==> |oks| == |saves|)
    && (!restored && !silent ==> Misses(oks) == 1 && !oks[0])
  }

  // The deferred functions of goInAndOut, after the callback has ended with outcome o.
  method FinishInAndOut(k: Task, th: Thread, saved: seq<int>, ghost saves: seq<Ref>, o: Outcome)
    returns (o': Outcome, restored: bool, ghost oks: seq<bool>)
    requires k.Valid() && Holding(k.fds, saved, saves) && 0 !in saved && th.locks > 0
    modifies k`fds, k`faults, th`view, th`locks, th`releases
    ensures k.Valid() && (o'.Normal? <==> (o.Normal? && restored)) && (!restored ==> k.faults > old(k.faults))
    ensures Finished(old(Now(k, th)), Now(k, th), saved, saves, restored, o'.Normal?)
    ensures Tried(saves, o.Panic?, restored, oks)
    ensures th.view == UndoneWhere(old(th.view), saves[|saves| - |oks|..], oks)
  {
    restored, oks := Restore(k, th, saved, saves, o.Panic?);
    o' := Panic;
    if o.Normal? && restored {
      th.Unlock();
      o' := Normal;
    }
    CloseAll(k, saved);
  }

  // fn was called at most once, and if all is well exactly once, to its end.
  predicate Called(body: Prog, sp: Span, o: Outcome, seen: seq<View>, t: Seen) {
    && |seen| <= 1
    && (|seen| == 1 ==> Follows(body, seen[0], sp, t))
    && (o.Normal? ==> |seen| == 1 && Complete(body, t))
  }

  lemma CalledWider(body: Prog, sp: Span, sp': Span, o: Outcome, o': Outcome, seen: seq<View>, t: Seen)
    requires Called(body, sp, o, seen, t) && Wider(sp, sp') && (o'.Normal? ==> o.Normal?)
    ensures Called(body, sp', o', seen, t)
  {
    hide Follows, Complete, Wider;
    if |seen| == 1 { FollowsWider(body, seen[0], sp, sp', t); }
  }

  // Call fn, unless setting up failed; seen is the view of each call, and t what fn sees.
  method CallBack(k: Task, th: Thread, ok: bool, body: Prog)
    returns (o: Outcome, l: Ledger, seen: seq<View>, ghost t: Seen)
    requires k.Valid()
    modifies k, th
    ensures k.Valid() && Balanced(old(Now(k, th)), Now(k, th), l)
    ensures seen == if ok then [old(th.view)] else []
    ensures Called(body, Between(old(Now(k, th)), Now(k, th)), o, seen, t)
    ensures if ok then Counted(body, t, l, k.faults - old(k.faults)) else l == NOTHING
    ensures o.Panic? && ok && k.faults == old(k.faults) ==> Raises(body, t)
    ensures o.Normal? && !Recovers(body) ==> l.stuck == 0 && l.lost == {}
    decreases body, 2
  {
    if !ok {
      BalancedSelf(Now(k, th));
      return Panic, NOTHING, [], Unseen;
    }
    seen := [th.view];
    o, l, t := Run(k, th, body);
  }

  // What goInAndOut has in its ledger.
  predicate CountedOnce(body: Prog, seen: seq<View>, t: Seen, l: Ledger, failed: int) {
    if seen == [] then l.left == 0 && l.stuck <= failed
    else l.left <= MntLeft(body, t) <= l.left + l.stuck && l.stuck <= failed + 1 + Direct(body, t)
  }

  lemma CountedAround(body: Prog, seen: seq<View>, t: Seen, l: Ledger, stuck: nat, failed: int, failed': int)
    requires if seen != [] then Counted(body, t, l, failed) else l == NOTHING && stuck <= failed'
    requires failed <= failed' && stuck <= 1
    ensures CountedOnce(body, seen, t, l.(stuck := l.stuck + stuck), failed')
  {
  }

  method GoInAndOut(k: Task, th: Thread, nsfds: seq<int>, body: Prog)
    returns (o: Outcome, l: Ledger, seen: seq<View>, ghost t: Seen, restored: bool)
    requires k.Valid()
    modifies k, th
    ensures k.Valid() && Balanced(old(Now(k, th)), Now(k, th), l)
    ensures Called(body, Between(old(Now(k, th)), Now(k, th)), o, seen, t)
    ensures o.Panic? && k.faults == old(k.faults) ==> |seen| == 1 && Raises(body, t)
    ensures CountedOnce(body, seen, t, l, k.faults - old(k.faults))
    ensures |seen| == 1 && AllNamespaces(old(k.fds), nsfds) ==>
      seen[0] == Fold(old(th.view), RefsOf(old(k.fds), nsfds))
    ensures o.Normal? && !Recovers(body) ==> l.stuck == 0 && l.lost == {}
    ensures o.Panic? ==> l.stuck > 0
    ensures restored && l.stuck == (if o.Panic? then 1 else 0) ==> Back(old(th.view), th.view)
    decreases body, 3
  {
    hide Balanced, Begun, Finished, Called, Back, Fold, Saves, RefsOf, Counted, CountedOnce, Wider;
    ghost var s0 := Now(k, th);
    th.Lock();
    var ok, saved; ghost var marks, done;
    ok, saved, marks, done := SwitchAll(k, th, nsfds);
    ghost var s1 := Now(k, th);
    assert ok ==> marks[..done] == marks;
    o, l, seen, t := CallBack(k, th, ok, body);
    ghost var s2, o2 := Now(k, th), o;
    BegunThenBalanced(s0.(locks := s0.locks + 1), s1, s2, saved, marks, done, l);
    ghost var oks;
    o, restored, oks := FinishInAndOut(k, th, saved, Saves(s0.view, marks), o);
    InAndOutBalances(s0, s1, s2, Now(k, th), l, saved, marks, done, restored, o.Normal?);
    FinishedFaults(s2, Now(k, th), saved, Saves(s0.view, marks), restored, o.Normal?);
    WiderInAndOut(s0, s1, s2, Now(k, th), saved, marks, done, restored, o.Normal?);
    CalledWider(body, Between(s1, s2), Between(s0, Now(k, th)), o2, o, seen, t);
    CountedAround(body, seen, t, l, if o.Normal? then 0 else 1, s2.faults - s1.faults, k.faults - s0.faults);
    l := l.(stuck := l.stuck + if o.Normal? then 0 else 1);
  }

  // The types that goSeparate must take over from the caller.
  method PickupTypes(k: Task, nsfds: seq<int>) returns (ok: bool, types: seq<NsType>)
    requires k.Valid()
    modifies k`faults
    ensures k.Valid() && k.faults >= old(k.faults) && (!ok ==> k.faults > old(k.faults))
    ensures ok && AllNamespaces(k.fds, nsfds) ==> types == Remaining(PICKUP, Types(RefsOf(k.fds, nsfds)))
  {
    types := PICKUP;
    for i := 0 to |nsfds|
      invariant k.Valid() && k.faults >= old(k.faults)
      invariant AllNamespaces(k.fds, nsfds) ==> types == Remaining(PICKUP, Types(RefsOf(k.fds, nsfds))[..i])
    {
      var typ := k.TypeOf(nsfds[i]);
      if typ.None? { return false, types; }
      types := Without(types, typ.value);
      if AllNamespaces(k.fds, nsfds) {
        var ts := Types(RefsOf(k.fds, nsfds));
        assert ts[..i + 1][..i] == ts[..i];
      }
    }
    ok := true;
    if AllNamespaces(k.fds, nsfds) {
      var ts := Types(RefsOf(k.fds, nsfds));
      assert ts[..|nsfds|] == ts;
    }
  }

  // spacetest.Current for each of types; each descriptor is scheduled for closing.
  method OpenCurrent(k: Task, th: Thread, types: seq<NsType>) returns (ok: bool, picked: seq<int>)
    requires k.Valid()
    modifies k`fds, k`faults, k`cleanups
    ensures k.Valid() && k.faults >= old(k.faults) && (!ok ==> k.faults > old(k.faults))
    ensures Opened(old(k.fds), k.fds, picked) && 0 !in picked
    ensures k.cleanups == old(k.cleanups) + picked
    ensures ok ==> Holding(k.fds, picked, Owned(th.view, types))
  {
    ghost var f0 := k.fds;
    picked := [];
    for i := 0 to |types|
      invariant k.Valid() && k.faults >= old(k.faults)
      invariant Opened(f0, k.fds, picked) && 0 !in picked
      invariant k.cleanups == old(k.cleanups) + picked
      invariant Holding(k.fds, picked, Owned(th.view, types[..i]))
    {
      ghost var f := k.fds;
      var fd := k.OpenSelf(th, types[i]);
      if fd < 0 { return false, picked; }
      OpenedOneMore(f0, f, picked, Owned(th.view, types[..i]), fd, Ref(types[i], th.view.Own(types[i])));
      assert Owned(th.view, types[..i + 1]) ==
             Owned(th.view, types[..i]) + [Ref(types[i], th.view.Own(types[i]))];
      k.DeferClose(fd);
      picked := picked + [fd];
    }
    ok := true;
    assert types[..|types|] == types;
  }

  // The worker attaches to each namespace that is not already its own.
  method VisitAll(k: Task, th: Thread, nsfds: seq<int>) returns (ok: bool)
    requires k.Valid() && th.locks > 0
    modifies k`faults, th`view
    ensures k.Valid() && k.faults >= old(k.faults) && (!ok ==> k.faults > old(k.faults))
    ensures th.locks == old(th.locks) && th.fsPrivate == old(th.fsPrivate)
    ensures ok && AllNamespaces(k.fds, nsfds) ==> th.view == Visited(old(th.view), RefsOf(k.fds, nsfds))
  {
    for i := 0 to |nsfds|
      invariant k.Valid() && k.faults >= old(k.faults)
      invariant AllNamespaces(k.fds, nsfds) ==> th.view == Visited(old(th.view), RefsOf(k.fds, nsfds)[..i])
    {
      if AllNamespaces(k.fds, nsfds) {
        assert RefsOf(k.fds, nsfds)[..i + 1][..i] == RefsOf(k.fds, nsfds)[..i];
      }
      var typ := k.TypeOf(nsfds[i]);
      if typ.None? { return false; }
      var same := k.IsOwn(th, nsfds[i], typ.value);
      if same.None? { return false; }
      if !same.value {
        ok := k.Setns(th, nsfds[i], None);
        if !ok { return; }
      }
    }
    ok := true;
    if AllNamespaces(k.fds, nsfds) {
      assert RefsOf(k.fds, nsfds)[..|nsfds|] == RefsOf(k.fds, nsfds);
    }
  }

  // The worker's own set-up: its thread is never unlocked.
  method SetUpWorker(k: Task, worker: Thread, mntnsfd: int, nsfds: seq<int>) returns (ok: bool)
    requires k.Valid()
    modifies k`faults, worker
    ensures k.Valid() && k.faults >= old(k.faults) && (!ok ==> k.faults > old(k.faults))
    ensures worker.locks == old(worker.locks) + 1 && worker.releases == old(worker.releases)
    ensures ok && 0 <= mntnsfd ==> worker.fsPrivate
    ensures ok && 0 <= mntnsfd && AllNamespaces(k.fds, nsfds) ==>
      && mntnsfd in k.fds && k.fds[mntnsfd].Namespace? && k.fds[mntnsfd].ref.typ == Mnt
      && worker.view == Visited(old(worker.view).Attached(k.fds[mntnsfd].ref), RefsOf(k.fds, nsfds))
  {
    worker.Lock();
    if 0 <= mntnsfd {
      ok := k.UnshareFs(worker);
      if !ok { return; }
      ok := k.Setns(worker, mntnsfd, Some(Mnt));
      if !ok { return; }
    }
    ok := VisitAll(k, worker, nsfds);
  }

  // References and pickups, read in the table that the pickups were opened in.
  lemma RefsWithPickups(f0: Fds, f1: Fds, nsfds: seq<int>, picked: seq<int>, refs: seq<Ref>)
    requires AllNamespaces(f0, nsfds) && Extends(f0, f1) && Holding(f1, picked, refs)
    ensures AllNamespaces(f1, nsfds + picked) && RefsOf(f1, nsfds + picked) == RefsOf(f0, nsfds) + refs
  {
    forall i | 0 <= i < |nsfds + picked|
      ensures (nsfds + picked)[i] in f1 && f1[(nsfds + picked)[i]] == Namespace((RefsOf(f0, nsfds) + refs)[i])
    {
      if i < |nsfds| {
        assert (nsfds + picked)[i] == nsfds[i] && nsfds[i] in f0;
      } else {
        assert Names(f1, picked[i - |nsfds|], refs[i - |nsfds|]);
      }
    }
  }

  // With its own descriptors pickups closed, what a worker leaves behind in the table is all that
  // is left behind.
  lemma SeparateBalances(s0: Snap, s1: Snap, s: Snap, s': Snap, s2: Snap, picked: seq<int>, l: Ledger)
    requires Opened(s0.fds, s1.fds, picked) && s1.cleanups == s0.cleanups + picked && s0.faults <= s1.faults
    requires s.fds == s1.fds && s.cleanups == s1.cleanups && s1.faults <= s.faults
    requires Balanced(s, s', l)
    requires s.ino == s0.ino && s.secluded == s0.secluded
    requires s2 == s0.(fds := s'.fds - Elems(picked), cleanups := s'.cleanups, faults := s'.faults,
                       ino := s'.ino, secluded := s'.secluded)
    ensures Balanced(s0, s2, Ledger(0, 0, l.lost))
  {
    PickupsScheduled(s0, s1, picked);
    TidyTransitive(s0.fds, s0.cleanups, s1.fds, s1.cleanups, {}, s'.fds, s'.cleanups, l.lost);
    assert {} + l.lost == l.lost;
    TidyMinus(s0.fds, s0.cleanups, s'.fds, s'.cleanups, l.lost, Elems(picked));
  }

  lemma PickupsScheduled(s0: Snap, s1: Snap, picked: seq<int>)
    requires Opened(s0.fds, s1.fds, picked) && s1.cleanups == s0.cleanups + picked
    ensures Tidy(s0.fds, s0.cleanups, s1.fds, s1.cleanups, {})
  {
    forall i | |s0.cleanups| <= i < |s1.cleanups| ensures s1.cleanups[i] !in s0.fds {
      assert s1.cleanups[i] in Elems(picked);
    }
    assert s1.cleanups[|s0.cleanups|..] == picked;
    forall fd | fd in s1.fds ensures fd in s0.fds || fd in picked {
      assert fd in s1.fds.Keys;
    }
  }

  lemma RefsKept(f0: Fds, f1: Fds, nsfds: seq<int>)
    requires AllNamespaces(f0, nsfds) && Extends(f0, f1)
    ensures AllNamespaces(f1, nsfds) && RefsOf(f1, nsfds) == RefsOf(f0, nsfds)
  {
    forall i | 0 <= i < |nsfds| ensures nsfds[i] in f1 && f1[nsfds[i]] == f0[nsfds[i]] {
      var fd := nsfds[i];
      assert fd in f0;
      assert f1[fd] == f0[fd];
    }
  }

  // What fn sees on a separate thread that started with view w, if all descriptors are namespaces.
  predicate SeenSeparately(seen: seq<View>, w: View, v: View, fds: Fds, mntnsfd: int, nsfds: seq<int>) {
    && |seen| <= 1
    && (|seen| == 1 && AllNamespaces(fds, [mntnsfd]) && AllNamespaces(fds, nsfds) ==>
          var mnt := RefsOf(fds, [mntnsfd])[0];
          mnt.typ == Mnt && seen[0] == Separated(w, v, mnt.ino, RefsOf(fds, nsfds)))
  }

  // s0, but for what has happened in its process since.
  ghost function Aside(s0: Snap, k: Task): Snap
    reads k
  {
    s0.(fds := k.fds, cleanups := k.cleanups, faults := k.faults, ino := k.nextIno, secluded := k.secluded)
  }

  // The goroutine of goSeparate, for a caller that was at s0 before it opened the pickups.
  method Worker(k: Task, worker: Thread, mntnsfd: int, nsfds: seq<int>, picked: seq<int>, body: Prog, ghost s0: Snap)
    returns (o: Outcome, l: Ledger, seen: seq<View>, ghost t: Seen)
    requires k.Valid() && Opened(s0.fds, k.fds, picked) && 0 !in picked && (forall fd | fd in s0.fds :: 0 <= fd)
    requires k.cleanups == s0.cleanups + picked && k.faults >= s0.faults
    requires k.nextIno == s0.ino && k.secluded == s0.secluded
    requires AllNamespaces(s0.fds, nsfds) ==> Holding(k.fds, picked, Pickups(s0.view, RefsOf(s0.fds, nsfds)))
    modifies k, worker
    ensures k.Valid() && l.left == l.stuck == 0
    ensures worker.locks > old(worker.locks) && worker.releases == old(worker.releases)
    ensures seen == [] ==> worker.locks == old(worker.locks) + 1
    ensures Balanced(s0, Aside(s0, k), l)
    ensures SeenSeparately(seen, old(worker.view), s0.view, s0.fds, mntnsfd, nsfds)
    ensures Called(body, Between(s0, Aside(s0, k)), o, seen, t)
    ensures o.Panic? && k.faults == s0.faults ==> |seen| == 1 && Raises(body, t)
    ensures forall fd | fd in picked :: fd !in k.fds
    ensures o.Normal? && !Recovers(body) ==> l.lost == {}
    decreases body, 3
  {
    hide Balanced, Called, SeenSeparately, Visited, Pickups, Holding, RefsOf, Wider;
    ghost var s1, w := Now(k, worker), worker.view;
    OpenedKeys(s0.fds, k.fds, picked);
    var ok := SetUpWorker(k, worker, mntnsfd, nsfds + picked);
    ghost var s := Now(k, worker);
    WorkerSees(s0.fds, s.fds, s0.view, w, s.view, mntnsfd, nsfds, picked, ok);
    o, l, seen, t := CallBack(k, worker, ok, body);
    ghost var s', lw := Now(k, worker), l;
    LedgerGrows(s, s', l);
    CloseAll(k, picked);
    l := Ledger(0, 0, l.lost);
    SeparateBalances(s0, s1, s, s', Aside(s0, k), picked, lw);
    WiderAround(s0.fds, s1.fds, picked);
    WiderMinus(Between(s, s'), Between(s0, Aside(s0, k)), picked);
    CalledWider(body, Between(s, s'), Between(s0, Aside(s0, k)), o, o, seen, t);
  }

  lemma WiderMinus(sp: Span, sp': Span, own: seq<int>)
    requires Extends(sp'.f, sp.f) && sp'.lo <= sp.lo && sp.hi <= sp'.hi && sp.secluded <= sp'.secluded
    requires sp'.g == sp.g - Elems(own) && forall fd | fd !in sp.f :: fd !in Elems(own)
    ensures Wider(sp, sp')
  {
  }

  lemma OpenedKeys(f0: Fds, f: Fds, own: seq<int>)
    requires Opened(f0, f, own)
    ensures Extends(f0, f)
  {
  }

  lemma LedgerGrows(s: Snap, s': Snap, l: Ledger)
    requires Balanced(s, s', l)
    ensures s.faults <= s'.faults && s.ino <= s'.ino && s.secluded <= s'.secluded && Extends(s.fds, s'.fds)
    ensures l.stuck == 0 ==> Back(s.view, s'.view)
    ensures s.locks <= s'.locks && (s.locks > 0 ==> s'.releases == s.releases)
  {
  }

  // What a worker sees that started with view w and whose set-up has led to view w'.
  lemma WorkerSees(f0: Fds, f: Fds, v: View, w: View, w': View, mntnsfd: int,
                   nsfds: seq<int>, picked: seq<int>, ok: bool)
    requires Extends(f0, f) && forall fd | fd in f0 :: 0 <= fd
    requires AllNamespaces(f0, nsfds) ==> Holding(f, picked, Pickups(v, RefsOf(f0, nsfds)))
    requires ok && 0 <= mntnsfd && AllNamespaces(f, nsfds + picked) ==>
      && mntnsfd in f && f[mntnsfd].Namespace? && f[mntnsfd].ref.typ == Mnt
      && w' == Visited(w.Attached(f[mntnsfd].ref), RefsOf(f, nsfds + picked))
    ensures SeenSeparately(if ok then [w'] else [], w, v, f0, mntnsfd, nsfds)
  {
    hide Visited, View.Attached, View.Own;
    if ok && AllNamespaces(f0, nsfds) && AllNamespaces(f0, [mntnsfd]) {
      RefsWithPickups(f0, f, nsfds, picked, Pickups(v, RefsOf(f0, nsfds)));
      RefsKept(f0, f, [mntnsfd]);
      assert [mntnsfd][0] in f0 && f[mntnsfd] == f0[mntnsfd];
      assert RefsOf(f0, [mntnsfd])[0] == f[mntnsfd].ref;
    }
  }

  // Open what the worker must take over from the caller.
  method PickUp(k: Task, th: Thread, nsfds: seq<int>) returns (ok: bool, picked: seq<int>)
    requires k.Valid()
    modifies k`fds, k`faults, k`cleanups
    ensures k.Valid() && k.faults >= old(k.faults) && (!ok ==> k.faults > old(k.faults))
    ensures Opened(old(k.fds), k.fds, picked) && 0 !in picked && k.cleanups == old(k.cleanups) + picked
    ensures ok && AllNamespaces(old(k.fds), nsfds) ==>
      Holding(k.fds, picked, Pickups(th.view, RefsOf(old(k.fds), nsfds)))
  {
    picked := [];
    var types;
    ok, types := PickupTypes(k, nsfds);
    if ok {
      ok, picked := OpenCurrent(k, th, types);
    } else {
      assert Elems(picked) == {} && k.cleanups == k.cleanups + picked;
    }
  }

  // worker0 is the view that the separate thread happened to start with.
  method GoSeparate(k: Task, th: Thread, mntnsfd: int, nsfds: seq<int>, body: Prog)
    returns (o: Outcome, l: Ledger, seen: seq<View>, ghost t: Seen, worker0: View, ghost worker: Thread?)
    requires k.Valid()
    modifies k, th
    ensures k.Valid() && Balanced(old(Now(k, th)), Now(k, th), l) && l.left == l.stuck == 0
    ensures th.view == old(th.view)
    ensures worker0.pid == th.view.pid && worker0.user == th.view.user
    ensures if worker == null then seen == [] else fresh(worker) && worker.locks > 0 && worker.releases == []
    ensures SeenSeparately(seen, worker0, th.view, old(k.fds), mntnsfd, nsfds)
    ensures Called(body, Between(old(Now(k, th)), Now(k, th)), o, seen, t)
    ensures o.Panic? && k.faults == old(k.faults) ==> |seen| == 1 && Raises(body, t)
    ensures o.Normal? && !Recovers(body) ==> l.lost == {}
    decreases body, 4
  {
    hide Called, Raises, Recovers, RefsOf, AllNamespaces;
    ghost var s0 := Now(k, th);
    worker0 := *;
    worker0 := worker0.(pid := th.view.pid, user := th.view.user);
    o, l, seen, t, worker := Panic, NOTHING, [], Unseen, null;
    th.Lock();
    var ok, picked := PickUp(k, th, nsfds);
    PickupsScheduled(s0, Now(k, th), picked);
    NotCalled(body, Between(s0, Now(k, th)));
    if ok {
      var thread := new Thread(worker0);
      worker := thread;
      o, l, seen, t := Worker(k, thread, mntnsfd, nsfds, picked, body, s0);
    }
    th.Unlock();
  }

  // Of all descriptors, mntnsfd is the last that names a mount namespace, and others are the rest.
  predicate Classified(f: Fds, all: seq<int>, mntnsfd: int, others: seq<int>) {
    && AllNamespaces(f, all) && AllNamespaces(f, others)
    && var refs := RefsOf(f, all);
      && User !in Types(refs) && RefsOf(f, others) == NonMnt(refs)
      && (mntnsfd < 0 <==> Mnt !in Types(refs))
      && (0 <= mntnsfd ==> Names(f, mntnsfd, Ref(Mnt, Last(refs, Mnt, 0))))
  }

  lemma ClassifiedOneMore(f: Fds, all: seq<int>, mntnsfd: int, others: seq<int>, fd: int)
    requires Classified(f, all, mntnsfd, others) && 0 <= fd && fd in f && f[fd].Namespace? && f[fd].ref.typ != User
    ensures f[fd].ref.typ == Mnt ==> Classified(f, all + [fd], fd, others)
    ensures f[fd].ref.typ != Mnt ==> Classified(f, all + [fd], mntnsfd, others + [fd])
  {
    var refs, r := RefsOf(f, all), f[fd].ref;
    assert RefsOf(f, all + [fd]) == refs + [r] && (refs + [r])[..|refs|] == refs;
    assert Types(refs + [r]) == Types(refs) + [r.typ];
    assert RefsOf(f, others + [fd]) == RefsOf(f, others) + [r];
  }

  lemma NothingClassified(f: Fds)
    ensures Classified(f, [], -1, [])
  {
  }

  // Sort the references: the last mount namespace, and all others in order. Fails for a descriptor
  // that is no namespace or a user namespace.
  method Classify(k: Task, all: seq<int>) returns (ok: bool, mntnsfd: int, others: seq<int>)
    requires k.Valid()
    modifies k`faults
    ensures k.Valid() && k.faults >= old(k.faults)
    ensures if ok then Classified(k.fds, all, mntnsfd, others) else k.faults > old(k.faults) || NamesUser(k.fds, all)
  {
    hide Classified;
    ok, mntnsfd, others := true, -1, [];
    NothingClassified(k.fds);
    for i := 0 to |all|
      invariant k.Valid() && k.faults >= old(k.faults)
      invariant Classified(k.fds, all[..i], mntnsfd, others)
    {
      var typ := k.TypeOf(all[i]);
      if typ.None? || typ.value == User { return false, -1, []; }
      ClassifiedOneMore(k.fds, all[..i], mntnsfd, others, all[i]);
      assert all[..i + 1] == all[..i] + [all[i]];
      if typ.value == Mnt {
        mntnsfd := all[i];
      } else {
        others := others + [all[i]];
      }
    }
    assert all[..|all|] == all;
  }

  lemma LaterFault(s0: Snap, s1: Snap, s2: Snap, l: Ledger)
    requires s1 == s0.(faults := s1.faults) && s0.faults <= s1.faults && Balanced(s1, s2, l)
    ensures Balanced(s0, s2, l) && s1.faults <= s2.faults
  {
  }

  lemma CountedMore(body: Prog, seen: seq<View>, t: Seen, l: Ledger, failed: int, failed': nat)
    requires failed <= failed' && (CountedOnce(body, seen, t, l, failed) || (seen == [] && l.left == l.stuck == 0))
    ensures CountedOnce(body, seen, t, l, failed')
  {
  }

  lemma NotCalled(body: Prog, sp: Span)
    ensures Called(body, sp, Panic, [], Unseen)
  {
  }

  lemma AtMostOnce(body: Prog, sp: Span, o: Outcome, seen: seq<View>, t: Seen)
    requires Called(body, sp, o, seen, t)
    ensures |seen| <= 1 && (o.Normal? ==> |seen| == 1)
  {
  }

  // Without a mount namespace the other references are all references.
  lemma ClassifiedRefs(f: Fds, all: seq<int>, mntnsfd: int, others: seq<int>)
    requires Classified(f, all, mntnsfd, others)
    ensures AllNamespaces(f, all) && User !in Types(RefsOf(f, all)) && (mntnsfd < 0 <==> Mnt !in Types(RefsOf(f, all)))
    ensures mntnsfd < 0 ==> AllNamespaces(f, others) && RefsOf(f, others) == RefsOf(f, all)
  {
    var refs := RefsOf(f, all);
    if mntnsfd < 0 {
      assert forall i | 0 <= i < |refs| :: Types(refs)[i] == refs[i].typ;
      NonMntOfNone(refs);
    }
  }

  lemma SeparateSees(f: Fds, v: View, all: seq<int>, mntnsfd: int, others: seq<int>, w: View, seen: seq<View>)
    requires Classified(f, all, mntnsfd, others) && 0 <= mntnsfd
    requires w.pid == v.pid && w.user == v.user && SeenSeparately(seen, w, v, f, mntnsfd, others)
    ensures |seen| == 1 ==> forall t :: seen[0].Own(t) == Fold(v, RefsOf(f, all)).Own(t)
  {
    var refs := RefsOf(f, all);
    assert RefsOf(f, [mntnsfd])[0] == Ref(Mnt, Last(refs, Mnt, 0));
    forall t ensures |seen| == 1 ==> seen[0].Own(t) == Fold(v, refs).Own(t) {
      if |seen| == 1 {
        LastOfPresent(refs, Mnt, 0, Last(refs, Mnt, 0));
        SeparateRefinesFold(w, v, refs, Last(refs, Mnt, 0), t);
      }
    }
  }

  /** Whatever route is taken: fn runs at most once, and not at all only if a user namespace is
      referenced or a system call fails. In each of its own slots it sees the left fold of the
      references over the caller's view. */
  method Execute(k: Task, th: Thread, nsfd: int, nsfds: seq<int>, body: Prog)
    returns (o: Outcome, l: Ledger, seen: seq<View>, ghost t: Seen)
    requires k.Valid()
    modifies k, th
    ensures k.Valid() && Balanced(old(Now(k, th)), Now(k, th), l)
    ensures Called(body, Between(old(Now(k, th)), Now(k, th)), o, seen, t)
    ensures o.Panic? && k.faults == old(k.faults) ==>
      if |seen| == 1 then Raises(body, t) else NamesUser(old(k.fds), [nsfd] + nsfds)
    ensures |seen| == 1 ==> AllNamespaces(old(k.fds), [nsfd] + nsfds)
    ensures seen == [] ==> CountedOnce(body, seen, t, l, k.faults - old(k.faults))
    ensures |seen| == 1 ==>
      var refs := RefsOf(old(k.fds), [nsfd] + nsfds);
      && User !in Types(refs)
      && (forall t :: seen[0].Own(t) == Fold(old(th.view), refs).Own(t))
      && (Mnt !in Types(refs) ==> seen[0] == Fold(old(th.view), refs)
                                  && CountedOnce(body, seen, t, l, k.faults - old(k.faults)))
      && (Mnt in Types(refs) ==> l.left == l.stuck == 0 && th.view == old(th.view))
    ensures o.Normal? && !Recovers(body) ==> l.stuck == 0 && l.lost == {}
    decreases body, 5
  {
    hide Classified, SeenSeparately, Fold, Called, CountedOnce, Balanced, View.Own;
    ghost var s0 := Now(k, th);
    var all := [nsfd] + nsfds;
    var ok, mntnsfd, others := Classify(k, all);
    if !ok {
      BalancedSelf(Now(k, th));
      NotCalled(body, Between(s0, Now(k, th)));
      CountedMore(body, [], Unseen, NOTHING, 0, k.faults - s0.faults);
      LaterFault(s0, Now(k, th), Now(k, th), NOTHING);
      return Panic, NOTHING, [], Unseen;
    }
    ghost var s1 := Now(k, th);
    ClassifiedRefs(k.fds, all, mntnsfd, others);
    if 0 <= mntnsfd {
      var worker0; ghost var worker;
      o, l, seen, t, worker0, worker := GoSeparate(k, th, mntnsfd, others, body);
      SeparateSees(s1.fds, s1.view, all, mntnsfd, others, worker0, seen);
    } else {
      var restored;
      o, l, seen, t, restored := GoInAndOut(k, th, others, body);
    }
    AtMostOnce(body, Between(s0, Now(k, th)), o, seen, t);
    LaterFault(s0, s1, Now(k, th), l);
    if seen == [] || mntnsfd < 0 {
      CountedMore(body, seen, t, l, k.faults - s1.faults, k.faults - s0.faults);
    }
  }

  // An API call that failed after locking the thread, having opened fd at most.
  lemma FailureBalances(s0: Snap, s1: Snap, fd: int, o: Object, locked: nat)
    requires fd !in s0.fds && s1.fds == (if fd < 0 then s0.fds else s0.fds[fd := o])
    requires s1.cleanups == s0.cleanups && (fd < 0 || s0.faults < s1.faults) && s0.faults <= s1.faults
    requires locked == 0 ==> s1.view == s0.view && s1.fsPrivate == s0.fsPrivate
    requires s1.locks == s0.locks + locked && s1.ino >= s0.ino && s1.secluded >= s0.secluded
    requires s1.releases == s0.releases
    ensures Balanced(s0, s1, Ledger(0, locked, if fd < 0 then {} else {fd}))
  {
  }

  // s0 enters a bracket to s1 with the caller's namespace saved, runs to s2, leaves to s3.
  lemma BracketBalances(s0: Snap, s1: Snap, s2: Snap, s3: Snap, saved: int, o: Object, l: Ledger, l': Ledger)
    requires saved !in s0.fds && s1.fds == s0.fds[saved := o]
    requires s1.cleanups == s0.cleanups && s0.faults <= s1.faults
    requires Balanced(s1, s2, l)
    requires s3.cleanups == s2.cleanups && s2.faults <= s3.faults
    requires || (s3.fds == s2.fds - {saved} && l'.lost == l.lost)
             || (s3.fds == s2.fds && l'.lost == l.lost + {saved} && s2.faults < s3.faults)
    requires s3.locks == s0.locks + l'.left + l'.stuck
    requires s0.ino <= s1.ino && s2.ino <= s3.ino && s0.secluded <= s1.secluded && s2.secluded <= s3.secluded
    requires l'.stuck == 0 ==> Back(s0.view, s3.view) && (s3.fsPrivate <==> s0.fsPrivate || l'.left > 0)
    requires s1.locks > 0 && s1.releases == s0.releases
    requires s3.releases == s2.releases + if s3.locks == 0 then [Release(s3.view, s3.fsPrivate)] else []
    ensures Balanced(s0, s3, l')
  {
    TidyAround(s0.fds, s0.cleanups, {saved}, s1.fds, s2.fds, s2.cleanups, l.lost);
    if s3.locks == 0 { ReleasedOnce(s0, s3); }
  }

  lemma BalancedKeeps(s: Snap, s': Snap, l: Ledger, fd: int)
    requires Balanced(s, s', l) && fd in s.fds
    ensures fd in s'.fds && s'.fds[fd] == s.fds[fd]
    ensures s.faults <= s'.faults && s.ino <= s'.ino && s.secluded <= s'.secluded
    ensures s'.locks == s.locks + l.left + l.stuck
    ensures l.stuck == 0 ==> Back(s.view, s'.view) && (s'.fsPrivate <==> s.fsPrivate || l.left > 0)
  {
    assert fd in s.fds.Keys;
  }

  // Leaving a bracket of an enterable type undoes entering it.
  lemma LeaveUndoesEnter(v: View, typ: NsType, ino: Ino, w: View)
    requires typ in ENTERABLE && (typ == Pid ==> v.pidForChildren == v.pid)
    requires Back(v.Unshared(typ, ino), w)
    ensures Back(v, w.Attached(Ref(typ, v.Own(typ))))
  {
  }

  // s0 makes a namespace and enters it to s1, runs to s2, leaves to s3.
  predicate BracketSpans(s0: Snap, s1: Snap, s2: Snap, s3: Snap, saved: int, o: Object, ino: Ino) {
    && saved !in s0.fds && s1.fds == s0.fds[saved := o] && s0.ino <= ino && s1.ino == ino + 1
    && (s3.fds == s2.fds || s3.fds == s2.fds - {saved})
    && s1.ino <= s2.ino <= s3.ino && s1.secluded <= s2.secluded <= s3.secluded
    && s0.faults <= s1.faults <= s2.faults <= s3.faults
  }

  // A bracket reports what its body reports, or that it failed.
  lemma BracketReports(p: Prog, s0: Snap, s1: Snap, s2: Snap, s3: Snap, saved: int, ob: Object, ino: Ino,
                       o: Outcome, o': Outcome, t: Seen)
    requires BracketSpans(s0, s1, s2, s3, saved, ob, ino) && (p.Enter? || p.EnterMnt?) && Reports(p.body, s1, s2, o, t)
    requires || (p.EnterMnt? && ino in s1.secluded && s1.view == s0.view.Unshared(Mnt, ino))
             || (p.Enter? && p.typ in ENTERABLE && s1.view == s0.view.Unshared(p.typ, ino))
    requires o' == o || (o'.Panic? && s0.faults < s3.faults)
    ensures Reports(p, s0, s3, o', Within(ino, t))
  {
    var sp, sp' := Between(s1, s2), Between(s0, s3).(lo := ino + 1);
    assert Wider(sp, sp') by {
      assert saved in s1.fds;
    }
    FollowsWider(p.body, s1.view, sp, sp', t);
  }

  lemma LeaveUndoesEnterMnt(v: View, ino: Ino, w: View)
    requires Back(v.Unshared(Mnt, ino), w)
    ensures Back(v, w.Attached(Ref(Mnt, v.mnt)))
  {
  }

  lemma NothingSeen(p: Prog, s: Snap, s': Snap)
    requires s.faults < s'.faults || Raises(p, Unseen)
    ensures Reports(p, s, s', Panic, Unseen)
  {
  }

  // defer EnterTransient(typ)(); body
  method RunEnter(k: Task, th: Thread, typ: NsType, body: Prog) returns (o: Outcome, l: Ledger, ghost t: Seen)
    requires k.Valid()
    modifies k, th
    ensures k.Valid() && Balanced(old(Now(k, th)), Now(k, th), l)
    ensures Reports(Enter(typ, body), old(Now(k, th)), Now(k, th), o, t)
    ensures Counted(Enter(typ, body), t, l, k.faults - old(k.faults))
    ensures o.Normal? && !Recovers(body) ==> l.stuck == 0 && l.lost == {}
    ensures k.faults == old(k.faults) && !Executes(body) ==> l.stuck == 0
    decreases body, 3
  {
    hide Balanced, Reports, Back, View.Unshared, View.Attached, Counted;
    ghost var s0 := Now(k, th);
    var entered, saved := EnterTransient(k, th, typ);
    ghost var s1 := Now(k, th);
    if entered.Panic? {
      NothingSeen(Enter(typ, body), s0, s1);
      var locked := if typ in ENTERABLE then 1 else 0;
      FailureBalances(s0, s1, saved, Namespace(Ref(typ, s0.view.Own(typ))), locked);
      l := Ledger(0, locked, if saved < 0 then {} else {saved});
      NothingCounts(Enter(typ, body), l, k.faults - s0.faults);
      return Panic, l, Unseen;
    }
    o, l, t := RunInside(k, th, typ, body, saved, s0, old(k.nextIno));
  }

  // The bracket of EnterTransient has been entered from s0.
  ghost predicate EnteredFrom(s0: Snap, s: Snap, typ: NsType, saved: int, ino: Ino) {
    && typ in ENTERABLE && (typ == Pid ==> s0.view.pidForChildren == s0.view.pid)
    && saved > 0 && saved !in s0.fds && s0.faults <= s.faults
    && s == s0.(fds := s0.fds[saved := Namespace(Ref(typ, s0.view.Own(typ)))], faults := s.faults,
                ino := ino + 1, view := s0.view.Unshared(typ, ino), locks := s0.locks + 1)
    && s0.ino == ino
  }

  // Leaving a bracket restores the namespace saved for it, and closes that, or fails and panics.
  predicate Left(s: Snap, s': Snap, saved: int, r: Ref, mnt: bool, o: Outcome, o': Outcome, l: Ledger, l': Ledger) {
    || (s' == s.(fds := s.fds - {saved}, faults := s'.faults, view := s.view.Attached(r), locks := s'.locks,
                 releases := s.releases + if s'.locks == 0 then [Release(s'.view, s'.fsPrivate)] else [])
        && s.faults <= s'.faults && o' == o
        && (if mnt then s'.locks == s.locks && l' == l.(left := l.left + 1) else s'.locks + 1 == s.locks && l' == l))
    || (s' == s.(faults := s'.faults) && s.faults < s'.faults && o'.Panic?
        && l' == l.(stuck := l.stuck + 1, lost := l.lost + {saved}))
  }

  // Entered to s1, run to s2, left to s3.
  lemma InsideEnds(typ: NsType, body: Prog, s0: Snap, s1: Snap, s2: Snap, s3: Snap, saved: int, ino: Ino,
                   o: Outcome, o': Outcome, t: Seen, lb: Ledger, l: Ledger)
    requires EnteredFrom(s0, s1, typ, saved, ino) && Balanced(s1, s2, lb) && Reports(body, s1, s2, o, t)
    requires Counted(body, t, lb, s2.faults - s1.faults)
    requires Left(s2, s3, saved, Ref(typ, s0.view.Own(typ)), false, o, o', lb, l)
    ensures Balanced(s0, s3, l) && Reports(Enter(typ, body), s0, s3, o', Within(ino, t))
    ensures Counted(Enter(typ, body), Within(ino, t), l, s3.faults - s0.faults) && s0.faults <= s3.faults
  {
    hide Balanced, Reports, Counted, Back, View.Unshared, View.Attached, View.Own;
    var ob := Namespace(Ref(typ, s0.view.Own(typ)));
    BalancedKeeps(s1, s2, lb, saved);
    if lb.stuck == 0 {
      LeaveUndoesEnter(s0.view, typ, ino, s2.view);
    }
    BracketBalances(s0, s1, s2, s3, saved, ob, lb, l);
    BracketReports(Enter(typ, body), s0, s1, s2, s3, saved, ob, ino, o, o', t);
    BracketCounts(Enter(typ, body), ino, t, lb, l, s2.faults - s1.faults, s3.faults - s0.faults);
  }

  method RunInside(k: Task, th: Thread, typ: NsType, body: Prog, saved: int, ghost s0: Snap, ghost ino: Ino)
    returns (o: Outcome, l: Ledger, ghost t: Seen)
    requires k.Valid() && EnteredFrom(s0, Now(k, th), typ, saved, ino)
    modifies k, th
    ensures k.Valid() && Balanced(s0, Now(k, th), l)
    ensures Reports(Enter(typ, body), s0, Now(k, th), o, t)
    ensures Counted(Enter(typ, body), t, l, k.faults - s0.faults)
    ensures o.Normal? && !Recovers(body) ==> l.stuck == 0 && l.lost == {}
    ensures k.faults == s0.faults && !Executes(body) ==> l.stuck == 0
    decreases body, 2
  {
    hide Balanced, Reports, Back, View.Unshared, View.Attached, Counted;
    ghost var s1 := Now(k, th);
    o, l, t := Run(k, th, body);
    ghost var s2, o2, inner, lb := Now(k, th), o, t, l;
    BalancedKeeps(s1, s2, l, saved);
    var left := LeaveTransient(k, th, typ, saved);
    if left.Panic? {
      o, l := Panic, l.(stuck := l.stuck + 1, lost := l.lost + {saved});
    }
    t := Within(ino, t);
    InsideEnds(typ, body, s0, s1, s2, Now(k, th), saved, ino, o2, o, inner, lb, l);
  }

  // defer mntns.EnterTransient()(); body
  method RunEnterMnt(k: Task, th: Thread, body: Prog) returns (o: Outcome, l: Ledger, ghost t: Seen)
    requires k.Valid()
    modifies k, th
    ensures k.Valid() && Balanced(old(Now(k, th)), Now(k, th), l)
    ensures Reports(EnterMnt(body), old(Now(k, th)), Now(k, th), o, t)
    ensures Counted(EnterMnt(body), t, l, k.faults - old(k.faults))
    ensures o.Normal? && !Recovers(body) ==> l.stuck == 0 && l.lost == {} && l.left > 0
    ensures k.faults == old(k.faults) && !Executes(body) ==> l.stuck == 0
    decreases body, 3
  {
    hide Balanced, Counted, Reports, Back, View.Attached;
    ghost var s0 := Now(k, th);
    var entered, saved := EnterTransientMnt(k, th);
    if entered.Panic? {
      FailureBalances(s0, Now(k, th), saved, Namespace(Ref(Mnt, s0.view.mnt)), 1);
      l := Ledger(0, 1, if saved < 0 then {} else {saved});
      NothingCounts(EnterMnt(body), l, k.faults - s0.faults);
      NothingSeen(EnterMnt(body), s0, Now(k, th));
      return Panic, l, Unseen;
    }
    o, l, t := RunInsideMnt(k, th, body, saved, s0, old(k.nextIno));
  }

  ghost predicate EnteredMntFrom(s0: Snap, s: Snap, saved: int, ino: Ino) {
    && saved > 0 && saved !in s0.fds && s0.faults <= s.faults
    && s == s0.(fds := s0.fds[saved := Namespace(Ref(Mnt, s0.view.mnt))], faults := s.faults,
                ino := ino + 1, secluded := s0.secluded + {ino}, view := s0.view.Unshared(Mnt, ino),
                locks := s0.locks + 1, fsPrivate := true)
    && s0.ino == ino
  }

  lemma InsideMntEnds(body: Prog, s0: Snap, s1: Snap, s2: Snap, s3: Snap, saved: int, ino: Ino,
                      o: Outcome, o': Outcome, t: Seen, lb: Ledger, l: Ledger)
    requires EnteredMntFrom(s0, s1, saved, ino) && Balanced(s1, s2, lb) && Reports(body, s1, s2, o, t)
    requires Counted(body, t, lb, s2.faults - s1.faults)
    requires Left(s2, s3, saved, Ref(Mnt, s0.view.mnt), true, o, o', lb, l)
    ensures Balanced(s0, s3, l) && Reports(EnterMnt(body), s0, s3, o', Within(ino, t))
    ensures Counted(EnterMnt(body), Within(ino, t), l, s3.faults - s0.faults) && s0.faults <= s3.faults
  {
    hide Balanced, Reports, Counted, Back, View.Unshared, View.Attached;
    var ob := Namespace(Ref(Mnt, s0.view.mnt));
    BalancedKeeps(s1, s2, lb, saved);
    if lb.stuck == 0 {
      LeaveUndoesEnterMnt(s0.view, ino, s2.view);
    }
    BracketBalances(s0, s1, s2, s3, saved, ob, lb, l);
    BracketReports(EnterMnt(body), s0, s1, s2, s3, saved, ob, ino, o, o', t);
    BracketCounts(EnterMnt(body), ino, t, lb, l, s2.faults - s1.faults, s3.faults - s0.faults);
  }

  method RunInsideMnt(k: Task, th: Thread, body: Prog, saved: int, ghost s0: Snap, ghost ino: Ino)
    returns (o: Outcome, l: Ledger, ghost t: Seen)
    requires k.Valid() && EnteredMntFrom(s0, Now(k, th), saved, ino)
    modifies k, th
    ensures k.Valid() && Balanced(s0, Now(k, th), l)
    ensures Reports(EnterMnt(body), s0, Now(k, th), o, t)
    ensures Counted(EnterMnt(body), t, l, k.faults - s0.faults)
    ensures o.Normal? && !Recovers(body) ==> l.stuck == 0 && l.lost == {} && l.left > 0
    ensures k.faults == s0.faults && !Executes(body) ==> l.stuck == 0
    decreases body, 2
  {
    hide Balanced, Reports, Back, View.Unshared, View.Attached, Counted;
    ghost var s1 := Now(k, th);
    o, l, t := Run(k, th, body);
    ghost var s2, o2, inner, lb := Now(k, th), o, t, l;
    BalancedKeeps(s1, s2, l, saved);
    var left := LeaveTransientMnt(k, th, saved);
    if left.Normal? {
      l := l.(left := l.left + 1);
    } else {
      o, l := Panic, l.(stuck := l.stuck + 1, lost := l.lost + {saved});
    }
    t := Within(ino, t);
    InsideMntEnds(body, s0, s1, s2, Now(k, th), saved, ino, o2, o, inner, lb, l);
  }

  method RunNew(k: Task, th: Thread, typ: NsType) returns (o: Outcome, l: Ledger, ghost t: Seen)
    requires k.Valid()
    modifies k, th
    ensures k.Valid() && Balanced(old(Now(k, th)), Now(k, th), l)
    ensures l.left == 0 && l.stuck <= k.faults - old(k.faults)
    ensures o.Normal? || k.faults == old(k.faults) ==> l.stuck == 0 && l.lost == {}
    ensures Reports(New(typ), old(Now(k, th)), Now(k, th), o, t) && (t.Unseen? || t.Created?)
  {
    ghost var s0 := Now(k, th);
    var fd;
    o, fd := NewTransient(k, th, typ);
    l, t := NOTHING, if o.Normal? then Created(fd, s0.ino) else Unseen;
    if o.Panic? && typ in CREATABLE {
      FailureBalances(s0, Now(k, th), fd, Namespace(Ref(typ, old(k.nextIno))), 1);
      l := Ledger(0, 1, if fd < 0 then {} else {fd});
    } else if o.Panic? {
      BalancedSelf(s0);
    } else {
      assert k.cleanups[|s0.cleanups|..] == [fd];
    }
  }

  // mntns.NewTransient, whose idler is another thread.
  method RunNewMnt(k: Task, th: Thread) returns (o: Outcome, l: Ledger, ghost t: Seen)
    requires k.Valid()
    modifies k
    ensures k.Valid() && Balanced(old(Now(k, th)), Now(k, th), l) && l == NOTHING
    ensures k.faults >= old(k.faults)
    ensures Reports(NewMnt, old(Now(k, th)), Now(k, th), o, t) && (t.Unseen? || t.Created?)
  {
    ghost var s0 := Now(k, th);
    var fd;
    var idler0: View := *;
    ghost var idler;
    o, fd, idler := NewTransientMnt(k, idler0);
    l, t := NOTHING, if o.Normal? then Created(fd, s0.ino) else Unseen;
    assert o.Normal? ==> k.cleanups[|s0.cleanups|..] == [fd];
  }

  method RunSeq(k: Task, th: Thread, p: Prog) returns (o: Outcome, l: Ledger, ghost t: Seen)
    requires k.Valid() && p.Seq?
    modifies k, th
    ensures k.Valid() && Balanced(old(Now(k, th)), Now(k, th), l)
    ensures Reports(p, old(Now(k, th)), Now(k, th), o, t)
    ensures Counted(p, t, l, k.faults - old(k.faults))
    ensures o.Normal? && !Recovers(p) ==> l.stuck == 0 && l.lost == {}
    ensures k.faults == old(k.faults) && !Executes(p) ==> l.stuck == 0
    decreases p, 0
  {
    hide Counted, Balanced, Back, Reports;
    ghost var s0 := Now(k, th);
    var first, second := p.first, p.second;
    o, l, t := Run(k, th, first);
    ghost var s1, o1, t1, t2, la, l2 := Now(k, th), o, t, Unseen, l, NOTHING;
    LedgerGrows(s0, s1, l);
    NothingCounts(second, NOTHING, 0);
    if o.Normal? {
      var lb;
      o, lb, t2 := Run(k, th, second);
      LedgerGrows(s1, Now(k, th), lb);
      BalancedSeq(s0, s1, l, Now(k, th), lb);
      l, l2 := Plus(l, lb), lb;
    }
    assert la.lost + {} == la.lost;
    t := Both(t1, s1.view, s1.fds, s1.ino, t2);
    SeqCounts(p, t, la, l2, s1.faults - s0.faults, k.faults - s1.faults);
    SeqReports(p, s0, s1, Now(k, th), o1, t1, o, t2);
  }

  lemma SeqReports(p: Prog, s0: Snap, s1: Snap, s2: Snap, o1: Outcome, t1: Seen, o: Outcome, t2: Seen)
    requires p.Seq? && Reports(p.first, s0, s1, o1, t1)
    requires Extends(s0.fds, s1.fds) && s0.ino <= s1.ino <= s2.ino && s0.faults <= s1.faults <= s2.faults
    requires s1.secluded <= s2.secluded
    requires if o1.Panic? then o.Panic? && t2 == Unseen && s1 == s2
             else Reports(p.second, s1, s2, o, t2) && (!Recovers(p.first) ==> Back(s0.view, s1.view))
    ensures Reports(p, s0, s2, o, Both(t1, s1.view, s1.fds, s1.ino, t2))
  {
    FollowsWider(p.first, s0.view, Between(s0, s1), Between(s0, s1).(secluded := s2.secluded), t1);
  }

  lemma RecoverCounts(body: Prog, t: Seen, l: Ledger, failed: int)
    requires Counted(body, t, l, failed)
    ensures Counted(Recover(body), t, l, failed)
  {
  }

  lemma SkipCounts(v: View)
    ensures Counted(Skip, Looked(v), NOTHING, 0)
  {
  }

  lemma ExecCounts(p: Prog, seen: seq<View>, inner: Seen, t: Seen, l: Ledger, failed: nat)
    requires p.Exec? && (if |seen| == 1 then t.Through? && t.inner == inner else t.Unseen? || t.Refused?)
    requires |seen| <= 1 && (seen == [] ==> CountedOnce(p.body, seen, inner, l, failed))
    requires t.Through? && Mnt in Types(t.refs) ==> l.left == l.stuck == 0
    requires t.Through? && Mnt !in Types(t.refs) ==> CountedOnce(p.body, seen, inner, l, failed)
    ensures Counted(p, t, l, failed)
  {
    UnseenCounts(p);
  }

  lemma CreatedCounts(p: Prog, t: Seen, l: Ledger, failed: int)
    requires (p.New? || p.NewMnt?) && l.left == 0 && l.stuck <= failed
    ensures Counted(p, t, l, failed)
  {
  }

  /** Every program that nests the API restores what it found, whichever system calls fail and
      wherever it panics: the books balance. All that user code sees is what the nesting says, and it
      runs to its end unless a system call fails or the program panics by itself. Without a system
      call failing, a panic strands the thread only where it leaves Execute. */
  method Run(k: Task, th: Thread, p: Prog) returns (o: Outcome, l: Ledger, ghost t: Seen)
    requires k.Valid()
    modifies k, th
    ensures k.Valid() && Balanced(old(Now(k, th)), Now(k, th), l)
    ensures Reports(p, old(Now(k, th)), Now(k, th), o, t)
    ensures Counted(p, t, l, k.faults - old(k.faults))
    ensures o.Normal? && !Recovers(p) ==> l.stuck == 0 && l.lost == {}
    ensures k.faults == old(k.faults) && !Executes(p) ==> l.stuck == 0
    decreases p, 1
  {
    ghost var s0 := Now(k, th);
    hide Counted, CountedOnce, MntLeft, Direct, Balanced;
    o, l, t := Normal, NOTHING, Unseen;
    match p
    case Skip =>
      t := Looked(th.view);
      BalancedSelf(s0);
      SkipCounts(th.view);
    case Fail =>
      o := Panic;
      BalancedSelf(s0);
      NothingCounts(p, l, 0);
    case Seq(first, second) =>
      o, l, t := RunSeq(k, th, p);
    case Recover(body) =>
      o, l, t := Run(k, th, body);
      o := Normal;
      RecoverCounts(body, t, l, k.faults - s0.faults);
    case Enter(typ, body) =>
      o, l, t := RunEnter(k, th, typ, body);
    case EnterMnt(body) =>
      o, l, t := RunEnterMnt(k, th, body);
    case NewMnt =>
      o, l, t := RunNewMnt(k, th);
      CreatedCounts(p, t, l, k.faults - s0.faults);
    case New(typ) =>
      o, l, t := RunNew(k, th, typ);
      CreatedCounts(p, t, l, k.faults - s0.faults);
    case Exec(nsfd, nsfds, body) =>
      var seen; ghost var inner;
      ghost var f := k.fds;
      o, l, seen, inner := Execute(k, th, nsfd, nsfds, body);
      if |seen| == 1 {
        t := Through(f, RefsOf(f, [nsfd] + nsfds), seen[0], inner);
      } else if NamesUser(f, [nsfd] + nsfds) {
        t := Refused(f);
      }
      LedgerGrows(s0, Now(k, th), l);
      ExecCounts(p, seen, inner, t, l, k.faults - s0.faults);
  }

  // The closes that DeferCleanup scheduled since, the last one first.
  method CleanUp(k: Task, done: nat)
    requires k.Valid() && done <= |k.cleanups| && 0 !in k.cleanups[done..]
    modifies k`fds, k`cleanups
    ensures k.Valid() && k.cleanups == old(k.cleanups)[..done]
    ensures k.fds == old(k.fds) - Elems(old(k.cleanups)[done..])
  {
    ghost var c := k.cleanups;
    while |k.cleanups| > done
      invariant k.Valid() && done <= |k.cleanups| <= |c| && k.cleanups == c[..|k.cleanups|]
      invariant k.fds == old(k.fds) - Elems(c[|k.cleanups|..])
    {
      var n := |k.cleanups| - 1;
      assert c[n] in c[done..];
      assert Elems(c[n..]) == Elems(c[n + 1..]) + {c[n]} by {
        assert c[n..] == [c[n]] + c[n + 1..];
      }
      k.Close(k.cleanups[n]);
      k.cleanups := k.cleanups[..n];
    }
  }

  // After the scheduled closes only lost descriptors are left of the new ones.
  lemma CleanedUp(f0: Fds, c0: seq<int>, f1: Fds, c1: seq<int>, lost: set<int>)
    requires Tidy(f0, c0, f1, c1, lost)
    ensures var f := f1 - Elems(c1[|c0|..]);
            Extends(f0, f) && f.Keys <= f0.Keys + lost && (lost == {} ==> f == f0)
  {
    var f := f1 - Elems(c1[|c0|..]);
    forall fd | fd in f0 ensures fd in f && f[fd] == f0[fd] {
      assert fd in f0.Keys && fd in f1;
    }
    forall fd | fd in f ensures fd in f0.Keys + lost {
      assert fd in f1 && fd !in c1[|c0|..];
    }
  }

  lemma ReleasesHome(s: Snap, s': Snap)
    requires ReleasedAsFound(s, s') && s.view.Settled() && !s.fsPrivate
    ensures forall i | |s.releases| <= i < |s'.releases| :: s'.releases[i] == Release(s.view, false)
  {
    forall i | |s.releases| <= i < |s'.releases| ensures s'.releases[i] == Release(s.view, false) {
      assert AsFound(s, s'.releases[i]);
      BackOfSettled(s.view, s'.releases[i].view);
    }
  }

  /** A whole test on a fresh thread: afterwards exactly the descriptors that were open before are
      open, plus those that failed calls lost. A thread that may be used again, at any moment of the test
      or after it, is as it was. s is the moment before the scheduled closes. */
  method Test(k: Task, th: Thread, p: Prog) returns (o: Outcome, l: Ledger, ghost t: Seen, ghost s: Snap)
    requires k.Valid() && th.locks == 0 && th.view.Settled() && !th.fsPrivate
    modifies k, th
    ensures k.Valid() && k.cleanups == old(k.cleanups)
    ensures Reports(p, old(Now(k, th)), s, o, t) && s == Now(k, th).(fds := s.fds, cleanups := s.cleanups)
    ensures Extends(old(k.fds), k.fds) && k.fds.Keys <= old(k.fds.Keys) + l.lost
    ensures |l.lost| <= k.faults - old(k.faults)
    ensures k.faults == old(k.faults) || (o.Normal? && !Recovers(p)) ==> k.fds == old(k.fds)
    ensures Counted(p, t, l, k.faults - old(k.faults)) && th.locks == l.left + l.stuck
    ensures th.locks == 0 ==> th.view == old(th.view) && !th.fsPrivate
    ensures forall i | |old(th.releases)| <= i < |th.releases| :: th.releases[i] == Release(old(th.view), false)
    ensures o.Normal? && !Recovers(p) ==>
      th.view == old(th.view) && th.locks == MntLeft(p, t) && (th.fsPrivate <==> MntLeft(p, t) > 0)
  {
    ghost var f0, s0 := k.fds, Now(k, th);
    var done := |k.cleanups|;
    o, l, t := Run(k, th, p);
    s := Now(k, th);
    ReleasesHome(s0, s);
    ghost var f1, c1 := k.fds, k.cleanups;
    assert 0 !in c1[done..] by {
      assert 0 in f0;
    }
    CleanUp(k, done);
    CleanedUp(f0, c1[..done], f1, c1, l.lost);
  }
}
