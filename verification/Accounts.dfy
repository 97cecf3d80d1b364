/** Books kept over a run: locks, descriptors and failed system calls. */
module Accounts {
  import opened Namespaces
  import opened Kernel

  // What a run has left on its thread and in the descriptor table: mount brackets that were left in
  // good order (which keep their lock), other locks that will never be released, and descriptors
  // that nothing will close.
  datatype Ledger = Ledger(left: nat, stuck: nat, lost: set<int>)

  const NOTHING := Ledger(0, 0, {})

  // Every descriptor in f0 is still there, and each new one is scheduled for closing or lost.
  predicate Tidy(f0: Fds, c0: seq<int>, f1: Fds, c1: seq<int>, lost: set<int>) {
    && Extends(f0, f1)
    && c0 <= c1
    && (forall i | |c0| <= i < |c1| :: c1[i] !in f0)
    && (forall fd | fd in lost :: fd !in f0)
    && (forall fd | fd in f1 :: fd in f0 || fd in lost || fd in c1[|c0|..])
  }

  lemma TidyTransitive(f0: Fds, c0: seq<int>, f1: Fds, c1: seq<int>, l1: set<int>,
                       f2: Fds, c2: seq<int>, l2: set<int>)
    requires Tidy(f0, c0, f1, c1, l1) && Tidy(f1, c1, f2, c2, l2)
    ensures Tidy(f0, c0, f2, c2, l1 + l2)
  {
    assert c2[|c0|..] == c1[|c0|..] + c2[|c1|..];
    forall i | |c0| <= i < |c2| ensures c2[i] !in f0 {
      if i < |c1| {
        assert c2[i] == c1[i];
      } else {
        assert c2[i] !in f1;
      }
    }
  }

  // A thread and its process at one moment.
  datatype Snap = Snap(fds: Fds, cleanups: seq<int>, faults: nat, ino: Ino, secluded: set<Ino>,
                       view: View, locks: nat, fsPrivate: bool, releases: seq<Release>)

  ghost function Now(k: Task, th: Thread): Snap
    reads k, th
  {
    Snap(k.fds, k.cleanups, k.faults, k.nextIno, k.secluded, th.view, th.locks, th.fsPrivate, th.releases)
  }

  // Whenever the thread was unlocked for good since, it stood as it did at the start.
  predicate ReleasedAsFound(s: Snap, s': Snap) {
    && s.releases <= s'.releases && (s.locks > 0 ==> s'.releases == s.releases)
    && forall i | |s.releases| <= i < |s'.releases| :: AsFound(s, s'.releases[i])
  }

  predicate AsFound(s: Snap, r: Release) {
    Back(s.view, r.view) && (r.fsPrivate <==> s.fsPrivate)
  }

  /** The books balance: the thread's lock count has grown by exactly the mount brackets that were
      left and the locks that are stuck. With none stuck the thread has its view back, and its fs
      attributes are its own only if a mount bracket was left, and at no moment between was it unlocked
      in another state. Every descriptor is accounted for,
      and no more are lost than system calls failed. */
  predicate Balanced(s: Snap, s': Snap, l: Ledger) {
    && s'.faults >= s.faults && s'.ino >= s.ino && s'.secluded >= s.secluded
    && s'.locks == s.locks + l.left + l.stuck
    && (l.stuck == 0 ==> Back(s.view, s'.view) && (s'.fsPrivate <==> s.fsPrivate || l.left > 0))
    && ReleasedAsFound(s, s')
    && Tidy(s.fds, s.cleanups, s'.fds, s'.cleanups, l.lost)
    && |l.lost| <= s'.faults - s.faults
  }

  lemma BalancedSeq(s0: Snap, s1: Snap, l1: Ledger, s2: Snap, l2: Ledger)
    requires Balanced(s0, s1, l1) && Balanced(s1, s2, l2)
    ensures Balanced(s0, s2, Plus(l1, l2))
  {
    TidyTransitive(s0.fds, s0.cleanups, s1.fds, s1.cleanups, l1.lost, s2.fds, s2.cleanups, l2.lost);
    ReleasedSeq(s0, s1, s2);
  }

  lemma ReleasedSeq(s0: Snap, s1: Snap, s2: Snap)
    requires ReleasedAsFound(s0, s1) && ReleasedAsFound(s1, s2) && s0.locks <= s1.locks
    requires s1.locks == s0.locks ==> Back(s0.view, s1.view)
    requires s1.locks == 0 ==> (s1.fsPrivate <==> s0.fsPrivate)
    ensures ReleasedAsFound(s0, s2)
  {
    forall i | |s0.releases| <= i < |s2.releases| ensures AsFound(s0, s2.releases[i]) {
      if i < |s1.releases| {
        assert s2.releases[i] == s1.releases[i];
      } else {
        assert AsFound(s1, s2.releases[i]);
      }
    }
  }

  function Plus(a: Ledger, b: Ledger): Ledger {
    Ledger(a.left + b.left, a.stuck + b.stuck, a.lost + b.lost)
  }

  // Descriptors own that were opened before a balanced stretch: closed after it they leave no
  // trace, kept open they are lost.
  lemma TidyAround(f0: Fds, c0: seq<int>, own: set<int>, f1: Fds,
                   f2: Fds, c2: seq<int>, lost: set<int>)
    requires Extends(f0, f1) && f1.Keys == f0.Keys + own && own !! f0.Keys
    requires Tidy(f1, c0, f2, c2, lost)
    ensures Tidy(f0, c0, f2 - own, c2, lost)
    ensures Tidy(f0, c0, f2, c2, lost + own)
  {
    forall i | |c0| <= i < |c2| ensures c2[i] !in f0 {
      assert c2[i] !in f1;
    }
    forall fd | fd in lost + own ensures fd !in f0 {
      if fd in lost { assert fd !in f1; }
    }
    forall fd | fd in f2 ensures fd in f0 || fd in lost + own || fd in c2[|c0|..] {
      if fd in f1 { assert fd in f1.Keys; }
    }
    forall fd | fd in f2 - own ensures fd in f0 || fd in lost || fd in c2[|c0|..] {
      if fd in f1 { assert fd in f1.Keys; }
    }
  }

  function Elems(s: seq<int>): set<int> {
    set x | x in s
  }

  lemma ElemsConcat(a: seq<int>, b: seq<int>)
    ensures Elems(a + b) == Elems(a) + Elems(b)
  {
  }

  // f1 is f0 with the new descriptors own.
  predicate Opened(f0: Fds, f1: Fds, own: seq<int>) {
    Extends(f0, f1) && f1.Keys == f0.Keys + Elems(own) && Elems(own) !! f0.Keys
  }

  lemma OpenedAnother(f0: Fds, f1: Fds, own: seq<int>, fd: int, o: Object)
    requires Opened(f0, f1, own) && fd !in f1
    ensures Opened(f0, f1[fd := o], own + [fd])
  {
    assert Elems(own + [fd]) == Elems(own) + {fd};
    assert fd !in f0.Keys;
  }

  lemma OpenedThenClosed(f0: Fds, f1: Fds, own: seq<int>)
    requires Opened(f0, f1, own)
    ensures f1 - Elems(own) == f0
  {
    assert (f1 - Elems(own)).Keys == f0.Keys;
    forall fd | fd in f0 ensures fd in f1 - Elems(own) && (f1 - Elems(own))[fd] == f0[fd] {
      assert fd in f1 && f1[fd] == f0[fd];
    }
  }

  method CloseAll(k: Task, fds: seq<int>)
    requires k.Valid() && 0 !in fds
    modifies k`fds
    ensures k.Valid() && k.fds == old(k.fds) - Elems(fds)
  {
    for i := 0 to |fds|
      invariant k.Valid() && k.fds == old(k.fds) - Elems(fds[..i])
    {
      k.Close(fds[i]);
      assert Elems(fds[..i + 1]) == Elems(fds[..i]) + {fds[i]};
    }
    assert fds[..|fds|] == fds;
  }

  lemma TidyMinus(f0: Fds, c0: seq<int>, f1: Fds, c1: seq<int>, lost: set<int>, own: set<int>)
    requires Tidy(f0, c0, f1, c1, lost) && own !! f0.Keys
    ensures Tidy(f0, c0, f1 - own, c1, lost)
  {
  }

  // Unlocking a thread that is as it was.
  lemma ReleasedOnce(s: Snap, s': Snap)
    requires Back(s.view, s'.view) && (s'.fsPrivate <==> s.fsPrivate) && s.locks == 0
    requires s'.releases == s.releases + [Release(s'.view, s'.fsPrivate)]
    ensures ReleasedAsFound(s, s')
  {
  }

  lemma BalancedSelf(s: Snap)
    ensures Balanced(s, s, NOTHING)
  {
  }
}
