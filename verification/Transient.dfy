/** EnterTransient and NewTransient, for most types on the calling thread, and for mount namespaces. */
module Transient {
  import opened Wrappers
  import opened Namespaces
  import opened Kernel

  const ENTERABLE := [Cgroup, Ipc, Net, Pid, Uts]
  const CREATABLE := [Cgroup, Ipc, Net, Uts]

  method EnterTransient(k: Task, th: Thread, typ: NsType) returns (o: Outcome, saved: int)
    requires k.Valid()
    modifies k`fds, k`faults, k`nextIno, th`view, th`locks
    ensures k.Valid() && k.faults >= old(k.faults)
    ensures k.nextIno >= old(k.nextIno) && (o.Normal? ==> k.nextIno == old(k.nextIno) + 1)
    ensures th.locks == old(th.locks) + if typ in {Cgroup, Ipc, Net, Pid, Uts} then 1 else 0
    ensures o.Normal? ==>
      && typ in {Cgroup, Ipc, Net, Pid, Uts} && (typ == Pid ==> old(th.view).pidForChildren == old(th.view).pid)
      && th.view == old(th.view).Unshared(typ, old(k.nextIno))
      && saved > 0 && saved !in old(k.fds)
      && k.fds == old(k.fds)[saved := Namespace(Ref(typ, old(th.view).Own(typ)))]
    ensures o.Panic? ==> th.view == old(th.view) && (typ in {Cgroup, Ipc, Net, Pid, Uts} ==> k.faults > old(k.faults))
    ensures o.Panic? ==> saved !in old(k.fds) && saved != 0 && (typ !in {Cgroup, Ipc, Net, Pid, Uts} ==> saved < 0)
    ensures o.Panic? ==> k.fds == if saved < 0 then old(k.fds)
                                  else old(k.fds)[saved := Namespace(Ref(typ, old(th.view).Own(typ)))]
  {
    saved := -1;
    if typ !in ENTERABLE { return Panic, saved; }
    th.Lock();
    saved := k.OpenSelf(th, typ);
    if saved < 0 { return Panic, saved; }
    var ok := k.Unshare(th, typ);
    o := if ok then Normal else Panic;
  }

  // The function that EnterTransient returns.
  method LeaveTransient(k: Task, th: Thread, typ: NsType, saved: int) returns (o: Outcome)
    requires k.Valid() && th.locks > 0 && saved > 0 && saved in k.fds && k.fds[saved].Namespace?
    modifies k`fds, k`faults, th`view, th`locks, th`releases
    ensures k.Valid() && k.faults >= old(k.faults)
    ensures o.Normal? ==> th.view == old(th.view).Attached(old(k.fds)[saved].ref)
    ensures o.Normal? ==> th.locks == old(th.locks) - 1 && k.fds == old(k.fds) - {saved}
    ensures th.releases == old(th.releases) + if th.locks == 0 then [Release(th.view, th.fsPrivate)] else []
    ensures o.Panic? ==> th.view == old(th.view) && th.locks == old(th.locks) && k.fds == old(k.fds)
    ensures o.Panic? ==> k.faults > old(k.faults)
  {
    var ok := k.Setns(th, saved, Some(typ));
    if !ok { return Panic; }
    k.Close(saved);
    th.Unlock();
    o := Normal;
  }

  // The part of NewTransient after callers has been opened; fd is negative when no new namespace
  // was opened.
  method CreateAndReturn(k: Task, th: Thread, typ: NsType, callers: int) returns (ok: bool, fd: int)
    requires k.Valid() && th.locks > 0 && typ in CREATABLE
    requires Names(k.fds, callers, Ref(typ, th.view.Own(typ))) && callers > 0
    modifies k`fds, k`faults, k`nextIno, th`view
    ensures k.Valid() && k.faults >= old(k.faults) && (!ok ==> k.faults > old(k.faults))
    ensures k.nextIno >= old(k.nextIno) && (0 <= fd ==> k.nextIno == old(k.nextIno) + 1)
    ensures ok ==> fd > 0 && th.view == old(th.view)
    ensures !ok ==> th.view == old(th.view) || th.view == old(th.view).Unshared(typ, old(k.nextIno))
    ensures 0 <= fd && !ok ==> th.view == old(th.view).Unshared(typ, old(k.nextIno))
    ensures fd != 0 && fd !in old(k.fds)
    ensures k.fds == if fd < 0 then old(k.fds) else old(k.fds)[fd := Namespace(Ref(typ, old(k.nextIno)))]
  {
    fd := -1;
    ok := k.Unshare(th, typ);
    if !ok { return; }
    fd := k.OpenSelf(th, typ);
    if fd < 0 { return false, -1; }
    ok := k.Setns(th, callers, Some(typ));
  }

  method NewTransient(k: Task, th: Thread, typ: NsType) returns (o: Outcome, fd: int)
    requires k.Valid()
    modifies k`fds, k`faults, k`nextIno, k`cleanups, th`view, th`locks, th`releases
    ensures k.Valid() && k.faults >= old(k.faults)
    ensures k.nextIno >= old(k.nextIno) && (0 <= fd ==> k.nextIno == old(k.nextIno) + 1)
    ensures o.Normal? ==>
      && typ in {Cgroup, Ipc, Net, Uts} && fd > 0 && th.view == old(th.view) && th.locks == old(th.locks)
      && th.releases == old(th.releases) + (if th.locks == 0 then [Release(th.view, th.fsPrivate)] else [])
      && k.cleanups == old(k.cleanups) + [fd]
    ensures o.Panic? ==>
      && k.cleanups == old(k.cleanups) && th.releases == old(th.releases)
      && th.locks == old(th.locks) + (if typ in {Cgroup, Ipc, Net, Uts} then 1 else 0)
      && (typ in {Cgroup, Ipc, Net, Uts} ==> k.faults > old(k.faults))
      && (th.view == old(th.view) || th.view == old(th.view).Unshared(typ, old(k.nextIno)))
      && (fd >= 0 ==> th.view == old(th.view).Unshared(typ, old(k.nextIno)))
    ensures fd != 0 && fd !in old(k.fds)
    ensures k.fds == if fd < 0 then old(k.fds) else old(k.fds)[fd := Namespace(Ref(typ, old(k.nextIno)))]
    ensures typ !in {Cgroup, Ipc, Net, Uts} ==> o.Panic? && th.view == old(th.view) && fd < 0
  {
    if typ !in CREATABLE { return Panic, -1; }
    th.Lock();
    var callers := k.OpenSelf(th, typ);
    if callers < 0 { return Panic, -1; }
    ghost var f := k.fds;
    var ok;
    ok, fd := CreateAndReturn(k, th, typ, callers);
    o := Panic;
    if ok {
      k.DeferClose(fd);
      th.Unlock();
      o := Normal;
    }
    k.Close(callers);  // deferred
    assert f - {callers} == old(k.fds);
  }

  // mntns.EnterTransient
  method EnterTransientMnt(k: Task, th: Thread) returns (o: Outcome, saved: int)
    requires k.Valid()
    modifies k`fds, k`faults, k`nextIno, k`secluded, th`view, th`locks, th`fsPrivate
    ensures k.Valid() && k.faults >= old(k.faults)
    ensures k.nextIno >= old(k.nextIno) && (o.Normal? ==> k.nextIno == old(k.nextIno) + 1)
    ensures th.locks == old(th.locks) + 1
    ensures saved != 0 && saved !in old(k.fds)
    ensures k.fds == if saved < 0 then old(k.fds)
                     else old(k.fds)[saved := Namespace(Ref(Mnt, old(th.view).mnt))]
    ensures o.Normal? ==> saved > 0 && th.fsPrivate && th.view == old(th.view).Unshared(Mnt, old(k.nextIno))
    ensures k.secluded == if o.Normal? then old(k.secluded) + {th.view.mnt} else old(k.secluded)
    ensures o.Panic? ==> k.faults > old(k.faults)
    ensures o.Panic? ==>
      || (th.view == old(th.view) && th.fsPrivate == old(th.fsPrivate))
      || (saved > 0 && th.view == old(th.view).Unshared(Mnt, old(k.nextIno)) && th.fsPrivate)
  {
    th.Lock();
    saved := k.OpenSelf(th, Mnt);
    if saved < 0 { return Panic, saved; }
    var ok := k.UnshareFsAndMnt(th);
    if ok {
      ok := k.RemountPrivate(th);
    }
    o := if ok then Normal else Panic;
  }

  // The function that mntns.EnterTransient returns: the thread stays locked.
  method LeaveTransientMnt(k: Task, th: Thread, saved: int) returns (o: Outcome)
    requires k.Valid() && th.locks > 0 && saved > 0 && saved in k.fds && k.fds[saved].Namespace?
    modifies k`fds, k`faults, th`view
    ensures k.Valid() && k.faults >= old(k.faults)
    ensures o.Normal? ==> th.view == old(th.view).Attached(old(k.fds)[saved].ref) && k.fds == old(k.fds) - {saved}
    ensures o.Panic? ==> th.view == old(th.view) && k.fds == old(k.fds) && k.faults > old(k.faults)
  {
    var ok := k.Setns(th, saved, None);
    if !ok { return Panic; }
    k.Close(saved);
    o := Normal;
  }

  // The goroutine of mntns.NewTransient, up to handing over its mount namespace: 0 stands for closing
  // the channel without handing over anything.
  method SetUpIdler(k: Task, idler: Thread) returns (fd: int)
    requires k.Valid()
    modifies k`fds, k`faults, k`nextIno, k`cleanups, k`secluded, idler
    ensures k.Valid() && k.faults >= old(k.faults) && idler.locks == old(idler.locks) + 1
    ensures idler.releases == old(idler.releases)
    ensures k.nextIno >= old(k.nextIno) && k.secluded >= old(k.secluded)
    ensures fd != 0 ==> k.nextIno == old(k.nextIno) + 1
    ensures fd == 0 ==> k.faults > old(k.faults) && k.fds == old(k.fds) && k.cleanups == old(k.cleanups)
    ensures fd != 0 ==>
      && fd > 0 && fd !in old(k.fds) && k.fds == old(k.fds)[fd := Namespace(Ref(Mnt, old(k.nextIno)))]
      && k.cleanups == old(k.cleanups) + [fd] && old(k.nextIno) in k.secluded
      && idler.view.mnt == old(k.nextIno) && idler.fsPrivate
  {
    idler.Lock();
    var ok := k.UnshareFsAndMnt(idler);
    if !ok { return 0; }
    ok := k.RemountPrivate(idler);
    if !ok { return 0; }
    fd := k.OpenSelf(idler, Mnt);
    if fd < 0 { return 0; }
    k.DeferClose(fd);
  }

  // mntns.NewTransient: the caller's own thread has no part in it, and the idler's stays locked.
  method NewTransientMnt(k: Task, idler0: View) returns (o: Outcome, fd: int, ghost idler: Thread)
    requires k.Valid()
    modifies k`fds, k`faults, k`nextIno, k`cleanups, k`secluded
    ensures k.Valid() && k.faults >= old(k.faults)
    ensures k.nextIno >= old(k.nextIno) && k.secluded >= old(k.secluded)
    ensures o.Normal? ==> k.nextIno == old(k.nextIno) + 1
    ensures o.Normal? ==>
      && fd > 0 && fd !in old(k.fds) && k.fds == old(k.fds)[fd := Namespace(Ref(Mnt, old(k.nextIno)))]
      && k.cleanups == old(k.cleanups) + [fd] && old(k.nextIno) in k.secluded
    ensures o.Panic? ==> k.faults > old(k.faults) && k.fds == old(k.fds) && k.cleanups == old(k.cleanups)
    ensures fresh(idler) && idler.locks > 0 && idler.releases == []
  {
    var thread := new Thread(idler0);
    idler := thread;
    fd := SetUpIdler(k, thread);
    o := if fd == 0 then Panic else Normal;
  }
}
