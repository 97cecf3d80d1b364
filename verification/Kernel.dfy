/** The operating system as this code sees it: OS-level threads, a process's descriptor table, and
    system calls that may fail at any time. */
module Kernel {
  import opened Wrappers
  import opened Namespaces
  import opened Flags

  datatype Object =
    | Namespace(ref: Ref)
    | Socket(pair: nat, far: bool)
    | Process(pid: nat)
    | File

  // A process's table of open descriptors.
  type Fds = map<int, Object>

  // A child process that was started in new namespaces: its number, its namespaces, and the pair of
  // sockets that connects it. The parent's end is near, the child's is far.
  datatype Child = Child(pid: nat, userNs: Ino, pidNs: Ino, pair: nat)

  // How a child was started: with the file that it inherits beside the standard ones, and the namespaces
  // that are made for it.
  datatype Birth = Birth(kid: Child, inherited: Object, spaces: Mask)

  // How a call ends: a failed Expect is a Panic.
  datatype Outcome = Normal | Panic

  // b has all of a's entries.
  predicate Extends(a: Fds, b: Fds) {
    a.Keys <= b.Keys && forall fd | fd in a :: b[fd] == a[fd]
  }

  predicate Names(fds: Fds, fd: int, r: Ref) {
    fd in fds && fds[fd] == Namespace(r)
  }

  // How a thread stands when it is given back to the Go scheduler.
  datatype Release = Release(view: View, fsPrivate: bool)

  // An OS-level thread, with the Go runtime's count of LockOSThread calls in force, and a record of how
  // it stood whenever the last of them was undone. Only a locked thread may be changed: the scheduler
  // takes a goroutine off any other one at any time.
  class Thread {
    var view: View
    var locks: nat
    var fsPrivate: bool
    var releases: seq<Release>

    constructor (view: View)
      ensures this.view == view && locks == 0 && !fsPrivate && releases == []
    {
      this.view, locks, fsPrivate, releases := view, 0, false, [];
    }

    method Lock()
      modifies this`locks
      ensures locks == old(locks) + 1
    {
      locks := locks + 1;
    }

    method Unlock()
      requires locks > 0
      modifies this`locks, this`releases
      ensures locks == old(locks) - 1
      ensures releases == old(releases) + if locks == 0 then [Release(view, fsPrivate)] else []
    {
      locks := locks - 1;
      if locks == 0 {
        releases := releases + [Release(view, fsPrivate)];
      }
    }
  }

  // A multi-threaded process: its open descriptors, the closes it has scheduled with DeferCleanup,
  // a count of the system calls that failed, the mount namespaces in which all mounts were made
  // private, the pairs of connections that it has made, and the children that it has started.
  class Task {
    var fds: Fds
    var cleanups: seq<int>
    var faults: nat
    var nextIno: Ino
    var secluded: set<Ino>
    var pairs: seq<nat>
    var children: seq<Birth>

    constructor ()
      ensures Valid() && fds == map[0 := File] && cleanups == [] && faults == 0 && secluded == {} && pairs == [] &&
              children == []
    {
      fds, cleanups, faults, nextIno, secluded, pairs, children := map[0 := File], [], 0, 0, {}, [], [];
    }

    // Descriptor 0 stays open, so no other descriptor is ever given the number 0.
    predicate Valid()
      reads this
    {
      && 0 in fds
      && (forall fd | fd in fds :: 0 <= fd)
    }

    // The lowest free descriptor.
    method Install(o: Object) returns (fd: int)
      requires Valid()
      modifies this`fds
      ensures Valid() && 0 < fd && fd !in old(fds) && fds == old(fds)[fd := o]
    {
      fd := 1;
      ghost var above := fds.Keys;
      while fd in fds
        invariant 0 < fd && above <= fds.Keys && forall n | n in fds && n >= fd :: n in above
        decreases above
      {
        above := above - {fd};
        fd := fd + 1;
      }
      fds := fds[fd := o];
    }

    // A call that makes a new descriptor for o, or fails with -1.
    method TryInstall(o: Object) returns (fd: int)
      requires Valid()
      modifies this`fds, this`faults
      ensures Valid()
      ensures fd < 0 ==> fds == old(fds) && faults > old(faults)
      ensures 0 <= fd ==> 0 < fd && fd !in old(fds) && fds == old(fds)[fd := o] && faults == old(faults)
    {
      var ok: bool := *;
      if ok {
        fd := Install(o);
      } else {
        fd := -1;
        Fault();
      }
    }

    method Fault()
      modifies this`faults
      ensures faults == old(faults) + 1
    {
      faults := faults + 1;
    }

    method Close(fd: int)
      requires Valid() && fd != 0
      modifies this`fds
      ensures Valid() && fds == old(fds) - {fd}
    {
      fds := fds - {fd};
    }

    method DeferClose(fd: int)
      requires Valid()
      modifies this`cleanups
      ensures Valid() && cleanups == old(cleanups) + [fd]
    {
      cleanups := cleanups + [fd];
    }

    // socketpair(2)
    method Socketpair(pair: nat) returns (ok: bool, near: int, far: int)
      requires Valid()
      modifies this`fds, this`faults
      ensures Valid()
      ensures !ok ==> fds == old(fds) && faults > old(faults)
      ensures ok ==>
        && faults == old(faults) && 0 < near && 0 < far && near != far && near !in old(fds) && far !in old(fds)
        && fds == old(fds)[near := Socket(pair, false)][far := Socket(pair, true)]
    {
      near, far := -1, -1;
      ok := *;
      if ok {
        near := Install(Socket(pair, false));
        far := Install(Socket(pair, true));
      } else {
        Fault();
      }
    }

    // clone(2) and execve(2)
    method StartChild(kid: Child, file: int, spaces: Mask) returns (ok: bool)
      requires Valid()
      modifies this`faults, this`children
      ensures Valid()
      ensures !ok ==> faults > old(faults) && children == old(children)
      ensures ok ==> faults == old(faults) && file in fds && children == old(children) + [Birth(kid, fds[file], spaces)]
    {
      ok := *;
      if ok && file in fds {
        children := children + [Birth(kid, fds[file], spaces)];
      } else {
        ok := false;
        Fault();
      }
    }

    // The process waits for a child of its own.
    ghost predicate HasChild(kid: Child)
      reads this
    {
      exists b | b in children :: b.kid == kid
    }

    // open("/proc/<pid>/ns/<t>"); -1 on failure
    method OpenChild(kid: Child, t: NsType) returns (fd: int)
      requires Valid() && HasChild(kid) && (t == User || t == Pid)
      modifies this`fds, this`faults
      ensures Valid()
      ensures fd < 0 ==> fds == old(fds) && faults > old(faults)
      ensures 0 <= fd ==> faults == old(faults) && 0 < fd && fd !in old(fds)
      ensures 0 <= fd ==> fds == old(fds)[fd := Namespace(Ref(t, if t == User then kid.userNs else kid.pidNs))]
    {
      fd := TryInstall(Namespace(Ref(t, if t == User then kid.userNs else kid.pidNs)));
    }

    // pidfd_open(2); -1 on failure
    method PidfdOpen(kid: Child) returns (fd: int)
      requires Valid() && HasChild(kid)
      modifies this`fds, this`faults
      ensures Valid()
      ensures fd < 0 ==> fds == old(fds) && faults > old(faults)
      ensures 0 <= fd ==> faults == old(faults) && 0 < fd && fd !in old(fds) && fds == old(fds)[fd := Process(kid.pid)]
    {
      fd := TryInstall(Process(kid.pid));
    }

    // ioctl(fd, NS_GET_NSTYPE)
    method TypeOf(fd: int) returns (t: Option<NsType>)
      requires Valid()
      modifies this`faults
      ensures Valid()
      ensures t.None? ==> faults > old(faults)
      ensures t.Some? ==> faults == old(faults) && fd in fds && fds[fd].Namespace? && fds[fd].ref.typ == t.value
    {
      var ok: bool := *;
      if ok && fd in fds && fds[fd].Namespace? {
        t := Some(fds[fd].ref.typ);
      } else {
        t := None;
        Fault();
      }
    }

    // open("/proc/thread-self/ns/<t>"); -1 on failure
    method OpenSelf(th: Thread, t: NsType) returns (fd: int)
      requires Valid()
      modifies this`fds, this`faults
      ensures Valid()
      ensures fd < 0 ==> fds == old(fds) && faults > old(faults)
      ensures 0 <= fd ==> faults == old(faults) && 0 < fd && fd !in old(fds)
      ensures 0 <= fd ==> fds == old(fds)[fd := Namespace(Ref(t, th.view.Own(t)))]
    {
      fd := TryInstall(Namespace(Ref(t, th.view.Own(t))));
    }

    // unshare(2): a thread of a multi-threaded process cannot make a user namespace, and a thread
    // that has already made a pid namespace for its children cannot make another one.
    method Unshare(th: Thread, t: NsType) returns (ok: bool)
      requires Valid() && th.locks > 0
      modifies this`faults, this`nextIno, th`view
      ensures Valid() && nextIno >= old(nextIno)
      ensures !ok ==> th.view == old(th.view) && faults > old(faults)
      ensures ok ==> faults == old(faults) && t != User
      ensures ok ==> t == Pid ==> old(th.view).pidForChildren == old(th.view).pid
      ensures ok ==> th.view == old(th.view).Unshared(t, old(nextIno)) && nextIno == old(nextIno) + 1
    {
      ok := *;
      if t == User || (t == Pid && th.view.pidForChildren != th.view.pid) {
        ok := false;
      }
      if ok {
        th.view := th.view.Unshared(t, nextIno);
        nextIno := nextIno + 1;
      } else {
        Fault();
      }
    }

    method UnshareFs(th: Thread) returns (ok: bool)
      requires Valid() && th.locks > 0
      modifies this`faults, th`fsPrivate
      ensures Valid()
      ensures !ok ==> th.fsPrivate == old(th.fsPrivate) && faults > old(faults)
      ensures ok ==> th.fsPrivate && faults == old(faults)
    {
      ok := *;
      if ok {
        th.fsPrivate := true;
      } else {
        Fault();
      }
    }

    // unshare(CLONE_FS | CLONE_NEWNS) does both or neither.
    method UnshareFsAndMnt(th: Thread) returns (ok: bool)
      requires Valid() && th.locks > 0
      modifies this`faults, this`nextIno, th`view, th`fsPrivate
      ensures Valid() && nextIno >= old(nextIno)
      ensures !ok ==> th.view == old(th.view) && th.fsPrivate == old(th.fsPrivate) && faults > old(faults)
      ensures ok ==> faults == old(faults) && th.fsPrivate
      ensures ok ==> th.view == old(th.view).Unshared(Mnt, old(nextIno)) && nextIno == old(nextIno) + 1
    {
      ok := *;
      if ok {
        th.view := th.view.Unshared(Mnt, nextIno);
        th.fsPrivate := true;
        nextIno := nextIno + 1;
      } else {
        Fault();
      }
    }

    // mount("none", "/", "/", MS_REC|MS_PRIVATE): changes no descriptor and no namespace slot
    method RemountPrivate(th: Thread) returns (ok: bool)
      requires Valid()
      modifies this`faults, this`secluded
      ensures Valid() && (if ok then faults == old(faults) else faults > old(faults))
      ensures secluded == if ok then old(secluded) + {th.view.mnt} else old(secluded)
    {
      ok := *;
      if ok {
        secluded := secluded + {th.view.mnt};
      } else {
        Fault();
      }
    }

    // setns(2); t is None when the caller accepts any type. A multi-threaded process cannot change
    // its user namespace.
    method Setns(th: Thread, fd: int, t: Option<NsType>) returns (ok: bool)
      requires Valid() && th.locks > 0
      modifies this`faults, th`view
      ensures Valid()
      ensures !ok ==> th.view == old(th.view) && faults == old(faults) + 1
      ensures ok ==> faults == old(faults) && fd in fds && fds[fd].Namespace? && fds[fd].ref.typ != User
      ensures ok ==> t.Some? ==> fds[fd].ref.typ == t.value
      ensures ok ==> th.view == old(th.view).Attached(fds[fd].ref)
    {
      ok := *;
      if ok && fd in fds && fds[fd].Namespace? && fds[fd].ref.typ != User
         && (t.Some? ==> fds[fd].ref.typ == t.value) {
        th.view := th.view.Attached(fds[fd].ref);
      } else {
        ok := false;
        Fault();
      }
    }

    // Whether descriptor fd names the thread's own namespace of type t: two stats that may fail.
    method IsOwn(th: Thread, fd: int, t: NsType) returns (same: Option<bool>)
      requires Valid()
      modifies this`faults
      ensures Valid()
      ensures same.None? ==> faults > old(faults)
      ensures same.Some? ==> faults == old(faults) && fd in fds && fds[fd].Namespace?
      ensures same.Some? ==> (same.value <==> fds[fd] == Namespace(Ref(t, th.view.Own(t))))
    {
      var ok: bool := *;
      if ok && fd in fds && fds[fd].Namespace? {
        same := Some(fds[fd] == Namespace(Ref(t, th.view.Own(t))));
      } else {
        same := None;
        Fault();
      }
    }
  }
}
