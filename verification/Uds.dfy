/** Descriptors in control messages: how many fit, and what receiving does with them. */
module Uds {
  import opened Kernel
  import opened Accounts

  // CMSG_ALIGN, CMSG_SPACE and CMSG_LEN for words of w bytes (sections 5.2 and 5.3 of RFC 3542): a header holds one
  // word and two 32-bit integers.
  function Align(len: nat, w: nat): nat
    requires w > 0
  {
    (len + w - 1) / w * w
  }

  function Header(w: nat): nat
    requires w > 0
  {
    Align(w + 8, w)
  }

  function CmsgSpace(len: nat, w: nat): nat
    requires w > 0
  {
    Header(w) + Align(len, w)
  }

  // How many 4-byte descriptors the kernel puts into a buffer of this size.
  function Fitting(oob: nat, w: nat): nat
    requires w > 0
  {
    if oob <= Header(w) then 0 else (oob - Header(w)) / 4
  }

  /** A buffer that ReceiveWithFds makes for n descriptors holds n rounded up to an even number of them
      with 64-bit words, and exactly n with 32-bit words. */
  lemma Capacity(n: nat)
    ensures Fitting(CmsgSpace(4 * n, 8), 8) == n + n % 2
    ensures Fitting(CmsgSpace(4 * n, 4), 4) == n
  {
    hide Align;
    Headers();
    AlignFour(n);
    AlignEight(n / 2);
  }

  lemma Headers()
    ensures Header(8) == 16 && Header(4) == 12
  {
  }

  lemma AlignFour(n: nat)
    ensures Align(4 * n, 4) == 4 * n
  {
    assert (4 * n + 3) / 4 == n;
  }

  lemma AlignEight(h: nat)
    ensures Align(4 * (2 * h), 8) == 8 * h && Align(4 * (2 * h + 1), 8) == 8 * h + 8
  {
    assert (4 * (2 * h) + 7) / 8 == h && (4 * (2 * h + 1) + 7) / 8 == h + 1;
  }

  // What the client and the service pass as maxfds, on a 64-bit system.
  const CLIENT_CAPACITY := Fitting(CmsgSpace(4 * 3, 8), 8)
  const SERVICE_CAPACITY := Fitting(CmsgSpace(4 * 0, 8), 8)

  lemma Capacities()
    ensures CLIENT_CAPACITY == 4 && SERVICE_CAPACITY == 0
    ensures Header(8) == 16 && Header(4) == 12
  {
    Headers();
    Capacity(3);
    Capacity(0);
  }

  // The receiver has new descriptors for the first n of these files; the others are dropped.
  predicate Received(files: seq<Object>, n: nat, r0: Fds, r1: Fds, fds: seq<int>) {
    && |fds| == (if |files| <= n then |files| else n)
    && Opened(r0, r1, fds) && 0 !in fds
    && (forall i | 0 <= i < |fds| :: fds[i] in r1 && r1[fds[i]] == files[i])
    && (forall i, j | 0 <= i < j < |fds| :: fds[i] != fds[j])
  }

  // recvmsg(2): the kernel installs as many descriptors as fit.
  method ReceiveFds(k: Task, files: seq<Object>, capacity: nat) returns (fds: seq<int>)
    requires k.Valid()
    modifies k`fds
    ensures k.Valid() && Received(files, capacity, old(k.fds), k.fds, fds)
  {
    ghost var r0 := k.fds;
    fds := [];
    while |fds| < |files| && |fds| < capacity
      invariant k.Valid() && |fds| <= |files| && |fds| <= capacity
      invariant Received(files[..|fds|], capacity, r0, k.fds, fds)
    {
      ghost var r := k.fds;
      var fd := k.Install(files[|fds|]);
      assert Elems(fds + [fd]) == Elems(fds) + {fd};
      assert fd !in r0.Keys;
      fds := fds + [fd];
    }
    assert |fds| == |files| ==> files[..|fds|] == files;
  }

  /** ReceiveWithFds: without a message nothing is received. If the control message cannot be parsed, its
      descriptors have been installed already, but the caller does not get to know them. */
  method ReceiveWithFds(k: Task, files: seq<Object>, capacity: nat, read: bool, parsed: bool)
    returns (ok: bool, fds: seq<int>, ghost installed: seq<int>)
    requires k.Valid()
    modifies k`fds
    ensures k.Valid() && (ok <==> read && parsed) && fds == if ok then installed else []
    ensures Received(if read then files else [], capacity, old(k.fds), k.fds, installed)
  {
    ok, fds, installed := false, [], [];
    if !read {
      assert Elems([]) == {};
      return;
    }
    var all := ReceiveFds(k, files, capacity);
    installed := all;
    if !parsed { return; }
    ok, fds := true, all;
  }
}
