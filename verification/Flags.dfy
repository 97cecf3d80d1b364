/** CLONE_NEW* flags, and the sets of them that requests carry. */
module Flags {
  import opened Namespaces

  type Mask = bv64

  function Flag(t: NsType): Mask {
    match t
    case Time => 0x0000_0080
    case Mnt => 0x0002_0000
    case Cgroup => 0x0200_0000
    case Uts => 0x0400_0000
    case Ipc => 0x0800_0000
    case User => 0x1000_0000
    case Pid => 0x2000_0000
    case Net => 0x4000_0000
  }

  predicate Requests(spaces: Mask, t: NsType) {
    spaces & Flag(t) != 0
  }

  // The requested types as a set.
  function Wanted(spaces: Mask): set<NsType> {
    set t: NsType | Requests(spaces, t)
  }

  const ROOM_MASK: Mask := 0x0200_0000 | 0x0800_0000 | 0x0002_0000 | 0x4000_0000 | 0x0000_0080 | 0x0400_0000
  const SUBSPACE_MASK: Mask := 0x1000_0000 | 0x2000_0000

  // The service's two checks: some types that it can make, and no other.
  predicate ProperRooms(spaces: Mask) {
    spaces & !ROOM_MASK == 0 && spaces & ROOM_MASK != 0
  }

  predicate ProperSubspace(spaces: Mask) {
    spaces & !SUBSPACE_MASK == 0 && spaces & SUBSPACE_MASK != 0
  }

  // namespaces.ifrequested
  function IfRequested(n: Mask, b: bool, flag: Mask): Mask {
    if !b then n else n | flag
  }

  // The arguments of Client.Rooms.
  datatype Choice = Choice(cgroup: bool, ipc: bool, mnt: bool, net: bool, time: bool, uts: bool)
  {
    predicate Has(t: NsType) {
      match t
      case Cgroup => cgroup
      case Ipc => ipc
      case Mnt => mnt
      case Net => net
      case Time => time
      case Uts => uts
      case _ => false
    }
  }

  function RoomsMask(c: Choice): Mask {
    var a := IfRequested(IfRequested(IfRequested(0, c.cgroup, Flag(Cgroup)), c.ipc, Flag(Ipc)), c.mnt, Flag(Mnt));
    IfRequested(IfRequested(IfRequested(a, c.net, Flag(Net)), c.time, Flag(Time)), c.uts, Flag(Uts))
  }

  function SubspaceMask(user: bool, pid: bool): Mask {
    IfRequested(IfRequested(0, user, Flag(User)), pid, Flag(Pid))
  }

  lemma RoomsMaskBit(c: Choice, t: NsType)
    ensures Requests(RoomsMask(c), t) <==> c.Has(t)
  {
  }

  /** The service accepts exactly the masks of its own types: no other bit, and at least one. The numbers
      are those of clone(2). */
  lemma ProperExactly(spaces: Mask)
    ensures ProperRooms(spaces) <==> spaces != 0 && spaces & !0x4E02_0080 == 0
    ensures ProperSubspace(spaces) <==> spaces != 0 && spaces & !0x3000_0000 == 0
  {
  }

  // What the client sends for each choice, in the numbers of clone(2).
  lemma RoomsMaskNumber(c: Choice)
    ensures RoomsMask(c) ==
            (if c.cgroup then 0x0200_0000 else 0) | (if c.ipc then 0x0800_0000 else 0)
            | (if c.mnt then 0x0002_0000 else 0) | (if c.net then 0x4000_0000 else 0)
            | (if c.time then 0x80 else 0) | (if c.uts then 0x0400_0000 else 0)
  {
  }

  lemma RoomsMaskPasses(c: Choice)
    ensures RoomsMask(c) & !ROOM_MASK == 0
    ensures RoomsMask(c) & ROOM_MASK == 0 <==> c == Choice(false, false, false, false, false, false)
  {
  }

  /** The client's request mask asks for exactly the chosen types, and passes the service's checks
      unless nothing is chosen. */
  lemma RoomsMaskExact(c: Choice)
    ensures Wanted(RoomsMask(c)) == set t: NsType | c.Has(t)
    ensures RoomsMask(c) & !ROOM_MASK == 0
    ensures RoomsMask(c) & ROOM_MASK == 0 <==> forall t :: !c.Has(t)
  {
    hide Requests, RoomsMask;
    forall t ensures Requests(RoomsMask(c), t) <==> c.Has(t) {
      RoomsMaskBit(c, t);
    }
    RoomsMaskPasses(c);
    assert c.cgroup == c.Has(Cgroup) && c.ipc == c.Has(Ipc) && c.mnt == c.Has(Mnt);
    assert c.net == c.Has(Net) && c.time == c.Has(Time) && c.uts == c.Has(Uts);
  }

  lemma SubspaceMaskNumber(user: bool, pid: bool)
    ensures SubspaceMask(user, pid) == (if user then 0x1000_0000 else 0) | (if pid then 0x2000_0000 else 0)
  {
  }

  lemma SubspaceMaskBit(user: bool, pid: bool, t: NsType)
    ensures Requests(SubspaceMask(user, pid), t) <==> (user && t == User) || (pid && t == Pid)
    ensures SubspaceMask(user, pid) & !SUBSPACE_MASK == 0
    ensures SubspaceMask(user, pid) & SUBSPACE_MASK == 0 <==> !user && !pid
  {
  }

  lemma SubspaceMaskExact(user: bool, pid: bool)
    ensures Wanted(SubspaceMask(user, pid)) == (if user then {User} else {}) + (if pid then {Pid} else {})
    ensures SubspaceMask(user, pid) & !SUBSPACE_MASK == 0
    ensures SubspaceMask(user, pid) & SUBSPACE_MASK == 0 <==> !user && !pid
  {
    hide Requests, SubspaceMask;
    forall t ensures Requests(SubspaceMask(user, pid), t) <==> (user && t == User) || (pid && t == Pid) {
      SubspaceMaskBit(user, pid, t);
    }
    SubspaceMaskBit(user, pid, User);
  }
}
