/** The spacer service's responses, and how their descriptors travel beside the message: taken out of
    the fields by EncodeFds, and put back by type by DecodeFds. */
module Api {
  import opened Wrappers
  import opened Namespaces
  import opened Kernel

  // What borrowing from each field in turn lists, and what it leaves in the fields.
  function Borrowed(fields: seq<int>): seq<int> {
    if fields == [] then []
    else Borrowed(fields[..|fields| - 1]) + if fields[|fields| - 1] > 0 then [fields[|fields| - 1]] else []
  }

  function Emptied(fields: seq<int>): (r: seq<int>)
    ensures |r| == |fields|
    ensures forall i | 0 <= i < |fields| :: r[i] == if fields[i] > 0 then 0 else fields[i]
  {
    seq(|fields|, i requires 0 <= i < |fields| => if fields[i] > 0 then 0 else fields[i])
  }

  function TypeAt(fds: Fds, fd: int): Option<NsType> {
    if fd in fds && fds[fd].Namespace? then Some(fds[fd].ref.typ) else None
  }

  function IndexOf(types: seq<NsType>, t: Option<NsType>): (i: int)
    ensures -1 <= i < |types|
    ensures 0 <= i ==> t == Some(types[i])
    ensures i < 0 ==> forall j | 0 <= j < |types| :: t != Some(types[j])
  {
    if types == [] then -1
    else if t == Some(types[|types| - 1]) then |types| - 1
    else IndexOf(types[..|types| - 1], t)
  }

  // Each descriptor goes into the field of its namespace type, a later one over an earlier one.
  function Placed(types: seq<NsType>, fields: seq<int>, table: Fds, fds: seq<int>): (r: seq<int>)
    requires |fields| == |types|
    ensures |r| == |fields|
  {
    if fds == [] then fields
    else
      var fd := fds[|fds| - 1];
      var r := Placed(types, fields, table, fds[..|fds| - 1]);
      var i := IndexOf(types, TypeAt(table, fd));
      if i < 0 then r else r[i := fd]
  }

  // Descriptors that fit no field.
  function Strays(types: seq<NsType>, table: Fds, fds: seq<int>): set<int> {
    set fd | fd in fds && IndexOf(types, TypeAt(table, fd)) < 0
  }

  predicate Distinct(types: seq<NsType>) {
    forall i, j | 0 <= i < j < |types| :: types[i] != types[j]
  }

  const ROOM_TYPES := [Cgroup, Ipc, Mnt, Net, Time, Uts]
  const SUBSPACE_TYPES := [User, Pid]

  // A list of descriptors that fields lend themselves to.
  method Borrow(fds: seq<int>, fd: int) returns (fds': seq<int>, fd': int)
    ensures fds' == fds + Borrowed([fd]) && fd' == if fd > 0 then 0 else fd
  {
    assert Borrowed([fd]) == Borrowed([]) + if fd > 0 then [fd] else [];
    if fd <= 0 { return fds, fd; }
    return fds + [fd], 0;
  }

  class RoomsResponse {
    var cgroup: int
    var ipc: int
    var mnt: int
    var net: int
    var time: int
    var uts: int

    constructor ()
      ensures Fields() == [0, 0, 0, 0, 0, 0]
    {
      cgroup, ipc, mnt, net, time, uts := 0, 0, 0, 0, 0, 0;
    }

    // A response as it comes out of the decoder.
    constructor Decoded(fields: seq<int>)
      requires |fields| == |ROOM_TYPES|
      ensures Fields() == fields
    {
      cgroup, ipc, mnt, net, time, uts := fields[0], fields[1], fields[2], fields[3], fields[4], fields[5];
    }

    function Fields(): (r: seq<int>)
      reads this
      ensures |r| == |ROOM_TYPES|
    {
      [cgroup, ipc, mnt, net, time, uts]
    }

    method EncodeFds() returns (fds: seq<int>)
      modifies this
      ensures fds == Borrowed(old(Fields())) && Fields() == Emptied(old(Fields()))
    {
      ghost var f := Fields();
      fds := [];
      fds, cgroup := Borrow(fds, cgroup);
      fds, ipc := Borrow(fds, ipc);
      fds, mnt := Borrow(fds, mnt);
      fds, net := Borrow(fds, net);
      fds, time := Borrow(fds, time);
      fds, uts := Borrow(fds, uts);
      BorrowedSix(f[0], f[1], f[2], f[3], f[4], f[5]);
    }

    // One round of DecodeFds' loop.
    method DecodeFd(k: Task, fd: int)
      requires k.Valid() && fd != 0
      modifies this, k`fds
      ensures k.Valid()
      ensures var i := IndexOf(ROOM_TYPES, TypeAt(old(k.fds), fd));
              if i < 0 then Fields() == old(Fields()) && k.fds == old(k.fds) - {fd}
              else Fields() == old(Fields())[i := fd] && k.fds == old(k.fds)
    {
      var typ := TypeAt(k.fds, fd);
      RoomIndex(typ);
      match typ
      case Some(Cgroup) => cgroup := fd;
      case Some(Ipc) => ipc := fd;
      case Some(Mnt) => mnt := fd;
      case Some(Net) => net := fd;
      case Some(Time) => time := fd;
      case Some(Uts) => uts := fd;
      case _ => k.Close(fd);
    }

    method DecodeFds(k: Task, fds: seq<int>)
      requires k.Valid() && 0 !in fds
      modifies this, k`fds
      ensures k.Valid()
      ensures Fields() == Placed(ROOM_TYPES, old(Fields()), old(k.fds), fds)
      ensures k.fds == old(k.fds) - Strays(ROOM_TYPES, old(k.fds), fds)
    {
      ghost var f, table := Fields(), k.fds;
      for i := 0 to |fds|
        invariant k.Valid() && k.fds == table - Strays(ROOM_TYPES, table, fds[..i])
        invariant Fields() == Placed(ROOM_TYPES, f, table, fds[..i])
      {
        assert fds[..i + 1][..i] == fds[..i];
        StraysOneMore(ROOM_TYPES, table, fds, i);
        DecodeFd(k, fds[i]);
      }
      assert fds[..|fds|] == fds;
    }
  }

  // The service's response to a subspace request. The first two descriptors are known by position.
  class SubspaceResponse {
    var conn: int
    var pidfd: int
    var user: int
    var pid: int

    constructor (conn: int, pidfd: int, user: int, pid: int)
      ensures Fields() == [conn, pidfd, user, pid]
    {
      this.conn, this.pidfd, this.user, this.pid := conn, pidfd, user, pid;
    }

    function Fields(): (r: seq<int>)
      reads this
      ensures |r| == 4
    {
      [conn, pidfd, user, pid]
    }

    method EncodeFds() returns (fds: seq<int>)
      modifies this
      ensures fds == Borrowed(old(Fields())) && Fields() == Emptied(old(Fields()))
    {
      ghost var f := Fields();
      fds := [];
      fds, conn := Borrow(fds, conn);
      fds, pidfd := Borrow(fds, pidfd);
      fds, user := Borrow(fds, user);
      fds, pid := Borrow(fds, pid);
      BorrowedFour(f[0], f[1], f[2], f[3]);
    }

    function Spaces(): (r: seq<int>)
      reads this
      ensures |r| == |SUBSPACE_TYPES|
    {
      [user, pid]
    }

    method DecodeFd(k: Task, fd: int)
      requires k.Valid() && fd != 0
      modifies this`user, this`pid, k`fds
      ensures k.Valid()
      ensures var i := IndexOf(SUBSPACE_TYPES, TypeAt(old(k.fds), fd));
              if i < 0 then Spaces() == old(Spaces()) && k.fds == old(k.fds) - {fd}
              else Spaces() == old(Spaces())[i := fd] && k.fds == old(k.fds)
    {
      var typ := TypeAt(k.fds, fd);
      SubspaceIndex(typ);
      match typ
      case Some(User) => user := fd;
      case Some(Pid) => pid := fd;
      case _ => k.Close(fd);
    }

    // DecodeFds indexes the first two descriptors without a check: fewer than two make it panic.
    method DecodeFds(k: Task, fds: seq<int>) returns (o: Outcome)
      requires k.Valid() && 0 !in fds
      modifies this, k`fds
      ensures k.Valid() && (o.Normal? <==> |fds| >= 2)
      ensures o.Normal? ==>
        && conn == fds[0] && pidfd == fds[1]
        && Spaces() == Placed(SUBSPACE_TYPES, old(Spaces()), old(k.fds), fds[2..])
        && k.fds == old(k.fds) - Strays(SUBSPACE_TYPES, old(k.fds), fds[2..])
      ensures o.Panic? ==> k.fds == old(k.fds)
    {
      if |fds| == 0 { return Panic; }
      conn := fds[0];
      if |fds| == 1 { return Panic; }
      pidfd := fds[1];
      ghost var f, table := Spaces(), k.fds;
      var tail := fds[2..];
      for i := 0 to |tail|
        invariant k.Valid() && k.fds == table - Strays(SUBSPACE_TYPES, table, tail[..i])
        invariant Spaces() == Placed(SUBSPACE_TYPES, f, table, tail[..i])
        invariant conn == fds[0] && pidfd == fds[1]
      {
        assert tail[..i + 1][..i] == tail[..i];
        StraysOneMore(SUBSPACE_TYPES, table, tail, i);
        DecodeFd(k, tail[i]);
      }
      assert tail[..|tail|] == tail;
      o := Normal;
    }
  }

  lemma {:induction false} BorrowedConcat(a: seq<int>, b: seq<int>)
    ensures Borrowed(a + b) == Borrowed(a) + Borrowed(b)
  {
    if b == [] {
      assert a + b == a;
    } else {
      assert (a + b)[..|a + b| - 1] == a + b[..|b| - 1];
      BorrowedConcat(a, b[..|b| - 1]);
    }
  }

  lemma BorrowedFour(a: int, b: int, c: int, d: int)
    ensures Borrowed([a, b, c, d]) == [] + Borrowed([a]) + Borrowed([b]) + Borrowed([c]) + Borrowed([d])
  {
    BorrowedConcat([a], [b]);
    BorrowedConcat([a, b], [c]);
    BorrowedConcat([a, b, c], [d]);
    assert [a] + [b] == [a, b] && [a, b] + [c] == [a, b, c] && [a, b, c] + [d] == [a, b, c, d];
  }

  lemma BorrowedSix(a: int, b: int, c: int, d: int, e: int, f: int)
    ensures Borrowed([a, b, c, d, e, f]) ==
            [] + Borrowed([a]) + Borrowed([b]) + Borrowed([c]) + Borrowed([d]) + Borrowed([e]) + Borrowed([f])
  {
    BorrowedFour(a, b, c, d);
    BorrowedConcat([a, b, c, d], [e]);
    BorrowedConcat([a, b, c, d, e], [f]);
    assert [a, b, c, d] + [e] == [a, b, c, d, e] && [a, b, c, d, e] + [f] == [a, b, c, d, e, f];
  }

  lemma RoomIndex(t: Option<NsType>)
    ensures IndexOf(ROOM_TYPES, t) == match t
      case Some(Cgroup) => 0
      case Some(Ipc) => 1
      case Some(Mnt) => 2
      case Some(Net) => 3
      case Some(Time) => 4
      case Some(Uts) => 5
      case _ => -1
  {
    var i := IndexOf(ROOM_TYPES, t);
    assert ROOM_TYPES[0] == Cgroup && ROOM_TYPES[1] == Ipc && ROOM_TYPES[2] == Mnt;
    assert ROOM_TYPES[3] == Net && ROOM_TYPES[4] == Time && ROOM_TYPES[5] == Uts;
  }

  lemma SubspaceIndex(t: Option<NsType>)
    ensures IndexOf(SUBSPACE_TYPES, t) == match t
      case Some(User) => 0
      case Some(Pid) => 1
      case _ => -1
  {
    assert SUBSPACE_TYPES[0] == User && SUBSPACE_TYPES[1] == Pid;
  }

  // Closing earlier strays changes neither the type of a descriptor that fits nor that of a stray.
  lemma StraysOneMore(types: seq<NsType>, table: Fds, fds: seq<int>, i: nat)
    requires i < |fds|
    ensures var closed := table - Strays(types, table, fds[..i]);
            && (IndexOf(types, TypeAt(closed, fds[i])) == IndexOf(types, TypeAt(table, fds[i])))
            && (0 <= IndexOf(types, TypeAt(table, fds[i])) ==>
                  Strays(types, table, fds[..i + 1]) == Strays(types, table, fds[..i]))
            && (IndexOf(types, TypeAt(table, fds[i])) < 0 ==>
                  Strays(types, table, fds[..i + 1]) == Strays(types, table, fds[..i]) + {fds[i]})
  {
    assert fds[..i + 1] == fds[..i] + [fds[i]];
  }
}
