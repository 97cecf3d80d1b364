/** From a response's fields in the service to the same response's fields in the client. */
module Delivery {
  import opened Wrappers
  import opened Namespaces
  import opened Kernel
  import opened Accounts
  import opened Api
  import opened Uds

  // Each positive field names a namespace of its type.
  predicate WellTyped(types: seq<NsType>, fields: seq<int>, table: Fds) {
    && |fields| == |types| && Distinct(types)
    && forall i | 0 <= i < |fields| && fields[i] > 0 :: TypeAt(table, fields[i]) == Some(types[i])
  }

  predicate AllOpen(fds: seq<int>, table: Fds) {
    forall i | 0 <= i < |fds| :: fds[i] in table
  }

  function Files(table: Fds, fds: seq<int>): seq<Object>
    requires AllOpen(fds, table)
  {
    seq(|fds|, i requires 0 <= i < |fds| => table[fds[i]])
  }

  // The place of field i in the list that EncodeFds makes.
  function Rank(fields: seq<int>, i: nat): nat
    requires i < |fields|
  {
    |Borrowed(fields[..i])|
  }

  lemma {:induction false} BorrowedAt(fields: seq<int>, i: nat)
    requires i < |fields| && fields[i] > 0
    ensures Rank(fields, i) < |Borrowed(fields)| && Borrowed(fields)[Rank(fields, i)] == fields[i]
  {
    var init := fields[..|fields| - 1];
    if i < |init| {
      BorrowedAt(init, i);
      assert init[..i] == fields[..i];
    } else {
      assert fields[..i] == init;
    }
  }

  lemma {:induction false} BorrowedFrom(fields: seq<int>, j: nat) returns (i: nat)
    requires j < |Borrowed(fields)|
    ensures i < |fields| && fields[i] > 0 && Rank(fields, i) == j && fields[i] == Borrowed(fields)[j]
  {
    var init := fields[..|fields| - 1];
    if j < |Borrowed(init)| {
      i := BorrowedFrom(init, j);
      assert init[..i] == fields[..i];
    } else {
      i := |init|;
      assert fields[..i] == init;
    }
  }

  lemma {:induction false} RankGrows(fields: seq<int>, i: nat, j: nat)
    requires i < j < |fields| && fields[i] > 0
    ensures Rank(fields, i) < Rank(fields, j)
  {
    BorrowedAt(fields[..j], i);
    assert fields[..j][..i] == fields[..i];
  }

  lemma BorrowedIsOpen(types: seq<NsType>, fields: seq<int>, table: Fds)
    requires WellTyped(types, fields, table)
    ensures AllOpen(Borrowed(fields), table)
  {
    forall j | 0 <= j < |Borrowed(fields)| ensures Borrowed(fields)[j] in table {
      var i := BorrowedFrom(fields, j);
    }
  }

  // A field keeps its value if no descriptor has its type, and otherwise gets the only one that has.
  lemma {:induction false} PlacedAt(types: seq<NsType>, fields: seq<int>, table: Fds, fds: seq<int>, i: nat)
    requires |fields| == |types| && Distinct(types) && i < |types|
    ensures (forall j | 0 <= j < |fds| :: TypeAt(table, fds[j]) != Some(types[i])) ==>
              Placed(types, fields, table, fds)[i] == fields[i]
    ensures forall j | 0 <= j < |fds| && TypeAt(table, fds[j]) == Some(types[i])
                       && (forall h | 0 <= h < |fds| && h != j :: TypeAt(table, fds[h]) != Some(types[i])) ::
              Placed(types, fields, table, fds)[i] == fds[j]
  {
    if fds != [] {
      var init := fds[..|fds| - 1];
      PlacedAt(types, fields, table, init, i);
      var t := TypeAt(table, fds[|fds| - 1]);
      if t == Some(types[i]) {
        assert IndexOf(types, t) == i;
      }
    }
  }

  lemma PlacedOnly(types: seq<NsType>, fields: seq<int>, table: Fds, fds: seq<int>, i: nat, j: nat)
    requires |fields| == |types| && Distinct(types) && i < |types| && j < |fds|
    requires TypeAt(table, fds[j]) == Some(types[i])
    requires forall h | 0 <= h < |fds| && h != j :: TypeAt(table, fds[h]) != Some(types[i])
    ensures Placed(types, fields, table, fds)[i] == fds[j]
  {
    PlacedAt(types, fields, table, fds, i);
  }

  lemma PlacedNone(types: seq<NsType>, fields: seq<int>, table: Fds, fds: seq<int>, i: nat)
    requires |fields| == |types| && Distinct(types) && i < |types|
    requires forall h | 0 <= h < |fds| :: TypeAt(table, fds[h]) != Some(types[i])
    ensures Placed(types, fields, table, fds)[i] == fields[i]
  {
    PlacedAt(types, fields, table, fds, i);
  }

  // The type of the j-th borrowed descriptor belongs to the one field that lent it.
  lemma TypeOfBorrowed(types: seq<NsType>, fields: seq<int>, table: Fds, i: nat, j: nat)
    requires WellTyped(types, fields, table) && i < |fields| && j < |Borrowed(fields)|
    ensures TypeAt(table, Borrowed(fields)[j]) == Some(types[i]) <==> fields[i] > 0 && j == Rank(fields, i)
    ensures 0 <= IndexOf(types, TypeAt(table, Borrowed(fields)[j]))
  {
    var i' := BorrowedFrom(fields, j);
    if fields[i] > 0 && j == Rank(fields, i) {
      if i < i' { RankGrows(fields, i, i'); }
      if i' < i { RankGrows(fields, i', i); }
    }
  }

  /** EncodeFds and then DecodeFds of any permutation of the list is the identity: every field has its
      descriptor again, and none is closed. */
  lemma EncodeDecode(types: seq<NsType>, fields: seq<int>, table: Fds, fds: seq<int>)
    requires WellTyped(types, fields, table) && multiset(fds) == multiset(Borrowed(fields))
    ensures Placed(types, Emptied(fields), table, fds) == fields
    ensures Strays(types, table, fds) == {}
  {
    var b := Borrowed(fields);
    forall fd | fd in fds ensures 0 <= IndexOf(types, TypeAt(table, fd)) {
      assert fd in multiset(b);
      var j :| 0 <= j < |b| && b[j] == fd;
      var i := BorrowedFrom(fields, j);
      TypeOfBorrowed(types, fields, table, i, j);
    }
    forall i | 0 <= i < |fields| ensures Placed(types, Emptied(fields), table, fds)[i] == fields[i] {
      PermutedAt(types, fields, table, fds, i);
    }
  }

  lemma PermutedAt(types: seq<NsType>, fields: seq<int>, table: Fds, fds: seq<int>, i: nat)
    requires WellTyped(types, fields, table) && multiset(fds) == multiset(Borrowed(fields)) && i < |fields|
    ensures Placed(types, Emptied(fields), table, fds)[i] == fields[i]
  {
    var b := Borrowed(fields);
    forall h | 0 <= h < |fds| && TypeAt(table, fds[h]) == Some(types[i]) ensures fields[i] > 0 && fds[h] == fields[i] {
      assert fds[h] in multiset(b);
      var j :| 0 <= j < |b| && b[j] == fds[h];
      TypeOfBorrowed(types, fields, table, i, j);
      BorrowedAt(fields, i);
    }
    if fields[i] > 0 {
      BorrowedAt(fields, i);
      assert fields[i] in multiset(fds);
      PlacedSame(types, Emptied(fields), table, fds, i, fields[i]);
    } else {
      PlacedNone(types, Emptied(fields), table, fds, i);
    }
  }

  lemma {:induction false} PlacedSame(types: seq<NsType>, fields: seq<int>, table: Fds, fds: seq<int>, i: nat,
                                      fd: int)
    requires |fields| == |types| && Distinct(types) && i < |types|
    requires fd in fds && TypeAt(table, fd) == Some(types[i])
    requires forall h | 0 <= h < |fds| && TypeAt(table, fds[h]) == Some(types[i]) :: fds[h] == fd
    ensures Placed(types, fields, table, fds)[i] == fd
  {
    var init, last := fds[..|fds| - 1], fds[|fds| - 1];
    if TypeAt(table, last) == Some(types[i]) {
      assert IndexOf(types, TypeAt(table, last)) == i;
    } else {
      assert fds == init + [last];
      PlacedSame(types, fields, table, init, i, fd);
    }
  }

  /** Over a connection that takes over capacity descriptors: a field among the first capacity ones of
      EncodeFds' list has a new descriptor for the very object it named in the service. Any later
      field keeps the number that the service's message carries in-band, which is the service's. */
  lemma EndToEnd(types: seq<NsType>, fields: seq<int>, s: Fds, capacity: nat,
                 r0: Fds, r1: Fds, fds: seq<int>, i: nat)
    requires WellTyped(types, fields, s) && AllOpen(Borrowed(fields), s) && i < |fields|
    requires Received(Files(s, Borrowed(fields)), capacity, r0, r1, fds)
    ensures var r := Placed(types, fields, r1, fds)[i];
            if fields[i] > 0 && Rank(fields, i) < capacity
            then r in r1 && r !in r0 && r1[r] == s[fields[i]] && Rank(fields, i) < |fds| && r == fds[Rank(fields, i)]
            else r == fields[i]
    ensures Strays(types, r1, fds) == {}
  {
    var b := Borrowed(fields);
    forall j | 0 <= j < |fds| ensures TypeAt(r1, fds[j]) == TypeAt(s, b[j]) {
      assert r1[fds[j]] == Files(s, b)[j];
    }
    forall fd | fd in fds ensures 0 <= IndexOf(types, TypeAt(r1, fd)) {
      var j :| 0 <= j < |fds| && fds[j] == fd;
      TypeOfBorrowed(types, fields, s, i, j);
    }
    forall j | 0 <= j < |fds| ensures TypeAt(r1, fds[j]) == Some(types[i]) <==> fields[i] > 0 && j == Rank(fields, i) {
      TypeOfBorrowed(types, fields, s, i, j);
    }
    if fields[i] > 0 && Rank(fields, i) < capacity {
      var j := Rank(fields, i);
      BorrowedAt(fields, i);
      PlacedOnly(types, fields, r1, fds, i, j);
      assert fds[j] in Elems(fds);
    } else {
      PlacedNone(types, fields, r1, fds, i);
    }
  }

  /** Nothing is lost on the way: if all descriptors fit, the positive fields of the decoded response are
      exactly the descriptors that were received. */
  lemma NothingLost(types: seq<NsType>, fields: seq<int>, s: Fds, capacity: nat,
                    r0: Fds, r1: Fds, fds: seq<int>)
    requires WellTyped(types, fields, s) && AllOpen(Borrowed(fields), s) && |Borrowed(fields)| <= capacity
    requires Received(Files(s, Borrowed(fields)), capacity, r0, r1, fds) && forall fd | fd in fds :: fd > 0
    ensures Elems(Borrowed(Placed(types, fields, r1, fds))) == Elems(fds)
  {
    var r := Placed(types, fields, r1, fds);
    forall fd | fd in Borrowed(r) ensures fd in fds {
      var h :| 0 <= h < |Borrowed(r)| && Borrowed(r)[h] == fd;
      var i := BorrowedFrom(r, h);
      EndToEnd(types, fields, s, capacity, r0, r1, fds, i);
      if fields[i] > 0 { BorrowedAt(fields, i); }
    }
    forall fd | fd in fds ensures fd in Borrowed(r) {
      var j :| 0 <= j < |fds| && fds[j] == fd;
      var i := BorrowedFrom(fields, j);
      EndToEnd(types, fields, s, capacity, r0, r1, fds, i);
      BorrowedAt(r, i);
    }
  }

  /** So every requested field names the object it should if and only if the response carries no more
      descriptors than fit, provided the client has no other descriptor for a dropped object (which
      it cannot have for a new namespace). */
  lemma DeliveredExactly(types: seq<NsType>, fields: seq<int>, s: Fds, capacity: nat,
                         r0: Fds, r1: Fds, fds: seq<int>)
    requires WellTyped(types, fields, s) && AllOpen(Borrowed(fields), s)
    requires Received(Files(s, Borrowed(fields)), capacity, r0, r1, fds)
    requires forall i | 0 <= i < |fields| && fields[i] > 0 && capacity <= Rank(fields, i) :: s[fields[i]] !in r0.Values
    ensures (forall i | 0 <= i < |fields| && fields[i] > 0 ::
               var r := Placed(types, fields, r1, fds)[i]; r in r1 && r1[r] == s[fields[i]])
            <==> |Borrowed(fields)| <= capacity
  {
    var r, b := Placed(types, fields, r1, fds), Borrowed(fields);
    if |b| <= capacity {
      forall i | 0 <= i < |fields| && fields[i] > 0 ensures r[i] in r1 && r1[r[i]] == s[fields[i]] {
        BorrowedAt(fields, i);
        EndToEnd(types, fields, s, capacity, r0, r1, fds, i);
      }
    } else {
      var i := BorrowedFrom(fields, capacity);
      EndToEnd(types, fields, s, capacity, r0, r1, fds, i);
      assert r[i] == fields[i];
      if r[i] in r1.Keys && r[i] !in r0 && r1[r[i]] == s[fields[i]] {
        var j :| 0 <= j < |fds| && fds[j] == r[i];
        assert r1[fds[j]] == Files(s, b)[j];
        TypeOfBorrowed(types, fields, s, i, j);
      }
    }
  }

  /** A subspace response never carries too many: conn and pidfd by position and the namespaces by type
      all arrive, and a namespace that was not requested stays 0. */
  lemma SubspaceDelivered(conn: int, pidfd: int, spaces: seq<int>, s: Fds,
                          r0: Fds, r1: Fds, fds: seq<int>)
    requires WellTyped(SUBSPACE_TYPES, spaces, s) && conn > 0 && pidfd > 0 && conn in s && pidfd in s
    requires AllOpen(Borrowed([conn, pidfd] + spaces), s)
    requires Received(Files(s, Borrowed([conn, pidfd] + spaces)), CLIENT_CAPACITY, r0, r1, fds)
    ensures |fds| >= 2 && fds[0] in r1 && fds[1] in r1 && r1[fds[0]] == s[conn] && r1[fds[1]] == s[pidfd]
    ensures Strays(SUBSPACE_TYPES, r1, fds[2..]) == {}
    ensures (forall fd | fd in fds :: fd > 0) ==>
      Elems(Borrowed(Placed(SUBSPACE_TYPES, spaces, r1, fds[2..]))) == Elems(fds[2..])
    ensures forall i | 0 <= i < 2 ::
              var r := Placed(SUBSPACE_TYPES, spaces, r1, fds[2..])[i];
              if spaces[i] > 0 then r in r1 && r !in r0 && r1[r] == s[spaces[i]] else r == spaces[i]
  {
    Capacities();
    SubspaceList(conn, pidfd, spaces);
    var all, b, tail := Borrowed([conn, pidfd] + spaces), Borrowed(spaces), fds[2..];
    BorrowedIsOpen(SUBSPACE_TYPES, spaces, s);
    assert Files(s, all)[2..] == Files(s, b);
    assert r1[fds[0]] == Files(s, all)[0] && r1[fds[1]] == Files(s, all)[1];
    TailReceived(Files(s, all), r0, r1, fds);
    var mid := r1 - Elems(tail);
    forall i | 0 <= i < 2
      ensures var r := Placed(SUBSPACE_TYPES, spaces, r1, tail)[i];
              if spaces[i] > 0 then r in r1 && r !in r0 && r1[r] == s[spaces[i]] else r == spaces[i]
    {
      EndToEnd(SUBSPACE_TYPES, spaces, s, 4, mid, r1, tail, i);
      if spaces[i] > 0 { RankBound(spaces, i); }
    }
    EndToEnd(SUBSPACE_TYPES, spaces, s, 4, mid, r1, tail, 0);
    if forall fd | fd in fds :: fd > 0 {
      assert forall fd | fd in tail :: fd in fds;
      NothingLost(SUBSPACE_TYPES, spaces, s, 4, mid, r1, tail);
    }
  }

  lemma SubspaceList(conn: int, pidfd: int, spaces: seq<int>)
    requires conn > 0 && pidfd > 0
    ensures Borrowed([conn, pidfd] + spaces) == [conn, pidfd] + Borrowed(spaces)
    ensures |Borrowed(spaces)| <= |spaces|
  {
    BorrowedConcat([conn, pidfd], spaces);
    assert Borrowed([conn, pidfd]) == [conn, pidfd] by {
      assert [conn, pidfd][..1] == [conn] && [conn][..0] == [];
      assert Borrowed([conn]) == Borrowed([]) + [conn];
    }
    BorrowedBound(spaces);
  }

  // The descriptors after the first two were received on their own, as it were.
  lemma TailReceived(files: seq<Object>, r0: Fds, r1: Fds, fds: seq<int>)
    requires 2 <= |files| <= 4 && Received(files, 4, r0, r1, fds)
    ensures Received(files[2..], 4, r1 - Elems(fds[2..]), r1, fds[2..])
    ensures forall fd | fd in r0 :: fd in r1 - Elems(fds[2..])
  {
    var tail := fds[2..];
    forall fd | fd in Elems(tail) ensures fd in Elems(fds) && fd in r1 {
      assert fd in r1.Keys;
    }
    forall fd | fd in r0 ensures fd in r1 - Elems(tail) {
      assert fd in r1.Keys && fd !in Elems(fds);
    }
    assert r1.Keys == (r1 - Elems(tail)).Keys + Elems(tail);
  }

  lemma RankBound(fields: seq<int>, i: nat)
    requires i < |fields|
    ensures Rank(fields, i) <= i
  {
    BorrowedBound(fields[..i]);
  }

  lemma {:induction false} BorrowedBound(fields: seq<int>)
    ensures |Borrowed(fields)| <= |fields|
  {
    if fields != [] { BorrowedBound(fields[..|fields| - 1]); }
  }
}
