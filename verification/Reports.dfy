/** The message that tells a client which namespaces could not be made, and how to read it. */
module Reports {
  import opened Wrappers
  import opened Namespaces

  function NameOf(t: NsType): string {
    match t
    case Cgroup => "cgroup"
    case Ipc => "ipc"
    case Mnt => "mnt"
    case Net => "net"
    case Pid => "pid"
    case Time => "time"
    case User => "user"
    case Uts => "uts"
  }

  datatype Failure = Failure(typ: NsType, err: string)

  function Entry(f: Failure): string {
    NameOf(f.typ) + ":" + f.err
  }

  // The error message names each failed type with its error.
  function Report(fs: seq<Failure>): string {
    if fs == [] then ""
    else
      var r := Report(fs[..|fs| - 1]);
      (if r != "" then r + "," else r) + Entry(fs[|fs| - 1])
  }

  lemma ReportMore(fs: seq<Failure>, f: Failure)
    ensures var r := Report(fs);
            Report(fs + [f]) == (if r != "" then r + "," else r) + NameOf(f.typ) + ":" + f.err
  {
    assert (fs + [f])[..|fs|] == fs;
    var r := if Report(fs) != "" then Report(fs) + "," else Report(fs);
    assert r + (NameOf(f.typ) + ":" + f.err) == r + NameOf(f.typ) + ":" + f.err;
  }

  lemma {:induction false} ReportEmpty(fs: seq<Failure>)
    ensures Report(fs) == "" <==> fs == []
  {
  }

  function TypesOf(fs: seq<Failure>): seq<NsType> {
    if fs == [] then [] else TypesOf(fs[..|fs| - 1]) + [fs[|fs| - 1].typ]
  }

  // Reading a message, with the names of /proc/thread-self/ns.
  datatype Reading = Reading(typ: Option<NsType>, err: string)

  function TypeNamed(name: string): Option<NsType> {
    if name == "cgroup" then Some(Cgroup)
    else if name == "ipc" then Some(Ipc)
    else if name == "mnt" then Some(Mnt)
    else if name == "net" then Some(Net)
    else if name == "pid" then Some(Pid)
    else if name == "time" then Some(Time)
    else if name == "user" then Some(User)
    else if name == "uts" then Some(Uts)
    else None
  }

  // The position of the first c, or the length.
  function Find(s: string, c: char): (n: nat)
    ensures n <= |s| && (forall i | 0 <= i < n :: s[i] != c) && (n < |s| ==> s[n] == c)
  {
    if s == "" || s[0] == c then 0 else 1 + Find(s[1..], c)
  }

  function ReadOne(entry: string): Reading {
    var n := Find(entry, ':');
    Reading(TypeNamed(entry[..n]), if n < |entry| then entry[n + 1..] else "")
  }

  function Read(reason: string): seq<Reading>
    decreases |reason|
  {
    var n := Find(reason, ',');
    [ReadOne(reason[..n])] + if n < |reason| then Read(reason[n + 1..]) else []
  }

  function Readings(fs: seq<Failure>): seq<Reading> {
    seq(|fs|, i requires 0 <= i < |fs| => Reading(Some(fs[i].typ), fs[i].err))
  }

  lemma FindIs(s: string, c: char, n: nat)
    requires n <= |s| && (forall i | 0 <= i < n :: s[i] != c) && (n < |s| ==> s[n] == c)
    ensures Find(s, c) == n
  {
  }

  lemma TypeOfName(t: NsType)
    ensures TypeNamed(NameOf(t)) == Some(t)
    ensures forall i | 0 <= i < |NameOf(t)| :: NameOf(t)[i] != ':' && NameOf(t)[i] != ','
  {
  }

  lemma ReadEntry(f: Failure)
    requires ',' !in f.err
    ensures ReadOne(Entry(f)) == Reading(Some(f.typ), f.err) && ',' !in Entry(f)
  {
    hide NameOf, TypeNamed;
    var name, e := NameOf(f.typ), Entry(f);
    TypeOfName(f.typ);
    assert e[..|name|] == name && e[|name| + 1..] == f.err;
    FindIs(e, ':', |name|);
  }

  lemma {:induction false} ReadAppended(r: string, e: string)
    requires ',' !in e
    ensures Read(r + "," + e) == Read(r) + [ReadOne(e)]
    decreases |r|
  {
    hide ReadOne, Read, Find;
    var n, s := Find(r, ','), r + "," + e;
    assert s[..n] == r[..n];
    ReadFirst(s, n);
    ReadFirst(r, n);
    if n < |r| {
      assert s[n + 1..] == r[n + 1..] + "," + e;
      ReadAppended(r[n + 1..], e);
    } else {
      assert s[n + 1..] == e && r[..n] == r;
      ReadLast(e);
    }
  }

  lemma ReadFirst(s: string, n: nat)
    requires n <= |s| && (forall i | 0 <= i < n :: s[i] != ',') && (n < |s| ==> s[n] == ',')
    ensures Read(s) == [ReadOne(s[..n])] + if n < |s| then Read(s[n + 1..]) else []
  {
    FindIs(s, ',', n);
  }

  lemma ReadLast(e: string)
    requires ',' !in e
    ensures Read(e) == [ReadOne(e)]
  {
    hide ReadOne;
    FindIs(e, ',', |e|);
    assert e[..|e|] == e;
  }

  lemma ReportOne(f: Failure)
    ensures Report([f]) == Entry(f)
  {
    assert [f][..0] == [] && "" + Entry(f) == Entry(f);
  }

  lemma ReportAppended(fs: seq<Failure>, f: Failure)
    requires fs != []
    ensures Report(fs + [f]) == Report(fs) + "," + Entry(f)
  {
    hide Entry;
    assert (fs + [f])[..|fs|] == fs;
    ReportEmpty(fs);
  }

  /** The message can be read back: it names exactly the failed types, in order, each with its error, as
      long as no error has a comma in it. */
  lemma {:induction false} ReadReport(fs: seq<Failure>)
    requires fs != [] && forall f | f in fs :: ',' !in f.err
    ensures Read(Report(fs)) == Readings(fs)
  {
    hide Report, Read, Entry, ReadOne;
    var n := |fs| - 1;
    var init, f := fs[..n], fs[n];
    ReadEntry(f);
    assert fs == init + [f] && Readings(fs) == Readings(init) + [Reading(Some(f.typ), f.err)];
    if init == [] {
      assert fs == [f];
      ReportOne(f);
      ReadLast(Entry(f));
    } else {
      assert forall g | g in init :: g in fs;
      ReadReport(init);
      ReportAppended(init, f);
      ReadAppended(Report(init), Entry(f));
    }
  }
}
