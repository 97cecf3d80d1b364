/** PIDfromPIDFd: finding and parsing the Pid line of a process descriptor's fdinfo. */
module PidFd {
  import opened Wrappers

  datatype Result = Pid(pid: int) | Failed

  const PREFIX := "Pid:\t"
  const TARGET := "anon_inode:[pidfd]"

  // The length of the first line, with its newline.
  function LineLength(text: string): (n: nat)
    requires text != ""
    ensures 0 < n <= |text|
    ensures text[n - 1] == '\n' || n == |text|
    ensures forall i | 0 <= i < n - 1 :: text[i] != '\n'
    decreases text
  {
    if text[0] == '\n' || |text| == 1 then 1 else 1 + LineLength(text[1..])
  }

  // strings.Lines: each line with its newline, if it has one.
  function Lines(text: string): seq<string>
    decreases |text|
  {
    if text == "" then [] else [text[..LineLength(text)]] + Lines(text[LineLength(text)..])
  }

  predicate IsDigit(c: char) {
    '0' <= c <= '9'
  }

  // The value of a string of decimal digits.
  function Natural(s: string): Option<nat> {
    if s == "" then None
    else if !IsDigit(s[|s| - 1]) then None
    else
      var d := s[|s| - 1] as nat - '0' as nat;
      if |s| == 1 then Some(d)
      else match Natural(s[..|s| - 1])
        case None => None
        case Some(n) => Some(10 * n + d)
  }

  // strconv.ParseInt(s, 10, 32)
  function ParseInt32(s: string): Option<int> {
    if s == "" then None
    else
      var negative := s[0] == '-';
      match Natural(if s[0] == '-' || s[0] == '+' then s[1..] else s)
      case None => None
      case Some(n) =>
        var i: int := n;
        if negative then (if n <= 0x8000_0000 then Some(-i) else None)
        else (if n < 0x8000_0000 then Some(i) else None)
  }

  function Digits(n: nat): (s: string)
    ensures s != "" && forall i | 0 <= i < |s| :: IsDigit(s[i])
  {
    var last := ['0' + (n % 10) as char];
    if n < 10 then last else Digits(n / 10) + last
  }

  function Decimal(p: int): string {
    if p < 0 then "-" + Digits(-p) else Digits(p)
  }

  // The first line with the prefix and something behind it decides. Its last character is dropped,
  // whatever it is.
  function Scan(lines: seq<string>): Result {
    if lines == [] then Failed
    else if PREFIX <= lines[0] && lines[0] != PREFIX then
      match ParseInt32(lines[0][|PREFIX|..|lines[0]| - 1])
      case None => Failed
      case Some(p) => Pid(p)
    else Scan(lines[1..])
  }

  /** The loop over the lines of fdinfo, given what reading the link and the file returned. */
  method PIDfromPIDFd(target: Option<string>, fdinfo: Option<string>) returns (r: Result)
    ensures r == if target == Some("anon_inode:[pidfd]") && fdinfo.Some? then Scan(Lines(fdinfo.value)) else Failed
  {
    if target != Some(TARGET) || fdinfo == None { return Failed; }
    var rest := fdinfo.value;
    while rest != ""
      invariant Scan(Lines(rest)) == Scan(Lines(fdinfo.value))
      decreases |rest|
    {
      var n := LineLength(rest);
      var line := rest[..n];
      assert Lines(rest) == [line] + Lines(rest[n..]);
      rest := rest[n..];
      if !(PREFIX <= line) || line == PREFIX { continue; }
      var value := line[|PREFIX|..];
      assert value[..|value| - 1] == line[|PREFIX|..|line| - 1];
      var pid := ParseInt32(value[..|value| - 1]);
      match pid
      case None => return Failed;
      case Some(p) => return Pid(p);
    }
    return Failed;
  }

  lemma {:induction false} NaturalOfDigits(n: nat)
    ensures Natural(Digits(n)) == Some(n)
  {
    var s := Digits(n);
    assert s[|s| - 1] == '0' + (n % 10) as char;
    if n >= 10 {
      NaturalOfDigits(n / 10);
      assert s[..|s| - 1] == Digits(n / 10);
    }
  }

  lemma {:induction false} NaturalExactly(s: string)
    ensures Natural(s).Some? <==> s != "" && forall i | 0 <= i < |s| :: IsDigit(s[i])
  {
    if |s| > 1 { NaturalExactly(s[..|s| - 1]); }
  }

  // What is no number, after an optional sign, is refused.
  lemma ParsesNumbersOnly(s: string)
    requires ParseInt32(s).Some?
    ensures s != "" && var d := if s[0] == '-' || s[0] == '+' then s[1..] else s;
            d != "" && forall i | 0 <= i < |d| :: IsDigit(d[i])
  {
    NaturalExactly(if s[0] == '-' || s[0] == '+' then s[1..] else s);
  }

  // Printing and parsing: exactly the 32-bit numbers come back, with or without a plus sign.
  lemma ParseDecimal(p: int)
    ensures ParseInt32(Decimal(p)) == if -0x8000_0000 <= p < 0x8000_0000 then Some(p) else None
    ensures 0 <= p < 0x8000_0000 ==> ParseInt32("+" + Decimal(p)) == Some(p)
  {
    if p >= 0 { assert ("+" + Decimal(p))[1..] == Decimal(p); }
    var d := Digits(if p < 0 then -p else p);
    NaturalOfDigits(if p < 0 then -p else p);
    if p < 0 {
      assert ("-" + d)[1..] == d;
    } else {
      assert IsDigit(d[0]);
    }
  }

  // The first line ends at the first newline.
  lemma FirstLine(text: string, n: nat)
    requires 0 < n <= |text| && text[n - 1] == '\n'
    requires forall i | 0 <= i < n - 1 :: text[i] != '\n'
    ensures LineLength(text) == n
  {
    var m := LineLength(text);
    assert m == |text| || text[m - 1] == '\n';
  }

  lemma FirstLineOf(a: string, b: string)
    requires a != "" && a[|a| - 1] == '\n'
    ensures var n := LineLength(a); Lines(a + b) == [a[..n]] + Lines(a[n..] + b)
  {
    var n, text := LineLength(a), a + b;
    assert text[n - 1] == a[n - 1] == '\n';
    FirstLine(text, n);
    assert text[..n] == a[..n] && text[n..] == a[n..] + b;
  }

  // Whole lines without the prefix do not matter.
  lemma {:induction false} ScanPast(before: string, rest: string)
    requires before == "" || before[|before| - 1] == '\n'
    requires forall l | l in Lines(before) :: !(PREFIX <= l)
    ensures Scan(Lines(before + rest)) == Scan(Lines(rest))
    decreases |before|
  {
    if before == "" {
      assert before + rest == rest;
    } else {
      FirstLineOf(before, rest);
      var n := LineLength(before);
      var first, more := before[..n], before[n..];
      assert Lines(before)[0] == first && Lines(before)[1..] == Lines(more);
      assert first in Lines(before) && forall l | l in Lines(more) :: l in Lines(before);
      ScanPast(more, rest);
      assert ([first] + Lines(more + rest))[1..] == Lines(more + rest);
    }
  }

  function PidLine(p: int): string {
    PREFIX + Decimal(p) + "\n"
  }

  lemma PidLineLength(p: int)
    ensures LineLength(PidLine(p)) == |PidLine(p)|
    ensures PREFIX <= PidLine(p) != PREFIX && PidLine(p)[|PREFIX|..|PidLine(p)| - 1] == Decimal(p)
  {
    var d, line := Decimal(p), PidLine(p);
    assert forall i | 0 <= i < |d| :: d[i] != '\n';
    assert forall i | 0 <= i < |PREFIX| :: PREFIX[i] != '\n';
    FirstLine(line, |line|);
  }

  lemma ScanDecides(p: int, after: string)
    ensures Scan(Lines(PidLine(p) + after)) == if -0x8000_0000 <= p < 0x8000_0000 then Pid(p) else Failed
  {
    var line := PidLine(p);
    PidLineLength(p);
    ParseDecimal(p);
    FirstLineOf(line, after);
    assert line[..|line|] == line;
  }

  /** fdinfo round trip: whatever lines are before (none with the prefix) and whatever is behind, the
      pid that was printed is found, and only if it is no 32-bit number, the scan fails. */
  lemma {:induction false} FdInfoRoundTrip(before: string, p: int, after: string)
    requires before == "" || before[|before| - 1] == '\n'
    requires forall l | l in Lines(before) :: !("Pid:\t" <= l)
    ensures Scan(Lines(before + ("Pid:\t" + Decimal(p) + "\n" + after))) ==
            if -0x8000_0000 <= p < 0x8000_0000 then Pid(p) else Failed
  {
    assert "Pid:\t" + Decimal(p) + "\n" + after == PidLine(p) + after;
    ScanPast(before, PidLine(p) + after);
    ScanDecides(p, after);
  }
}
