/** The start of the bootstrap in src/bootstrap.cc: reading the IP list
    file (read_ip_list) and electing the root node as the numerically
    lowest address (anp_bootstrap_handler).

    The file arrives as its contents, or None where fopen fails. */
module RootElection {
  import opened Wrappers
  import opened Text
  import opened Wire
  import opened Ipv4

  /** INET_ADDRSTRLEN: the size of each ip_list row. */
  const InetAddrStrLen := 16
  const MaxIps := 64

  // ---------------------------------------------------------------------
  // read_ip_list

  /** How many characters fgets(buf, room + 1, fp) takes from the rest s
      of the file: at most room, stopping just after a newline. */
  function FgetsLen(s: string, room: nat): (n: nat)
    ensures n <= room && n <= |s|
    ensures s != [] && room > 0 ==> n >= 1
  {
    if s == [] || room == 0 then 0
    else if s[0] == '\n' then 1
    else 1 + FgetsLen(s[1..], room - 1)
  }

  /** `buf[strcspn(buf, "\r\n")] = '\0'` read back as a C string: the
      characters before the first carriage return, newline or NUL. */
  function CutLine(s: string): (r: string)
    ensures r <= s && '\r' !in r && '\n' !in r && '\0' !in r
  {
    if s == [] || s[0] == '\r' || s[0] == '\n' || s[0] == '\0' then []
    else [s[0]] + CutLine(s[1..])
  }

  /** What an ip_list row can hold after the cut: a non-empty C string of
      at most INET_ADDRSTRLEN - 1 characters, free of line breaks. */
  predicate Entry(e: string) {
    e != [] && |e| < InetAddrStrLen && '\r' !in e && '\n' !in e && '\0' !in e
  }

  /** The entries read_ip_list would collect from the rest s of the file
      with no max_ips bound: every fgets chunk, cut at its line break,
      keeping the non-empty ones. */
  function IpEntries(s: string): (r: seq<string>)
    ensures forall k :: 0 <= k < |r| ==> Entry(r[k])
    decreases |s|
  {
    if s == [] then []
    else
      var n := FgetsLen(s, InetAddrStrLen - 1);
      Kept(CutLine(s[..n])) + IpEntries(s[n..])
  }

  /** A row counts only when it is not empty. */
  function Kept(line: string): seq<string> {
    if line == [] then [] else [line]
  }

  /** One fgets call on the unread rest of the file: the entries
      collected so far followed by those still unread stay the same. */
  lemma ReadStep(rest: string, n: nat, before: seq<string>, after: seq<string>, all: seq<string>)
    requires rest != [] && n == FgetsLen(rest, InetAddrStrLen - 1)
    requires before + IpEntries(rest) == all
    requires after == before + Kept(CutLine(rest[..n]))
    ensures after + IpEntries(rest[n..]) == all
  {
    var k, r := Kept(CutLine(rest[..n])), IpEntries(rest[n..]);
    assert IpEntries(rest) == k + r;
    assert before + (k + r) == (before + k) + r;
  }

  /** A prefix that stops at the bound or at the end is the bounded prefix. */
  lemma BoundedPrefix(ips: seq<string>, rest: seq<string>, m: nat)
    requires |ips| <= m && (|ips| == m || rest == [])
    ensures ips == (ips + rest)[..Min(|ips + rest|, m)]
  {
  }

  /** read_ip_list: -1 when the file cannot be opened; otherwise the first
      max_ips entries of the file and their number. */
  method ReadIpList(file: Option<string>, maxIps: int) returns (count: int, ips: seq<string>)
    ensures file.None? ==> count == -1 && ips == []
    ensures file.Some? ==> count == |ips| && ips == IpEntries(file.value)[..Min(|IpEntries(file.value)|, Max(0, maxIps))]
  {
    if file.None? {
      return -1, [];
    }
    var rest := file.value;
    ips := [];
    while |ips| < maxIps && rest != []
      invariant ips + IpEntries(rest) == IpEntries(file.value)
      invariant |ips| <= Max(0, maxIps)
      decreases |rest|
    {
      ghost var before := ips;
      var n := FgetsLen(rest, InetAddrStrLen - 1);
      var line := CutLine(rest[..n]);
      if |line| > 0 {
        ips := ips + [line];
      }
      ReadStep(rest, n, before, ips, IpEntries(file.value));
      rest := rest[n..];
    }
    BoundedPrefix(ips, IpEntries(rest), Max(0, maxIps));
    count := |ips|;
  }

  /** A file of entries, one per line. */
  function JoinLines(lines: seq<string>): string {
    if lines == [] then [] else lines[0] + "\n" + JoinLines(lines[1..])
  }

  lemma {:induction false} FgetsLenShortLine(l: string, rest: string, room: nat)
    requires '\n' !in l && |l| < room
    ensures FgetsLen(l + "\n" + rest, room) == |l| + 1
  {
    if l != [] {
      assert (l + "\n" + rest)[1..] == l[1..] + "\n" + rest;
      FgetsLenShortLine(l[1..], rest, room - 1);
    }
  }

  lemma {:induction false} FgetsLenFullLine(l: string, rest: string, room: nat)
    requires '\n' !in l && |l| == room
    ensures FgetsLen(l + rest, room) == room
  {
    if l != [] {
      assert (l + rest)[1..] == l[1..] + rest;
      FgetsLenFullLine(l[1..], rest, room - 1);
    }
  }

  lemma {:induction false} CutLineStops(l: string, t: string)
    requires '\r' !in l && '\n' !in l && '\0' !in l
    requires t == [] || t[0] == '\n'
    ensures CutLine(l + t) == l
  {
    if l != [] {
      assert (l + t)[1..] == l[1..] + t;
      CutLineStops(l[1..], t);
    }
  }

  /** One line of the file yields its entry, whether or not it fills the
      fgets buffer. */
  lemma EntryLine(l: string, rest: string)
    requires Entry(l)
    ensures IpEntries(l + "\n" + rest) == [l] + IpEntries(rest)
  {
    var s := l + "\n" + rest;
    if |l| < InetAddrStrLen - 1 {
      FgetsLenShortLine(l, rest, InetAddrStrLen - 1);
      assert s[..|l| + 1] == l + "\n";
      CutLineStops(l, "\n");
      assert s[|l| + 1..] == rest;
    } else {
      FgetsLenFullLine(l, "\n" + rest, InetAddrStrLen - 1);
      assert s == l + ("\n" + rest);
      assert s[..|l|] == l + [];
      CutLineStops(l, []);
      var t := s[|l|..];
      assert t == "\n" + rest;
      assert t[..1] == "\n" && t[1..] == rest;
      assert CutLine(t[..1]) == [];
    }
  }

  /** read_ip_list reads back a file written one address per line. */
  lemma {:induction false} ReadJoinedLines(lines: seq<string>)
    requires forall k :: 0 <= k < |lines| ==> Entry(lines[k])
    ensures IpEntries(JoinLines(lines)) == lines
  {
    if lines != [] {
      EntryLine(lines[0], JoinLines(lines[1..]));
      ReadJoinedLines(lines[1..]);
    }
  }

  // ---------------------------------------------------------------------
  // Root election

  /** The entry the election loop settles on: the lowest ip_to_uint value,
      and on a tie the earliest entry, since the loop replaces only on a
      strictly lower value. */
  function FirstLowest(ips: seq<string>): (r: nat)
    requires |ips| > 0
    ensures r < |ips|
    ensures forall j :: 0 <= j < |ips| ==> IpToUint(ips[r]) <= IpToUint(ips[j])
    ensures forall j :: 0 <= j < r ==> IpToUint(ips[r]) < IpToUint(ips[j])
  {
    if |ips| == 1 then 0
    else
      var r := FirstLowest(ips[..|ips| - 1]);
      if IpToUint(ips[|ips| - 1]) < IpToUint(ips[r]) then |ips| - 1 else r
  }

  /** The election in anp_bootstrap_handler and the role it gives this
      host: root exactly when the local address is the elected one. */
  method ElectRoot(ips: seq<string>, localIp: string) returns (root: string, isRoot: bool)
    requires |ips| > 0
    ensures root == ips[FirstLowest(ips)]
    ensures isRoot <==> localIp == root
  {
    root := ips[0];
    var lowest := IpToUint(ips[0]);
    ghost var at := 0;
    assert ips[..1] == [ips[0]];
    for i := 1 to |ips|
      invariant at == FirstLowest(ips[..i])
      invariant root == ips[at] && lowest == IpToUint(root)
    {
      assert ips[..i + 1][..i] == ips[..i];
      var val := IpToUint(ips[i]);
      if val < lowest {
        lowest := val;
        root := ips[i];
        at := i;
      }
    }
    assert ips[..|ips|] == ips;
    isRoot := localIp == root;
  }

  /** An unparsable entry counts as 0xffffffff, so it is elected only when
      no entry is an address below 255.255.255.255. */
  lemma RootIsAddress(ips: seq<string>, j: nat)
    requires j < |ips| && IpToUint(ips[j]) < 0xFFFF_FFFF
    ensures ParseIpv4(ips[FirstLowest(ips)]).Some?
  {
  }

  /** When the entries have distinct values, the elected root does not
      depend on the order of the file. */
  lemma ElectionOrderFree(ips: seq<string>, other: seq<string>)
    requires |ips| > 0 && multiset(ips) == multiset(other)
    requires forall i, j :: 0 <= i < j < |ips| ==> IpToUint(ips[i]) != IpToUint(ips[j])
    ensures |other| > 0
    ensures ips[FirstLowest(ips)] == other[FirstLowest(other)]
  {
    assert ips[0] in multiset(other);
    var a := ips[FirstLowest(ips)];
    var b := other[FirstLowest(other)];
    assert a in multiset(other);
    assert b in multiset(ips);
    var i :| 0 <= i < |ips| && ips[i] == b;
    var k :| 0 <= k < |other| && other[k] == a;
    assert IpToUint(b) <= IpToUint(other[k]);
    assert IpToUint(a) <= IpToUint(ips[i]);
  }
}
