/** IPv4 text: inet_pton(AF_INET, ..) as the GNU C library implements it,
    inet_ntop's dotted-decimal output, and ip_to_uint of src/bootstrap.cc. */
module Ipv4 {
  import opened Wrappers
  import opened Text
  import opened Wire

  /** The scanner state of inet_pton: the octets already closed by a dot,
      the octet being read, whether it has a digit yet, and how many octets
      have been started. */
  datatype PtonState = PtonState(done: seq<byte>, cur: byte, sawDigit: bool, octets: nat)

  const PtonStart := PtonState([], 0, false, 0)

  /** The address 0.0.0.0: s_addr == 0, also what a zeroed in_addr holds. */
  const Zero4: seq<byte> := [0, 0, 0, 0]

  /** One character of inet_pton: a digit extends the current octet
      (rejecting a leading zero, a value above 255 and a fifth octet); a dot
      after a digit closes it (rejecting a fifth); anything else fails. */
  function PtonStep(st: PtonState, ch: char): Option<PtonState> {
    if IsDigit(ch) then
      var v := st.cur as int * 10 + (ch as int - '0' as int);
      if st.sawDigit && st.cur == 0 then None
      else if v > 255 then None
      else if !st.sawDigit then
        if st.octets + 1 > 4 then None
        else Some(st.(cur := v, sawDigit := true, octets := st.octets + 1))
      else Some(st.(cur := v))
    else if ch == '.' && st.sawDigit then
      if st.octets == 4 then None
      else Some(PtonState(st.done + [st.cur], 0, false, st.octets))
    else None
  }

  function PtonRun(st: PtonState, s: string): Option<PtonState>
    decreases |s|
  {
    if s == [] then Some(st)
    else
      match PtonStep(st, s[0])
      case None => None
      case Some(next) => PtonRun(next, s[1..])
  }

  /** The shape every reachable scanner state has. */
  predicate PtonInv(st: PtonState) {
    st.octets <= 4 &&
    (if st.sawDigit then |st.done| + 1 == st.octets else |st.done| == st.octets < 4 && st.cur == 0)
  }

  lemma {:induction false} PtonRunInv(st: PtonState, s: string)
    requires PtonInv(st)
    ensures PtonRun(st, s).Some? ==> PtonInv(PtonRun(st, s).value)
    decreases |s|
  {
    if s != [] {
      var next := PtonStep(st, s[0]);
      if next.Some? {
        PtonRunInv(next.value, s[1..]);
      }
    }
  }

  /** inet_pton(AF_INET, s, dst): the four address bytes in network order,
      or None where inet_pton returns 0. */
  function ParseIpv4(s: string): (r: Option<seq<byte>>)
    ensures r.Some? ==> |r.value| == 4
  {
    PtonRunInv(PtonStart, s);
    var st :- PtonRun(PtonStart, s);
    if st.octets < 4 then None else Some(st.done + [st.cur])
  }

  /** inet_ntop(AF_INET, ..): "%u.%u.%u.%u" of the four bytes. */
  function FormatIpv4(b: seq<byte>): string
    requires |b| == 4
  {
    NatToString(b[0]) + "." + NatToString(b[1]) + "." + NatToString(b[2]) + "." + NatToString(b[3])
  }

  /** ip_to_uint: the address in host byte order, or 0xffffffff when the
      text is not an IPv4 address. */
  function IpToUint(s: string): (r: u32)
    ensures ParseIpv4(s).None? ==> r == 0xFFFF_FFFF
    ensures ParseIpv4(s).Some? ==> BE32(r) == ParseIpv4(s).value
  {
    match ParseIpv4(s)
    case None => 0xFFFF_FFFF
    case Some(b) =>
      ReadBE32Encodes(b, 0);
      assert b[0..4] == b;
      ReadBE32(b, 0)
  }

  // ---------------------------------------------------------------------
  // inet_pton reads back what inet_ntop writes

  /** Scanning a + c is scanning a, then c from where a left off. */
  lemma {:induction false} PtonRunPrefix(st: PtonState, a: string, mid: PtonState, c: string)
    requires PtonRun(st, a) == Some(mid)
    ensures PtonRun(st, a + c) == PtonRun(mid, c)
    decreases |a|
  {
    if a != [] {
      assert (a + c)[0] == a[0] && (a + c)[1..] == a[1..] + c;
      PtonRunPrefix(PtonStep(st, a[0]).value, a[1..], mid, c);
    } else {
      assert a + c == c;
    }
  }

  /** The decimal text of an octet value opens a fresh octet and reads it. */
  lemma {:induction false} PtonRunDigits(st: PtonState, n: nat)
    requires n <= 255 && !st.sawDigit && st.cur == 0 && st.octets < 4
    ensures PtonRun(st, NatToString(n)) == Some(st.(cur := n, sawDigit := true, octets := st.octets + 1))
  {
    if n >= 10 {
      PtonRunDigits(st, n / 10);
      var mid := st.(cur := n / 10, sawDigit := true, octets := st.octets + 1);
      var d := DigitChar(n % 10);
      PtonRunPrefix(st, NatToString(n / 10), mid, [d]);
      assert [d][1..] == [];
      assert PtonStep(mid, d) == Some(st.(cur := n, sawDigit := true, octets := st.octets + 1));
    }
  }

  /** A dot closes the current octet. */
  lemma PtonRunDot(st: PtonState)
    requires st.sawDigit && st.octets < 4
    ensures PtonRun(st, ".") == Some(PtonState(st.done + [st.cur], 0, false, st.octets))
  {
    assert "."[1..] == [];
  }

  /** Parsing the dotted-decimal text of four bytes gives those bytes. */
  lemma ParseFormatIpv4(b: seq<byte>)
    requires |b| == 4
    ensures ParseIpv4(FormatIpv4(b)) == Some(b)
  {
    var s0 := PtonStart;
    var t1 := NatToString(b[0]) + ".";
    OctetSteps(s0, b[0]);
    var s1 := PtonState([b[0]], 0, false, 1);
    assert [] + [b[0]] == [b[0]];
    var t2 := t1 + NatToString(b[1]) + ".";
    var s2 := PtonState([b[0], b[1]], 0, false, 2);
    assert PtonRun(s0, t2) == Some(s2) by {
      PtonRunPrefix(s0, t1, s1, NatToString(b[1]) + ".");
      OctetSteps(s1, b[1]);
      assert [b[0]] + [b[1]] == [b[0], b[1]];
      assert t2 == t1 + (NatToString(b[1]) + ".");
    }
    var t3 := t2 + NatToString(b[2]) + ".";
    var s3 := PtonState([b[0], b[1], b[2]], 0, false, 3);
    assert PtonRun(s0, t3) == Some(s3) by {
      PtonRunPrefix(s0, t2, s2, NatToString(b[2]) + ".");
      OctetSteps(s2, b[2]);
      assert [b[0], b[1]] + [b[2]] == [b[0], b[1], b[2]];
      assert t3 == t2 + (NatToString(b[2]) + ".");
    }
    var t4 := t3 + NatToString(b[3]);
    PtonRunDigits(s3, b[3]);
    PtonRunPrefix(s0, t3, s3, NatToString(b[3]));
    assert t4 == FormatIpv4(b);
    assert [b[0], b[1], b[2]] + [b[3]] == b;
  }

  lemma OctetSteps(st: PtonState, n: byte)
    requires !st.sawDigit && st.cur == 0 && st.octets < 3
    ensures PtonRun(st, NatToString(n) + ".") == Some(PtonState(st.done + [n], 0, false, st.octets + 1))
  {
    PtonRunDigits(st, n);
    var mid := st.(cur := n, sawDigit := true, octets := st.octets + 1);
    PtonRunPrefix(st, NatToString(n), mid, ".");
    PtonRunDot(mid);
  }

  /** ip_to_uint of inet_ntop's text is the address in host order. */
  lemma IpToUintOfFormat(b: seq<byte>)
    requires |b| == 4
    ensures IpToUint(FormatIpv4(b)) == ReadBE32(b, 0)
  {
    ParseFormatIpv4(b);
  }
}
