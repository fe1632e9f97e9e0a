/** The host configuration records of include/anp_bootstrap.h and their
    length-prefixed big-endian wire format (serialize_host,
    serialize_all_hosts, deserialize_host, deserialize_all_hosts).

    The fixed-size C records become datatypes whose sequences carry their
    counts: `|devices|` is num_devices and `|interfaces|` is num_interfaces.
    The char[64] fields hold C strings (no NUL inside, at most 63
    characters); host_name and host_ip are std::strings. Characters are
    bytes: a string's characters all have codes below 256. */
module HostCodec {
  import opened Wrappers
  import opened Wire

  const MaxStrLen := 64
  const MaxInterfaces := 64
  const MaxDevices := 8

  datatype PlanarInterface = PlanarInterface(id: string, name: string, ipv4: seq<byte>, ipv6: seq<byte>)
  datatype Device = Device(virtualIntf: string, virtualIp: seq<byte>, interfaces: seq<PlanarInterface>)
  datatype Host = Host(name: string, ip: string, devices: seq<Device>)

  // ---------------------------------------------------------------------
  // Characters as bytes

  predicate Octets(s: string) {
    forall i :: 0 <= i < |s| ==> s[i] as int < 256
  }

  /** The bytes of a string's characters (a char converted to uint8_t). */
  function Bytes(s: string): (r: seq<byte>)
    ensures |r| == |s|
  {
    seq(|s|, i requires 0 <= i < |s| => s[i] as int % 256)
  }

  function Chars(b: seq<byte>): (r: string)
    ensures |r| == |b|
  {
    seq(|b|, i requires 0 <= i < |b| => b[i] as char)
  }

  /** Reading bytes back as characters restores a string of octets. */
  lemma CharsOfBytes(s: string)
    requires Octets(s)
    ensures Chars(Bytes(s)) == s
  {
    assert forall i :: 0 <= i < |s| ==> Chars(Bytes(s))[i] == s[i];
  }

  /** The C string held in a char array: everything before the first NUL. */
  function CStr(s: string): (r: string)
    ensures r <= s && '\0' !in r
    ensures '\0' !in s ==> r == s
  {
    if s == [] || s[0] == '\0' then [] else [s[0]] + CStr(s[1..])
  }

  // ---------------------------------------------------------------------
  // Well-formed records

  /** What a char[MAX_STR_LEN] field can hold. */
  predicate CField(s: string) {
    |s| < MaxStrLen && Octets(s) && '\0' !in s
  }

  /** A std::string whose length fits the 4-byte length prefix. */
  predicate Text32(s: string) {
    |s| < 0x1_0000_0000 && Octets(s)
  }

  predicate ValidInterface(i: PlanarInterface) {
    CField(i.id) && CField(i.name) && |i.ipv4| == 4 && |i.ipv6| == 16
  }

  predicate ValidDevice(d: Device) {
    CField(d.virtualIntf) && |d.virtualIp| == 4 && |d.interfaces| <= MaxInterfaces &&
    forall k :: 0 <= k < |d.interfaces| ==> ValidInterface(d.interfaces[k])
  }

  /** A host_t that fits its arrays: at most MAX_DEVICES devices of at most
      MAX_INTERFACES interfaces, with C strings of at most 63 characters. */
  predicate ValidHost(h: Host) {
    Text32(h.name) && Text32(h.ip) && |h.devices| <= MaxDevices &&
    forall k :: 0 <= k < |h.devices| ==> ValidDevice(h.devices[k])
  }


  // ---------------------------------------------------------------------
  // The encoding. A count or length is htonl of the value converted to
  // uint32_t; a well-formed record never needs the conversion to wrap.

  /** Conversion of a size to uint32_t. */
  function U32(n: nat): (r: u32)
    ensures n < 0x1_0000_0000 ==> r == n
  {
    n % 0x1_0000_0000
  }

  /** The bytes of records written one after the other. */
  function EncodeMany<T>(enc: T -> seq<byte>, xs: seq<T>): seq<byte> {
    if xs == [] then [] else enc(xs[0]) + EncodeMany(enc, xs[1..])
  }

  /** A big-endian length followed by the characters. */
  function EncodeText(s: string): (r: seq<byte>)
    ensures |r| == 4 + |s|
  {
    BE32(U32(|s|)) + Bytes(s)
  }

  function EncodeInterface(i: PlanarInterface): seq<byte> {
    EncodeText(i.id) + EncodeText(i.name) + i.ipv4 + i.ipv6
  }

  function EncodeDevice(d: Device): seq<byte> {
    EncodeText(d.virtualIntf) + d.virtualIp + BE32(U32(|d.interfaces|)) +
    EncodeMany(EncodeInterface, d.interfaces)
  }

  /** What serialize_host appends for one host. */
  function EncodeHost(h: Host): seq<byte> {
    EncodeText(h.name) + EncodeText(h.ip) + BE32(U32(|h.devices|)) +
    EncodeMany(EncodeDevice, h.devices)
  }

  /** What serialize_all_hosts returns: the host count, then every host. */
  function EncodeAllHosts(hs: seq<Host>): seq<byte> {
    BE32(U32(|hs|)) + EncodeMany(EncodeHost, hs)
  }

  /** Appending one more record appends its bytes. */
  lemma {:induction false} EncodeManySnoc<T>(enc: T -> seq<byte>, xs: seq<T>, x: T)
    ensures EncodeMany(enc, xs + [x]) == EncodeMany(enc, xs) + enc(x)
  {
    if xs == [] {
      assert [x][1..] == [];
    } else {
      assert (xs + [x])[1..] == xs[1..] + [x];
      EncodeManySnoc(enc, xs[1..], x);
    }
  }

  /** Appending the bytes of the records before index i + 1 is appending
      those before i and then those of xs[i]. */
  lemma EncodeManyPrefix<T>(enc: T -> seq<byte>, buffer: seq<byte>, xs: seq<T>, i: nat)
    requires i < |xs|
    ensures buffer + EncodeMany(enc, xs[..i + 1]) == buffer + EncodeMany(enc, xs[..i]) + enc(xs[i])
  {
    assert xs[..i + 1] == xs[..i] + [xs[i]];
    EncodeManySnoc(enc, xs[..i], xs[i]);
  }

  // ---------------------------------------------------------------------
  // The decoding. Each parser reads from the front of the bytes that
  // remain from deserialize_host's offset on, and returns the value and
  // the bytes after it; None where deserialize_host would read past the end
  // of the buffer or write past the end of a fixed-size array (which the C
  // code does not check).

  function ParseU32(s: seq<byte>): (r: Option<(u32, seq<byte>)>)
    ensures r.Some? ==> |s| >= 4 && r.value.1 == s[4..]
  {
    if |s| >= 4 then Some((ReadBE32(s, 0), s[4..])) else None
  }

  /** A length and that many bytes read into a std::string. */
  function ParseText(s: seq<byte>): Option<(string, seq<byte>)> {
    match ParseU32(s)
    case None => None
    case Some((len, t)) =>
      if len <= |t| then Some((Chars(t[..len]), t[len..])) else None
  }

  /** A length and that many bytes copied into a char[MAX_STR_LEN] and
      NUL-terminated at the length, which must lie inside the array. */
  function ParseCField(s: seq<byte>): Option<(string, seq<byte>)> {
    match ParseU32(s)
    case None => None
    case Some((len, t)) =>
      if len < MaxStrLen && len <= |t| then Some((CStr(Chars(t[..len])), t[len..])) else None
  }

  /** n raw bytes copied with memcpy (an in_addr or in6_addr). */
  function ParseRaw(s: seq<byte>, n: nat): (r: Option<(seq<byte>, seq<byte>)>)
    ensures r.Some? ==> |r.value.0| == n && r.value.0 + r.value.1 == s
  {
    if n <= |s| then Some((s[..n], s[n..])) else None
  }

  /** k records one after the other, each read by `item`. */
  function ParseMany<T>(item: seq<byte> -> Option<(T, seq<byte>)>, s: seq<byte>, k: nat)
    : (r: Option<(seq<T>, seq<byte>)>)
    ensures r.Some? ==> |r.value.0| == k
    decreases k
  {
    if k == 0 then Some(([], s))
    else
      match item(s)
      case None => None
      case Some((x, t)) =>
        match ParseMany(item, t, k - 1)
        case None => None
        case Some((xs, u)) => Some(([x] + xs, u))
  }

  function ParseInterface(s: seq<byte>): Option<(PlanarInterface, seq<byte>)> {
    match ParseCField(s)
    case None => None
    case Some((id, t1)) =>
      match ParseCField(t1)
      case None => None
      case Some((name, t2)) =>
        match ParseRaw(t2, 4)
        case None => None
        case Some((ipv4, t3)) =>
          match ParseRaw(t3, 16)
          case None => None
          case Some((ipv6, t4)) => Some((PlanarInterface(id, name, ipv4, ipv6), t4))
  }

  function ParseDevice(s: seq<byte>): Option<(Device, seq<byte>)> {
    match ParseCField(s)
    case None => None
    case Some((intf, t1)) =>
      match ParseRaw(t1, 4)
      case None => None
      case Some((vip, t2)) =>
        match ParseU32(t2)
        case None => None
        case Some((count, t3)) =>
          if count > MaxInterfaces then None
          else
            match ParseMany(ParseInterface, t3, count)
            case None => None
            case Some((intfs, t4)) => Some((Device(intf, vip, intfs), t4))
  }

  /** What deserialize_host reads, and the bytes after it. */
  function ParseHost(s: seq<byte>): Option<(Host, seq<byte>)> {
    match ParseText(s)
    case None => None
    case Some((name, t1)) =>
      match ParseText(t1)
      case None => None
      case Some((ip, t2)) =>
        match ParseU32(t2)
        case None => None
        case Some((count, t3)) =>
          if count > MaxDevices then None
          else
            match ParseMany(ParseDevice, t3, count)
            case None => None
            case Some((ds, t4)) => Some((Host(name, ip, ds), t4))
  }

  /** The hosts deserialize_all_hosts reads, in buffer order. */
  function ParseAllHosts(buf: seq<byte>): Option<seq<Host>> {
    match ParseU32(buf)
    case None => None
    case Some((count, t)) =>
      match ParseMany(ParseHost, t, count)
      case None => None
      case Some((hs, _)) => Some(hs)
  }

  // ---------------------------------------------------------------------
  // Round trip: deserialize_host reads back what serialize_host wrote,
  // whatever follows it, and stops just after it.

  /** `item` reads back every encoding of a valid value. */
  ghost predicate ReadsBack<T(!new)>(item: seq<byte> -> Option<(T, seq<byte>)>, enc: T -> seq<byte>, valid: T -> bool) {
    forall x, rest :: valid(x) ==> item(enc(x) + rest) == Some((x, rest))
  }

  lemma ParseU32RoundTrip(x: u32, rest: seq<byte>)
    ensures ParseU32(BE32(x) + rest) == Some((x, rest))
  {
    var s := BE32(x) + rest;
    assert s[0..4] == BE32(x) && s[4..] == rest;
    BE32RoundTrip(x, s, 0);
  }

  lemma ParseTextRoundTrip(s: string, rest: seq<byte>)
    requires Text32(s)
    ensures ParseText(EncodeText(s) + rest) == Some((s, rest))
  {
    var t := Bytes(s) + rest;
    assert EncodeText(s) + rest == BE32(|s|) + t;
    ParseU32RoundTrip(|s|, t);
    assert t[..|s|] == Bytes(s) && t[|s|..] == rest;
    CharsOfBytes(s);
  }

  lemma ParseCFieldRoundTrip(s: string, rest: seq<byte>)
    requires CField(s)
    ensures ParseCField(EncodeText(s) + rest) == Some((s, rest))
  {
    var t := Bytes(s) + rest;
    assert EncodeText(s) + rest == BE32(|s|) + t;
    ParseU32RoundTrip(|s|, t);
    assert t[..|s|] == Bytes(s) && t[|s|..] == rest;
    CharsOfBytes(s);
  }

  lemma ParseRawRoundTrip(b: seq<byte>, rest: seq<byte>)
    ensures ParseRaw(b + rest, |b|) == Some((b, rest))
  {
    assert (b + rest)[..|b|] == b && (b + rest)[|b|..] == rest;
  }

  /** Records written one after the other are read back one after the
      other. */
  lemma {:induction false} ParseManyRoundTrip<T(!new)>(item: seq<byte> -> Option<(T, seq<byte>)>,
      enc: T -> seq<byte>, valid: T -> bool, xs: seq<T>, rest: seq<byte>)
    requires ReadsBack(item, enc, valid)
    requires forall k :: 0 <= k < |xs| ==> valid(xs[k])
    ensures ParseMany(item, EncodeMany(enc, xs) + rest, |xs|) == Some((xs, rest))
  {
    if xs != [] {
      var t := EncodeMany(enc, xs[1..]) + rest;
      assert EncodeMany(enc, xs) + rest == enc(xs[0]) + t;
      assert item(enc(xs[0]) + t) == Some((xs[0], t));
      ParseManyRoundTrip(item, enc, valid, xs[1..], rest);
      assert |xs[1..]| == |xs| - 1;
      assert [xs[0]] + xs[1..] == xs;
    } else {
      assert EncodeMany(enc, xs) + rest == rest;
    }
  }

  lemma ParseInterfaceRoundTrip(i: PlanarInterface, rest: seq<byte>)
    requires ValidInterface(i)
    ensures ParseInterface(EncodeInterface(i) + rest) == Some((i, rest))
  {
    var t3 := i.ipv6 + rest;
    var t2 := i.ipv4 + t3;
    var t1 := EncodeText(i.name) + t2;
    assert EncodeInterface(i) + rest == EncodeText(i.id) + t1;
    ParseCFieldRoundTrip(i.id, t1);
    ParseCFieldRoundTrip(i.name, t2);
    ParseRawRoundTrip(i.ipv4, t3);
    ParseRawRoundTrip(i.ipv6, rest);
  }

  lemma InterfacesReadBack()
    ensures ReadsBack(ParseInterface, EncodeInterface, ValidInterface)
  {
    forall i, rest | ValidInterface(i)
      ensures ParseInterface(EncodeInterface(i) + rest) == Some((i, rest))
    {
      ParseInterfaceRoundTrip(i, rest);
    }
  }

  lemma ParseDeviceRoundTrip(d: Device, rest: seq<byte>)
    requires ValidDevice(d)
    ensures ParseDevice(EncodeDevice(d) + rest) == Some((d, rest))
  {
    var t3 := EncodeMany(EncodeInterface, d.interfaces) + rest;
    var t2 := BE32(|d.interfaces|) + t3;
    var t1 := d.virtualIp + t2;
    assert EncodeDevice(d) + rest == EncodeText(d.virtualIntf) + t1;
    ParseCFieldRoundTrip(d.virtualIntf, t1);
    ParseRawRoundTrip(d.virtualIp, t2);
    ParseU32RoundTrip(|d.interfaces|, t3);
    InterfacesReadBack();
    ParseManyRoundTrip(ParseInterface, EncodeInterface, ValidInterface, d.interfaces, rest);
  }

  lemma DevicesReadBack()
    ensures ReadsBack(ParseDevice, EncodeDevice, ValidDevice)
  {
    forall d, rest | ValidDevice(d)
      ensures ParseDevice(EncodeDevice(d) + rest) == Some((d, rest))
    {
      ParseDeviceRoundTrip(d, rest);
    }
  }

  /** deserialize_host applied where serialize_host wrote h restores every
      field of h and stops just after the bytes written. */
  lemma ParseHostRoundTrip(h: Host, rest: seq<byte>)
    requires ValidHost(h)
    ensures ParseHost(EncodeHost(h) + rest) == Some((h, rest))
  {
    var t3 := EncodeMany(EncodeDevice, h.devices) + rest;
    var t2 := BE32(|h.devices|) + t3;
    var t1 := EncodeText(h.ip) + t2;
    assert EncodeHost(h) + rest == EncodeText(h.name) + t1;
    ParseTextRoundTrip(h.name, t1);
    ParseTextRoundTrip(h.ip, t2);
    ParseU32RoundTrip(|h.devices|, t3);
    DevicesReadBack();
    ParseManyRoundTrip(ParseDevice, EncodeDevice, ValidDevice, h.devices, rest);
  }

  lemma HostsReadBack()
    ensures ReadsBack(ParseHost, EncodeHost, ValidHost)
  {
    forall h, rest | ValidHost(h)
      ensures ParseHost(EncodeHost(h) + rest) == Some((h, rest))
    {
      ParseHostRoundTrip(h, rest);
    }
  }

  /** deserialize_all_hosts reads back every host serialize_all_hosts
      wrote, in the order written. */
  lemma AllHostsRoundTrip(hs: seq<Host>)
    requires |hs| < 0x1_0000_0000 && forall k :: 0 <= k < |hs| ==> ValidHost(hs[k])
    ensures ParseAllHosts(EncodeAllHosts(hs)) == Some(hs)
  {
    var body := EncodeMany(EncodeHost, hs);
    assert EncodeAllHosts(hs) == BE32(|hs|) + (body + []);
    ParseU32RoundTrip(|hs|, body + []);
    HostsReadBack();
    ParseManyRoundTrip(ParseHost, EncodeHost, ValidHost, hs, []);
  }

  // ---------------------------------------------------------------------
  // serialize_host and serialize_all_hosts

  /** The hosts of a table in the order an iteration visits their keys. */
  function InOrder(hosts: map<string, Host>, order: seq<string>): (r: seq<Host>)
    requires forall i :: 0 <= i < |order| ==> order[i] in hosts
    ensures |r| == |order| && forall i :: 0 <= i < |order| ==> r[i] == hosts[order[i]]
  {
    seq(|order|, i requires 0 <= i < |order| => hosts[order[i]])
  }

  method AppendText(buffer: seq<byte>, s: string) returns (out: seq<byte>)
    ensures out == buffer + EncodeText(s)
  {
    out := buffer + BE32(U32(|s|));
    out := out + Bytes(s);
  }

  method AppendInterface(buffer: seq<byte>, i: PlanarInterface) returns (out: seq<byte>)
    ensures out == buffer + EncodeInterface(i)
  {
    out := AppendText(buffer, i.id);
    out := AppendText(out, i.name);
    out := out + i.ipv4;
    out := out + i.ipv6;
  }

  /** The interface loop of serialize_host. */
  method AppendInterfaces(buffer: seq<byte>, intfs: seq<PlanarInterface>) returns (out: seq<byte>)
    ensures out == buffer + EncodeMany(EncodeInterface, intfs)
  {
    out := buffer;
    var j := 0;
    while j < |intfs|
      invariant 0 <= j <= |intfs|
      invariant out == buffer + EncodeMany(EncodeInterface, intfs[..j])
    {
      EncodeManyPrefix(EncodeInterface, buffer, intfs, j);
      out := AppendInterface(out, intfs[j]);
      j := j + 1;
    }
    assert intfs[..j] == intfs;
  }

  method AppendDevice(buffer: seq<byte>, d: Device) returns (out: seq<byte>)
    ensures out == buffer + EncodeDevice(d)
  {
    out := AppendText(buffer, d.virtualIntf);
    out := out + d.virtualIp;
    out := out + BE32(U32(|d.interfaces|));
    out := AppendInterfaces(out, d.interfaces);
  }

  /** The device loop of serialize_host. */
  method AppendDevices(buffer: seq<byte>, devices: seq<Device>) returns (out: seq<byte>)
    ensures out == buffer + EncodeMany(EncodeDevice, devices)
  {
    out := buffer;
    var i := 0;
    while i < |devices|
      invariant 0 <= i <= |devices|
      invariant out == buffer + EncodeMany(EncodeDevice, devices[..i])
    {
      EncodeManyPrefix(EncodeDevice, buffer, devices, i);
      out := AppendDevice(out, devices[i]);
      i := i + 1;
    }
    assert devices[..i] == devices;
  }

  /** serialize_host: appends the encoding of `host` to `buffer`. */
  method SerializeHost(buffer: seq<byte>, host: Host) returns (out: seq<byte>)
    ensures out == buffer + EncodeHost(host)
  {
    out := AppendText(buffer, host.name);
    out := AppendText(out, host.ip);
    out := out + BE32(U32(|host.devices|));
    out := AppendDevices(out, host.devices);
  }

  /** serialize_all_hosts: the table's size, then each host in the table's
      iteration order `order`. */
  method SerializeAllHosts(hosts: map<string, Host>, order: seq<string>) returns (out: seq<byte>)
    requires Enumerates(order, hosts.Keys)
    ensures |order| == |hosts|
    ensures out == EncodeAllHosts(InOrder(hosts, order))
  {
    EnumeratesCard(order, hosts.Keys);
    ghost var hs := InOrder(hosts, order);
    out := BE32(U32(|hosts|));
    var i := 0;
    while i < |order|
      invariant 0 <= i <= |order|
      invariant out == BE32(U32(|hs|)) + EncodeMany(EncodeHost, hs[..i])
    {
      EncodeManyPrefix(EncodeHost, BE32(U32(|hs|)), hs, i);
      out := SerializeHost(out, hosts[order[i]]);
      i := i + 1;
    }
    assert hs[..i] == hs;
  }

  /** The number of hosts written is the number in the table. */
  lemma {:induction false} EnumeratesCard<T>(order: seq<T>, s: set<T>)
    requires Enumerates(order, s)
    ensures |order| == |s|
  {
    if order != [] {
      var init := order[..|order| - 1];
      var last := order[|order| - 1];
      assert forall i :: 0 <= i < |init| ==> init[i] == order[i];
      assert (set x | x in init) == s - {last} by {
        assert forall x :: x in init ==> x in order && x != last;
        assert forall x :: x in order && x != last ==> x in init;
      }
      EnumeratesCard(init, s - {last});
    }
  }

  // ---------------------------------------------------------------------
  // deserialize_host and deserialize_all_hosts, which move an offset
  // through the buffer: what remains to read is buffer[offset..].

  method ReadU32(buffer: seq<byte>, offset: nat) returns (v: u32, next: nat)
    requires offset <= |buffer| && ParseU32(buffer[offset..]).Some?
    ensures next <= |buffer|
    ensures ParseU32(buffer[offset..]) == Some((v, buffer[next..]))
  {
    v := ReadBE32(buffer, offset);
    next := offset + 4;
    assert buffer[offset..][4..] == buffer[next..];
  }

  method ReadText(buffer: seq<byte>, offset: nat) returns (s: string, next: nat)
    requires offset <= |buffer| && ParseText(buffer[offset..]).Some?
    ensures next <= |buffer|
    ensures ParseText(buffer[offset..]) == Some((s, buffer[next..]))
  {
    var len, p := ReadU32(buffer, offset);
    s := Chars(buffer[p..p + len]);
    next := p + len;
    assert buffer[p..][..len] == buffer[p..p + len] && buffer[p..][len..] == buffer[next..];
  }

  method ReadCField(buffer: seq<byte>, offset: nat) returns (s: string, next: nat)
    requires offset <= |buffer| && ParseCField(buffer[offset..]).Some?
    ensures next <= |buffer|
    ensures ParseCField(buffer[offset..]) == Some((s, buffer[next..]))
  {
    var len, p := ReadU32(buffer, offset);
    s := CStr(Chars(buffer[p..p + len]));
    next := p + len;
    assert buffer[p..][..len] == buffer[p..p + len] && buffer[p..][len..] == buffer[next..];
  }

  method ReadRaw(buffer: seq<byte>, offset: nat, n: nat) returns (b: seq<byte>, next: nat)
    requires offset <= |buffer| && ParseRaw(buffer[offset..], n).Some?
    ensures next <= |buffer|
    ensures ParseRaw(buffer[offset..], n) == Some((b, buffer[next..]))
  {
    b := buffer[offset..offset + n];
    next := offset + n;
    assert buffer[offset..][..n] == b && buffer[offset..][n..] == buffer[next..];
  }

  method ReadInterface(buffer: seq<byte>, offset: nat) returns (i: PlanarInterface, next: nat)
    requires offset <= |buffer| && ParseInterface(buffer[offset..]).Some?
    ensures next <= |buffer|
    ensures ParseInterface(buffer[offset..]) == Some((i, buffer[next..]))
  {
    var id, p1 := ReadCField(buffer, offset);
    var name, p2 := ReadCField(buffer, p1);
    var ipv4, p3 := ReadRaw(buffer, p2, 4);
    var ipv6, p4 := ReadRaw(buffer, p3, 16);
    i := PlanarInterface(id, name, ipv4, ipv6);
    next := p4;
  }

  /** A successful run of k + m records starts with a successful run of k
      records, and m more records follow where it ends. */
  lemma {:induction false} ParseManySplit<T>(item: seq<byte> -> Option<(T, seq<byte>)>, s: seq<byte>, k: nat, m: nat)
    requires ParseMany(item, s, k + m).Some?
    ensures ParseMany(item, s, k).Some?
    ensures ParseMany(item, ParseMany(item, s, k).value.1, m).Some?
    decreases k
  {
    if k > 0 {
      ParseManySplit(item, item(s).value.1, k - 1, m);
    }
  }

  /** Inside a successful run of count records, the k-th (k < count)
      record reads successfully where the first k end. */
  lemma ParseManyNext<T>(item: seq<byte> -> Option<(T, seq<byte>)>, s: seq<byte>, k: nat, count: nat,
      xs: seq<T>, t: seq<byte>)
    requires k < count && ParseMany(item, s, count).Some? && ParseMany(item, s, k) == Some((xs, t))
    ensures item(t).Some?
  {
    ParseManySplit(item, s, k, count - k);
  }

  /** A run of k records followed by one more record is a run of k + 1. */
  lemma {:induction false} ParseManySnoc<T>(item: seq<byte> -> Option<(T, seq<byte>)>, s: seq<byte>, k: nat,
      xs: seq<T>, t: seq<byte>, x: T, u: seq<byte>)
    requires ParseMany(item, s, k) == Some((xs, t)) && item(t) == Some((x, u))
    ensures ParseMany(item, s, k + 1) == Some((xs + [x], u))
    decreases k
  {
    if k == 0 {
      assert xs == [] && t == s;
      assert ParseMany(item, u, 0) == Some(([], u));
      assert [x] + [] == xs + [x];
    } else {
      var y, s1 := item(s).value.0, item(s).value.1;
      var ys := ParseMany(item, s1, k - 1).value.0;
      ParseManySnoc(item, s1, k - 1, ys, t, x, u);
      assert [y] + (ys + [x]) == ([y] + ys) + [x];
    }
  }

  /** The interface loop of deserialize_host. */
  method ReadInterfaces(buffer: seq<byte>, offset: nat, count: nat) returns (intfs: seq<PlanarInterface>, next: nat)
    requires offset <= |buffer| && ParseMany(ParseInterface, buffer[offset..], count).Some?
    ensures next <= |buffer|
    ensures ParseMany(ParseInterface, buffer[offset..], count) == Some((intfs, buffer[next..]))
  {
    intfs, next := [], offset;
    var k := 0;
    while k < count
      invariant k <= count && next <= |buffer|
      invariant ParseMany(ParseInterface, buffer[offset..], k) == Some((intfs, buffer[next..]))
    {
      ParseManyNext(ParseInterface, buffer[offset..], k, count, intfs, buffer[next..]);
      var i, q := ReadInterface(buffer, next);
      ParseManySnoc(ParseInterface, buffer[offset..], k, intfs, buffer[next..], i, buffer[q..]);
      intfs, next := intfs + [i], q;
      k := k + 1;
    }
  }

  method ReadDevice(buffer: seq<byte>, offset: nat) returns (d: Device, next: nat)
    requires offset <= |buffer| && ParseDevice(buffer[offset..]).Some?
    ensures next <= |buffer|
    ensures ParseDevice(buffer[offset..]) == Some((d, buffer[next..]))
  {
    var intf, p1 := ReadCField(buffer, offset);
    var vip, p2 := ReadRaw(buffer, p1, 4);
    var count, p3 := ReadU32(buffer, p2);
    var interfaces;
    interfaces, next := ReadInterfaces(buffer, p3, count);
    d := Device(intf, vip, interfaces);
  }

  /** The device loop of deserialize_host. */
  method ReadDevices(buffer: seq<byte>, offset: nat, count: nat) returns (devices: seq<Device>, next: nat)
    requires offset <= |buffer| && ParseMany(ParseDevice, buffer[offset..], count).Some?
    ensures next <= |buffer|
    ensures ParseMany(ParseDevice, buffer[offset..], count) == Some((devices, buffer[next..]))
  {
    devices, next := [], offset;
    var j := 0;
    while j < count
      invariant j <= count && next <= |buffer|
      invariant ParseMany(ParseDevice, buffer[offset..], j) == Some((devices, buffer[next..]))
    {
      ParseManyNext(ParseDevice, buffer[offset..], j, count, devices, buffer[next..]);
      var d, q := ReadDevice(buffer, next);
      ParseManySnoc(ParseDevice, buffer[offset..], j, devices, buffer[next..], d, buffer[q..]);
      devices, next := devices + [d], q;
      j := j + 1;
    }
  }

  /** deserialize_host: reads one host at `offset` and returns it with the
      advanced offset. The caller must hand it a well-formed buffer. */
  method DeserializeHost(buffer: seq<byte>, offset: nat) returns (host: Host, next: nat)
    requires offset <= |buffer| && ParseHost(buffer[offset..]).Some?
    ensures next <= |buffer|
    ensures ParseHost(buffer[offset..]) == Some((host, buffer[next..]))
  {
    var name, p1 := ReadText(buffer, offset);
    var ip, p2 := ReadText(buffer, p1);
    var count, p3 := ReadU32(buffer, p2);
    var devices;
    devices, next := ReadDevices(buffer, p3, count);
    host := Host(name, ip, devices);
  }

  /** The one-argument deserialize_host: one host read from offset 0. */
  method DeserializeHostAtStart(buffer: seq<byte>) returns (host: Host)
    requires ParseHost(buffer).Some?
    ensures host == ParseHost(buffer).value.0
  {
    assert buffer[0..] == buffer;
    var next;
    host, next := DeserializeHost(buffer, 0);
  }

  /** The key a host is stored under in a host table. */
  function HostName(h: Host): string { h.name }
  function HostIp(h: Host): string { h.ip }

  /** The table after storing `hs` in order, each under its key; a later
      host replaces an earlier one with the same key. */
  function InsertBy(key: Host -> string, db: map<string, Host>, hs: seq<Host>): map<string, Host> {
    if hs == [] then db else InsertBy(key, db, hs[..|hs| - 1])[key(hs[|hs| - 1]) := hs[|hs| - 1]]
  }

  /** One round of the host loop of deserialize_all_hosts: the host after
      the first i of count hosts read from `start`. */
  method ReadNextHost(buffer: seq<byte>, start: nat, i: nat, count: nat, ghost hs: seq<Host>, offset: nat)
    returns (host: Host, next: nat)
    requires i < count && start <= |buffer| && offset <= |buffer|
    requires ParseMany(ParseHost, buffer[start..], count).Some?
    requires ParseMany(ParseHost, buffer[start..], i) == Some((hs, buffer[offset..]))
    ensures next <= |buffer|
    ensures ParseMany(ParseHost, buffer[start..], i + 1) == Some((hs + [host], buffer[next..]))
  {
    ParseManyNext(ParseHost, buffer[start..], i, count, hs, buffer[offset..]);
    host, next := DeserializeHost(buffer, offset);
    ParseManySnoc(ParseHost, buffer[start..], i, hs, buffer[offset..], host, buffer[next..]);
  }

  lemma InsertBySnoc(key: Host -> string, db: map<string, Host>, hs: seq<Host>, h: Host)
    ensures InsertBy(key, db, hs + [h]) == InsertBy(key, db, hs)[key(h) := h]
  {
    assert (hs + [h])[..|hs|] == hs;
  }

  /** The host loop of deserialize_all_hosts: reads count hosts from
      `start` and stores each in the table under its key. */
  method StoreHosts(key: Host -> string, allHosts: map<string, Host>, buffer: seq<byte>, start: nat, count: nat)
    returns (table: map<string, Host>)
    requires start <= |buffer| && ParseMany(ParseHost, buffer[start..], count).Some?
    ensures table == InsertBy(key, allHosts, ParseMany(ParseHost, buffer[start..], count).value.0)
  {
    var offset: nat := start;
    ghost var hs: seq<Host> := [];
    table := allHosts;
    var i := 0;
    while i < count
      invariant i <= count && offset <= |buffer|
      invariant ParseMany(ParseHost, buffer[start..], i) == Some((hs, buffer[offset..]))
      invariant table == InsertBy(key, allHosts, hs)
    {
      var host, next := ReadNextHost(buffer, start, i, count, hs, offset);
      InsertBySnoc(key, allHosts, hs, host);
      hs := hs + [host];
      table := table[key(host) := host];
      offset := next;
      i := i + 1;
    }
  }

  /** deserialize_all_hosts as written: every host read is stored in the
      table under its host_name. */
  method DeserializeAllHosts(allHosts: map<string, Host>, buffer: seq<byte>)
    returns (table: map<string, Host>)
    requires ParseAllHosts(buffer).Some?
    ensures table == InsertBy(HostName, allHosts, ParseAllHosts(buffer).value)
  {
    assert buffer[0..] == buffer;
    var count, start := ReadU32(buffer, 0);
    table := StoreHosts(HostName, allHosts, buffer, start, count);
  }

  /** deserialize_all_hosts keyed by host_ip, as the root node keys its own
      table and as apply_local_vip_iptables_rule looks the local host up. */
  method DeserializeAllHostsByIp(allHosts: map<string, Host>, buffer: seq<byte>)
    returns (table: map<string, Host>)
    requires ParseAllHosts(buffer).Some?
    ensures table == InsertBy(HostIp, allHosts, ParseAllHosts(buffer).value)
  {
    assert buffer[0..] == buffer;
    var count, start := ReadU32(buffer, 0);
    table := StoreHosts(HostIp, allHosts, buffer, start, count);
  }

  // ---------------------------------------------------------------------
  // The host table survives the trip when keyed by host_ip

  /** A table keyed by host_ip: every host sits under its own address. */
  predicate KeyedByIp(hosts: map<string, Host>) {
    forall k :: k in hosts ==> hosts[k].ip == k
  }

  /** The keys of the table are the old keys and the keys of the hosts. */
  lemma {:induction false} InsertByKeys(key: Host -> string, db: map<string, Host>, hs: seq<Host>)
    ensures InsertBy(key, db, hs).Keys == db.Keys + (set i | 0 <= i < |hs| :: key(hs[i]))
  {
    if hs != [] {
      var init := hs[..|hs| - 1];
      InsertByKeys(key, db, init);
      assert forall i :: 0 <= i < |init| ==> init[i] == hs[i];
      assert (set i | 0 <= i < |hs| :: key(hs[i])) == (set i | 0 <= i < |init| :: key(init[i])) + {key(hs[|hs| - 1])};
    }
  }

  /** A host whose key no other host shares is found under that key. */
  lemma {:induction false} InsertByFinds(key: Host -> string, db: map<string, Host>, hs: seq<Host>, j: nat)
    requires j < |hs| && forall i :: 0 <= i < |hs| && i != j ==> key(hs[i]) != key(hs[j])
    ensures key(hs[j]) in InsertBy(key, db, hs) && InsertBy(key, db, hs)[key(hs[j])] == hs[j]
  {
    if j < |hs| - 1 {
      var init := hs[..|hs| - 1];
      assert forall i :: 0 <= i < |init| ==> init[i] == hs[i];
      InsertByFinds(key, db, init, j);
    }
  }

  /** In a table keyed by host_ip, the addresses of the hosts in
      enumeration order are the keys in that order. */
  lemma InOrderIps(hosts: map<string, Host>, order: seq<string>)
    requires Enumerates(order, hosts.Keys) && KeyedByIp(hosts)
    ensures forall i :: 0 <= i < |order| ==> HostIp(InOrder(hosts, order)[i]) == order[i]
    ensures (set i | 0 <= i < |order| :: HostIp(InOrder(hosts, order)[i])) == hosts.Keys
  {
    var hs := InOrder(hosts, order);
    assert forall k :: k in hosts ==> exists i :: 0 <= i < |order| && order[i] == k;
  }

  /** Storing the hosts of a table keyed by host_ip, in any enumeration
      order, under their host_ip rebuilds the table. */
  lemma InsertByIpRestores(hosts: map<string, Host>, order: seq<string>)
    requires Enumerates(order, hosts.Keys) && KeyedByIp(hosts)
    ensures InsertBy(HostIp, map[], InOrder(hosts, order)) == hosts
  {
    var hs := InOrder(hosts, order);
    InsertByKeys(HostIp, map[], hs);
    InOrderIps(hosts, order);
    forall k | k in hosts
      ensures InsertBy(HostIp, map[], hs)[k] == hosts[k]
    {
      var j :| 0 <= j < |order| && order[j] == k;
      InsertByFinds(HostIp, map[], hs, j);
    }
  }

  /** Deserializing the table the root serialized, keyed by host_ip, gives
      back the root's table. */
  lemma TableRoundTripByIp(hosts: map<string, Host>, order: seq<string>)
    requires Enumerates(order, hosts.Keys) && |hosts| < 0x1_0000_0000
    requires forall k :: k in hosts ==> ValidHost(hosts[k])
    requires KeyedByIp(hosts)
    ensures |order| == |hosts|
    ensures ParseAllHosts(EncodeAllHosts(InOrder(hosts, order))) == Some(InOrder(hosts, order))
    ensures InsertBy(HostIp, map[], ParseAllHosts(EncodeAllHosts(InOrder(hosts, order))).value) == hosts
  {
    EnumeratesCard(order, hosts.Keys);
    AllHostsRoundTrip(InOrder(hosts, order));
    InsertByIpRestores(hosts, order);
  }
}
