/** parse_planar_config of include/anp_bootstrap.h: filling a host_t from
    the planar-configuration JSON document.

    The JSON library is not modelled: the document arrives as the tree
    read_json would build, or as None where read_json throws (the file
    cannot be read or is not JSON). Every key the parser asks for is
    present in the tree. The IPv6 text of an interface arrives as what
    inet_pton(AF_INET6, ..) writes for it, None where it fails. */
module PlanarConfig {
  import opened Wrappers
  import opened Text
  import opened Wire
  import opened Ipv4
  import opened HostCodec

  const AnpSuccess := 0
  const AnpFailure := -1

  /** One entry of "planar_intfs": "id", "name", "ipv4_addr", "ipv6_addr". */
  datatype IntfEntry = IntfEntry(id: string, name: string, ipv4: string, ipv6: Option<seq<byte>>)

  /** One entry of "devices": "virtual_intf", "virtual_ip", "planar_intfs". */
  datatype DeviceEntry = DeviceEntry(virtualIntf: string, virtualIp: string, interfaces: seq<IntfEntry>)

  /** The document: "host_name", "host_ip", "devices". */
  datatype ConfigTree = ConfigTree(hostName: string, hostIp: string, devices: seq<DeviceEntry>)

  // ---------------------------------------------------------------------
  // Field conversions

  /** strncpy(field, s.c_str(), MAX_STR_LEN - 1) into a zeroed
      char[MAX_STR_LEN]: the C string of s, cut to 63 characters. */
  function CopyField(s: string): (r: string)
    ensures r <= s && '\0' !in r && |r| < MaxStrLen
  {
    var c := CStr(s);
    c[..Min(|c|, MaxStrLen - 1)]
  }

  /** inet_pton(AF_INET, s.c_str(), &addr) into a zeroed in_addr: the
      address parsed from the C string of s (up to its first NUL), or
      0.0.0.0 where inet_pton rejects that text. */
  function Addr4(s: string): (r: seq<byte>)
    ensures |r| == 4
  {
    match ParseIpv4(CStr(s))
    case None => Zero4
    case Some(b) => b
  }

  lemma {:induction false} CStrStops(s: string, t: string)
    requires '\0' !in s
    ensures CStr(s + "\0" + t) == s
  {
    if s != [] {
      assert (s + "\0" + t)[1..] == s[1..] + "\0" + t;
      CStrStops(s[1..], t);
    }
  }

  /** Text after an embedded NUL is never seen by inet_pton. */
  lemma Addr4StopsAtNul(s: string, t: string)
    requires '\0' !in s
    ensures Addr4(s + "\0" + t) == Addr4(s)
  {
    CStrStops(s, t);
  }

  /** inet_pton(AF_INET6, ..) into a zeroed in6_addr. */
  function Addr6(parsed: Option<seq<byte>>): (r: seq<byte>)
    ensures |r| == 16
  {
    if parsed.Some? && |parsed.value| == 16 then parsed.value else seq(16, _ => 0)
  }

  // ---------------------------------------------------------------------
  // What the parser keeps

  function ConfigInterface(e: IntfEntry): PlanarInterface {
    PlanarInterface(CopyField(e.id), CopyField(e.name), Addr4(e.ipv4), Addr6(e.ipv6))
  }

  /** A device keeps its first MAX_INTERFACES interface entries. */
  function ConfigDevice(e: DeviceEntry): Device {
    Device(CopyField(e.virtualIntf), Addr4(e.virtualIp),
      seq(Min(|e.interfaces|, MaxInterfaces), k requires 0 <= k < Min(|e.interfaces|, MaxInterfaces) =>
        ConfigInterface(e.interfaces[k])))
  }

  /** The host keeps its first MAX_DEVICES device entries. */
  function ConfigHost(t: ConfigTree): Host {
    Host(t.hostName, t.hostIp,
      seq(Min(|t.devices|, MaxDevices), k requires 0 <= k < Min(|t.devices|, MaxDevices) =>
        ConfigDevice(t.devices[k])))
  }

  // ---------------------------------------------------------------------
  // The parser

  /** The loop over "planar_intfs": stops once MAX_INTERFACES are kept. */
  method ParseInterfaces(entries: seq<IntfEntry>) returns (interfaces: seq<PlanarInterface>)
    ensures |interfaces| == Min(|entries|, MaxInterfaces)
    ensures forall k :: 0 <= k < |interfaces| ==> interfaces[k] == ConfigInterface(entries[k])
  {
    interfaces := [];
    for k := 0 to |entries|
      invariant |interfaces| == k <= MaxInterfaces
      invariant forall j :: 0 <= j < k ==> interfaces[j] == ConfigInterface(entries[j])
    {
      if |interfaces| >= MaxInterfaces {
        break;
      }
      interfaces := interfaces + [ConfigInterface(entries[k])];
    }
  }

  method ParseDevice(e: DeviceEntry) returns (d: Device)
    ensures d == ConfigDevice(e)
  {
    var interfaces := ParseInterfaces(e.interfaces);
    d := Device(CopyField(e.virtualIntf), Addr4(e.virtualIp), interfaces);
    assert d.interfaces == ConfigDevice(e).interfaces;
  }

  /** The loop over "devices": stops once MAX_DEVICES are kept. */
  method ParseDevices(entries: seq<DeviceEntry>) returns (devices: seq<Device>)
    ensures |devices| == Min(|entries|, MaxDevices)
    ensures forall k :: 0 <= k < |devices| ==> devices[k] == ConfigDevice(entries[k])
  {
    devices := [];
    for k := 0 to |entries|
      invariant |devices| == k <= MaxDevices
      invariant forall j :: 0 <= j < k ==> devices[j] == ConfigDevice(entries[j])
    {
      if |devices| >= MaxDevices {
        break;
      }
      var d := ParseDevice(entries[k]);
      devices := devices + [d];
    }
  }

  /** parse_planar_config: ANP_FAILURE with the host untouched when no file
      is named; otherwise ANP_SUCCESS, with the host filled from the
      document, or untouched when the document cannot be read. */
  method ParsePlanarConfig(cfgFile: string, tree: Option<ConfigTree>, host: Host)
    returns (status: int, updated: Host)
    ensures cfgFile == "" ==> status == AnpFailure && updated == host
    ensures cfgFile != "" ==> status == AnpSuccess
    ensures cfgFile != "" && tree.None? ==> updated == host
    ensures cfgFile != "" && tree.Some? ==> updated == ConfigHost(tree.value)
  {
    if cfgFile == "" {
      return AnpFailure, host;
    }
    updated := host;
    if tree.Some? {
      var t := tree.value;
      var devices := ParseDevices(t.devices);
      updated := Host(t.hostName, t.hostIp, devices);
      assert updated.devices == ConfigHost(t).devices;
    }
    status := AnpSuccess;
  }

  // ---------------------------------------------------------------------
  // Properties

  /** A copied field fits a char[MAX_STR_LEN], and the copy is the string
      itself exactly when the string already fitted. */
  lemma CopyFieldFits(s: string)
    requires Octets(s)
    ensures CField(CopyField(s))
    ensures CopyField(s) == s <==> CField(s)
  {
    var r := CopyField(s);
    assert forall i :: 0 <= i < |r| ==> r[i] == s[i];
  }

  /** An address written by inet_ntop is read back by the parser. */
  lemma Addr4OfFormat(b: seq<byte>)
    requires |b| == 4
    ensures Addr4(FormatIpv4(b)) == b
  {
    var f := FormatIpv4(b);
    assert forall i :: 0 <= i < |f| ==> IsDigit(f[i]) || f[i] == '.';
    ParseFormatIpv4(b);
  }

  /** Every character of the document is a byte. */
  predicate TreeOctets(t: ConfigTree) {
    Text32(t.hostName) && Text32(t.hostIp) &&
    forall k :: 0 <= k < |t.devices| ==> DeviceOctets(t.devices[k])
  }

  predicate DeviceOctets(e: DeviceEntry) {
    Octets(e.virtualIntf) &&
    forall k :: 0 <= k < |e.interfaces| ==> Octets(e.interfaces[k].id) && Octets(e.interfaces[k].name)
  }

  lemma ConfigDeviceValid(e: DeviceEntry)
    requires DeviceOctets(e)
    ensures ValidDevice(ConfigDevice(e))
  {
    var d := ConfigDevice(e);
    CopyFieldFits(e.virtualIntf);
    forall k | 0 <= k < |d.interfaces|
      ensures ValidInterface(d.interfaces[k])
    {
      CopyFieldFits(e.interfaces[k].id);
      CopyFieldFits(e.interfaces[k].name);
    }
  }

  /** Whatever the document holds, the parsed host fits host_t: at most
      MAX_DEVICES devices of at most MAX_INTERFACES interfaces, every field
      a C string of at most 63 characters. */
  lemma ConfigHostValid(t: ConfigTree)
    requires TreeOctets(t)
    ensures ValidHost(ConfigHost(t))
  {
    var h := ConfigHost(t);
    forall k | 0 <= k < |h.devices|
      ensures ValidDevice(h.devices[k])
    {
      ConfigDeviceValid(t.devices[k]);
    }
  }

  /** The host a leaf parses and serializes is the host the root
      deserializes. */
  lemma ConfigHostSent(t: ConfigTree, rest: seq<byte>)
    requires TreeOctets(t)
    ensures ParseHost(EncodeHost(ConfigHost(t)) + rest) == Some((ConfigHost(t), rest))
  {
    ConfigHostValid(t);
    ParseHostRoundTrip(ConfigHost(t), rest);
  }
}
