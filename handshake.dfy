/** The bootstrap exchange of src/bootstrap.cc between the root node and
    the leaf nodes: TLV framing (send_tlv, recv_tlv), the root's receive
    thread (recv_config_thread), the leaf's run (run_leaf_node) and the
    order of the root's sends (run_root_node).

    A socket is the stream of bytes it carries. A receive that finds the
    stream too short is the failed anpNcclSocketRecv. Connection set-up,
    retries, threads and the mutex are not modelled. */
module Handshake {
  import opened Wrappers
  import opened Text
  import opened Wire
  import opened HostCodec

  const PlanarConfigRequest: u32 := 1
  const ConfigResponse: u32 := 2
  const CompositeConfig: u32 := 3

  const ExitSuccess := 0
  const ExitFailure := 1

  // ---------------------------------------------------------------------
  // TLV framing

  /** send_tlv: htonl(type), htonl(length), then `length` bytes of the
      payload when length > 0 and the payload pointer is not null. */
  function SendTlv(msgType: u32, payload: Option<seq<byte>>, length: u32): (r: seq<byte>)
    requires payload.Some? ==> length <= |payload.value|
    ensures |r| == 8 + (if payload.Some? then length else 0)
  {
    BE32(msgType) + BE32(length) + (if length > 0 && payload.Some? then payload.value[..length] else [])
  }

  datatype Header = Header(msgType: u32, length: u32)

  /** recv_tlv with a null payload pointer, as every caller uses it: the
      8-byte header and the rest of the stream; None when the stream ends
      first. The payload is left unread. */
  function RecvTlv(s: seq<byte>): (r: Option<(Header, seq<byte>)>)
    ensures r.Some? <==> |s| >= 8
  {
    if |s| < 8 then None else Some((Header(ReadBE32(s, 0), ReadBE32(s, 4)), s[8..]))
  }

  /** anpNcclSocketRecv of n bytes. */
  function RecvBytes(s: seq<byte>, n: nat): (r: Option<(seq<byte>, seq<byte>)>)
    ensures r.Some? <==> n <= |s|
    ensures r.Some? ==> r.value.0 + r.value.1 == s && |r.value.0| == n
  {
    if |s| < n then None else Some((s[..n], s[n..]))
  }

  /** recv_tlv reads back the header send_tlv wrote, and leaves the stream
      at the payload. */
  lemma TlvRoundTrip(msgType: u32, payload: Option<seq<byte>>, length: u32, rest: seq<byte>)
    requires payload.Some? ==> length <= |payload.value|
    ensures RecvTlv(SendTlv(msgType, payload, length) + rest) ==
      Some((Header(msgType, length), SendTlv(msgType, payload, length)[8..] + rest))
  {
    var h := BE32(msgType) + BE32(length);
    var m := SendTlv(msgType, payload, length);
    var s := m + rest;
    assert m == h + m[8..];
    assert s == h + (m[8..] + rest);
    assert s[0..4] == h[0..4] == BE32(msgType);
    assert s[4..8] == h[4..8] == BE32(length);
    BE32RoundTrip(msgType, s, 0);
    BE32RoundTrip(length, s, 4);
  }

  /** Every 8 bytes are the header of exactly one TLV message. */
  lemma HeaderEncodes(s: seq<byte>)
    requires |s| >= 8
    ensures SendTlv(RecvTlv(s).value.0.msgType, None, RecvTlv(s).value.0.length) == s[..8]
  {
    ReadBE32Encodes(s, 0);
    ReadBE32Encodes(s, 4);
  }

  // ---------------------------------------------------------------------
  // The root's receive thread

  /** recv_config_thread: the host buffer of the leaf's CONFIG_RESPONSE,
      or None where the thread exits (a short stream or any other type). */
  function RootReceive(s: seq<byte>): (r: Option<seq<byte>>)
    ensures r.Some? ==> RecvTlv(s).Some? && RecvTlv(s).value.0.msgType == ConfigResponse
    ensures r.Some? ==> |r.value| == RecvTlv(s).value.0.length
  {
    match RecvTlv(s)
    case None => None
    case Some((h, rest)) =>
      if h.msgType != ConfigResponse then None
      else if h.length > 0 then
        match RecvBytes(rest, h.length)
        case None => None
        case Some((buffer, _)) => Some(buffer)
      else Some([])
  }

  // ---------------------------------------------------------------------
  // The leaf

  /** What run_leaf_node ends with after connecting: its exit status, the
      bytes it sent to the root, and the composite configuration it
      received when one came with a payload. */
  datatype LeafRun = LeafRun(status: int, sent: seq<byte>, composite: Option<seq<byte>>)

  /** run_leaf_node on the stream from the root, with the host its own
      configuration parses to. */
  function LeafNode(inbound: seq<byte>, host: Host): (r: LeafRun)
    ensures r.status == ExitSuccess || r.status == ExitFailure
  {
    match RecvTlv(inbound)
    case None => LeafRun(ExitFailure, [], None)
    case Some((first, rest)) =>
      if first.msgType != PlanarConfigRequest then LeafRun(ExitFailure, [], None)
      else
        var buffer := EncodeHost(host);
        var response := SendTlv(ConfigResponse, Some(buffer), U32(|buffer|));
        match RecvTlv(rest)
        case None => LeafRun(ExitFailure, response, None)
        case Some((second, rest2)) =>
          if second.msgType != CompositeConfig then LeafRun(ExitFailure, response, None)
          else if second.length > 0 then
            match RecvBytes(rest2, second.length)
            case None => LeafRun(ExitFailure, response, None)
            case Some((composite, _)) => LeafRun(ExitSuccess, response, Some(composite))
          else LeafRun(ExitSuccess, response, None)
  }

  /** The leaf succeeds only after a PLANAR_CONFIG_REQUEST followed by a
      COMPOSITE_CONFIG. */
  lemma LeafNeedsRequestThenComposite(inbound: seq<byte>, host: Host)
    requires LeafNode(inbound, host).status == ExitSuccess
    ensures RecvTlv(inbound).Some? && RecvTlv(inbound).value.0.msgType == PlanarConfigRequest
    ensures RecvTlv(RecvTlv(inbound).value.1).Some?
    ensures RecvTlv(RecvTlv(inbound).value.1).value.0.msgType == CompositeConfig
  {
  }

  // ---------------------------------------------------------------------
  // The root's sends

  /** What one leaf's connection carries from the root: a
      PLANAR_CONFIG_REQUEST with no payload, then the composite
      configuration. */
  function RootStream(composite: seq<byte>): seq<byte> {
    SendTlv(PlanarConfigRequest, None, 0) + SendTlv(CompositeConfig, Some(composite), U32(|composite|))
  }

  /** A leaf fed by the root sends back its host and receives the
      composite configuration, whole when it fits a uint32_t length. */
  lemma LeafFollowsRoot(composite: seq<byte>, host: Host)
    requires |composite| < 0x1_0000_0000
    ensures LeafNode(RootStream(composite), host) ==
      LeafRun(ExitSuccess,
        SendTlv(ConfigResponse, Some(EncodeHost(host)), U32(|EncodeHost(host)|)),
        if composite == [] then None else Some(composite))
  {
    var m1 := SendTlv(PlanarConfigRequest, None, 0);
    var m2 := SendTlv(CompositeConfig, Some(composite), U32(|composite|));
    TlvRoundTrip(PlanarConfigRequest, None, 0, m2);
    assert m1[8..] + m2 == m2;
    TlvRoundTrip(CompositeConfig, Some(composite), U32(|composite|), []);
    assert m2 + [] == m2;
    assert m2[8..] == composite;
  }

  /** Fed two well-formed messages, the leaf succeeds exactly when the
      first is a PLANAR_CONFIG_REQUEST and the second a COMPOSITE_CONFIG. */
  lemma LeafChecksTypes(firstType: u32, secondType: u32, composite: seq<byte>, host: Host)
    requires |composite| < 0x1_0000_0000
    ensures (LeafNode(SendTlv(firstType, None, 0) + SendTlv(secondType, Some(composite), |composite|), host).status
             == ExitSuccess) <==> firstType == PlanarConfigRequest && secondType == CompositeConfig
  {
    var m1 := SendTlv(firstType, None, 0);
    var m2 := SendTlv(secondType, Some(composite), |composite|);
    TlvRoundTrip(firstType, None, 0, m2);
    assert m1[8..] + m2 == m2;
    TlvRoundTrip(secondType, Some(composite), |composite|, []);
    assert m2 + [] == m2;
    assert m2[8..] == composite;
  }

  /** The root reads the host a leaf sent back. */
  lemma RootReadsLeaf(host: Host, rest: seq<byte>)
    requires ValidHost(host) && |EncodeHost(host)| < 0x1_0000_0000
    ensures RootReceive(SendTlv(ConfigResponse, Some(EncodeHost(host)), U32(|EncodeHost(host)|)) + rest) ==
      Some(EncodeHost(host))
    ensures ParseHost(EncodeHost(host)) == Some((host, []))
  {
    var buffer := EncodeHost(host);
    var m := SendTlv(ConfigResponse, Some(buffer), U32(|buffer|));
    TlvRoundTrip(ConfigResponse, Some(buffer), U32(|buffer|), rest);
    if |buffer| > 0 {
      assert m[8..] == buffer;
      assert (m[8..] + rest)[..|buffer|] == buffer;
    }
    ParseHostRoundTrip(host, []);
    assert buffer + [] == buffer;
  }

  /** The root's receive thread accepts a message exactly when its type is
      CONFIG_RESPONSE. */
  lemma RootAcceptsOnlyResponse(msgType: u32, payload: seq<byte>, rest: seq<byte>)
    requires |payload| < 0x1_0000_0000
    ensures RootReceive(SendTlv(msgType, Some(payload), |payload|) + rest).Some? <==> msgType == ConfigResponse
  {
    TlvRoundTrip(msgType, Some(payload), |payload|, rest);
  }

  /** `leaves` sends of `first`, one to each connection in turn, then
      `leaves` sends of `second` in the same order. */
  predicate RootOrder(sent: seq<(nat, seq<byte>)>, leaves: nat, first: seq<byte>, second: seq<byte>) {
    |sent| == 2 * leaves &&
    forall i :: 0 <= i < leaves ==> sent[i] == (i, first) && sent[leaves + i] == (i, second)
  }

  /** run_root_node's sends to its ip_count - 1 connections: first a
      PLANAR_CONFIG_REQUEST to each in turn, then, once every response is
      in, the composite configuration to each in turn. Each send is the
      connection's index and the bytes. */
  method RootSends(ipCount: int, composite: seq<byte>) returns (sent: seq<(nat, seq<byte>)>)
    ensures RootOrder(sent, Max(0, ipCount - 1), SendTlv(PlanarConfigRequest, None, 0),
      SendTlv(CompositeConfig, Some(composite), U32(|composite|)))
  {
    var leaves := Max(0, ipCount - 1);
    sent := [];
    for i := 0 to leaves
      invariant |sent| == i
      invariant forall j :: 0 <= j < i ==> sent[j] == (j, SendTlv(PlanarConfigRequest, None, 0))
    {
      sent := sent + [(i, SendTlv(PlanarConfigRequest, None, 0))];
    }
    var compLen := U32(|composite|);
    for i := 0 to leaves
      invariant |sent| == leaves + i
      invariant forall j :: 0 <= j < leaves ==> sent[j] == (j, SendTlv(PlanarConfigRequest, None, 0))
      invariant forall j :: 0 <= j < i ==> sent[leaves + j] == (j, SendTlv(CompositeConfig, Some(composite), compLen))
    {
      sent := sent + [(i, SendTlv(CompositeConfig, Some(composite), compLen))];
    }
  }

  /** The bytes that reach connection c, in the order sent. */
  function StreamTo(sent: seq<(nat, seq<byte>)>, c: nat): seq<byte> {
    if sent == [] then []
    else StreamTo(sent[..|sent| - 1], c) + (if sent[|sent| - 1].0 == c then sent[|sent| - 1].1 else [])
  }

  lemma {:induction false} StreamToPrefix(sent: seq<(nat, seq<byte>)>, leaves: nat, first: seq<byte>,
                                          second: seq<byte>, c: nat, k: nat)
    requires RootOrder(sent, leaves, first, second) && k <= 2 * leaves
    ensures StreamTo(sent[..k], c) ==
      (if c < Min(k, leaves) then first else []) + (if c + leaves < k then second else [])
  {
    if k > 0 {
      StreamToPrefix(sent, leaves, first, second, c, k - 1);
      var p := sent[..k];
      assert p[..k - 1] == sent[..k - 1];
      assert StreamTo(p, c) == StreamTo(sent[..k - 1], c) + (if p[k - 1].0 == c then p[k - 1].1 else []);
      if k - 1 >= leaves {
        assert p[k - 1] == sent[leaves + (k - 1 - leaves)] == (k - 1 - leaves, second);
      } else {
        assert p[k - 1] == (k - 1, first);
      }
    }
  }

  /** Every one of the ip_count - 1 leaves receives exactly a
      PLANAR_CONFIG_REQUEST followed by the composite configuration, and
      no other connection receives anything. */
  lemma EachLeafGetsRootStream(sent: seq<(nat, seq<byte>)>, leaves: nat, composite: seq<byte>, c: nat)
    requires RootOrder(sent, leaves, SendTlv(PlanarConfigRequest, None, 0),
      SendTlv(CompositeConfig, Some(composite), U32(|composite|)))
    ensures StreamTo(sent, c) == if c < leaves then RootStream(composite) else []
  {
    StreamToPrefix(sent, leaves, SendTlv(PlanarConfigRequest, None, 0),
      SendTlv(CompositeConfig, Some(composite), U32(|composite|)), c, |sent|);
    assert sent[..|sent|] == sent;
  }
}
