/** The telemetry state store of include/anp_state.h: the configuration read
    at start-up, the device -> channel -> queue-pair registry, the per queue
    pair counters and completion-time tracking, and the aggregate numbers
    to_json reports per channel and per device. */
module TelemetryState {
  import opened Wrappers
  import opened Text
  import Metrics
  import opened PowerOfTwo

  const Two32: int := 0x1_0000_0000
  const Two64: int := 0x1_0000_0000_0000_0000

  // ---------------------------------------------------------------------
  // load_config

  /** The logger's levels, LOG_NONE = 0 to LOG_VERBOSE = 4. */
  datatype LogLevel = LogNone | LogError | LogInfo | LogDebug | LogVerbose

  /** The log_level setting's spelling of each level. */
  function LevelName(l: LogLevel): string {
    match l
    case LogNone => "NONE"
    case LogError => "ERROR"
    case LogInfo => "INFO"
    case LogDebug => "DEBUG"
    case LogVerbose => "VERBOSE"
  }

  /** load_config's mapping of the log_level text; anything unrecognised,
      including a missing setting, selects LOG_ERROR. */
  function ParseLogLevel(s: string): LogLevel {
    if s == "NONE" then LogNone
    else if s == "INFO" then LogInfo
    else if s == "DEBUG" then LogDebug
    else if s == "VERBOSE" then LogVerbose
    else LogError
  }

  /** Every level is read back from its own name, and every other text
      falls back to LOG_ERROR. */
  lemma ParseLogLevelNames(l: LogLevel, s: string)
    ensures ParseLogLevel(LevelName(l)) == l
    ensures (forall m: LogLevel :: s != LevelName(m)) ==> ParseLogLevel(s) == LogError
  {
    if forall m: LogLevel :: s != LevelName(m) {
      assert s != LevelName(LogNone) && s != LevelName(LogInfo);
      assert s != LevelName(LogDebug) && s != LevelName(LogVerbose);
    }
  }

  /** The bucket width in use: a configured width that is not a power of
      two is rounded up with power_of_2. */
  function BucketInterval(configured: bv64): bv64 {
    if IsPowerOf2(configured) then configured else PowerOf2(configured)
  }

  /** Checking IS_POWER_OF_2 first changes nothing: power_of_2 leaves powers
      of two as they are, so the width is always power_of_2 of the
      configured one (see PowerOf2RoundsUp and PowerOf2Least). */
  lemma BucketIntervalIsPowerOf2(configured: bv64)
    ensures BucketInterval(configured) == PowerOf2(configured)
  {
    if IsPowerOf2(configured) {
      PowerOf2FixesPowers(configured);
    }
  }

  /** The default width 1024 is a power of two, so bucket_sz_log2 is 10. */
  lemma DefaultBucketSzLog2()
    ensures BucketSzLog2Of(1024) == 10
  {
    assert IsPowerOf2(1024);
    assert BucketInterval(1024) as int == 1024;
    assert FloorLog2(1024) == 10;
  }

  /** log2 of a positive width, rounded down (exact for the powers of two
      load_config passes it). */
  function FloorLog2(x: nat): nat {
    if x <= 1 then 0 else 1 + FloorLog2(x / 2)
  }

  lemma {:induction false} FloorLog2Bounds(x: nat)
    requires x >= 1
    ensures Metrics.Pow2(FloorLog2(x)) <= x < 2 * Metrics.Pow2(FloorLog2(x))
  {
    if x > 1 {
      FloorLog2Bounds(x / 2);
    }
  }

  /** The implementation-defined size_t -> int conversion: the low 32 bits,
      read as two's complement. */
  function ToInt32(x: nat): (r: int)
    requires x < Two64
    ensures Metrics.IsInt32(r)
  {
    var low := x % Two32;
    if low < 0x8000_0000 then low else low - Two32
  }

  lemma ToInt32Small(x: nat)
    requires x < 0x8000_0000
    ensures ToInt32(x) == x
  {
  }

  /** A numeric setting: missing, a number, or a value that does not
      convert to size_t (text, an object). `pt.get<size_t>(key, default)`
      gives the default for a missing and for a malformed value alike. */
  datatype Setting<T> = Absent | Number(value: T) | Malformed

  /** The parsed configuration file. */
  datatype ConfigFile = ConfigFile(
    logLevel: Option<string>,
    outputDir: Option<string>,
    bucketIntervalNs: Setting<bv64>,
    maxBuckets: Setting<nat>)

  /** What load_config leaves in the state. */
  datatype Config = Config(logLevel: LogLevel, outputDir: string, bucketSzLog2: nat, maxBuckets: int)

  const DefaultConfig: Config := Config(LogError, "/tmp", 10, 5)

  /** The configured width is at most 2^63 (a larger one rounds to 0, whose
      log2 is not a number). */
  predicate ConfigInRange(f: ConfigFile) {
    f.bucketIntervalNs.Number? ==> f.bucketIntervalNs.value <= TopBit
  }

  /** bucket_sz_log2 for a configured width. */
  function BucketSzLog2Of(configured: bv64): nat {
    FloorLog2(BucketInterval(configured) as int)
  }

  /** `pt.get<size_t>(key, default)`: the number when it converts to
      size_t, otherwise the default. A number of 2^64 or more overflows
      the conversion and gives the default too. */
  function SizeOr(s: Setting<nat>, default: nat): nat {
    if s.Number? && s.value < Two64 then s.value else default
  }

  /** load_config. `file` is None when the file named by RCCL_ANP_CONFIG_FILE
      cannot be opened or is not JSON (read_json throws); the settings are
      then the defaults. Otherwise each setting is read on its own, with
      its default when it is missing or does not convert. */
  function LoadConfig(file: Option<ConfigFile>): (c: Config)
    requires file.Some? ==> ConfigInRange(file.value)
    ensures file.None? ==> c == DefaultConfig
    ensures file.Some? ==> c.logLevel == ParseLogLevel(file.value.logLevel.GetOr("ERROR"))
    ensures file.Some? ==> c.outputDir == file.value.outputDir.GetOr("/tmp")
    ensures file.Some? && !file.value.bucketIntervalNs.Number? ==> c.bucketSzLog2 == 10
    ensures file.Some? && file.value.bucketIntervalNs.Number? ==>
              c.bucketSzLog2 == BucketSzLog2Of(file.value.bucketIntervalNs.value)
    ensures file.Some? && file.value.maxBuckets.Number? && file.value.maxBuckets.value < Two64 ==>
              c.maxBuckets == ToInt32(file.value.maxBuckets.value)
    ensures file.Some? && !(file.value.maxBuckets.Number? && file.value.maxBuckets.value < Two64) ==>
              c.maxBuckets == 5
  {
    if file.None? then DefaultConfig
    else
      var f := file.value;
      var interval: bv64 := if f.bucketIntervalNs.Number? then f.bucketIntervalNs.value else 1024;
      DefaultBucketSzLog2();
      Config(ParseLogLevel(f.logLevel.GetOr("ERROR")), f.outputDir.GetOr("/tmp"),
        BucketSzLog2Of(interval), ToInt32(SizeOr(f.maxBuckets, 5)))
  }

  /** Each number is read on its own: what is configured for one of them
      does not change what load_config keeps for the other. */
  lemma LoadConfigSettingsIndependent(f: ConfigFile, g: ConfigFile)
    requires ConfigInRange(f) && ConfigInRange(g)
    ensures f.maxBuckets == g.maxBuckets ==> LoadConfig(Some(f)).maxBuckets == LoadConfig(Some(g)).maxBuckets
    ensures f.bucketIntervalNs == g.bucketIntervalNs ==>
              LoadConfig(Some(f)).bucketSzLog2 == LoadConfig(Some(g)).bucketSzLog2
  {
  }

  /** A width that does not convert leaves bucket_sz_log2 at its default
      and the max_buckets that follows it is still read. */
  lemma LoadConfigMalformedWidth(level: Option<string>, dir: Option<string>)
    ensures var c := LoadConfig(Some(ConfigFile(level, dir, Malformed, Number(7))));
            c.bucketSzLog2 == 10 && c.maxBuckets == 7
  {
    DefaultBucketSzLog2();
  }

  // ---------------------------------------------------------------------
  // Queue pairs

  /** qp_stats_s. The counters are uint64_t; see README for wrap-around. */
  datatype QpStats = QpStats(
    numWqeSent: nat,
    numWqeRcvd: nat,
    numWqeCompleted: nat,
    numWqeErrors: nat,
    numSlotMiss: nat,
    numCtsSent: nat,
    numCtsSentUnsignalled: nat,
    numCtsSentSignalled: nat,
    numRecvWqe: nat,
    numWriteWqe: nat,
    numWriteImmWqe: nat,
    completionTimeMin: nat,
    completionTimeMax: nat)

  const ZeroStats: QpStats := QpStats(0, 0, 0, 0, 0, 0, 0, 0, 0, 0, 0, 0, 0)

  /** qp_info_s: the counters, whether it is a data (not CTS) queue pair,
      its completion-time histogram (time_histogram_s) and the start times
      of outstanding work requests keyed by wqe id. */
  datatype QpInfo = QpInfo(
    stats: QpStats,
    dataQp: bool,
    histogram: map<nat, nat>,
    maxBuckets: int,
    bucketSzLog2: nat,
    tracker: map<nat, nat>)

  /** The counter updates anp_state offers for one queue pair. */
  datatype QpEvent =
    | WqePosted(wqeId: nat, startTime: nat)    // update_wqe_send_metrics, update_recv_wqe_metrics
    | WqeReceived(wqeId: nat, endTime: nat)    // update_wqe_rcvd_metrics
    | SlotMiss                                 // update_slot_miss_metrics
    | CtsSend                                  // update_cts_send_metrics
    | CtsSent                                  // increment_num_cts_sent
    | CtsSentUnsignalled                       // increment_num_cts_sent_unsignalled
    | CtsSentSignalled                         // increment_num_cts_sent_signalled
    | RecvWqe                                  // increment_num_recv_wqe
    | WriteWqe(count: nat)                     // increment_num_write_wqe
    | WriteImmWqe                              // increment_num_write_imm_wqe

  predicate EventInRange(e: QpEvent) {
    match e
    case WqePosted(id, t) => id < Two64 && t < Two64
    case WqeReceived(id, t) => id < Two64 && t < Two64
    case WriteWqe(n) => n < Two32
    case _ => true
  }

  /** The time between posting and completion, as uint64 subtraction. */
  function CompletionTime(startTime: nat, endTime: nat): (c: nat)
    ensures c < Two64
  {
    (endTime - startTime) % Two64
  }

  /** The new minimum: the completion time when the minimum is still 0 (no
      completion yet) or larger. */
  function NewMin(min: nat, c: nat): nat {
    if min > c || min == 0 then c else min
  }

  /** update_wqe_rcvd_metrics on a queue pair. */
  function Received(info: QpInfo, wqeId: nat, endTime: nat): QpInfo
    requires Metrics.IsInt32(info.maxBuckets - 1)
  {
    var s := info.stats.(numWqeRcvd := info.stats.numWqeRcvd + 1);
    if wqeId !in info.tracker then info.(stats := s)
    else
      var c := CompletionTime(info.tracker[wqeId], endTime);
      var k := Metrics.LogKey(c, info.bucketSzLog2, info.maxBuckets);
      var count := if k in info.histogram then info.histogram[k] else 0;
      info.(
        stats := s.(
          numWqeCompleted := s.numWqeCompleted + 1,
          completionTimeMax := Max(s.completionTimeMax, c),
          completionTimeMin := NewMin(s.completionTimeMin, c)),
        histogram := info.histogram[k := count + 1],
        tracker := info.tracker - {wqeId})
  }

  /** The effect of one counter update on a known queue pair. */
  function Apply(info: QpInfo, e: QpEvent): QpInfo
    requires Metrics.IsInt32(info.maxBuckets - 1)
  {
    var s := info.stats;
    match e
    case WqePosted(id, t) =>
      info.(stats := s.(numWqeSent := s.numWqeSent + 1), tracker := info.tracker[id := t])
    case WqeReceived(id, t) => Received(info, id, t)
    case SlotMiss => info.(stats := s.(numSlotMiss := s.numSlotMiss + 1))
    case CtsSend => info.(stats := s.(numCtsSent := s.numCtsSent + 1, numWqeSent := s.numWqeSent + 1))
    case CtsSent => info.(stats := s.(numCtsSent := s.numCtsSent + 1))
    case CtsSentUnsignalled => info.(stats := s.(numCtsSentUnsignalled := s.numCtsSentUnsignalled + 1))
    case CtsSentSignalled => info.(stats := s.(numCtsSentSignalled := s.numCtsSentSignalled + 1))
    case RecvWqe => info.(stats := s.(numRecvWqe := s.numRecvWqe + 1))
    case WriteWqe(n) => info.(stats := s.(numWriteWqe := s.numWriteWqe + n))
    case WriteImmWqe => info.(stats := s.(numWriteImmWqe := s.numWriteImmWqe + 1))
  }

  /** What holds of every queue pair the store creates and updates. */
  predicate QpInvariant(info: QpInfo) {
    Metrics.IsInt32(info.maxBuckets) && Metrics.IsInt32(info.maxBuckets - 1)
    && info.stats.completionTimeMin <= info.stats.completionTimeMax < Two64
    && info.stats.numWqeCompleted <= info.stats.numWqeRcvd
    && (forall id :: id in info.tracker ==> info.tracker[id] < Two64)
    && (info.maxBuckets >= 1 ==> forall k :: k in info.histogram ==> k < info.maxBuckets)
  }

  /** A queue pair as add_queue_pair creates it. */
  function FreshQp(dataQp: bool, maxBuckets: int, bucketSzLog2: nat): (info: QpInfo)
    requires Metrics.IsInt32(maxBuckets) && Metrics.IsInt32(maxBuckets - 1)
    ensures QpInvariant(info)
  {
    QpInfo(ZeroStats, dataQp, map[], maxBuckets, bucketSzLog2, map[])
  }

  /** Every counter update keeps the invariant: min <= max, no more
      completions than receptions, histogram keys below max_buckets. */
  lemma ApplyPreserves(info: QpInfo, e: QpEvent)
    requires QpInvariant(info) && EventInRange(e)
    ensures QpInvariant(Apply(info, e))
  {
    if e.WqeReceived? && e.wqeId in info.tracker {
      var c := CompletionTime(info.tracker[e.wqeId], e.endTime);
      if info.maxBuckets >= 1 {
        Metrics.LogKeyCapped(c, info.bucketSzLog2, info.maxBuckets);
      }
    }
  }

  /** update_wqe_rcvd_metrics for a tracked wqe id: one more completion, the
      completion time lies within the new [min, max], it is logged in its
      histogram bucket and the id is no longer tracked. */
  lemma ReceivedTracked(info: QpInfo, wqeId: nat, endTime: nat)
    requires QpInvariant(info) && wqeId in info.tracker
    ensures var r := Received(info, wqeId, endTime);
      var c := CompletionTime(info.tracker[wqeId], endTime);
      r.stats.numWqeRcvd == info.stats.numWqeRcvd + 1
      && r.stats.numWqeCompleted == info.stats.numWqeCompleted + 1
      && r.stats.completionTimeMin <= c <= r.stats.completionTimeMax
      && r.stats.completionTimeMax >= info.stats.completionTimeMax
      && (info.stats.completionTimeMin != 0 ==> r.stats.completionTimeMin <= info.stats.completionTimeMin)
      && wqeId !in r.tracker
      && Metrics.LogKey(c, info.bucketSzLog2, info.maxBuckets) in r.histogram
      && r.dataQp == info.dataQp
  {
  }

  /** For an untracked wqe id only the reception counter moves. */
  lemma ReceivedUntracked(info: QpInfo, wqeId: nat, endTime: nat)
    requires Metrics.IsInt32(info.maxBuckets - 1) && wqeId !in info.tracker
    ensures Received(info, wqeId, endTime)
              == info.(stats := info.stats.(numWqeRcvd := info.stats.numWqeRcvd + 1))
  {
  }

  /** Posting a work request and then receiving its completion at the same
      clock reading logs a zero completion time and forgets the id. */
  lemma PostThenReceive(info: QpInfo, wqeId: nat, t: nat)
    requires QpInvariant(info) && wqeId < Two64 && t < Two64
    ensures var r := Apply(Apply(info, WqePosted(wqeId, t)), WqeReceived(wqeId, t));
      r.stats.numWqeSent == info.stats.numWqeSent + 1
      && r.stats.numWqeCompleted == info.stats.numWqeCompleted + 1
      && r.stats.completionTimeMin == 0
      && r.tracker == info.tracker - {wqeId}
  {
    var p := Apply(info, WqePosted(wqeId, t));
    assert p.tracker[wqeId] == t;
    assert p.tracker - {wqeId} == info.tracker - {wqeId};
  }

  // ---------------------------------------------------------------------
  // Devices and channels

  /** device_s: the interface names, the per device WQE-size counts and CQ
      poll count, and each channel's set of queue-pair ids. */
  datatype Device = Device(
    ethDevice: string,
    roceDevice: string,
    channels: map<int, set<int>>,
    wqeSizeMetrics: map<nat, nat>,
    cqPollCount: nat)

  /** A device as devices[id] default-constructs it. */
  function EmptyDevice(): Device {
    Device("", "", map[], map[], 0)
  }

  /** No channel the store holds is empty. */
  predicate ChannelsNonEmpty(devices: map<int, Device>) {
    forall d, c :: d in devices && c in devices[d].channels ==> devices[d].channels[c] != {}
  }

  /** add_queue_pair's effect on the device map. */
  function WithQueuePair(devices: map<int, Device>, dev: int, ch: int, qp: int): (r: map<int, Device>)
    ensures dev in r && ch in r[dev].channels && qp in r[dev].channels[ch]
  {
    var d := if dev in devices then devices[dev] else EmptyDevice();
    var qps := if ch in d.channels then d.channels[ch] else {};
    devices[dev := d.(channels := d.channels[ch := qps + {qp}])]
  }

  /** remove_queue_pair's effect on the device map. */
  function WithoutQueuePair(devices: map<int, Device>, dev: int, ch: int, qp: int): map<int, Device> {
    if dev !in devices then devices
    else
      var d := devices[dev];
      var channels :=
        if ch !in d.channels then d.channels
        else if d.channels[ch] - {qp} == {} then d.channels - {ch}
        else d.channels[ch := d.channels[ch] - {qp}];
      if channels == map[] then devices - {dev} else devices[dev := d.(channels := channels)]
  }

  /** Adding a queue pair: the device and channel exist afterwards, the
      channel gains exactly that id, the device keeps its names and stats,
      and no other device or channel changes. */
  lemma WithQueuePairSpec(devices: map<int, Device>, dev: int, ch: int, qp: int)
    ensures var r := WithQueuePair(devices, dev, ch, qp);
      r.Keys == devices.Keys + {dev}
      && (forall d :: d in devices && d != dev ==> r[d] == devices[d])
      && r[dev].channels.Keys == (if dev in devices then devices[dev].channels.Keys else {}) + {ch}
      && (dev in devices ==> r[dev] == devices[dev].(channels := r[dev].channels))
      && (dev in devices ==> forall c :: c in devices[dev].channels && c != ch ==>
            r[dev].channels[c] == devices[dev].channels[c])
      && r[dev].channels[ch] ==
           (if dev in devices && ch in devices[dev].channels then devices[dev].channels[ch] else {}) + {qp}
  {
  }

  /** Removing a queue pair from an unknown device changes nothing, and
      other devices never change. */
  lemma WithoutQueuePairFrame(devices: map<int, Device>, dev: int, ch: int, qp: int)
    ensures dev !in devices ==> WithoutQueuePair(devices, dev, ch, qp) == devices
    ensures WithoutQueuePair(devices, dev, ch, qp).Keys <= devices.Keys
    ensures forall d :: d in devices && d != dev ==>
              d in WithoutQueuePair(devices, dev, ch, qp) && WithoutQueuePair(devices, dev, ch, qp)[d] == devices[d]
  {
  }

  lemma MinusSingletonEmpty(s: set<int>, q: int)
    ensures s - {q} == {} <==> s <= {q}
  {
    if s <= {q} {
      assert s - {q} == {};
    }
  }

  /** The id leaves its channel; the channel goes exactly when nothing else
      was in it. */
  lemma WithoutQueuePairChannel(devices: map<int, Device>, dev: int, ch: int, qp: int)
    requires dev in devices && ch in devices[dev].channels
    requires dev in WithoutQueuePair(devices, dev, ch, qp)
    ensures var r := WithoutQueuePair(devices, dev, ch, qp);
      (ch in r[dev].channels ==> r[dev].channels[ch] == devices[dev].channels[ch] - {qp})
      && (ch !in r[dev].channels <==> devices[dev].channels[ch] <= {qp})
  {
    MinusSingletonEmpty(devices[dev].channels[ch], qp);
  }

  /** The device goes exactly when the channel was its only one and held
      nothing but this id. */
  lemma WithoutQueuePairDevice(devices: map<int, Device>, dev: int, ch: int, qp: int)
    requires dev in devices
    ensures dev !in WithoutQueuePair(devices, dev, ch, qp) <==>
              forall c :: c in devices[dev].channels ==> c == ch && devices[dev].channels[c] <= {qp}
  {
    var d := devices[dev];
    var channels :=
      if ch !in d.channels then d.channels
      else if d.channels[ch] - {qp} == {} then d.channels - {ch}
      else d.channels[ch := d.channels[ch] - {qp}];
    if forall c :: c in d.channels ==> c == ch && d.channels[c] <= {qp} {
      if ch in d.channels {
        MinusSingletonEmpty(d.channels[ch], qp);
        assert channels.Keys == {};
      } else {
        assert d.channels.Keys == {};
      }
      assert channels == map[];
    } else {
      var c :| c in d.channels && !(c == ch && d.channels[c] <= {qp});
      if c != ch {
        assert c in channels;
      } else {
        MinusSingletonEmpty(d.channels[ch], qp);
        assert ch in channels;
      }
    }
  }

  /** Removal undoes an addition that created the channel (and, if needed,
      the device), provided the device had some other channel. */
  lemma {:induction false} AddThenRemove(devices: map<int, Device>, dev: int, ch: int, qp: int)
    requires dev in devices ==> ch !in devices[dev].channels && devices[dev].channels != map[]
    ensures WithoutQueuePair(WithQueuePair(devices, dev, ch, qp), dev, ch, qp) == devices
  {
    var r := WithQueuePair(devices, dev, ch, qp);
    var d := r[dev];
    assert d.channels[ch] - {qp} == {};
    if dev in devices {
      assert d.channels - {ch} == devices[dev].channels;
      assert d.channels - {ch} != map[];
      assert r[dev := d.(channels := d.channels - {ch})] == devices;
    } else {
      assert d.channels - {ch} == map[];
      assert r - {dev} == devices;
    }
  }

  /** Both map operations keep every channel non-empty. */
  lemma QueuePairOpsKeepChannels(devices: map<int, Device>, dev: int, ch: int, qp: int)
    requires ChannelsNonEmpty(devices)
    ensures ChannelsNonEmpty(WithQueuePair(devices, dev, ch, qp))
    ensures ChannelsNonEmpty(WithoutQueuePair(devices, dev, ch, qp))
  {
  }

  // ---------------------------------------------------------------------
  // The store

  /** anp_state. The devices map and queue_state are the two hash maps the
      methods update; queue_state[qp_id] on an unknown id inserts a null
      pointer that every method treats as absent, so here it is absent. */
  class AnpState {
    var deviceId: int
    var maxBuckets: int
    var bucketSzLog2: nat
    var devices: map<int, Device>
    var queueState: map<int, QpInfo>

    ghost predicate Valid()
      reads this
    {
      Metrics.IsInt32(maxBuckets) && Metrics.IsInt32(maxBuckets - 1)
      && ChannelsNonEmpty(devices)
      && (forall q :: q in queueState ==> QpInvariant(queueState[q]))
    }

    /** anp_state(): the configuration comes from load_config. */
    constructor (cfg: Config)
      requires Metrics.IsInt32(cfg.maxBuckets) && Metrics.IsInt32(cfg.maxBuckets - 1)
      ensures Valid()
      ensures maxBuckets == cfg.maxBuckets && bucketSzLog2 == cfg.bucketSzLog2
      ensures devices == map[] && queueState == map[]
    {
      deviceId := 0;
      maxBuckets := cfg.maxBuckets;
      bucketSzLog2 := cfg.bucketSzLog2;
      devices := map[];
      queueState := map[];
    }

    /** set_device_name: only a device id not yet present is created, with
        the two names, and becomes the current device id. */
    method SetDeviceName(id: int, ethDevice: string, roceDevice: string)
      requires Valid()
      modifies this
      ensures Valid()
      ensures old(id in devices) ==> devices == old(devices) && deviceId == old(deviceId)
      ensures old(id !in devices) ==>
                devices == old(devices)[id := EmptyDevice().(ethDevice := ethDevice, roceDevice := roceDevice)]
                && deviceId == id
      ensures queueState == old(queueState) && maxBuckets == old(maxBuckets) && bucketSzLog2 == old(bucketSzLog2)
    {
      if id !in devices {
        devices := devices[id := EmptyDevice().(ethDevice := ethDevice, roceDevice := roceDevice)];
        deviceId := id;
      }
    }

    /** add_queue_pair: the queue pair joins its channel (created with its
        device if needed) and gets fresh zero counters with the given kind. */
    method AddQueuePair(dev: int, ch: int, qp: int, dataQp: bool)
      requires Valid()
      modifies this
      ensures Valid()
      ensures devices == WithQueuePair(old(devices), dev, ch, qp)
      ensures queueState == old(queueState)[qp := FreshQp(dataQp, maxBuckets, bucketSzLog2)]
      ensures deviceId == old(deviceId) && maxBuckets == old(maxBuckets) && bucketSzLog2 == old(bucketSzLog2)
    {
      QueuePairOpsKeepChannels(devices, dev, ch, qp);
      devices := WithQueuePair(devices, dev, ch, qp);
      queueState := queueState[qp := FreshQp(dataQp, maxBuckets, bucketSzLog2)];
    }

    /** remove_queue_pair: the device map loses the queue pair and any parent
        left empty; queue_state keeps its entry. */
    method RemoveQueuePair(dev: int, ch: int, qp: int)
      requires Valid()
      modifies this
      ensures Valid()
      ensures devices == WithoutQueuePair(old(devices), dev, ch, qp)
      ensures queueState == old(queueState)
      ensures deviceId == old(deviceId) && maxBuckets == old(maxBuckets) && bucketSzLog2 == old(bucketSzLog2)
    {
      QueuePairOpsKeepChannels(devices, dev, ch, qp);
      if dev in devices {
        var d := devices[dev];
        var channels := d.channels;
        if ch in channels {
          var rest := channels[ch] - {qp};
          if rest == {} {
            channels := channels - {ch};
          } else {
            channels := channels[ch := rest];
          }
        }
        if channels == map[] {
          devices := devices - {dev};
        } else {
          devices := devices[dev := d.(channels := channels)];
        }
      }
    }

    /** The update_* / increment_* counter methods: a queue pair id without
        info changes nothing; otherwise only that queue pair changes. */
    method Record(qp: int, e: QpEvent)
      requires Valid() && EventInRange(e)
      modifies this
      ensures Valid()
      ensures old(qp !in queueState) ==> queueState == old(queueState)
      ensures old(qp in queueState) ==> queueState == old(queueState)[qp := Apply(old(queueState[qp]), e)]
      ensures devices == old(devices) && deviceId == old(deviceId)
      ensures maxBuckets == old(maxBuckets) && bucketSzLog2 == old(bucketSzLog2)
    {
      if qp in queueState {
        ApplyPreserves(queueState[qp], e);
        queueState := queueState[qp := Apply(queueState[qp], e)];
      }
    }

    /** update_wqe_size_metrics: the device the map iterates first (`first`,
        chosen by the hash map) counts one more WQE of that length; with no
        device nothing changes. */
    method UpdateWqeSizeMetrics(wqeLength: nat, first: int)
      requires Valid() && (devices != map[] ==> first in devices)
      modifies this
      ensures Valid()
      ensures old(devices) == map[] ==> devices == old(devices)
      ensures old(devices) != map[] ==>
                var d := old(devices[first]);
                var n := if wqeLength in d.wqeSizeMetrics then d.wqeSizeMetrics[wqeLength] else 0;
                devices == old(devices)[first := d.(wqeSizeMetrics := d.wqeSizeMetrics[wqeLength := n + 1])]
      ensures queueState == old(queueState) && deviceId == old(deviceId)
      ensures maxBuckets == old(maxBuckets) && bucketSzLog2 == old(bucketSzLog2)
    {
      if devices != map[] {
        var d := devices[first];
        var n := if wqeLength in d.wqeSizeMetrics then d.wqeSizeMetrics[wqeLength] else 0;
        devices := devices[first := d.(wqeSizeMetrics := d.wqeSizeMetrics[wqeLength := n + 1])];
      }
    }

    /** update_cq_poll_metrics: the first device's poll count goes up by one. */
    method UpdateCqPollMetrics(first: int)
      requires Valid() && (devices != map[] ==> first in devices)
      modifies this
      ensures Valid()
      ensures old(devices) == map[] ==> devices == old(devices)
      ensures old(devices) != map[] ==>
                devices == old(devices)[first := old(devices[first]).(cqPollCount := old(devices[first]).cqPollCount + 1)]
      ensures queueState == old(queueState) && deviceId == old(deviceId)
      ensures maxBuckets == old(maxBuckets) && bucketSzLog2 == old(bucketSzLog2)
    {
      if devices != map[] {
        devices := devices[first := devices[first].(cqPollCount := devices[first].cqPollCount + 1)];
      }
    }
  }

  // ---------------------------------------------------------------------
  // to_json aggregates

  /** The running sums to_json keeps per channel and per device. */
  datatype Counts = Counts(sent: nat, rcvd: nat, dataQp: nat, ctsQp: nat, ctsSent: nat)

  const NoCounts: Counts := Counts(0, 0, 0, 0, 0)

  function Plus(a: Counts, b: Counts): Counts {
    Counts(a.sent + b.sent, a.rcvd + b.rcvd, a.dataQp + b.dataQp, a.ctsQp + b.ctsQp, a.ctsSent + b.ctsSent)
  }

  /** One queue pair's contribution: nothing when queue_state has no entry;
      a CTS queue pair also adds its sent count to the CTS total. */
  function QpCounts(queueState: map<int, QpInfo>, qp: int): Counts {
    if qp !in queueState then NoCounts
    else
      var s := queueState[qp].stats;
      if queueState[qp].dataQp then Counts(s.numWqeSent, s.numWqeRcvd, 1, 0, 0)
      else Counts(s.numWqeSent, s.numWqeRcvd, 0, 1, s.numWqeSent)
  }

  /** The sums over queue pairs visited in the given order. */
  function SumCounts(queueState: map<int, QpInfo>, qps: seq<int>): Counts {
    if qps == [] then NoCounts
    else Plus(SumCounts(queueState, qps[..|qps| - 1]), QpCounts(queueState, qps[|qps| - 1]))
  }

  /** The numbers written to the stats node: num_wqe_sent excludes the CTS
      sends, which the running sum includes. */
  datatype Aggregate = Aggregate(numWqeSent: int, numWqeRcvd: nat, numCtsSent: nat, numDataQp: nat, numCtsQp: nat)

  function Report(c: Counts): Aggregate {
    Aggregate(c.sent - c.ctsSent, c.rcvd, c.ctsSent, c.dataQp, c.ctsQp)
  }

  /** Sums over data queue pairs only, and the number of tracked ids. */
  function DataSent(queueState: map<int, QpInfo>, qps: seq<int>): nat {
    if qps == [] then 0
    else
      var q := qps[|qps| - 1];
      var own := if q in queueState && queueState[q].dataQp then queueState[q].stats.numWqeSent else 0;
      DataSent(queueState, qps[..|qps| - 1]) + own
  }

  function Tracked(queueState: map<int, QpInfo>, qps: seq<int>): nat {
    if qps == [] then 0
    else
      var own := if qps[|qps| - 1] in queueState then 1 else 0;
      Tracked(queueState, qps[..|qps| - 1]) + own
  }

  /** The reported num_wqe_sent is the data queue pairs' total, so the
      subtraction never goes below zero. */
  lemma {:induction false} ReportedSentIsDataSent(queueState: map<int, QpInfo>, qps: seq<int>)
    ensures SumCounts(queueState, qps).ctsSent <= SumCounts(queueState, qps).sent
    ensures Report(SumCounts(queueState, qps)).numWqeSent == DataSent(queueState, qps)
    decreases |qps|
  {
    if qps != [] {
      ReportedSentIsDataSent(queueState, qps[..|qps| - 1]);
    }
  }

  /** Every queue pair with info counts as exactly one of data or CTS. */
  lemma {:induction false} QpKindsCoverTracked(queueState: map<int, QpInfo>, qps: seq<int>)
    ensures SumCounts(queueState, qps).dataQp + SumCounts(queueState, qps).ctsQp == Tracked(queueState, qps)
    decreases |qps|
  {
    if qps != [] {
      QpKindsCoverTracked(queueState, qps[..|qps| - 1]);
    }
  }

  /** Sums over a concatenation add up. */
  lemma {:induction false} SumCountsAppend(queueState: map<int, QpInfo>, a: seq<int>, b: seq<int>)
    ensures SumCounts(queueState, a + b) == Plus(SumCounts(queueState, a), SumCounts(queueState, b))
    decreases |b|
  {
    if b == [] {
      assert a + b == a;
      PlusNone(SumCounts(queueState, a));
    } else {
      var b' := b[..|b| - 1];
      var last := QpCounts(queueState, b[|b| - 1]);
      assert (a + b)[..|a + b| - 1] == a + b';
      assert (a + b)[|a + b| - 1] == b[|b| - 1];
      assert SumCounts(queueState, a + b) == Plus(SumCounts(queueState, a + b'), last);
      assert SumCounts(queueState, b) == Plus(SumCounts(queueState, b'), last);
      SumCountsAppend(queueState, a, b');
      PlusAssoc(SumCounts(queueState, a), SumCounts(queueState, b'), last);
    }
  }

  lemma PlusAssoc(x: Counts, y: Counts, z: Counts)
    ensures Plus(Plus(x, y), z) == Plus(x, Plus(y, z))
  {
  }

  lemma PlusNone(x: Counts)
    ensures Plus(x, NoCounts) == x
  {
  }

  lemma PlusComm(x: Counts, y: Counts)
    ensures Plus(x, y) == Plus(y, x)
  {
  }

  /** Removing one element takes it out of the multiset. */
  lemma MultisetRemove(b: seq<int>, i: int)
    requires 0 <= i < |b|
    ensures multiset(b[..i] + b[i + 1..]) == multiset(b) - multiset{b[i]}
  {
    SplitAt(b, i);
  }

  lemma SplitAt(b: seq<int>, i: int)
    requires 0 <= i < |b|
    ensures b == b[..i] + [b[i]] + b[i + 1..]
  {
  }

  lemma SumCountsSingle(queueState: map<int, QpInfo>, x: int)
    ensures SumCounts(queueState, [x]) == QpCounts(queueState, x)
  {
    assert [x][..0] == [];
    PlusComm(NoCounts, QpCounts(queueState, x));
    PlusNone(QpCounts(queueState, x));
  }

  lemma SumCountsSplit(queueState: map<int, QpInfo>, b: seq<int>, i: int)
    requires 0 <= i < |b|
    ensures SumCounts(queueState, b)
         == Plus(Plus(SumCounts(queueState, b[..i]), QpCounts(queueState, b[i])), SumCounts(queueState, b[i + 1..]))
  {
    SplitAt(b, i);
    SumCountsAppend(queueState, b[..i] + [b[i]], b[i + 1..]);
    SumCountsAppend(queueState, b[..i], [b[i]]);
    SumCountsSingle(queueState, b[i]);
  }

  lemma PlusSwap(x: Counts, y: Counts, z: Counts)
    ensures Plus(Plus(x, y), z) == Plus(Plus(x, z), y)
  {
  }

  /** Moving one queue pair to the end of the visit order keeps the sums. */
  lemma SumCountsMoveLast(queueState: map<int, QpInfo>, b: seq<int>, i: int)
    requires 0 <= i < |b|
    ensures SumCounts(queueState, b) == Plus(SumCounts(queueState, b[..i] + b[i + 1..]), QpCounts(queueState, b[i]))
  {
    SumCountsSplit(queueState, b, i);
    PlusSwap(SumCounts(queueState, b[..i]), QpCounts(queueState, b[i]), SumCounts(queueState, b[i + 1..]));
    SumCountsAppend(queueState, b[..i], b[i + 1..]);
  }

  /** The hash map's iteration order does not matter: a permuted visit
      order gives the same sums. */
  lemma {:induction false} SumCountsPermutation(queueState: map<int, QpInfo>, a: seq<int>, b: seq<int>)
    requires multiset(a) == multiset(b)
    ensures SumCounts(queueState, a) == SumCounts(queueState, b)
    decreases |a|
  {
    if a == [] {
      assert |b| == |multiset(b)| == 0;
    } else {
      var a' := a[..|a| - 1];
      var x := a[|a| - 1];
      assert x in multiset(b) by {
        assert a == a' + [x];
      }
      var i :| 0 <= i < |b| && b[i] == x;
      var rest := b[..i] + b[i + 1..];
      MultisetRemove(a, |a| - 1);
      MultisetRemove(b, i);
      assert a[..|a| - 1] + a[|a| - 1 + 1..] == a';
      SumCountsPermutation(queueState, a', rest);
      SumCountsMoveLast(queueState, b, i);
    }
  }

  /** to_json's loop over one channel's queue pairs, visited in `order`. */
  method ChannelAggregate(queueState: map<int, QpInfo>, qps: set<int>, order: seq<int>)
    returns (sums: Counts, report: Aggregate)
    requires Enumerates(order, qps)
    ensures sums == SumCounts(queueState, order)
    ensures report == Report(sums)
  {
    sums := NoCounts;
    var i := 0;
    while i < |order|
      invariant 0 <= i <= |order|
      invariant sums == SumCounts(queueState, order[..i])
    {
      assert order[..i + 1][..i] == order[..i];
      sums := Plus(sums, QpCounts(queueState, order[i]));
      i := i + 1;
    }
    assert order[..i] == order;
    report := Report(sums);
  }

  /** The concatenation of the per-channel visit orders. */
  function Flatten(orders: seq<seq<int>>): seq<int> {
    if orders == [] then [] else Flatten(orders[..|orders| - 1]) + orders[|orders| - 1]
  }

  /** to_json's per device loop: the channels in `channelOrder`, channel i's
      queue pairs in `qpOrders[i]`. The device sums are the channel sums
      added up, and its num_wqe_sent is again the data queue pairs' total. */
  method DeviceAggregate(queueState: map<int, QpInfo>, device: Device, channelOrder: seq<int>, qpOrders: seq<seq<int>>)
    returns (channels: seq<Aggregate>, report: Aggregate)
    requires Enumerates(channelOrder, device.channels.Keys)
    requires |qpOrders| == |channelOrder|
    requires forall i :: 0 <= i < |channelOrder| ==> Enumerates(qpOrders[i], device.channels[channelOrder[i]])
    ensures |channels| == |channelOrder|
    ensures forall i :: 0 <= i < |channels| ==> channels[i] == Report(SumCounts(queueState, qpOrders[i]))
    ensures report == Report(SumCounts(queueState, Flatten(qpOrders)))
    ensures report.numWqeSent == DataSent(queueState, Flatten(qpOrders))
  {
    var sums := NoCounts;
    channels := [];
    var i := 0;
    while i < |channelOrder|
      invariant 0 <= i <= |channelOrder|
      invariant |channels| == i
      invariant forall j :: 0 <= j < i ==> channels[j] == Report(SumCounts(queueState, qpOrders[j]))
      invariant sums == SumCounts(queueState, Flatten(qpOrders[..i]))
    {
      var channelSums, channelReport := ChannelAggregate(queueState, device.channels[channelOrder[i]], qpOrders[i]);
      assert qpOrders[..i + 1][..i] == qpOrders[..i];
      SumCountsAppend(queueState, Flatten(qpOrders[..i]), qpOrders[i]);
      sums := Plus(sums, channelSums);
      channels := channels + [channelReport];
      i := i + 1;
    }
    assert qpOrders[..i] == qpOrders;
    report := Report(sums);
    ReportedSentIsDataSent(queueState, Flatten(qpOrders));
  }

  /** The latency_in_ns reported for histogram key b: the last nanosecond
      of the bucket, ((b + 1) << bucket_sz_log2) - 1 in uint64, for every
      bucket but the overflow one, which reports the largest completion
      time. The comparison with max_buckets - 1 is done in uint64. */
  function BucketLatency(b: nat, bucketSzLog2: nat, maxBuckets: int, timeMax: nat): nat
    requires b < Two64 && bucketSzLog2 < 64 && Metrics.IsInt32(maxBuckets - 1)
  {
    if b < Metrics.ToU64(maxBuckets - 1) then
      var upper := (((b + 1) % Two64) * Metrics.Pow2(bucketSzLog2)) % Two64;
      (upper - 1) % Two64
    else timeMax
  }

  /** A regular bucket's reported latency is one below (b + 1) * 2^log2:
      none of the uint64 operations wraps. */
  lemma BucketLatencyValue(b: nat, bucketSzLog2: nat, maxBuckets: int, timeMax: nat)
    requires Metrics.IsInt32(maxBuckets) && b + 1 < maxBuckets && bucketSzLog2 < 64
    requires (b + 1) * Metrics.Pow2(bucketSzLog2) < Two64
    ensures BucketLatency(b, bucketSzLog2, maxBuckets, timeMax) + 1 == (b + 1) * Metrics.Pow2(bucketSzLog2)
  {
    var p := Metrics.Pow2(bucketSzLog2);
    assert (b + 1) * p >= 1 by {
      MulMono(1, b + 1, p);
    }
    assert (b + 1) % Two64 == b + 1;
    assert ((b + 1) * p) % Two64 == (b + 1) * p;
    assert ((b + 1) * p - 1) % Two64 == (b + 1) * p - 1;
  }

  /** The overflow bucket, the one log_time caps every larger time into,
      reports the largest completion time. */
  lemma BucketLatencyOverflow(bucketSzLog2: nat, maxBuckets: int, timeMax: nat)
    requires Metrics.IsInt32(maxBuckets) && maxBuckets >= 1 && bucketSzLog2 < 64
    ensures BucketLatency(maxBuckets - 1, bucketSzLog2, maxBuckets, timeMax) == timeMax
  {
  }

  /** Each regular bucket reports the largest time log_time files under it:
      that time has key b and the next nanosecond has key b + 1. */
  lemma BucketLatencyIsBucketEnd(b: nat, bucketSzLog2: nat, maxBuckets: int, timeMax: nat)
    requires Metrics.IsInt32(maxBuckets) && b + 1 < maxBuckets && bucketSzLog2 < 64
    requires (b + 1) * Metrics.Pow2(bucketSzLog2) < Two64
    ensures var t := BucketLatency(b, bucketSzLog2, maxBuckets, timeMax);
      t + 1 == (b + 1) * Metrics.Pow2(bucketSzLog2)
      && Metrics.LogKey(t, bucketSzLog2, maxBuckets) == b
      && (b + 2 < maxBuckets ==> Metrics.LogKey(t + 1, bucketSzLog2, maxBuckets) == b + 1)
  {
    var p := Metrics.Pow2(bucketSzLog2);
    BucketLatencyValue(b, bucketSzLog2, maxBuckets, timeMax);
    var t := BucketLatency(b, bucketSzLog2, maxBuckets, timeMax);
    MulSucc(b, p);
    Metrics.LogKeyInterval(t, bucketSzLog2, maxBuckets, b);
    if b + 2 < maxBuckets {
      MulSucc(b + 1, p);
      Metrics.LogKeyInterval(t + 1, bucketSzLog2, maxBuckets, b + 1);
    }
  }
}
