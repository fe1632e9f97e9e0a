# ANP plugin core, modelled in Dafny

This project models the sequential logic of the AMD ANP network plugin and its tools. It covers six parts:

- **Telemetry dashboard** (`tools/plugin_top.py`). Modules `DashboardState` and `DashboardRender`.
  - The key-driven view state: device index, page and the two view flags.
  - The latency sub-loop's pager.
  - The text each view draws for a snapshot: the header, the WQE-size bars and summary block, the default sent/received view with its pages, and a latency histogram page.
  - The terminal size and the keys are parameters. Every view returns the lines it would draw, as (row, column, text).
- **Metric primitives** (`include/anp_metrics.h`). Module `Metrics`.
  - Half-open buckets and the bucket lookup.
  - The ring buffer (class `RingBuffer`) with its rollover count.
  - The log2-bucketed completion-time histogram (class `TimeHistogram`).
- **Telemetry state store** (`include/anp_state.h`). Modules `PowerOfTwo` and `TelemetryState`.
  - `power_of_2` over 64-bit words.
  - The settings `load_config` keeps.
  - The device → channel → queue-pair registry and the per-queue-pair counters (class `AnpState`).
  - The aggregate numbers `to_json` reports.
- **Host configuration** (`include/anp_bootstrap.h`). Modules `HostCodec`, `PlanarConfig` and `NatRules`.
  - The length-prefixed big-endian wire format for `host_t` and the host table.
  - The caps `parse_planar_config` applies.
  - The SNAT/DNAT rules planned for the local host and for the remote hosts.
- **Firewall commands** (`include/anp_iptables_wrap.h`). Module `Iptables`.
  - The iptables and nft command lines built from a rule.
  - The backend classification and its cache (class `Backend`).
  - The existence check made before an append.
- **Bootstrap** (`src/bootstrap.cc`). Modules `Ipv4`, `Wire`, `RootElection` and `Handshake`.
  - `ip_to_uint`.
  - Reading the IP list.
  - Electing the root as the numerically lowest address.
  - TLV framing.
  - The message types the root and the leaves expect.
  - The order of the root's sends.

Shared pieces are the `Wrappers` module (Option) and the `Text` module (decimal text, Python slicing and repetition, substring search, small arithmetic facts).

Some conventions hold throughout:

- An `std::unordered_map` is a Dafny `map`. Where the source iterates over one, its iteration order is a parameter: a sequence that lists each key once (`Enumerates`). No result depends on any particular order unless it is stated in terms of that parameter.
- The world outside the program becomes parameters: files, `popen` output, exit statuses of shell commands, the local address and socket streams.

## Model

| member | source | states |
|---|---|---|
| DashboardState.StepPreservesValid | tools/plugin_top.py:30-46 | whatever key is pressed, the device index stays below the 8 status files and at most one of the WQE-size and latency flags is set |
| DashboardState.StepDeviceKey | tools/plugin_top.py:31-32 | `d` advances the device index modulo 8 and changes neither the page nor the view |
| DashboardState.RunDeviceKeys | tools/plugin_top.py:31-32 | n presses of `d` move the device index n places round the 8 files and change nothing else |
| DashboardState.DeviceKeyCycles | tools/plugin_top.py:8 | eight presses of `d` bring the dashboard back to the state it started from |
| DashboardState.ModeKeys | tools/plugin_top.py:35-46 | `s`, `l` and `r` select the WQE-size, latency and default views, reset the page to 0, leave the device alone, clear the other flag and are idempotent |
| DashboardState.SpaceKey | tools/plugin_top.py:33-34 | space only increments the page, with no upper bound, and keeps the view |
| DashboardState.OtherKeys | tools/plugin_top.py:30-46 | any other key, including the -1 of a non-blocking read, changes nothing |
| DashboardState.QuitKeepsLatencyView | tools/plugin_top.py:193-194 | leaving the histogram sub-loop with `q` does not clear the latency flag, so the next pass shows the histogram again |
| DashboardState.Dashboard.constructor | tools/plugin_top.py:25-27 | the dashboard starts on device 0, page 0, in the default view |
| DashboardState.Dashboard.HandleKey | tools/plugin_top.py:30-46 | the key handler updates the four state variables in place exactly as the transition function says, and keeps them valid |
| DashboardState.LatencyTotalPages | tools/plugin_top.py:159 | the page count is the least number of pages of items_per_page entries that holds every entry |
| DashboardState.PagerStepClamped | tools/plugin_top.py:195-200 | the arrow and page keys move the histogram page by at most one and keep it within [0, max(0, total_pages - 1)] |
| DashboardState.RunLatencyPager | tools/plugin_top.py:161-200 | the sub-loop starts on page 0, every page it shows is in range, each key moves it by one pager step, and it stops right after the first `q` |
| DashboardRender.HeaderLinesPlain | tools/plugin_top.py:71-77 | with status fields free of newlines the header takes three lines, so header_lines is 5 |
| DashboardRender.FixedLinesPlain | tools/plugin_top.py:73-74 | the legend and key-help lines hold no newline |
| DashboardRender.StatusLinePlain | tools/plugin_top.py:72 | the status line holds a newline only if one of the status fields does |
| DashboardRender.FormatSizeUnit | tools/plugin_top.py:89-97 | values of at least 2^30 are shown in GB, else of at least 2^20 in MB, else of at least 2^10 in KB, else as the integer followed by " B"; the label ends in that unit |
| DashboardRender.FormatSizeExamples | tools/plugin_top.py:89-97 | 2^30, 2^20 and 2^10 bytes read "1.00 GB", "1.00 MB" and "1.00 KB", and 512 reads "512 B" |
| DashboardRender.RoundHalfEvenNearest | tools/plugin_top.py:91-95 | the two-decimal figure is within half a hundredth of the exact quotient |
| DashboardRender.TruncDivBounds | tools/plugin_top.py:102 | int() of a quotient is the integer nearest zero, for positive and negative numerators |
| DashboardRender.ScaledBarBounds | tools/plugin_top.py:101-102 | a bar has at least one glyph, exactly one when no width is left, never more than the available width, and the full width for the largest count |
| DashboardRender.ScaledBarMonotone | tools/plugin_top.py:102 | a larger count never gets a shorter bar |
| DashboardRender.MaxNumWqe | tools/plugin_top.py:99 | the largest num_wqe of the list, which is one of its entries |
| DashboardRender.WqeLineFits | tools/plugin_top.py:100-103 | when the label leaves room for a bar, a WQE-size line fits in max_x - 2 characters |
| DashboardRender.WqeLinesAt | tools/plugin_top.py:88-103 | row i's text is entry i's own WQE-size line |
| DashboardRender.PlacedRowsShape | tools/plugin_top.py:104-106 | exactly the first min(n, limit) lines are drawn, line i on row start + i + 1 at column 0, each cut to max_x - 1 characters |
| DashboardRender.PlacedRowsBounds | tools/plugin_top.py:104-106 | every drawn row lies strictly below the title and above the limit |
| DashboardRender.DrawPlacedRows | tools/plugin_top.py:104-106 | the drawing loop draws exactly the placed rows and wqe_end_line counts them |
| DashboardRender.WqeSizeRows | tools/plugin_top.py:84-106 | the WQE-size rows are the entries' lines drawn one per row while the row is above max_y - 1, and wqe_end_line is one past the last |
| DashboardRender.SummaryGlyphs | tools/plugin_top.py:117-135 | each summary bar has max(0, min(5, max_x - label_length - 1)) glyphs, whatever the counter |
| DashboardRender.SummaryCells | tools/plugin_top.py:111-135 | the summary block is five lines at column 0 |
| DashboardRender.SummaryBlock | tools/plugin_top.py:108-135 | the summary block is drawn exactly when device_start_line + 5 < max_y - 1, and then only on rows above max_y - 1 |
| DashboardRender.WqeSizeView | tools/plugin_top.py:79-139 | the WQE-size view draws the "WQE Size Stats:" title at header_lines + 2 when it is on screen, then the entries' scaled bar rows (PlacedRows of the entry lines, limited to the rows above max_y - 1), then the summary block three rows below the last bar row; every line is at column 0, below the header and above the screen's last row |
| DashboardRender.ChannelBarEntries | tools/plugin_top.py:213-224 | a channel lists at most its own queue pairs |
| DashboardRender.ChannelBarEntriesMember | tools/plugin_top.py:213-224 | a channel lists exactly its queue pairs that sent a WQE |
| DashboardRender.BarEntriesMember | tools/plugin_top.py:211-224 | the default view lists exactly the queue pairs, over all channels, that sent a WQE |
| DashboardRender.BarEntriesSent | tools/plugin_top.py:217 | every listed queue pair has a positive sent count |
| DashboardRender.CollectBarEntries | tools/plugin_top.py:211-224 | the nested loop collects the entries channel after channel, queue pair after queue pair |
| DashboardRender.LabelSplits | tools/plugin_top.py:218-220 | a label holds one '\|' between its halves and neither half has surrounding spaces, so split-and-strip gives the halves back |
| DashboardRender.MaxRegular | tools/plugin_top.py:229 | the normalisation maximum is at least 1, bounds every sent and received count and is one of them unless it is 1 |
| DashboardRender.NormalizedBounds | tools/plugin_top.py:230-231 | a normalised bar lies between 0 and the graph height, and is empty when the height is not positive |
| DashboardRender.DefaultLinesAt | tools/plugin_top.py:239-245 | entry i's line is its label halves, its normalised bar and its counter |
| DashboardRender.PairRowsShape | tools/plugin_top.py:238-245 | a page's 2k rows lie between header_lines and header_lines + 2k |
| DashboardRender.PairRowsAt | tools/plugin_top.py:241-245 | entry start + j is drawn as its sent line on row header_lines + 2j and its received line on the row after |
| DashboardRender.DrawPairRows | tools/plugin_top.py:238-245 | the drawing loop draws exactly the pair rows of its index range |
| DashboardRender.DrawPage | tools/plugin_top.py:233-245 | the page drawn is the slice [page * lpp, min(page * lpp + lpp, n)) |
| DashboardRender.DrawDefaultPage | tools/plugin_top.py:206-245 | the default view draws the page of the collected entries' lines |
| DashboardRender.EntryPage | tools/plugin_top.py:233-236 | entry i is listed on page i / lpp and on no other page |
| DashboardRender.PageRowsBounds | tools/plugin_top.py:233-245 | a page draws at most 2 * lpp rows, all between header_lines and header_lines + max_y - 10, and none past the end |
| DashboardRender.PageRowsEntry | tools/plugin_top.py:238-245 | the j-th entry of a page is drawn on rows header_lines + 2j and + 2j + 1 |
| DashboardRender.PageRowsPairs | tools/plugin_top.py:233-238 | a page that holds entries is the drawing loop over its index range |
| DashboardRender.ChannelLatencyEntriesMember | tools/plugin_top.py:153-156 | a channel contributes exactly its queue pairs with a non-empty completion histogram |
| DashboardRender.LatencyEntriesMember | tools/plugin_top.py:151-157 | the histogram view lists exactly the queue pairs, over all channels, with a non-empty histogram |
| DashboardRender.CollectLatencyEntries | tools/plugin_top.py:151-157 | the nested loop collects those entries in channel-then-queue-pair order |
| DashboardRender.MaxLatencyCount | tools/plugin_top.py:173 | the largest bucket count of a histogram, or 1 for none |
| DashboardRender.StatCellsAt | tools/plugin_top.py:175-184 | bucket i is drawn at column 2 as its latency line cut to max_x - 1 characters |
| DashboardRender.EntryCells | tools/plugin_top.py:171-185 | an entry takes one title line plus one line per bucket |
| DashboardRender.PageChunksAt | tools/plugin_top.py:168-185 | the page's entries are drawn in order, each as its own lines |
| DashboardRender.DrawChunks | tools/plugin_top.py:167-185 | the two nested loops with their breaks draw exactly the first max_y - 4 lines of the page, from row 2 down |
| DashboardRender.DrawChunk | tools/plugin_top.py:171-185 | one entry adds its title and then its buckets while the row budget lasts |
| DashboardRender.DrawLatencyPage | tools/plugin_top.py:161-188 | the histogram screen is the title, the budgeted lines of the page's slice and the footer |
| DashboardRender.LatencyPageFits | tools/plugin_top.py:163-188 | the screen has the title on row 0, the footer on row max_y - 1 and every other line on rows 2 to max_y - 3 |
| DashboardRender.LatencyPageFirstTitle | tools/plugin_top.py:168-171 | a non-empty page starts, on row 2, with its first entry's title |
| DashboardRender.LatencyLineFits | tools/plugin_top.py:180-184 | when the label leaves room for a bar, a bucket line fits in max_x - 2 characters |
| DashboardRender.ChannelLatencyEntries | tools/plugin_top.py:153-156 | a channel contributes at most one histogram entry per queue pair |
| DashboardRender.StatCells | tools/plugin_top.py:175-184 | one drawn line per histogram bucket |
| DashboardRender.PageChunks | tools/plugin_top.py:168-185 | every entry of the page gives its own non-empty block of lines |
| Text.PyPrefix | tools/plugin_top.py:105 | Python's s[:k] is a prefix of s: min(k, len(s)) characters for k >= 0, max(0, len(s) + k) for negative k |
| Text.Repeat | tools/plugin_top.py:103 | c * n is n copies of c, and empty for n <= 0 |
| Text.LeftJustify | tools/plugin_top.py:171 | a `<w` format keeps the text and pads it with spaces on the right up to width w |
| Text.NatToString | tools/plugin_top.py:103 | str() of a natural number is its decimal digits, without a leading zero |
| Text.IntToString | tools/plugin_top.py:171 | str() of an integer has a minus sign exactly when it is negative, then digits |
| Text.DigitsValueOfNatToString | tools/plugin_top.py:103 | the decimal text of a number reads back as that number |
| Text.IntToStringValue | tools/plugin_top.py:171 | the decimal text of a channel or queue-pair id reads back as its value: the whole text when it is not negative, the digits after the minus sign otherwise |
| Metrics.AdjacentBucketsDisjoint | include/anp_metrics.h:61-63 | membership is half-open: a bucket never holds its upper bound, so two buckets that meet never share a value, and together they hold exactly their joint interval |
| Metrics.BucketIndexOfSpec | include/anp_metrics.h:122-130 | the lookup returns the first bucket holding the value, and the last bucket when none does |
| Metrics.SameRangesSameIndex | include/anp_metrics.h:114-117 | the lookup depends only on the bucket bounds, so counting does not change where later values go |
| Metrics.FindBucketIndex | include/anp_metrics.h:122-130 | the search loop returns the index the lookup specifies |
| Metrics.ResetCounts | include/anp_metrics.h:68-72 | every count becomes 0 and every bound is kept |
| Metrics.BumpTotal | include/anp_metrics.h:117 | one increment raises the total count by one |
| Metrics.TallyTotal | include/anp_metrics.h:111-119 | counting n values raises the total count by exactly n |
| Metrics.TallyCount | include/anp_metrics.h:111-119 | each bucket gains exactly the number of values the lookup sends to it |
| Metrics.RingBuffer.constructor | include/anp_metrics.h:89-94 | a new buffer of n slots is empty: count, write index and rollover count 0 |
| Metrics.RingBuffer.Push | include/anp_metrics.h:97-105 | the value is written at the write index, which advances modulo the size; the count grows to the size and afterwards each push is a rollover; count + rollovers equals the number of pushes |
| Metrics.RingBuffer.Values | include/anp_metrics.h:107-109 | the values are exactly the first count slots |
| Metrics.RingBuffer.ValuesAreRecentPushes | include/anp_metrics.h:96-109 | before the buffer fills, the values are every push in order; afterwards, read from the write index round, they are the last size pushes |
| Metrics.RingBuffer.ProcessRingBuffer | include/anp_metrics.h:111-119 | each held value is counted into its bucket, raising the total count by exactly count |
| Metrics.LogKeyCapped | include/anp_metrics.h:194-196 | for a positive max_buckets the key is min(time >> log2, max_buckets - 1), below max_buckets |
| Metrics.LogKeyZeroBuckets | include/anp_metrics.h:194-196 | with max_buckets 0 every time lands in key 2^64 - 1, as the unsigned conversion of -1 |
| Metrics.LogKeyInterval | include/anp_metrics.h:194-196 | below the overflow bucket, key b holds exactly the times in [b * 2^log2, (b + 1) * 2^log2) |
| Metrics.TimeHistogram.constructor | include/anp_metrics.h:187-189 | a new histogram keeps its parameters and has no counts |
| Metrics.TimeHistogram.LogTime | include/anp_metrics.h:191-198 | exactly one key gains a count and nothing else changes, so keys stay below max_buckets |
| Metrics.FirstContaining | include/anp_metrics.h:122-130 | the scan returns the first bucket from its start that holds the value, and the last index when none does |
| Metrics.Tally | include/anp_metrics.h:111-119 | counting values never changes any bucket's bounds |
| PowerOfTwo.PowerOf2Zero | include/anp_state.h:94-95 | power_of_2(0) is 1, which is a power of two |
| PowerOfTwo.PowerOf2RoundsUp | include/anp_state.h:94-109 | for every n up to 2^63 the result is a power of two and at least n |
| PowerOfTwo.PowerOf2Least | include/anp_state.h:94-109 | no power of two that is at least n lies below the result, so it is the least such power |
| PowerOfTwo.PowerOf2FixesPowers | include/anp_state.h:94-109 | a number for which IS_POWER_OF_2 holds is returned unchanged |
| PowerOfTwo.PowerOf2FixedIsPower | include/anp_state.h:18-19 | a number returned unchanged satisfies IS_POWER_OF_2, so the fixed points are exactly the powers of two |
| PowerOfTwo.PowerOf2Overflow | include/anp_state.h:94-109 | above 2^63 the final increment wraps and the result is 0 |
| TelemetryState.ParseLogLevelNames | include/anp_state.h:495-505 | NONE, ERROR, INFO, DEBUG and VERBOSE select their own level, and any other text selects LOG_ERROR |
| TelemetryState.BucketIntervalIsPowerOf2 | include/anp_state.h:510-513 | keeping a power of two and rounding anything else up with power_of_2 equals applying power_of_2 to every value |
| TelemetryState.DefaultBucketSzLog2 | include/anp_state.h:479 | the default width of 1024 ns gives bucket_sz_log2 = 10 |
| TelemetryState.FloorLog2Bounds | include/anp_state.h:514 | the truncated log2 of a positive width w is the k with 2^k <= w < 2^(k+1) |
| TelemetryState.ToInt32 | include/anp_state.h:515 | a size_t max_buckets stored into the int field is its 32-bit two's-complement value |
| TelemetryState.ToInt32Small | include/anp_state.h:515 | a max_buckets below 2^31 is stored unchanged |
| TelemetryState.LoadConfig | include/anp_state.h:473-527 | without a readable file the defaults (ERROR, /tmp, log2 10, 5 buckets) stay; otherwise the level and output directory come from the file with their defaults, bucket_sz_log2 is log2 of power_of_2 of the configured width or 10, and max_buckets is the configured number as an int, or 5 when it is missing, does not convert or exceeds size_t |
| TelemetryState.LoadConfigSettingsIndependent | include/anp_state.h:510-515 | the width setting alone decides bucket_sz_log2 and the max_buckets setting alone decides max_buckets |
| TelemetryState.LoadConfigMalformedWidth | include/anp_state.h:510-515 | a width that does not convert gives log2 10 and a following max_buckets of 7 is still kept |
| TelemetryState.CompletionTime | include/anp_state.h:318 | the completion time is end - start as uint64 subtraction, always below 2^64 |
| TelemetryState.FreshQp | include/anp_state.h:44-46 | a queue pair as the constructor creates it meets the queue-pair invariant |
| TelemetryState.ApplyPreserves | include/anp_state.h:282-403 | every counter update keeps min <= max, completions <= receptions, tracked start times and histogram keys in range |
| TelemetryState.ReceivedTracked | include/anp_state.h:316-329 | for a tracked wqe id: one more reception and completion, the completion time lies between the new min and max, max never shrinks, a non-zero min never grows, the time's log2 key is in the histogram and the id leaves the tracker |
| TelemetryState.ReceivedUntracked | include/anp_state.h:307-315 | for an untracked wqe id only num_wqe_rcvd grows |
| TelemetryState.PostThenReceive | include/anp_state.h:282-330 | posting and then receiving a wqe id at the same time counts one send and one completion, records a completion time of 0 and leaves the tracker without that id |
| TelemetryState.WithQueuePair | include/anp_state.h:122-126 | after add_queue_pair the device, its channel and the queue pair all exist |
| TelemetryState.WithQueuePairSpec | include/anp_state.h:122-126 | the device and channel are created when missing, the channel gains exactly that id, the device keeps its names and stats, and no other device or channel changes |
| TelemetryState.WithoutQueuePairFrame | include/anp_state.h:128-143 | an unknown device changes nothing, no device is added, and every other device is kept as it was |
| TelemetryState.WithoutQueuePairChannel | include/anp_state.h:133-138 | the channel loses exactly that id, and is erased exactly when nothing else was in it |
| TelemetryState.WithoutQueuePairDevice | include/anp_state.h:139-141 | the device is erased exactly when the removal emptied its only channel |
| TelemetryState.AddThenRemove | include/anp_state.h:122-143 | adding a queue pair on a new channel and removing it again restores the device map |
| TelemetryState.QueuePairOpsKeepChannels | include/anp_state.h:122-143 | adding and removing never leave an empty channel behind |
| TelemetryState.AnpState.constructor | include/anp_state.h:578-581 | the store starts with the loaded max_buckets and bucket_sz_log2 and no devices or queue pairs |
| TelemetryState.AnpState.SetDeviceName | include/anp_state.h:113-120 | a new device id gets the two names and becomes device_id; a known id changes nothing |
| TelemetryState.AnpState.AddQueuePair | include/anp_state.h:122-126 | the device map gains the queue pair and queue_state maps it to a fresh queue pair with the given data_qp, replacing any earlier one |
| TelemetryState.AnpState.RemoveQueuePair | include/anp_state.h:128-143 | the device map loses the queue pair with cascading removal, and queue_state is untouched |
| TelemetryState.AnpState.Record | include/anp_state.h:282-403 | an update on an unknown queue pair changes nothing; on a known one it applies the counter update and keeps the invariant |
| TelemetryState.AnpState.UpdateWqeSizeMetrics | include/anp_state.h:405-409 | with devices present, the chosen device's count for that WQE length grows by one; with none, nothing changes |
| TelemetryState.AnpState.UpdateCqPollMetrics | include/anp_state.h:411-415 | with devices present, the chosen device's cq_poll_count grows by one; with none, nothing changes |
| TelemetryState.ReportedSentIsDataSent | include/anp_state.h:258 | the CTS total never exceeds the sent total, and the reported num_wqe_sent is what the data queue pairs sent |
| TelemetryState.QpKindsCoverTracked | include/anp_state.h:204-211 | num_data_qp + num_cts_qp counts exactly the queue pairs present in queue_state |
| TelemetryState.SumCountsAppend | include/anp_state.h:252-256 | summing two runs of queue pairs gives the sum of their separate sums |
| TelemetryState.SumCountsPermutation | include/anp_state.h:199-227 | the sums do not depend on the order the hash map yields the queue pairs |
| TelemetryState.ChannelAggregate | include/anp_state.h:199-263 | the channel loop's running sums are the sums over its queue pairs, and the reported numbers are those sums with the CTS total taken out of num_wqe_sent |
| TelemetryState.DeviceAggregate | include/anp_state.h:185-270 | each channel reports its own sums, and the device reports the sums over all its queue pairs, its num_wqe_sent being what the data queue pairs sent |
| TelemetryState.BucketLatencyValue | include/anp_state.h:235-236 | a regular bucket b reports ((b + 1) << log2) - 1 |
| TelemetryState.BucketLatencyOverflow | include/anp_state.h:237-238 | the overflow bucket reports the largest completion time |
| TelemetryState.BucketLatencyIsBucketEnd | include/anp_state.h:233-238 | the latency a regular bucket reports is the largest time log_time puts in it, and one more lands in the next bucket |
| HostCodec.CharsOfBytes | include/anp_bootstrap.h:299 | reading back the bytes of a string of byte-sized characters gives the string |
| HostCodec.CStr | include/anp_bootstrap.h:244-246 | strlen stops at the first NUL: the C string is a NUL-free prefix, the whole text when it holds no NUL |
| HostCodec.U32 | include/anp_bootstrap.h:227 | a size below 2^32 is written unchanged as a uint32_t |
| HostCodec.ParseU32RoundTrip | include/anp_bootstrap.h:297-298 | ntohl of four bytes written by htonl gives the number back and moves past exactly those four bytes |
| HostCodec.ParseTextRoundTrip | include/anp_bootstrap.h:297-300 | a length-prefixed string reads back, leaving the rest of the buffer |
| HostCodec.ParseCFieldRoundTrip | include/anp_bootstrap.h:318-322 | a char-array field of at most 63 characters reads back after memcpy and the terminating NUL |
| HostCodec.ParseRawRoundTrip | include/anp_bootstrap.h:325-326 | raw address bytes read back as written |
| HostCodec.ParseManyRoundTrip | include/anp_bootstrap.h:314-359 | a counted loop reads back every item written by the matching writer loop, in order |
| HostCodec.ParseInterfaceRoundTrip | include/anp_bootstrap.h:335-357 | an interface's id, name, IPv4 and IPv6 address read back as written |
| HostCodec.InterfacesReadBack | include/anp_bootstrap.h:334-358 | every valid interface reads back, whatever follows it |
| HostCodec.ParseDeviceRoundTrip | include/anp_bootstrap.h:315-358 | a device's virtual interface, virtual IP and interfaces read back as written |
| HostCodec.DevicesReadBack | include/anp_bootstrap.h:314-359 | every valid device reads back, whatever follows it |
| HostCodec.ParseHostRoundTrip | include/anp_bootstrap.h:292-362 | deserialize_host of serialize_host(h) restores every field and advances by exactly the bytes written |
| HostCodec.HostsReadBack | include/anp_bootstrap.h:380-384 | every valid host reads back, whatever follows it |
| HostCodec.AllHostsRoundTrip | include/anp_bootstrap.h:372-385 | the host count and every host of a serialised table read back, in order |
| HostCodec.InOrder | include/anp_bootstrap.h:285-288 | the hosts of the table listed in the hash map's iteration order |
| HostCodec.AppendText | include/anp_bootstrap.h:227-229 | appends the length as a big-endian uint32_t and then the bytes |
| HostCodec.AppendInterface | include/anp_bootstrap.h:256-272 | appends the interface's encoding |
| HostCodec.AppendInterfaces | include/anp_bootstrap.h:255-273 | the interface loop appends the interfaces' encodings in order |
| HostCodec.AppendDevice | include/anp_bootstrap.h:241-273 | appends the device's encoding |
| HostCodec.AppendDevices | include/anp_bootstrap.h:240-274 | the device loop appends the devices' encodings in order |
| HostCodec.SerializeHost | include/anp_bootstrap.h:225-275 | appends name, ip, device count, devices and interfaces in the wire layout |
| HostCodec.SerializeAllHosts | include/anp_bootstrap.h:277-290 | writes the host count and then every host of the table, once each, in iteration order |
| HostCodec.ReadU32 | include/anp_bootstrap.h:297-298 | reads one big-endian uint32_t and advances the offset by four |
| HostCodec.ReadText | include/anp_bootstrap.h:297-300 | reads one length-prefixed string and advances past it |
| HostCodec.ReadCField | include/anp_bootstrap.h:318-322 | reads one char-array field and advances past it |
| HostCodec.ReadRaw | include/anp_bootstrap.h:325-326 | reads n raw bytes and advances by n |
| HostCodec.ReadInterface | include/anp_bootstrap.h:335-357 | reads one interface and advances past it |
| HostCodec.ReadInterfaces | include/anp_bootstrap.h:334-358 | the interface loop reads the counted interfaces in order |
| HostCodec.ReadDevice | include/anp_bootstrap.h:315-358 | reads one device and advances past it |
| HostCodec.ReadDevices | include/anp_bootstrap.h:314-359 | the device loop reads the counted devices in order |
| HostCodec.DeserializeHost | include/anp_bootstrap.h:292-362 | reads one host at the offset and leaves the offset just past it |
| HostCodec.DeserializeHostAtStart | include/anp_bootstrap.h:364-370 | reads the host at the start of the buffer |
| HostCodec.ReadNextHost | include/anp_bootstrap.h:381-382 | one pass of the table loop reads the next host |
| HostCodec.StoreHosts | include/anp_bootstrap.h:380-384 | the table loop inserts the counted hosts in order under the given key, a later host replacing an earlier one with the same key |
| HostCodec.DeserializeAllHosts | include/anp_bootstrap.h:372-385 | as written: the hosts are inserted keyed by host_name |
| HostCodec.DeserializeAllHostsByIp | include/anp_bootstrap.h:372-385 | corrected: the hosts are inserted keyed by host_ip, as the root's table is |
| HostCodec.InsertByKeys | include/anp_bootstrap.h:380-384 | the table afterwards holds the old keys plus the key of every inserted host |
| HostCodec.InsertByFinds | include/anp_bootstrap.h:380-384 | a host whose key no other inserted host shares is found under its key |
| HostCodec.InOrderIps | include/anp_bootstrap.h:285-288 | in a table keyed by host_ip, the serialised hosts carry their own keys as host_ip, each key once |
| HostCodec.InsertByIpRestores | include/anp_bootstrap.h:380-384 | inserting the listed hosts by host_ip into an empty table rebuilds a table keyed by host_ip |
| HostCodec.TableRoundTripByIp | include/anp_bootstrap.h:277-385 | serialising a table keyed by host_ip and reading it back by host_ip gives the same table |
| PlanarConfig.CopyField | include/anp_bootstrap.h:452 | strncpy into a zeroed char[64] keeps a NUL-free prefix of at most 63 characters |
| PlanarConfig.Addr4 | include/anp_bootstrap.h:453-465 | inet_pton of the string's c_str() into a zeroed in_addr leaves four bytes: the parsed address or 0.0.0.0 |
| PlanarConfig.Addr4StopsAtNul | include/anp_bootstrap.h:453-465 | inet_pton reads the c_str(), so nothing after an embedded NUL changes the stored address |
| PlanarConfig.Addr6 | include/anp_bootstrap.h:466 | inet_pton into a zeroed in6_addr leaves sixteen bytes |
| PlanarConfig.ParseInterfaces | include/anp_bootstrap.h:456-471 | the interface loop keeps the first min(n, 64) entries, each converted field by field, and the count is their number |
| PlanarConfig.ParseDevice | include/anp_bootstrap.h:450-471 | a device entry becomes its copied name, parsed virtual IP and capped interfaces |
| PlanarConfig.ParseDevices | include/anp_bootstrap.h:447-473 | the device loop keeps the first min(n, 8) entries, and the count is their number |
| PlanarConfig.ParsePlanarConfig | include/anp_bootstrap.h:431-481 | no file name: ANP_FAILURE and the host untouched; otherwise ANP_SUCCESS, with the host filled from the document or untouched when it cannot be read |
| PlanarConfig.CopyFieldFits | include/anp_bootstrap.h:452 | the copy fits a char[64], and equals the text exactly when the text already fitted |
| PlanarConfig.Addr4OfFormat | include/anp_bootstrap.h:453 | an address written in dotted form parses back to the same four bytes |
| PlanarConfig.ConfigDeviceValid | include/anp_bootstrap.h:450-471 | a parsed device fits device_t |
| PlanarConfig.ConfigHostValid | include/anp_bootstrap.h:447-473 | whatever the document holds, the parsed host fits host_t: at most 8 devices of at most 64 interfaces, every field at most 63 characters |
| PlanarConfig.ConfigHostSent | include/anp_bootstrap.h:225-362 | a parsed host that is serialised is deserialised as the same host |
| NatRules.RxSwapsTx | include/anp_bootstrap.h:99-157 | the rx rules are the tx rules with the virtual and planar addresses swapped (SNAT also on INPUT, incoming interface) |
| NatRules.NatRuleReadsBack | include/anp_bootstrap.h:99-157 | every field of each of the four NAT rules reaches its iptables command |
| NatRules.NatRuleCheck | include/anp_iptables_wrap.h:131-136 | the corrected existence check of a NAT rule is the same rule with action C |
| NatRules.InterfacePaired | include/anp_bootstrap.h:173-180 | an interface yields no rule or exactly one pair: tx-SNAT then rx-DNAT locally, tx-DNAT then rx-SNAT remotely |
| NatRules.InterfaceReal | include/anp_bootstrap.h:174 | every emitted rule uses non-zero addresses |
| NatRules.InterfacesPaired | include/anp_bootstrap.h:169-181 | an interface loop emits whole pairs with non-zero addresses |
| NatRules.DevicesPaired | include/anp_bootstrap.h:167-182 | a device loop emits whole pairs with non-zero addresses |
| NatRules.LocalRulesPaired | include/anp_bootstrap.h:159-183 | local rules come in tx-SNAT/rx-DNAT pairs with non-zero addresses, and there are none when local_ip is not in the table |
| NatRules.RemoteRulesPaired | include/anp_bootstrap.h:185-211 | remote rules come in tx-DNAT/rx-SNAT pairs with non-zero addresses |
| NatRules.RemoteIgnoresLocal | include/anp_bootstrap.h:186-190 | the remote rules do not depend on the entry stored under local_ip |
| NatRules.RemoteIncludes | include/anp_bootstrap.h:185-211 | every host other than the local one has its whole block of remote rules among the emitted rules |
| NatRules.EmitDevice | include/anp_bootstrap.h:169-181 | the interface loop emits exactly the rules of the device's interfaces |
| NatRules.EmitHost | include/anp_bootstrap.h:167-182 | the device loop emits exactly the host's rules |
| NatRules.ApplyLocal | include/anp_bootstrap.h:159-183 | emits exactly the local host's rules, in pairs, with non-zero addresses |
| NatRules.ApplyRemote | include/anp_bootstrap.h:185-211 | emits the rules of every other host in iteration order, in pairs, with non-zero addresses |
| NatRules.SentHosts | include/anp_bootstrap.h:277-290 | the table the root serialises reads back as its hosts in iteration order |
| NatRules.LeafTableAsWritten | include/anp_bootstrap.h:383 | as written: a leaf whose host names differ from IP addresses finds no entry under local_ip and emits no local rules, its own host being stored under its name |
| NatRules.LeafTableByIp | include/anp_bootstrap.h:372-385 | corrected: the leaf's table equals the root's, so it emits the same local and remote rules |
| Iptables.IptablesMatchWords | include/anp_iptables_wrap.h:55-57 | the match clause is " -s " for SIP and " -d " otherwise, then the value, only when both fields are set |
| Iptables.IptablesIfaceWords | include/anp_iptables_wrap.h:58-60 | the interface clause is " -i " for "in" and " -o " otherwise, then the name, only when the name is set |
| Iptables.IptablesJumpWords | include/anp_iptables_wrap.h:61-70 | " -j target" only for a target, then --to-source or --to-destination only for SNAT or DNAT with an address |
| Iptables.IptablesWords | include/anp_iptables_wrap.h:53-72 | the command is "iptables -t <table> -<action> <chain>" followed by the clauses |
| Iptables.IptablesSplit | include/anp_iptables_wrap.h:53-72 | with space-free fields, the shell splits the command into exactly those words |
| Iptables.IptablesReadsBack | include/anp_iptables_wrap.h:53-72 | the command carries every field the builder uses: it reads back as the rule with unused fields cleared |
| Iptables.IptablesOfNormal | include/anp_iptables_wrap.h:53-72 | clearing the unused fields does not change the command |
| Iptables.IptablesCommandInjective | include/anp_iptables_wrap.h:53-72 | two rules give the same command exactly when they agree on the fields the builder uses |
| Iptables.NftWords | include/anp_iptables_wrap.h:75-97 | the command is "nft add rule ip <table> <chain>" followed by the saddr/daddr, iif/oif and snat/dnat/raw target clauses |
| Iptables.NftSplit | include/anp_iptables_wrap.h:75-97 | with space-free fields, the shell splits the nft command into exactly those words |
| Iptables.NftReadsBack | include/anp_iptables_wrap.h:75-97 | the nft command reads back as the rule without its action and with unused fields cleared |
| Iptables.CheckCommand | include/anp_iptables_wrap.h:131-136 | corrected: the 'A' after the first " -" of " -A " becomes 'C' and nothing else changes; without " -A " the command is unchanged |
| Iptables.CheckCommandAsWritten | include/anp_iptables_wrap.h:133-135 | as written: the '-' of the first " -A " becomes 'C' and nothing else changes |
| Iptables.CheckOfAppend | include/anp_iptables_wrap.h:131-136 | the corrected check of an append is the same command with action C |
| Iptables.CheckOfAppendAsWritten | include/anp_iptables_wrap.h:133-135 | as written, the check of an append has the word "CA" where the flag was and does not read as an iptables command |
| Iptables.NftCheckIsCommand | include/anp_iptables_wrap.h:131-136 | an nft command holds no " -A ", so its check command is the command itself |
| Iptables.Classify | include/anp_iptables_wrap.h:41-47 | nf_tables exactly when the output mentions nf_tables, else legacy exactly when it mentions legacy, else unknown |
| Iptables.Backend.constructor | include/anp_iptables_wrap.h:23 | nothing is detected at start |
| Iptables.Backend.Detect | include/anp_iptables_wrap.h:26-50 | a cached answer is returned unchanged; otherwise a failed popen answers unknown without caching, and any output is classified and cached |
| Iptables.Backend.Execute | include/anp_iptables_wrap.h:119-147 | builds the nft or iptables command by backend; an append is first checked with the corrected `-C` command (Iptables.CheckCommand, not the as-written " CA " rewrite of the Findings), and one whose check succeeds stops with 0 without running the command; otherwise the command runs and its status maps to 0 or -1 |
| Iptables.NftMatchWords | include/anp_iptables_wrap.h:80-82 | the nft match clause is "ip saddr" for SIP and "ip daddr" otherwise, then the value, only when both match fields are set |
| Iptables.NftIfaceWords | include/anp_iptables_wrap.h:83-85 | the nft interface clause is "iif" for "in" and "oif" otherwise, then the name, only when the name is set |
| Iptables.NftJumpWords | include/anp_iptables_wrap.h:86-94 | "snat to" or "dnat to" with the address for SNAT and DNAT, the bare target otherwise, nothing without a target |
| Ipv4.ParseIpv4 | src/bootstrap.cc:129 | inet_pton's dotted-quad reading gives four bytes when it accepts the text |
| Ipv4.IpToUint | src/bootstrap.cc:127-133 | 0xffffffff for text that is not an IPv4 address, else the number whose big-endian bytes are the address |
| Ipv4.ParseFormatIpv4 | include/anp_bootstrap.h:173-176 | the text inet_ntop writes for an address is read back by inet_pton as the same address |
| Ipv4.IpToUintOfFormat | src/bootstrap.cc:127-133 | the number of a written address is its four bytes read big-endian |
| Wire.BE32RoundTrip | src/bootstrap.cc:238-239 | ntohl of the bytes htonl wrote gives the number back |
| Wire.ReadBE32Encodes | src/bootstrap.cc:238-239 | any four bytes are the encoding of the number read from them |
| Wire.BE32Injective | src/bootstrap.cc:202-203 | different numbers never share an encoding |
| RootElection.CutLine | src/bootstrap.cc:149 | the line is cut before its first carriage return, newline or NUL |
| RootElection.IpEntries | src/bootstrap.cc:147-152 | every entry collected from the file is a non-empty row of at most 15 characters without line breaks |
| RootElection.ReadIpList | src/bootstrap.cc:140-155 | -1 when the file cannot be opened; otherwise the first max_ips entries and their number |
| RootElection.EntryLine | src/bootstrap.cc:147-151 | one line of the file yields its own entry, whether or not it fills the fgets buffer |
| RootElection.ReadJoinedLines | src/bootstrap.cc:147-152 | a file written one address per line reads back as those addresses |
| RootElection.FirstLowest | src/bootstrap.cc:333-344 | the elected entry has the least ip_to_uint value, and every earlier entry a strictly larger one |
| RootElection.ElectRoot | src/bootstrap.cc:331-345 | the loop elects the first entry of least value, and this node is root exactly when its address is the elected one |
| RootElection.RootIsAddress | src/bootstrap.cc:335-343 | when some entry is an address below 255.255.255.255, the elected entry is a valid address |
| RootElection.ElectionOrderFree | src/bootstrap.cc:335-343 | with distinct values the elected root does not depend on the order of the file |
| Handshake.SendTlv | src/bootstrap.cc:201-219 | a message is an 8-byte header followed by length payload bytes, and no payload without one |
| Handshake.RecvTlv | src/bootstrap.cc:228-247 | the header is read exactly when eight bytes are there |
| Handshake.RecvBytes | src/bootstrap.cc:620-627 | the payload is read exactly when all of it is there, and is that many bytes |
| Handshake.TlvRoundTrip | src/bootstrap.cc:201-247 | recv_tlv decodes the header send_tlv wrote to the same type and length, leaving the payload |
| Handshake.HeaderEncodes | src/bootstrap.cc:228-239 | any eight bytes are the header of the type and length read from them |
| Handshake.RootReceive | src/bootstrap.cc:262-278 | the receive thread keeps a payload only after a CONFIG_RESPONSE header, and the payload has the announced length |
| Handshake.RootReadsLeaf | src/bootstrap.cc:256-286 | the root reads the leaf's response payload and deserialises the leaf's host from it |
| Handshake.RootAcceptsOnlyResponse | src/bootstrap.cc:267-270 | the root accepts a message exactly when its type is CONFIG_RESPONSE |
| Handshake.LeafNode | src/bootstrap.cc:579-629 | the leaf ends with EXIT_SUCCESS or EXIT_FAILURE |
| Handshake.LeafNeedsRequestThenComposite | src/bootstrap.cc:579-619 | a leaf succeeds only after a PLANAR_CONFIG_REQUEST followed by a COMPOSITE_CONFIG |
| Handshake.LeafFollowsRoot | src/bootstrap.cc:579-629 | on the root's stream the leaf succeeds, answers with its serialised host as CONFIG_RESPONSE, and receives the whole composite configuration |
| Handshake.LeafChecksTypes | src/bootstrap.cc:586-619 | the leaf succeeds exactly when the types are 1 and then 3 |
| Handshake.RootSends | src/bootstrap.cc:452-522 | for ip_count - 1 leaves, a PLANAR_CONFIG_REQUEST to each in turn, then a COMPOSITE_CONFIG to each in turn |
| Handshake.StreamToPrefix | src/bootstrap.cc:476-522 | what one connection has received after any number of sends is its request and, once all requests are out, its composite |
| Handshake.EachLeafGetsRootStream | src/bootstrap.cc:476-522 | every accepted leaf receives exactly the request followed by the composite configuration |

## Left out

- Curses drawing, `getch`, `getmaxyx`, reading the JSON snapshot, the `kill -USR1`/`sync` subprocesses and `time.sleep` in tools/plugin_top.py. The terminal size, the keys and the snapshot are parameters.
- DashboardRender.WqeSizeRows: requires the largest num_wqe to be positive. When every num_wqe is 0, the source divides by zero (tools/plugin_top.py:99-102) and the dashboard stops.
- DashboardRender.StatCells: requires the largest bucket count to be positive. When every count is 0, the source divides by zero (tools/plugin_top.py:173-182). The snapshot writer emits the entries of the completion histogram's map (include/anp_state.h:231-241), and `log_time` creates each entry by incrementing it (include/anp_metrics.h:191-198), so every count in a snapshot it wrote is at least 1 and this requirement is met. The same holds for DashboardRender.PageChunks and DashboardRender.Drawable.
- DashboardState.LatencyTotalPages: requires items_per_page = max_y - 5 to be positive, so terminals under 6 rows are excluded by choice. At exactly 5 rows the source divides by zero (tools/plugin_top.py:159). Below 5 rows it floor-divides by a negative number, draws no entries and shows a page count of 0 or less; that case is not modelled. The same requirement holds for DashboardRender.DrawLatencyPage.
- DashboardRender.DrawDefaultPage: requires lines_per_page to be non-zero. A zero value (a terminal of 10 or 11 rows) divides by zero in the source.
- DashboardRender.FormatSizeUnit: Python's float division and "%.2f" are modelled exactly. The exact quotient is rounded half-to-even. Binary floating-point rounding of very large counts is not modelled.
- DashboardRender.TruncDivBounds: `int((a / b) * c)` is modelled as exact rational truncation toward zero. Float rounding in the division and the product is not modelled.
- DashboardState.QuitKeepsLatencyView: `q` only breaks the histogram sub-loop (tools/plugin_top.py:193-194). `viewing_latency_stats` stays set, so the next pass of the main loop re-enters the histogram.
- `buffer_s::generate_histogram` (include/anp_metrics.h:132-175) is not part of this model. It computes with floating point inside boost::histogram.
- TelemetryState.AnpState.Record: the uint64_t counters are unbounded naturals. Wrap-around after 2^64 updates is not modelled. Completion times are taken modulo 2^64, as the source's subtraction is.
- TelemetryState.AnpState.constructor: requires max_buckets and max_buckets - 1 to fit an int. This excludes the configured value whose conversion to int is INT_MIN, where `max_buckets - 1` overflows in the source.
- TelemetryState.LoadConfig:
  - The file arrives already parsed, as an Option (None when it cannot be opened or is not JSON).
  - Requires a configured width of at most 2^63. A larger width rounds to 0, and the source then takes log2(0) and converts it to uint32, which has no defined value.
  - The RCCL_ANP_CONFIG_FILE environment lookup is left out.
- TelemetryState.FloorLog2Bounds: the link between the floor log2 of the width and the power of two `power_of_2` computes is stated on naturals. It is not carried across the bit-vector to integer conversion.
- TelemetryState.AnpState.UpdateWqeSizeMetrics: `devices.begin()` names an unspecified device of the hash map, so that device is a parameter. The same holds for UpdateCqPollMetrics.
- A queue-pair lookup with `queue_state[qp_id]` on an unknown id inserts an empty pointer. This is modelled as the id staying absent: every reader treats both alike.
- The ptree node building of `to_json`, `write_json_to_file`, `load_histogram_config`, `time_to_str`, `update_process_name`, `update_host_name`, `shutdown` and `getpid` are not modelled. They are library output and OS calls; only the aggregate arithmetic is modelled.
- Metrics.RingBuffer.Push: requires a buffer size above 0. For a zero-size buffer the source writes into an empty vector and takes `% size_` of zero (include/anp_metrics.h:98-99), which is undefined behaviour.
- HostCodec.DeserializeHost: requires a well-formed buffer. The source reads without bounds checks (include/anp_bootstrap.h:297-357), so a short buffer is undefined behaviour. The same holds for the other Read methods and for DeserializeAllHosts.
- PlanarConfig.ParsePlanarConfig:
  - A document missing a key partway through the loops is not modelled. The source then leaves a partly updated host.
  - The JSON reading is replaced by the parsed tree.
  - The IPv6 text arrives as what inet_pton writes for it.
- `print_planar_config`, `lookup_virtual_ip`, `lookup_planar_interfaces` and the declared-only NCCL bootstrap prototypes are not modelled. They are output-only, or declarations without logic.
- `system`/`popen`, `setup_nft_nat_table`, `rule_exists` and `execute_iptables_if_not_exists` are not modelled. They are shell side effects. Iptables.Backend.Execute takes the exit statuses of the check and of the command as parameters.
- NatRules.ApplyLocal and NatRules.ApplyRemote return the rules in the order they are handed to `execute_iptables_command`. Running them is covered by Iptables.Backend.Execute.
- `get_local_ip` (interface enumeration with getifaddrs) is not modelled. The local address is a parameter of RootElection.ElectRoot.
- Sockets, connection retries, threads and the mutex of run_root_node, run_leaf_node and recv_config_thread are not modelled; neither are `main` and the files written under /tmp. A socket is the byte stream it carries.
- Handshake.LeafNode: a failed send is not modelled, only failed receives. recv_tlv is modelled with the null payload pointer every caller passes.
- The ibverbs wrappers (src/misc/ibvwrap_extn.cc, include/anp_ibvwrap.h) are not part of this model.

## Findings

| source | as written | input that shows it | evidently intended | confidence | as-written member | corrected member |
|---|---|---|---|---|---|---|
| include/anp_bootstrap.h:383 | a leaf stores the composite host table keyed by `host_name`, while the root keys it by `host_ip` (src/bootstrap.cc:286, 436), and `apply_local_vip_iptables_rule` looks up `local_ip`, a host IP | a two-host table where each host_name differs from its host_ip, e.g. hosts "node-a"/"10.0.0.1" and "node-b"/"10.0.0.2" | the leaf keys the table by `host_ip`, so it programs its own local rules and skips itself among the remote ones | not executed | NatRules.LeafTableAsWritten (with HostCodec.DeserializeAllHosts) | NatRules.LeafTableByIp (with HostCodec.DeserializeAllHostsByIp and HostCodec.TableRoundTripByIp) |
| include/anp_iptables_wrap.h:135 | `check_command.replace(pos + 1, 1, "C")` with pos at the space before "-A" replaces the '-', giving "... CA POSTROUTING ..." | the tx-SNAT rule {A, nat, POSTROUTING, SIP 10.1.0.1, out eth0, SNAT 10.0.0.1}: its check is "iptables -t nat CA POSTROUTING -s 10.1.0.1 -o eth0 -j SNAT --to-source 10.0.0.1" | replace the 'A' at pos + 2, giving the `-C` check of the same rule | not executed | Iptables.CheckOfAppendAsWritten (with Iptables.CheckCommandAsWritten) | Iptables.CheckOfAppend (with Iptables.CheckCommand) |
