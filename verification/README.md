# Per-source traffic aggregator of the network monitor

This project models, in Dafny, the core of `NetworkMonitor` in
`network_monitor.py`: the table of per-source counters that every captured IP
packet updates, the periodic window rotation that turns each recent source's
counters into a 7-element feature vector and clears the table, and the feature
extraction itself.

- `traffic.dfy` (module `Traffic`): the abstract packet (IP layer present,
  source address, frame length, TCP layer and its control bits, UDP layer);
  the counter record (`packet_count`, `total_bytes`, `tcp_count`, `udp_count`,
  `syn_count`, `last_seen`); the fold of one packet into a record (`Count`)
  and into the table (`Ingest`). The table is a value `Table(order, stats)`:
  a Python dictionary is a mapping plus the order its keys were first
  inserted, and that order is the order the rotation walks. A `defaultdict`
  read of a missing source gives the all-zero record `Zero` (`Lookup`). The
  SYN test is the SYN bit (0x02) of the TCP control-bits octet, as in
  section 3.1 of RFC 9293. A stream of timed events (`IngestAll`) is related
  to a per-packet classification of the events (`Tally`, `BytesFrom`).
- `features.dfy` (module `Features`): `Extract`, the ordered vector
  `[packet count, average size, TCP share, UDP share, SYN share of TCP,
  packet rate, byte rate]`. Division is exact division on `real`, with the
  count ratios dividing by `max(count, 1)`.
- `window.dfy` (module `Window`): `Emitted`, the list one rotation builds,
  and the lemmas about which sources it contains and in what order.
- `monitor.dfy` (module `Monitor`): class `NetworkMonitor`. Its fields are the
  window length, the table's key order and records, and the running flag.
  Each locked block of the source is one atomic method: `ProcessPacket` and
  `AnalyzeWindow`. Both are proved against the functions above. The current
  time is a parameter `now`. `AnalyzeWindow` returns the list of
  `(source, features)` pairs that the source passes to its callback one by one.

The rotation keeps only the sources with `now - last_seen <= window_size`
(network_monitor.py:73), even though it clears the whole table every time
(network_monitor.py:79). A source whose last packet is older than the window is
therefore dropped, not emitted and not carried into the next window.
`AnalyzeWindow` and `Emitted` apply that test. `NoEventLost` shows that nothing
is lost when every event of the window lies within `window_size` of the
rotation time. `StaleSourceDropped` shows that a source which went quiet for
longer than the window is absent from that rotation's output. The code does not
validate `window_size` (see "Left out").

## Model

| member | source | states |
|---|---|---|
| Traffic.HasSyn | network_monitor.py:59 | the SYN test holds exactly when bit 1 (from the least significant) of the TCP control-bits octet is set |
| Traffic.Count | network_monitor.py:50-62 | one IP packet adds 1 to packet_count and its length to total_bytes and sets last_seen to now; a TCP packet adds 1 to tcp_count and, only with the SYN bit set, 1 to syn_count; a non-TCP UDP packet adds 1 to udp_count only; any other packet touches no protocol counter; a consistent record stays consistent |
| Traffic.Ingest | network_monitor.py:44-62 | a frame without an IP layer leaves the table unchanged; otherwise the source's record (all zero if absent) is folded with the packet, a new source is appended to the key order, every other source's record is unchanged, and the table invariant (distinct keys, keys = records, tcp + udp <= packets, syn <= tcp) is preserved |
| Traffic.Lookup | network_monitor.py:14-50 | a source present in the table reads its stored record; a source missing from the table reads as the all-zero record; on a well-formed table every record read is consistent |
| Traffic.IngestAllWellFormed | network_monitor.py:14-62 | folding any stream of packets keeps the table invariant |
| Traffic.IngestAllTallies | network_monitor.py:50-62 | after a stream of events, each counter of a source has grown by exactly the number (for total_bytes: the summed length) of that source's IP packets of the matching kind, so no event is lost or counted twice |
| Traffic.FreshWindowTallies | network_monitor.py:14-62 | starting from the cleared table, each source's record holds exactly the tallies of the events it sent, with nothing carried over |
| Traffic.IngestAllKeys | network_monitor.py:46-50 | a source has a record after a stream exactly when it had one before or sent at least one IP packet |
| Traffic.IngestAllRecent | network_monitor.py:51 | if every event lies within the window before now, every record's last_seen does too |
| Features.AtLeastOne | network_monitor.py:89-92 | the ratio divisor max(n, 1) is at least 1 and at least n, equals n when n >= 1, and is 1 when n is 0 |
| Features.Ratio | network_monitor.py:89-94 | each quotient times its positive divisor gives back the dividend, and is never negative |
| Features.Extract | network_monitor.py:85-96 | exactly 7 features in fixed order: f0 is the packet count; f1, f2, f3 times max(packets, 1) give total bytes, TCP count, UDP count; f4 times max(tcp, 1) gives the SYN count; f5 and f6 times the window give the packet count and total bytes |
| Features.FeaturesNonNegative | network_monitor.py:87-95 | every feature of every record is non-negative |
| Features.ShareInUnitInterval | network_monitor.py:90-92 | a count divided by a divisor it does not exceed is at most 1 |
| Features.RatioSum | network_monitor.py:90-91 | the TCP and UDP shares over the same divisor add up to the share of their sum |
| Features.SharesAreProportions | network_monitor.py:90-92 | on a consistent record the TCP, UDP and SYN shares each lie in [0, 1] and TCP share + UDP share <= 1 |
| Features.NoTcpSynShare | network_monitor.py:92 | with no TCP packets the SYN share is the SYN count divided by 1, no division by zero, and 0 on a consistent record |
| Features.AveragesOverPackets | network_monitor.py:89-91 | with at least one packet, f1 is total bytes over packets (the mean size) and f2, f3 are plain fractions of the packet count |
| Features.RatesFromCounts | network_monitor.py:93-94 | for every record the packet rate is f0 over the window; when the source sent at least one packet the byte rate is f1 * f0 over the window |
| Features.WorkedExample | network_monitor.py:87-95 | 10 packets (6 TCP, 2 of them SYN, 4 UDP), 1500 bytes, window 60 give [10, 150, 0.6, 0.4, 1/3, 1/6, 25] |
| Traffic.Recent | network_monitor.py:73 | the staleness test of the rotation: for any non-negative window, a record touched at or after now is recent |
| Traffic.RecentEarlier | network_monitor.py:73 | a record recent at some time was recent at every earlier time, so recency only expires as time moves on |
| Window.Emitted | network_monitor.py:70-77 | the rotation output has no more pairs than listed keys |
| Window.Rotation | network_monitor.py:70-77 | the rotation output of a well-formed table has at most one pair per key, every pair is a recent table source with its own record's features, and no source appears twice |
| Window.EmittedMember | network_monitor.py:72-76 | a pair (ip, f) is emitted if and only if ip is in the table, now - last_seen <= window, and f is the features of ip's record |
| Window.EmittedFromTable | network_monitor.py:72-76 | every emitted pair belongs to a table source, that source was recent, and its vector comes from that source's pre-rotation record |
| Window.EmittedOncePerSource | network_monitor.py:72-76 | with distinct keys, no source is emitted twice |
| Window.EmittedInTableOrder | network_monitor.py:72-76 | two recent sources are emitted in the table's key order, the order they first sent a packet |
| Window.AllRecentAllEmitted | network_monitor.py:73-76 | when every record is recent, every source is emitted |
| Window.EmptyWindowEmitsNothing | network_monitor.py:70-76 | the empty table yields the empty list, so no callback is made |
| Window.NoEventLost | network_monitor.py:50-76 | when every event of a window lies within the window, a source that sent n IP packets since the last clear is emitted, with f0 = n, and its record's byte, TCP, SYN and UDP counters equal the tallies of its events |
| Window.StaleSourceDropped | network_monitor.py:72-79 | a source whose last packet is older than the window is not in the output of that rotation |
| Monitor.NetworkMonitor.constructor | network_monitor.py:11-16 | a new monitor has the given window (60 by default), an empty table and the running flag set |
| Monitor.NetworkMonitor.StopMonitoring | network_monitor.py:29-30 | the running flag is cleared; the table is untouched |
| Monitor.NetworkMonitor.ProcessPacket | network_monitor.py:40-62 | once stopped the table is unchanged; otherwise the new table is Ingest of the old one, and the table invariant holds |
| Monitor.NetworkMonitor.AnalyzeWindow | network_monitor.py:68-79 | the returned list is Emitted over the pre-rotation table in key order, and afterwards the table is empty |
| Monitor.RotateThenFold | network_monitor.py:79 | a packet folded after a rotation starts its source's record from zero: one packet, its own length, nothing carried over |

## Left out

- Packet capture (`sniff`, network_monitor.py:34-38) and scapy's packet dissection: a packet is the datatype `Traffic.Packet`. A failing capture is only printed by the source and has no effect on the table.
- Threads, daemon flags, `join` and the lock (network_monitor.py:15-32, 45, 68): each locked block is one atomic method, so the interleaving of the two threads and the packet that races a rotation are not modelled. `StopMonitoring` models only the flag; `start_monitoring` only launches threads and is left out.
- The analysis loop `while self.is_running: time.sleep(...)` (network_monitor.py:65-66): one iteration is one call of `AnalyzeWindow`. The loop does not check the flag inside a rotation, and `AnalyzeWindow` does not check it either.
- `time.time()` and its truncation to whole seconds (network_monitor.py:47, 69): the caller passes the integer time `now`.
- The callback (network_monitor.py:12, 83): it is downstream code. `AnalyzeWindow` returns the list the callback would receive, in order.
- Python float rounding in the feature vector (network_monitor.py:89-94): features are exact rationals (`real`).
- Monitor.NetworkMonitor.constructor: requires a positive integer window. The source accepts any value. A zero window divides by zero in the rates, a negative one makes `time.sleep` raise, and a fractional window is not modelled.
- The zero-valued entries that a `defaultdict` read adds to a record inside `_extract_features`: they do not change any value that is read.
- app.py (web front end, model loading and scoring, e-mail alerts) and streamlitapp/advanced_alert_system.py (autoencoder, random traffic simulator, dashboard, configuration and alerts, a bounded history deque): I/O, a trained model and UI, outside the aggregator.
