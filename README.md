# plexi, the SLIP bridge and the experiment sweeper, in Dafny

This project models three pieces of a Contiki TSCH testbed.

- **The plexi scheduler interface** (`plexi.c`). This is the CoAP resource set that exposes a node's TSCH schedule, neighbours and link statistics. The model covers:
  - the "X:X:X:X" node-address codec;
  - the dense metainfo word of a statistics record and its moving-average update;
  - the `inbox_msg_lock` protocol that serialises block-wise POSTs;
  - the bounded reply buffer written by `CONTENT_PRINTF`;
  - the vicinity list, with its pheromone decay, refresh and eviction;
  - the query filter and the array-or-object framing of the link listing.
- **The SLIP fallback interface of the RPL border router** (`slip-bridge.c`). The model covers:
  - the framing of debug lines;
  - the `!`/`?` configuration and request messages;
  - the suppression of packets that would bounce back to their sender.
- **The experiment sweeper** (`generateAll.py`). It classifies each experiment directory and runs the extraction and plotting scripts on the pending ones.

Modules, one per concern:

| file | module | what it holds |
|---|---|---|
| `wrappers.dfy` | `Wrappers` | `Option` |
| `node_address.dfy` | `NodeAddress` | `na_to_linkaddr` and `linkaddr_to_na` on arrays, with a pure specification of each |
| `statistics.dfy` | `Statistics` | the metainfo getters and setters on a `PlexiStats` object, and the moving average |
| `content_buffer.dfy` | `ContentBuffer` | the `content` buffer as a class over a `char` array |
| `inbox_lock.dfy` | `InboxLock` | the lock as a state machine, and a `Handlers` class holding `inbox_msg` |
| `vicinity.dfy` | `Vicinity` | the vicinity list as a class, and the list functions it is proved against |
| `link_query.dfy` | `LinkQuery` | the link GET handler's filter and listing loops |
| `slip_bridge.dfy` | `SlipBridge` | a `Bridge` class holding `uip_buf`, `uip_len`, `last_sender`, `debug_frame` and the serial trace |
| `generate_all.dfy` | `ExperimentSweep` | the sweep as a trace of prints and `os.system` calls over a snapshot of the filesystem |

The source paths below are relative to the repository root. `plexi.c` is `examples/rich-EIT-demo-Topology/tools/plexi.c`.

## Model

| member | source | states |
|---|---|---|
| NodeAddress.NaToLinkaddr | examples/rich-EIT-demo-Topology/tools/plexi.c:2669-2695 | returns 1 exactly when the four groups are accepted. The address array ends up as the specification `ParsedAddress` says: each accepted group is stored high byte first at bytes 2i and 2i+1, and byte 0 is XORed with 0x02 only on success. A rejected text keeps the groups stored before the rejection. |
| NodeAddress.ParseRules | examples/rich-EIT-demo-Topology/tools/plexi.c:2675-2690 | a text is accepted iff it holds four digit groups, and the values stored are those groups' values. Each group is a non-empty run of hex digits within ULONG_MAX that starts before the last byte of the buffer. The first three groups end with ':' and the last with NUL. |
| NodeAddress.ParseGroups | examples/rich-EIT-demo-Topology/tools/plexi.c:2675-2690 | four such digit groups are parsed to their hex values, and the parse completes |
| NodeAddress.ParsedBytes | examples/rich-EIT-demo-Topology/tools/plexi.c:2684-2693 | on success the old address does not matter: group k gives bytes 2k (high) and 2k+1 (low), then byte 0 is flipped |
| NodeAddress.FlipUniversalLocal | examples/rich-EIT-demo-Topology/tools/plexi.c:2692-2693 | `u8[0] ^= 0x02` inverts bit 1 of byte 0 and leaves bytes 1-7 unchanged |
| NodeAddress.FlipBitTwice | examples/rich-EIT-demo-Topology/tools/plexi.c:2693 | flipping the universal/local bit twice gives the byte back |
| NodeAddress.LinkaddrToNa | examples/rich-EIT-demo-Topology/tools/plexi.c:2697-2718 | writes the 16-character `NaText(a)` and a NUL, returns 16, and leaves every byte after the NUL unchanged. In that text byte 4 is never printed, and byte 0 contributes only the first digit of `%x`. |
| NodeAddress.NaTextParse | examples/rich-EIT-demo-Topology/tools/plexi.c:2669-2718 | parsing the written text gives the four words (a0^2)·256+a1, a2·256+a3, a5 and a6·256+a7, provided the flipped byte 0 is a single hex digit |
| NodeAddress.RoundTrip | examples/rich-EIT-demo-Topology/tools/plexi.c:2669-2718 | when byte 4 is 0 and the flipped byte 0 is below 16, parsing the text that `linkaddr_to_na` writes gives the address back, whatever the output array held |
| Statistics.FieldsCoverWord | examples/rich-EIT-demo-Topology/tools/plexi.c:2358-2452 | the four fields (enable at bit 0, metric at bits 1-4, id at bits 5-9, window at bits 10-15) are in range, and packing them gives the word back |
| Statistics.PackFields | examples/rich-EIT-demo-Topology/tools/plexi.c:2358-2452 | unpacking a packed word gives each field back |
| Statistics.SetIdGetId | examples/rich-EIT-demo-Topology/tools/plexi.c:2367-2380 | after an id below 32 is stored with mask 64543, the id reads back and enable, metric and window are unchanged |
| Statistics.SetEnableGetEnable | examples/rich-EIT-demo-Topology/tools/plexi.c:2391-2404 | after an enable below 2 is stored with mask 65534, the enable reads back and the other fields are unchanged |
| Statistics.SetMetricGetMetric | examples/rich-EIT-demo-Topology/tools/plexi.c:2415-2428 | after a metric below 16 is stored with mask 65505, the metric reads back and the other fields are unchanged |
| Statistics.SetWindowGetWindow | examples/rich-EIT-demo-Topology/tools/plexi.c:2439-2452 | after a window below 64 is stored with mask 1023, the window reads back and the other fields are unchanged |
| Statistics.GetId | examples/rich-EIT-demo-Topology/tools/plexi.c:2358-2365 | a NULL record gives 0xFFFF; otherwise the result is below 32 |
| Statistics.GetEnable | examples/rich-EIT-demo-Topology/tools/plexi.c:2382-2389 | a NULL record gives 0xFF; otherwise the result is below 2 |
| Statistics.GetMetric | examples/rich-EIT-demo-Topology/tools/plexi.c:2406-2413 | a NULL record gives 0xFF; otherwise the result is below 16 |
| Statistics.GetWindow | examples/rich-EIT-demo-Topology/tools/plexi.c:2430-2437 | a NULL record gives 0xFFFF; otherwise the result is below 64 |
| Statistics.SetId | examples/rich-EIT-demo-Topology/tools/plexi.c:2367-2380 | returns 1 iff the record is not NULL and id < 32. On 1 the id reads back and the other three getters are unchanged. On 0 metainfo is unchanged. The value is never touched. |
| Statistics.SetEnable | examples/rich-EIT-demo-Topology/tools/plexi.c:2391-2404 | as SetId, for enable < 2 |
| Statistics.SetMetric | examples/rich-EIT-demo-Topology/tools/plexi.c:2415-2428 | as SetId, for metric < 16 |
| Statistics.SetWindow | examples/rich-EIT-demo-Topology/tools/plexi.c:2439-2452 | as SetId, for window < 64 |
| Statistics.UpdateEwma | examples/rich-EIT-demo-Topology/tools/plexi.c:2311-2331 | a NULL pointer does nothing. Otherwise the stored value becomes `Ewma(metric, old, new)` and metainfo is unchanged. |
| Statistics.Average | examples/rich-EIT-demo-Topology/tools/plexi.c:2320-2323 | the unsigned branch's value is the new sample when the old value is the sentinel. Otherwise it is the truncated quotient of new·10+old·90 by 100. |
| Statistics.FirstSample | examples/rich-EIT-demo-Topology/tools/plexi.c:2313-2326 | with the all-ones sentinel as old value, RSSI, LQI and ETX store the new sample |
| Statistics.UnsignedAverage | examples/rich-EIT-demo-Topology/tools/plexi.c:2321-2326 | otherwise LQI and ETX store a value between the old value and the sample, at most (new·10+old·90)/100 |
| Statistics.SignedAverage | examples/rich-EIT-demo-Topology/tools/plexi.c:2313-2318 | RSSI averages in signed 16-bit arithmetic, truncating toward zero; the result, read as signed, lies between the old value and the sample |
| Statistics.PdrQuotient | examples/rich-EIT-demo-Topology/tools/plexi.c:2326-2327 | PDR stores the largest q with q·average ≤ 25600 |
| Statistics.OtherMetricsKeep | examples/rich-EIT-demo-Topology/tools/plexi.c:2319-2330 | any other metric (ASN among them) leaves the value unchanged |
| ContentBuffer.Content.Printf | examples/rich-EIT-demo-Topology/tools/plexi.c:50-53 | appends while `content_len` is below the buffer size and keeps the buffer's invariant. `content_len` grows by the whole text length, as snprintf's result does, even when the text is cut. Once past the end, nothing is written. |
| ContentBuffer.Content.PayloadIsPrinted | examples/rich-EIT-demo-Topology/tools/plexi.c:50-53 | a reply that fits is exactly the text printed since the reset. One that overflowed holds the first size-1 characters and a NUL. |
| InboxLock.CodesDistinct | examples/rich-EIT-demo-Topology/tools/plexi.c:39-47 | the twelve lock numbers are distinct |
| InboxLock.RefusedIffLockedByOther | examples/rich-EIT-demo-Topology/tools/plexi.c:1328-1335 | a handler answers 5.03 iff another handler's lock is held, and then the state is unchanged |
| InboxLock.GuardReleases | examples/rich-EIT-demo-Topology/tools/plexi.c:168-173 | a GET or DELETE that gets past the guard resets the lock to NO_LOCK and keeps the inbox length |
| InboxLock.LockTakenOnlyForMoreBlocks | examples/rich-EIT-demo-Topology/tools/plexi.c:1350-1363 | a lock is newly taken only by a POST whose block handler answered 1, and it is the POST's own lock. A failed block (-1) or the final block leaves NO_LOCK. |
| InboxLock.OverflowRefused | examples/rich-EIT-demo-Topology/tools/plexi.c:1341-1349 | a POST is refused with 5.01 iff it is admitted, accepts JSON, and its payload would take `inbox_msg_len` past MAX_DATA_LEN |
| InboxLock.OnlyPostLocksHeld | examples/rich-EIT-demo-Topology/tools/plexi.c:1327-1363 | from a reachable state, any run of handler calls holds no lock other than NO_LOCK, LINK_POST_LOCK or STATS_POST_LOCK |
| InboxLock.PostsExclude | examples/rich-EIT-demo-Topology/tools/plexi.c:1328-1335 | while one POST reassembles its message, the other POST is refused and changes nothing |
| InboxLock.Handlers.Guard | examples/rich-EIT-demo-Topology/tools/plexi.c:168-173 | the reply and the new lock are those of `GuardStep` |
| InboxLock.NonJsonReply | examples/rich-EIT-demo-Topology/tools/plexi.c:1341-1461 | for a request that does not accept JSON, an admitted link POST sets no status and keeps the lock it found, while an admitted statistics POST answers 4.06 with the lock released |
| InboxLock.Handlers.Post | examples/rich-EIT-demo-Topology/tools/plexi.c:1327-1363 | the reply and the new lock and length are those of `PostStep`. A refused call leaves `inbox_msg` and `content` unchanged; any other call empties `content`. After the block handler, `inbox_msg` holds the message and a NUL. A first block writes a NUL at `inbox_msg[0]`. A block refused with 4.06, 5.01 or no status leaves the rest of `inbox_msg` unchanged, and a continuing message survives whole. A request that does not accept JSON gets 4.06 from the statistics POST, but no status at all from the link POST, which has no else branch. |
| Vicinity.SweepKeepsLive | examples/rich-EIT-demo-Topology/tools/plexi.c:337-351 | the intended sweep keeps exactly the decayed entries that still have pheromone, each of them, and nothing else |
| Vicinity.UpdaterSkipsSuccessor | examples/rich-EIT-demo-Topology/tools/plexi.c:344-349 | with two expired neighbours in a row, the loop as written keeps the second one, undecayed, while the intended sweep removes both |
| Vicinity.VicinityList.UpdaterAsWritten | examples/rich-EIT-demo-Topology/tools/plexi.c:337-351 | the list becomes `SweepAsWritten` of the old list, and stays within PLEXI_MAX_PROXIMATES |
| Vicinity.VicinityList.Updater | examples/rich-EIT-demo-Topology/tools/plexi.c:337-351 | the list becomes `Sweep` of the old list, and stays within PLEXI_MAX_PROXIMATES |
| Vicinity.WeakestIsFirstMinimum | examples/rich-EIT-demo-Topology/tools/plexi.c:2287-2293 | the strict `<` scan finds an entry with the least pheromone, and every entry before it has more |
| Vicinity.HeardBounded | examples/rich-EIT-demo-Topology/tools/plexi.c:2274-2305 | after traffic the list holds at most PLEXI_MAX_PROXIMATES entries, under either eviction test |
| Vicinity.HeardRefreshesOrAppends | examples/rich-EIT-demo-Topology/tools/plexi.c:2274-2305 | a known peer gets `since = now` and one more chunk of pheromone, and other entries keep theirs. An unknown peer is appended at the tail with one chunk. Without an eviction nothing else changes. |
| Vicinity.HeardKeepsPeer | examples/rich-EIT-demo-Topology/tools/plexi.c:2274-2305 | while the list is not full, the peer just heard is in the list afterwards |
| Vicinity.EvictionTakesWeakest | examples/rich-EIT-demo-Topology/tools/plexi.c:2286-2298 | an eviction removes, after the refresh, the first entry of least pheromone and only that one |
| Vicinity.ReceiveDropsLoneNeighbour | examples/rich-EIT-demo-Topology/tools/plexi.c:2235 | with `if(to_remove)` a packet from the only neighbour removes it. The `> 0` test keeps it, refreshed. |
| Vicinity.VicinityList.PacketSent | examples/rich-EIT-demo-Topology/tools/plexi.c:2259-2305 | only an acknowledged transmission changes the list, to `Heard` with the eviction test "list already full" |
| Vicinity.VicinityList.PacketReceivedAsWritten | examples/rich-EIT-demo-Topology/tools/plexi.c:2222-2254 | the list becomes `Heard` with the eviction test `count + 1 - MAX != 0` |
| Vicinity.VicinityList.PacketReceived | examples/rich-EIT-demo-Topology/tools/plexi.c:2222-2254 | the list becomes `Heard` with the send path's eviction test |
| Vicinity.VicinityList.RefreshAndCount | examples/rich-EIT-demo-Topology/tools/plexi.c:2227-2234 | every entry for the peer is refreshed, `to_add` tells whether none was, and `to_remove` is count+1-MAX |
| Vicinity.VicinityList.FindWeakest | examples/rich-EIT-demo-Topology/tools/plexi.c:2236-2242 | returns -1 for an empty list, otherwise the first entry of least pheromone |
| LinkQuery.FlagAtLeastSeven | examples/rich-EIT-demo-Topology/tools/plexi.c:1035-1059 | `flag ≥ 7` iff the link id, or all of frame, slot and channel, is queried. `flag == 0` iff nothing is. |
| LinkQuery.MatchedInIff | examples/rich-EIT-demo-Topology/tools/plexi.c:1080-1085 | a link of a slotframe is listed iff it agrees with every value queried |
| LinkQuery.MatchedIff | examples/rich-EIT-demo-Topology/tools/plexi.c:1078-1085 | across the schedule, a link is listed iff some slotframe holds it and the frame, slot, channel and id queried all agree |
| LinkQuery.IdQueryListsOne | examples/rich-EIT-demo-Topology/tools/plexi.c:990-1001 | with unique handles, a query on the link id lists at most one link, so the bare object is a single item |
| LinkQuery.IdQueryOnResource | examples/rich-EIT-demo-Topology/tools/plexi.c:1079-1192 | with unique handles, a query on the link id, on the resource itself, of a link that exists and has something to show gets exactly that link's text, with no brackets and no comma |
| LinkQuery.ListingShape | examples/rich-EIT-demo-Topology/tools/plexi.c:1079-1192 | something is listed iff a link matches and every match has something to show. The text is the comma-separated items, in brackets unless the request is on the resource itself with `flag ≥ 7`. |
| LinkQuery.GetLinks | examples/rich-EIT-demo-Topology/tools/plexi.c:1003-1203 | the lock follows `GuardStep`, and a refused request leaves `content` unchanged. Otherwise the reply is `Listing`: 4.06, 5.01 for a query naming none of the four variables, 4.04 for an unknown subresource or an empty listing, or the listed text, which `content` then holds. |
| SlipBridge.Bridge.Putchar | examples/rich/rpl-bridge/slip-bridge.c:156-181 | returns c. It writes SLIP_END and '\r' when no debug frame is open, then the low byte of c, then SLIP_END after '\n'. Afterwards a frame is open iff c is not '\n'. |
| SlipBridge.InsideFrame | examples/rich/rpl-bridge/slip-bridge.c:162-175 | inside an open frame, characters other than '\n' go out verbatim |
| SlipBridge.LineIsOneFrame | examples/rich/rpl-bridge/slip-bridge.c:156-181 | a debug line is one frame: the opening SLIP_END and '\r' unless a frame is open, the characters, '\n', SLIP_END. After it no frame is open. |
| SlipBridge.HexTextRoundTrip | examples/rich/rpl-bridge/slip-bridge.c:84-88 | the '?M' digits are lowercase hex, high nibble first, and reading them back gives the link-layer address |
| SlipBridge.Bridge.WriteHex | examples/rich/rpl-bridge/slip-bridge.c:86-88 | `uip_buf[2..18]` becomes the hex text of the address and nothing else changes |
| SlipBridge.Bridge.InputCallback | examples/rich/rpl-bridge/slip-bridge.c:64-121 | '!' consumes the message (`uip_len = 0`), and only '!A' calls `set_bridge_addr` with bytes 2..17. '?M' sends "!M" and 16 hex digits (18 bytes). '?A' sends "!A", the address and the prefix length (19 bytes), or, with no preferred address, sends nothing and keeps `uip_len`. Any other '?' only zeroes `uip_len`. Every call records the packet's source as `last_sender`. Every path prints debug lines ending in '\n', so no debug frame is open afterwards. |
| SlipBridge.PrefixLength | examples/rich/rpl-bridge/slip-bridge.c:103-109 | the DAG's prefix length, or 64 when it is 0 or there is no DAG; never 0 |
| SlipBridge.Bridge.Output | examples/rich/rpl-bridge/slip-bridge.c:133-149 | no packet goes out when its source is `last_sender`. Otherwise the packet is sent, followed by a '\n' through putchar that opens and closes a debug frame of its own. Both branches print a debug line ending in '\n' first, so no debug frame is open afterwards. |
| ExperimentSweep.Extract | examples/tsch-testbed/testbed-scripts/generateAll.py:8-30 | the trace is the header line, then each listed entry's actions, in listing order |
| ExperimentSweep.EntryEffects | examples/tsch-testbed/testbed-scripts/generateAll.py:12-30 | an entry runs extraction then plotting on its path iff it has log.txt, no `ongoing` and no plots/allplots.pdf, and otherwise runs no command. Either way it ends exactly one line, with its status. |
| ExperimentSweep.SweepCommands | examples/tsch-testbed/testbed-scripts/generateAll.py:11-30 | the sweep's commands are exactly the extraction and plotting of each pending entry, in listing order; exit statuses play no part |
| ExperimentSweep.SweepLines | examples/tsch-testbed/testbed-scripts/generateAll.py:11-30 | the sweep ends one line per listed entry, and the i-th ends with the i-th entry's status, so each entry is visited once, in order |
| ExperimentSweep.RerunFindsDone | examples/tsch-testbed/testbed-scripts/generateAll.py:21-23 | once plots/allplots.pdf exists, a pending directory is classified as already done |
| ExperimentSweep.ScenarioA | examples/tsch-testbed/testbed-scripts/generateAll.py:15-17 | a directory without log.txt is not an experiment |
| ExperimentSweep.ScenarioB | examples/tsch-testbed/testbed-scripts/generateAll.py:18-20 | log.txt and `ongoing` make it ongoing |
| ExperimentSweep.ScenarioC | examples/tsch-testbed/testbed-scripts/generateAll.py:21-23 | log.txt, no `ongoing`, and plots/allplots.pdf make it already done |
| ExperimentSweep.ScenarioD | examples/tsch-testbed/testbed-scripts/generateAll.py:24-30 | log.txt alone makes it pending |
| ExperimentSweep.Scenario | examples/tsch-testbed/testbed-scripts/generateAll.py:11-30 | in a four-directory example only the pending directory triggers commands: extraction, then plotting |

## Left out

- The CoAP engine: the Accept header, payload access, query and URI parsing, and `coap_block1_handler`. The handler's inputs (accept, payload length, block result, reassembled message, which query variables are present and their values, and which subresource is named) are parameters. A missing URI (`uri_len <= 0`) is not modelled; it selects the statistics subresource, which the renderer covers.
- `REST_MAX_CHUNK_SIZE` clamping of the payload: `Payload` describes what is handed over, clamped to the buffer size.
- The text of one listed link: it depends on the JSON labels and on the link's options, type, target address and statistics. It is given as a renderer function with the request. Its one error (no target address or no statistics, answered with 4.04) is the renderer returning None. The labels come from `plexi.h`, which is not part of this model.
- The POST handlers after the lock: JSON parsing by jsonparse and the schedule changes. They are foreign code.
- `tsch_schedule_*`, `nbr_table_*`, `uip_ds6_*`, `rpl_get_any_dag`, `packetbuf_*`: their results are parameters (an abstract schedule, the preferred global address, the DAG's prefix length, the peer, whether the transmission was acknowledged).
- `clock_time()`: each event is given one `now`. The source reads the clock again for every refreshed or appended entry, and those readings can differ by a tick.
- `memb_alloc` and `memb_free`: the list is a sequence, so a failing allocation is not modelled.
- The statistics updates inside `plexi_packet_sent` and `plexi_packet_received`: how they pick the record and the sample (RSSI as int16, LQI, 256·transmissions) is foreign packetbuf access. `Statistics.UpdateEwma` is the operation they call.
- The non-dense statistics mode: the `#if` at plexi.c:2360 groups as `MODE & 1`. Only the dense branch is modelled.
- `plexi.h` widths: metainfo and `plexi_stats_value_t` are taken as 16 bits, the metric codes as distinct abstract values, and `clock_time_t` as 32 bits. C's `int` is taken as at least 32 bits wide. With a 16-bit `int`, the unsigned sum `new_value * 10 + old * 90` at plexi.c:2322 would wrap modulo 2^16, and the signed RSSI sum at plexi.c:2316 would overflow. The model evaluates both without overflow. The pheromone of a proximate is taken as an unbounded signed integer; the next line says what that leaves out.
- The pheromone's C type is declared in `plexi.h`, which is not part of this model. If the field is unsigned, as the `%u` at plexi.c:309 and plexi.c:317 suggests, `-= PLEXI_PHEROMONE_DECAY` at plexi.c:342 wraps instead of going negative, and `<= 0` at plexi.c:344 then removes an entry only when it is exactly 0. Whatever the width, `+= PLEXI_PHEROMONE_CHUNK` at plexi.c:2230 and plexi.c:2281 has no cap, so a busy neighbour's pheromone overflows. Neither wrap-around is modelled. `Decayed`, `Expired`, `Refresh` and the `<` comparison of `Weakest`, and the lemmas about them, describe the source only while the pheromone stays within its C range.
- strtoul: leading blanks, a sign, the "0x" prefix and a stale `errno` are not modelled. ERANGE is taken to occur exactly when the value exceeds a 32-bit ULONG_MAX.
- NodeAddress.RoundTrip: it holds only when byte 4 is 0 and the flipped byte 0 is a single hex digit. The source never prints byte 4, and it keeps only the first digit of byte 0.
- Statistics.UpdateEwma: PDR requires a non-zero average, because `100*256/v` with v == 0 is undefined in C.
- The link GET's `id < 0`, `frame < 0`, `slot < 0` and `channel < 0` tests compare unsigned values, so they are always false and are left out.
- The queue GET handler (plexi.c:2503) never consults the lock, so it has no part in the lock protocol.
- slip-bridge I/O: `slip_arch_init`, `process_start` and the bytes `slip_send` puts on the wire. A sent frame is recorded as the first `uip_len` bytes of `uip_buf`. `UIP_LLH_LEN` is taken as 0, so the IP source address sits at bytes 8..23.
- The text of debug lines: slip-bridge.c:54 sets DEBUG to DEBUG_PRINT, so every `PRINTF` in `slip_input_callback` and `output` is a `printf` through putchar. The trace leaves out the bytes of those lines, which carry formatted numbers and addresses. It keeps only their effect on putchar's frame state: each ends with '\n', so both operations leave no debug frame open. The one exception is the `printf("\n")` in `output`, whose bytes are in the trace.
- `printubin` and `printsbin` in plexi.c: logging only.
- generateAll.py I/O: `os.listdir` is a given listing, `os.path.exists` is membership in a snapshot set of paths, and `os.system` is a trace entry. The external scripts are not modelled and never change the snapshot.

## Findings

| source | as written | input that shows it | evidently intended | confidence | as-written member | corrected member |
|---|---|---|---|---|---|---|
| examples/rich-EIT-demo-Topology/tools/plexi.c:346 | after unlinking an expired entry the loop sets `p = p->next` and then the for-increment advances again, so the successor is neither decayed nor removed in this pass | two neighbours, both older than the window with pheromone 1 and decay 1: the successor survives with its old pheromone (`Vicinity.UpdaterSkipsSuccessor`) | every entry is decayed once and every expired entry is removed | not executed | Vicinity.VicinityList.UpdaterAsWritten | Vicinity.VicinityList.Updater |
| examples/rich-EIT-demo-Topology/tools/plexi.c:2235 | the receive path evicts when `to_remove` (count + 1 - MAX) is non-zero, so it evicts on every list not holding exactly MAX-1 entries | a list holding only neighbour A, with MAX 4, receiving from A: A is refreshed and then evicted, leaving an empty list (`Vicinity.ReceiveDropsLoneNeighbour`) | evict only when the list is full, `to_remove > 0` as on the send path | not executed | Vicinity.VicinityList.PacketReceivedAsWritten | Vicinity.VicinityList.PacketReceived |
