# WILC host-interface control plane in Dafny

This project models the host-interface layer of the WILC Wi-Fi driver (`hif.c`). That layer sits between
cfg80211 and the chip's firmware. It turns management requests (scan, join, disconnect, remain on channel,
station and beacon management, configuration) into WID (Wireless ID) messages for the firmware. It turns
the firmware's event frames (network info, general async info, scan complete) back into work items. It also
keeps, per virtual interface, the connection state machine `hif_state` with the fields that go with it.

The model has four parts:

- **State machine** (`host_if.dfy`, `driver.dfy`, `host_trace.dfy`).
  - A device is a sequence of interfaces, a log of WID packets sent and a log of user callbacks fired.
  - Each interface has its `vif->idx`, its `connecting` flag and, once `wilc_init` ran, a driver record. The
    record holds `hif_state`, `assoc_bssid`, whether a scan and a connect callback are registered, the
    connection attributes, the request and response IEs, the scan and connect timers, and the
    remain-on-channel attributes.
  - Every handler is a pure step function (`HostIf.*Step`), because the driver's single ordered workqueue runs
    each handler to completion before the next one starts.
  - `Driver.Wilc` is the same state as a class whose fields the handler methods update in place. Each method
    is proved to reach the state its step function describes.
  - `HostTrace` folds the handlers over event sequences and proves facts about every reachable device.
- **WID payload encoders** (`scan_encoding.dfy`, `station_encoding.dfy`, `config_encoding.dfy`,
  `join_params.dfy`, with `bytes.dfy` and `wids.dfy`).
  - The byte layouts the firmware consumes are specification functions.
  - The cursor loops that fill the buffers are methods on arrays, proved to write those layouts.
  - Each layout is paired with a parser that shows the firmware reads every field back.
- **Interface index mapping** (`vif_index.dfy`): the off-by-one between `vif->idx` and the firmware's index.
- **Event-frame decoding** (`event_frames.dfy`): the trailing LE32 interface index and the fields the three
  `*_received` receivers read before they queue a work item.

Inputs:

- The result of `wilc_send_config_pkt` is a parameter `sendRes` of every operation that sends.
- Allocation outcomes are boolean parameters (`allocOk`).
- Timers firing and firmware events arriving are explicit events.

Constants that `hif.c` takes from headers that are not part of this model keep their header values:

- `WILC_NUM_CONCURRENT_IFC` 2, `WILC_MAX_RATES_SUPPORTED` 12, `WILC_ADD_STA_LENGTH` 40;
- `sizeof(struct ieee80211_ht_cap)` 26, `sizeof(struct wilc_set_multicast)` 16;
- `WILC_HIF_SCAN_TIMEOUT_MS` 5000, `WILC_FALSE_FRMWR_CHANNEL` 100;
- MAC status DISCONNECTED 0 and CONNECTED 1, `WLAN_STATUS_SUCCESS` 0, `WILC_FW_AUTH_SAE` 7,
  `WILC_FW_PASSIVE_SCAN` 0;
- errno values EBUSY 16, EFAULT 14, ENOMEM 12, EINVAL 22, returned negated.

Where the code and the natural reading of the state machine differ, the model follows the code:

- No handler ever assigns `HOST_IF_SCANNING`. The state is only tested (hif.c:424, hif.c:930, hif.c:1110), and a
  pending scan is visible only as a registered scan callback. `HostTrace.RunNeverScanning` proves that no
  sequence of handlers reaches SCANNING. `HostTrace.ScanningTestsAreDead` draws the consequences: a join is
  never refused for a scan in progress, and the scan-abort loop of `wilc_disconnect` does nothing.
- A join is therefore accepted while a scan is pending. When that scan completes, the interface moves from
  WAITING_CONN_RESP to IDLE with the connect timer still armed. The firmware's CONNECTED status is then
  ignored (`HostTrace.JoinOverriddenByScanCompletion`).
- When sending the scan WIDs fails, the scan callback stays registered and no timer is armed.
- A failed send does not always complete the transition:
  - `wilc_disconnect` returns before it touches the state;
  - a failed join keeps the state and releases the request IEs;
  - a failed remain-on-channel expiry returns -EINVAL without firing the expiry callback.
- No code in `hif.c` arms the listen timer.

## Model

| member | source | states |
|---|---|---|
| Bytes.GetLE16OfLE16 | hif.c:1966 | reading a little-endian 16-bit field back gives the value written, as `get_unaligned_le16` inverts `put_unaligned_le16` |
| Bytes.GetLE32OfLE32 | hif.c:1950 | reading a little-endian 32-bit field back gives the value written |
| Wids.Put | hif.c:1270-1281 | the cursor copy writes exactly the source bytes at the cursor, leaves every other byte alone and advances by their count |
| ScanEncoding.SsidProbeValueFits | hif.c:306-328 | the count octet plus one length octet and the bytes of each SSID fill exactly Σ(len+1)+1 bytes |
| ScanEncoding.SsidProbeRoundTrip | hif.c:306-328 | the firmware reads back exactly the probed SSIDs, in request order |
| ScanEncoding.FillSsidProbe | hif.c:306-328 | the fill loop writes the count octet followed by each SSID's length octet and bytes |
| ScanEncoding.SsidProbeSizeAsWrittenExact | hif.c:306-328 | the u8 `valuesize` matches the value's length exactly when Σ(len+1) stays below 256 |
| ScanEncoding.SsidProbeSizeWraps | hif.c:306-328 | eight 32-byte SSIDs need 265 bytes, but the u8 size is 9 |
| ScanEncoding.RebaseChannels | hif.c:362-367 | every non-zero channel number is decremented by one in place, zero entries are kept |
| StationEncoding.StaRecordRoundTrip | hif.c:1058-1084 | the firmware recovers bssid, aid, rates, the HT capability when present and both flag words, whatever the unwritten HT slot holds |
| StationEncoding.PackStaParam | hif.c:1058-1084 | the cursor fills WILC_ADD_STA_LENGTH + rates_len bytes with the station record; the HT slot keeps its old bytes for a non-HT station |
| StationEncoding.PackStaHead | hif.c:1060-1070 | bssid, LE16 aid, the rate count and the rates, with the rest of the buffer unchanged |
| StationEncoding.PackStaTail | hif.c:1072-1083 | the HT flag, the HT capability slot and the two LE16 flag words, with the bytes before and after unchanged |
| StationEncoding.PackHtSlot | hif.c:1072-1079 | the HT flag octet and, only for an HT station, the capability; the cursor skips the slot either way |
| StationEncoding.FillDelAllSta | hif.c:2345-2362 | the loop counts the non-zero addresses and leaves each one in its own slot of the zeroed structure |
| StationEncoding.DelAllStaAsWrittenLosesStation | hif.c:2346-2367 | with a zero address first and a station second, the firmware reads one zero address and never the station |
| StationEncoding.DelAllStaValueRoundTrip | hif.c:2346-2367 | in the corrected layout the count and the packed addresses give back exactly the non-zero addresses, in order |
| StationEncoding.DelAllStaAsWrittenWhenPacked | hif.c:2346-2367 | the layout as written and the corrected one agree whenever the non-zero addresses come first |
| StationEncoding.FillDelAllStaPacked | hif.c:2345-2367 | the corrected loop writes the count and the non-zero addresses back to back, so the sent prefix is the corrected value |
| ConfigEncoding.McastRoundTrip | hif.c:1266-1281 | the firmware reads back the enabled flag and the address list from the filter value |
| ConfigEncoding.FillMcast | hif.c:1273-1281 | the cursor writes LE32 enabled, LE32 count and, when count > 0 and a list exists, the addresses; other bytes are kept |
| ConfigEncoding.BeaconRoundTrip | hif.c:2161-2186 | the firmware recovers the interval, DTIM period, head and tail from the beacon value |
| ConfigEncoding.FillBeacon | hif.c:2161-2186 | the cursor fills the zeroed buffer of head_len + tail_len + 16 bytes with the beacon layout |
| ConfigEncoding.OperationModeDecodes | hif.c:1728 | for an interface id 0 or 1, bit 0 of the byte `ifc_id` OR `mode << 1` is the id and bits 1-7 are the low seven mode bits |
| ConfigEncoding.CfgWidsExact | hif.c:1816-1851 | at most four WIDs; each parameter appears, with its value, exactly when its flag is set |
| JoinParams.SuppRatesTakesFirstRates | hif.c:593-617 | the rate set is the first 12 rates of Supported Rates followed by Extended Supported Rates, prefixed by the count, with the unused slots zero |
| JoinParams.FillSuites | hif.c:590-591 | the suites start as 0xFF and, when an RSN or WPA element was found, hold the low octet of each of the first three suites |
| JoinParams.Mode80211i | hif.c:663-673 | the 802.11i mode is 2 when an RSN element is present, 1 when only a WPA element is, and 0 when neither is |
| VifIndex.GetVifIdx | hif.c:156-159 | the firmware index is vif->idx + 1, so it lies in 1..WILC_NUM_CONCURRENT_IFC for a valid interface |
| VifIndex.GetVifFromIdx | hif.c:166-180 | an index outside 1..WILC_NUM_CONCURRENT_IFC names no interface; otherwise the walk returns the first interface whose vif->idx is one less |
| VifIndex.VifIdxRoundTrip | hif.c:156-180 | in a list with distinct valid indices, mapping an interface to its firmware index and back gives that interface; index 0 gives none |
| EventFrames.FrameVifIdOfTrailer | hif.c:1950 | a frame ending in the LE32 index of an interface names that index |
| EventFrames.Destination | hif.c:1950-1960 | a frame shorter than four bytes has no trailer; a receiver is an interface whose firmware index matches the trailer and which has a driver |
| EventFrames.NetworkInfoReceived | hif.c:1941-1984 | a queued item is for the frame's interface with frame_len = le16(buf[6]) - 1 (u16), rssi = buf[8] and the management frame from buf[9] |
| EventFrames.NetworkInfoRoundTrip | hif.c:1966-1968 | a frame carrying a management frame, its length plus one and the RSSI is queued to its interface with exactly those fields |
| EventFrames.AsyncInfoReceived | hif.c:1986-2034 | an item is queued only for an interface with a connect callback, and carries buf[7] as the MAC status |
| EventFrames.AsyncInfoRoundTrip | hif.c:2022 | the MAC status at offset 7 reaches the receiving interface's handler |
| EventFrames.ScanCompleteReceived | hif.c:2036-2073 | an item is queued exactly when the trailer names an interface with a driver and a scan callback, and it reports DONE |
| HostIf.ScanDoneStep | hif.c:182-225 | DONE moves to IDLE or CONNECTED by whether assoc_bssid is zero; ABORTED keeps the state and sends one ABORT_RUNNING_SCAN; a registered scan callback fires once and is cleared |
| HostIf.ScanStep | hif.c:254-402 | refused with -EBUSY when any live interface is neither IDLE nor CONNECTED or this one is connecting, with nothing changed; otherwise the callback is registered, the WIDs go out (the SSID WID with the source's u8 size) and the timer is armed only on success |
| HostIf.ScanWidsExact | hif.c:306-328 | for every admitted scan request each WID sent declares exactly the length of its value, so the u8 SSID size does not wrap |
| HostIf.ConnectWidStep | hif.c:404-497 | refused with -EBUSY while any interface is SCANNING; on success the state becomes EXTERNAL_AUTH for SAE and WAITING_CONN_RESP otherwise; on any failure the request IEs are released and the state is kept |
| HostIf.JoinStep | hif.c:1660-1696 | the BSSID is recorded in every case; a failed IE copy returns -ENOMEM having sent nothing; otherwise -EBUSY while any interface is SCANNING, else one connect WID list over the updated record is sent and the result is the send's; success waits for SAE or the response with the connect timer armed; any failure keeps state and timer and releases the IEs |
| HostIf.RecordedJoinStep | hif.c:1667-1695 | with the BSSID and IE copy recorded, the request goes out over the updated record: -EBUSY and nothing sent while scanning, otherwise the send's result, the timer armed and the state advanced only on success |
| HostIf.ConnectCancelStep | hif.c:499-514 | a registered connect callback hears one disconnect notice and the interface ends IDLE with a zero BSSID and no request IEs |
| HostIf.ConnectTimeoutStep | hif.c:516-557 | the interface ends IDLE, the connect callback hears DISCONNECTED once, one WID_DISCONNECT is sent and the request IEs are released |
| HostIf.ParseAssocRespStep | hif.c:779-835 | the connect callback fires once; the state becomes CONNECTED with assoc_bssid := the connection's BSSID exactly when the status is CONNECTED and the association succeeded, else IDLE; all IEs end released with length 0 |
| HostIf.HandleDisconnectStep | hif.c:837-862 | a pending scan is aborted once, a registered connect callback hears the disconnect, and the interface ends IDLE with a zero BSSID |
| HostIf.AsyncInfoStep | hif.c:864-908 | dropped without a connect callback; EXTERNAL_AUTH goes to WAITING_CONN_RESP; WAITING_CONN_RESP completes the attempt; DISCONNECTED tears down a link or aborts a pending scan, and changes nothing when there is neither; any other status outside those states changes nothing |
| HostIf.AbortScanningFrom | hif.c:921-937 | the loop keeps every interface's index, connecting flag and driver presence, and changes nothing when no interface is SCANNING |
| HostIf.DisconnectStep | hif.c:910-991 | a failed send returns its error with the interface untouched; success leaves IDLE, a zero BSSID, no request IEs and no connect callback, a pending scan reported ABORTED once and an attempt reported DISCONNECTED once |
| HostIf.RemainOnChanStep | hif.c:1086-1164 | granted only when every live interface is IDLE or CONNECTED and this one is not connecting; a grant sends [1, ch] and enters P2P_LISTEN |
| HostIf.RocExpiredStep | hif.c:1166-1209 | only P2P_LISTEN acts: it sends [0, 100], fires the expiry callback once and returns to IDLE or CONNECTED by assoc_bssid; any other state changes nothing and returns 0 |
| HostIf.ListenExpiredStep | hif.c:2097-2107 | an interface without a driver gets -EFAULT; otherwise the expiry runs |
| HostIf.InitStep | hif.c:1876-1908 | the interface gets a fresh IDLE driver with a zero BSSID and no callbacks, or -ENOMEM and no change |
| HostIf.DeinitStep | hif.c:1910-1939 | a pending scan is reported ABORTED once and the driver is freed; nothing else changes |
| HostIf.ScanTimerStep | hif.c:1339-1349 | the scan timer firing aborts the scan as scan done with ABORTED |
| HostIf.ScanCompleteStep | hif.c:1351-1361 | the firmware's scan completion cancels the timer and settles the state by assoc_bssid, clearing the callback |
| HostTrace.RunNeverScanning | hif.c:182-2107 | from a device with no interface SCANNING, every sequence of handlers keeps it so, keeps the interfaces and only appends to the logs |
| HostTrace.ScanningTestsAreDead | hif.c:423-431 | in every reachable device a join is never refused for scanning, and the scan-abort loop of a disconnect changes nothing |
| HostTrace.JoinOverriddenByScanCompletion | hif.c:404-497 | a join accepted during a pending scan is moved to IDLE by the scan's completion with the connect timer still armed, after which a CONNECTED status is ignored |
| Driver.Wilc.AnyBusy | hif.c:274-293 | the list walk reports busy exactly when some live interface is neither IDLE nor CONNECTED |
| Driver.Wilc.AnyScanningNow | hif.c:415-431 | the list walk reports exactly whether some live interface is SCANNING |
| Driver.Wilc.Scan | hif.c:254-402 | the in-place handler, sizing the SSID buffer and WID by the source's u8 sum, reaches the state of HostIf.ScanStep and rebases the caller's channel list exactly when the scan is not refused |
| Driver.Wilc.ScanDone | hif.c:182-225 | the in-place handler reaches the state of HostIf.ScanDoneStep |
| Driver.Wilc.ScanTimer | hif.c:1339-1349 | the in-place handler reaches the state of HostIf.ScanTimerStep |
| Driver.Wilc.ScanComplete | hif.c:1351-1361 | the in-place handler reaches the state of HostIf.ScanCompleteStep |
| Driver.Wilc.Join | hif.c:1660-1696 | the in-place handler reaches the state of HostIf.JoinStep |
| Driver.Wilc.ConnectWid | hif.c:404-497 | the in-place handler reaches the state of HostIf.ConnectWidStep |
| Driver.Wilc.ConnectCancel | hif.c:499-514 | the in-place handler reaches the state of HostIf.ConnectCancelStep |
| Driver.Wilc.ConnectTimeout | hif.c:516-557 | the in-place handler reaches the state of HostIf.ConnectTimeoutStep |
| Driver.Wilc.ParseAssocResp | hif.c:779-835 | the in-place handler reaches the state of HostIf.ParseAssocRespStep |
| Driver.Wilc.HandleDisconnect | hif.c:837-862 | the in-place handler reaches the state of HostIf.HandleDisconnectStep |
| Driver.Wilc.AsyncInfo | hif.c:864-908 | the in-place handler reaches the state of HostIf.AsyncInfoStep |
| Driver.Wilc.AbortScanning | hif.c:921-937 | the loop over the interface list reaches the state of HostIf.AbortScanningFrom |
| Driver.Wilc.Disconnect | hif.c:910-991 | the in-place handler reaches the state of HostIf.DisconnectStep |
| Driver.Wilc.RemainOnChan | hif.c:1086-1164 | the in-place handler reaches the state of HostIf.RemainOnChanStep |
| Driver.Wilc.RocExpired | hif.c:1166-1209 | the in-place handler reaches the state of HostIf.RocExpiredStep |
| Driver.Wilc.ListenExpired | hif.c:2097-2107 | the in-place handler reaches the state of HostIf.ListenExpiredStep |
| Driver.Wilc.Init | hif.c:1876-1908 | the in-place handler reaches the state of HostIf.InitStep |
| Driver.Wilc.Deinit | hif.c:1910-1939 | the in-place handler reaches the state of HostIf.DeinitStep |
| Driver.Wilc.SendStation | hif.c:2218-2244 | add and edit station send one WID of WILC_ADD_STA_LENGTH + rates_len bytes holding the packed record, or nothing when the allocation fails |
| Driver.Wilc.SetMcastFilter | hif.c:1255-1291 | one WID of 16 + 6·cnt bytes holding the enabled flag, the count and the list, or nothing on a failed allocation |
| Driver.Wilc.AddBeaconWid | hif.c:2151-2195 | one WID holding the beacon value, or -ENOMEM and nothing |
| Driver.Wilc.DelAllStation | hif.c:2335-2374 | nothing is sent without a non-zero address; otherwise one WID holding the first count·6+1 bytes of the structure as the loop leaves it, each non-zero address in its own slot (StationEncoding.DelAllStaAsWritten) |
| Driver.Wilc.SetOperationModeWid | hif.c:1715-1735 | one 5-byte WID: the LE32 handler index and the mode octet |
| Driver.Wilc.SetCfg | hif.c:1816-1851 | exactly the WID list of ConfigEncoding.CfgWids is sent |

## Left out

- `wilc_send_config_pkt` and the bus below it. Its result is the `sendRes` input, and every sent WID list is
  appended to the device's log.
- Real timers, jiffies, the workqueue, `queue_work` and completions. A timer firing or a work item running is
  an event step, and races between a timer and an event are not modelled.
- SRCU, RCU and `deinit_lock`. The interface list is a plain sequence.
- kmalloc, kfree and kmemdup. They appear only as `allocOk` parameters and `Option` fields.
- User callbacks, `cfg80211_external_auth_request` and `deliver_to_stack`. They appear only as entries in the
  notice log.
- The cfg80211 element search in `wilc_parse_join_bss_param`, P2P attribute parsing, the remaining fields of
  the join parameters and `handle_rcvd_ntwrk_info`. These depend on library code that is not part of this
  model; the rate and suite element contents are inputs.
- Host-interface key installation, PMKID, power management, TX power, antenna and GPIO, statistics and RSSI
  polling, MAC address and channel setting, frame registration, wake-on-WLAN and buffered EAPOL. These are
  outside the control-plane core.
- Logging and the kernel-version conditionals. The model follows the branch for kernels 4.8 and later, which
  derives the passive scan timeout from the dwell time.
- The listen timer. No code in `hif.c` arms it, so its expiry is modelled only through `wilc_listen_state_expired`.
- EventFrames.NetworkInfoReceived: the receiver reads `frame_len` bytes from offset 9 without checking the
  frame length. A read past the end is modelled as the outcome `OutOfFrame`, not as memory contents.
- HostTrace.Apply: an event whose handler would dereference a missing driver (such as a scan on an interface
  before `wilc_init`) is ignored, because its outcome in C is undefined. A scan whose request fails
  `HostIf.ValidScanReq` is ignored too, for the reason given on the next line.
- HostIf.ScanStep / Driver.Wilc.Scan: requests whose Σ(ssid_len+1) reaches 256 are excluded. There the source's
  u8 `valuesize` wraps and its fill loop writes past the buffer it allocated, which is not modelled as memory
  contents (first row of the Findings).
- The bytes of a freshly `kmalloc`ed buffer are an input (`prior`). The HT slot of a non-HT station record and
  the multicast list of an empty filter keep those bytes.
- StationEncoding.FillDelAllSta: takes any number of addresses below 256, not exactly WILC_MAX_NUM_STA.
- ConfigEncoding.OperationModeDecodes: holds for any 8-bit mode; the driver's mode values are not restricted
  further.
- Driver.Wilc: the handler methods are stated by equality with their step functions. The properties are
  proved about the step functions, not restated on each method.

## Findings

| source | as written | input that shows it | evidently intended | confidence | as-written member | corrected member |
|---|---|---|---|---|---|---|
| hif.c:306-328 | `valuesize` is a `u8`, so Σ(ssid_len+1) wraps; the buffer is then allocated with the wrapped size + 1 while the loop writes every SSID | eight SSIDs of 32 bytes each: 264 wraps to 8, a 9-byte buffer for a 265-byte value | size the buffer and the WID by the full sum | not executed | ScanEncoding.SsidProbeSizeWraps | ScanEncoding.SsidProbeValueFits |
| hif.c:2346-2367 | each non-zero address stays in slot i, but the WID size is count·6+1, so the firmware reads the first `count` slots | addresses [00:00:00:00:00:00, a non-zero station]: count 1, and the sent value holds the zero slot instead of the station | pack the non-zero addresses into the first `count` slots | not executed | StationEncoding.DelAllStaAsWrittenLosesStation | StationEncoding.DelAllStaValueRoundTrip |
