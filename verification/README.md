# Verified model of the driver's and the planter's stateful parts

A Dafny project that models the parts of this repository where state, bytes and
interleaving meet, and proves what they keep over whole runs.  `dafny verify
dfyconfig.toml` checks all of it.

Most of it is about the bundled Realtek Wi-Fi driver:

- **NAT2.5 bridge** (`Nat25*.dfy`, `HashChains.dfy`, `PppoeRelay.dfy`,
  `SkBuff.dfy`, `DhcpFlag.dfy`).  A chained hash table with pointer-to-pointer
  back links, ageing and use counts is proved, operation by operation, to be a
  finite map.  Memory is explicit (`HashChains.Links`), so freed entries and
  dangling pointers can be told from good ones.  Frame handling is stated on
  values (`Nat25Frames`) and carried out in place on socket buffers
  (`Nat25Bridge`); the laws about runs of frames follow from the laws about runs
  of the map.
- **Command queue** (`CmdThread.dfy`).  Enqueuers, the command thread, the
  starter and a stop requester are interleaved at every lock, semaphore and
  shared flag.
- **Access point** (`AclPool.dfy`, `BssCaps.dfy`, `StaExpiry.dfy`,
  `BeaconIes.dfy`).  The access control pool with its split critical sections,
  the six counters and what is advertised from them, the station check with its
  keep-alive probes, and the beacon's elements edited in a byte buffer.
- **EEPROM** (`Eeprom.dfy`).  Bit-banged reads against a model of the device.

`FanControl.dfy` is about the planter program itself: the sensor thread, the
message queue, the main loop and relay 3.

`Bytes.dfy`, `Residues.dfy` and `Distinct.dfy` hold what several of them share.

## What turned out differently than one would expect

- On a little-endian host the test `protocol <= htons(ETH_FRAME_LEN)` claims
  PPPoE and IPv6 frames as 802.3 length frames, so their branches are not
  reached (`Nat25Frames.LateBranchesNeedBigEndian`).  The byte order is a
  parameter of the model.
- The DHCP checksum update adds the new flags without subtracting the old ones,
  and does not look for a checksum of zero, which means none.  A datagram that
  had a checksum stays acceptable if and only if its old flags were zero or the
  checksum becomes zero (`DhcpFlag.FlagKeepsAcceptance`); one that had none is
  given one (`DhcpFlag.NoChecksumGetsOne`).
- A counted station that authenticates anew and times out is freed without the
  leave update, and its counts stay for good (`BssCaps.DropLoses`,
  `BssCaps.LostStationKeepsProtection`).
- The comment above `rtw_ht_operation_update` describes when the HT mode is
  what; the early return is taken exactly when HT is on, so for an HT access
  point the mode never leaves its start value (`BssCaps.HtFrozen`) and is wrong
  as soon as one station without HT joins (`BssCaps.HtFollowsIffNotHt`).
- The TIM drops the high byte of the bitmap when bits 2 to 7 of the low byte are
  clear (`BeaconIes.TimReadsBack`), and a new TIM is put at an offset that is
  computed, not found.  In a beacon beginning with SSID and rates it is an
  element boundary if and only if the third element has exactly one byte of data
  (`BeaconIes.TimBoundaryIffOneByte`); with no third element it is three bytes
  past the end (`BeaconIes.TimPastTheEnd`).
- The command thread's drain on exit empties the queue for good if and only if no
  enqueuer is past the filter when the thread clears `cmdthd_running`
  (`CmdThread.DrainIsFinalIffNonePassed`); there is a run in which one is
  (`CmdThread.StragglerStaysQueued`).
- `rtw_acl_add_sta` can link an address twice if and only if adders of it overlap
  (`AclPool.DuplicateIffOverlap`, `AclPool.OverlapDuplicates`).
- A discovery request whose relay tag cannot be added for lack of room has lost the
  client's own relay tag by then (`PppoeRelay.InsertOnTags`).
- A station that goes on to another IPv4 address keeps the shortcut for its old one
  (`Nat25Bridge.Bridge.TransmitThenReceive`).
- `rtw_acl_add_sta` on a full list returns -1 for an address that is on it.
- `eeprom_read` with size 0 at an odd offset writes 256 bytes.
- The fan's outcome depends on the interleaving for one kind of reading, because
  one test reads the shared state twice (`FanControl.SettlesIffNotTorn`).

## Model

| member | source | states |
|---|---|---|
| Nat25Db.ExpiryIsTrueAge | drivers/kernel-level/rtl8188C_8192C_usb_linux_v4.0.2_9000.20130911/core/rtw_br_ext.c:145-162 | The wrapping `time_before_eq` test agrees with the true age if and only if the age is below period + 2^(w-1); it always does for ages below 2^(w-1). |
| Nat25Db.ExpiryRanking | drivers/kernel-level/rtl8188C_8192C_usb_linux_v4.0.2_9000.20130911/core/rtw_br_ext.c:662-752 | Over any run in which an expired entry is not re-inserted, it has lost exactly one use count per sweep and is linked if and only if fewer sweeps ran than its use count; lookups of it or of others change nothing. |
| Nat25Db.LatestInsertWins | drivers/kernel-level/rtl8188C_8192C_usb_linux_v4.0.2_9000.20130911/core/rtw_br_ext.c:425-539 | In any run, while the latest effective insert of an address is younger than the ageing period, a lookup yields its hardware address; from then on, for half a turn of the counter, it yields nothing, linked or not. |
| Nat25Db.UseLedger | drivers/kernel-level/rtl8188C_8192C_usb_linux_v4.0.2_9000.20130911/core/rtw_br_ext.c:425-752 | The use count as a ledger over any run without cleanup: 1 for a new entry, one more per lookup within the ageing period after the last insert, one less per sweep after it, kept on re-insert; the entry is freed by exactly the sweep that spends the last. |
| Nat25Db.OneSweepPerLookup | drivers/kernel-level/rtl8188C_8192C_usb_linux_v4.0.2_9000.20130911/core/rtw_br_ext.c:425-752 | So an entry looked up k times while young, and re-inserted any number of times, is linked through k sweeps after it has expired and gone from sweep k + 1 on. |
| Nat25Db.OnlyInsertsLink | drivers/kernel-level/rtl8188C_8192C_usb_linux_v4.0.2_9000.20130911/core/rtw_br_ext.c:502-539 | No address is linked without an insert of it for which memory was allocated. |
| Nat25Db.RunOk | drivers/kernel-level/rtl8188C_8192C_usb_linux_v4.0.2_9000.20130911/core/rtw_br_ext.c:502-539 | Use counts stay at least 1 and stamps stay words over every run of inserts, lookups, sweeps and cleanups. |
| Nat25Db.RunAppend | drivers/kernel-level/rtl8188C_8192C_usb_linux_v4.0.2_9000.20130911/core/rtw_br_ext.c:502-752 | Runs compose, so the laws hold at any point of a longer run. |
| Nat25Db.SweepComplete | drivers/kernel-level/rtl8188C_8192C_usb_linux_v4.0.2_9000.20130911/core/rtw_br_ext.c:662-752 | A walk that has visited every entry left has done exactly the sweep of the whole map. |
| HashChains.LinkKeepsLinked | drivers/kernel-level/rtl8188C_8192C_usb_linux_v4.0.2_9000.20130911/core/rtw_br_ext.c:392-406 | `__network_hash_link` of a new entry keeps all chains sound: heads, next links and back links agree and rank falls along every chain. |
| HashChains.UnlinkKeepsLinked | drivers/kernel-level/rtl8188C_8192C_usb_linux_v4.0.2_9000.20130911/core/rtw_br_ext.c:409-422 | `__network_hash_unlink` through the stored pointer-to-pointer keeps the remaining chains sound. |
| HashChains.BackLinksHold | drivers/kernel-level/rtl8188C_8192C_usb_linux_v4.0.2_9000.20130911/core/rtw_br_ext.c:392-422 | `*(e->pprev_hash) == e` for every linked entry, and no entry is its own predecessor. |
| HashChains.ChainFalls | drivers/kernel-level/rtl8188C_8192C_usb_linux_v4.0.2_9000.20130911/core/rtw_br_ext.c:392-422 | Following next links from a linked entry ends, and meets each entry at most once. |
| HashChains.ChainClosed | drivers/kernel-level/rtl8188C_8192C_usb_linux_v4.0.2_9000.20130911/core/rtw_br_ext.c:392-422 | Everything on a chain is linked and belongs to that chain's bucket, so chains are disjoint. |
| HashChains.ChainComplete | drivers/kernel-level/rtl8188C_8192C_usb_linux_v4.0.2_9000.20130911/core/rtw_br_ext.c:392-422 | Every linked entry is on the chain of its own bucket. |
| Nat25Address.KeysDistinct | drivers/kernel-level/rtl8188C_8192C_usb_linux_v4.0.2_9000.20130911/core/rtw_br_ext.c:165-217 | IPv4 and PPPoE keys are injective and never coincide. |
| Nat25Table.AddKeeps | drivers/kernel-level/rtl8188C_8192C_usb_linux_v4.0.2_9000.20130911/core/rtw_br_ext.c:502-539 | Adding an entry keeps chains, index and represented map consistent. |
| Nat25Table.RemoveKeeps | drivers/kernel-level/rtl8188C_8192C_usb_linux_v4.0.2_9000.20130911/core/rtw_br_ext.c:631-752 | So does removing one. |
| Nat25Table.Table.HashLink | drivers/kernel-level/rtl8188C_8192C_usb_linux_v4.0.2_9000.20130911/core/rtw_br_ext.c:392-406 | Changes the three link fields exactly as the linking function says. |
| Nat25Table.Table.HashUnlink | drivers/kernel-level/rtl8188C_8192C_usb_linux_v4.0.2_9000.20130911/core/rtw_br_ext.c:409-422 | Changes the link fields exactly as the unlinking function says. |
| Nat25Table.Table.FindEntry | drivers/kernel-level/rtl8188C_8192C_usb_linux_v4.0.2_9000.20130911/core/rtw_br_ext.c:432-446 | The walk along one bucket finds the linked entry of an address if and only if there is one. |
| Nat25Table.Table.NetworkInsert | drivers/kernel-level/rtl8188C_8192C_usb_linux_v4.0.2_9000.20130911/core/rtw_br_ext.c:502-539 | In place and for any hash function: the represented map becomes the insert of Nat25Db; a failed allocation leaves it unchanged. |
| Nat25Table.Table.NetworkLookup | drivers/kernel-level/rtl8188C_8192C_usb_linux_v4.0.2_9000.20130911/core/rtw_br_ext.c:425-499 | Returns the unexpired entry's hardware address and raises its use count; an expired entry is reported linked and left alone. |
| Nat25Table.Table.ExpireEntry | drivers/kernel-level/rtl8188C_8192C_usb_linux_v4.0.2_9000.20130911/core/rtw_br_ext.c:675-746 | One entry's visit takes one use count, and frees the entry and clears a shortcut to it at the last. |
| Nat25Table.Table.DbExpire | drivers/kernel-level/rtl8188C_8192C_usb_linux_v4.0.2_9000.20130911/core/rtw_br_ext.c:662-752 | The nested walk, which frees entries under its feet, performs the sweep of the map and keeps the structure valid. |
| Nat25Table.Table.DbCleanup | drivers/kernel-level/rtl8188C_8192C_usb_linux_v4.0.2_9000.20130911/core/rtw_br_ext.c:631-659 | Empties map and memory and leaves no shortcut. |
| Nat25Table.Table.UseShortcut | drivers/kernel-level/rtl8188C_8192C_usb_linux_v4.0.2_9000.20130911/core/rtw_xmit.c:3153-3165 | For a source that is not the shortcut's: the pointer is NULL or at the linked entry of the address looked for, which is refreshed and recorded with its two addresses. |
| Nat25Table.Table.TransmitShortcut | drivers/kernel-level/rtl8188C_8192C_usb_linux_v4.0.2_9000.20130911/core/rtw_xmit.c:3144-3165 | The shortcut's whole use in transmit: the same source again refreshes its entry or, when that was freed, clears both addresses; another source takes the shortcut over if and only if its address is linked. The pointer is never left dangling. |
| Nat25Table.Table.Execute | drivers/kernel-level/rtl8188C_8192C_usb_linux_v4.0.2_9000.20130911/core/rtw_br_ext.c:502-752 | Any sequence of inserts, lookups, sweeps and cleanups carried out on the structure leaves the map that the run of Nat25Db ends in. |
| Nat25Table.Table.DropShortcut | drivers/kernel-level/rtl8188C_8192C_usb_linux_v4.0.2_9000.20130911/core/rtw_br_ext.c:735-740 | The shortcut is cleared with its two addresses exactly when its entry is the one being freed. |
| PppoeRelay.FindTagInList | drivers/kernel-level/rtl8188C_8192C_usb_linux_v4.0.2_9000.20130911/core/rtw_br_ext.c:87-102 | On an encoded tag list the walk stays inside the buffer and stops at the first relay tag. |
| PppoeRelay.InsertOnTags | drivers/kernel-level/rtl8188C_8192C_usb_linux_v4.0.2_9000.20130911/core/rtw_br_ext.c:1212-1254 | INSERT of PADI/PADR succeeds if and only if the old relay value has at most 28 bytes and the tail room suffices; then the bridge's tag, with client address and old value, stands in front of all other tags in order and the length field matches. |
| PppoeRelay.LookupOnTags | drivers/kernel-level/rtl8188C_8192C_usb_linux_v4.0.2_9000.20130911/core/rtw_br_ext.c:1289-1331 | LOOKUP of PADO/PADS succeeds if and only if the first relay tag carries the bridge's magic code; it then addresses the frame to the client and leaves the other tags in order; otherwise the frame is unchanged and -1 returned. |
| PppoeRelay.RelayRoundTrip | drivers/kernel-level/rtl8188C_8192C_usb_linux_v4.0.2_9000.20130911/core/rtw_br_ext.c:1212-1331 | INSERT, then LOOKUP on an answer echoing the tag: destination is the client, all other tags kept in order, the client's own relay tag returned unchanged, or dropped if it was empty, and ph->length is the length of the resulting tags (Relay-Session-Id, appendix A of RFC 2516). |
| PppoeRelay.SkbRelayInsert | drivers/kernel-level/rtl8188C_8192C_usb_linux_v4.0.2_9000.20130911/core/rtw_br_ext.c:1212-1254 | The in-place byte moves on the socket buffer yield exactly the frame InsertOnTags speaks of. |
| PppoeRelay.SkbRelayLookup | drivers/kernel-level/rtl8188C_8192C_usb_linux_v4.0.2_9000.20130911/core/rtw_br_ext.c:1289-1331 | The in-place edit yields exactly the frame LookupOnTags speaks of. |
| PppoeRelay.SkbPullAndMerge | drivers/kernel-level/rtl8188C_8192C_usb_linux_v4.0.2_9000.20130911/core/rtw_br_ext.c:124-142 | Cuts bytes out in place, or fails without change when they reach beyond the data. |
| PppoeRelay.SkbAddTag | drivers/kernel-level/rtl8188C_8192C_usb_linux_v4.0.2_9000.20130911/core/rtw_br_ext.c:105-121 | Opens a gap with memmove and writes a tag, or returns -1 when the tail room is short. |
| PppoeRelay.SkbFindTag | drivers/kernel-level/rtl8188C_8192C_usb_linux_v4.0.2_9000.20130911/core/rtw_br_ext.c:87-102 | The loop computes the walk over the tag headers. |
| Nat25Frames.LateBranchesNeedBigEndian | drivers/kernel-level/rtl8188C_8192C_usb_linux_v4.0.2_9000.20130911/core/rtw_br_ext.c:935-936 | On a little-endian host the 802.3 length test claims PPPoE and IPv6 frames, so the later branches are reached only on a big-endian one. |
| Nat25Frames.InsertIsOneInsert | drivers/kernel-level/rtl8188C_8192C_usb_linux_v4.0.2_9000.20130911/core/rtw_br_ext.c:799-1285 | NAT25_INSERT of an IPv4, ARP or PPPoE frame does to the table one insert of that frame's address with its source, or nothing. |
| Nat25Frames.LookupIsOneLookup | drivers/kernel-level/rtl8188C_8192C_usb_linux_v4.0.2_9000.20130911/core/rtw_br_ext.c:829-1356 | NAT25_LOOKUP does one lookup; the destination becomes the recorded address, stays for an expired one, and for an unknown IPv4 key is broadcast if the last address byte is 0xff and the bridge's MAC otherwise; no other byte changes except, for ARP, the target hardware address. |
| Nat25Frames.LookupOfNothing | drivers/kernel-level/rtl8188C_8192C_usb_linux_v4.0.2_9000.20130911/core/rtw_br_ext.c:783-1356 | Frames without a key leave the table alone; all but answers to a PPPoE discovery come back as they are, with -1, or 0 for EAP and C-Media. |
| Nat25Frames.UnansweredLookup | drivers/kernel-level/rtl8188C_8192C_usb_linux_v4.0.2_9000.20130911/core/rtw_br_ext.c:829-867 | For an unknown or expired address: an unknown IPv4 destination becomes ff:ff:ff:ff:ff:ff when its last byte is 255 and br_mac otherwise, and any other frame keeps its destination. |
| Nat25Frames.InsertRewritesArpOnly | drivers/kernel-level/rtl8188C_8192C_usb_linux_v4.0.2_9000.20130911/core/rtw_br_ext.c:799-905 | INSERT of IPv4 and ARP returns -1 exactly for malformed IPv4 and foreign ARP, records nothing then or for source 0.0.0.0, rewrites the six sender bytes of an ARP frame and no other byte, and leaves a discovery alone. |
| Nat25Frames.CheckGuardsRewriting | drivers/kernel-level/rtl8188C_8192C_usb_linux_v4.0.2_9000.20130911/core/rtw_br_ext.c:783-1211 | CHECK is 0 exactly for ARP over IPv4 and PPPoE without a session; for all other frames INSERT rewrites nothing. |
| Nat25Frames.SessionFramesAreCovered | drivers/kernel-level/rtl8188C_8192C_usb_linux_v4.0.2_9000.20130911/core/rtw_br_ext.c:1273-1356 | PPPoE session frames are handled by their header alone, whatever their payload. |
| Nat25Frames.FramesRunTheTable | drivers/kernel-level/rtl8188C_8192C_usb_linux_v4.0.2_9000.20130911/core/rtw_br_ext.c:783-1356 | Over every run of frames, sweeps and cleanups the table goes through the run of its own operations. |
| Nat25Frames.LatestSourceGetsTheFrame | drivers/kernel-level/rtl8188C_8192C_usb_linux_v4.0.2_9000.20130911/core/rtw_br_ext.c:425-539 | Over every run, LOOKUP of a frame for an address whose latest effective INSERT is younger than the ageing period writes that frame's source MAC as destination, whatever the protocols. |
| Nat25Frames.AnswersReachTheStation | drivers/kernel-level/rtl8188C_8192C_usb_linux_v4.0.2_9000.20130911/core/rtw_br_ext.c:799-1356 | The same in the frames' bytes: a host's IPv4 or ARP frame, or a session's frame, makes every younger frame to that host or session, of either protocol, go to its source MAC. |
| Nat25Frames.DiscoveryLasts | drivers/kernel-level/rtl8188C_8192C_usb_linux_v4.0.2_9000.20130911/core/rtw_br_ext.c:1255-1345 | Without relay tags: a discovery accepted from client a when none was under way is a's for as long as no three timer ticks pass without a request of a's or an answer and no session frame comes from a; the first such event ends it. |
| Nat25Frames.DiscoveryServed | drivers/kernel-level/rtl8188C_8192C_usb_linux_v4.0.2_9000.20130911/core/rtw_br_ext.c:1255-1345 | Meanwhile answers go to a, requests of others are refused with -2, and nothing else changes; with none under way answers are refused with -1. |
| Nat25Frames.SessionEndsDiscovery | drivers/kernel-level/rtl8188C_8192C_usb_linux_v4.0.2_9000.20130911/core/rtw_br_ext.c:1273-1285 | Session frames are left as they are, and end the discovery of exactly the client they come from. |
| Nat25Frames.DiscoveryRelayed | drivers/kernel-level/rtl8188C_8192C_usb_linux_v4.0.2_9000.20130911/core/rtw_br_ext.c:1212-1331 | With relay tags, whatever the table and the discovery: the request goes on with the client's address in its tag, an answer echoing it goes to that client, and nothing is remembered. |
| Nat25Frames.RetagUntag | drivers/kernel-level/rtl8188C_8192C_usb_linux_v4.0.2_9000.20130911/core/rtw_br_ext.c:1513-1560 | Putting the tag back round the stripped frame gives the original bytes. |
| Nat25Frames.UntagRetag | drivers/kernel-level/rtl8188C_8192C_usb_linux_v4.0.2_9000.20130911/core/rtw_br_ext.c:1513-1560 | Stripping a restored frame gives the untagged frame. |
| Nat25Frames.TagSurvives | drivers/kernel-level/rtl8188C_8192C_usb_linux_v4.0.2_9000.20130911/core/rtw_br_ext.c:1508-1567 | For every tagged unicast frame, also when the lookup returns -1, the result is the same tag and control information round the processed untagged frame (clause 9.6 of IEEE 802.1Q-2011). |
| Nat25Frames.UntouchedFrame | drivers/kernel-level/rtl8188C_8192C_usb_linux_v4.0.2_9000.20130911/core/rtw_br_ext.c:1505-1567 | Multicast frames and those no lookup runs on, with NAT2.5 off all but IPv4 to br_ip and ARP for it, come back byte for byte, tagged or not. |
| Nat25Frames.ShortcutTaken | drivers/kernel-level/rtl8188C_8192C_usb_linux_v4.0.2_9000.20130911/core/rtw_br_ext.c:1526-1533 | With NAT2.5 and the shortcut on, an IPv4 frame to scdb_ip goes to scdb_mac; table, discovery and every byte from 6 on are kept, also round a tag. |
| Nat25Frames.ReceivedFrameIsLookedUp | drivers/kernel-level/rtl8188C_8192C_usb_linux_v4.0.2_9000.20130911/core/rtw_br_ext.c:1487-1567 | Every other frame with a key that a lookup runs on, with the shortcut on or off and as the bridge's own traffic with NAT2.5 off, goes where the table says after one table lookup; tag and all other bytes are kept but the target hardware address of ARP. |
| Nat25Bridge.StripTag | drivers/kernel-level/rtl8188C_8192C_usb_linux_v4.0.2_9000.20130911/core/rtw_br_ext.c:1513-1519 | The overlapping word-copy loop moves both addresses up intact; the frame is the one without its tag. |
| Nat25Bridge.RestoreTag | drivers/kernel-level/rtl8188C_8192C_usb_linux_v4.0.2_9000.20130911/core/rtw_br_ext.c:1553-1559 | The reverse loop moves them down intact; the frame is the one with the tag wrapped round it. |
| Nat25Bridge.Bridge.DbInsert | drivers/kernel-level/rtl8188C_8192C_usb_linux_v4.0.2_9000.20130911/core/rtw_br_ext.c:783-1285 | The in-place handler on socket buffer and hash table does what the frame-level function says, for each branch and error return. |
| Nat25Bridge.Bridge.DbLookup | drivers/kernel-level/rtl8188C_8192C_usb_linux_v4.0.2_9000.20130911/core/rtw_br_ext.c:829-1356 | Likewise for LOOKUP. |
| Nat25Bridge.Bridge.DbCheck | drivers/kernel-level/rtl8188C_8192C_usb_linux_v4.0.2_9000.20130911/core/rtw_br_ext.c:783-1211 | The value of CHECK; when it is not zero, INSERT leaves the frame as it is, so the transmit path need not copy it. |
| Nat25Bridge.Bridge.ReceiveFrame | drivers/kernel-level/rtl8188C_8192C_usb_linux_v4.0.2_9000.20130911/core/rtw_br_ext.c:1487-1567 | Likewise for a received frame with strip, lookup and restore; the data pointer is where it was. A frame that takes the shortcut, tagged or not, goes to scdb_mac with the table unasked and every byte from 6 on kept. |
| Nat25Bridge.Bridge.TransmitThenReceive | drivers/kernel-level/rtl8188C_8192C_usb_linux_v4.0.2_9000.20130911/core/rtw_br_ext.c:1526-1533 | After a frame from src with address ip was handled by the shortcut on the transmit path, a received IPv4 frame to ip goes to src, unless the shortcut was src's already for another address. |
| Nat25Bridge.Bridge.TimerTick | drivers/kernel-level/rtl8188C_8192C_usb_linux_v4.0.2_9000.20130911/core/rtw_mlme.c:2547-2561 | The bridge's part of the periodic timer: one sweep, and two off the waiting time of a PPPoE discovery, not below zero. |
| Nat25Bridge.Bridge.Execute | drivers/kernel-level/rtl8188C_8192C_usb_linux_v4.0.2_9000.20130911/core/rtw_br_ext.c:783-1567 | Any run of frames, sweeps and cleanups carried out on buffers and table ends where the run of the frame-level functions does. |
| DhcpFlag.FoldCarries | drivers/kernel-level/rtl8188C_8192C_usb_linux_v4.0.2_9000.20130911/core/rtw_br_ext.c:1661-1662 | The fold loop ends and returns the one's-complement value: the sum modulo 65535, zero only for zero. |
| DhcpFlag.FlagBroadcast | drivers/kernel-level/rtl8188C_8192C_usb_linux_v4.0.2_9000.20130911/core/rtw_br_ext.c:1626-1670 | In place, for any frame: it is edited if and only if the operation is on and it is IPv4, UDP from port 68 to 67 with the cookie and a clear broadcast bit; then byte 18 of the datagram gains 0x80, nothing else but the checksum changes, and the condition for acceptance holds; otherwise not a byte changes. |
| DhcpFlag.ChecksumAfter | drivers/kernel-level/rtl8188C_8192C_usb_linux_v4.0.2_9000.20130911/core/rtw_br_ext.c:1650-1663 | For every DHCP request of any length, in either byte order: the sum over the datagram verifies afterwards if and only if the old sum less the old flags is a multiple of 65535. |
| DhcpFlag.FlagKeepsChecksum | drivers/kernel-level/rtl8188C_8192C_usb_linux_v4.0.2_9000.20130911/core/rtw_br_ext.c:1650-1663 | A sum that verifies still verifies if and only if the old flags were zero (section 3 of RFC 1624; flags of RFC 2131). |
| DhcpFlag.AcceptedAfter | drivers/kernel-level/rtl8188C_8192C_usb_linux_v4.0.2_9000.20130911/core/rtw_br_ext.c:1650-1663 | A receiver, which skips the test for a zero checksum (RFC 768), accepts the edited datagram if and only if the checksum becomes zero or the old sum less the old flags is a multiple of 65535. |
| DhcpFlag.FlagKeepsAcceptance | drivers/kernel-level/rtl8188C_8192C_usb_linux_v4.0.2_9000.20130911/core/rtw_br_ext.c:1650-1663 | A datagram with a checksum that was accepted stays so if and only if its old flags were zero or its checksum equals the new flags, which makes it zero. |
| DhcpFlag.NoChecksumGetsOne | drivers/kernel-level/rtl8188C_8192C_usb_linux_v4.0.2_9000.20130911/core/rtw_br_ext.c:1650-1663 | A datagram without a checksum is given one: the complement of the new flags, right only under the same condition on the sum. |
| DhcpFlag.FlagIsSet | drivers/kernel-level/rtl8188C_8192C_usb_linux_v4.0.2_9000.20130911/core/rtw_br_ext.c:1650-1657 | The broadcast bit is set and all other flags kept. |
| DhcpFlag.OldFlagsBreakTheChecksum | drivers/kernel-level/rtl8188C_8192C_usb_linux_v4.0.2_9000.20130911/core/rtw_br_ext.c:1650-1663 | A whole DHCP request, accepted before and refused after. |
| CmdThread.RunKeeps | drivers/kernel-level/rtl8188C_8192C_usb_linux_v4.0.2_9000.20130911/core/rtw_cmd.c:344-572 | All invariants hold in every state of every interleaving of enqueuers, command thread, starter and stop requester. |
| CmdThread.NoLostWakeUp | drivers/kernel-level/rtl8188C_8192C_usb_linux_v4.0.2_9000.20130911/core/rtw_cmd.c:218-265 | A thread blocked on an empty semaphore has at most as many queued commands as enqueuers between insertion and up, so none without such an enqueuer, and no stop request waits for it. |
| CmdThread.TakenInOrder | drivers/kernel-level/rtl8188C_8192C_usb_linux_v4.0.2_9000.20130911/core/rtw_cmd.c:218-265 | Commands are dequeued at most once, in insertion order, and none is lost. |
| CmdThread.StopReturnsWhenGone | drivers/kernel-level/rtl8188C_8192C_usb_linux_v4.0.2_9000.20130911/core/rtw_cmd.c:425-434 | A waiting `rtw_stop_cmd_thread` can go on if and only if the thread is gone, and has returned only then. |
| CmdThread.LeftBehind | drivers/kernel-level/rtl8188C_8192C_usb_linux_v4.0.2_9000.20130911/core/rtw_cmd.c:551-566 | After the thread is gone, what is queued was inserted by enqueuers that had passed `rtw_cmd_filter` before `cmdthd_running` was cleared; without any, the queue is empty. |
| CmdThread.DrainIsFinalIffNonePassed | drivers/kernel-level/rtl8188C_8192C_usb_linux_v4.0.2_9000.20130911/core/rtw_cmd.c:551-566 | At the clearing of `cmdthd_running`: every continuation in which the thread is gone has an empty queue if and only if no enqueuer is past the filter at that moment. |
| CmdThread.StragglerStaysQueued | drivers/kernel-level/rtl8188C_8192C_usb_linux_v4.0.2_9000.20130911/core/rtw_cmd.c:359-371 | A run from the start in which one enqueuer is: the thread is gone and its command is queued. |
| CmdThread.ThreadNotStuck | drivers/kernel-level/rtl8188C_8192C_usb_linux_v4.0.2_9000.20130911/core/rtw_cmd.c:459-491 | The thread can always take its next step unless it is gone or waits with nothing to wake it. |
| CmdThread.CmdPriv.Filter | drivers/kernel-level/rtl8188C_8192C_usb_linux_v4.0.2_9000.20130911/core/rtw_cmd.c:302-340 | The filter passes a command only while the thread is running. |
| CmdThread.CmdPriv.InsertTail | drivers/kernel-level/rtl8188C_8192C_usb_linux_v4.0.2_9000.20130911/core/rtw_cmd.c:218-240 | The enqueuer's critical section is the insertion step. |
| CmdThread.CmdPriv.Dequeue | drivers/kernel-level/rtl8188C_8192C_usb_linux_v4.0.2_9000.20130911/core/rtw_cmd.c:242-265 | Returns and unlinks the oldest command, or reports the queue empty. |
| CmdThread.CmdPriv.Drain | drivers/kernel-level/rtl8188C_8192C_usb_linux_v4.0.2_9000.20130911/core/rtw_cmd.c:554-566 | With no enqueuer in between, the drain frees everything queued, in order, and announces the end once. |
| AclPool.PoolStaysSound | drivers/kernel-level/rtl8188C_8192C_usb_linux_v4.0.2_9000.20130911/core/rtw_ap.c:1776-1891 | Under any interleaving of the critical sections of add, remove and stop, the linked nodes are the valid ones, num is their count and never exceeds NUM_ACL, although it is tested outside the lock. |
| AclPool.ClaimRepeats | drivers/kernel-level/rtl8188C_8192C_usb_linux_v4.0.2_9000.20130911/core/rtw_ap.c:1821-1848 | A claim leaves the addresses distinct if and only if the address is not linked already or the pool is full. |
| AclPool.NoOverlapNoDuplicates | drivers/kernel-level/rtl8188C_8192C_usb_linux_v4.0.2_9000.20130911/core/rtw_ap.c:1776-1891 | No address is ever linked twice in a run in which no two adders of one address are between search and claim together. |
| AclPool.OverlapDuplicates | drivers/kernel-level/rtl8188C_8192C_usb_linux_v4.0.2_9000.20130911/core/rtw_ap.c:1796-1848 | A run from the empty list in which two adders pass the search together and both link the address. |
| AclPool.DuplicateIffOverlap | drivers/kernel-level/rtl8188C_8192C_usb_linux_v4.0.2_9000.20130911/core/rtw_ap.c:1776-1891 | From any reached state with distinct addresses, the adders already past their search can, with removals, link an address twice if and only if one of them holds an address that is linked or two hold the same. |
| AclPool.AddIsSetInsertion | drivers/kernel-level/rtl8188C_8192C_usb_linux_v4.0.2_9000.20130911/core/rtw_ap.c:1776-1848 | One call at a time: -1 exactly when the set holds NUM_ACL addresses, even for a member; otherwise the address is added. |
| AclPool.AddTwice | drivers/kernel-level/rtl8188C_8192C_usb_linux_v4.0.2_9000.20130911/core/rtw_ap.c:1776-1848 | Adding again changes nothing. |
| AclPool.RemoveTakesAll | drivers/kernel-level/rtl8188C_8192C_usb_linux_v4.0.2_9000.20130911/core/rtw_ap.c:1850-1887 | A removal takes exactly the nodes of its address (all nodes when stopping), duplicates included. |
| AclPool.AccessAfterAdd | drivers/kernel-level/rtl8188C_8192C_usb_linux_v4.0.2_9000.20130911/core/rtw_sta_mgt.c:798-846 | `rtw_access_ctrl` then answers for the larger set, in each mode. |
| AclPool.AccessAfterRemove | drivers/kernel-level/rtl8188C_8192C_usb_linux_v4.0.2_9000.20130911/core/rtw_sta_mgt.c:798-846 | And for the smaller set after a removal. |
| AclPool.Acl.AddSta | drivers/kernel-level/rtl8188C_8192C_usb_linux_v4.0.2_9000.20130911/core/rtw_ap.c:1776-1848 | The method on pool, list and count does what Add says, with its return value. |
| AclPool.Acl.ClaimNode | drivers/kernel-level/rtl8188C_8192C_usb_linux_v4.0.2_9000.20130911/core/rtw_ap.c:1821-1845 | The scan takes the first free node. |
| AclPool.Acl.Drop | drivers/kernel-level/rtl8188C_8192C_usb_linux_v4.0.2_9000.20130911/core/rtw_ap.c:1850-1887 | The walk that unlinks nodes from the list it walks performs the removal. |
| BssCaps.CountersAreFlagsAndLosses | drivers/kernel-level/rtl8188C_8192C_usb_linux_v4.0.2_9000.20130911/core/rtw_ap.c:2263-2544 | Exact accounting over every run of allocations, joins, re-joins with other capabilities, leaves and drops: each counter is the number of stations with its flag plus the flags dropped without `ap_free_sta`. |
| BssCaps.CounterExactIffNothingLost | drivers/kernel-level/rtl8188C_8192C_usb_linux_v4.0.2_9000.20130911/core/rtw_ap.c:384-401 | No counter goes negative, and one equals the number of flagged stations if and only if no such flag was dropped. |
| BssCaps.CountersMirrorFlags | drivers/kernel-level/rtl8188C_8192C_usb_linux_v4.0.2_9000.20130911/core/rtw_ap.c:2263-2544 | When only uncounted stations are dropped, all six counters are exact and zero once every station has been freed. |
| BssCaps.FlagsTellTheJoins | drivers/kernel-level/rtl8188C_8192C_usb_linux_v4.0.2_9000.20130911/core/rtw_ap.c:2263-2450 | Over every run a station in use has the preamble, ERP, slot and HT flags if and only if its last join since allocation announced so, and the greenfield and 20 MHz flags if and only if some HT join since lacked that capability. |
| BssCaps.CountersTellTheJoins | drivers/kernel-level/rtl8188C_8192C_usb_linux_v4.0.2_9000.20130911/core/rtw_ap.c:2263-2544 | So each of the six counters is the number of stations in use with that history, plus those dropped. |
| BssCaps.ErpRefreshed | drivers/kernel-level/rtl8188C_8192C_usb_linux_v4.0.2_9000.20130911/core/rtw_ap.c:1901-1934 | The element changes exactly when protection goes on or off, and then its Barker preamble bit tells whether any station is without short preambles. |
| BssCaps.ErpFollowsCounter | drivers/kernel-level/rtl8188C_8192C_usb_linux_v4.0.2_9000.20130911/core/rtw_ap.c:1901-1934 | With the BSS started, ERP enabled and the element's bits clear at start, NON_ERP_PRESENT and USE_PROTECTION are set if and only if num_sta_non_erp > 0 after every step of every run, and the five upper bits never change (section 7.3.2.13 of IEEE 802.11-2007). |
| BssCaps.ErpUntouched | drivers/kernel-level/rtl8188C_8192C_usb_linux_v4.0.2_9000.20130911/core/rtw_ap.c:2071-2072 | Without one of those the element is never refreshed. |
| BssCaps.LostStationKeepsProtection | drivers/kernel-level/rtl8188C_8192C_usb_linux_v4.0.2_9000.20130911/core/rtw_ap.c:384-401 | Once a counted non-ERP station was freed by authentication expiry, protection is advertised in every later state, whatever stations come and go. |
| BssCaps.DropLoses | drivers/kernel-level/rtl8188C_8192C_usb_linux_v4.0.2_9000.20130911/core/rtw_mlme_ext.c:1434-1457 | Such runs exist: re-authentication takes a counted station off the association list, and its timeout frees it without the leave update. |
| BssCaps.HtFollowsOnceUpdated | drivers/kernel-level/rtl8188C_8192C_usb_linux_v4.0.2_9000.20130911/core/rtw_ap.c:2456-2460 | Without htpriv.ht_option the mode agrees with the counters after any run with a join or leave in it, whatever olbc_ht says. |
| BssCaps.HtFollowsCounters | drivers/kernel-level/rtl8188C_8192C_usb_linux_v4.0.2_9000.20130911/core/rtw_ap.c:2158-2227 | And without olbc_ht, in every state of every run. |
| BssCaps.HtModeTellsTheJoins | drivers/kernel-level/rtl8188C_8192C_usb_linux_v4.0.2_9000.20130911/core/rtw_ap.c:2158-2227 | When none was lost: mixed if and only if a station has no HT or no greenfield, else 20 MHz if and only if the channel is wide and a station is not, else legacy under olbc_ht, else pure; and the two bits likewise. |
| BssCaps.HtFrozen | drivers/kernel-level/rtl8188C_8192C_usb_linux_v4.0.2_9000.20130911/core/rtw_ap.c:2165-2166 | With htpriv.ht_option, which is when the access point does HT, the early return leaves the mode at its start value for good. |
| BssCaps.HtFollowsIffNotHt | drivers/kernel-level/rtl8188C_8192C_usb_linux_v4.0.2_9000.20130911/core/rtw_ap.c:2158-2227 | So the mode agrees with the counters in every run if and only if htpriv.ht_option is off; one station without HT is a run in which it does not. |
| BssCaps.BssInfo.HtOperationUpdate | drivers/kernel-level/rtl8188C_8192C_usb_linux_v4.0.2_9000.20130911/core/rtw_ap.c:2158-2227 | The bit-by-bit update reaches the target value and returns 0 if and only if nothing changed, so a second call returns 0. |
| BssCaps.BssInfo.UpdateErpInfo | drivers/kernel-level/rtl8188C_8192C_usb_linux_v4.0.2_9000.20130911/core/rtw_ap.c:1901-1934 | The element's three low bits as of the counters at this moment, the rest kept; nothing when a guard fails. |
| BssCaps.BssInfo.StaJoin | drivers/kernel-level/rtl8188C_8192C_usb_linux_v4.0.2_9000.20130911/core/rtw_ap.c:2263-2469 | The in-place join, first or again, is the step of the run. |
| BssCaps.BssInfo.StaLeave | drivers/kernel-level/rtl8188C_8192C_usb_linux_v4.0.2_9000.20130911/core/rtw_ap.c:2471-2544 | So is the leave. |
| StaExpiry.CheckIsLocal | drivers/kernel-level/rtl8188C_8192C_usb_linux_v4.0.2_9000.20130911/core/rtw_ap.c:412-583 | A whole check, with other threads removing stations after the walk, before each probe, while it waits for its acknowledgement or after the last, does to each station what its own record and its own removal determine. |
| StaExpiry.CheckKeeps | drivers/kernel-level/rtl8188C_8192C_usb_linux_v4.0.2_9000.20130911/core/rtw_ap.c:412-583 | Whatever is removed at those moments, asoc_list_cnt stays the list length, chk_alive_list never needs more than NUM_STA places, and each station is freed at most once, by the check or by others, being listed before and not after. |
| StaExpiry.RemovedAtExactlyEPlus3 | drivers/kernel-level/rtl8188C_8192C_usb_linux_v4.0.2_9000.20130911/core/rtw_ap.c:424-573 | A linked station starting at expire_to == E >= 1 that is silent and fails every probe is listed through check E+2 and freed by check E+3, in power save or not. |
| StaExpiry.AnsweredProbeStartsOver | drivers/kernel-level/rtl8188C_8192C_usb_linux_v4.0.2_9000.20130911/core/rtw_ap.c:550-556 | One acknowledged probe resets it to pstapriv->expire_to with no tries. |
| StaExpiry.UnlinkedIsNeverRemoved | drivers/kernel-level/rtl8188C_8192C_usb_linux_v4.0.2_9000.20130911/core/rtw_ap.c:541-542 | A listed station without the linked bit is skipped by the probes and never removed. |
| StaExpiry.HeardStartsOver | drivers/kernel-level/rtl8188C_8192C_usb_linux_v4.0.2_9000.20130911/core/rtw_ap.c:429-434 | A station heard since the last check, or with expire_to 0, is listed and not probed, with expire_to full and no tries, whatever the parameters. |
| StaExpiry.UnheardAges | drivers/kernel-level/rtl8188C_8192C_usb_linux_v4.0.2_9000.20130911/core/rtw_ap.c:429-437 | One not heard and not due has one check less, and nothing else of it changes. |
| StaExpiry.WifiSpecFreesNobody | drivers/kernel-level/rtl8188C_8192C_usb_linux_v4.0.2_9000.20130911/core/rtw_ap.c:467-471 | With wifi_spec no check probes or frees any station; one that is due starts over. |
| StaExpiry.SleeperIsTold | drivers/kernel-level/rtl8188C_8192C_usb_linux_v4.0.2_9000.20130911/core/rtw_ap.c:473-487 | A station due in power save and not told since its last poll is marked as told; with the active check off it has all its time again. |
| StaExpiry.PassiveRemovedAtExactlyE | drivers/kernel-level/rtl8188C_8192C_usb_linux_v4.0.2_9000.20130911/core/rtw_ap.c:429-506 | With the active check off a silent station that is awake, or asleep and told before, is listed through check E-1 and freed by check E. |
| StaExpiry.SleeperHasOneMoreTerm | drivers/kernel-level/rtl8188C_8192C_usb_linux_v4.0.2_9000.20130911/core/rtw_ap.c:429-506 | One that is asleep, was not told and never polls is listed through check E + pstapriv->expire_to - 1 and not after the next. |
| StaExpiry.StaPriv.WalkStation | drivers/kernel-level/rtl8188C_8192C_usb_linux_v4.0.2_9000.20130911/core/rtw_ap.c:424-522 | The walk's body: the record and list of the walk's step, and the wake-up test of the sleep queue, whose division is by a count that is not zero. |
| StaExpiry.StaPriv.WalkAsocList | drivers/kernel-level/rtl8188C_8192C_usb_linux_v4.0.2_9000.20130911/core/rtw_ap.c:412-525 | The walk fills the table within its bounds and unlinks and frees as the check says. |
| StaExpiry.StaPriv.ProbeStations | drivers/kernel-level/rtl8188C_8192C_usb_linux_v4.0.2_9000.20130911/core/rtw_ap.c:536-575 | The probe loop updates, unlinks and frees as the check says, with removals by others between its locked sections. |
| StaExpiry.StaPriv.ProbeStation | drivers/kernel-level/rtl8188C_8192C_usb_linux_v4.0.2_9000.20130911/core/rtw_ap.c:538-575 | One probe: the linked test, the wait, and the unlinking only of a station that is listed still. |
| StaExpiry.StaPriv.Flush | drivers/kernel-level/rtl8188C_8192C_usb_linux_v4.0.2_9000.20130911/core/rtw_ap.c:2651-2705 | Leaves the list empty with count 0, frees every station that was listed, once, in order, and touches no other record. |
| BeaconIes.AddIsMapUpdate | drivers/kernel-level/rtl8188C_8192C_usb_linux_v4.0.2_9000.20130911/core/rtw_ap.c:208-276 | In an ascending list the addition leaves an ascending list, maps the identifier to the data and leaves every other element alone. |
| BeaconIes.RemoveIsMapRemoval | drivers/kernel-level/rtl8188C_8192C_usb_linux_v4.0.2_9000.20130911/core/rtw_ap.c:278-318 | In an ascending list removal leaves an ascending list without the identifier, unless its element is empty, and every other element alone. |
| BeaconIes.AddThenRemove | drivers/kernel-level/rtl8188C_8192C_usb_linux_v4.0.2_9000.20130911/core/rtw_ap.c:208-318 | Adding an absent element and removing it restores the list, and with it bytes and IELength, if and only if the element is not empty. |
| BeaconIes.TimReadsBack | drivers/kernel-level/rtl8188C_8192C_usb_linux_v4.0.2_9000.20130911/core/rtw_ap.c:159-184 | The written TIM decodes to tim_bitmap if and only if its high byte is zero or its bits 2 to 7 are not all zero, and to the low byte otherwise (section 7.3.2.6 of IEEE 802.11-2007). |
| BeaconIes.TimIsReplaced | drivers/kernel-level/rtl8188C_8192C_usb_linux_v4.0.2_9000.20130911/core/rtw_ap.c:86-197 | The updated list carries the new map first among its TIM elements, and the next update replaces that same element. |
| BeaconIes.TimGoesBehindDs | drivers/kernel-level/rtl8188C_8192C_usb_linux_v4.0.2_9000.20130911/core/rtw_ap.c:118-141 | In a beacon beginning with SSID, rates and DS parameter set, the place for a new TIM is behind them. |
| BeaconIes.TimBoundaryIffOneByte | drivers/kernel-level/rtl8188C_8192C_usb_linux_v4.0.2_9000.20130911/core/rtw_ap.c:118-141 | In a beacon beginning with SSID and rates, without a TIM to replace, the place is between two elements if and only if the third element has exactly one byte of data. |
| BeaconIes.TimPastTheEnd | drivers/kernel-level/rtl8188C_8192C_usb_linux_v4.0.2_9000.20130911/core/rtw_ap.c:118-137 | With nothing behind SSID and rates it is three bytes past the end, where `remainder_ielen` wraps. |
| BeaconIes.SplicedIsUpdated | drivers/kernel-level/rtl8188C_8192C_usb_linux_v4.0.2_9000.20130911/core/rtw_ap.c:86-197 | At a boundary the byte splice is the list with its TIM replaced or inserted, every other element byte-identical and in order. |
| BeaconIes.SpliceElements | drivers/kernel-level/rtl8188C_8192C_usb_linux_v4.0.2_9000.20130911/core/rtw_ap.c:140-191 | A splice of the bytes over whole elements is the edit of the element list, every other element byte-identical and in order. |
| BeaconIes.Beacon.GetIe | drivers/kernel-level/rtl8188C_8192C_usb_linux_v4.0.2_9000.20130911/core/rtw_ieee80211.c:226-257 | Finds the first element with the identifier, or reports none. |
| BeaconIes.Beacon.AddIe | drivers/kernel-level/rtl8188C_8192C_usb_linux_v4.0.2_9000.20130911/core/rtw_ap.c:208-276 | The bytes and IELength become those of the list with the element added. |
| BeaconIes.Beacon.RemoveIe | drivers/kernel-level/rtl8188C_8192C_usb_linux_v4.0.2_9000.20130911/core/rtw_ap.c:278-318 | They become those of the list without the element; an absent or empty one is left. |
| BeaconIes.Beacon.UpdateTim | drivers/kernel-level/rtl8188C_8192C_usb_linux_v4.0.2_9000.20130911/core/rtw_ap.c:86-197 | Wherever the computed place falls inside the elements, the bytes become those with the TIM written there over the old one, if any, and IELength their number; the TIM has DTIM count 0, period 1, the multicast bit and the map. |
| Eeprom.BitAt | drivers/kernel-level/rtl8188C_8192C_usb_linux_v4.0.2_9000.20130911/core/rtw_eeprom.c:46-83 | The k-th bit presented is the one under the k-th mask. |
| Eeprom.ValueOfBits | drivers/kernel-level/rtl8188C_8192C_usb_linux_v4.0.2_9000.20130911/core/rtw_eeprom.c:85-118 | Rebuilding a word from its presented bits gives its low bits back. |
| Eeprom.Adapter.ShiftOutBits | drivers/kernel-level/rtl8188C_8192C_usb_linux_v4.0.2_9000.20130911/core/rtw_eeprom.c:46-83 | The device sees the low `count` bits, highest first, one per rising clock edge. |
| Eeprom.Adapter.ShiftInBits | drivers/kernel-level/rtl8188C_8192C_usb_linux_v4.0.2_9000.20130911/core/rtw_eeprom.c:85-118 | Rebuilds the 16-bit word the device shifts out. |
| Eeprom.Adapter.EepromRead16 | drivers/kernel-level/rtl8188C_8192C_usb_linux_v4.0.2_9000.20130911/core/rtw_eeprom.c:269-328 | Against a device answering read commands, returns the addressed word and leaves the device deselected. |
| Eeprom.Adapter.EepromRead | drivers/kernel-level/rtl8188C_8192C_usb_linux_v4.0.2_9000.20130911/core/rtw_eeprom.c:379-411 | rbuf[k] is byte addr_off + k of the memory for every offset and size; with nothing asked for at an odd offset the count wraps and 256 bytes are written. |
| FanControl.SettlesIffNotTorn | src/main.c:492-588 | All interleavings of sends and drains of one reading end in the same state if and only if the reading is not one that turns a running fan off while the temperature wants it very fast. |
| FanControl.OutcomeIsSettled | src/main.c:492-588 | For every other reading the drained state is the one of the undisturbed decisions, whatever other commands share the queue. |
| FanControl.TornRun | src/main.c:562-567 | The failing interleaving: the two reads of the state in one test straddle the change. |
| FanControl.RepeatSendsNothing | src/main.c:492-588 | The same reading again sends the fan nothing, in any interleaving. |
| FanControl.SettledIsFixed | src/main.c:492-588 | A settled state calls for no command on the same reading. |
| FanControl.SettledByBands | src/main.c:492-588 | Where a reading leads: very fast above the temperature limit or, once there, down to five below it; else off five below the humidity limit or, when off, up to the limit; else on. |
| FanControl.RelayFollowsState | src/main.c:264-276 | Between commands relay 3 is connected if and only if the state is not OFF. |
| FanControl.Planter.HandleNext | src/main.c:235-264 | Receiving and handling one message is the two main-loop steps, no other relay channel changes, and the pulse width is 24000 for ON and 40000 for VERY FAST. |
| FanControl.Planter.FanRotate | drivers/lib/fan.c:30-45 | Connects relay 3 also when the speed is refused. |
| FanControl.Planter.RelaySet | drivers/lib/relay.c:27-73 | Sets the one channel's pin, or reports an unknown channel and changes nothing. |
| FanControl.Planter.Decide | src/main.c:492-588 | The fan decisions undisturbed send what the two command functions say, in order. |

## Left out

- The IPX, AppleTalk, IPv6, EAP and C-Media branches of `nat25_db_handle`: more header parsing of the shape of IPv4.
- The scdb shortcut: which frames of the transmit path use it, and whether what it holds is the newest address.
- Memory limits: use counts, list lengths and the table's ages in ticks do not overflow an int; allocation in the beacon splices succeeds.
- One sweep reads the clock once; the code reads jiffies for every entry.
- Frames shorter than the fields the code reads, and PPPoE tag lists that run past their length field or the buffer: the code reads beyond the data, and the model requires the bytes to be there.
- PppoeRelay.SkbAddTag: the code adds the tag's length field without converting it from network order (core/rtw_br_ext.c:110), which is the tag's size on a big-endian host only; on the others the PPPoE branch is not reached, and the contract speaks of the former.
- DhcpFlag: frames in which a field that the tests reach lies beyond the data; and for datagrams whose length field is inconsistent or whose IP header is shorter than five words, what a receiver makes of the checksum.
- Nat25Bridge.Bridge.ReceiveFrame: IP multicast to unicast conversion (SUPPORT_TX_MCAST2UNI) and `netdev_br_init`, which re-reads the bridge's addresses, are not part of it.
- Locks and semaphores are atomic steps; interrupt contexts and memory ordering are not modelled.
- CONFIG_LPS_LCLK and CONFIG_CONCURRENT_MODE in the command thread, restarting the thread, and more than one stop requester at a time.
- What commands and their callbacks do, and who frees a dequeued command.
- The Barker-preamble bit between two refreshes: it is refreshed only with the non-ERP counter (`BssCaps.ErpRefreshed`), so it need not agree with its own counter then.
- The return value of `bss_cap_update_on_sta_leave` and the vendor-command updates it triggers; `update_beacon` for identifiers other than the ERP element has no effect in the source beyond scheduling.
- BssCaps: the association identifier table and rate control of joining stations.
- StaExpiry: the authentication list half of the check, CONFIG_TX_MCAST2UNI, the case without CONFIG_ACTIVE_KEEP_ALIVE_CHECK, channel switching around the probes, records re-used or stations joining between walk and probe, and the bit of a sleeping station in the traffic indication map, of which the model has only the mark.
- StaExpiry.StaPriv.Flush: the broadcast deauthentication frame and the guard that the interface is in access point mode.
- StaExpiry.StaPriv.WalkAsocList: walks the list as it was at the start, which is what saving the next pointer comes to when only the current station is unlinked.
- rtw_check_beacon_data, start_bss_network and the other beacon elements' handlers.
- BeaconIes: buffers whose elements are malformed.
- BeaconIes.Beacon.AddIe: lists in which the element to replace or to follow is empty (a zero-length SSID, for instance), or in which there is none to follow: the code writes through `dst_ie`, which is then unset.
- BeaconIes.Beacon.UpdateTim: a place past the end of the elements, where the unsigned `remainder_ielen` wraps (core/rtw_ap.c:137); the model asks for a place inside.
- Eeprom: surprise removal during a transfer, `eeprom_write16`, and the register's bit positions, which are defined outside the files modelled; the control register is a record of its bits.
- FanControl: a full message queue, the network commands `receive_boundary_data` and `state_change`, the other devices' decisions, and the hardware behind relay and PWM.
- lib/list.c, lib/music.c, lib/itoa.c and the remaining drivers: small facts beside these.
