/**
 What the NAT2.5 bridge does to frames, on values: the dispatch on the protocol,
 the addresses it records and looks up, and the bytes it rewrites.
 */
module Nat25Frames {
  import opened Bytes
  import opened Nat25Address
  import opened Nat25Db
  import opened SkBuffs
  import opened PppoeRelay

  const ETH_P_IP := 0x0800
  const ETH_P_ARP := 0x0806
  const ETH_P_8021Q := 0x8100
  const ETH_P_IPX := 0x8137
  const ETH_P_IPV6 := 0x86DD
  const ETH_P_PPP_DISC := 0x8863
  const ETH_P_PPP_SES := 0x8864
  const ETH_P_EAP := 0x888E
  const ETH_P_CMEDIA := 0xE2AE
  const ETH_P_CMEDIA2 := 0xE2AF
  const ETH_FRAME_LEN := 1514

  const PADI_CODE: byte := 0x09
  const PADO_CODE: byte := 0x07
  const PADR_CODE: byte := 0x19
  const PADS_CODE: byte := 0x65

  const WAIT_TIME_PPPOE := 5

  type NatDb = Db<Key, Mac>

  /** The parts of the adapter that frame handling reads but does not write. */
  datatype Config = Config(
    bigEndian: bool,
    clock: Clock,
    nat25Disable: bool,
    nat25scDisable: bool,
    addPPPoETag: bool,
    myMac: Mac,
    brMac: Mac,
    brIp: seq<byte>)

  /** A PPPoE discovery in progress, and whose it is. */
  datatype Discovery = Discovery(inProgress: nat, addr: Mac)

  /** Two bytes as the host reads a 16-bit word. */
  function HostWord(bigEndian: bool, b0: byte, b1: byte): nat {
    if bigEndian then Net16(b0, b1) else Net16(b1, b0)
  }

  function EtherType(b: seq<byte>): nat
    requires |b| >= 14
  {
    Net16(b[12], b[13])
  }

  datatype Kind = Ipv4 | Arp | Novell | Pppoe | Passive | Ipv6 | Unsupported

  /**
   The dispatch.  Ethernet types are compared for equality, which no byte order
   disturbs, but an 802.3 length is recognised by comparing two words as the host
   reads them.
   */
  function Classify(bigEndian: bool, b: seq<byte>): Kind
    requires |b| >= 14
  {
    var t := EtherType(b);
    if t == ETH_P_IP then Ipv4
    else if t == ETH_P_ARP then Arp
    else if t == ETH_P_IPX
         || HostWord(bigEndian, b[12], b[13]) <= HostWord(bigEndian, ETH_FRAME_LEN / 256, ETH_FRAME_LEN % 256) then Novell
    else if t == ETH_P_PPP_DISC || t == ETH_P_PPP_SES then Pppoe
    else if t == ETH_P_EAP || t == ETH_P_CMEDIA || t == ETH_P_CMEDIA2 then Passive
    else if t == ETH_P_IPV6 then Ipv6
    else Unsupported
  }

  /**
   The PPPoE, EAP, C-Media and IPv6 branches are reached exactly on big-endian
   hosts: on the others the length comparison claims those frames first.
   */
  lemma LateBranchesNeedBigEndian(bigEndian: bool, b: seq<byte>)
    requires |b| >= 14
    requires EtherType(b) in {ETH_P_PPP_DISC, ETH_P_PPP_SES, ETH_P_EAP, ETH_P_CMEDIA, ETH_P_CMEDIA2, ETH_P_IPV6}
    ensures Classify(bigEndian, b) !in {Ipv4, Arp, Unsupported}
    ensures Classify(bigEndian, b) != Novell <==> bigEndian
    ensures bigEndian ==> (Classify(bigEndian, b) == Pppoe <==> EtherType(b) == ETH_P_PPP_DISC || EtherType(b) == ETH_P_PPP_SES)
  {
    assert EtherType(b) / 256 == b[12] && EtherType(b) % 256 == b[13];
  }

  // ---------------------------------------------------------- single frames

  /** What handling a frame returns and leaves behind. */
  datatype Outcome = Outcome(ret: int, db: NatDb, disc: Discovery, frame: Frame)

  function SetDst(f: Frame, mac: Mac): (g: Frame)
    requires f.Ok() && |f.b| >= 14
    ensures g.len == f.len && |g.b| == |f.b| && g.b[..6] == mac && g.b[6..] == f.b[6..]
  {
    Frame(Overwrite(f.b, 0, mac), f.len)
  }

  function Dst(f: Frame): Mac
    requires |f.b| >= 14
  {
    f.b[..6]
  }

  function Src(f: Frame): Mac
    requires |f.b| >= 14
  {
    f.b[6..12]
  }

  /** __nat25_db_network_lookup_and_replace */
  function LookupAndReplace(c: Clock, db: NatDb, key: Key, now: nat, f: Frame): Frame
    requires c.Ok() && f.Ok() && |f.b| >= 14
  {
    match LookupMac(c, db, key, now)
    case Some(mac) => SetDst(f, mac)
    case None => f
  }

  // IPv4: header from byte 14, addresses at 26 and 30.

  /** The header length field points behind skb->len, or to its end. */
  predicate Malformed(f: Frame)
    requires |f.b| >= 34
  {
    f.b[14] % 16 * 4 >= f.len
  }

  const BROADCAST: Mac := [0xff, 0xff, 0xff, 0xff, 0xff, 0xff]

  function Ipv4Insert(cfg: Config, db: NatDb, f: Frame, now: nat, room: bool): (int, NatDb)
    requires f.Ok() && |f.b| >= 34
  {
    if Malformed(f) then (-1, db)
    else if f.b[26..30] == [0, 0, 0, 0] then (0, db)
    else (0, InsertDb(db, Ipv4Key(f.b[26..30]), Src(f), now, room))
  }

  function Ipv4Lookup(cfg: Config, db: NatDb, f: Frame, now: nat): (int, NatDb, Frame)
    requires cfg.clock.Ok() && f.Ok() && |f.b| >= 34
  {
    if Malformed(f) then (-1, db, f) else
    var key := Ipv4Key(f.b[30..34]);
    (0, LookupDb(cfg.clock, db, key, now),
     if key in db then LookupAndReplace(cfg.clock, db, key, now, f)
     else if f.b[33] == 0xff then SetDst(f, BROADCAST)
     else SetDst(f, cfg.brMac))
  }

  // ARP: header from byte 14, addresses from 22, their lengths in bytes 18 and 19.

  function ArpTargetHw(f: Frame): nat
    requires |f.b| >= 22
  {
    22 + f.b[18] as int + f.b[19] as int
  }

  predicate ArpReadable(f: Frame) {
    |f.b| >= 28 && ArpTargetHw(f) + f.b[18] as int + 4 <= |f.b| && ArpTargetHw(f) + 6 <= |f.b|
  }

  predicate ArpIsIp(f: Frame)
    requires |f.b| >= 22
  {
    Net16(f.b[16], f.b[17]) == ETH_P_IP
  }

  /** This station becomes the ARP sender; the sender's IP address is read after that. */
  function SenderReplaced(cfg: Config, f: Frame): (Frame, Key)
    requires f.Ok() && ArpReadable(f)
  {
    var b := Overwrite(f.b, 22, cfg.myMac);
    var sender := 22 + b[18] as int;
    (Frame(b, f.len), Ipv4Key(b[sender..sender + 4]))
  }

  function ArpInsert(cfg: Config, db: NatDb, f: Frame, now: nat, room: bool): (int, NatDb, Frame)
    requires f.Ok() && ArpReadable(f)
  {
    if !ArpIsIp(f) then (-1, db, f) else
    var (g, key) := SenderReplaced(cfg, f);
    (0, InsertDb(db, key, Src(f), now, room), g)
  }

  function ArpTarget(f: Frame): Key
    requires ArpReadable(f)
  {
    var target := ArpTargetHw(f) + f.b[18] as int;
    Ipv4Key(f.b[target..target + 4])
  }

  /** The destination copied to the ARP target's hardware address. */
  function TargetReplaced(g: Frame, hw: nat): Frame
    requires |g.b| >= 14 && hw + 6 <= |g.b|
  {
    Frame(Overwrite(g.b, hw, Dst(g)), g.len)
  }

  function ArpLookup(cfg: Config, db: NatDb, f: Frame, now: nat): (int, NatDb, Frame)
    requires cfg.clock.Ok() && f.Ok() && ArpReadable(f)
  {
    if !ArpIsIp(f) then (-1, db, f) else
    var key := ArpTarget(f);
    var g := LookupAndReplace(cfg.clock, db, key, now, f);
    (0, LookupDb(cfg.clock, db, key, now), TargetReplaced(g, ArpTargetHw(f)))
  }

  // PPPoE: code in byte 15, session in 16 and 17.

  predicate NoSession(f: Frame)
    requires |f.b| >= TAGS
  {
    f.b[16] == 0 && f.b[17] == 0
  }

  /** INSERT of a discovery frame. */
  function DiscoveryInsert(cfg: Config, disc: Discovery, f: Frame, code: byte): (int, Discovery, Frame)
    requires |f.b| >= TAGS
    requires cfg.addPPPoETag && code in {PADI_CODE, PADR_CODE} ==> RelayInside(f)
  {
    if code != PADI_CODE && code != PADR_CODE then (-1, disc, f)
    else if cfg.addPPPoETag then (RelayInsert(f).ret, disc, RelayInsert(f).frame)
    else if disc.inProgress > 0 && Src(f) != disc.addr then (-2, disc, f)
    else (0, Discovery(WAIT_TIME_PPPOE, if disc.inProgress == 0 then Src(f) else disc.addr), f)
  }

  function PppoeInsert(cfg: Config, db: NatDb, disc: Discovery, f: Frame, now: nat, room: bool): Outcome
    requires f.Ok() && f.len >= TAGS
    requires cfg.addPPPoETag && NoSession(f) && f.b[15] in {PADI_CODE, PADR_CODE} ==> RelayInside(f)
  {
    if NoSession(f) then
      var (ret, disc', g) := DiscoveryInsert(cfg, disc, f, f.b[15]);
      Outcome(ret, db, disc', g)
    else
      Outcome(0, InsertDb(db, PppoeKey(Dst(f), f.b[16..18]), Src(f), now, room),
              if !cfg.addPPPoETag && disc.inProgress > 0 && Src(f) == disc.addr then disc.(inProgress := 0) else disc, f)
  }

  /** LOOKUP of an answer to a discovery. */
  function AnswerLookup(cfg: Config, disc: Discovery, f: Frame): (int, Discovery, Frame)
    requires f.Ok() && |f.b| >= TAGS && (cfg.addPPPoETag ==> RelayInside(f))
  {
    if cfg.addPPPoETag then (RelayLookup(f).ret, disc, RelayLookup(f).frame)
    else if disc.inProgress == 0 then (-1, disc, f)
    else (0, disc.(inProgress := WAIT_TIME_PPPOE), SetDst(f, disc.addr))
  }

  function PppoeLookup(cfg: Config, db: NatDb, disc: Discovery, f: Frame, now: nat): Outcome
    requires cfg.clock.Ok() && f.Ok() && f.len >= TAGS
    requires cfg.addPPPoETag && f.b[15] in {PADO_CODE, PADS_CODE} ==> RelayInside(f)
  {
    if f.b[15] == PADO_CODE || f.b[15] == PADS_CODE then
      var (ret, disc', g) := AnswerLookup(cfg, disc, f);
      Outcome(ret, db, disc', g)
    else if !NoSession(f) then
      var key := PppoeKey(Src(f), f.b[16..18]);
      Outcome(0, LookupDb(cfg.clock, db, key, now), disc, LookupAndReplace(cfg.clock, db, key, now, f))
    else Outcome(-1, db, disc, f)
  }

  /** A frame that the 802.3 demultiplexer rejects: no IPX, AARP or DDP inside. */
  predicate NovellRejected(f: Frame)
    requires |f.b| >= 16
  {
    EtherType(f.b) != ETH_P_IPX && !(f.b[14] == 0xff && f.b[15] == 0xff) && f.b[14] != 0xaa && f.b[14] != 0xe0
  }

  /** The discovery frames whose tags are walked; session frames are handled by their header alone. */
  predicate WalksTags(f: Frame)
    requires |f.b| >= TAGS
  {
    (NoSession(f) && f.b[15] in {PADI_CODE, PADR_CODE}) || f.b[15] in {PADO_CODE, PADS_CODE}
  }

  /**
   The frames this model covers: the bytes their branch reads are in the buffer,
   and they are not IPX, AppleTalk or IPv6.
   */
  predicate Covered(cfg: Config, f: Frame) {
    && cfg.clock.Ok() && f.Ok() && f.len >= 14
    && match Classify(cfg.bigEndian, f.b)
       case Ipv4 => |f.b| >= 34
       case Arp => ArpReadable(f)
       case Novell => |f.b| >= 16 && NovellRejected(f)
       case Pppoe => f.len >= TAGS && (cfg.addPPPoETag && WalksTags(f) ==> RelayInside(f))
       case Ipv6 => false
       case _ => true
  }

  function HandleInsert(cfg: Config, db: NatDb, disc: Discovery, f: Frame, now: nat, room: bool): Outcome
    requires Covered(cfg, f)
  {
    match Classify(cfg.bigEndian, f.b)
    case Ipv4 =>
      var (ret, db') := Ipv4Insert(cfg, db, f, now, room);
      Outcome(ret, db', disc, f)
    case Arp =>
      var (ret, db', g) := ArpInsert(cfg, db, f, now, room);
      Outcome(ret, db', disc, g)
    case Pppoe => PppoeInsert(cfg, db, disc, f, now, room)
    case Passive => Outcome(0, db, disc, f)
    case _ => Outcome(-1, db, disc, f)
  }

  function HandleLookup(cfg: Config, db: NatDb, disc: Discovery, f: Frame, now: nat): Outcome
    requires Covered(cfg, f)
  {
    match Classify(cfg.bigEndian, f.b)
    case Ipv4 =>
      var (ret, db', g) := Ipv4Lookup(cfg, db, f, now);
      Outcome(ret, db', disc, g)
    case Arp =>
      var (ret, db', g) := ArpLookup(cfg, db, f, now);
      Outcome(ret, db', disc, g)
    case Pppoe => PppoeLookup(cfg, db, disc, f, now)
    case Passive => Outcome(0, db, disc, f)
    case _ => Outcome(-1, db, disc, f)
  }

  /** NAT25_CHECK: 0 asks the transmit path to copy the frame before it is rewritten. */
  function HandleCheck(cfg: Config, f: Frame): int
    requires Covered(cfg, f)
  {
    match Classify(cfg.bigEndian, f.b)
    case Arp => if Net16(f.b[16], f.b[17]) != ETH_P_IP then -1 else 0
    case Pppoe => if NoSession(f) then 0 else 1
    case _ => -1
  }

  /** INSERT leaves the frame as it is, whatever the bridge remembers. */
  ghost predicate InsertKeepsFrame(cfg: Config, f: Frame)
    requires Covered(cfg, f)
  {
    forall db, disc, now, room :: HandleInsert(cfg, db, disc, f, now, room).frame == f
  }

  lemma CheckedTypes(cfg: Config, f: Frame)
    requires Covered(cfg, f)
    ensures f.b[12..14] == [0x08, 0x06] <==> Classify(cfg.bigEndian, f.b) == Arp
    ensures cfg.bigEndian && f.b[12] == 0x88 && f.b[13] in {0x63, 0x64} <==> Classify(cfg.bigEndian, f.b) == Pppoe
    ensures Classify(cfg.bigEndian, f.b) == Arp ==> (f.b[16..18] == [0x08, 0x00] <==> ArpIsIp(f))
    ensures Classify(cfg.bigEndian, f.b) == Pppoe ==> (f.b[16..18] == [0, 0] <==> NoSession(f))
  {
    assert EtherType(f.b) / 256 == f.b[12] && EtherType(f.b) % 256 == f.b[13];
    if Classify(cfg.bigEndian, f.b) == Pppoe {
      LateBranchesNeedBigEndian(cfg.bigEndian, f.b);
    }
  }

  /** A frame that CHECK does not ask to copy is not rewritten; an ARP frame that it does is, with this station as sender. */
  lemma CheckGuardsRewriting(cfg: Config, f: Frame, db: NatDb, disc: Discovery, now: nat, room: bool)
    requires Covered(cfg, f)
    ensures HandleCheck(cfg, f) == 0 <==>
              || (f.b[12..14] == [0x08, 0x06] && f.b[16..18] == [0x08, 0x00])
              || (cfg.bigEndian && f.b[12] == 0x88 && f.b[13] in {0x63, 0x64} && f.b[16..18] == [0, 0])
    ensures HandleCheck(cfg, f) != 0 ==> InsertKeepsFrame(cfg, f)
    ensures HandleCheck(cfg, f) == 0 && Classify(cfg.bigEndian, f.b) == Arp ==>
              HandleInsert(cfg, db, disc, f, now, room).frame.b[22..28] == cfg.myMac
  {
    CheckedTypes(cfg, f);
    if HandleCheck(cfg, f) != 0 {
      forall db, disc, now, room ensures HandleInsert(cfg, db, disc, f, now, room).frame == f {
      }
    } else if Classify(cfg.bigEndian, f.b) == Arp {
      assert HandleInsert(cfg, db, disc, f, now, room).frame == SenderReplaced(cfg, f).0;
    }
  }

  /** A session frame needs no tag list: whatever its payload and length field, it is covered. */
  lemma SessionFramesAreCovered(cfg: Config, f: Frame)
    requires cfg.clock.Ok() && f.Ok() && f.len >= TAGS && Classify(cfg.bigEndian, f.b) == Pppoe
    requires !NoSession(f) && f.b[15] !in {PADO_CODE, PADS_CODE}
    ensures Covered(cfg, f) && InsertKey(cfg, f) == Some(PppoeKey(Dst(f), f.b[16..18]))
    ensures LookupKey(cfg, f) == Some(PppoeKey(Src(f), f.b[16..18]))
  {
  }

  // ------------------------------------------------ which key a frame is about

  /** The address a frame records on INSERT; what is recorded for it is the frame's source. */
  function InsertKey(cfg: Config, f: Frame): Option<Key>
    requires Covered(cfg, f)
  {
    match Classify(cfg.bigEndian, f.b)
    case Ipv4 =>
      if Malformed(f) || f.b[26..30] == [0, 0, 0, 0] then None else Some(Ipv4Key(f.b[26..30]))
    case Arp =>
      if Net16(f.b[16], f.b[17]) != ETH_P_IP then None else
      var b, sender := Overwrite(f.b, 22, cfg.myMac), 22 + f.b[18] as int;
      Some(Ipv4Key(b[sender..sender + 4]))
    case Pppoe => if NoSession(f) then None else Some(PppoeKey(Dst(f), f.b[16..18]))
    case _ => None
  }

  /** The address a frame is looked up by. */
  function LookupKey(cfg: Config, f: Frame): Option<Key>
    requires Covered(cfg, f)
  {
    match Classify(cfg.bigEndian, f.b)
    case Ipv4 => if Malformed(f) then None else Some(Ipv4Key(f.b[30..34]))
    case Arp =>
      if Net16(f.b[16], f.b[17]) != ETH_P_IP then None else
      var target := ArpTargetHw(f) + f.b[18] as int;
      Some(Ipv4Key(f.b[target..target + 4]))
    case Pppoe =>
      if f.b[15] == PADO_CODE || f.b[15] == PADS_CODE || NoSession(f) then None
      else Some(PppoeKey(Src(f), f.b[16..18]))
    case _ => None
  }

  /** INSERT does to the table one insert of the frame's own address, or nothing. */
  lemma InsertIsOneInsert(cfg: Config, db: NatDb, disc: Discovery, f: Frame, now: nat, room: bool)
    requires Covered(cfg, f)
    ensures HandleInsert(cfg, db, disc, f, now, room).db ==
            match InsertKey(cfg, f)
            case Some(key) => InsertDb(db, key, Src(f), now, room)
            case None => db
  {
  }

  /**
   What else INSERT does.  It refuses malformed IPv4 frames and foreign ARP, and
   records nothing for them or for a host without an address; of an
   ARP frame it rewrites the sender's hardware address and nothing else; IPv4 and
   session frames it leaves as they are.
   */
  lemma InsertRewritesArpOnly(cfg: Config, db: NatDb, disc: Discovery, f: Frame, now: nat, room: bool)
    requires Covered(cfg, f) && Classify(cfg.bigEndian, f.b) in {Ipv4, Arp}
    ensures var kind, o := Classify(cfg.bigEndian, f.b), HandleInsert(cfg, db, disc, f, now, room);
            && o.disc == disc && o.frame.len == f.len && |o.frame.b| == |f.b|
            && (o.ret == 0 || o.ret == -1)
            && (o.ret == -1 <==> if kind == Ipv4 then f.b[14] % 16 * 4 >= f.len else f.b[16..18] != [0x08, 0x00])
            && (o.ret == -1 || (kind == Ipv4 && f.b[26..30] == [0, 0, 0, 0]) ==> o.db == db)
            && forall i :: 0 <= i < |f.b| ==>
                 o.frame.b[i] == if kind == Arp && o.ret == 0 && 22 <= i < 28 then cfg.myMac[i - 22] else f.b[i]
  {
    if Classify(cfg.bigEndian, f.b) == Arp {
      assert f.b[16..18] == [0x08, 0x00] <==> ArpIsIp(f);
    }
  }

  /** Session frames are taken as they are, and end the discovery of the client they come from. */
  lemma SessionEndsDiscovery(cfg: Config, db: NatDb, disc: Discovery, f: Frame, now: nat, room: bool)
    requires Covered(cfg, f) && Classify(cfg.bigEndian, f.b) == Pppoe && !NoSession(f)
    ensures var o := HandleInsert(cfg, db, disc, f, now, room);
            && o.ret == 0 && o.frame == f && o.disc.addr == disc.addr
            && (o.disc.inProgress == 0 <==> disc.inProgress == 0 || (!cfg.addPPPoETag && Src(f) == disc.addr))
            && (o.disc.inProgress == 0 || o.disc == disc)
  {
  }

  /** Where a looked-up frame goes. */
  function Destination(cfg: Config, db: NatDb, key: Key, f: Frame, now: nat): Mac
    requires Covered(cfg, f)
  {
    match LookupMac(cfg.clock, db, key, now)
    case Some(mac) => mac
    case None =>
      if key in db || Classify(cfg.bigEndian, f.b) != Ipv4 then Dst(f)
      else if f.b[33] == 0xff then BROADCAST
      else cfg.brMac
  }

  lemma TargetBytes(g: Frame, hw: nat)
    requires |g.b| >= 14 && hw >= 22 && hw + 6 <= |g.b|
    ensures Dst(TargetReplaced(g, hw)) == Dst(g) && |TargetReplaced(g, hw).b| == |g.b|
    ensures forall i :: 0 <= i < |g.b| ==>
              TargetReplaced(g, hw).b[i] == if hw <= i < hw + 6 then Dst(g)[i - hw] else g.b[i]
  {
    assert TargetReplaced(g, hw).b[..6] == g.b[..6];
  }

  /**
   LOOKUP does to the table one lookup of the frame's address, or nothing; it
   writes the destination and, in an ARP frame, the target hardware address, and
   no other byte.
   */
  lemma LookupIsOneLookup(cfg: Config, db: NatDb, disc: Discovery, f: Frame, now: nat)
    requires Covered(cfg, f) && LookupKey(cfg, f).Some?
    ensures var key, o := LookupKey(cfg, f).value, HandleLookup(cfg, db, disc, f, now);
            && o.ret == 0 && o.disc == disc && o.db == LookupDb(cfg.clock, db, key, now)
            && o.frame.len == f.len && |o.frame.b| == |f.b|
            && Dst(o.frame) == Destination(cfg, db, key, f, now)
            && forall i :: 6 <= i < |f.b| ==>
                 o.frame.b[i] ==
                   if Classify(cfg.bigEndian, f.b) == Arp && ArpTargetHw(f) <= i < ArpTargetHw(f) + 6
                   then Dst(o.frame)[i - ArpTargetHw(f)] else f.b[i]
  {
    var key, g := LookupKey(cfg, f).value, HandleLookup(cfg, db, disc, f, now).frame;
    if Classify(cfg.bigEndian, f.b) == Arp {
      var d := LookupAndReplace(cfg.clock, db, key, now, f);
      assert g == TargetReplaced(d, ArpTargetHw(f));
      TargetBytes(d, ArpTargetHw(f));
      assert forall i :: 6 <= i < |f.b| ==> d.b[i] == f.b[i];
    }
  }

  /** PADI or PADR, from a client. */
  predicate IsRequest(cfg: Config, f: Frame)
    requires |f.b| >= TAGS
  {
    Classify(cfg.bigEndian, f.b) == Pppoe && NoSession(f) && f.b[15] in {PADI_CODE, PADR_CODE}
  }

  /** PADO or PADS, from an access concentrator. */
  predicate IsAnswer(cfg: Config, f: Frame)
    requires |f.b| >= 14
  {
    Classify(cfg.bigEndian, f.b) == Pppoe && |f.b| >= TAGS && f.b[15] in {PADO_CODE, PADS_CODE}
  }

  /**
   A frame whose address is unknown or expired: an IPv4 frame to an unknown address
   is broadcast when the address ends in 255 and else goes to the bridge; all
   others keep their destination.
   */
  lemma UnansweredLookup(cfg: Config, db: NatDb, disc: Discovery, f: Frame, now: nat)
    requires Covered(cfg, f) && LookupKey(cfg, f).Some?
    requires !Fresh(cfg.clock, db, LookupKey(cfg, f).value, now)
    ensures HandleLookup(cfg, db, disc, f, now).ret == 0
    ensures Dst(HandleLookup(cfg, db, disc, f, now).frame) ==
              if LookupKey(cfg, f).value in db || f.b[12..14] != [0x08, 0x00] then f.b[..6]
              else if f.b[33] == 255 then [255, 255, 255, 255, 255, 255]
              else cfg.brMac
  {
    LookupIsOneLookup(cfg, db, disc, f, now);
    assert f.b[12..14] == [0x08, 0x00] <==> EtherType(f.b) == ETH_P_IP;
  }

  /** Frames that are not looked up leave the table alone, and all but answers to a discovery stay as they are. */
  lemma LookupOfNothing(cfg: Config, db: NatDb, disc: Discovery, f: Frame, now: nat)
    requires Covered(cfg, f) && LookupKey(cfg, f).None?
    ensures HandleLookup(cfg, db, disc, f, now).db == db
    ensures !IsAnswer(cfg, f) ==>
              HandleLookup(cfg, db, disc, f, now)
              == Outcome(if Classify(cfg.bigEndian, f.b) == Passive then 0 else -1, db, disc, f)
  {
  }

  // ---------------------------------------------------------- runs of frames

  /** The periodic timer sweeps the table and takes two from a discovery's waiting time, as far as there are two. */
  function Waited(disc: Discovery): Discovery {
    disc.(inProgress := if disc.inProgress >= 2 then disc.inProgress - 2 else 0)
  }

  datatype FrameEvent =
    | InsertFrame(time: nat, frame: Frame, room: bool)
    | LookupFrame(time: nat, frame: Frame)
    | Tick(time: nat)
    | CleanTable(time: nat)

  /** What a bridge remembers between frames. */
  datatype Memory = Memory(db: NatDb, disc: Discovery)

  predicate CoveredEvent(cfg: Config, e: FrameEvent) {
    cfg.clock.Ok() && (e.InsertFrame? || e.LookupFrame? ==> Covered(cfg, e.frame))
  }

  predicate CoveredRun(cfg: Config, h: seq<FrameEvent>) {
    cfg.clock.Ok() && forall i :: 0 <= i < |h| ==> CoveredEvent(cfg, h[i])
  }

  function FrameStep(cfg: Config, s: Memory, e: FrameEvent): Memory
    requires CoveredEvent(cfg, e)
  {
    var now := Word(cfg.clock, e.time);
    match e
    case InsertFrame(_, f, room) =>
      var o := HandleInsert(cfg, s.db, s.disc, f, now, room);
      Memory(o.db, o.disc)
    case LookupFrame(_, f) =>
      var o := HandleLookup(cfg, s.db, s.disc, f, now);
      Memory(o.db, o.disc)
    case Tick(_) => Memory(SweepDb(cfg.clock, s.db, now), Waited(s.disc))
    case CleanTable(_) => s.(db := map[])
  }

  function FrameRun(cfg: Config, s: Memory, h: seq<FrameEvent>): Memory
    requires CoveredRun(cfg, h)
  {
    if h == [] then s else FrameStep(cfg, FrameRun(cfg, s, h[..|h| - 1]), h[|h| - 1])
  }

  /** What an event does to the table: one table operation, or nothing. */
  function TableEvents(cfg: Config, e: FrameEvent): seq<Event<Key, Mac>>
    requires CoveredEvent(cfg, e)
  {
    match e
    case InsertFrame(t, f, room) =>
      if InsertKey(cfg, f).Some? then [At(t, Insert(InsertKey(cfg, f).value, Src(f), room))] else []
    case LookupFrame(t, f) => if LookupKey(cfg, f).Some? then [At(t, Lookup(LookupKey(cfg, f).value))] else []
    case Tick(t) => [At(t, Sweep)]
    case CleanTable(t) => [At(t, Cleanup)]
  }

  function TableRun(cfg: Config, h: seq<FrameEvent>): seq<Event<Key, Mac>>
    requires CoveredRun(cfg, h)
  {
    if h == [] then [] else TableRun(cfg, h[..|h| - 1]) + TableEvents(cfg, h[|h| - 1])
  }

  lemma StepIsTableStep(cfg: Config, s: Memory, e: FrameEvent)
    requires CoveredEvent(cfg, e)
    ensures FrameStep(cfg, s, e).db == Run(cfg.clock, s.db, TableEvents(cfg, e))
  {
    var c, now := cfg.clock, Word(cfg.clock, e.time);
    match e
    case InsertFrame(t, f, room) =>
      InsertIsOneInsert(cfg, s.db, s.disc, f, now, room);
      RunOne(c, s.db, TableEvents(cfg, e));
    case LookupFrame(t, f) =>
      if LookupKey(cfg, f).Some? {
        LookupIsOneLookup(cfg, s.db, s.disc, f, now);
      } else {
        LookupOfNothing(cfg, s.db, s.disc, f, now);
      }
      RunOne(c, s.db, TableEvents(cfg, e));
    case Tick(t) => RunOne(c, s.db, TableEvents(cfg, e));
    case CleanTable(t) => RunOne(c, s.db, TableEvents(cfg, e));
  }

  lemma RunOne(c: Clock, m: NatDb, h: seq<Event<Key, Mac>>)
    requires c.Ok() && |h| <= 1
    ensures Run(c, m, h) == if h == [] then m else Step(c, m, h[0])
  {
    if h != [] {
      assert h[..0] == [];
      assert Run(c, m, h[..0]) == m;
    }
  }

  /** Over every run of frames the table goes through the run of its own operations. */
  lemma {:induction false} FramesRunTheTable(cfg: Config, s: Memory, h: seq<FrameEvent>)
    requires CoveredRun(cfg, h)
    ensures FrameRun(cfg, s, h).db == Run(cfg.clock, s.db, TableRun(cfg, h))
  {
    if h != [] {
      var g, e := h[..|h| - 1], h[|h| - 1];
      assert CoveredRun(cfg, g) by {
        forall i | 0 <= i < |g| ensures CoveredEvent(cfg, g[i]) {
          assert g[i] == h[i];
        }
      }
      FramesRunTheTable(cfg, s, g);
      StepIsTableStep(cfg, FrameRun(cfg, s, g), e);
      RunAppend(cfg.clock, s.db, TableRun(cfg, g), TableEvents(cfg, e));
    }
  }

  /** No frame of the run records `key`, and the table is not emptied. */
  predicate Untouched(cfg: Config, h: seq<FrameEvent>, key: Key)
    requires CoveredRun(cfg, h)
  {
    forall i :: 0 <= i < |h| ==> !h[i].CleanTable? && (h[i].InsertFrame? ==> InsertKey(cfg, h[i].frame) != Some(key))
  }

  lemma {:induction false} UntouchedTable(cfg: Config, h: seq<FrameEvent>, key: Key, t: nat, now: nat)
    requires CoveredRun(cfg, h) && Untouched(cfg, h, key)
    requires forall i :: 0 <= i < |h| ==> t <= h[i].time <= now
    ensures LeavesAlone(TableRun(cfg, h), key)
    ensures forall i :: 0 <= i < |TableRun(cfg, h)| ==> t <= TableRun(cfg, h)[i].time <= now
  {
    if h != [] {
      var g, e := h[..|h| - 1], h[|h| - 1];
      forall i | 0 <= i < |g| ensures g[i] == h[i] {}
      UntouchedTable(cfg, g, key, t, now);
      forall i | 0 <= i < |TableEvents(cfg, e)|
        ensures TableEvents(cfg, e)[i].time == e.time && TableEvents(cfg, e)[i].op != Cleanup
        ensures !(TableEvents(cfg, e)[i].op.Insert? && TableEvents(cfg, e)[i].op.key == key)
      {
      }
    }
  }

  /**
   The bridge sends a frame to whoever used its address last.  Take any run `pre`
   of frames, sweeps and cleanups, then a frame whose INSERT takes effect, then
   any run `post` that neither records the same address nor empties the table.
   While that INSERT is younger than the ageing period, LOOKUP of any frame for
   that address, of whatever protocol, returns 0 and makes the inserted frame's
   source the destination.
   */
  lemma LatestSourceGetsTheFrame(cfg: Config, s: Memory, pre: seq<FrameEvent>, ins: FrameEvent,
                                 post: seq<FrameEvent>, g: Frame, now: nat)
    requires CoveredRun(cfg, pre) && CoveredEvent(cfg, ins) && CoveredRun(cfg, post) && Covered(cfg, g)
    requires ins.InsertFrame? && InsertKey(cfg, ins.frame).Some?
    requires LookupKey(cfg, g) == InsertKey(cfg, ins.frame)
    requires ins.room || InsertKey(cfg, ins.frame).value in FrameRun(cfg, s, pre).db
    requires Untouched(cfg, post, InsertKey(cfg, ins.frame).value)
    requires forall i :: 0 <= i < |post| ==> ins.time <= post[i].time <= now
    requires ins.time <= now < ins.time + cfg.clock.period
    ensures CoveredRun(cfg, pre + [ins] + post)
    ensures var m := FrameRun(cfg, s, pre + [ins] + post);
            var o := HandleLookup(cfg, m.db, m.disc, g, Word(cfg.clock, now));
            o.ret == 0 && Dst(o.frame) == Src(ins.frame)
  {
    var c, key := cfg.clock, InsertKey(cfg, ins.frame).value;
    var m0 := FrameRun(cfg, s, pre);
    var op := At(ins.time, Insert(key, Src(ins.frame), ins.room));
    FramesRunTheTable(cfg, s, pre);
    StepIsTableStep(cfg, m0, ins);
    RunOne(c, m0.db, [op]);
    FrameRunAppend(cfg, s, pre + [ins], post);
    FrameRunSnoc(cfg, s, pre, ins);
    var m1 := FrameStep(cfg, m0, ins);
    FramesRunTheTable(cfg, m1, post);
    UntouchedTable(cfg, post, key, ins.time, now);
    LatestInsertWins(c, s.db, TableRun(cfg, pre), op, TableRun(cfg, post), now);
    var m := FrameRun(cfg, m1, post);
    LookupIsOneLookup(cfg, m.db, m.disc, g, Word(c, now));
  }

  /** Whom frames are about: an IPv4 host, or a PPPoE session with an access concentrator. */
  datatype Party = Host(ip: seq<byte>) | Session(ac: Mac, sid: seq<byte>)

  /** A frame from this party to the outside: IPv4 or ARP from its address, or a frame of its session. */
  predicate ComesFrom(cfg: Config, f: Frame, p: Party) {
    |f.b| >= 42 &&
    match p
    case Host(ip) =>
      || (f.b[12..14] == [0x08, 0x00] && f.b[14] % 16 * 4 < f.len && f.b[26..30] == ip != [0, 0, 0, 0])
      || (f.b[12..14] == [0x08, 0x06] && f.b[16..20] == [0x08, 0x00, 6, 4] && f.b[28..32] == ip)
    case Session(ac, sid) =>
      cfg.bigEndian && f.b[12..14] == [0x88, 0x64] && f.b[..6] == ac && f.b[16..18] == sid != [0, 0]
  }

  /** A frame from outside to this party. */
  predicate GoesTo(cfg: Config, f: Frame, p: Party) {
    |f.b| >= 42 &&
    match p
    case Host(ip) =>
      || (f.b[12..14] == [0x08, 0x00] && f.b[14] % 16 * 4 < f.len && f.b[30..34] == ip)
      || (f.b[12..14] == [0x08, 0x06] && f.b[16..20] == [0x08, 0x00, 6, 4] && f.b[38..42] == ip)
    case Session(ac, sid) =>
      cfg.bigEndian && f.b[12..14] == [0x88, 0x64] && f.b[15] == 0 && f.b[6..12] == ac && f.b[16..18] == sid != [0, 0]
  }

  function PartyKey(p: Party): Key
    requires p.Host? ==> |p.ip| == 4
    requires p.Session? ==> |p.sid| == 2
  {
    if p.Host? then Ipv4Key(p.ip) else PppoeKey(p.ac, p.sid)
  }

  /** A plain ARP header: six-byte hardware and four-byte protocol addresses. */
  lemma PlainArp(cfg: Config, f: Frame)
    requires Covered(cfg, f) && |f.b| >= 42 && f.b[12..14] == [0x08, 0x06] && f.b[16..20] == [0x08, 0x00, 6, 4]
    ensures InsertKey(cfg, f) == Some(Ipv4Key(f.b[28..32])) && LookupKey(cfg, f) == Some(Ipv4Key(f.b[38..42]))
  {
    assert f.b[16] == f.b[16..20][0] && f.b[17] == f.b[16..20][1] && f.b[18] == f.b[16..20][2] && f.b[19] == f.b[16..20][3];
    assert EtherType(f.b) == ETH_P_ARP;
    assert Overwrite(f.b, 22, cfg.myMac)[28..32] == f.b[28..32];
  }

  lemma KeyOfParty(cfg: Config, f: Frame, p: Party)
    requires Covered(cfg, f)
    ensures ComesFrom(cfg, f, p) ==> (p.Host? ==> |p.ip| == 4) && (p.Session? ==> |p.sid| == 2) && InsertKey(cfg, f) == Some(PartyKey(p))
    ensures GoesTo(cfg, f, p) ==> (p.Host? ==> |p.ip| == 4) && (p.Session? ==> |p.sid| == 2) && LookupKey(cfg, f) == Some(PartyKey(p))
  {
    if |f.b| >= 42 {
      assert f.b[12..14] == [f.b[12], f.b[13]];
      if f.b[12..14] == [0x08, 0x06] && f.b[16..20] == [0x08, 0x00, 6, 4] {
        PlainArp(cfg, f);
      }
      if f.b[12..14] == [0x88, 0x64] && cfg.bigEndian {
        assert EtherType(f.b) == ETH_P_PPP_SES;
        LateBranchesNeedBigEndian(cfg.bigEndian, f.b);
        assert f.b[16..18] == [f.b[16], f.b[17]];
      }
    }
  }

  /**
   In the frames' own bytes: after an effective INSERT of a frame that comes from
   a host or session, and for as long as it is younger than the ageing period,
   every frame to that host or session gets its source as destination.
   */
  lemma AnswersReachTheStation(cfg: Config, s: Memory, pre: seq<FrameEvent>, ins: FrameEvent,
                               post: seq<FrameEvent>, g: Frame, now: nat, p: Party)
    requires CoveredRun(cfg, pre) && CoveredEvent(cfg, ins) && CoveredRun(cfg, post) && Covered(cfg, g)
    requires ins.InsertFrame? && ins.room && ComesFrom(cfg, ins.frame, p) && GoesTo(cfg, g, p)
    requires InsertKey(cfg, ins.frame).Some? ==> Untouched(cfg, post, InsertKey(cfg, ins.frame).value)
    requires forall i :: 0 <= i < |post| ==> ins.time <= post[i].time <= now
    requires ins.time <= now < ins.time + cfg.clock.period
    ensures CoveredRun(cfg, pre + [ins] + post)
    ensures var m := FrameRun(cfg, s, pre + [ins] + post);
            var o := HandleLookup(cfg, m.db, m.disc, g, Word(cfg.clock, now));
            o.ret == 0 && o.frame.b[..6] == ins.frame.b[6..12]
  {
    KeyOfParty(cfg, ins.frame, p);
    KeyOfParty(cfg, g, p);
    LatestSourceGetsTheFrame(cfg, s, pre, ins, post, g, now);
  }

  lemma FrameRunSnoc(cfg: Config, s: Memory, h: seq<FrameEvent>, e: FrameEvent)
    requires CoveredRun(cfg, h) && CoveredEvent(cfg, e)
    ensures CoveredRun(cfg, h + [e])
    ensures FrameRun(cfg, s, h + [e]) == FrameStep(cfg, FrameRun(cfg, s, h), e)
  {
    assert (h + [e])[..|h|] == h;
  }

  lemma {:induction false} FrameRunAppend(cfg: Config, s: Memory, g: seq<FrameEvent>, h: seq<FrameEvent>)
    requires CoveredRun(cfg, g) && CoveredRun(cfg, h)
    ensures CoveredRun(cfg, g + h)
    ensures FrameRun(cfg, s, g + h) == FrameRun(cfg, FrameRun(cfg, s, g), h)
  {
    if h == [] {
      assert g + h == g;
    } else {
      var h' := h[..|h| - 1];
      forall i | 0 <= i < |h'| ensures h'[i] == h[i] {}
      FrameRunAppend(cfg, s, g, h');
      assert (g + h)[..|g + h| - 1] == g + h';
    }
  }

  // -------------------------------------------------------- PPPoE discovery

  /** A session frame from client `a`, which ends its discovery. */
  predicate EndsSession(cfg: Config, a: Mac, e: FrameEvent)
    requires CoveredEvent(cfg, e)
  {
    e.InsertFrame? && Classify(cfg.bigEndian, e.frame.b) == Pppoe && !NoSession(e.frame) && Src(e.frame) == a
  }

  /** A request from client `a`, or an answer, which renews its waiting time. */
  predicate Renews(cfg: Config, a: Mac, e: FrameEvent)
    requires CoveredEvent(cfg, e)
  {
    || (e.InsertFrame? && Classify(cfg.bigEndian, e.frame.b) == Pppoe && IsRequest(cfg, e.frame) && Src(e.frame) == a)
    || (e.LookupFrame? && IsAnswer(cfg, e.frame))
  }

  /** Timer ticks since the waiting time was last renewed. */
  function Quiet(cfg: Config, a: Mac, h: seq<FrameEvent>): nat
    requires CoveredRun(cfg, h)
  {
    if h == [] then 0
    else if Renews(cfg, a, h[|h| - 1]) then 0
    else Quiet(cfg, a, h[..|h| - 1]) + (if h[|h| - 1].Tick? then 1 else 0)
  }

  /** No three ticks have passed without a renewal, and no session has begun. */
  predicate Ongoing(cfg: Config, a: Mac, h: seq<FrameEvent>)
    requires CoveredRun(cfg, h)
  {
    Quiet(cfg, a, h) < 3 && (h != [] ==> Ongoing(cfg, a, h[..|h| - 1]) && !EndsSession(cfg, a, h[|h| - 1]))
  }

  lemma DiscoveryStep(cfg: Config, s: Memory, a: Mac, e: FrameEvent, q: nat)
    requires CoveredEvent(cfg, e) && !cfg.addPPPoETag && q < 3 && s.disc == Discovery(5 - 2 * q, a)
    ensures var r := if Renews(cfg, a, e) then 0 else if e.Tick? then q + 1 else q;
            FrameStep(cfg, s, e).disc
            == Discovery(if EndsSession(cfg, a, e) || r >= 3 then 0 else 5 - 2 * r, a)
  {
    var now := Word(cfg.clock, e.time);
    if e.InsertFrame? && Classify(cfg.bigEndian, e.frame.b) in {Ipv4, Arp} {
      InsertRewritesArpOnly(cfg, s.db, s.disc, e.frame, now, e.room);
    } else if e.LookupFrame? && LookupKey(cfg, e.frame).Some? {
      LookupIsOneLookup(cfg, s.db, s.disc, e.frame, now);
    }
  }

  /**
   Without relay tags one client's discovery is served at a time.  After a request
   accepted from client a when none was under way, the discovery is a's for as
   long as no three ticks pass without a request of a's or an answer, and no
   session frame comes from a; the first such event ends it.
   */
  lemma {:induction false} DiscoveryLasts(cfg: Config, s: Memory, ins: FrameEvent, h: seq<FrameEvent>)
    requires !cfg.addPPPoETag && s.disc.inProgress == 0 && CoveredRun(cfg, h) && CoveredEvent(cfg, ins)
    requires ins.InsertFrame? && Classify(cfg.bigEndian, ins.frame.b) == Pppoe && IsRequest(cfg, ins.frame)
    ensures CoveredRun(cfg, [ins] + h)
    ensures var a, d := Src(ins.frame), FrameRun(cfg, s, [ins] + h).disc;
            && (Ongoing(cfg, a, h) ==> d == Discovery(5 - 2 * Quiet(cfg, a, h), a))
            && (!Ongoing(cfg, a, h) && h != [] && Ongoing(cfg, a, h[..|h| - 1]) ==> d.inProgress == 0)
  {
    if h == [] {
      assert [ins] + h == [] + [ins];
      FrameRunSnoc(cfg, s, [], ins);
    } else {
      var g, e := h[..|h| - 1], h[|h| - 1];
      forall i | 0 <= i < |g| ensures g[i] == h[i] {}
      DiscoveryLasts(cfg, s, ins, g);
      assert [ins] + h == ([ins] + g) + [e];
      FrameRunSnoc(cfg, s, [ins] + g, e);
      var a := Src(ins.frame);
      if Ongoing(cfg, a, g) {
        DiscoveryStep(cfg, FrameRun(cfg, s, [ins] + g), a, e, Quiet(cfg, a, g));
      }
    }
  }

  /** While it lasts, answers go to that client and other clients' requests are refused; afterwards answers are. */
  lemma DiscoveryServed(cfg: Config, s: Memory, a: Mac, f: Frame, now: nat, room: bool)
    requires Covered(cfg, f) && !cfg.addPPPoETag && (s.disc.inProgress > 0 ==> s.disc.addr == a)
    ensures IsAnswer(cfg, f) && s.disc.inProgress > 0 ==>
              var o := HandleLookup(cfg, s.db, s.disc, f, now);
              o.ret == 0 && o.db == s.db && Dst(o.frame) == a && o.frame.b[6..] == f.b[6..] && o.frame.len == f.len
    ensures IsAnswer(cfg, f) && s.disc.inProgress == 0 ==>
              HandleLookup(cfg, s.db, s.disc, f, now) == Outcome(-1, s.db, s.disc, f)
    ensures Classify(cfg.bigEndian, f.b) == Pppoe && IsRequest(cfg, f) ==>
              var o := HandleInsert(cfg, s.db, s.disc, f, now, room);
              && o.db == s.db && o.frame == f
              && (o.ret == -2 <==> s.disc.inProgress > 0 && Src(f) != a) && (o.ret != -2 ==> o.ret == 0)
  {
  }

  /**
   With relay tags nothing is remembered: whatever the table and whatever discovery
   it is in, the request goes on with the client's address in its tag, and an
   answer that echoes the tag goes to that client.
   */
  lemma DiscoveryRelayed(cfg: Config, s: Memory, s': Memory, f: Frame, ts: seq<Tag>, g: Frame, pre: seq<Tag>, post: seq<Tag>,
                         now: nat, now': nat, room: bool)
    requires cfg.addPPPoETag && Covered(cfg, f) && Covered(cfg, g)
    requires Classify(cfg.bigEndian, f.b) == Pppoe && IsRequest(cfg, f) && IsAnswer(cfg, g)
    requires Carries(f, ts) && |Encode(ts)| + TAG_HDR_LEN + RELAY_LEN < 0x10000
    requires |Prior(ts)| <= MAX_OLD && |f.b| - f.len >= RoomNeeded(ts)
    requires FirstRelay(pre) == |pre|
    requires Carries(g, pre + [RelayTag(SourceMac(f.b), Prior(ts))] + post)
    ensures var o := HandleInsert(cfg, s.db, s.disc, f, now, room);
            && o.ret == 0 && Memory(o.db, o.disc) == s
            && Carries(o.frame, [RelayTag(SourceMac(f.b), Prior(ts))] + Others(ts))
    ensures var o := HandleLookup(cfg, s'.db, s'.disc, g, now');
            var own := if Prior(ts) == [] then [] else [Tag(PTT_RELAY_SID, Prior(ts))];
            && o.ret == 0 && Memory(o.db, o.disc) == s'
            && Carries(o.frame, pre + own + post) && o.frame.b[..18] == Src(f) + g.b[6..18]
  {
    RelayRoundTrip(f, ts, g, pre, post);
  }

  // ------------------------------------------------------- received frames

  /** The 802.1Q tag taken out: twelve address bytes, then what followed the tag. */
  function Untag(f: Frame): (g: Frame)
    requires 18 <= f.len <= |f.b|
    ensures g.Ok() && |g.b| == |f.b| - 4
  {
    Frame(f.b[..12] + f.b[16..], f.len - 4)
  }

  /** A tag with the given control information wrapped round a frame. */
  function Retag(g: Frame, tci: seq<byte>): (f: Frame)
    requires g.Ok() && g.len >= 14 && |tci| == 2
    ensures f.Ok() && |f.b| == |g.b| + 4 && f.len == g.len + 4
  {
    Frame(g.b[..12] + ToNet16(ETH_P_8021Q) + tci + g.b[12..], g.len + 4)
  }

  lemma RetagUntag(f: Frame)
    requires 18 <= f.len <= |f.b| && EtherType(f.b) == ETH_P_8021Q
    ensures Retag(Untag(f), f.b[14..16]) == f
  {
    assert f.b[12..14] == ToNet16(ETH_P_8021Q);
    assert f.b == f.b[..12] + f.b[12..14] + f.b[14..16] + f.b[16..];
  }

  /** The shortcut: the address last used on the transmit path, and its owner. */
  datatype Shortcut = Shortcut(ip: seq<byte>, mac: Mac)

  /** Whether an untagged frame reaches the table at all. */
  predicate IsLookedUp(cfg: Config, f: Frame)
    requires |f.b| >= 42
  {
    !cfg.nat25Disable
    || (EtherType(f.b) == ETH_P_IP && f.b[30..34] == cfg.brIp)
    || (EtherType(f.b) == ETH_P_ARP && f.b[38..42] == cfg.brIp)
  }

  function Process(cfg: Config, sc: Shortcut, db: NatDb, disc: Discovery, f: Frame, now: nat): (o: Outcome)
    requires f.Ok() && f.len >= 14 && |f.b| >= 42 && (IsLookedUp(cfg, f) ==> Covered(cfg, f))
    ensures o.frame.Ok() && o.frame.len >= 14
  {
    if !IsLookedUp(cfg, f) then Outcome(0, db, disc, f)
    else if !cfg.nat25Disable && !cfg.nat25scDisable && EtherType(f.b) == ETH_P_IP && f.b[30..34] == sc.ip then
      Outcome(0, db, disc, SetDst(f, sc.mac))
    else
      HandleLookup(cfg, db, disc, f, now)
  }

  /** A received frame has its header in the buffer, and is covered if a lookup runs on it. */
  predicate CoveredReceive(cfg: Config, f: Frame) {
    && f.Ok() && f.len >= 14
    && (f.b[0] % 2 == 0 ==>
          if EtherType(f.b) == ETH_P_8021Q
          then f.len >= 18 && |f.b| >= 46 && (IsLookedUp(cfg, Untag(f)) ==> Covered(cfg, Untag(f)))
          else |f.b| >= 42 && (IsLookedUp(cfg, f) ==> Covered(cfg, f)))
  }

  /** nat25_handle_frame */
  function HandleFrame(cfg: Config, sc: Shortcut, db: NatDb, disc: Discovery, f: Frame, now: nat): Outcome
    requires CoveredReceive(cfg, f)
  {
    if f.b[0] % 2 == 1 then Outcome(0, db, disc, f)
    else if EtherType(f.b) == ETH_P_8021Q then
      var o := Process(cfg, sc, db, disc, Untag(f), now);
      Outcome(if o.ret == -1 then -1 else 0, o.db, o.disc, Retag(o.frame, f.b[14..16]))
    else
      var o := Process(cfg, sc, db, disc, f, now);
      o.(ret := if o.ret == -1 then -1 else 0)
  }

  lemma UntagRetag(g: Frame, tci: seq<byte>)
    requires g.Ok() && g.len >= 14 && |tci| == 2
    ensures Untag(Retag(g, tci)) == g
  {
    var b := Retag(g, tci).b;
    assert b[..12] == g.b[..12] && b[16..] == g.b[12..];
    assert g.b == g.b[..12] + g.b[12..];
  }

  /** Whatever the lookup does or returns, the tag and its control information survive round the result. */
  lemma TagSurvives(cfg: Config, sc: Shortcut, db: NatDb, disc: Discovery, f: Frame, now: nat)
    requires CoveredReceive(cfg, f) && f.b[0] % 2 == 0 && EtherType(f.b) == ETH_P_8021Q
    ensures var o := HandleFrame(cfg, sc, db, disc, f, now);
            o.frame.b[12..16] == f.b[12..16]
            && Untag(o.frame) == Process(cfg, sc, db, disc, Untag(f), now).frame
  {
    var g := Process(cfg, sc, db, disc, Untag(f), now).frame;
    UntagRetag(g, f.b[14..16]);
    assert f.b[12..14] == ToNet16(ETH_P_8021Q);
    assert f.b[12..16] == f.b[12..14] + f.b[14..16];
  }

  /** A received unicast frame without its tag, if it has one. */
  function Inner(f: Frame): (g: Frame)
    requires f.Ok() && f.len >= 14 && (EtherType(f.b) == ETH_P_8021Q ==> f.len >= 18)
    ensures g.Ok()
  {
    if EtherType(f.b) == ETH_P_8021Q then Untag(f) else f
  }

  /** An IPv4 frame to the address last used on the transmit path, with NAT2.5 and the shortcut on. */
  predicate TakesShortcut(cfg: Config, ip: seq<byte>, g: Frame)
    requires |g.b| >= 34
  {
    !cfg.nat25Disable && !cfg.nat25scDisable && g.b[12..14] == [0x08, 0x00] && g.b[30..34] == ip
  }

  /** With NAT2.5 off, IPv4 to the bridge's own address or ARP asking for it; with it on, every frame. */
  predicate ReachesTable(cfg: Config, g: Frame)
    requires |g.b| >= 42
  {
    || !cfg.nat25Disable
    || (g.b[12] == 0x08 && g.b[13] == 0x00 && g.b[30..34] == cfg.brIp)
    || (g.b[12] == 0x08 && g.b[13] == 0x06 && g.b[38..42] == cfg.brIp)
  }

  lemma ReachesTableIs(cfg: Config, g: Frame)
    requires |g.b| >= 42
    ensures ReachesTable(cfg, g) <==> IsLookedUp(cfg, g)
  {
  }

  /** Multicast frames and those that no lookup runs on come back byte for byte, tagged or not. */
  lemma UntouchedFrame(cfg: Config, sc: Shortcut, db: NatDb, disc: Discovery, f: Frame, now: nat)
    requires CoveredReceive(cfg, f) && (f.b[0] % 2 == 1 || !ReachesTable(cfg, Inner(f)))
    ensures HandleFrame(cfg, sc, db, disc, f, now) == Outcome(0, db, disc, f)
  {
    if f.b[0] % 2 == 0 && EtherType(f.b) == ETH_P_8021Q {
      RetagUntag(f);
    }
  }

  /** A processed frame with the tag, if there was one, round it again. */
  function Outer(f: Frame, d: Frame): (o: Frame)
    requires f.Ok() && f.len >= 14 && (EtherType(f.b) == ETH_P_8021Q ==> f.len >= 18) && d.Ok() && d.len >= 14
  {
    if EtherType(f.b) == ETH_P_8021Q then Retag(d, f.b[14..16]) else d
  }

  /** Where byte i of a received frame is without the tag. */
  function InnerAt(f: Frame, i: nat): nat
    requires |f.b| >= 14 && i >= 16
  {
    if EtherType(f.b) == ETH_P_8021Q then i - 4 else i
  }

  /** Source, tag and type stay as long as the processing leaves them, and every byte behind them goes back to its place. */
  lemma OuterBytes(f: Frame, d: Frame)
    requires f.Ok() && f.len >= 14 && (EtherType(f.b) == ETH_P_8021Q ==> f.len >= 18) && |f.b| >= 42
    requires d.Ok() && d.len >= 14 && |d.b| == |Inner(f).b|
    requires d.b[6..16] == Inner(f).b[6..16]
    ensures var h := Outer(f, d);
            && |h.b| == |f.b| && h.b[..6] == d.b[..6] && h.b[6..16] == f.b[6..16]
            && (forall i :: 16 <= i < |f.b| ==> h.b[i] == d.b[InnerAt(f, i)] && f.b[i] == Inner(f).b[InnerAt(f, i)])
  {
    if EtherType(f.b) == ETH_P_8021Q {
      var h := Outer(f, d);
      assert f.b[12..14] == ToNet16(ETH_P_8021Q);
      assert d.b[6..12] == d.b[6..16][..6] && f.b[6..12] == Inner(f).b[6..16][..6];
      assert f.b[6..16] == f.b[6..12] + f.b[12..14] + f.b[14..16];
      assert h.b[6..16] == d.b[6..12] + f.b[12..14] + f.b[14..16];
    }
  }

  /** A received unicast frame that takes the shortcut. */
  predicate ShortcutFrame(cfg: Config, ip: seq<byte>, f: Frame)
    requires CoveredReceive(cfg, f)
  {
    f.b[0] % 2 == 0 && TakesShortcut(cfg, ip, Inner(f))
  }

  lemma ShortcutLaw(cfg: Config, sc: Shortcut, db: NatDb, disc: Discovery, f: Frame, now: nat)
    requires CoveredReceive(cfg, f)
    ensures ShortcutFrame(cfg, sc.ip, f) ==> Redirected(HandleFrame(cfg, sc, db, disc, f, now), db, disc, f, sc.mac)
  {
    if ShortcutFrame(cfg, sc.ip, f) {
      ShortcutTaken(cfg, sc, db, disc, f, now);
    }
  }

  /** Byte j is in the target hardware address of an ARP frame. */
  predicate IsArpTarget(cfg: Config, g: Frame, j: nat)
    requires Covered(cfg, g)
  {
    Classify(cfg.bigEndian, g.b) == Arp && ArpTargetHw(g) <= j < ArpTargetHw(g) + 6
  }

  lemma LookedUpKeeps(cfg: Config, db: NatDb, disc: Discovery, g: Frame, now: nat)
    requires Covered(cfg, g) && LookupKey(cfg, g).Some? && |g.b| >= 42
    ensures var key, o := LookupKey(cfg, g).value, HandleLookup(cfg, db, disc, g, now);
            && o.ret == 0 && o.disc == disc && o.db == LookupDb(cfg.clock, db, key, now)
            && o.frame.len == g.len && |o.frame.b| == |g.b| && Dst(o.frame) == Destination(cfg, db, key, g, now)
            && o.frame.b[6..16] == g.b[6..16]
            && forall j :: 16 <= j < |g.b| && !IsArpTarget(cfg, g, j) ==> o.frame.b[j] == g.b[j]
  {
    LookupIsOneLookup(cfg, db, disc, g, now);
  }

  /** A frame that is looked up, tagged or not, is the one the lookup leaves. */
  lemma ReceivedIs(cfg: Config, sc: Shortcut, db: NatDb, disc: Discovery, f: Frame, now: nat)
    requires CoveredReceive(cfg, f) && f.b[0] % 2 == 0
    requires var g := Inner(f); IsLookedUp(cfg, g) && LookupKey(cfg, g).Some? && !TakesShortcut(cfg, sc.ip, g)
    ensures var o := HandleLookup(cfg, db, disc, Inner(f), now);
            o.frame.Ok() && o.frame.len >= 14 &&
            HandleFrame(cfg, sc, db, disc, f, now) == Outcome(0, o.db, o.disc, Outer(f, o.frame))
  {
    var g := Inner(f);
    NoShortcut(cfg, sc, db, disc, g, now);
    LookedUpKeeps(cfg, db, disc, g, now);
  }

  lemma NoShortcut(cfg: Config, sc: Shortcut, db: NatDb, disc: Discovery, g: Frame, now: nat)
    requires g.Ok() && g.len >= 14 && |g.b| >= 42 && Covered(cfg, g)
    requires IsLookedUp(cfg, g) && !TakesShortcut(cfg, sc.ip, g)
    ensures Process(cfg, sc, db, disc, g, now) == HandleLookup(cfg, db, disc, g, now)
  {
    assert g.b[12..14] == [0x08, 0x00] <==> EtherType(g.b) == ETH_P_IP;
  }

  /** The frame goes to `mac` and nothing else has changed. */
  predicate Redirected(o: Outcome, db: NatDb, disc: Discovery, f: Frame, mac: Mac) {
    && o.ret == 0 && o.db == db && o.disc == disc && o.frame.len == f.len && |o.frame.b| == |f.b| && |f.b| >= 14
    && o.frame.b[..6] == mac && forall i :: 6 <= i < |f.b| ==> o.frame.b[i] == f.b[i]
  }

  /**
   A received IPv4 frame to the shortcut's address, tagged or not, goes to the
   shortcut's hardware address; the table is not asked and no other byte changes.
   */
  lemma ShortcutTaken(cfg: Config, sc: Shortcut, db: NatDb, disc: Discovery, f: Frame, now: nat)
    requires CoveredReceive(cfg, f) && f.b[0] % 2 == 0 && TakesShortcut(cfg, sc.ip, Inner(f))
    ensures Redirected(HandleFrame(cfg, sc, db, disc, f, now), db, disc, f, sc.mac)
  {
    var g := Inner(f);
    assert EtherType(g.b) == ETH_P_IP;
    var d := SetDst(g, sc.mac);
    assert HandleFrame(cfg, sc, db, disc, f, now) == Outcome(0, db, disc, Outer(f, d));
    forall i | 6 <= i < |g.b| ensures d.b[i] == g.b[i] {
      assert d.b[i] == d.b[6..][i - 6] && g.b[i] == g.b[6..][i - 6];
    }
    OuterBytes(f, d);
    KeptBytes(f, Outer(f, d));
  }

  lemma KeptBytes(f: Frame, h: Frame)
    requires |h.b| == |f.b| >= 16 && h.b[6..16] == f.b[6..16] && forall i :: 16 <= i < |f.b| ==> h.b[i] == f.b[i]
    ensures forall i :: 6 <= i < |f.b| ==> h.b[i] == f.b[i]
  {
    forall i | 6 <= i < 16 ensures h.b[i] == f.b[i] {
      assert h.b[i] == h.b[6..16][i - 6] && f.b[i] == f.b[6..16][i - 6];
    }
  }

  /**
   Any other received frame with a key that a lookup runs on, and with NAT2.5 off
   that is the bridge's own traffic, goes where the table says, with the shortcut
   on or off; the table has seen one lookup, the tag is kept, and no other byte
   changes but the target hardware address of an ARP frame.
   */
  lemma ReceivedFrameIsLookedUp(cfg: Config, sc: Shortcut, db: NatDb, disc: Discovery, f: Frame, now: nat)
    requires CoveredReceive(cfg, f) && f.b[0] % 2 == 0
    requires var g := Inner(f); ReachesTable(cfg, g) && Covered(cfg, g) && LookupKey(cfg, g).Some? && !TakesShortcut(cfg, sc.ip, g)
    ensures var g, o := Inner(f), HandleFrame(cfg, sc, db, disc, f, now);
            var key := LookupKey(cfg, g).value;
            && o.ret == 0 && o.disc == disc && o.db == LookupDb(cfg.clock, db, key, now)
            && o.frame.len == f.len && |o.frame.b| == |f.b|
            && Dst(o.frame) == Destination(cfg, db, key, g, now) && o.frame.b[6..16] == f.b[6..16]
            && forall i :: 16 <= i < |f.b| && !IsArpTarget(cfg, g, InnerAt(f, i)) ==> o.frame.b[i] == f.b[i]
  {
    var g := Inner(f);
    var d := HandleLookup(cfg, db, disc, g, now).frame;
    ReachesTableIs(cfg, g);
    ReceivedIs(cfg, sc, db, disc, f, now);
    LookedUpKeeps(cfg, db, disc, g, now);
    OuterBytes(f, d);
  }
}
