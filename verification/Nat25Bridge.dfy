/**
 The NAT2.5 bridge on socket buffers: frames rewritten in place, the table kept
 in its hash chains, both proved to do what Nat25Frames says.
 */
module Nat25Bridge {
  import opened Bytes
  import opened Nat25Address
  import opened Nat25Db
  import opened Nat25Frames
  import opened Nat25Table
  import opened PppoeRelay
  import opened SkBuffs
  import HashChains

  lemma AddressesMoved(b: seq<byte>)
    requires |b| >= 18
    ensures (b[..4] + b[0..12] + b[16..])[4..] == b[..12] + b[16..]
  {
    var s, t := b[..4] + b[0..12] + b[16..], b[..12] + b[16..];
    forall k | 0 <= k < |t| ensures s[4..][k] == t[k] {
      assert s[4..][k] == s[4 + k];
    }
  }

  /**
   Moves the two addresses up over the tag, a word at a time from the end, and
   pulls the frame's start up to them.
   */
  method StripTag(skb: SkBuff)
    requires skb.Valid() && 18 <= skb.frame.len <= |skb.frame.b|
    modifies skb`data, skb`len, skb`frame, skb.buf
    ensures skb.Valid() && skb.frame == Untag(old(skb.frame)) && skb.data == old(skb.data) + 4
  {
    ghost var b := skb.frame.b;
    var i := 0;
    while i < 6
      invariant i <= 6 && skb.Valid() && skb.data == old(skb.data)
      invariant skb.frame == Frame(b[..16 - 2 * i] + b[12 - 2 * i..12] + b[16..], old(skb.frame.len))
    {
      MoveWordUp(skb, i, b);
      i := i + 1;
    }
    AddressesMoved(b);
    skb.Pull(4);
  }

  lemma WordUp(b: seq<byte>, i: nat)
    requires i < 6 && |b| >= 18
    ensures Overwrite(b[..16 - 2 * i] + b[12 - 2 * i..12] + b[16..], 14 - 2 * i, b[10 - 2 * i..12 - 2 * i])
            == b[..14 - 2 * i] + b[10 - 2 * i..12] + b[16..]
  {
  }

  method MoveWordUp(skb: SkBuff, i: nat, ghost b: seq<byte>)
    requires i < 6 && skb.Valid() && 18 <= |b| && skb.frame.b == b[..16 - 2 * i] + b[12 - 2 * i..12] + b[16..]
    modifies skb`len, skb`frame, skb.buf
    ensures skb.Valid() && skb.frame == Frame(b[..14 - 2 * i] + b[10 - 2 * i..12] + b[16..], old(skb.frame.len))
  {
    var w := skb.GetAll(10 - 2 * i, 2);
    assert w == b[10 - 2 * i..12 - 2 * i];
    WordUp(b, i);
    skb.Copy(14 - 2 * i, w);
  }

  /** Pushes the start back, moves the addresses down and writes the tag again. */
  method RestoreTag(skb: SkBuff, tci: seq<byte>)
    requires skb.Valid() && skb.data >= 4 && 14 <= skb.frame.len <= |skb.frame.b| && |tci| == 2
    modifies skb`data, skb`len, skb`frame, skb.buf
    ensures skb.Valid() && skb.frame == Retag(old(skb.frame), tci) && skb.data == old(skb.data) - 4
  {
    ghost var g := skb.frame.b;
    skb.Push(4);
    assert skb.frame.b[4..16] == g[..12] && skb.frame.b[16..] == g[12..];
    MoveAddressesDown(skb);
    WriteTag(skb, tci);
  }

  method WriteTag(skb: SkBuff, tci: seq<byte>)
    requires skb.Valid() && 16 <= |skb.frame.b| && |tci| == 2
    modifies skb`len, skb`frame, skb.buf
    ensures skb.Valid()
    ensures skb.frame == Frame(old(skb.frame.b)[..12] + ToNet16(ETH_P_8021Q) + tci + old(skb.frame.b)[16..], old(skb.frame.len))
  {
    ghost var b := skb.frame.b;
    skb.Copy(12, ToNet16(ETH_P_8021Q));
    skb.Copy(14, tci);
    assert skb.frame.b == b[..12] + ToNet16(ETH_P_8021Q) + tci + b[16..];
  }

  /** The bytes when `i` words have been moved down. */
  function Lowered(b: seq<byte>, i: nat): (r: seq<byte>)
    requires i <= 6 && |b| >= 18
    ensures |r| == |b|
  {
    b[4..4 + 2 * i] + b[2 * i..]
  }

  lemma LoweredEnds(b: seq<byte>)
    requires |b| >= 18
    ensures Lowered(b, 0) == b && Lowered(b, 6) == b[4..16] + b[12..]
  {
    assert b[4..4] + b[0..] == b;
  }

  method MoveAddressesDown(skb: SkBuff)
    requires skb.Valid() && 18 <= |skb.frame.b|
    modifies skb`len, skb`frame, skb.buf
    ensures skb.Valid()
    ensures skb.frame == Frame(old(skb.frame.b)[4..16] + old(skb.frame.b)[12..], old(skb.frame.len))
  {
    ghost var b := skb.frame.b;
    LoweredEnds(b);
    var i := 0;
    while i < 6
      invariant i <= 6 && skb.Valid() && skb.frame == Frame(Lowered(b, i), old(skb.frame.len))
    {
      MoveWordDown(skb, i, b);
      i := i + 1;
    }
  }

  lemma WordDown(b: seq<byte>, i: nat)
    requires i < 6 && |b| >= 18
    ensures Lowered(b, i)[4 + 2 * i..6 + 2 * i] == b[4 + 2 * i..6 + 2 * i]
    ensures Overwrite(Lowered(b, i), 2 * i, b[4 + 2 * i..6 + 2 * i]) == Lowered(b, i + 1)
  {
  }

  method MoveWordDown(skb: SkBuff, i: nat, ghost b: seq<byte>)
    requires i < 6 && skb.Valid() && 18 <= |b| && skb.frame.b == Lowered(b, i)
    modifies skb`len, skb`frame, skb.buf
    ensures skb.Valid() && skb.frame == Frame(Lowered(b, i + 1), old(skb.frame.len))
  {
    var w := skb.GetAll(4 + 2 * i, 2);
    WordDown(b, i);
    skb.Copy(2 * i, w);
  }

  class Bridge {
    const cfg: Config
    const table: Table<Key, Mac>
    var disc: Discovery

    ghost predicate Valid()
      reads this, table
    {
      table.Valid() && table.clock == cfg.clock
    }

    constructor (cfg: Config)
      requires cfg.clock.Ok()
      ensures Valid() && fresh(table) && table.view == map[] && disc.inProgress == 0 && this.cfg == cfg
    {
      this.cfg := cfg;
      table := new Table(cfg.clock, HASH_SIZE, k => Hash(k), [0, 0, 0, 0, 0, 0]);
      disc := Discovery(0, [0, 0, 0, 0, 0, 0]);
    }

    method GetEtherType(skb: SkBuff) returns (t: nat, b12: byte, b13: byte)
      requires skb.Valid() && |skb.frame.b| >= 14
      ensures t == EtherType(skb.frame.b) && b12 == skb.frame.b[12] && b13 == skb.frame.b[13]
    {
      b12 := skb.Get(12);
      b13 := skb.Get(13);
      t := Net16(b12, b13);
    }

    method GetKind(skb: SkBuff) returns (k: Kind)
      requires skb.Valid() && |skb.frame.b| >= 14
      ensures k == Classify(cfg.bigEndian, skb.frame.b)
    {
      var head := skb.GetAll(0, 14);
      k := Classify(cfg.bigEndian, head);
    }

    /** Looks the key up and writes the destination; tells whether the key is linked. */
    method LookupReplace(skb: SkBuff, key: Key, now: nat) returns (linked: bool)
      requires Valid() && now < cfg.clock.modulus && skb.Valid() && skb.frame.Ok() && |skb.frame.b| >= 14
      modifies table, skb`len, skb`frame, skb.buf
      ensures Valid() && skb.Valid() && linked == (key in old(table.view))
      ensures table.view == LookupDb(cfg.clock, old(table.view), key, now)
      ensures skb.frame == LookupAndReplace(cfg.clock, old(table.view), key, now, old(skb.frame))
    {
      var hit;
      linked, hit := table.NetworkLookup(key, now);
      match hit {
        case Some(mac) => skb.Copy(0, mac);
        case None =>
      }
    }

    method InsertKeyed(skb: SkBuff, key: Key, now: nat, room: Option<HashChains.Ptr>)
      requires Valid() && now < cfg.clock.modulus && skb.Valid() && |skb.frame.b| >= 14
      requires room.Some? ==> room.value != HashChains.NULL && room.value !in table.networkAddr
      modifies table
      ensures Valid() && table.view == InsertDb(old(table.view), key, Src(skb.frame), now, room.Some?)
    {
      var mac := skb.GetAll(ETH_ALEN, ETH_ALEN);
      assert mac == Src(skb.frame);
      table.NetworkInsert(mac, key, now, room);
    }

    method IsMalformed(skb: SkBuff) returns (r: bool)
      requires skb.Valid() && |skb.frame.b| >= 34
      ensures r == Malformed(skb.frame)
    {
      var ihl := skb.Get(14);
      var len := skb.Length();
      r := ihl % 16 * 4 >= len;
    }

    /** The header check and the source address. */
    method ReadIpv4(skb: SkBuff) returns (bad: bool, saddr: seq<byte>)
      requires skb.Valid() && |skb.frame.b| >= 34
      ensures bad == Malformed(skb.frame) && saddr == skb.frame.b[26..30]
    {
      bad := IsMalformed(skb);
      saddr := skb.GetAll(26, 4);
    }

    method InsertIpv4(skb: SkBuff, now: nat, room: Option<HashChains.Ptr>) returns (ret: int)
      requires Valid() && now < cfg.clock.modulus && skb.Valid() && skb.frame.Ok() && |skb.frame.b| >= 34
      requires room.Some? ==> room.value != HashChains.NULL && room.value !in table.networkAddr
      modifies table
      ensures Valid() && (ret, table.view) == Ipv4Insert(cfg, old(table.view), skb.frame, now, room.Some?)
    {
      var bad, saddr := ReadIpv4(skb);
      if bad {
        return -1;
      }
      if saddr != [0, 0, 0, 0] {
        InsertKeyed(skb, Ipv4Key(saddr), now, room);
      }
      return 0;
    }

    method LookupIpv4(skb: SkBuff, now: nat) returns (ret: int)
      requires Valid() && now < cfg.clock.modulus && skb.Valid() && skb.frame.Ok() && |skb.frame.b| >= 34
      modifies table, skb`len, skb`frame, skb.buf
      ensures Valid() && skb.Valid()
      ensures (ret, table.view, skb.frame) == Ipv4Lookup(cfg, old(table.view), old(skb.frame), now)
    {
      var bad := IsMalformed(skb);
      if bad {
        return -1;
      }
      var daddr := skb.GetAll(30, 4);
      var linked := LookupReplace(skb, Ipv4Key(daddr), now);
      if !linked {
        skb.Copy(0, if daddr[3] == 0xff then BROADCAST else cfg.brMac);
      }
      return 0;
    }

    method IsArpIp(skb: SkBuff) returns (r: bool)
      requires skb.Valid() && |skb.frame.b| >= 22
      ensures r == ArpIsIp(skb.frame)
    {
      var p0 := skb.Get(16);
      var p1 := skb.Get(17);
      r := Net16(p0, p1) == ETH_P_IP;
    }

    method ReplaceSender(skb: SkBuff) returns (key: Key)
      requires skb.Valid() && skb.frame.Ok() && ArpReadable(skb.frame)
      modifies skb`len, skb`frame, skb.buf
      ensures skb.Valid() && (skb.frame, key) == SenderReplaced(cfg, old(skb.frame))
    {
      skb.Copy(22, cfg.myMac);
      var hln := skb.Get(18);
      var sender := skb.GetAll(22 + hln as int, 4);
      key := Ipv4Key(sender);
    }

    method InsertArp(skb: SkBuff, now: nat, room: Option<HashChains.Ptr>) returns (ret: int)
      requires Valid() && now < cfg.clock.modulus && skb.Valid() && skb.frame.Ok() && ArpReadable(skb.frame)
      requires room.Some? ==> room.value != HashChains.NULL && room.value !in table.networkAddr
      modifies table, skb`len, skb`frame, skb.buf
      ensures Valid() && skb.Valid()
      ensures (ret, table.view, skb.frame) == ArpInsert(cfg, old(table.view), old(skb.frame), now, room.Some?)
    {
      var isIp := IsArpIp(skb);
      if !isIp {
        return -1;
      }
      var mac := skb.GetAll(ETH_ALEN, ETH_ALEN);
      var key := ReplaceSender(skb);
      table.NetworkInsert(mac, key, now, room);
      return 0;
    }

    method GetTarget(skb: SkBuff) returns (key: Key, hw: nat)
      requires skb.Valid() && ArpReadable(skb.frame)
      ensures key == ArpTarget(skb.frame) && hw == ArpTargetHw(skb.frame)
    {
      var hln := skb.Get(18);
      var pln := skb.Get(19);
      hw := 22 + hln as int + pln as int;
      var target := skb.GetAll(hw + hln as int, 4);
      key := Ipv4Key(target);
    }

    method ReplaceTarget(skb: SkBuff, hw: nat)
      requires skb.Valid() && |skb.frame.b| >= 14 && hw + 6 <= |skb.frame.b|
      modifies skb`len, skb`frame, skb.buf
      ensures skb.Valid() && skb.frame == TargetReplaced(old(skb.frame), hw)
    {
      var dst := skb.GetAll(0, ETH_ALEN);
      skb.Copy(hw, dst);
    }

    method LookupArp(skb: SkBuff, now: nat) returns (ret: int)
      requires Valid() && now < cfg.clock.modulus && skb.Valid() && skb.frame.Ok() && ArpReadable(skb.frame)
      modifies table, skb`len, skb`frame, skb.buf
      ensures Valid() && skb.Valid()
      ensures (ret, table.view, skb.frame) == ArpLookup(cfg, old(table.view), old(skb.frame), now)
    {
      var isIp := IsArpIp(skb);
      if !isIp {
        return -1;
      }
      var key, hw := GetTarget(skb);
      var linked := LookupReplace(skb, key, now);
      ReplaceTarget(skb, hw);
      return 0;
    }

    /** Reads the code byte and the session of a PPPoE header. */
    method GetPppoe(skb: SkBuff) returns (code: byte, sid: seq<byte>)
      requires skb.Valid() && |skb.frame.b| >= TAGS
      ensures code == skb.frame.b[15] && sid == skb.frame.b[16..18]
      ensures sid == [0, 0] <==> NoSession(skb.frame)
    {
      code := skb.Get(15);
      sid := skb.GetAll(16, 2);
      assert sid == [skb.frame.b[16], skb.frame.b[17]];
    }

    /** A discovery frame from a client while relay tags are off: one client at a time. */
    method ClaimDiscovery(src: Mac) returns (ret: int)
      modifies this`disc
      ensures if old(disc).inProgress > 0 && src != old(disc).addr then ret == -2 && disc == old(disc)
              else ret == 0 && disc == Discovery(WAIT_TIME_PPPOE, if old(disc).inProgress == 0 then src else old(disc).addr)
    {
      if disc.inProgress > 0 && src != disc.addr {
        return -2;
      }
      if disc.inProgress == 0 {
        disc := disc.(addr := src);
      }
      disc := disc.(inProgress := WAIT_TIME_PPPOE);
      return 0;
    }

    /** A discovery frame: only PADI and PADR are taken, by relay tag or one client at a time. */
    method InsertDiscovery(skb: SkBuff, code: byte) returns (ret: int)
      requires skb.Valid() && |skb.frame.b| >= TAGS
      requires cfg.addPPPoETag && code in {PADI_CODE, PADR_CODE} ==> RelayInside(skb.frame)
      modifies this`disc, skb`len, skb`frame, skb.buf
      ensures skb.Valid()
      ensures (ret, disc, skb.frame) == DiscoveryInsert(cfg, old(disc), old(skb.frame), code)
    {
      var src := skb.GetAll(ETH_ALEN, ETH_ALEN);
      if code != PADI_CODE && code != PADR_CODE {
        return -1;
      }
      if cfg.addPPPoETag {
        ret := SkbRelayInsert(skb);
      } else {
        ret := ClaimDiscovery(src);
      }
    }

    /** A session frame is recorded under its concentrator and session, and ends the client's discovery. */
    method InsertSession(skb: SkBuff, sid: seq<byte>, now: nat, room: Option<HashChains.Ptr>)
      requires Valid() && now < cfg.clock.modulus && skb.Valid() && |skb.frame.b| >= TAGS && |sid| == 2
      requires room.Some? ==> room.value != HashChains.NULL && room.value !in table.networkAddr
      modifies this`disc, table
      ensures Valid() && table.view == InsertDb(old(table.view), PppoeKey(Dst(skb.frame), sid), Src(skb.frame), now, room.Some?)
      ensures disc == if !cfg.addPPPoETag && old(disc).inProgress > 0 && Src(skb.frame) == old(disc).addr
                      then old(disc).(inProgress := 0) else old(disc)
    {
      var dst := skb.GetAll(0, ETH_ALEN);
      var src := skb.GetAll(ETH_ALEN, ETH_ALEN);
      InsertKeyed(skb, PppoeKey(dst, sid), now, room);
      if !cfg.addPPPoETag && disc.inProgress > 0 && src == disc.addr {
        disc := disc.(inProgress := 0);
      }
    }

    method InsertPppoe(skb: SkBuff, now: nat, room: Option<HashChains.Ptr>) returns (ret: int)
      requires Valid() && now < cfg.clock.modulus && skb.Valid() && skb.frame.Ok() && skb.frame.len >= TAGS
      requires cfg.addPPPoETag && NoSession(skb.frame) && skb.frame.b[15] in {PADI_CODE, PADR_CODE} ==> RelayInside(skb.frame)
      requires room.Some? ==> room.value != HashChains.NULL && room.value !in table.networkAddr
      modifies this`disc, table, skb`len, skb`frame, skb.buf
      ensures Valid() && skb.Valid()
      ensures Outcome(ret, table.view, disc, skb.frame)
              == PppoeInsert(cfg, old(table.view), old(disc), old(skb.frame), now, room.Some?)
    {
      var code, sid := GetPppoe(skb);
      if sid == [0, 0] {
        ret := InsertDiscovery(skb, code);
      } else {
        InsertSession(skb, sid, now, room);
        return 0;
      }
    }

    method LookupPppoe(skb: SkBuff, now: nat) returns (ret: int)
      requires Valid() && now < cfg.clock.modulus && skb.Valid() && skb.frame.Ok() && skb.frame.len >= TAGS
      requires cfg.addPPPoETag && skb.frame.b[15] in {PADO_CODE, PADS_CODE} ==> RelayInside(skb.frame)
      modifies this`disc, table, skb`len, skb`frame, skb.buf
      ensures Valid() && skb.Valid()
      ensures Outcome(ret, table.view, disc, skb.frame)
              == PppoeLookup(cfg, old(table.view), old(disc), old(skb.frame), now)
    {
      var code, sid := GetPppoe(skb);
      if code == PADO_CODE || code == PADS_CODE {
        ret := AnswerDiscovery(skb);
      } else if sid != [0, 0] {
        var src := skb.GetAll(ETH_ALEN, ETH_ALEN);
        var linked := LookupReplace(skb, PppoeKey(src, sid), now);
        return 0;
      } else {
        return -1;
      }
    }

    /** An answer to a discovery while relay tags are off goes to the client in progress. */
    method AnswerDiscovery(skb: SkBuff) returns (ret: int)
      requires skb.Valid() && skb.frame.Ok() && |skb.frame.b| >= TAGS && (cfg.addPPPoETag ==> RelayInside(skb.frame))
      modifies this`disc, skb`len, skb`frame, skb.buf
      ensures skb.Valid() && (ret, disc, skb.frame) == AnswerLookup(cfg, old(disc), old(skb.frame))
    {
      if cfg.addPPPoETag {
        ret := SkbRelayLookup(skb);
        return;
      }
      if disc.inProgress == 0 {
        return -1;
      }
      skb.Copy(0, disc.addr);
      disc := disc.(inProgress := WAIT_TIME_PPPOE);
      return 0;
    }

    /** nat25_db_handle with method INSERT. */
    method DbInsert(skb: SkBuff, now: nat, room: Option<HashChains.Ptr>) returns (ret: int)
      requires Valid() && now < cfg.clock.modulus && skb.Valid() && Covered(cfg, skb.frame)
      requires room.Some? ==> room.value != HashChains.NULL && room.value !in table.networkAddr
      modifies this`disc, table, skb`len, skb`frame, skb.buf
      ensures Valid() && skb.Valid()
      ensures Outcome(ret, table.view, disc, skb.frame)
              == HandleInsert(cfg, old(table.view), old(disc), old(skb.frame), now, room.Some?)
    {
      var k := GetKind(skb);
      match k {
        case Ipv4 => ret := InsertIpv4(skb, now, room);
        case Arp => ret := InsertArp(skb, now, room);
        case Pppoe => ret := InsertPppoe(skb, now, room);
        case Passive => ret := 0;
        case _ => ret := -1;
      }
    }

    /** nat25_db_handle with method LOOKUP. */
    method DbLookup(skb: SkBuff, now: nat) returns (ret: int)
      requires Valid() && now < cfg.clock.modulus && skb.Valid() && Covered(cfg, skb.frame)
      modifies this`disc, table, skb`len, skb`frame, skb.buf
      ensures Valid() && skb.Valid()
      ensures Outcome(ret, table.view, disc, skb.frame)
              == HandleLookup(cfg, old(table.view), old(disc), old(skb.frame), now)
    {
      var k := GetKind(skb);
      match k {
        case Ipv4 => ret := LookupIpv4(skb, now);
        case Arp => ret := LookupArp(skb, now);
        case Pppoe => ret := LookupPppoe(skb, now);
        case Passive => ret := 0;
        case _ => ret := -1;
      }
    }

    /** nat25_db_handle with method CHECK. */
    method DbCheck(skb: SkBuff) returns (ret: int)
      requires skb.Valid() && Covered(cfg, skb.frame)
      ensures ret == HandleCheck(cfg, skb.frame) && (ret != 0 ==> InsertKeepsFrame(cfg, skb.frame))
    {
      CheckGuardsRewriting(cfg, skb.frame, map[], disc, 0, false);
      var k := GetKind(skb);
      match k {
        case Arp =>
          var isIp := IsArpIp(skb);
          ret := if isIp then 0 else -1;
        case Pppoe =>
          var _, sid := GetPppoe(skb);
          ret := if sid == [0, 0] then 0 else 1;
        case _ => ret := -1;
      }
    }

    /** Whether a frame reaches the table: always, or only the bridge's own traffic when NAT2.5 is off. */
    method WantsLookup(skb: SkBuff) returns (r: bool)
      requires skb.Valid() && |skb.frame.b| >= 42
      ensures r == IsLookedUp(cfg, skb.frame)
    {
      if !cfg.nat25Disable {
        return true;
      }
      var t, _, _ := GetEtherType(skb);
      var daddr := skb.GetAll(30, 4);
      var target := skb.GetAll(38, 4);
      return (t == ETH_P_IP && daddr == cfg.brIp) || (t == ETH_P_ARP && target == cfg.brIp);
    }

    method ProcessFrame(skb: SkBuff, now: nat) returns (ret: int)
      requires Valid() && now < cfg.clock.modulus && skb.Valid() && skb.frame.Ok() && skb.frame.len >= 14
      requires |skb.frame.b| >= 42 && (IsLookedUp(cfg, skb.frame) ==> Covered(cfg, skb.frame))
      modifies this`disc, table, skb`len, skb`frame, skb.buf
      ensures Valid() && skb.Valid()
      ensures Outcome(ret, table.view, disc, skb.frame)
              == Process(cfg, old(Shortcut(table.scdbIp, table.scdbMac)), old(table.view), old(disc), old(skb.frame), now)
    {
      var wanted := WantsLookup(skb);
      if !wanted {
        return 0;
      }
      var t, _, _ := GetEtherType(skb);
      var daddr := skb.GetAll(30, 4);
      if !cfg.nat25Disable && !cfg.nat25scDisable && t == ETH_P_IP && daddr == table.scdbIp {
        skb.Copy(0, table.scdbMac);
        return 0;
      }
      ret := DbLookup(skb, now);
    }

    /** The frame without its tag, processed, and the tag put round it again. */
    method ProcessTagged(skb: SkBuff, now: nat) returns (ret: int)
      requires Valid() && now < cfg.clock.modulus && skb.Valid() && skb.frame.Ok()
      requires skb.frame.len >= 18 && |skb.frame.b| >= 46
      requires IsLookedUp(cfg, Untag(skb.frame)) ==> Covered(cfg, Untag(skb.frame))
      modifies this`disc, table, skb`data, skb`len, skb`frame, skb.buf
      ensures Valid() && skb.Valid() && skb.data == old(skb.data)
      ensures var o := Process(cfg, old(Shortcut(table.scdbIp, table.scdbMac)), old(table.view), old(disc), Untag(old(skb.frame)), now);
              Outcome(ret, table.view, disc, skb.frame) == o.(frame := Retag(o.frame, old(skb.frame).b[14..16]))
    {
      var tci := skb.GetAll(14, 2);
      StripTag(skb);
      ret := ProcessFrame(skb, now);
      RestoreTag(skb, tci);
    }

    /** nat25_handle_frame */
    method ReceiveFrame(skb: SkBuff, now: nat) returns (ret: int)
      requires Valid() && now < cfg.clock.modulus && skb.Valid() && CoveredReceive(cfg, skb.frame)
      modifies this`disc, table, skb`data, skb`len, skb`frame, skb.buf
      ensures Valid() && skb.Valid() && skb.data == old(skb.data)
      ensures Outcome(ret, table.view, disc, skb.frame)
              == HandleFrame(cfg, old(Shortcut(table.scdbIp, table.scdbMac)), old(table.view), old(disc), old(skb.frame), now)
      ensures ShortcutFrame(cfg, old(table.scdbIp), old(skb.frame)) ==>
                Redirected(Outcome(ret, table.view, disc, skb.frame), old(table.view), old(disc), old(skb.frame), old(table.scdbMac))
    {
      ShortcutLaw(cfg, Shortcut(table.scdbIp, table.scdbMac), table.view, disc, skb.frame, now);
      var b0 := skb.Get(0);
      if b0 % 2 == 1 {
        return 0;
      }
      var t, _, _ := GetEtherType(skb);
      if t == ETH_P_8021Q {
        ret := ProcessTagged(skb, now);
      } else {
        ret := ProcessFrame(skb, now);
      }
      ret := if ret == -1 then -1 else 0;
    }

    /**
     The two uses of the shortcut.  After a frame from `src` with IPv4 address `ip`
     has been taken by it on the transmit path, a received IPv4 frame to `ip`,
     tagged or not, goes to `src`, unless the shortcut was `src`'s already for
     another address, which it then keeps.
     */
    method TransmitThenReceive(src: Mac, ip: seq<byte>, skb: SkBuff, now: nat) returns (handled: bool, ret: int)
      requires Valid() && now < cfg.clock.modulus && |ip| == 4 && !cfg.nat25Disable && !cfg.nat25scDisable
      requires skb.Valid() && CoveredReceive(cfg, skb.frame) && skb.frame.b[0] % 2 == 0
      requires var g := Inner(skb.frame); EtherType(g.b) == ETH_P_IP && g.b[30..34] == ip
      modifies this`disc, table, skb`data, skb`len, skb`frame, skb.buf
      ensures Valid() && skb.Valid()
      ensures handled && (old(table.scdbMac) == src ==> old(table.scdbIp) == ip) ==>
                && ret == 0 && |skb.frame.b| == |old(skb.frame.b)| && Dst(skb.frame) == src
                && forall i :: 6 <= i < |skb.frame.b| ==> skb.frame.b[i] == old(skb.frame.b)[i]
    {
      assert Inner(skb.frame).b[12..14] == [0x08, 0x00];
      handled := table.TransmitShortcut(src, ip, Ipv4Key(ip), now);
      ret := ReceiveFrame(skb, now);
    }

    /** What the bridge remembers between frames. */
    ghost function Remembers(): Memory
      reads this, table
    {
      Memory(table.view, disc)
    }

    /** The bridge's part of the periodic timer, which runs every two seconds. */
    method TimerTick(now: nat)
      requires Valid() && now < cfg.clock.modulus
      modifies this`disc, table
      ensures Valid() && table.view == SweepDb(cfg.clock, old(table.view), now) && disc == Waited(old(disc))
    {
      table.DbExpire(now);
      if disc.inProgress > 0 {
        disc := disc.(inProgress := disc.inProgress - 1);
      }
      if disc.inProgress > 0 {
        disc := disc.(inProgress := disc.inProgress - 1);
      }
    }

    /** One event of a run, the frame in a buffer of its own. */
    method ExecuteOne(e: FrameEvent)
      requires Valid() && CoveredEvent(cfg, e)
      modifies this`disc, table
      ensures Valid() && Remembers() == FrameStep(cfg, old(Remembers()), e)
    {
      var now := Word(cfg.clock, e.time);
      match e {
        case InsertFrame(_, f, room) =>
          var skb := NewSkb(f);
          var p := table.NewMemory();
          var ret := DbInsert(skb, now, if room then Some(p) else None);
        case LookupFrame(_, f) =>
          var skb := NewSkb(f);
          var ret := DbLookup(skb, now);
        case Tick(_) => TimerTick(now);
        case CleanTable(_) => table.DbCleanup();
      }
    }

    static method NewSkb(f: Frame) returns (skb: SkBuff)
      requires f.Ok()
      ensures fresh(skb) && fresh(skb.buf) && skb.Valid() && skb.frame == f
    {
      var buf := new byte[|f.b|](i requires 0 <= i < |f.b| => f.b[i]);
      skb := new SkBuff(buf, 0, f.len);
      assert buf[0..] == f.b;
    }

    /** Any run of frames, sweeps and cleanups, carried out in place, is the run FrameRun speaks of. */
    method Execute(h: seq<FrameEvent>)
      requires Valid() && CoveredRun(cfg, h)
      modifies this`disc, table
      ensures Valid() && Remembers() == FrameRun(cfg, old(Remembers()), h)
    {
      ghost var s := Remembers();
      for n := 0 to |h|
        invariant Valid() && CoveredRun(cfg, h[..n]) && Remembers() == FrameRun(cfg, s, h[..n])
      {
        FrameRunSnoc(cfg, s, h[..n], h[n]);
        assert h[..n + 1] == h[..n] + [h[n]];
        ExecuteOne(h[n]);
      }
      assert h[..|h|] == h;
    }
  }
}
