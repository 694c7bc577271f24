/**
 dhcp_flag_bcast: sets the broadcast flag of a DHCP request in place and repairs
 the UDP checksum incrementally.  The sum a receiver checks is over words in
 network order, while the code adds words as the host reads them, so the law is
 proved for both byte orders.
 */
module DhcpFlag {
  import opened Bytes
  import opened Residues

  const ETH_HLEN := 14
  const IPPROTO_UDP := 17
  const DHCP_MAGIC: seq<byte> := [0x63, 0x82, 0x53, 0x63]
  const CLIENT_TO_SERVER: seq<byte> := [0, 68, 0, 67]

  /** A 16-bit field as the host reads it. */
  function HostWord(big: bool, x: byte, y: byte): (w: nat)
    ensures w < 0x10000
  {
    if big then x * 256 + y else y * 256 + x
  }

  function HostBytes(big: bool, w: nat): (d: seq<byte>)
    requires w < 0x10000
    ensures |d| == 2
  {
    if big then [w / 256, w % 256] else [w % 256, w / 256]
  }

  /** The one's-complement value of a sum: the carries added back in until none is left. */
  function Folded(sum: nat): (r: nat)
    ensures r < 0x10000
  {
    if sum == 0 then 0 else (sum - 1) % 65535 + 1
  }

  /** The fold loop ends, and keeps the sum modulo 65535 and whether it is zero. */
  method FoldCarries(sum0: nat) returns (sum: nat)
    ensures sum == Folded(sum0)
  {
    sum := sum0;
    while sum / 0x10000 != 0
      invariant Folded(sum) == Folded(sum0)
      decreases sum
    {
      ghost var carry := sum / 0x10000;
      ghost var next := sum % 0x10000 + carry;
      assert sum - 1 == next - 1 + 65535 * carry;
      ModMultiple(next - 1, carry, 65535);
      sum := sum % 0x10000 + sum / 0x10000;
    }
  }

  // ------------------------------------------------------------- one frame

  function UdpAt(f: seq<byte>): nat
    requires |f| > ETH_HLEN
  {
    ETH_HLEN + f[ETH_HLEN] % 16 * 4
  }

  /** Each field that the tests so far make the code read is in the frame; it checks none of this itself. */
  predicate ReadsInside(f: seq<byte>) {
    && |f| >= ETH_HLEN
    && (f[12..14] == [0x08, 0x00] ==>
          && |f| > ETH_HLEN + 9
          && (f[ETH_HLEN + 9] == IPPROTO_UDP ==>
                && UdpAt(f) + 4 <= |f|
                && (f[UdpAt(f)..UdpAt(f) + 4] == CLIENT_TO_SERVER ==> UdpAt(f) + 248 <= |f|)))
  }

  /** The UDP header is behind an IP header of the regular size, and the DHCP fields are in the frame. */
  predicate Readable(f: seq<byte>) {
    |f| > ETH_HLEN && UdpAt(f) >= ETH_HLEN + 20 && UdpAt(f) + 248 <= |f|
  }

  predicate IsDhcpRequest(f: seq<byte>) {
    && |f| > ETH_HLEN + 9 && f[12..14] == [0x08, 0x00] && f[ETH_HLEN + 9] == IPPROTO_UDP
    && var u := UdpAt(f);
       u + 248 <= |f| && f[u..u + 4] == CLIENT_TO_SERVER && f[u + 244..u + 248] == DHCP_MAGIC
  }

  function Check(f: seq<byte>, big: bool): nat
    requires |f| > ETH_HLEN && UdpAt(f) + 8 <= |f|
  {
    HostWord(big, f[UdpAt(f) + 6], f[UdpAt(f) + 7])
  }

  function Flags(f: seq<byte>, big: bool): nat
    requires |f| > ETH_HLEN && UdpAt(f) + 20 <= |f|
  {
    HostWord(big, f[UdpAt(f) + 18], f[UdpAt(f) + 19])
  }

  /** htons(BROADCAST_FLAG) */
  function FlagBit(big: bool): nat {
    if big then 0x8000 else 0x0080
  }

  predicate Broadcast(flags: nat, big: bool) {
    flags / FlagBit(big) % 2 == 1
  }

  /** The code's incremental update: it never subtracts the old flags. */
  function NewCheck(check: nat, flags: nat): (r: nat)
    requires check < 0x10000
    ensures r < 0x10000
  {
    0xffff - Folded(0xffff - check + flags)
  }

  /** The flag set and the checksum repaired, in a frame whose UDP header is at `u`. */
  function SetFlag(f: seq<byte>, u: nat, big: bool): seq<byte>
    requires u + 20 <= |f| && !Broadcast(HostWord(big, f[u + 18], f[u + 19]), big)
  {
    var flags := HostWord(big, f[u + 18], f[u + 19]) + FlagBit(big);
    var check := NewCheck(HostWord(big, f[u + 6], f[u + 7]), flags);
    Overwrite(Overwrite(f, u + 18, HostBytes(big, flags)), u + 6, HostBytes(big, check))
  }

  /** The frame after the call. */
  function Flagged(f: seq<byte>, disabled: bool, big: bool): seq<byte> {
    if disabled || !IsDhcpRequest(f) || Broadcast(Flags(f, big), big) then f
    else SetFlag(f, UdpAt(f), big)
  }

  method SetFlagInPlace(skb: array<byte>, u: nat, big: bool)
    requires u + 20 <= skb.Length && !Broadcast(HostWord(big, skb[u + 18], skb[u + 19]), big)
    modifies skb
    ensures skb[..] == SetFlag(old(skb[..]), u, big)
  {
    var flags := HostWord(big, skb[u + 18], skb[u + 19]) + FlagBit(big);
    var check := HostWord(big, skb[u + 6], skb[u + 7]);
    Memcpy(skb, u + 18, HostBytes(big, flags));
    var sum := FoldCarries(0xffff - check + flags);
    Memcpy(skb, u + 6, HostBytes(big, 0xffff - sum));
  }

  // ---------------------------------------------------------- the checksum

  /** The plain sum of the words of `s` in network order, an odd last byte padded with zero. */
  function WordSum(s: seq<byte>): nat {
    if s == [] then 0
    else if |s| == 1 then s[0] * 256
    else Net16(s[0], s[1]) + WordSum(s[2..])
  }

  /** The length field of the UDP header covers the DHCP fields and lies in the frame. */
  predicate WellFormed(f: seq<byte>) {
    Readable(f)
    && var u := UdpAt(f); 248 <= Net16(f[u + 4], f[u + 5]) <= |f| - u
  }

  function UdpLength(f: seq<byte>): nat
    requires Readable(f)
  {
    Net16(f[UdpAt(f) + 4], f[UdpAt(f) + 5])
  }

  /** The addresses, the protocol and the UDP length. */
  function PseudoHeader(f: seq<byte>, u: nat): (p: seq<byte>)
    requires ETH_HLEN + 20 <= u && u + 8 <= |f|
    ensures |p| == 12
  {
    f[ETH_HLEN + 12..ETH_HLEN + 20] + [0, f[ETH_HLEN + 9]] + f[u + 4..u + 6]
  }

  /** What the checksum of RFC 768 is over: pseudo header, UDP header and data. */
  function ChecksumInput(f: seq<byte>): seq<byte>
    requires WellFormed(f)
  {
    PseudoHeader(f, UdpAt(f)) + f[UdpAt(f)..UdpAt(f) + UdpLength(f)]
  }

  /** The sum a receiver takes when the checksum field is not zero. */
  predicate SumOk(f: seq<byte>)
    requires WellFormed(f)
  {
    Folded(WordSum(ChecksumInput(f))) == 0xffff
  }

  /** The receiver's test: a checksum field of zero means that there is none (RFC 768). */
  predicate Accepted(f: seq<byte>, big: bool)
    requires WellFormed(f)
  {
    Check(f, big) == 0 || SumOk(f)
  }

  lemma {:induction false} WordSumUpdate(s: seq<byte>, i: nat, d: seq<byte>)
    requires 2 * i + 2 <= |s| && |d| == 2
    ensures WordSum(Overwrite(s, 2 * i, d)) == WordSum(s) - Net16(s[2 * i], s[2 * i + 1]) + Net16(d[0], d[1])
  {
    var t := Overwrite(s, 2 * i, d);
    if i == 0 {
      assert t[2..] == s[2..];
    } else {
      WordSumUpdate(s[2..], i - 1, d);
      assert t[2..] == Overwrite(s[2..], 2 * (i - 1), d);
    }
  }

  /** A word in network order; with the bytes swapped that is 256 times the word, modulo 65535. */
  function Net(big: bool, w: nat): nat
    requires w < 0x10000
  {
    var d := HostBytes(big, w);
    Net16(d[0], d[1])
  }

  lemma NetIsMultiple(big: bool, w: nat) returns (k: int)
    requires w < 0x10000
    ensures Net(big, w) == (if big then w else 256 * w) + 65535 * k
  {
    k := if big then 0 else -(w / 256);
  }

  lemma NewCheckIsDifference(check: nat, flags: nat) returns (k: int)
    requires check < 0x10000 && flags < 0x10000
    ensures NewCheck(check, flags) == check - flags + 65535 * k
  {
    var sum := 0xffff - check + flags;
    k := if sum == 0 then 0 else (sum - 1) / 65535;
  }

  /** The words' contribution to the sum before and after, in either byte order. */
  lemma WordsAfter(big: bool, check: nat, flags: nat) returns (k: int)
    requires check < 0x10000 && flags < 0x10000
    ensures Net(big, NewCheck(check, flags)) + Net(big, flags) == Net(big, check) + 65535 * k
  {
    var k0 := NewCheckIsDifference(check, flags);
    var k1 := NetIsMultiple(big, check);
    var k2 := NetIsMultiple(big, flags);
    var k3 := NetIsMultiple(big, NewCheck(check, flags));
    k := k3 + k2 - k1 + (if big then k0 else 256 * k0);
  }

  lemma FullFold(sum: nat)
    requires sum > 0
    ensures Folded(sum) == 0xffff <==> sum % 65535 == 0
  {
    if Folded(sum) == 0xffff {
      assert sum == 65535 * ((sum - 1) / 65535 + 1);
      ModMultiple(0, (sum - 1) / 65535 + 1, 65535);
    } else if sum % 65535 == 0 {
      ModUnique(sum - 1, 65535, sum / 65535 - 1, 65534);
    }
  }

  lemma SliceAround(f: seq<byte>, at: nat, d: seq<byte>, x: nat, y: nat)
    requires at + |d| <= |f| && x <= y <= |f| && (y <= at || at + |d| <= x)
    ensures Overwrite(f, at, d)[x..y] == f[x..y]
  {
  }

  lemma SliceAcross(f: seq<byte>, at: nat, d: seq<byte>, x: nat, y: nat)
    requires x <= at && at + |d| <= y <= |f|
    ensures Overwrite(f, at, d)[x..y] == Overwrite(f[x..y], at - x, d)
  {
  }

  lemma OverwriteTail(p: seq<byte>, t: seq<byte>, at: nat, d: seq<byte>)
    requires at + |d| <= |t|
    ensures Overwrite(p + t, |p| + at, d) == p + Overwrite(t, at, d)
  {
  }

  lemma PseudoHeaderKept(f: seq<byte>, u: nat, i: nat, d: seq<byte>)
    requires ETH_HLEN + 20 <= u && 6 <= i && u + i + |d| <= |f| && u + 8 <= |f|
    ensures PseudoHeader(Overwrite(f, u + i, d), u) == PseudoHeader(f, u)
  {
    SliceAround(f, u + i, d, ETH_HLEN + 12, ETH_HLEN + 20);
    SliceAround(f, u + i, d, u + 4, u + 6);
  }

  lemma HeaderKept(f: seq<byte>, i: nat, d: seq<byte>)
    requires WellFormed(f) && 6 <= i && i + |d| <= 248
    ensures var g := Overwrite(f, UdpAt(f) + i, d);
            WellFormed(g) && UdpAt(g) == UdpAt(f) && UdpLength(g) == UdpLength(f)
  {
  }

  /** A field of the UDP datagram past its length field, written in the frame. */
  lemma FieldInInput(f: seq<byte>, i: nat, d: seq<byte>)
    requires WellFormed(f) && 6 <= i && i + |d| <= 248
    ensures var g := Overwrite(f, UdpAt(f) + i, d);
            WellFormed(g) && UdpAt(g) == UdpAt(f)
            && ChecksumInput(g) == Overwrite(ChecksumInput(f), 12 + i, d)
  {
    var u, length := UdpAt(f), UdpLength(f);
    HeaderKept(f, i, d);
    PseudoHeaderKept(f, u, i, d);
    SliceAcross(f, u + i, d, u, u + length);
    OverwriteTail(PseudoHeader(f, u), f[u..u + length], i, d);
  }

  lemma {:induction false} WordAtMost(s: seq<byte>, i: nat)
    requires 2 * i + 2 <= |s|
    ensures Net16(s[2 * i], s[2 * i + 1]) <= WordSum(s)
  {
    if i > 0 {
      WordAtMost(s[2..], i - 1);
    }
  }

  /**
   On the checksum's input, flags at byte 30 and checksum at byte 18, both edits
   together change the sum by the old flags and a multiple of 65535, and leave it positive.
   */
  lemma SumShift(s: seq<byte>, big: bool, was: nat, flags: nat, check: nat) returns (k: int)
    requires |s| >= 32 && was < 0x10000 && 0 < flags < 0x10000 && check < 0x10000
    requires Net16(s[30], s[31]) == Net(big, was) && Net16(s[18], s[19]) == Net(big, check)
    ensures var t := Overwrite(Overwrite(s, 30, HostBytes(big, flags)), 18, HostBytes(big, NewCheck(check, flags)));
            WordSum(t) == WordSum(s) - Net(big, was) + 65535 * k && WordSum(t) > 0
  {
    var fb, cb := HostBytes(big, flags), HostBytes(big, NewCheck(check, flags));
    var s1 := Overwrite(s, 30, fb);
    var t := Overwrite(s1, 18, cb);
    WordSumUpdate(s, 15, fb);
    WordSumUpdate(s1, 9, cb);
    k := WordsAfter(big, check, flags);
    assert Net16(t[30], t[31]) == Net(big, flags) > 0;
    WordAtMost(t, 15);
  }

  /** So the sum verifies afterwards exactly when the old one less the old flags is a multiple of 65535. */
  lemma SumAfter(s: seq<byte>, big: bool, was: nat, flags: nat, check: nat)
    requires |s| >= 32 && was < 0x10000 && 0 < flags < 0x10000 && check < 0x10000
    requires Net16(s[30], s[31]) == Net(big, was) && Net16(s[18], s[19]) == Net(big, check)
    ensures var t := Overwrite(Overwrite(s, 30, HostBytes(big, flags)), 18, HostBytes(big, NewCheck(check, flags)));
            Folded(WordSum(t)) == 0xffff <==> (WordSum(s) - Net(big, was)) % 65535 == 0
  {
    var k := SumShift(s, big, was, flags, check);
    var t := Overwrite(Overwrite(s, 30, HostBytes(big, flags)), 18, HostBytes(big, NewCheck(check, flags)));
    ModMultiple(WordSum(s) - Net(big, was), k, 65535);
    FullFold(WordSum(t));
  }

  lemma InputBytes(f: seq<byte>, big: bool)
    requires WellFormed(f)
    ensures |ChecksumInput(f)| >= 32
    ensures Net16(ChecksumInput(f)[30], ChecksumInput(f)[31]) == Net(big, Flags(f, big))
    ensures Net16(ChecksumInput(f)[18], ChecksumInput(f)[19]) == Net(big, Check(f, big))
  {
  }

  /** Where the datagram of a well-formed frame starts, and what its checksum runs over. */
  function InputOf(f: seq<byte>): Option<(nat, seq<byte>)> {
    if WellFormed(f) then Some((UdpAt(f), ChecksumInput(f))) else None
  }

  /** One edit of the datagram is one edit of the checksum's input. */
  lemma FieldInKnown(f: seq<byte>, u: nat, input: seq<byte>, i: nat, d: seq<byte>)
    requires InputOf(f) == Some((u, input)) && 6 <= i && i + |d| <= 248 && 12 + i + |d| <= |input|
    ensures u + i + |d| <= |f|
    ensures InputOf(Overwrite(f, u + i, d)) == Some((u, Overwrite(input, 12 + i, d)))
  {
    FieldInInput(f, i, d);
  }

  lemma TwoFields(f: seq<byte>, fb: seq<byte>, cb: seq<byte>)
    requires WellFormed(f) && |fb| == |cb| == 2 && |ChecksumInput(f)| >= 32
    ensures var g := Overwrite(Overwrite(f, UdpAt(f) + 18, fb), UdpAt(f) + 6, cb);
            WellFormed(g) && ChecksumInput(g) == Overwrite(Overwrite(ChecksumInput(f), 30, fb), 18, cb)
  {
    var u, input := UdpAt(f), ChecksumInput(f);
    FieldInKnown(f, u, input, 18, fb);
    FieldInKnown(Overwrite(f, u + 18, fb), u, Overwrite(input, 30, fb), 6, cb);
  }

  lemma SetFlagIs(f: seq<byte>, big: bool)
    requires Readable(f) && !Broadcast(Flags(f, big), big)
    ensures Flags(f, big) + FlagBit(big) < 0x10000
    ensures var flags := Flags(f, big) + FlagBit(big);
            SetFlag(f, UdpAt(f), big)
            == Overwrite(Overwrite(f, UdpAt(f) + 18, HostBytes(big, flags)),
                         UdpAt(f) + 6, HostBytes(big, NewCheck(Check(f, big), flags)))
  {
  }

  lemma InputAfter(f: seq<byte>, big: bool)
    requires WellFormed(f) && !Broadcast(Flags(f, big), big)
    ensures Flags(f, big) + FlagBit(big) < 0x10000
    ensures |ChecksumInput(f)| >= 32
    ensures var flags := Flags(f, big) + FlagBit(big);
            WellFormed(SetFlag(f, UdpAt(f), big))
            && ChecksumInput(SetFlag(f, UdpAt(f), big))
               == Overwrite(Overwrite(ChecksumInput(f), 30, HostBytes(big, flags)),
                            18, HostBytes(big, NewCheck(Check(f, big), flags)))
  {
    SetFlagIs(f, big);
    var flags := Flags(f, big) + FlagBit(big);
    var fb, cb := HostBytes(big, flags), HostBytes(big, NewCheck(Check(f, big), flags));
    assert SetFlag(f, UdpAt(f), big) == Overwrite(Overwrite(f, UdpAt(f) + 18, fb), UdpAt(f) + 6, cb);
    TwoFields(f, fb, cb);
  }

  /**
   For every DHCP request, of any length and in either byte order: after the
   update the receiver's test holds exactly if the old sum, less the old flags,
   was a multiple of 65535.
   */
  lemma ChecksumAfter(f: seq<byte>, big: bool)
    requires WellFormed(f) && !Broadcast(Flags(f, big), big)
    ensures WellFormed(SetFlag(f, UdpAt(f), big))
    ensures SumOk(SetFlag(f, UdpAt(f), big))
            <==> (WordSum(ChecksumInput(f)) - Net(big, Flags(f, big))) % 65535 == 0
  {
    InputAfter(f, big);
    InputBytes(f, big);
    SumAfter(ChecksumInput(f), big, Flags(f, big), Flags(f, big) + FlagBit(big), Check(f, big));
  }

  /**
   So a datagram whose checksum verifies still verifies after its broadcast flag
   was set if and only if its other flag bits were all zero.
   */
  lemma FlagKeepsChecksum(f: seq<byte>, big: bool)
    requires WellFormed(f) && !Broadcast(Flags(f, big), big) && SumOk(f)
    ensures WellFormed(SetFlag(f, UdpAt(f), big))
    ensures SumOk(SetFlag(f, UdpAt(f), big)) <==> Flags(f, big) == 0
  {
    ChecksumAfter(f, big);
    var sum, n := WordSum(ChecksumInput(f)), Net(big, Flags(f, big));
    FullFold(sum);
    assert n < 65535;
    if n > 0 {
      assert sum == 65535 * (sum / 65535);
      ModUnique(sum - n, 65535, sum / 65535 - 1, 65535 - n);
    }
  }

  /** The update sets the broadcast bit and keeps every other flag. */
  lemma FlagIsSet(f: seq<byte>, big: bool)
    requires Readable(f) && !Broadcast(Flags(f, big), big)
    ensures Readable(SetFlag(f, UdpAt(f), big))
    ensures Flags(SetFlag(f, UdpAt(f), big), big) == Flags(f, big) + FlagBit(big)
  {
    var u, g := UdpAt(f), SetFlag(f, UdpAt(f), big);
    assert g[ETH_HLEN] == f[ETH_HLEN];
    assert [g[u + 18], g[u + 19]] == HostBytes(big, Flags(f, big) + FlagBit(big));
  }

  /** The new checksum field is zero only in these two cases. */
  lemma NewCheckZero(check: nat, flags: nat)
    requires check < 0x10000 && 0 < flags < 0x10000
    ensures NewCheck(check, flags) == 0 <==> check == flags || (check == 0 && flags == 0xffff)
  {
    var sum := 0xffff - check + flags;
    FullFold(sum);
    if check == flags {
      assert sum == 65535 * 1;
    } else if check == 0 && flags == 0xffff {
      assert sum == 65535 * 2;
    } else if check < flags {
      ModUnique(sum, 65535, 1, flags - check);
    } else {
      ModUnique(sum, 65535, 0, sum);
    }
  }

  lemma CheckAfter(f: seq<byte>, big: bool)
    requires Readable(f) && !Broadcast(Flags(f, big), big)
    ensures Flags(f, big) + FlagBit(big) < 0x10000 && Readable(SetFlag(f, UdpAt(f), big))
    ensures Check(SetFlag(f, UdpAt(f), big), big) == NewCheck(Check(f, big), Flags(f, big) + FlagBit(big))
  {
    var u, g := UdpAt(f), SetFlag(f, UdpAt(f), big);
    assert g[ETH_HLEN] == f[ETH_HLEN];
    assert [g[u + 6], g[u + 7]] == HostBytes(big, NewCheck(Check(f, big), Flags(f, big) + FlagBit(big)));
  }

  /** When the datagram is accepted after the update, whatever it was before. */
  lemma AcceptedAfter(f: seq<byte>, big: bool)
    requires WellFormed(f) && !Broadcast(Flags(f, big), big)
    ensures WellFormed(SetFlag(f, UdpAt(f), big))
    ensures var flags := Flags(f, big) + FlagBit(big);
            Accepted(SetFlag(f, UdpAt(f), big), big)
            <==> Check(f, big) == flags || (Check(f, big) == 0 && flags == 0xffff)
                 || (WordSum(ChecksumInput(f)) - Net(big, Flags(f, big))) % 65535 == 0
  {
    ChecksumAfter(f, big);
    CheckAfter(f, big);
    NewCheckZero(Check(f, big), Flags(f, big) + FlagBit(big));
  }

  /**
   A datagram that carries a checksum and is accepted is accepted after the
   update if and only if its other flag bits were all zero, or its checksum
   equals the new flags, for then the new checksum is zero.
   */
  lemma FlagKeepsAcceptance(f: seq<byte>, big: bool)
    requires WellFormed(f) && !Broadcast(Flags(f, big), big) && Accepted(f, big) && Check(f, big) != 0
    ensures WellFormed(SetFlag(f, UdpAt(f), big))
    ensures Accepted(SetFlag(f, UdpAt(f), big), big)
            <==> Flags(f, big) == 0 || Check(f, big) == Flags(f, big) + FlagBit(big)
  {
    FlagKeepsChecksum(f, big);
    ChecksumAfter(f, big);
    AcceptedAfter(f, big);
  }

  /**
   A datagram without a checksum is given one, unless all flags are set now; it
   is right, and the datagram still accepted, only if the sum of the datagram as
   it was is the old flags, modulo 65535.
   */
  lemma NoChecksumGetsOne(f: seq<byte>, big: bool)
    requires WellFormed(f) && !Broadcast(Flags(f, big), big) && Check(f, big) == 0
    ensures WellFormed(SetFlag(f, UdpAt(f), big))
    ensures Check(SetFlag(f, UdpAt(f), big), big) == 0xffff - (Flags(f, big) + FlagBit(big))
    ensures Accepted(SetFlag(f, UdpAt(f), big), big)
            <==> Flags(f, big) + FlagBit(big) == 0xffff
                 || (WordSum(ChecksumInput(f)) - Net(big, Flags(f, big))) % 65535 == 0
  {
    AcceptedAfter(f, big);
    CheckAfter(f, big);
    NewCheckOfNone(Flags(f, big) + FlagBit(big));
  }

  lemma NewCheckOfNone(flags: nat)
    requires 0 < flags < 0x10000
    ensures NewCheck(0, flags) == 0xffff - flags
  {
    assert 0xffff + flags - 1 == 65535 * 1 + (flags - 1);
    ModMultiple(flags - 1, 1, 65535);
  }

  // ------------------------------------------------------- a failing request

  lemma {:induction false} WordSumAppend(a: seq<byte>, b: seq<byte>)
    requires |a| % 2 == 0
    ensures WordSum(a + b) == WordSum(a) + WordSum(b)
  {
    if a == [] {
      assert a + b == b;
    } else {
      WordSumAppend(a[2..], b);
      assert (a + b)[2..] == a[2..] + b;
    }
  }

  lemma {:induction false} WordSumZeros(n: nat)
    ensures WordSum(Zeros(2 * n)) == 0
  {
    if n > 0 {
      WordSumZeros(n - 1);
      assert Zeros(2 * n)[2..] == Zeros(2 * (n - 1));
    }
  }

  const IP_HEAD: seq<byte> := [0x45, 0, 0, 0, 0, 0, 0, 0, 0, 17, 0, 0]
  const UDP_HEAD: seq<byte> := [0, 68, 0, 67, 0, 248, 0x46, 0x91]

  /** The UDP datagram of a DHCP request with one reserved flag set and a checksum that verifies. */
  function FlaggedDatagram(): (d: seq<byte>)
    ensures |d| == 248
  {
    UDP_HEAD + Zeros(10) + [0, 1] + Zeros(224) + DHCP_MAGIC
  }

  function FlaggedRequest(): (f: seq<byte>)
    ensures |f| == 34 + 248
  {
    (Zeros(12) + [0x08, 0x00] + IP_HEAD + Zeros(8)) + FlaggedDatagram()
  }

  lemma DatagramFields()
    ensures var d := FlaggedDatagram();
            d[..8] == UDP_HEAD && d[18..20] == [0, 1] && d[244..248] == DHCP_MAGIC
  {
  }

  lemma RequestFields()
    ensures var f := FlaggedRequest();
            f[12..14] == [0x08, 0x00] && f[14] == 0x45 && f[23] == 17 && f[26..34] == Zeros(8) && f[34..282] == FlaggedDatagram()
  {
  }

  lemma SliceOfDatagram(x: nat, y: nat)
    requires x <= y <= 248
    ensures FlaggedRequest()[34 + x..34 + y] == FlaggedDatagram()[x..y]
  {
    RequestFields();
    SliceOfSlice(FlaggedRequest(), 34, 282, x, y);
  }

  lemma FlaggedRequestHeader()
    ensures Readable(FlaggedRequest()) && UdpAt(FlaggedRequest()) == 34 && IsDhcpRequest(FlaggedRequest())
  {
    RequestFields();
    DatagramFields();
    SliceOfDatagram(0, 4);
    SliceOfDatagram(244, 248);
    assert FlaggedDatagram()[..8][..4] == UDP_HEAD[..4] == CLIENT_TO_SERVER;
  }

  lemma FlaggedRequestWords()
    ensures Readable(FlaggedRequest()) && UdpAt(FlaggedRequest()) == 34
    ensures Flags(FlaggedRequest(), true) == 1 && Check(FlaggedRequest(), true) == 0x4691
    ensures FlaggedRequest()[38..40] == [0, 248] && FlaggedRequest()[38] == 0 && FlaggedRequest()[39] == 248
  {
    FlaggedRequestHeader();
    DatagramFields();
    SliceOfDatagram(4, 8);
    SliceOfDatagram(18, 20);
    var f := FlaggedRequest();
    assert f[38..42] == FlaggedDatagram()[..8][4..8] == [0, 248, 0x46, 0x91];
    assert f[52] == f[52..54][0] && f[53] == f[52..54][1];
    assert f[38] == f[38..42][0] && f[39] == f[38..42][1] && f[40] == f[38..42][2] && f[41] == f[38..42][3];
  }

  lemma FlaggedRequestInput()
    ensures WellFormed(FlaggedRequest())
    ensures ChecksumInput(FlaggedRequest()) == (Zeros(8) + [0, 17] + [0, 248]) + FlaggedDatagram()
  {
    FlaggedRequestWords();
    RequestFields();
  }

  lemma DatagramHeadSum()
    ensures WordSum(UDP_HEAD + Zeros(10) + [0, 1]) == 68 + 67 + 248 + 0x4691 + 1
  {
    WordSumAppend(UDP_HEAD + Zeros(10), [0, 1]);
    WordSumAppend(UDP_HEAD, Zeros(10));
    WordSumZeros(5);
    SmallSums();
  }

  lemma FlaggedDatagramSum()
    ensures WordSum(FlaggedDatagram()) == 68 + 67 + 248 + 0x4691 + 1 + 0x6382 + 0x5363
  {
    var head := UDP_HEAD + Zeros(10) + [0, 1];
    WordSumAppend(head + Zeros(224), DHCP_MAGIC);
    WordSumAppend(head, Zeros(224));
    DatagramHeadSum();
    WordSumZeros(112);
    SmallSums();
  }

  lemma FlaggedRequestSum()
    ensures WordSum((Zeros(8) + [0, 17] + [0, 248]) + FlaggedDatagram()) == 65535
  {
    WordSumAppend(Zeros(8) + [0, 17] + [0, 248], FlaggedDatagram());
    WordSumAppend(Zeros(8) + [0, 17], [0, 248]);
    WordSumAppend(Zeros(8), [0, 17]);
    WordSumZeros(4);
    SmallSums();
    FlaggedDatagramSum();
  }

  lemma SmallSums()
    ensures WordSum([0, 17]) == 17 && WordSum([0, 248]) == 248 && WordSum([0, 1]) == 1
    ensures WordSum(UDP_HEAD) == 68 + 67 + 248 + 0x4691 && WordSum(DHCP_MAGIC) == 0x6382 + 0x5363
  {
    assert UDP_HEAD[2..] == [0, 67, 0, 248, 0x46, 0x91] && UDP_HEAD[2..][2..] == [0, 248, 0x46, 0x91];
    assert UDP_HEAD[2..][2..][2..] == [0x46, 0x91];
    assert DHCP_MAGIC[2..] == [0x53, 0x63];
  }

  /** It is accepted when it comes in, and not after its broadcast flag was set. */
  lemma OldFlagsBreakTheChecksum()
    ensures var f := FlaggedRequest();
            WellFormed(f) && IsDhcpRequest(f) && !Broadcast(Flags(f, true), true) && Accepted(f, true)
            && WellFormed(SetFlag(f, UdpAt(f), true)) && !Accepted(SetFlag(f, UdpAt(f), true), true)
  {
    FlaggedRequestHeader();
    FlaggedRequestWords();
    FlaggedRequestInput();
    FlaggedRequestSum();
    FlagKeepsAcceptance(FlaggedRequest(), true);
  }

  // ---------------------------------------------------------- the operation

  /** An IPv4 frame with a UDP datagram from port 68 to port 67 that has the DHCP cookie and a clear broadcast bit. */
  predicate AsksUnicast(f: seq<byte>) {
    && |f| >= 24 && f[12] == 0x08 && f[13] == 0x00 && f[23] == 17
    && var u := 14 + f[14] % 16 * 4;
       && u + 248 <= |f| && f[u] == 0 && f[u + 1] == 68 && f[u + 2] == 0 && f[u + 3] == 67
       && f[u + 244] == 0x63 && f[u + 245] == 0x82 && f[u + 246] == 0x53 && f[u + 247] == 0x63
       && f[u + 18] < 0x80
  }

  /** `g` is `f` with the broadcast bit set, on the wire, and whatever checksum. */
  predicate OnlyFlagAdded(f: seq<byte>, g: seq<byte>)
    requires AsksUnicast(f)
  {
    var u := 14 + f[14] % 16 * 4;
    && |g| == |f| && g[u + 18] == f[u + 18] + 0x80
    && forall i :: 0 <= i < |f| && i != u + 18 && i != u + 6 && i != u + 7 ==> g[i] == f[i]
  }

  /** Whether a receiver of `g` accepts it, told from the frame before. */
  predicate AcceptedIff(f: seq<byte>, g: seq<byte>, big: bool)
    requires WellFormed(f)
  {
    && WellFormed(g)
    && var flags := Flags(f, big) + FlagBit(big);
       Accepted(g, big)
       <==> Check(f, big) == flags || (Check(f, big) == 0 && flags == 0xffff)
            || (WordSum(ChecksumInput(f)) - Net(big, Flags(f, big))) % 65535 == 0
  }

  lemma FourBytes(f: seq<byte>, i: nat)
    requires i + 4 <= |f|
    ensures f[i..i + 4] == [f[i], f[i + 1], f[i + 2], f[i + 3]]
  {
  }

  lemma AsksUnicastIs(f: seq<byte>, big: bool)
    ensures AsksUnicast(f) <==> IsDhcpRequest(f) && !Broadcast(Flags(f, big), big)
  {
    if |f| > ETH_HLEN + 9 && UdpAt(f) + 248 <= |f| {
      var u := UdpAt(f);
      assert f[12..14] == [f[12], f[13]];
      FourBytes(f, u);
      FourBytes(f, u + 244);
      BroadcastBit(big, f[u + 18], f[u + 19]);
    }
  }

  /** On the wire the broadcast flag is the top bit of the first byte, whatever the host. */
  lemma BroadcastBit(big: bool, x: byte, y: byte)
    ensures Broadcast(HostWord(big, x, y), big) <==> x >= 0x80
    ensures x < 0x80 ==> HostWord(big, x, y) + FlagBit(big) < 0x10000
                         && HostBytes(big, HostWord(big, x, y) + FlagBit(big)) == [x + 0x80, y]
  {
    if big {
      BroadcastBig(x, y);
    } else {
      BroadcastLittle(x, y);
    }
  }

  lemma BroadcastBig(x: byte, y: byte)
    ensures Broadcast(HostWord(true, x, y), true) <==> x >= 0x80
    ensures x < 0x80 ==> HostWord(true, x, y) + FlagBit(true) < 0x10000
                         && HostBytes(true, HostWord(true, x, y) + FlagBit(true)) == [x + 0x80, y]
  {
    TopBit(x, y);
    if x < 0x80 {
      BytesOf(x + 0x80, y);
    }
  }

  lemma BroadcastLittle(x: byte, y: byte)
    ensures Broadcast(HostWord(false, x, y), false) <==> x >= 0x80
    ensures x < 0x80 ==> HostWord(false, x, y) + FlagBit(false) < 0x10000
                         && HostBytes(false, HostWord(false, x, y) + FlagBit(false)) == [x + 0x80, y]
  {
    MiddleBit(y, x);
    if x < 0x80 {
      BytesOf(y, x + 0x80);
    }
  }

  lemma TopBit(hi: byte, lo: byte)
    ensures (hi * 256 + lo) / 0x8000 % 2 == if hi >= 0x80 then 1 else 0
  {
  }

  lemma MiddleBit(hi: byte, lo: byte)
    ensures (hi * 256 + lo) / 0x80 % 2 == if lo >= 0x80 then 1 else 0
  {
    assert (hi * 256 + lo) / 0x80 == 2 * hi + lo / 0x80;
  }

  lemma BytesOf(hi: byte, lo: byte)
    ensures (hi * 256 + lo) / 256 == hi && (hi * 256 + lo) % 256 == lo
  {
  }

  lemma FlagOnTheWire(f: seq<byte>, big: bool)
    requires AsksUnicast(f)
    ensures OnlyFlagAdded(f, SetFlag(f, UdpAt(f), big))
  {
    var u := UdpAt(f);
    BroadcastBit(big, f[u + 18], f[u + 19]);
  }

  /**
   The frame is edited if and only if the operation is on and the frame asks for
   a unicast answer; then the flag is set, nothing but it and the checksum
   changes, and a receiver accepts the result exactly under the condition given.
   */
  predicate Delivered(f: seq<byte>, g: seq<byte>, disabled: bool, big: bool) {
    if disabled || !AsksUnicast(f) then g == f
    else OnlyFlagAdded(f, g) && (WellFormed(f) ==> AcceptedIff(f, g, big))
  }

  lemma FlaggedIsDelivered(f: seq<byte>, disabled: bool, big: bool)
    ensures Delivered(f, Flagged(f, disabled, big), disabled, big)
  {
    AsksUnicastIs(f, big);
    if AsksUnicast(f) {
      FlagOnTheWire(f, big);
      if WellFormed(f) {
        AcceptedAfter(f, big);
      }
    }
  }

  method FlagBroadcast(skb: array<byte>, disabled: bool, big: bool)
    requires disabled || ReadsInside(skb[..])
    modifies skb
    ensures skb[..] == Flagged(old(skb[..]), disabled, big)
    ensures Delivered(old(skb[..]), skb[..], disabled, big)
  {
    FlaggedIsDelivered(skb[..], disabled, big);
    if !disabled && skb[12..14] == [0x08, 0x00] && skb[ETH_HLEN + 9] == IPPROTO_UDP {
      var u := ETH_HLEN + skb[ETH_HLEN] % 16 * 4;
      if skb[u..u + 4] == CLIENT_TO_SERVER && skb[u + 244..u + 248] == DHCP_MAGIC {
        if !Broadcast(HostWord(big, skb[u + 18], skb[u + 19]), big) {
          SetFlagInPlace(skb, u, big);
        }
      }
    }
  }
}
