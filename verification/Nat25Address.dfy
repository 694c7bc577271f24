/** How network addresses are recorded and which bucket they belong to. */
module Nat25Address {
  import opened Bytes

  const HASH_SIZE := 16
  const MAX_NETWORK_ADDR_LEN := 17

  /** A network address as recorded in the table: a type byte and 16 more. */
  type Key = k: seq<byte> | |k| == MAX_NETWORK_ADDR_LEN
    witness [0, 0, 0, 0, 0, 0, 0, 0, 0, 0, 0, 0, 0, 0, 0, 0, 0]

  const NAT25_IPV4: byte := 1
  const NAT25_IPV6: byte := 2
  const NAT25_IPX: byte := 3
  const NAT25_APPLE: byte := 4
  const NAT25_PPPOE: byte := 5

  function Ipv4Key(ip: seq<byte>): Key
    requires |ip| == 4
  {
    [NAT25_IPV4] + Zeros(6) + ip + Zeros(6)
  }

  function PppoeKey(acMac: Mac, sid: seq<byte>): Key
    requires |sid| == 2
  {
    [NAT25_PPPOE] + sid + acMac + Zeros(8)
  }

  /** Different IP addresses, sessions or kinds of address never share a key. */
  lemma KeysDistinct(ip: seq<byte>, jp: seq<byte>, m: Mac, n: Mac, sid: seq<byte>, tid: seq<byte>)
    requires |ip| == |jp| == 4 && |sid| == |tid| == 2
    ensures Ipv4Key(ip) == Ipv4Key(jp) <==> ip == jp
    ensures PppoeKey(m, sid) == PppoeKey(n, tid) <==> m == n && sid == tid
    ensures Ipv4Key(ip) != PppoeKey(m, sid)
  {
    assert Ipv4Key(ip)[7..11] == ip && Ipv4Key(jp)[7..11] == jp;
    assert PppoeKey(m, sid)[1..3] == sid && PppoeKey(n, tid)[1..3] == tid;
    assert PppoeKey(m, sid)[3..9] == m && PppoeKey(n, tid)[3..9] == n;
    assert Ipv4Key(ip)[0] != PppoeKey(m, sid)[0];
  }

  /** The bucket of an address: which bytes are mixed depends on its type byte. */
  function Hash(k: Key): (h: nat)
    ensures h < HASH_SIZE
  {
    (if k[0] == NAT25_IPV4 then XorRange(k, 7, 11)
     else if k[0] == NAT25_IPX then XorRange(k, 1, 11)
     else if k[0] == NAT25_APPLE then XorRange(k, 1, 4)
     else if k[0] == NAT25_PPPOE then XorRange(k, 0, 9)
     else if k[0] == NAT25_IPV6 then XorRange(k, 1, 17)
     else XorRange(k, 0, 17)) % HASH_SIZE
  }
}
