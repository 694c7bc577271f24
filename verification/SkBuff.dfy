/** A socket buffer: bytes with head room before the frame and tail room after it. */
module SkBuffs {
  import opened Bytes

  /**
   A frame as seen from skb->data: `b` runs to the end of the buffer, so its
   bytes from `len` on are the tail room.
   */
  datatype Frame = Frame(b: seq<byte>, len: nat)
  {
    predicate Ok() { len <= |b| }
  }

  class SkBuff {
    const buf: array<byte>
    var data: nat
    var len: nat
    /** What the buffer holds from `data` on. */
    ghost var frame: Frame

    ghost predicate Valid()
      reads this, buf
    {
      data + len <= buf.Length && frame == Frame(buf[data..], len)
    }

    constructor (buf: array<byte>, data: nat, len: nat)
      requires data + len <= buf.Length
      ensures Valid() && this.buf == buf && this.data == data && this.len == len
    {
      this.buf, this.data, this.len := buf, data, len;
      frame := Frame(buf[data..], len);
    }

    /** The bytes behind the frame: skb_tailroom. */
    method TailRoom() returns (n: nat)
      requires Valid()
      ensures frame.Ok() && n == |frame.b| - frame.len
    {
      n := buf.Length - data - len;
    }

    method Length() returns (n: nat)
      requires Valid()
      ensures frame.Ok() && n == frame.len
    {
      n := len;
    }

    /** skb_put */
    method Put(n: nat)
      requires Valid() && frame.len + n <= |frame.b|
      modifies this`len, this`frame
      ensures Valid() && frame == Frame(old(frame.b), old(frame.len) + n)
    {
      len := len + n;
      frame := Frame(frame.b, frame.len + n);
    }

    /** skb_trim */
    method Trim(n: nat)
      requires Valid() && n <= frame.len
      modifies this`len, this`frame
      ensures Valid() && frame == Frame(old(frame.b), n)
    {
      len := n;
      frame := Frame(frame.b, n);
    }

    /** skb_pull */
    method Pull(n: nat)
      requires Valid() && n <= frame.len
      modifies this`data, this`len, this`frame
      ensures Valid() && data == old(data) + n
      ensures frame.len == old(frame.len) - n && |old(frame.b)| >= n && frame.b == old(frame.b)[n..]
      ensures buf[old(data)..data] == old(frame.b)[..n]
    {
      data, len := data + n, len - n;
      frame := Frame(frame.b[n..], len);
    }

    /** skb_push */
    method Push(n: nat)
      requires Valid() && n <= data
      modifies this`data, this`len, this`frame
      ensures Valid() && data == old(data) - n
      ensures frame == Frame(old(buf[data - n..data]) + old(frame.b), old(frame.len) + n)
    {
      data, len := data - n, len + n;
      frame := Frame(buf[data..data + n] + frame.b, len);
    }

    /** memmove within the buffer, offsets from skb->data. */
    method Move(dst: nat, src: nat, n: nat)
      requires Valid() && dst + n <= |frame.b| && src + n <= |frame.b|
      modifies buf, this`frame
      ensures Valid()
      ensures frame == Frame(Overwrite(old(frame.b), dst, old(frame.b)[src..src + n]), old(frame.len))
      ensures buf[..data] == old(buf[..data])
    {
      ghost var x := frame.b[src..src + n];
      assert x == buf[data + src..data + src + n];
      Memmove(buf, data + dst, data + src, n);
      frame := Frame(Overwrite(frame.b, dst, x), frame.len);
      assert buf[data..] == frame.b;
    }

    /** memcpy of foreign bytes to an offset from skb->data. */
    method Copy(dst: nat, d: seq<byte>)
      requires Valid() && dst + |d| <= |frame.b|
      modifies buf, this`frame
      ensures Valid()
      ensures frame == Frame(Overwrite(old(frame.b), dst, d), old(frame.len))
      ensures buf[..data] == old(buf[..data])
    {
      Memcpy(buf, data + dst, d);
      frame := Frame(Overwrite(frame.b, dst, d), frame.len);
      assert buf[data..] == frame.b;
    }

    /** The byte at an offset from skb->data. */
    method Get(at: nat) returns (x: byte)
      requires Valid() && at < |frame.b|
      ensures x == frame.b[at]
    {
      x := buf[data + at];
    }

    method GetAll(at: nat, n: nat) returns (d: seq<byte>)
      requires Valid() && at + n <= |frame.b|
      ensures d == frame.b[at..at + n]
    {
      d := buf[data + at..data + at + n];
      assert d == buf[data..][at..at + n];
    }
  }
}
