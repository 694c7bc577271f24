/**
 Reading a serial EEPROM by toggling bits of a control register: a command of
 opcode and word address is clocked out, the word is clocked in, and bytes are
 picked from words.  The other side of the wire is a model of the device that
 samples its input on rising clock edges and answers a read command.
 */
module Eeprom {
  import opened Bytes
  import opened Residues

  const READ_OPCODE := 6

  function Pow2(n: nat): (p: nat)
    ensures p >= 1
  {
    if n == 0 then 1 else 2 * Pow2(n - 1)
  }

  /** The low `count` bits of `w`, highest first. */
  function Bits(w: nat, count: nat): (b: seq<bool>)
    ensures |b| == count
  {
    if count == 0 then [] else Bits(w / 2, count - 1) + [w % 2 == 1]
  }

  function Value(b: seq<bool>): nat {
    if b == [] then 0 else 2 * Value(b[..|b| - 1]) + if b[|b| - 1] then 1 else 0
  }

  lemma DivTwice(w: nat, m: nat)
    requires m >= 1
    ensures w / 2 / m == w / (2 * m)
  {
    var q, r := w / 2 / m, w / 2 % m;
    assert w == (2 * m) * q + (2 * r + w % 2);
    DivUnique(w, 2 * m, q, 2 * r + w % 2);
  }

  lemma DivUnique(x: nat, m: nat, q: nat, r: nat)
    requires m >= 1 && x == m * q + r && r < m
    ensures x / m == q
  {
    var d := q - x / m;
    assert m * d == m * q - m * (x / m);
    if d != 0 {
      NonzeroMultiple(m, d);
    }
  }

  lemma ModTwice(w: nat, m: nat)
    requires m >= 1
    ensures w % (2 * m) == 2 * (w / 2 % m) + w % 2
  {
    var q, r := w / 2 / m, w / 2 % m;
    assert w == (2 * m) * q + (2 * r + w % 2);
    ModUnique(w, 2 * m, q, 2 * r + w % 2);
  }

  /** The k-th bit presented is the one under the mask 2^(count - 1 - k). */
  lemma {:induction false} BitAt(w: nat, count: nat, k: nat)
    requires k < count
    ensures Bits(w, count)[k] <==> w / Pow2(count - 1 - k) % 2 == 1
  {
    if k < count - 1 {
      BitAt(w / 2, count - 1, k);
      DivTwice(w, Pow2(count - 2 - k));
    }
  }

  /** Reading the bits back gives the word's low `count` bits. */
  lemma {:induction false} ValueOfBits(w: nat, count: nat)
    ensures Value(Bits(w, count)) == w % Pow2(count)
  {
    if count > 0 {
      ValueOfBits(w / 2, count - 1);
      ModTwice(w, Pow2(count - 1));
      var b := Bits(w, count);
      assert b[..|b| - 1] == Bits(w / 2, count - 1);
    }
  }

  lemma {:induction false} ValueSmall(b: seq<bool>)
    ensures Value(b) < Pow2(|b|)
  {
    if b != [] {
      ValueSmall(b[..|b| - 1]);
    }
  }

  lemma {:induction false} PowAdd(m: nat, n: nat)
    ensures Pow2(m) * Pow2(n) == Pow2(m + n)
  {
    if m > 0 {
      PowAdd(m - 1, n);
      assert Pow2(m) * Pow2(n) == 2 * (Pow2(m - 1) * Pow2(n));
    }
  }

  lemma Pow16()
    ensures Pow2(16) == 0x10000
  {
    assert Pow2(4) == 16;
    PowAdd(4, 4);
    PowAdd(8, 8);
  }

  lemma Assoc(m: int, n: int, q: int)
    ensures m * n * q == m * (n * q)
  {
  }

  lemma ModOfMod(x: nat, m: nat, n: nat, c: nat)
    requires m >= 1 && n >= 1 && c == m * n >= 1
    ensures x % c % m == x % m
  {
    var q := x / c;
    Assoc(m, n, q);
    assert x == x % c + m * (n * q);
    ModMultiple(x % c, n * q, m);
  }

  /** A word index cut to 16 bits names the same word of a memory of at most 2^16 words. */
  lemma CutTo16(x: nat, addressBits: nat)
    requires addressBits <= 16
    ensures x % 0x10000 % Pow2(addressBits) == x % Pow2(addressBits)
  {
    Pow16();
    PowAdd(addressBits, 16 - addressBits);
    ModOfMod(x, Pow2(addressBits), Pow2(16 - addressBits), 0x10000);
  }

  // ------------------------------------------------------------- the device

  /** The control register EE_9346CR: data to and from the device, clock, chip select and mode bits. */
  datatype Control = Control(ro: bool, di: bool, sk: bool, cs: bool, m0: bool, m1: bool)

  type Word = w: nat | w < 0x10000

  /** The device since its select line rose: the lines, and its input at each rising clock edge. */
  datatype Device = Device(lines: Control, seen: seq<bool>)

  /** The device's answer to a write of the control register. */
  function Written(d: Device, c: Control): Device {
    if !c.cs then Device(c, [])
    else if c.sk && !d.lines.sk then Device(c, d.seen + [c.di])
    else Device(c, d.seen)
  }

  /** A read command for one word: start bit and opcode, then the address. */
  predicate ReadCommand(seen: seq<bool>, addressBits: nat) {
    |seen| >= 3 + addressBits && seen[..3] == Bits(READ_OPCODE, 3)
  }

  function Addressed(seen: seq<bool>, addressBits: nat): nat
    requires ReadCommand(seen, addressBits)
  {
    Value(seen[3..3 + addressBits])
  }

  /** The device's output: after the command, one bit of the addressed word per rising edge, highest first. */
  predicate Output(memory: seq<Word>, addressBits: nat, seen: seq<bool>) {
    var n := |seen| - 3 - addressBits;
    ReadCommand(seen, addressBits) && 1 <= n <= 16
    && Addressed(seen, addressBits) < |memory| && Bits(memory[Addressed(seen, addressBits)], 16)[n - 1]
  }

  /** The byte of the memory at a byte offset; offsets past the end of the address lines wrap. */
  function MemoryByte(memory: seq<Word>, j: nat): byte
    requires |memory| > 0
  {
    var w := memory[j / 2 % |memory|];
    if j % 2 == 0 then w % 256 else w / 256
  }

  function FilledAt(memory: seq<Word>, from: nat, n: nat, was: seq<byte>, k: nat): byte
    requires |memory| > 0 && k < |was|
  {
    if k < n then MemoryByte(memory, from + k) else was[k]
  }

  /** A buffer whose first `n` bytes are the memory's from `from` on. */
  function Filled(memory: seq<Word>, from: nat, n: nat, was: seq<byte>): (r: seq<byte>)
    requires |memory| > 0
    ensures |r| == |was|
  {
    seq(|was|, k requires 0 <= k < |was| => FilledAt(memory, from, n, was, k))
  }

  lemma FilledNone(memory: seq<Word>, from: nat, was: seq<byte>)
    requires |memory| > 0
    ensures Filled(memory, from, 0, was) == was
  {
  }

  lemma FilledMore(memory: seq<Word>, from: nat, n: nat, was: seq<byte>)
    requires |memory| > 0 && n < |was|
    ensures Filled(memory, from, n + 1, was) == Filled(memory, from, n, was)[n := MemoryByte(memory, from + n)]
  {
  }

  // ------------------------------------------------------------ the adapter

  /** The adapter with the device wired to its control register. */
  class Adapter {
    var device: Device
    const memory: seq<Word>
    const addressBits: nat

    /** EepromAddressSize address lines reach the whole memory. */
    ghost predicate Wired() {
      1 <= addressBits <= 16 && |memory| == Pow2(addressBits)
    }

    /** Selected, with the clock low, after these inputs. */
    ghost predicate After(seen: seq<bool>)
      reads this
    {
      device.lines.cs && !device.lines.sk && device.seen == seen
    }

    /** rtw_read8(padapter, EE_9346CR) */
    method Read8() returns (x: Control)
      ensures x == device.lines.(ro := Output(memory, addressBits, device.seen))
    {
      x := device.lines.(ro := Output(memory, addressBits, device.seen));
    }

    method Write8(x: Control)
      modifies this
      ensures device == Written(old(device), x)
    {
      device := Written(device, x);
    }

    method UpClk(x0: Control) returns (x: Control)
      modifies this
      ensures x == x0.(sk := true) && device == Written(old(device), x)
    {
      x := x0.(sk := true);
      Write8(x);
    }

    method DownClk(x0: Control) returns (x: Control)
      modifies this
      ensures x == x0.(sk := false) && device == Written(old(device), x)
    {
      x := x0.(sk := false);
      Write8(x);
    }

    /** One turn of the loop in shift_out_bits: the device sees the bit once, at the rising edge. */
    method ShiftOutBit(x0: Control, bit: bool, ghost seen: seq<bool>) returns (x: Control)
      requires After(seen) && x0.cs && !x0.sk
      modifies this
      ensures After(seen + [bit]) && x.cs && !x.sk
    {
      x := x0.(di := bit);
      Write8(x);
      x := UpClk(x);
      x := DownClk(x);
    }

    /** shift_out_bits presents the low `count` bits of `data`, highest first. */
    method ShiftOutBits(data: nat, count: nat, ghost seen: seq<bool>)
      requires 1 <= count <= 16 && After(seen)
      modifies this
      ensures After(seen + Bits(data, count))
    {
      var mask := Shift(count);
      var x := Read8();
      x := x.(ro := false, di := false);
      ghost var k := 0;
      assert Bits(data, count)[..0] == [];
      while mask != 0
        invariant k <= count && mask == if k < count then Pow2(count - 1 - k) else 0
        invariant After(seen + Bits(data, count)[..k]) && x.cs && !x.sk
        decreases mask
      {
        BitAt(data, count, k);
        ghost var was := seen + Bits(data, count)[..k];
        x := ShiftOutBit(x, data / mask % 2 == 1, was);
        assert was + [Bits(data, count)[k]] == seen + Bits(data, count)[..k + 1];
        mask := mask / 2;
        k := k + 1;
      }
      assert Bits(data, count)[..count] == Bits(data, count);
      x := x.(di := false);
      Write8(x);
    }

    /** 0x01 << (count - 1) */
    method Shift(count: nat) returns (mask: nat)
      requires count >= 1
      ensures mask == Pow2(count - 1)
    {
      mask := 1;
      for i := 1 to count
        invariant mask == Pow2(i - 1)
      {
        mask := 2 * mask;
      }
    }

    /** The command is complete, and the word it addresses answers. */
    ghost predicate Answers(seen: seq<bool>, w: Word)
    {
      ReadCommand(seen, addressBits) && Addressed(seen, addressBits) < |memory|
      && memory[Addressed(seen, addressBits)] == w
    }

    lemma OutputBit(command: seq<bool>, seen: seq<bool>, w: Word)
      requires Answers(command, w) && |command| == 3 + addressBits
      requires |command| < |seen| <= |command| + 16 && seen[..|command|] == command
      ensures Output(memory, addressBits, seen) == Bits(w, 16)[|seen| - |command| - 1]
    {
      assert seen[..3] == seen[..|command|][..3];
      assert seen[3..3 + addressBits] == seen[..|command|][3..3 + addressBits];
    }

    /** One turn of the loop in shift_in_bits. */
    method ShiftInBit(x0: Control, ghost seen: seq<bool>) returns (x: Control, bit: bool)
      requires After(seen) && x0.cs && !x0.sk
      modifies this
      ensures After(seen + [x0.di]) && x.cs && !x.sk
      ensures bit == Output(memory, addressBits, seen + [x0.di])
    {
      x := UpClk(x0);
      x := Read8();
      x := x.(di := false);
      bit := x.ro;
      x := DownClk(x);
    }

    /** The first `i` bits of the word have been clocked in behind the command. */
    ghost predicate Clocked(command: seq<bool>, seen: seq<bool>, i: nat)
      reads this
    {
      After(seen) && |seen| == |command| + i && seen[..|command|] == command
    }

    /** One bit of the word, appended to those before it. */
    method ShiftInNext(x0: Control, d0: Word, i: nat, ghost command: seq<bool>, ghost seen: seq<bool>, ghost w: Word)
      returns (x: Control, d: Word)
      requires Answers(command, w) && |command| == 3 + addressBits && i < 16 && Clocked(command, seen, i)
      requires x0.cs && !x0.sk && d0 == Value(Bits(w, 16)[..i])
      modifies this
      ensures Clocked(command, seen + [x0.di], i + 1) && x.cs && !x.sk
      ensures d == Value(Bits(w, 16)[..i + 1])
    {
      ghost var next := seen + [x0.di];
      assert next[..|command|] == command;
      OutputBit(command, next, w);
      WordSoFar(w, i);
      var bit;
      x, bit := ShiftInBit(x0, seen);
      d := d0 * 2 % 0x10000 + (if bit then 1 else 0);
    }

    /** shift_in_bits rebuilds the word the device shifts out. */
    method ShiftInBits(ghost command: seq<bool>, ghost w: Word) returns (d: Word)
      requires After(command) && Answers(command, w) && |command| == 3 + addressBits
      modifies this
      ensures d == w
    {
      var x := Read8();
      x := x.(ro := false, di := false);
      d := 0;
      ghost var seen := command;
      for i := 0 to 16
        invariant Clocked(command, seen, i) && x.cs && !x.sk
        invariant d == Value(Bits(w, 16)[..i])
      {
        ghost var next := seen + [x.di];
        x, d := ShiftInNext(x, d, i, command, seen, w);
        seen := next;
      }
      WordRebuilt(w);
    }

    lemma CommandAnswers(reg: nat)
      requires Wired()
      ensures Answers(Bits(READ_OPCODE, 3) + Bits(reg, addressBits), memory[reg % |memory|])
    {
      var command := Bits(READ_OPCODE, 3) + Bits(reg, addressBits);
      ValueOfBits(reg, addressBits);
      assert command[..3] == Bits(READ_OPCODE, 3);
      assert command[3..3 + addressBits] == Bits(reg, addressBits);
    }

    /** Two masks, the select, the command, the word, and the deselect: eeprom_read16. */
    method EepromRead16(reg: nat) returns (data: Word)
      requires Wired() && Idle()
      modifies this
      ensures Idle() && data == memory[reg % |memory|]
    {
      var x := Read8();
      x := x.(di := false, ro := false, sk := false, m0 := false).(m1 := true, cs := true);
      Write8(x);
      assert [] + Bits(READ_OPCODE, 3) == Bits(READ_OPCODE, 3);
      ShiftOutBits(READ_OPCODE, 3, []);
      ShiftOutBits(reg, addressBits, Bits(READ_OPCODE, 3));
      CommandAnswers(reg);
      data := ShiftInBits(Bits(READ_OPCODE, 3) + Bits(reg, addressBits), memory[reg % |memory|]);
      EepromClean();
    }

    /** Deselected, so the next select starts a new command. */
    ghost predicate Idle()
      reads this
    {
      !device.lines.cs && device.seen == []
    }

    /** eeprom_clean */
    method EepromClean()
      modifies this
      ensures Idle()
    {
      var x := Read8();
      x := x.(cs := false, di := false);
      Write8(x);
      x := UpClk(x);
      x := DownClk(x);
    }

    /** How many bytes a call asks for; with nothing asked for at an odd offset, its count wraps round. */
    static function Wanted(addrOff: nat, sz: nat): nat {
      if addrOff % 2 == 1 && sz == 0 then 256 else sz
    }

    /** A word of the device as eeprom_read asks for it, its index cut to 16 bits. */
    method WordAt(reg: nat) returns (lo: byte, hi: byte)
      requires Wired() && Idle()
      modifies this
      ensures Idle() && lo == MemoryByte(memory, 2 * reg) && hi == MemoryByte(memory, 2 * reg + 1)
    {
      var w := EepromRead16(reg % 0x10000);
      CutTo16(reg, addressBits);
      assert 2 * reg / 2 == reg && (2 * reg + 1) / 2 == reg;
      lo, hi := w % 256, w / 256;
    }

    /** One whole word, or its low byte, at the next place of the buffer. */
    method ReadWord(reg: nat, both: bool, rbuf: array<byte>, idx: nat, ghost from: nat, ghost was: seq<byte>)
      requires Wired() && Idle() && 2 * reg == from + idx && idx + (if both then 2 else 1) <= rbuf.Length == |was|
      requires rbuf[..] == Filled(memory, from, idx, was)
      modifies this, rbuf
      ensures Idle() && rbuf[..] == Filled(memory, from, idx + (if both then 2 else 1), was)
    {
      var lo, hi := WordAt(reg);
      FilledMore(memory, from, idx, was);
      rbuf[idx] := lo;
      if both {
        FilledMore(memory, from, idx + 1, was);
        rbuf[idx + 1] := hi;
      }
    }

    /** The part of eeprom_read from an even offset on: the words in full, then a last low byte. */
    method ReadEven(reg: nat, sz: nat, rbuf: array<byte>, idx0: nat, ghost from: nat, ghost was: seq<byte>)
      requires Wired() && Idle() && 2 * reg == from + idx0 && idx0 + sz <= rbuf.Length == |was|
      requires rbuf[..] == Filled(memory, from, idx0, was)
      modifies this, rbuf
      ensures Idle() && rbuf[..] == Filled(memory, from, idx0 + sz, was)
    {
      for i := 0 to sz / 2
        invariant Idle() && rbuf[..] == Filled(memory, from, idx0 + 2 * i, was)
      {
        ReadWord(reg + i, true, rbuf, idx0 + 2 * i, from, was);
      }
      if sz % 2 == 1 {
        ReadWord(reg + sz / 2, false, rbuf, idx0 + sz / 2 * 2, from, was);
      }
    }

    /** The first byte of a read that starts at the high part of a word. */
    method ReadHigh(addrOff: nat, rbuf: array<byte>)
      requires Wired() && Idle() && addrOff % 2 == 1 && 1 <= rbuf.Length
      modifies this, rbuf
      ensures Idle() && rbuf[..] == Filled(memory, addrOff, 1, old(rbuf[..]))
    {
      FilledNone(memory, addrOff, rbuf[..]);
      FilledMore(memory, addrOff, 0, rbuf[..]);
      var lo, hi := WordAt(addrOff / 2);
      rbuf[0] := hi;
    }

    /** eeprom_read: unaligned bytes, for every offset and size. */
    method EepromRead(addrOff: nat, sz: nat, rbuf: array<byte>)
      requires Wired() && Idle() && sz < 256 && Wanted(addrOff, sz) <= rbuf.Length
      modifies this, rbuf
      ensures Idle() && rbuf[..] == Filled(memory, addrOff, Wanted(addrOff, sz), old(rbuf[..]))
    {
      ghost var was := rbuf[..];
      if addrOff % 2 == 1 {
        ReadHigh(addrOff, rbuf);
        assert 2 * (addrOff / 2 + 1) == addrOff + 1 && 1 + (sz - 1) % 256 == Wanted(addrOff, sz);
        ReadEven(addrOff / 2 + 1, (sz - 1) % 256, rbuf, 1, addrOff, was);
      } else {
        FilledNone(memory, addrOff, was);
        ReadEven(addrOff / 2, sz, rbuf, 0, addrOff, was);
      }
    }
  }

  lemma PowSmall(n: nat)
    requires n <= 16
    ensures Pow2(n) <= 0x10000
  {
    Pow16();
    PowAdd(n, 16 - n);
    assert Pow2(n) * 1 <= Pow2(n) * Pow2(16 - n);
  }

  /** Doubling the word so far does not overflow 16 bits, and appends a bit. */
  lemma WordSoFar(w: Word, i: nat)
    requires i < 16
    ensures 2 * Value(Bits(w, 16)[..i]) < 0x10000
    ensures Value(Bits(w, 16)[..i + 1]) == 2 * Value(Bits(w, 16)[..i]) + if Bits(w, 16)[i] then 1 else 0
  {
    var b := Bits(w, 16);
    ValueSmall(b[..i]);
    PowSmall(i + 1);
    assert b[..i + 1][..i] == b[..i];
  }

  lemma WordRebuilt(w: Word)
    ensures Value(Bits(w, 16)[..16]) == w
  {
    assert Bits(w, 16)[..16] == Bits(w, 16);
    ValueOfBits(w, 16);
    Pow16();
  }
}
