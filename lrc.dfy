/** calculateLRC (AsciiModbusSlave.cpp): the additive checksum of section 6.2.1
    of the MODBUS over Serial Line guide V1.02, over up to four header bytes
    and a run of 16-bit registers. */
module Lrc {
  import opened ModbusTypes

  /** (uint8)((x >> 8) & 0x00FF) */
  function HighByte(x: uint16): uint8 {
    x / 256 % 256
  }

  /** (uint8)(x & 0x00FF) */
  function LowByte(x: uint16): uint8 {
    x % 256
  }

  /** The plain sum of the high and low bytes of every register. */
  function RegisterByteSum(regs: seq<uint16>): nat {
    if regs == [] then 0
    else RegisterByteSum(regs[..|regs| - 1]) + HighByte(regs[|regs| - 1]) + LowByte(regs[|regs| - 1])
  }

  /** The plain sum of a byte sequence. */
  function ByteSum(bytes: seq<uint8>): nat {
    if bytes == [] then 0 else bytes[0] + ByteSum(bytes[1..])
  }

  /** Each register as its high byte followed by its low byte. */
  function RegisterBytes(regs: seq<uint16>): (r: seq<uint8>)
    ensures |r| == 2 * |regs|
  {
    if regs == [] then [] else [HighByte(regs[0]), LowByte(regs[0])] + RegisterBytes(regs[1..])
  }

  lemma {:induction false} ByteSumAppend(a: seq<uint8>, b: seq<uint8>)
    ensures ByteSum(a + b) == ByteSum(a) + ByteSum(b)
  {
    if a == [] {
      assert a + b == b;
    } else {
      assert (a + b)[1..] == a[1..] + b;
      ByteSumAppend(a[1..], b);
    }
  }

  lemma {:induction false} RegisterByteSumFront(regs: seq<uint16>)
    requires regs != []
    ensures RegisterByteSum(regs) == HighByte(regs[0]) + LowByte(regs[0]) + RegisterByteSum(regs[1..])
    decreases |regs|
  {
    if |regs| > 1 {
      var init := regs[..|regs| - 1];
      assert init[1..] == regs[1..][..|regs[1..]| - 1];
      RegisterByteSumFront(init);
    } else {
      assert regs[..0] == [] && regs[1..] == [];
    }
  }

  /** Summing the registers' bytes is summing the bytes they are sent as. */
  lemma {:induction false} RegisterBytesSum(regs: seq<uint16>)
    ensures ByteSum(RegisterBytes(regs)) == RegisterByteSum(regs)
  {
    if regs != [] {
      var head := [HighByte(regs[0]), LowByte(regs[0])];
      ByteSumAppend(head, RegisterBytes(regs[1..]));
      RegisterBytesSum(regs[1..]);
      RegisterByteSumFront(regs);
    }
  }

  lemma ModAdd(a: int, x: int)
    ensures (a % 256 + x) % 256 == (a + x) % 256
  {
    var q := a / 256;
    assert a == 256 * q + a % 256;
    assert a + x == 256 * q + (a % 256 + x);
  }

  lemma TwosComplementCancels(sum: nat)
    ensures (sum + (0x100 - sum % 256) % 256) % 256 == 0
  {
    var m := sum % 256;
    assert sum == 256 * (sum / 256) + m;
    if m == 0 {
      assert (0x100 - m) % 256 == 0;
    } else {
      assert (0x100 - m) % 256 == 0x100 - m;
      assert sum + (0x100 - m) == 256 * (sum / 256 + 1);
    }
  }

  /** The checksum of four header bytes and a run of registers: the two's
      complement of their sum modulo 256, so adding it cancels the sum. */
  function LrcOf(b1: uint8, b2: uint8, b3: uint8, b4: uint8, regs: seq<uint16>): (r: uint8)
    ensures (b1 + b2 + b3 + b4 + RegisterByteSum(regs) + r) % 256 == 0
  {
    TwosComplementCancels(b1 + b2 + b3 + b4 + RegisterByteSum(regs));
    (0x100 - (b1 + b2 + b3 + b4 + RegisterByteSum(regs)) % 256) % 256
  }

  /** Extending a run of registers by one adds that register's two bytes. */
  lemma AddRegister(regs: seq<uint16>, lo: nat, i: nat)
    requires lo <= i < |regs|
    ensures RegisterByteSum(regs[lo..i + 1]) == RegisterByteSum(regs[lo..i]) + HighByte(regs[i]) + LowByte(regs[i])
  {
    assert regs[lo..i + 1][..i - lo] == regs[lo..i];
  }

  /** Adding two bytes one at a time modulo 256 keeps the running sum's residue. */
  lemma AddBytes(acc: int, total: int, h: int, l: int)
    requires acc == total % 256
    ensures ((acc + h) % 256 + l) % 256 == (total + h + l) % 256
  {
    ModAdd(total, h);
    ModAdd(total + h, l);
  }

  /** calculateLRC: the loop index is a uint8, so the run of registers must
      end inside the array and at index 255 at the latest. */
  method CalculateLrc(b1: uint8, b2: uint8, b3: uint8, b4: uint8,
                      arrayStartIndex: uint8, numberOfArrayElements: uint8,
                      theArray: array<uint16>) returns (lrc: uint8)
    requires arrayStartIndex + numberOfArrayElements <= theArray.Length
    requires arrayStartIndex + numberOfArrayElements <= 255
    ensures lrc == LrcOf(b1, b2, b3, b4, theArray[arrayStartIndex..arrayStartIndex + numberOfArrayElements])
  {
    ghost var header := b1 + b2 + b3 + b4;
    lrc := (b1 + b2 + b3 + b4) % 256;
    for i := arrayStartIndex to arrayStartIndex + numberOfArrayElements
      invariant lrc == (header + RunSum(theArray[..], arrayStartIndex, i)) % 256
    {
      AddBytes(lrc, header + RunSum(theArray[..], arrayStartIndex, i), HighByte(theArray[i]), LowByte(theArray[i]));
      lrc := (lrc + HighByte(theArray[i])) % 256;
      lrc := (lrc + LowByte(theArray[i])) % 256;
    }
    RunSumIsSlice(theArray[..], arrayStartIndex as nat, (arrayStartIndex + numberOfArrayElements) as nat);
    // two's complement
    lrc := 0xFF - lrc;
    lrc := (lrc + 1) % 256;
  }

  /** The byte sum of registers lo up to hi, added up in the order of the loop. */
  function RunSum(regs: seq<uint16>, lo: nat, hi: nat): nat
    requires lo <= hi <= |regs|
    decreases hi
  {
    if hi == lo then 0 else RunSum(regs, lo, hi - 1) + HighByte(regs[hi - 1]) + LowByte(regs[hi - 1])
  }

  lemma {:induction false} RunSumIsSlice(regs: seq<uint16>, lo: nat, hi: nat)
    requires lo <= hi <= |regs|
    ensures RunSum(regs, lo, hi) == RegisterByteSum(regs[lo..hi])
    decreases hi
  {
    if hi > lo {
      assert RunSum(regs, lo, hi) == RunSum(regs, lo, hi - 1) + HighByte(regs[hi - 1]) + LowByte(regs[hi - 1]);
      RunSumIsSlice(regs, lo, hi - 1);
      AddRegister(regs, lo, hi - 1);
    }
  }

  /** Appending the checksum to the bytes it covers makes them sum to 0
      modulo 256, whichever way the registers are counted. */
  lemma ChecksumCancels(b1: uint8, b2: uint8, b3: uint8, b4: uint8, regs: seq<uint16>)
    ensures (ByteSum([b1, b2, b3, b4] + RegisterBytes(regs)) + LrcOf(b1, b2, b3, b4, regs)) % 256 == 0
  {
    ByteSumAppend([b1, b2, b3, b4], RegisterBytes(regs));
    RegisterBytesSum(regs);
    assert ByteSum([b4]) == b4;
    assert ByteSum([b3, b4]) == b3 + ByteSum([b4]);
    assert ByteSum([b2, b3, b4]) == b2 + ByteSum([b3, b4]);
    assert ByteSum([b1, b2, b3, b4]) == b1 + ByteSum([b2, b3, b4]);
  }

  /** No registers: only the header bytes count. */
  lemma EmptyRunAddsNothing(b1: uint8, b2: uint8, b3: uint8, b4: uint8)
    ensures LrcOf(b1, b2, b3, b4, []) == (0x100 - (b1 + b2 + b3 + b4) % 256) % 256
  {
  }
}
