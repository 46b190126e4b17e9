/** The reply frame read back as bytes: the binary message it carries, the
    hex encoding of section 2.5.2 of the MODBUS over Serial Line guide V1.02
    that puts it on the wire, and the checksum of section 6.2.1 over it. */
module ReplyBytes {
  import opened ModbusTypes
  import opened HexCodec
  import opened Lrc
  import opened TxModel
  import opened TxFlow
  import opened TxFrame

  /** Every byte as its two hex digits, high digit first. */
  function HexBytes(bytes: seq<uint8>): (r: seq<uint8>)
    ensures |r| == 2 * |bytes|
  {
    if bytes == [] then [] else Hex2(bytes[0]) + HexBytes(bytes[1..])
  }

  /** A reference decoder: every pair of characters as the byte it spells. */
  function DecodePairs(s: seq<uint8>): seq<uint8>
    decreases |s|
  {
    if |s| < 2 then [] else [DecodeHex(s[..2]) % 256] + DecodePairs(s[2..])
  }

  lemma {:induction false} HexBytesAppend(a: seq<uint8>, b: seq<uint8>)
    ensures HexBytes(a + b) == HexBytes(a) + HexBytes(b)
  {
    if a == [] {
      assert a + b == b;
    } else {
      assert (a + b)[1..] == a[1..] + b;
      HexBytesAppend(a[1..], b);
    }
  }

  /** Decoding the hex digits of a byte string gives the byte string back. */
  lemma {:induction false} HexBytesRoundTrip(bytes: seq<uint8>)
    ensures DecodePairs(HexBytes(bytes)) == bytes
  {
    if bytes != [] {
      var h := HexBytes(bytes);
      assert h[..2] == Hex2(bytes[0]);
      assert h[2..] == HexBytes(bytes[1..]);
      PairDecodes(bytes[0]);
      HexBytesRoundTrip(bytes[1..]);
    }
  }

  /** The two hex digits of a byte decode to the byte. */
  lemma PairDecodes(b: uint8)
    ensures DecodeHex(Hex2(b)) % 256 == b
  {
    HexDigitsRoundTrip(b, 2);
    assert Pow16(2) == 256;
  }

  /** w = 256 * q + r with r a byte: the nibbles of w are those of q then r. */
  lemma WordNibbles(w: uint16)
    ensures Nibble(w, 3) == Nibble(HighByte(w), 1) && Nibble(w, 2) == Nibble(HighByte(w), 0)
    ensures Nibble(w, 1) == Nibble(LowByte(w), 1) && Nibble(w, 0) == Nibble(LowByte(w), 0)
  {
    var q := w / 256;
    var r := w % 256;
    ShiftValues(w);
    ShiftValues(q);
    ShiftValues(r);
    assert HighByte(w) == q && LowByte(w) == r;
    DivUnique(w, 16, 16 * q + r / 16, r % 16);
    ModUnique(w, 16, 16 * q + r / 16, r % 16);
    ModUnique(w / 16, 16, q, r / 16);
    DivUnique(w, 4096, q / 16, (q % 16) * 256 + r);
  }

  lemma DivUnique(d: int, m: int, q: int, r: int)
    requires m > 0 && d == q * m + r && 0 <= r < m
    ensures d / m == q
  {
    ModUnique(d, m, q, r);
    assert d == (d / m) * m + d % m;
    assert (d / m - q) * m == 0;
  }

  /** Four hex digits of a register are the digits of its high byte, then
      those of its low byte. */
  lemma Hex4Split(w: uint16)
    ensures Hex4(w) == Hex2(HighByte(w)) + Hex2(LowByte(w))
  {
    WordNibbles(w);
    var h := Hex2(HighByte(w));
    var l := Hex2(LowByte(w));
    HexDigitAt(w, 4, 0);
    HexDigitAt(w, 4, 1);
    HexDigitAt(w, 4, 2);
    HexDigitAt(w, 4, 3);
    HexDigitAt(HighByte(w), 2, 0);
    HexDigitAt(HighByte(w), 2, 1);
    HexDigitAt(LowByte(w), 2, 0);
    HexDigitAt(LowByte(w), 2, 1);
    assert Hex4(w)[0] == (h + l)[0] && Hex4(w)[1] == (h + l)[1];
    assert Hex4(w)[2] == (h + l)[2] && Hex4(w)[3] == (h + l)[3];
  }

  /** The registers mTXREG sends are the hex digits of their bytes. */
  lemma {:induction false} RegistersAreHexBytes(regs: seq<uint16>, start: nat, count: nat)
    requires start + count <= |regs|
    ensures RegistersHex(regs, start, count) == HexBytes(RegisterBytes(regs[start..start + count]))
    decreases count
  {
    if count > 0 {
      var run := regs[start..start + count];
      assert run[1..] == regs[start + 1..start + count];
      RegistersAreHexBytes(regs, start + 1, count - 1);
      Hex4Split(regs[start]);
      var head := [HighByte(regs[start]), LowByte(regs[start])];
      assert RegisterBytes(run) == head + RegisterBytes(run[1..]);
      HexBytesAppend(head, RegisterBytes(run[1..]));
      assert HexBytes(head) == Hex2(HighByte(regs[start])) + Hex2(LowByte(regs[start])) by {
        assert head[1..] == [LowByte(regs[start])];
        assert HexBytes([LowByte(regs[start])]) == Hex2(LowByte(regs[start])) + HexBytes([]);
      }
    } else {
      assert regs[start..start] == [];
    }
  }

  /** The message of the reply as bytes, before hex encoding: address,
      function code and the payload of the path taken. */
  function PayloadBytes(env: TxEnv): seq<uint8>
    requires EnvValid(env)
  {
    var a := env.dataAddress;
    if HighBitSet(env.fnCode) then [env.exception]
    else if env.fnCode == 3 then [env.numBytes] + RegisterBytes(env.registers[a..a + Max1(env.numRegisters)])
    else [0, a] + RegisterBytes([env.registers[a]])
  }

  function FrameBytes(env: TxEnv): seq<uint8>
    requires EnvValid(env)
  {
    [env.slaveID, env.fnCode] + PayloadBytes(env)
  }

  lemma Hex2IsHexBytes(b: uint8)
    ensures HexBytes([b]) == Hex2(b)
  {
    assert [b][1..] == [];
  }

  /** The four digits of a register are the hex digits of its two bytes. */
  lemma WordIsHexBytes(w: uint16)
    ensures Hex4(w) == HexBytes([HighByte(w), LowByte(w)])
  {
    Hex4Split(w);
    assert [HighByte(w), LowByte(w)][1..] == [LowByte(w)];
    Hex2IsHexBytes(LowByte(w));
  }

  lemma WritePayloadIsHexBytes(a: uint8, r: uint16)
    ensures Hex4(a) + Hex4(r) == HexBytes([0, a] + RegisterBytes([r]))
  {
    WordIsHexBytes(a);
    WordIsHexBytes(r);
    assert RegisterBytes([r]) == [HighByte(r), LowByte(r)];
    assert [HighByte(a), LowByte(a)] == [0, a];
    HexBytesAppend([0, a], [HighByte(r), LowByte(r)]);
  }

  lemma ReadPayloadIsHexBytes(n: uint8, regs: seq<uint16>, a: nat, m: nat)
    requires a + m <= |regs|
    ensures Hex2(n) + RegistersHex(regs, a, m) == HexBytes([n] + RegisterBytes(regs[a..a + m]))
  {
    RegistersAreHexBytes(regs, a, m);
    HexBytesAppend([n], RegisterBytes(regs[a..a + m]));
    Hex2IsHexBytes(n);
  }

  lemma PayloadIsHexBytes(env: TxEnv)
    requires EnvValid(env)
    ensures Payload(env) == HexBytes(PayloadBytes(env))
  {
    var a := env.dataAddress;
    if HighBitSet(env.fnCode) {
      Hex2IsHexBytes(env.exception);
    } else if env.fnCode == 3 {
      ReadPayloadIsHexBytes(env.numBytes, env.registers, a, Max1(env.numRegisters));
    } else {
      WritePayloadIsHexBytes(a, env.registers[a]);
    }
  }

  /** The reply is ':', the hex digits of its message and checksum bytes,
      then CR LF. */
  lemma ReplyIsHexOfBytes(env: TxEnv)
    requires EnvValid(env)
    ensures ResponseFrame(env)
         == [Colon] + HexBytes(FrameBytes(env) + [FrameLrc(env)]) + [CarriageReturn, LineFeed]
  {
    PayloadIsHexBytes(env);
    HexBytesAppend([env.slaveID, env.fnCode], PayloadBytes(env));
    HexBytesAppend([env.slaveID], [env.fnCode]);
    assert [env.slaveID, env.fnCode] == [env.slaveID] + [env.fnCode];
    Hex2IsHexBytes(env.slaveID);
    Hex2IsHexBytes(env.fnCode);
    HexBytesAppend(FrameBytes(env), [FrameLrc(env)]);
    Hex2IsHexBytes(FrameLrc(env));
  }

  /** A reference reader for a reply: the bytes between ':' and CR LF. */
  function DecodeReply(frame: seq<uint8>): seq<uint8> {
    if |frame| >= 3 && frame[0] == Colon then DecodePairs(frame[1..|frame| - 2]) else []
  }

  /** Reading the reply back gives its message followed by its checksum. */
  lemma ReplyRoundTrip(env: TxEnv)
    requires EnvValid(env)
    ensures DecodeReply(ResponseFrame(env)) == FrameBytes(env) + [FrameLrc(env)]
  {
    ReplyIsHexOfBytes(env);
    var body := HexBytes(FrameBytes(env) + [FrameLrc(env)]);
    var frame := ResponseFrame(env);
    assert frame[1..|frame| - 2] == body;
    HexBytesRoundTrip(FrameBytes(env) + [FrameLrc(env)]);
  }

  lemma ByteSumOne(x: uint8)
    ensures ByteSum([x]) == x
  {
    assert [x][1..] == [];
  }

  lemma ByteSumTwo(x: uint8, y: uint8)
    ensures ByteSum([x, y]) == x + y
  {
    assert [x, y][1..] == [y];
    ByteSumOne(y);
  }

  lemma HeaderSum(b1: uint8, b2: uint8, b3: uint8, rest: seq<uint8>)
    ensures ByteSum([b1, b2, b3, 0] + rest) == b1 + b2 + b3 + ByteSum(rest)
  {
    ByteSumAppend([b1, b2, b3, 0], rest);
    assert [b1, b2, b3, 0][1..] == [b2, b3, 0];
    assert [b2, b3, 0][1..] == [b3, 0];
    ByteSumTwo(b3, 0);
  }

  lemma ExceptionChecksum(env: TxEnv)
    requires EnvValid(env) && HighBitSet(env.fnCode)
    ensures (ByteSum(FrameBytes(env)) + FrameLrc(env)) % 256 == 0
  {
    ByteSumAppend([env.slaveID, env.fnCode], [env.exception]);
    ByteSumTwo(env.slaveID, env.fnCode);
    ByteSumOne(env.exception);
    HeaderSum(env.slaveID, env.fnCode, env.exception, []);
    assert env.registers[0..0] == [];
    ChecksumCancels(env.slaveID, env.fnCode, env.exception, 0, []);
  }

  lemma ReadChecksum(env: TxEnv)
    requires EnvValid(env) && env.fnCode == 3 && env.numRegisters > 0
    ensures (ByteSum(FrameBytes(env)) + FrameLrc(env)) % 256 == 0
  {
    var a := env.dataAddress;
    var covered := env.registers[a..a + env.numRegisters];
    assert Max1(env.numRegisters) == env.numRegisters as nat;
    assert PayloadBytes(env) == [env.numBytes] + RegisterBytes(covered);
    assert FrameLrc(env) == LrcOf(env.slaveID, env.fnCode, env.numBytes, 0, covered);
    ReadSumCancels(env.slaveID, env.fnCode, env.numBytes, covered);
  }

  /** The bytes of a function 3 reply and the checksum over them sum to 0. */
  lemma ReadSumCancels(id: uint8, fn: uint8, n: uint8, covered: seq<uint16>)
    ensures (ByteSum([id, fn] + ([n] + RegisterBytes(covered))) + LrcOf(id, fn, n, 0, covered)) % 256 == 0
  {
    var regs := RegisterBytes(covered);
    ByteSumAppend([id, fn], [n] + regs);
    ByteSumTwo(id, fn);
    ByteSumAppend([n], regs);
    ByteSumOne(n);
    HeaderSum(id, fn, n, regs);
    ChecksumCancels(id, fn, n, 0, covered);
  }

  lemma WriteChecksum(env: TxEnv)
    requires EnvValid(env) && !HighBitSet(env.fnCode) && env.fnCode != 3
    ensures (ByteSum(FrameBytes(env)) + FrameLrc(env)) % 256 == 0
  {
    var a := env.dataAddress;
    assert env.registers[a..a + 1] == [env.registers[a]];
    var regs := RegisterBytes([env.registers[a]]);
    ByteSumAppend([env.slaveID, env.fnCode], [0, a] + regs);
    ByteSumTwo(env.slaveID, env.fnCode);
    ByteSumAppend([0, a], regs);
    ByteSumTwo(0, a);
    HeaderSum(env.slaveID, env.fnCode, a, regs);
    ChecksumCancels(env.slaveID, env.fnCode, a, 0, env.registers[a..a + 1]);
  }

  /** The checksum the reply carries makes its message bytes and itself sum
      to 0 modulo 256, whenever the registers it covers are the ones sent. */
  lemma ReplyChecksum(env: TxEnv)
    requires EnvValid(env)
    requires !HighBitSet(env.fnCode) && env.fnCode == 3 ==> env.numRegisters > 0
    ensures (ByteSum(FrameBytes(env)) + FrameLrc(env)) % 256 == 0
  {
    if HighBitSet(env.fnCode) {
      ExceptionChecksum(env);
    } else if env.fnCode == 3 {
      ReadChecksum(env);
    } else {
      WriteChecksum(env);
    }
  }

  /** A function 3 reply with numRegisters 0 still sends one register, but
      its checksum covers none: the bytes then sum to that register's two
      bytes modulo 256, not to 0. */
  lemma ZeroRegistersUncovered(env: TxEnv)
    requires EnvValid(env) && env.fnCode == 3 && env.numRegisters == 0
    ensures var r := env.registers[env.dataAddress];
      (ByteSum(FrameBytes(env)) + FrameLrc(env)) % 256 == (HighByte(r) + LowByte(r)) % 256
  {
    var a := env.dataAddress;
    var r := env.registers[a];
    var regs := RegisterBytes(env.registers[a..a + 1]);
    assert env.registers[a..a + 1] == [r];
    assert regs == [HighByte(r), LowByte(r)];
    ByteSumAppend([env.slaveID, env.fnCode], PayloadBytes(env));
    ByteSumTwo(env.slaveID, env.fnCode);
    ByteSumAppend([env.numBytes], regs);
    ByteSumTwo(HighByte(r), LowByte(r));
    assert ByteSum([env.numBytes]) == env.numBytes + ByteSum([]);
    assert env.registers[a..a + 0] == [];
    ChecksumCancels(env.slaveID, env.fnCode, env.numBytes, 0, []);
    HeaderSum(env.slaveID, env.fnCode, env.numBytes, []);
    ModAdd(env.slaveID + env.fnCode + env.numBytes + FrameLrc(env), HighByte(r) + LowByte(r));
  }
}
