/** The reply the program sends first, from the static initial values of the
    globals and of modbus_update, send_bin_as_ascii_char, ftx_mLRC_sendLrc and
    ftx_mTXREG_sendRegisters. */
module InitialReply {
  import opened ModbusTypes
  import opened HexCodec
  import opened Lrc
  import opened Timer
  import opened TxTable
  import opened TxModel
  import opened TxFlow
  import opened TxFrame
  import opened ReplyBytes
  import opened SlaveData

  /** cur_state = previous_state = mFINISH, every static counter and the
      timer at 0, nothing sent. */
  const InitialSnap: TxSnap := TxSnap(MFinish, MFinish, 0, 0, 0, 0, [])

  /** The checksum of the initial reply: 0x01 + 0x06 + 0x01 + 0x00 + 0x34 + 0x56
      = 0x92, whose two's complement is 0x6E. */
  lemma InitialChecksum()
    ensures FrameLrc(InitialEnv) == 0x6E
  {
    InitialEnvValid();
    assert InitialRegisters[1..2] == [0x3456];
    assert RegisterByteSum([0x3456]) == 0x34 + 0x56 by {
      assert [0x3456][..0] == [];
    }
  }

  /** ":0106000134566E" CR LF, byte by byte. */
  const FirstReplyBytes: seq<uint8> :=
    [0x3A, 0x30, 0x31, 0x30, 0x36, 0x30, 0x30, 0x30, 0x31, 0x33, 0x34, 0x35, 0x36, 0x36, 0x45, 0x0D, 0x0A]

  /** The initial reply, written out. */
  lemma InitialFrame()
    ensures EnvValid(InitialEnv)
    ensures ResponseFrame(InitialEnv) == FirstReplyBytes
  {
    InitialEnvValid();
    InitialChecksum();
    InitialFrameAt(InitialEnv);
  }

  lemma InitialFrameAt(env: TxEnv)
    requires env == InitialEnv && FrameLrc(InitialEnv) == 0x6E
    ensures ResponseFrame(env) == FirstReplyBytes
  {
    InitialEnvValid();
    WriteReplyFrame(env);
    assert env.registers[1] == 0x3456;
    HeaderDigits(env.slaveID, env.fnCode);
    AddressDigits(env.dataAddress);
    ValueDigits(env.registers[env.dataAddress]);
    ChecksumDigits(FrameLrc(env));
    JoinReply(Hex2(env.slaveID), Hex2(env.fnCode), Hex4(env.dataAddress), Hex4(env.registers[env.dataAddress]),
              Hex2(FrameLrc(env)));
  }

  lemma JoinReply(slave: seq<uint8>, fn: seq<uint8>, address: seq<uint8>, value: seq<uint8>, lrc: seq<uint8>)
    requires slave == [0x30, 0x31] && fn == [0x30, 0x36] && address == [0x30, 0x30, 0x30, 0x31]
    requires value == [0x33, 0x34, 0x35, 0x36] && lrc == [0x36, 0x45]
    ensures [Colon] + slave + fn + address + value + lrc + [CarriageReturn, LineFeed] == FirstReplyBytes
  {
  }

  /** The reply to function 6: header, data address, register value, checksum. */
  lemma WriteReplyFrame(env: TxEnv)
    requires EnvValid(env) && !HighBitSet(env.fnCode) && env.fnCode != 3
    ensures ResponseFrame(env) == [Colon] + Hex2(env.slaveID) + Hex2(env.fnCode)
      + Hex4(env.dataAddress) + Hex4(env.registers[env.dataAddress])
      + Hex2(FrameLrc(env)) + [CarriageReturn, LineFeed]
  {
  }

  lemma HeaderDigits(slave: nat, fn: nat)
    requires slave == 1 && fn == 6
    ensures Hex2(slave) == [0x30, 0x31] && Hex2(fn) == [0x30, 0x36]
  {
    Hex2Spelt(slave);
    Hex2Spelt(fn);
  }

  lemma AddressDigits(a: nat)
    requires a == 1
    ensures Hex4(a) == [0x30, 0x30, 0x30, 0x31]
  {
    Hex4Spelt(a);
  }

  lemma ValueDigits(r: nat)
    requires r == 0x3456
    ensures Hex4(r) == [0x33, 0x34, 0x35, 0x36]
  {
    Hex4Spelt(r);
    assert r / 4096 % 16 == 3 && r / 256 % 16 == 4 && r / 16 % 16 == 5 && r % 16 == 6;
  }

  lemma ChecksumDigits(l: nat)
    requires l == 0x6E
    ensures Hex2(l) == [0x36, 0x45]
  {
    Hex2Spelt(l);
  }

  /** Two hex digits, spelt out. */
  lemma Hex2Spelt(b: nat)
    ensures Hex2(b) == [Uint8ToAscii(b / 16 % 16), Uint8ToAscii(b % 16)]
  {
    assert HexDigits(b / 16, 1) == HexDigits(b / 16 / 16, 0) + [Uint8ToAscii(b / 16 % 16)];
  }

  /** Four hex digits, spelt out. */
  lemma Hex4Spelt(w: nat)
    ensures Hex4(w) == [Uint8ToAscii(w / 4096 % 16), Uint8ToAscii(w / 256 % 16),
                        Uint8ToAscii(w / 16 % 16), Uint8ToAscii(w % 16)]
  {
    HexDigitAt(w, 4, 0);
    HexDigitAt(w, 4, 1);
    HexDigitAt(w, 4, 2);
    HexDigitAt(w, 4, 3);
    ShiftValues(w);
  }

  /** From power-up: two calls of modbus_update leave mFINISH and arm the
      delay, MODBUS_DELAY timer interrupts run it out, and FrameSteps more
      calls send exactly ":0106000134566E" CR LF. */
  lemma FirstReply()
    ensures EnvValid(InitialEnv) && TxInv(InitialSnap, InitialEnv)
    ensures var armed := Iterate(ReadyStep(InitialEnv), InitialSnap, 2);
      var expired := Iterate(Tick, armed, ModbusDelay as nat);
      armed.cur == MColon && armed.sent == []
      && expired.cur == MColon && expired.timer == 0
      && Iterate(ReadyStep(InitialEnv), expired, FrameSteps(InitialEnv)).sent == FirstReplyBytes
  {
    InitialEnvValid();
    var env := InitialEnv;
    var f := ReadyStep(env);
    ReadyStepSteps(env);
    ArmsDelay(f, InitialSnap, env);
    var armed := Iterate(f, InitialSnap, 2);
    TicksCount(armed, ModbusDelay as nat);
    AfterTicksValue(armed.timer, ModbusDelay as nat);
    var expired := Iterate(Tick, armed, ModbusDelay as nat);
    FrameSends(f, expired, env);
    InitialFrame();
  }
}
