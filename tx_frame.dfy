/** Runs of the transmit machine: the reply frame it emits after the delay,
    and the checksum property of that frame (AsciiModbusSlave.cpp:346-444). */
module TxFrame {
  import opened ModbusTypes
  import opened HexCodec
  import opened Lrc
  import opened Timer
  import opened TxTable
  import opened TxModel
  import opened TxFlow

  /** count registers from start, four hex digits each. */
  function RegistersHex(regs: seq<uint16>, start: nat, count: nat): (r: seq<uint8>)
    requires start + count <= |regs|
    ensures |r| == 4 * count
    decreases count
  {
    if count == 0 then [] else Hex4(regs[start]) + RegistersHex(regs, start + 1, count - 1)
  }

  /** The payload state from which mLRC is entered on this reply's path. */
  function LrcPredecessor(env: TxEnv): TxStateId {
    if HighBitSet(env.fnCode) then MExcept else if env.fnCode == 3 then MTxReg else MValue
  }

  /** The checksum the reply carries. */
  function FrameLrc(env: TxEnv): uint8
    requires EnvValid(env)
  {
    EntryLrc(LrcPredecessor(env), 0, env)
  }

  /** What goes between the function code and the checksum: the exception
      code, or the byte count and the registers (function 3), or the data
      address and the value of that register (any other function). */
  function Payload(env: TxEnv): seq<uint8>
    requires EnvValid(env)
  {
    if HighBitSet(env.fnCode) then Hex2(env.exception)
    else if env.fnCode == 3 then Hex2(env.numBytes) + RegistersHex(env.registers, env.dataAddress, Max1(env.numRegisters))
    else Hex4(env.dataAddress) + Hex4(env.registers[env.dataAddress])
  }

  /** The checksum digits and CR LF that end the reply. */
  function Trailer(env: TxEnv): seq<uint8>
    requires EnvValid(env)
  {
    Hex2(FrameLrc(env)) + [CarriageReturn, LineFeed]
  }

  /** The reply frame as it goes out on the wire. */
  function ResponseFrame(env: TxEnv): seq<uint8>
    requires EnvValid(env)
  {
    [Colon] + Hex2(env.slaveID) + Hex2(env.fnCode) + Payload(env) + Trailer(env)
  }

  /** Calls of modbus_update that send the payload and reach mLRC. */
  function PayloadSteps(env: TxEnv): nat {
    if HighBitSet(env.fnCode) then 2
    else if env.fnCode == 3 then 1 + 2 + 4 * Max1(env.numRegisters)
    else 1 + 4 + 4
  }

  /** Calls of modbus_update from mCOLON with an expired timer to mFINISH:
      five for ':' and the header, the payload, four for the checksum and CR LF. */
  function FrameSteps(env: TxEnv): nat {
    5 + PayloadSteps(env) + 4
  }

  /** One step, taken by f, is the step of modbus_update. */
  lemma StepOne(f: TxSnap -> TxSnap, s: TxSnap, env: TxEnv)
    requires EnvValid(env) && StepsAs(f, env) && TxInv(s, env)
    ensures Iterate(f, s, 1) == Flow(s, env)
  {
    assert f(s) == Flow(s, env);
  }

  /** a steps to t followed by b steps to u are a + b steps to u. */
  lemma Chain(f: TxSnap -> TxSnap, s: TxSnap, a: nat, t: TxSnap, b: nat, u: TxSnap)
    requires Iterate(f, s, a) == t && Iterate(f, t, b) == u
    ensures Iterate(f, s, a + b) == u
  {
    IterateAdd(f, s, a, b);
  }

  /** Three runs one after the other. */
  lemma Chain3(f: TxSnap -> TxSnap, s: TxSnap, a: nat, t: TxSnap, b: nat, u: TxSnap, c: nat, v: TxSnap)
    requires Iterate(f, s, a) == t && Iterate(f, t, b) == u && Iterate(f, u, c) == v
    ensures Iterate(f, s, a + b + c) == v
  {
    IterateAdd(f, s, a, b);
    IterateAdd(f, s, a + b, c);
  }

  /** One step followed by k - 1 more is k steps. */
  lemma ComposeStep(f: TxSnap -> TxSnap, s: TxSnap, env: TxEnv, k: nat, s1: TxSnap, u: TxSnap)
    requires EnvValid(env) && StepsAs(f, env) && TxInv(s, env) && k > 0
    requires Flow(s, env) == s1
    requires Iterate(f, s1, k - 1) == u
    ensures Iterate(f, s, k) == u
  {
    IterateOnce(f, s, k);
  }

  /** Where a field-sending state ends up once the rest of its field is sent. */
  function FieldSent(s: TxSnap, env: TxEnv): TxSnap
    requires EnvValid(env) && IsPlainHexState(s.cur) && s.nibbleCounter <= NibbleBound(s.cur)
    requires s.cur == MValue ==> IsWriteFn(env.fnCode)
  {
    s.(cur := Successor(s.cur, DoneOutcome(s.cur, env)), prev := s.cur, nibbleCounter := 0,
       sent := s.sent + HexDigits(PlainHexData(s, env), NibbleBound(s.cur))[s.nibbleCounter..])
  }

  /** Sending one more digit does not change where the field ends up. */
  lemma FieldSentAfterDigit(s: TxSnap, env: TxEnv)
    requires EnvValid(env) && IsPlainHexState(s.cur) && s.nibbleCounter < NibbleBound(s.cur)
    requires s.cur == MValue ==> IsWriteFn(env.fnCode)
    ensures var h := HexDigits(PlainHexData(s, env), NibbleBound(s.cur));
      FieldSent(s.(prev := s.cur, nibbleCounter := s.nibbleCounter + 1, sent := s.sent + [h[s.nibbleCounter]]), env)
      == FieldSent(s, env)
  {
    var h := HexDigits(PlainHexData(s, env), NibbleBound(s.cur));
    var c := s.nibbleCounter;
    var s1 := s.(prev := s.cur, nibbleCounter := c + 1, sent := s.sent + [h[c]]);
    SameField(s1, s, env);
    SendOneMore(s.sent, h, c);
  }

  /** The field a state sends depends only on the state and the checksum held. */
  lemma SameField(s: TxSnap, t: TxSnap, env: TxEnv)
    requires EnvValid(env) && IsPlainHexState(s.cur) && s.cur == t.cur && s.lrc == t.lrc
    requires s.cur == MValue ==> IsWriteFn(env.fnCode)
    ensures PlainHexData(s, env) == PlainHexData(t, env)
  {
  }

  /** Digit c sent, then the digits after it: the digits from c on. */
  lemma SendOneMore(sent: seq<uint8>, h: seq<uint8>, c: nat)
    requires c < |h|
    ensures (sent + [h[c]]) + h[c + 1..] == sent + h[c..]
  {
    assert h[c..] == [h[c]] + h[c + 1..];
  }

  /** A field-sending state, resumed at any nibble, finishes the field's hex
      digits and then leaves by its done outcome. */
  lemma {:induction false} FinishHexSend(f: TxSnap -> TxSnap, s: TxSnap, env: TxEnv, k: nat)
    requires EnvValid(env) && StepsAs(f, env) && TxInv(s, env) && IsPlainHexState(s.cur)
    requires s.cur == MLrc ==> s.prev == MLrc
    requires k == NibbleBound(s.cur) - s.nibbleCounter
    ensures Iterate(f, s, k) == FieldSent(s, env)
    decreases k
  {
    if k == 1 {
      LastDigitSent(f, s, env);
    } else {
      OneDigitSent(f, s, env, k);
      FinishHexSend(f, NextDigit(s, env), env, k - 1);
    }
  }

  /** A field-sending state after one more digit of its field. */
  function NextDigit(s: TxSnap, env: TxEnv): TxSnap
    requires EnvValid(env) && IsPlainHexState(s.cur) && s.nibbleCounter < NibbleBound(s.cur)
    requires s.cur == MValue ==> IsWriteFn(env.fnCode)
  {
    var h := HexDigits(PlainHexData(s, env), NibbleBound(s.cur));
    s.(prev := s.cur, nibbleCounter := s.nibbleCounter + 1, sent := s.sent + [h[s.nibbleCounter]])
  }

  /** The last digit of a field leaves the state as FieldSent says. */
  lemma LastDigitSent(f: TxSnap -> TxSnap, s: TxSnap, env: TxEnv)
    requires EnvValid(env) && StepsAs(f, env) && TxInv(s, env) && IsPlainHexState(s.cur)
    requires s.cur == MLrc ==> s.prev == MLrc
    requires s.nibbleCounter + 1 == NibbleBound(s.cur)
    ensures Iterate(f, s, 1) == FieldSent(s, env)
  {
    var h := HexDigits(PlainHexData(s, env), NibbleBound(s.cur));
    FlowDigit(s, env);
    StepOne(f, s, env);
    assert h[s.nibbleCounter..] == [h[s.nibbleCounter]];
  }

  /** A digit other than the last: one step to NextDigit, which still
      satisfies the invariant and ends up where the field does. */
  lemma OneDigitSent(f: TxSnap -> TxSnap, s: TxSnap, env: TxEnv, k: nat)
    requires EnvValid(env) && StepsAs(f, env) && TxInv(s, env) && IsPlainHexState(s.cur)
    requires s.cur == MLrc ==> s.prev == MLrc
    requires k == NibbleBound(s.cur) - s.nibbleCounter && k > 1
    ensures var s1 := NextDigit(s, env);
      && TxInv(s1, env) && s1.cur == s.cur && (s1.cur == MLrc ==> s1.prev == MLrc)
      && k - 1 == NibbleBound(s1.cur) - s1.nibbleCounter
      && Iterate(f, s, k) == Iterate(f, s1, k - 1) && FieldSent(s1, env) == FieldSent(s, env)
  {
    var h := HexDigits(PlainHexData(s, env), NibbleBound(s.cur));
    DigitKeepsInv(s, env, s.sent + [h[s.nibbleCounter]]);
    FlowDigit(s, env);
    FieldSentAfterDigit(s, env);
    IterateOnce(f, s, k);
    assert f(s) == Flow(s, env);
  }

  /** A digit of a field other than its last keeps the invariant. */
  lemma DigitKeepsInv(s: TxSnap, env: TxEnv, sent: seq<uint8>)
    requires TxInv(s, env) && IsPlainHexState(s.cur) && (s.cur == MLrc ==> s.prev == MLrc)
    requires s.nibbleCounter + 1 < NibbleBound(s.cur)
    ensures TxInv(s.(prev := s.cur, nibbleCounter := s.nibbleCounter + 1, sent := sent), env)
  {
  }

  /** A field-sending state entered with a zero counter sends the whole field. */
  lemma SendWholeField(f: TxSnap -> TxSnap, s: TxSnap, env: TxEnv)
    requires EnvValid(env) && StepsAs(f, env) && TxInv(s, env) && IsPlainHexState(s.cur) && s.nibbleCounter == 0
    requires s.cur == MLrc ==> s.prev == MLrc
    ensures Iterate(f, s, NibbleBound(s.cur))
         == s.(cur := Successor(s.cur, DoneOutcome(s.cur, env)), prev := s.cur,
               sent := s.sent + HexDigits(PlainHexData(s, env), NibbleBound(s.cur)))
  {
    FinishHexSend(f, s, env, NibbleBound(s.cur));
    var h := HexDigits(PlainHexData(s, env), NibbleBound(s.cur));
    assert h[0..] == h;
  }

  /** mCOLON once the delay has run out: ':' goes out and mSLAVEID follows. */
  lemma ColonSends(f: TxSnap -> TxSnap, s: TxSnap, env: TxEnv)
    requires EnvValid(env) && StepsAs(f, env) && TxInv(s, env) && s.cur == MColon && s.timer == 0
    ensures Iterate(f, s, 1) == s.(cur := MSlaveId, prev := MColon, sent := s.sent + [Colon])
  {
    StepOne(f, s, env);
  }

  /** mCHOICE sends nothing: function 3 goes on to mNUMDATA, every other
      function to mDATAADD. */
  lemma ChoiceStep(f: TxSnap -> TxSnap, s: TxSnap, env: TxEnv)
    requires EnvValid(env) && StepsAs(f, env) && TxInv(s, env) && s.cur == MChoice
    ensures Iterate(f, s, 1) == s.(cur := if env.fnCode == 3 then MNumData else MDataAdd, prev := MChoice)
  {
    StepOne(f, s, env);
  }

  /** mLRC entered from a payload state sends the two digits of the checksum
      of that path and goes on to mCRLF. */
  lemma LrcSends(f: TxSnap -> TxSnap, s: TxSnap, env: TxEnv)
    requires EnvValid(env) && StepsAs(f, env) && TxInv(s, env) && s.cur == MLrc && s.nibbleCounter == 0
    requires s.prev == MExcept || s.prev == MTxReg || s.prev == MValue
    ensures var l := EntryLrc(s.prev, s.lrc, env);
      Iterate(f, s, 2) == s.(cur := MCrLf, prev := MLrc, lrc := l, sent := s.sent + Hex2(l))
  {
    var l := EntryLrc(s.prev, s.lrc, env);
    var s1 := s.(prev := MLrc, lrc := l, nibbleCounter := 1, sent := s.sent + [Hex2(l)[0]]);
    LrcEntryFlow(s, env);
    FinishHexSend(f, s1, env, 1);
    assert Hex2(l)[1..] == [Hex2(l)[1]];
    assert (s.sent + [Hex2(l)[0]]) + Hex2(l)[1..] == s.sent + Hex2(l);
    ComposeStep(f, s, env, 2, s1, s.(cur := MCrLf, prev := MLrc, lrc := l, sent := s.sent + Hex2(l)));
  }

  /** mCRLF sends CR on entry and LF on the call after, then mFINISH follows. */
  lemma CrLfSends(f: TxSnap -> TxSnap, s: TxSnap, env: TxEnv)
    requires EnvValid(env) && StepsAs(f, env) && TxInv(s, env) && s.cur == MCrLf && s.prev != MCrLf
    ensures Iterate(f, s, 2) == s.(cur := MFinish, prev := MCrLf, sent := s.sent + [CarriageReturn, LineFeed])
  {
    var s1 := s.(prev := MCrLf, sent := s.sent + [CarriageReturn]);
    StepOne(f, s1, env);
    assert s1.(cur := MFinish, sent := s1.sent + [LineFeed])
        == s.(cur := MFinish, prev := MCrLf, sent := s.sent + [CarriageReturn, LineFeed]);
    ComposeStep(f, s, env, 2, s1, s.(cur := MFinish, prev := MCrLf, sent := s.sent + [CarriageReturn, LineFeed]));
  }

  /** Where mTXREG ends up once the current register and all later ones are sent. */
  function RegsDone(s: TxSnap, env: TxEnv): TxSnap
    requires EnvValid(env) && env.fnCode == 3 && s.regIndex < Max1(env.numRegisters) && s.nibbleCounter <= 4
  {
    var m := Max1(env.numRegisters);
    s.(cur := MLrc, prev := MTxReg, nibbleCounter := 0, regIndex := m,
       sent := s.sent + Hex4(CurrentRegister(s, env))[s.nibbleCounter..]
               + RegistersHex(env.registers, env.dataAddress + s.regIndex + 1, m - 1 - s.regIndex))
  }

  /** Calls needed by mTXREG, continuing, to finish. */
  function RegsLeft(s: TxSnap, env: TxEnv): nat
    requires s.regIndex < Max1(env.numRegisters) && s.nibbleCounter <= 4
  {
    (4 - s.nibbleCounter) + 4 * (Max1(env.numRegisters) - 1 - s.regIndex)
  }

  lemma RegsDoneAfterDigit(s: TxSnap, env: TxEnv)
    requires EnvValid(env) && env.fnCode == 3 && s.regIndex < Max1(env.numRegisters) && s.nibbleCounter < 4
    requires RegsLeft(s, env) > 1
    ensures var s1 := RegDigitStep(s, env);
      s1.cur == s.cur && s1.regIndex < Max1(env.numRegisters) && s1.nibbleCounter < 4
      && RegsLeft(s1, env) == RegsLeft(s, env) - 1 && RegsDone(s1, env) == RegsDone(s, env)
  {
    if s.nibbleCounter < 3 {
      RegsDoneInsideRegister(s, env);
    } else {
      RegsDoneNextRegister(s, env);
    }
  }

  /** A digit other than a register's last leaves the index where it is. */
  lemma RegsDoneInsideRegister(s: TxSnap, env: TxEnv)
    requires EnvValid(env) && env.fnCode == 3 && s.regIndex < Max1(env.numRegisters) && s.nibbleCounter < 3
    ensures var s1 := RegDigitStep(s, env);
      s1 == s.(prev := MTxReg, nibbleCounter := s.nibbleCounter + 1,
               sent := s.sent + [Hex4(CurrentRegister(s, env))[s.nibbleCounter]])
      && RegsDone(s1, env) == RegsDone(s, env)
  {
    var h := Hex4(CurrentRegister(s, env));
    var s1 := RegDigitStep(s, env);
    assert CurrentRegister(s1, env) == CurrentRegister(s, env);
    SendOneMore(s.sent, h, s.nibbleCounter);
  }

  /** A register's last digit, with registers still to come, moves the index on. */
  lemma RegsDoneNextRegister(s: TxSnap, env: TxEnv)
    requires EnvValid(env) && env.fnCode == 3 && s.regIndex + 1 < Max1(env.numRegisters) && s.nibbleCounter == 3
    ensures var s1 := RegDigitStep(s, env);
      s1 == s.(prev := MTxReg, nibbleCounter := 0, regIndex := s.regIndex + 1,
               sent := s.sent + [Hex4(CurrentRegister(s, env))[3]])
      && RegsDone(s1, env) == RegsDone(s, env)
  {
    var j := s.regIndex;
    var m := Max1(env.numRegisters);
    var a := env.dataAddress;
    var h := Hex4(CurrentRegister(s, env));
    var h1 := Hex4(env.registers[a + j + 1]);
    var s1 := RegDigitStep(s, env);
    assert CurrentRegister(s1, env) == env.registers[a + j + 1];
    assert RegistersHex(env.registers, a + j + 1, m - 1 - j) == h1 + RegistersHex(env.registers, a + j + 2, m - 2 - j);
    NextRegisterSent(s.sent, h, h1, RegistersHex(env.registers, a + j + 2, m - 2 - j));
  }

  /** The last digit of one register, then the next register and the rest. */
  lemma NextRegisterSent(sent: seq<uint8>, h: seq<uint8>, h1: seq<uint8>, rest: seq<uint8>)
    requires |h| == 4
    ensures (sent + [h[3]]) + h1[0..] + rest == sent + h[3..] + (h1 + rest)
  {
    assert h[3..] == [h[3]];
    assert h1[0..] == h1;
  }

  lemma RegsDoneLastDigit(s: TxSnap, env: TxEnv)
    requires EnvValid(env) && env.fnCode == 3 && s.regIndex < Max1(env.numRegisters) && s.nibbleCounter < 4
    requires RegsLeft(s, env) == 1
    ensures RegDigitStep(s, env).(cur := MLrc) == RegsDone(s, env)
  {
    var h := Hex4(CurrentRegister(s, env));
    assert h[3..] == [h[3]];
  }

  /** mTXREG, resumed at any digit of any register, sends the rest of that
      register and all later ones, then goes on to mLRC. */
  lemma {:induction false} TxRegFinishes(f: TxSnap -> TxSnap, s: TxSnap, env: TxEnv, k: nat)
    requires EnvValid(env) && StepsAs(f, env) && TxInv(s, env) && s.cur == MTxReg && s.prev == MTxReg
    requires k == RegsLeft(s, env)
    ensures Iterate(f, s, k) == RegsDone(s, env)
    decreases k
  {
    var s1 := RegDigitStep(s, env);
    if k == 1 {
      RegsDoneLastDigit(s, env);
      StepOne(f, s, env);
    } else {
      RegsDoneAfterDigit(s, env);
      TxRegFinishes(f, s1, env, k - 1);
      ComposeStep(f, s, env, k, s1, RegsDone(s, env));
    }
  }

  /** The first register's first digit followed by the rest is all the registers. */
  lemma RegsDoneFromEntry(s: TxSnap, env: TxEnv)
    requires EnvValid(env) && env.fnCode == 3 && s.nibbleCounter == 0
    ensures var h := Hex4(env.registers[env.dataAddress]);
      var s1 := s.(prev := MTxReg, regIndex := 0, nibbleCounter := 1, sent := s.sent + [h[0]]);
      RegsDone(s1, env)
      == s.(cur := MLrc, prev := MTxReg, regIndex := Max1(env.numRegisters),
            sent := s.sent + RegistersHex(env.registers, env.dataAddress, Max1(env.numRegisters)))
  {
    var m := Max1(env.numRegisters);
    var a := env.dataAddress;
    var h := Hex4(env.registers[a]);
    var s1 := s.(prev := MTxReg, regIndex := 0, nibbleCounter := 1, sent := s.sent + [h[0]]);
    var rest := RegistersHex(env.registers, a + 1, m - 1);
    assert RegistersHex(env.registers, a, m) == h + rest;
    assert CurrentRegister(s1, env) == env.registers[a];
    FirstDigitThenRest(s.sent, h, rest);
  }

  lemma FirstDigitThenRest(sent: seq<uint8>, h: seq<uint8>, rest: seq<uint8>)
    requires |h| > 0
    ensures (sent + [h[0]]) + h[1..] + rest == sent + (h + rest)
  {
    assert h == [h[0]] + h[1..];
  }

  /** mTXREG entered from mNUMDATA sends Max1(numRegisters) registers from
      dataAddress on, four digits each, and goes on to mLRC. */
  lemma TxRegSends(f: TxSnap -> TxSnap, s: TxSnap, env: TxEnv)
    requires EnvValid(env) && StepsAs(f, env) && TxInv(s, env) && s.cur == MTxReg && s.prev != MTxReg && s.nibbleCounter == 0
    ensures var m := Max1(env.numRegisters);
      Iterate(f, s, 4 * m)
      == s.(cur := MLrc, prev := MTxReg, regIndex := m,
            sent := s.sent + RegistersHex(env.registers, env.dataAddress, m))
  {
    var m := Max1(env.numRegisters);
    var h := Hex4(env.registers[env.dataAddress]);
    var s1 := s.(prev := MTxReg, regIndex := 0, nibbleCounter := 1, sent := s.sent + [h[0]]);
    TxRegEntryFlow(s, env);
    TxRegFinishes(f, s1, env, 4 * m - 1);
    RegsDoneFromEntry(s, env);
    ComposeStep(f, s, env, 4 * m, s1, RegsDone(s1, env));
  }

  /** mSLAVEID sends the two digits of the slave address. */
  lemma SlaveIdSends(f: TxSnap -> TxSnap, t: TxSnap, env: TxEnv)
    requires EnvValid(env) && StepsAs(f, env) && TxInv(t, env) && t.cur == MSlaveId && t.nibbleCounter == 0
    ensures Iterate(f, t, 2) == t.(cur := MFnCode, prev := MSlaveId, sent := t.sent + Hex2(env.slaveID))
  {
    SendWholeField(f, t, env);
  }

  /** mFNCODE sends the two digits of the function code, then takes the
      exception path or goes to mCHOICE. */
  lemma FnCodeSends(f: TxSnap -> TxSnap, t: TxSnap, env: TxEnv)
    requires EnvValid(env) && StepsAs(f, env) && TxInv(t, env) && t.cur == MFnCode && t.nibbleCounter == 0
    ensures Iterate(f, t, 2)
         == t.(cur := if HighBitSet(env.fnCode) then MExcept else MChoice, prev := MFnCode,
               sent := t.sent + Hex2(env.fnCode))
  {
    SendWholeField(f, t, env);
  }

  /** mNUMDATA sends the two digits of the byte count, then mTXREG. */
  lemma CountSends(f: TxSnap -> TxSnap, t: TxSnap, env: TxEnv)
    requires EnvValid(env) && StepsAs(f, env) && TxInv(t, env) && t.cur == MNumData && t.nibbleCounter == 0
    ensures Iterate(f, t, 2) == t.(cur := MTxReg, prev := MNumData, sent := t.sent + Hex2(env.numBytes))
  {
    SendWholeField(f, t, env);
  }

  /** mDATAADD sends the four digits of the data address, then mVALUE. */
  lemma AddressSends(f: TxSnap -> TxSnap, t: TxSnap, env: TxEnv)
    requires EnvValid(env) && StepsAs(f, env) && TxInv(t, env) && t.cur == MDataAdd && t.nibbleCounter == 0
    ensures Iterate(f, t, 4) == t.(cur := MValue, prev := MDataAdd, sent := t.sent + Hex4(env.dataAddress))
  {
    SendWholeField(f, t, env);
  }

  /** mVALUE sends the four digits of the addressed register, then mLRC. */
  lemma ValueSends(f: TxSnap -> TxSnap, t: TxSnap, env: TxEnv)
    requires EnvValid(env) && StepsAs(f, env) && TxInv(t, env) && t.cur == MValue && t.nibbleCounter == 0
    ensures Iterate(f, t, 4)
         == t.(cur := MLrc, prev := MValue, sent := t.sent + Hex4(env.registers[env.dataAddress]))
  {
    SendWholeField(f, t, env);
  }

  /** From mCOLON with the delay over: ':', the slave address and the
      function code go out, then the exception path or mCHOICE follows. */
  lemma HeaderSends(f: TxSnap -> TxSnap, s: TxSnap, env: TxEnv)
    requires EnvValid(env) && StepsAs(f, env) && TxInv(s, env) && s.cur == MColon && s.timer == 0
    ensures Iterate(f, s, 5)
         == s.(cur := if HighBitSet(env.fnCode) then MExcept else MChoice, prev := MFnCode,
               sent := s.sent + [Colon] + Hex2(env.slaveID) + Hex2(env.fnCode))
  {
    var sA := s.(cur := MSlaveId, prev := MColon, sent := s.sent + [Colon]);
    var sB := sA.(cur := MFnCode, prev := MSlaveId, sent := sA.sent + Hex2(env.slaveID));
    var sC := sB.(cur := if HighBitSet(env.fnCode) then MExcept else MChoice, prev := MFnCode,
                  sent := sB.sent + Hex2(env.fnCode));
    ColonSends(f, s, env);
    SlaveIdSends(f, sA, env);
    FnCodeSends(f, sB, env);
    Chain3(f, s, 1, sA, 2, sB, 2, sC);
  }

  /** The exception path: the exception code, then mLRC. */
  lemma ExceptionPayloadSends(f: TxSnap -> TxSnap, t: TxSnap, env: TxEnv)
    requires EnvValid(env) && StepsAs(f, env) && TxInv(t, env) && t.cur == MExcept && t.nibbleCounter == 0
    ensures Iterate(f, t, 2) == t.(cur := MLrc, prev := MExcept, sent := t.sent + Hex2(env.exception))
  {
    SendWholeField(f, t, env);
  }

  /** The function 3 path: mCHOICE, the byte count, the registers, then mLRC. */
  lemma ReadPayloadSends(f: TxSnap -> TxSnap, t: TxSnap, env: TxEnv)
    requires EnvValid(env) && StepsAs(f, env) && TxInv(t, env) && t.cur == MChoice && env.fnCode == 3
    ensures var m := Max1(env.numRegisters);
      Iterate(f, t, 3 + 4 * m)
      == t.(cur := MLrc, prev := MTxReg, regIndex := m,
            sent := t.sent + Hex2(env.numBytes) + RegistersHex(env.registers, env.dataAddress, m))
  {
    var m := Max1(env.numRegisters);
    var tA := t.(cur := MNumData, prev := MChoice);
    var tB := tA.(cur := MTxReg, prev := MNumData, sent := tA.sent + Hex2(env.numBytes));
    var tC := tB.(cur := MLrc, prev := MTxReg, regIndex := m,
                  sent := tB.sent + RegistersHex(env.registers, env.dataAddress, m));
    ChoiceStep(f, t, env);
    CountSends(f, tA, env);
    TxRegSends(f, tB, env);
    Chain3(f, t, 1, tA, 2, tB, 4 * m, tC);
  }

  /** The path of every other function: mCHOICE, the data address, the value
      of that register, then mLRC. */
  lemma WritePayloadSends(f: TxSnap -> TxSnap, t: TxSnap, env: TxEnv)
    requires EnvValid(env) && StepsAs(f, env) && TxInv(t, env) && t.cur == MChoice && env.fnCode != 3
    ensures Iterate(f, t, 9)
         == t.(cur := MLrc, prev := MValue, sent := t.sent + Hex4(env.dataAddress) + Hex4(env.registers[env.dataAddress]))
  {
    var tA := t.(cur := MDataAdd, prev := MChoice);
    var tB := tA.(cur := MValue, prev := MDataAdd, sent := tA.sent + Hex4(env.dataAddress));
    var tC := tB.(cur := MLrc, prev := MValue, sent := tB.sent + Hex4(env.registers[env.dataAddress]));
    ChoiceStep(f, t, env);
    AddressSends(f, tA, env);
    ValueSends(f, tB, env);
    Chain3(f, t, 1, tA, 4, tB, 4, tC);
  }

  lemma Assoc(a: seq<uint8>, b: seq<uint8>, c: seq<uint8>)
    ensures a + b + c == a + (b + c)
  {
  }

  /** From mLRC entered from a payload state: the checksum and CR LF, then mFINISH. */
  lemma TrailerSends(f: TxSnap -> TxSnap, t: TxSnap, env: TxEnv)
    requires EnvValid(env) && StepsAs(f, env) && TxInv(t, env) && t.cur == MLrc && t.nibbleCounter == 0
    requires t.prev == LrcPredecessor(env)
    ensures Iterate(f, t, 4)
         == t.(cur := MFinish, prev := MCrLf, lrc := FrameLrc(env), sent := t.sent + Trailer(env))
  {
    Assoc(t.sent, Hex2(FrameLrc(env)), [CarriageReturn, LineFeed]);
    var l := FrameLrc(env);
    var tA := t.(cur := MCrLf, prev := MLrc, lrc := l, sent := t.sent + Hex2(l));
    LrcSends(f, t, env);
    CrLfSends(f, tA, env);
    Chain(f, t, 2, tA, 2, tA.(cur := MFinish, prev := MCrLf, sent := tA.sent + [CarriageReturn, LineFeed]));
  }

  /** The machine once the reply is out: in mFINISH with the reply's
      checksum, the timer as it was and the given bytes sent in all. */
  predicate ReplyDone(u: TxSnap, timer: uint8, env: TxEnv, sent: seq<uint8>)
    requires EnvValid(env)
  {
    && u.cur == MFinish && u.prev == MCrLf && u.nibbleCounter == 0 && u.timer == timer
    && u.lrc == FrameLrc(env) && u.sent == sent
  }

  /** Where the payload leaves the machine: in mLRC, entered from the
      payload state of this reply's path, with the payload sent. */
  function PayloadEnd(t: TxSnap, env: TxEnv): TxSnap
    requires EnvValid(env)
  {
    t.(cur := MLrc, prev := LrcPredecessor(env),
       regIndex := if !HighBitSet(env.fnCode) && env.fnCode == 3 then Max1(env.numRegisters) else t.regIndex,
       sent := t.sent + Payload(env))
  }

  /** From the end of the header, whichever path the function code selects. */
  lemma PayloadSends(f: TxSnap -> TxSnap, t: TxSnap, env: TxEnv)
    requires EnvValid(env) && StepsAs(f, env) && TxInv(t, env) && t.nibbleCounter == 0
    requires t.cur == if HighBitSet(env.fnCode) then MExcept else MChoice
    ensures Iterate(f, t, PayloadSteps(env)) == PayloadEnd(t, env)
  {
    if HighBitSet(env.fnCode) {
      ExceptionPayloadSends(f, t, env);
    } else if env.fnCode == 3 {
      ReadPayloadSends(f, t, env);
      Assoc(t.sent, Hex2(env.numBytes), RegistersHex(env.registers, env.dataAddress, Max1(env.numRegisters)));
    } else {
      WritePayloadSends(f, t, env);
      Assoc(t.sent, Hex4(env.dataAddress), Hex4(env.registers[env.dataAddress]));
    }
  }

  /** Where the payload leaves the machine, field by field. */
  lemma PayloadEndShape(t: TxSnap, env: TxEnv)
    requires EnvValid(env) && TxInv(t, env) && t.nibbleCounter == 0
    ensures var tP := PayloadEnd(t, env);
      TxInv(tP, env) && tP.cur == MLrc && tP.nibbleCounter == 0 && tP.prev == LrcPredecessor(env)
      && tP.timer == t.timer && tP.sent == t.sent + Payload(env)
  {
  }

  /** The checksum and CR LF leave the reply done. */
  lemma TrailerDone(f: TxSnap -> TxSnap, t: TxSnap, env: TxEnv)
    requires EnvValid(env) && StepsAs(f, env) && TxInv(t, env) && t.cur == MLrc && t.nibbleCounter == 0
    requires t.prev == LrcPredecessor(env)
    ensures ReplyDone(Iterate(f, t, 4), t.timer, env, t.sent + Trailer(env))
  {
    TrailerSends(f, t, env);
  }

  /** From the end of the header: the payload, the checksum and CR LF. */
  lemma PathSends(f: TxSnap -> TxSnap, t: TxSnap, env: TxEnv)
    requires EnvValid(env) && StepsAs(f, env) && TxInv(t, env) && t.nibbleCounter == 0
    requires t.cur == if HighBitSet(env.fnCode) then MExcept else MChoice
    ensures ReplyDone(Iterate(f, t, PayloadSteps(env) + 4), t.timer, env, t.sent + Payload(env) + Trailer(env))
  {
    PayloadSends(f, t, env);
    PayloadEndShape(t, env);
    ThenTrailer(f, t, env, PayloadEnd(t, env));
  }

  /** Once the payload has left the machine in mLRC, the checksum and CR LF
      follow in four more calls. */
  lemma ThenTrailer(f: TxSnap -> TxSnap, t: TxSnap, env: TxEnv, tP: TxSnap)
    requires EnvValid(env) && StepsAs(f, env) && Iterate(f, t, PayloadSteps(env)) == tP
    requires TxInv(tP, env) && tP.cur == MLrc && tP.nibbleCounter == 0 && tP.prev == LrcPredecessor(env)
    requires tP.timer == t.timer && tP.sent == t.sent + Payload(env)
    ensures ReplyDone(Iterate(f, t, PayloadSteps(env) + 4), t.timer, env, t.sent + Payload(env) + Trailer(env))
  {
    TrailerDone(f, tP, env);
    Chain(f, t, PayloadSteps(env), tP, 4, Iterate(f, tP, 4));
  }

  /** From mCOLON with the delay over, FrameSteps(env) steps send exactly
      ResponseFrame(env) and stop in mFINISH with the reply's checksum held. */
  lemma FrameSends(f: TxSnap -> TxSnap, s: TxSnap, env: TxEnv)
    requires EnvValid(env) && StepsAs(f, env) && TxInv(s, env) && s.cur == MColon && s.timer == 0
    ensures ReplyDone(Iterate(f, s, FrameSteps(env)), 0, env, s.sent + ResponseFrame(env))
  {
    var sH := s.(cur := if HighBitSet(env.fnCode) then MExcept else MChoice, prev := MFnCode,
                 sent := s.sent + [Colon] + Hex2(env.slaveID) + Hex2(env.fnCode));
    HeaderSends(f, s, env);
    PathSends(f, sH, env);
    var k := PayloadSteps(env) + 4;
    Chain(f, s, 5, sH, k, Iterate(f, sH, k));
    AppendFrame(s.sent, [Colon], Hex2(env.slaveID), Hex2(env.fnCode), Payload(env), Trailer(env));
  }

  /** The reply: from mCOLON with the delay over, FrameSteps(env) calls of
      modbus_update send exactly ResponseFrame(env) and stop in mFINISH with
      the reply's checksum held. */
  lemma FrameFromColon(s: TxSnap, env: TxEnv)
    requires EnvValid(env) && TxInv(s, env) && s.cur == MColon && s.timer == 0
    ensures ReplyDone(Run(s, env, FrameSteps(env)), 0, env, s.sent + ResponseFrame(env))
  {
    ReadyStepSteps(env);
    FrameSends(ReadyStep(env), s, env);
  }

  lemma AppendFrame(pre: seq<uint8>, a: seq<uint8>, b: seq<uint8>, c: seq<uint8>, d: seq<uint8>,
                    e: seq<uint8>)
    ensures pre + a + b + c + d + e == pre + (a + b + c + d + e)
  {
  }

  /** Leaving mFINISH with a message to send reaches mCOLON in two calls,
      with the timer at MODBUS_DELAY and nothing sent. */
  lemma ArmsDelay(f: TxSnap -> TxSnap, s: TxSnap, env: TxEnv)
    requires EnvValid(env) && StepsAs(f, env) && TxInv(s, env) && s.cur == MFinish
    requires env.messageReadyToSend == 1
    ensures Iterate(f, s, 2) == s.(cur := MColon, prev := MTxStart, timer := ModbusDelay)
  {
    var s1 := s.(cur := MTxStart, prev := MFinish);
    StepOne(f, s1, env);
    ComposeStep(f, s, env, 2, s1, s.(cur := MColon, prev := MTxStart, timer := ModbusDelay));
  }

  /** k timer interrupts in a row. */
  lemma {:induction false} TicksCount(s: TxSnap, k: nat)
    ensures Iterate(Tick, s, k) == s.(timer := AfterTicks(s.timer, k))
    decreases k
  {
    if k > 0 {
      TicksCount(Tick(s), k - 1);
    }
  }

  /** An interleaving of timer interrupts (true) and calls of modbus_update
      with the UART ready (false). */
  function Interleave(s: TxSnap, env: TxEnv, schedule: seq<bool>): (r: TxSnap)
    requires EnvValid(env) && TxInv(s, env)
    ensures TxInv(r, env)
    decreases |schedule|
  {
    if schedule == [] then s
    else Interleave(if schedule[0] then Tick(s) else TxStep(s, env, true), env, schedule[1..])
  }

  /** The interrupts in a schedule. */
  function TickCount(schedule: seq<bool>): (r: nat)
    ensures r <= |schedule|
  {
    if schedule == [] then 0 else (if schedule[0] then 1 else 0) + TickCount(schedule[1..])
  }

  /** While fewer interrupts have come than the timer holds, mCOLON keeps
      waiting and not a byte goes out, however the calls are interleaved. */
  lemma {:induction false} DelayHoldsColon(s: TxSnap, env: TxEnv, schedule: seq<bool>)
    requires EnvValid(env) && TxInv(s, env) && s.cur == MColon
    requires TickCount(schedule) < s.timer
    ensures var r := Interleave(s, env, schedule);
      r.cur == MColon && r.sent == s.sent && r.timer == s.timer - TickCount(schedule)
    decreases |schedule|
  {
    if schedule != [] {
      if schedule[0] {
        DelayHoldsColon(Tick(s), env, schedule[1..]);
      } else {
        ColonWaits(s, env);
        DelayHoldsColon(s.(prev := MColon), env, schedule[1..]);
      }
    }
  }

  /** One reply and the delay before the next: FrameSteps(env) + 2 steps,
      then MODBUS_DELAY timer interrupts. */
  function ReplyCycle(f: TxSnap -> TxSnap, s: TxSnap, env: TxEnv): TxSnap {
    CycleOf(f, s, FrameSteps(env))
  }

  /** k steps, two more, then MODBUS_DELAY timer interrupts. */
  function CycleOf(f: TxSnap -> TxSnap, s: TxSnap, k: nat): TxSnap {
    Iterate(Tick, Iterate(f, s, k + 2), ModbusDelay as nat)
  }

  /** Two steps after the reply the machine is back in mCOLON, the delay armed. */
  lemma RearmsAfterReply(f: TxSnap -> TxSnap, s: TxSnap, env: TxEnv, k: nat, d: TxSnap)
    requires EnvValid(env) && StepsAs(f, env) && env.messageReadyToSend == 1
    requires Iterate(f, s, k) == d
    requires d.cur == MFinish && d.prev == MCrLf && d.nibbleCounter == 0
    ensures Iterate(f, s, k + 2) == d.(cur := MColon, prev := MTxStart, timer := ModbusDelay)
  {
    ArmsDelay(f, d, env);
    Chain(f, s, k, d, 2, d.(cur := MColon, prev := MTxStart, timer := ModbusDelay));
  }

  /** MODBUS_DELAY interrupts run the armed delay out. */
  lemma DelayRunsOut(env: TxEnv, d: TxSnap)
    requires EnvValid(env) && d.nibbleCounter == 0
    ensures var r := Iterate(Tick, d.(cur := MColon, prev := MTxStart, timer := ModbusDelay), ModbusDelay as nat);
      TxInv(r, env) && r.cur == MColon && r.timer == 0 && r.sent == d.sent
  {
    var u := d.(cur := MColon, prev := MTxStart, timer := ModbusDelay);
    TicksCount(u, ModbusDelay as nat);
    AfterTicksValue(u.timer, ModbusDelay as nat);
  }

  /** What a cycle does once its reply is out after k steps: two more steps
      back to mCOLON, then the delay runs out. */
  lemma CycleAfterReply(f: TxSnap -> TxSnap, s: TxSnap, env: TxEnv, k: nat, d: TxSnap)
    requires EnvValid(env) && StepsAs(f, env) && env.messageReadyToSend == 1
    requires Iterate(f, s, k) == d
    requires d.cur == MFinish && d.prev == MCrLf && d.nibbleCounter == 0
    ensures var r := CycleOf(f, s, k);
      TxInv(r, env) && r.cur == MColon && r.timer == 0 && r.sent == d.sent
  {
    RearmsAfterReply(f, s, env, k, d);
    DelayRunsOut(env, d);
  }

  /** messageReadyToSend is never cleared, so the machine goes from the
      reply straight back to mCOLON, and the delay runs out again. */
  lemma OneCycle(f: TxSnap -> TxSnap, s: TxSnap, env: TxEnv)
    requires EnvValid(env) && StepsAs(f, env) && TxInv(s, env) && s.cur == MColon && s.timer == 0
    requires env.messageReadyToSend == 1
    ensures var r := ReplyCycle(f, s, env);
      TxInv(r, env) && r.cur == MColon && r.timer == 0 && r.sent == s.sent + ResponseFrame(env)
  {
    FrameOut(f, s, env);
    CycleAfterReply(f, s, env, FrameSteps(env), Iterate(f, s, FrameSteps(env)));
  }

  /** The part of FrameSends a following cycle needs. */
  lemma FrameOut(f: TxSnap -> TxSnap, s: TxSnap, env: TxEnv)
    requires EnvValid(env) && StepsAs(f, env) && TxInv(s, env) && s.cur == MColon && s.timer == 0
    ensures var d := Iterate(f, s, FrameSteps(env));
      d.cur == MFinish && d.prev == MCrLf && d.nibbleCounter == 0 && d.sent == s.sent + ResponseFrame(env)
  {
    FrameSends(f, s, env);
  }

  /** n cycles of reply and delay. */
  function Cycles(f: TxSnap -> TxSnap, s: TxSnap, env: TxEnv, n: nat): TxSnap
    decreases n
  {
    if n == 0 then s else Cycles(f, ReplyCycle(f, s, env), env, n - 1)
  }

  /** n copies of a frame, one after the other. */
  function Repeat(frame: seq<uint8>, n: nat): (r: seq<uint8>)
    ensures |r| == n * |frame|
  {
    if n == 0 then [] else frame + Repeat(frame, n - 1)
  }

  /** Every cycle started in mCOLON with an expired timer sends frame and
      ends there again. */
  ghost predicate CycleSends(f: TxSnap -> TxSnap, env: TxEnv, frame: seq<uint8>)
    requires EnvValid(env)
  {
    forall x {:trigger ReplyCycle(f, x, env)} :: TxInv(x, env) && x.cur == MColon && x.timer == 0 ==>
      var r := ReplyCycle(f, x, env);
      TxInv(r, env) && r.cur == MColon && r.timer == 0 && r.sent == x.sent + frame
  }

  lemma RepeatOnce(pre: seq<uint8>, frame: seq<uint8>, n: nat)
    requires n > 0
    ensures pre + frame + Repeat(frame, n - 1) == pre + Repeat(frame, n)
  {
  }

  lemma {:induction false} RepliesRepeat(f: TxSnap -> TxSnap, s: TxSnap, env: TxEnv, frame: seq<uint8>, n: nat)
    requires EnvValid(env) && CycleSends(f, env, frame) && TxInv(s, env) && s.cur == MColon && s.timer == 0
    ensures var r := Cycles(f, s, env, n);
      r.cur == MColon && r.timer == 0 && r.sent == s.sent + Repeat(frame, n)
    decreases n
  {
    if n > 0 {
      var r1 := ReplyCycle(f, s, env);
      RepliesRepeat(f, r1, env, frame, n - 1);
      RepeatOnce(s.sent, frame, n);
    }
  }

  /** The reply is retransmitted after every delay for as long as the loop
      runs: after n cycles of modbus_update calls and timer interrupts exactly
      n copies of ResponseFrame(env) are out. */
  lemma RepliesForever(s: TxSnap, env: TxEnv, n: nat)
    requires EnvValid(env) && TxInv(s, env) && s.cur == MColon && s.timer == 0
    requires env.messageReadyToSend == 1
    ensures var r := Cycles(ReadyStep(env), s, env, n);
      r.cur == MColon && r.timer == 0 && r.sent == s.sent + Repeat(ResponseFrame(env), n)
  {
    var f := ReadyStep(env);
    ReadyStepSteps(env);
    forall x | TxInv(x, env) && x.cur == MColon && x.timer == 0
      ensures var r := ReplyCycle(f, x, env);
        TxInv(r, env) && r.cur == MColon && r.timer == 0 && r.sent == x.sent + ResponseFrame(env)
    {
      OneCycle(f, x, env);
    }
    RepliesRepeat(f, s, env, ResponseFrame(env), n);
  }
}
