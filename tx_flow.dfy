/** What one call of modbus_update does, worked out state by state
    (AsciiModbusSlave.cpp:308-324 with the ftx_* functions at 346-444 and the
    transition table at 130-144), and the proof that the table-driven step of
    TxModel does exactly that. */
module TxFlow {
  import opened ModbusTypes
  import opened HexCodec
  import opened Timer
  import opened TxTable
  import opened TxModel

  function Hex2(b: nat): seq<uint8> {
    HexDigits(b, 2)
  }

  function Hex4(w: nat): seq<uint8> {
    HexDigits(w, 4)
  }

  /** The states that send one field as hex digits, the same field on every
      call (for mLRC once it has been entered). */
  predicate IsPlainHexState(st: TxStateId) {
    st == MSlaveId || st == MFnCode || st == MExcept || st == MNumData
    || st == MDataAdd || st == MValue || st == MLrc
  }

  function PlainHexData(s: TxSnap, env: TxEnv): uint16
    requires EnvValid(env) && IsPlainHexState(s.cur)
    requires s.cur == MValue ==> IsWriteFn(env.fnCode)
  {
    match s.cur
    case MSlaveId => env.slaveID
    case MFnCode => env.fnCode
    case MExcept => env.exception
    case MNumData => env.numBytes
    case MDataAdd => env.dataAddress
    case MValue => env.registers[env.dataAddress]
    case MLrc => s.lrc
  }

  /** The outcome once the last digit is out. */
  function DoneOutcome(st: TxStateId, env: TxEnv): Outcome {
    if st == MFnCode && HighBitSet(env.fnCode) then RBranch else RForward
  }

  /** The effect of one call in a field-sending state, computed from the field:
      the next digit goes out; after the last one the counter is back at 0 and
      the state is left. */
  function DigitStep(s: TxSnap, env: TxEnv): TxSnap
    requires EnvValid(env) && IsPlainHexState(s.cur)
    requires s.cur == MValue ==> IsWriteFn(env.fnCode)
    requires s.nibbleCounter < NibbleBound(s.cur)
  {
    var h := HexDigits(PlainHexData(s, env), NibbleBound(s.cur));
    if s.nibbleCounter == NibbleBound(s.cur) - 1
    then s.(cur := Successor(s.cur, DoneOutcome(s.cur, env)), prev := s.cur, nibbleCounter := 0,
            sent := s.sent + [h[s.nibbleCounter]])
    else s.(prev := s.cur, nibbleCounter := s.nibbleCounter + 1, sent := s.sent + [h[s.nibbleCounter]])
  }

  /** Register regIndex of the ones mTXREG sends. */
  function CurrentRegister(s: TxSnap, env: TxEnv): uint16
    requires EnvValid(env) && env.fnCode == 3 && s.regIndex < Max1(env.numRegisters)
  {
    env.registers[env.dataAddress + s.regIndex]
  }

  /** One call of mTXREG at register regIndex: the next digit of that
      register; after its last digit the index moves on, and once it reaches
      numRegisters the state is left for mLRC. */
  function RegDigitStep(s: TxSnap, env: TxEnv): TxSnap
    requires EnvValid(env) && env.fnCode == 3 && s.regIndex < Max1(env.numRegisters) && s.nibbleCounter < 4
  {
    var h := Hex4(CurrentRegister(s, env));
    var c := s.nibbleCounter;
    if c < 3 then s.(prev := MTxReg, nibbleCounter := c + 1, sent := s.sent + [h[c]])
    else if s.regIndex + 1 < env.numRegisters
    then s.(prev := MTxReg, nibbleCounter := 0, regIndex := s.regIndex + 1, sent := s.sent + [h[3]])
    else s.(cur := MLrc, prev := MTxReg, nibbleCounter := 0, regIndex := s.regIndex + 1, sent := s.sent + [h[3]])
  }

  /** One call of modbus_update with the UART ready, state by state:
      mTXSTART arms the delay; mCOLON waits for it, then sends ':'; mCHOICE
      picks the path of function 3 or of any other function; mFINISH leaves
      only with a message to send; mCRLF sends CR, then LF; mTXREG restarts at
      register 0 when entered; mLRC computes its checksum on entry; every
      other state sends the next digit of its field. */
  function Flow(s: TxSnap, env: TxEnv): TxSnap
    requires EnvValid(env) && TxInv(s, env)
  {
    match s.cur
    case MTxStart => s.(cur := MColon, prev := MTxStart, timer := ModbusDelay)
    case MColon =>
      if s.timer == 0 then s.(cur := MSlaveId, prev := MColon, sent := s.sent + [Colon])
      else s.(prev := MColon)
    case MChoice => s.(cur := if env.fnCode == 3 then MNumData else MDataAdd, prev := MChoice)
    case MFinish => s.(cur := if env.messageReadyToSend == 1 then MTxStart else MFinish, prev := MFinish)
    case MCrLf =>
      if s.prev != MCrLf then s.(prev := MCrLf, sent := s.sent + [CarriageReturn])
      else s.(cur := MFinish, sent := s.sent + [LineFeed])
    case MTxReg => RegDigitStep(if s.prev == MTxReg then s else s.(regIndex := 0), env)
    case MLrc => DigitStep(s.(lrc := EntryLrc(s.prev, s.lrc, env)), env)
    case MSlaveId | MFnCode | MExcept | MNumData | MDataAdd | MValue => DigitStep(s, env)
    case MNull => s
  }

  lemma TxStartArms(s: TxSnap, env: TxEnv)
    requires EnvValid(env) && TxInv(s, env) && s.cur == MTxStart
    ensures TxStep(s, env, true) == s.(cur := MColon, prev := MTxStart, timer := ModbusDelay)
  {
  }

  /** mCOLON while the delay runs: nothing is sent and the state is kept. */
  lemma ColonWaits(s: TxSnap, env: TxEnv)
    requires EnvValid(env) && TxInv(s, env) && s.cur == MColon && s.timer > 0
    ensures TxStep(s, env, true) == s.(prev := MColon)
  {
  }

  lemma ColonFires(s: TxSnap, env: TxEnv)
    requires EnvValid(env) && TxInv(s, env) && s.cur == MColon && s.timer == 0
    ensures TxStep(s, env, true) == s.(cur := MSlaveId, prev := MColon, sent := s.sent + [Colon])
  {
  }

  lemma ChoiceFollows(s: TxSnap, env: TxEnv)
    requires EnvValid(env) && TxInv(s, env) && s.cur == MChoice
    ensures TxStep(s, env, true) == s.(cur := if env.fnCode == 3 then MNumData else MDataAdd, prev := MChoice)
  {
  }

  lemma FinishFollows(s: TxSnap, env: TxEnv)
    requires EnvValid(env) && TxInv(s, env) && s.cur == MFinish
    ensures TxStep(s, env, true)
         == s.(cur := if env.messageReadyToSend == 1 then MTxStart else MFinish, prev := MFinish)
  {
  }

  lemma CrStep(s: TxSnap, env: TxEnv)
    requires EnvValid(env) && TxInv(s, env) && s.cur == MCrLf && s.prev != MCrLf
    ensures TxStep(s, env, true) == s.(prev := MCrLf, sent := s.sent + [CarriageReturn])
  {
  }

  lemma LfStep(s: TxSnap, env: TxEnv)
    requires EnvValid(env) && TxInv(s, env) && s.cur == MCrLf && s.prev == MCrLf
    ensures TxStep(s, env, true) == s.(cur := MFinish, sent := s.sent + [LineFeed])
  {
  }

  /** previous_state and cur_state once modbus_update has looked up the next state. */
  function Moved(st: TxStateId, out: StepResult): TxSnap
    requires st != MNull
  {
    out.after.(prev := st, cur := Successor(st, out.rc))
  }

  /** One call of modbus_update: the current state's step, then the lookup. */
  lemma TxStepMoves(s: TxSnap, env: TxEnv)
    requires EnvValid(env) && TxInv(s, env)
    ensures TxStep(s, env, true) == Moved(s.cur, Dispatch(s, env))
  {
  }

  /** Bits of the field a state sends. */
  function FieldBits(st: TxStateId): (r: uint8)
    requires IsPlainHexState(st)
    ensures (r == 8 || r == 16) && r / 4 == NibbleBound(st)
  {
    if NibbleBound(st) == 2 then 8 else 16
  }

  /** The states that send their field through a plain hex step dispatch to it. */
  lemma DispatchHex(s: TxSnap, env: TxEnv)
    requires EnvValid(env) && TxInv(s, env) && IsPlainHexState(s.cur) && s.cur != MFnCode && s.cur != MLrc
    ensures Dispatch(s, env) == HexStep(s, PlainHexData(s, env), FieldBits(s.cur))
  {
  }

  /** mLRC dispatches to a hex step of the checksum it holds after the call. */
  lemma DispatchLrc(s: TxSnap, env: TxEnv)
    requires EnvValid(env) && TxInv(s, env) && s.cur == MLrc
    ensures var l := EntryLrc(s.prev, s.lrc, env);
      Dispatch(s, env) == HexStep(s.(lrc := l), l, 8)
  {
  }

  /** A hex step of the state's own field, then the lookup, is DigitStep. */
  lemma HexStepDigit(s: TxSnap, env: TxEnv)
    requires EnvValid(env) && IsPlainHexState(s.cur) && s.cur != MFnCode
    requires s.cur == MValue ==> IsWriteFn(env.fnCode)
    requires s.nibbleCounter < NibbleBound(s.cur)
    ensures Moved(s.cur, HexStep(s, PlainHexData(s, env), FieldBits(s.cur))) == DigitStep(s, env)
  {
    var d := PlainHexData(s, env);
    var bits := FieldBits(s.cur);
    var e := EmitStep(s.nibbleCounter, d, bits);
    EmitStepDigit(s.nibbleCounter, d, bits);
    RepeatStays(s.cur);
    assert HexStep(s, d, bits)
        == StepResult(if e.done == 1 then RForward else RRepeat,
                      s.(nibbleCounter := e.counter, sent := s.sent + [e.ch]));
  }

  /** mFNCODE: a digit of the function code, then the exception path or mCHOICE. */
  lemma FnCodeDigitStep(s: TxSnap, env: TxEnv)
    requires EnvValid(env) && TxInv(s, env) && s.cur == MFnCode
    ensures TxStep(s, env, true) == DigitStep(s, env)
  {
    EmitStepDigit(s.nibbleCounter, env.fnCode, 8);
  }

  /** ftx_mTXREG_sendRegisters continuing at index i: neither the register
      address nor the next index wraps, since every register sent lies in
      the array. */
  lemma TxRegStepAtKeep(s: TxSnap, env: TxEnv)
    requires EnvValid(env) && env.fnCode == 3 && s.nibbleCounter < 4 && s.regIndex < Max1(env.numRegisters)
    ensures var i := s.regIndex; var out := SendHex(s, env.registers[env.dataAddress + i], 16);
      TxRegStep(MTxReg, s, env)
      == if out.done then StepResult(if i + 1 >= env.numRegisters then RForward else RRepeat,
                                     out.after.(regIndex := i + 1))
         else StepResult(RRepeat, out.after)
  {
    var i := s.regIndex;
    assert (env.dataAddress + i) % 256 == env.dataAddress + i;
    assert (i + 1) % 256 == i + 1;
  }

  /** ftx_mTXREG_sendRegisters entered from another state restarts at index 0. */
  lemma TxRegStepAtZero(prev: TxStateId, s: TxSnap, env: TxEnv)
    requires EnvValid(env) && env.fnCode == 3 && s.nibbleCounter < 4 && prev != MTxReg
    ensures var out := SendHex(s.(regIndex := 0), env.registers[env.dataAddress], 16);
      TxRegStep(prev, s, env)
      == if out.done then StepResult(if 1 >= env.numRegisters then RForward else RRepeat,
                                     out.after.(regIndex := 1))
         else StepResult(RRepeat, out.after)
  {
    assert (env.dataAddress + 0) % 256 == env.dataAddress;
  }

  lemma DispatchTxReg(s: TxSnap, env: TxEnv)
    requires EnvValid(env) && TxInv(s, env) && s.cur == MTxReg
    ensures Dispatch(s, env) == TxRegStep(s.prev, s, env)
  {
  }

  /** mTXREG continuing sends the next digit of register regIndex. */
  lemma TxRegKeepResult(s: TxSnap, env: TxEnv)
    requires EnvValid(env) && env.fnCode == 3 && s.cur == MTxReg && s.nibbleCounter < 4
    requires s.regIndex < Max1(env.numRegisters)
    ensures Moved(MTxReg, TxRegStep(MTxReg, s, env)) == RegDigitStep(s, env)
  {
    TxRegStepAtKeep(s, env);
    EmitStepDigit(s.nibbleCounter, CurrentRegister(s, env), 16);
  }

  /** mTXREG entered from another state sends register 0, whatever the index
      was left at. */
  lemma TxRegZeroResult(s: TxSnap, env: TxEnv)
    requires EnvValid(env) && env.fnCode == 3 && s.cur == MTxReg && s.nibbleCounter < 4 && s.prev != MTxReg
    ensures Moved(MTxReg, TxRegStep(s.prev, s, env)) == RegDigitStep(s.(regIndex := 0), env)
  {
    TxRegStepAtZero(s.prev, s, env);
    assert CurrentRegister(s.(regIndex := 0), env) == env.registers[env.dataAddress];
    EmitStepDigit(s.nibbleCounter, env.registers[env.dataAddress], 16);
  }

  /** The table-driven step of modbus_update is the step worked out state by
      state, for every state the machine can be in. */
  lemma TxStepFollowsFlow(s: TxSnap, env: TxEnv)
    requires EnvValid(env) && TxInv(s, env)
    ensures TxStep(s, env, true) == Flow(s, env)
  {
    match s.cur
    case MTxStart => TxStartArms(s, env);
    case MColon => if s.timer == 0 { ColonFires(s, env); } else { ColonWaits(s, env); }
    case MChoice => ChoiceFollows(s, env);
    case MFinish => FinishFollows(s, env);
    case MCrLf => if s.prev != MCrLf { CrStep(s, env); } else { LfStep(s, env); }
    case MTxReg =>
      TxStepMoves(s, env);
      DispatchTxReg(s, env);
      if s.prev == MTxReg { TxRegKeepResult(s, env); } else { TxRegZeroResult(s, env); }
    case MLrc =>
      TxStepMoves(s, env);
      DispatchLrc(s, env);
      HexStepDigit(s.(lrc := EntryLrc(s.prev, s.lrc, env)), env);
    case MFnCode => FnCodeDigitStep(s, env);
    case MSlaveId | MExcept | MNumData | MDataAdd | MValue =>
      TxStepMoves(s, env);
      DispatchHex(s, env);
      HexStepDigit(s, env);
  }

  /** In a field-sending state (mLRC once entered) a call sends the next digit. */
  lemma FlowDigit(s: TxSnap, env: TxEnv)
    requires EnvValid(env) && TxInv(s, env) && IsPlainHexState(s.cur)
    requires s.cur == MLrc ==> s.prev == MLrc
    ensures Flow(s, env) == DigitStep(s, env)
  {
    if s.cur == MLrc {
      assert s.(lrc := EntryLrc(s.prev, s.lrc, env)) == s;
    }
  }

  /** The first call in mLRC computes the checksum for the path it came from
      and sends its first digit. */
  lemma LrcEntryFlow(s: TxSnap, env: TxEnv)
    requires EnvValid(env) && TxInv(s, env) && s.cur == MLrc && s.nibbleCounter == 0
    ensures var l := EntryLrc(s.prev, s.lrc, env);
      Flow(s, env) == s.(prev := MLrc, lrc := l, nibbleCounter := 1, sent := s.sent + [Hex2(l)[0]])
  {
  }

  /** The first call of mTXREG sends the first digit of register dataAddress. */
  lemma TxRegEntryFlow(s: TxSnap, env: TxEnv)
    requires EnvValid(env) && TxInv(s, env) && s.cur == MTxReg && s.prev != MTxReg && s.nibbleCounter == 0
    ensures Flow(s, env)
         == s.(prev := MTxReg, regIndex := 0, nibbleCounter := 1,
               sent := s.sent + [Hex4(env.registers[env.dataAddress])[0]])
  {
    assert CurrentRegister(s.(regIndex := 0), env) == env.registers[env.dataAddress];
  }

  /** f takes every state satisfying the invariant one call of modbus_update
      further, the UART being ready. Runs of the machine are reasoned about
      through such an f, so that a step is worked out only where it is named. */
  ghost predicate StepsAs(f: TxSnap -> TxSnap, env: TxEnv)
    requires EnvValid(env)
  {
    forall x {:trigger Flow(x, env)} :: TxInv(x, env) ==> f(x) == Flow(x, env)
  }

  lemma ReadyStepSteps(env: TxEnv)
    requires EnvValid(env)
    ensures StepsAs(ReadyStep(env), env)
  {
    forall x | TxInv(x, env)
      ensures ReadyStep(env)(x) == Flow(x, env)
    {
      TxStepFollowsFlow(x, env);
    }
  }
}
