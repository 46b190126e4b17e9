/** A value-level description of the transmit machine of AsciiModbusSlave.cpp:
    the thirteen ftx_* step functions, one modbus_update step, and lemmas on
    runs of steps (the shape and checksum of the reply frame). The class in
    TxMachine is proved to follow these functions call by call. */
module TxModel {
  import opened ModbusTypes
  import opened HexCodec
  import opened Lrc
  import opened Timer
  import opened TxTable

  /** The TXRX record and the globals it points to (slaveID, functionCode,
      holding_registers), as the transmit machine reads them. */
  datatype TxEnv = TxEnv(messageReadyToSend: uint8, slaveID: uint8, fnCode: uint8, exception: uint8,
                         numBytes: uint8, dataAddress: uint8, numRegisters: uint8,
                         registers: seq<uint16>)

  /** Registers mTXREG sends: numRegisters of them, but always at least one. */
  function Max1(n: uint8): nat {
    if n == 0 then 1 else n
  }

  /** A function code that takes the write path of the reply: neither an
      exception (high bit set) nor function 3. */
  predicate IsWriteFn(fnCode: uint8) {
    !HighBitSet(fnCode) && fnCode != 3
  }

  /** The register file has hr_ARRAY_SIZE cells and the registers the reply
      to this function code reads lie inside it: for function 3 the ones
      mTXREG sends (dataAddress onwards, at least one), on the write path the
      register at dataAddress, on the exception path none. */
  predicate EnvValid(env: TxEnv) {
    && |env.registers| == HrArraySize as int
    && (env.fnCode == 3 ==> env.dataAddress + Max1(env.numRegisters) <= |env.registers|)
    && (IsWriteFn(env.fnCode) ==> env.dataAddress < |env.registers|)
  }

  /** Register i is read while the reply is sent: on the exception path none
      is, for function 3 the Max1(numRegisters) registers from dataAddress
      on, on the write path the one at dataAddress. */
  predicate ReadsRegister(env: TxEnv, i: int) {
    if HighBitSet(env.fnCode) then false
    else if env.fnCode == 3 then env.dataAddress <= i < env.dataAddress + Max1(env.numRegisters)
    else i == env.dataAddress
  }

  /** The window EnvValid asks for is exactly that every register the reply
      reads lies in the array, whatever the function code. */
  lemma EnvValidIsReadsInRange(env: TxEnv)
    ensures EnvValid(env)
        <==> |env.registers| == HrArraySize as int
             && forall i :: ReadsRegister(env, i) ==> 0 <= i < |env.registers|
  {
    if |env.registers| == HrArraySize as int && forall i :: ReadsRegister(env, i) ==> 0 <= i < |env.registers| {
      if env.fnCode == 3 {
        assert ReadsRegister(env, env.dataAddress + Max1(env.numRegisters) - 1);
      } else if IsWriteFn(env.fnCode) {
        assert ReadsRegister(env, env.dataAddress);
      }
    }
  }

  /** The states of the two register-reading paths are entered only for the
      function code of that path: mCHOICE after a code without the high bit,
      mNUMDATA and mTXREG (and mLRC right after mTXREG) for function 3,
      mDATAADD and mVALUE (and mLRC right after mVALUE) for the write path. */
  predicate OnPath(cur: TxStateId, prev: TxStateId, fnCode: uint8) {
    && (cur == MChoice ==> !HighBitSet(fnCode))
    && (cur == MNumData || cur == MTxReg || (cur == MLrc && prev == MTxReg) ==> fnCode == 3)
    && (cur == MDataAdd || cur == MValue || (cur == MLrc && prev == MValue) ==> IsWriteFn(fnCode))
  }

  /** The state of the transmit machine: cur_state and previous_state of
      modbus_update, the static nibble_counter of send_bin_as_ascii_char, the
      static lrc of ftx_mLRC_sendLrc, the static i of ftx_mTXREG_sendRegisters,
      the global modbus_timer and every byte sent so far. */
  datatype TxSnap = TxSnap(cur: TxStateId, prev: TxStateId, nibbleCounter: uint8,
                           lrc: uint8, regIndex: uint8, timer: uint8, sent: seq<uint8>)

  /** What a step function returns, and the state it leaves. */
  datatype StepResult = StepResult(rc: Outcome, after: TxSnap)

  /** The nibble counter stays below this in state st: two hex digits for the
      8-bit fields, four for the 16-bit ones, none for the other states. */
  function NibbleBound(st: TxStateId): nat {
    match st
    case MSlaveId | MFnCode | MExcept | MNumData | MLrc => 2
    case MTxReg | MDataAdd | MValue => 4
    case _ => 1
  }

  /** The invariant of the transmit machine: it is never in mNULL, the nibble
      counter never runs past the value being sent, while mTXREG continues
      its register index names a register still to send, and a payload state
      is only reached on its function code's path. */
  predicate TxInv(s: TxSnap, env: TxEnv) {
    && s.cur != MNull && s.prev != MNull
    && s.nibbleCounter < NibbleBound(s.cur)
    && (s.cur == MTxReg && s.prev == MTxReg ==> s.regIndex < Max1(env.numRegisters))
    && OnPath(s.cur, s.prev, env.fnCode)
  }

  /** fnCode & 0b10000000: the function code marks an exception reply. */
  predicate HighBitSet(b: uint8) {
    b >= 0x80
  }

  /** The comparison is the mask test of the code. */
  lemma HighBitIsMask(b: uint8)
    ensures HighBitSet(b) <==> (b as bv8) & 0x80 != 0
  {
  }

  /** One call of send_bin_as_ascii_char from inside a step. */
  datatype Sent = Sent(done: bool, after: TxSnap)

  function SendHex(s: TxSnap, data: uint16, numBits: uint8): (r: Sent)
    requires numBits == 8 || numBits == 16
    requires s.nibbleCounter < numBits / 4
    ensures r.done <==> s.nibbleCounter == numBits / 4 - 1
  {
    var e := EmitStep(s.nibbleCounter, data, numBits);
    Sent(e.done == 1, s.(nibbleCounter := e.counter, sent := s.sent + [e.ch]))
  }

  /** A step that sends a value as hex digits: forward once the last digit is sent. */
  function HexStep(s: TxSnap, data: uint16, numBits: uint8): (r: StepResult)
    requires numBits == 8 || numBits == 16
    requires s.nibbleCounter < numBits / 4
    ensures r.rc != RBranch
  {
    var out := SendHex(s, data, numBits);
    StepResult(if out.done then RForward else RRepeat, out.after)
  }

  /** ftx_mTXSTART_beginDelayTimer: arm the inter-frame delay; only forwards. */
  function TxStartStep(prev: TxStateId, s: TxSnap, env: TxEnv): (r: StepResult)
    ensures r.rc == RForward
    ensures r.after.timer == ModbusDelay && r.after.sent == s.sent
  {
    StepResult(RForward, s.(timer := ModbusDelay))
  }

  /** ftx_mCOLON_sendColon: send ':' once the delay has run out. */
  function ColonStep(prev: TxStateId, s: TxSnap, env: TxEnv): (r: StepResult)
    ensures r.rc != RBranch
    ensures r.rc == RForward <==> s.timer == 0
    ensures r.after.sent == if s.timer == 0 then s.sent + [Colon] else s.sent
  {
    if TimerExpired(s.timer) == 0 then StepResult(RRepeat, s)
    else StepResult(RForward, s.(sent := s.sent + [Colon]))
  }

  /** ftx_mSLAVEID_sendAddress */
  function SlaveIdStep(prev: TxStateId, s: TxSnap, env: TxEnv): (r: StepResult)
    requires s.nibbleCounter < 2
    ensures r.rc != RBranch
  {
    HexStep(s, env.slaveID, 8)
  }

  /** ftx_mFNCODE_sendFnCode: after the last digit, branch to the exception
      path when the function code has its high bit set. */
  function FnCodeStep(prev: TxStateId, s: TxSnap, env: TxEnv): (r: StepResult)
    requires s.nibbleCounter < 2
    ensures r.rc == RBranch ==> HighBitSet(env.fnCode)
    ensures r.rc == RForward ==> !HighBitSet(env.fnCode)
    ensures r.rc == RRepeat <==> s.nibbleCounter == 0
  {
    var out := SendHex(s, env.fnCode, 8);
    if out.done then StepResult(if HighBitSet(env.fnCode) then RBranch else RForward, out.after)
    else StepResult(RRepeat, out.after)
  }

  /** ftx_mCHOICE_fn3OrFn6: forward for function 3, branch for anything else. */
  function Fn3OrFn6(env: TxEnv): (rc: Outcome)
    ensures rc != RRepeat
    ensures rc == RForward <==> env.fnCode == 3
  {
    if env.fnCode == 3 then RForward else RBranch
  }

  /** ftx_mEXCEPT_sendException */
  function ExceptStep(prev: TxStateId, s: TxSnap, env: TxEnv): (r: StepResult)
    requires s.nibbleCounter < 2
    ensures r.rc != RBranch
  {
    HexStep(s, env.exception, 8)
  }

  /** The checksum ftx_mLRC_sendLrc holds after a call made with the given
      previous state: computed afresh on entry from one of the three payload
      states, over the header bytes that path sent, and kept otherwise. */
  function EntryLrc(prev: TxStateId, kept: uint8, env: TxEnv): uint8
    requires EnvValid(env) && OnPath(MLrc, prev, env.fnCode)
  {
    if prev == MExcept then
      LrcOf(env.slaveID, env.fnCode, env.exception, 0, env.registers[0..0])
    else if prev == MTxReg then
      LrcOf(env.slaveID, env.fnCode, env.numBytes, 0,
            env.registers[env.dataAddress..env.dataAddress + env.numRegisters])
    else if prev == MValue then
      LrcOf(env.slaveID, env.fnCode, env.dataAddress, 0,
            env.registers[env.dataAddress..env.dataAddress + 1])
    else kept
  }

  /** ftx_mLRC_sendLrc */
  function LrcStep(prev: TxStateId, s: TxSnap, env: TxEnv): (r: StepResult)
    requires EnvValid(env) && OnPath(MLrc, prev, env.fnCode) && s.nibbleCounter < 2
    ensures r.rc != RBranch
    ensures r.after.lrc == EntryLrc(prev, s.lrc, env)
    ensures prev == MLrc ==> r.after.lrc == s.lrc
  {
    var lrc := EntryLrc(prev, s.lrc, env);
    HexStep(s.(lrc := lrc), lrc, 8)
  }

  /** ftx_mFINISH_waitUntilNewMsg */
  function FinishStep(prev: TxStateId, s: TxSnap, env: TxEnv): (r: StepResult)
    ensures r.rc != RBranch && r.after == s
    ensures r.rc == RForward <==> env.messageReadyToSend == 1
  {
    if env.messageReadyToSend == 1 then StepResult(RForward, s) else StepResult(RRepeat, s)
  }

  /** ftx_mNUMDATA_txNumBytes */
  function NumDataStep(prev: TxStateId, s: TxSnap, env: TxEnv): (r: StepResult)
    requires s.nibbleCounter < 2
    ensures r.rc != RBranch
  {
    HexStep(s, env.numBytes, 8)
  }

  /** ftx_mTXREG_sendRegisters: the register index restarts at 0 unless the
      previous step was in this state too. */
  function TxRegStep(prev: TxStateId, s: TxSnap, env: TxEnv): (r: StepResult)
    requires EnvValid(env) && env.fnCode == 3 && s.nibbleCounter < 4
    requires prev == MTxReg ==> s.regIndex < Max1(env.numRegisters)
    ensures r.rc != RBranch
    ensures r.rc == RRepeat ==> r.after.regIndex < Max1(env.numRegisters)
  {
    TxRegAt(s.(regIndex := if prev != MTxReg then 0 else s.regIndex), env)
  }

  /** The rest of ftx_mTXREG_sendRegisters: the next digit of register
      regIndex, read at the uint8 sum of dataAddress and the index; after its
      last digit the index moves on, and the state is left once it reaches
      numRegisters, so at least one register is always sent. */
  function TxRegAt(s: TxSnap, env: TxEnv): (r: StepResult)
    requires EnvValid(env) && env.fnCode == 3 && s.nibbleCounter < 4 && s.regIndex < Max1(env.numRegisters)
    ensures r.rc != RBranch
    ensures r.rc == RRepeat ==> r.after.regIndex < Max1(env.numRegisters)
    ensures r.rc == RForward ==> r.after.regIndex as int == Max1(env.numRegisters)
  {
    var address := (env.dataAddress + s.regIndex) % 256;
    var out := SendHex(s, env.registers[address], 16);
    if out.done then
      var next := (s.regIndex + 1) % 256;
      StepResult(if next >= env.numRegisters then RForward else RRepeat, out.after.(regIndex := next))
    else StepResult(RRepeat, out.after)
  }

  /** ftx_mDATAADD_txDataAddress */
  function DataAddStep(prev: TxStateId, s: TxSnap, env: TxEnv): (r: StepResult)
    requires s.nibbleCounter < 4
    ensures r.rc != RBranch
  {
    HexStep(s, env.dataAddress, 16)
  }

  /** ftx_mVALUE_txDataValue */
  function ValueStep(prev: TxStateId, s: TxSnap, env: TxEnv): (r: StepResult)
    requires EnvValid(env) && IsWriteFn(env.fnCode) && s.nibbleCounter < 4
    ensures r.rc != RBranch
  {
    HexStep(s, env.registers[env.dataAddress], 16)
  }

  /** ftx_mCRLF_sendCrLf: CR on entry, LF on the call after. */
  function CrLfStep(prev: TxStateId, s: TxSnap, env: TxEnv): (r: StepResult)
    ensures r.rc != RBranch
    ensures r.rc == RRepeat <==> prev != MCrLf
    ensures r.after.sent == s.sent + [if prev != MCrLf then CarriageReturn else LineFeed]
  {
    if prev != MCrLf then StepResult(RRepeat, s.(sent := s.sent + [CarriageReturn]))
    else StepResult(RForward, s.(sent := s.sent + [LineFeed]))
  }

  /** state_fns_array[cur_state](previous_state, &txrx) */
  function Dispatch(s: TxSnap, env: TxEnv): (r: StepResult)
    requires EnvValid(env) && TxInv(s, env)
    ensures r.after.cur == s.cur && r.after.prev == s.prev
    ensures !IsNullEntry(s.cur, r.rc)
    ensures r.rc != RRepeat ==> r.after.nibbleCounter == 0
    ensures r.after.nibbleCounter < NibbleBound(s.cur)
    ensures r.rc == RRepeat && s.cur == MTxReg ==> r.after.regIndex < Max1(env.numRegisters)
    ensures r.after.sent == s.sent || (|r.after.sent| == |s.sent| + 1 && r.after.sent[..|s.sent|] == s.sent)
  {
    match s.cur
    case MTxStart => TxStartStep(s.prev, s, env)
    case MColon => ColonStep(s.prev, s, env)
    case MSlaveId => SlaveIdStep(s.prev, s, env)
    case MFnCode => FnCodeStep(s.prev, s, env)
    case MChoice => StepResult(Fn3OrFn6(env), s)
    case MExcept => ExceptStep(s.prev, s, env)
    case MLrc => LrcStep(s.prev, s, env)
    case MFinish => FinishStep(s.prev, s, env)
    case MNumData => NumDataStep(s.prev, s, env)
    case MTxReg => TxRegStep(s.prev, s, env)
    case MDataAdd => DataAddStep(s.prev, s, env)
    case MValue => ValueStep(s.prev, s, env)
    case MCrLf => CrLfStep(s.prev, s, env)
  }

  /** One call of modbus_update. Nothing happens unless the UART can take a
      byte; otherwise the current state's step runs, previous_state becomes
      the state just run and cur_state follows the table. The machine stays
      out of mNULL and sends at most one byte. */
  function TxStep(s: TxSnap, env: TxEnv, uartReadyToSend: bool): (r: TxSnap)
    requires EnvValid(env) && TxInv(s, env)
    ensures TxInv(r, env)
    ensures !uartReadyToSend ==> r == s
    ensures uartReadyToSend ==> r.prev == s.cur
    ensures r.sent == s.sent || (|r.sent| == |s.sent| + 1 && r.sent[..|s.sent|] == s.sent)
  {
    if !uartReadyToSend then s
    else
      var out := Dispatch(s, env);
      NullEntries(s.cur, out.rc);
      RepeatStays(s.cur);
      out.after.(prev := s.cur, cur := Successor(s.cur, out.rc))
  }

  /** The timer interrupt in between two calls of modbus_update: modbus_timer
      counts down and stops at zero. */
  function Tick(s: TxSnap): (r: TxSnap)
    ensures r.timer == Decrement(s.timer)
    ensures r.(timer := s.timer) == s
  {
    s.(timer := Decrement(s.timer))
  }

  /** modbus_update with the UART ready, taken as the identity outside the
      invariant so that it can be iterated as a total function. */
  function ReadyStep(env: TxEnv): TxSnap -> TxSnap {
    s => if EnvValid(env) && TxInv(s, env) then TxStep(s, env, true) else s
  }

  /** n applications of f. */
  function Iterate(f: TxSnap -> TxSnap, s: TxSnap, n: nat): TxSnap
    decreases n
  {
    if n == 0 then s else Iterate(f, f(s), n - 1)
  }

  /** a + b applications are a applications followed by b more. */
  lemma {:induction false} IterateAdd(f: TxSnap -> TxSnap, s: TxSnap, a: nat, b: nat)
    ensures Iterate(f, s, a + b) == Iterate(f, Iterate(f, s, a), b)
    decreases a
  {
    if a > 0 {
      IterateAdd(f, f(s), a - 1, b);
    }
  }

  lemma IterateOnce(f: TxSnap -> TxSnap, s: TxSnap, n: nat)
    requires n > 0
    ensures Iterate(f, s, n) == Iterate(f, f(s), n - 1)
  {
  }

  /** A step that keeps the invariant keeps it along any number of steps. */
  lemma {:induction false} IterateKeepsInv(f: TxSnap -> TxSnap, env: TxEnv, s: TxSnap, n: nat)
    requires TxInv(s, env)
    requires forall x :: TxInv(x, env) ==> TxInv(f(x), env)
    ensures TxInv(Iterate(f, s, n), env)
    decreases n
  {
    if n > 0 {
      IterateOnce(f, s, n);
      IterateKeepsInv(f, env, f(s), n - 1);
    }
  }

  lemma ReadyStepKeepsInv(env: TxEnv)
    ensures forall x :: TxInv(x, env) ==> TxInv(ReadyStep(env)(x), env)
  {
  }

  /** n calls of modbus_update with the UART ready each time. */
  function Run(s: TxSnap, env: TxEnv, n: nat): (r: TxSnap)
    requires EnvValid(env) && TxInv(s, env)
    ensures TxInv(r, env)
  {
    ReadyStepKeepsInv(env);
    IterateKeepsInv(ReadyStep(env), env, s, n);
    Iterate(ReadyStep(env), s, n)
  }
}
