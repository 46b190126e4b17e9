/** A value-level description of modbus_receive_statemachine
    (AsciiModbusSlave.cpp:169-305): one call per received byte, and lemmas on
    what runs of calls do. The class in RxMachine is proved to follow
    RxStep call by call. The parser is described as written: the high digit
    of every field is lost, the checksum is never compared, a completed frame
    is not acted on, and the terminator states are never reached. */
module RxParser {
  import opened ModbusTypes
  import opened HexCodec

  /** enum MODBUSST. The first seven double as indices into rxFrame. */
  datatype RxStateId =
    | SSlaveAddress | SCommand | SRegAddress1 | SRegNumOrAddress2 | SValue1 | SValue2 | SLrc
    | SCr | SLf | SException | SColon
  {
    function Ord(): nat {
      match this
      case SSlaveAddress => 0
      case SCommand => 1
      case SRegAddress1 => 2
      case SRegNumOrAddress2 => 3
      case SValue1 => 4
      case SValue2 => 5
      case SLrc => 6
      case SCr => 7
      case SLf => 8
      case SException => 9
      case SColon => 10
    }

    /** The states that read a field as a pair of hex digits. */
    predicate IsField() {
      Ord() < NumberOfBytesInRxFrame
    }
  }

  /** NUMBER_OF_BYTES_IN_RX_FRAME: address, command, address high and low,
      value high and low, checksum. */
  const NumberOfBytesInRxFrame: nat := 7

  /** The parser's state: modbus_rx_state, the static get_hi, hi_nibble and
      lo_nibble, the rxFrame array and the codes passed to exceptionResponse,
      oldest first. */
  datatype RxSnap = RxSnap(state: RxStateId, getHi: uint8, hiNibble: uint8, loNibble: uint8,
                           frame: seq<uint8>, exceptions: seq<uint8>)

  predicate RxShape(s: RxSnap) {
    |s.frame| == NumberOfBytesInRxFrame
  }

  /** (uint8)((hi_nibble << 8) | lo_nibble): the field a digit pair is
      stored as. The operands are promoted to int, so the shift is a
      multiplication by 256, and the low byte it is or-ed with has no bit in
      common with it, so the or is a sum; the store into the uint8 array
      keeps the sum modulo 256. */
  function Combine(hi: uint8, lo: uint8): uint8 {
    (hi * 256 + lo) % 256
  }

  /** The shift moves the high digit out of the byte that is kept, so a field
      is always just its second digit. */
  lemma CombineKeepsLow(hi: uint8, lo: uint8)
    ensures Combine(hi, lo) == lo
  {
    assert hi * 256 + lo == 256 * hi + lo;
  }

  /** modbus_rx_state++ from sVALUE1 and sVALUE2. */
  function NextField(st: RxStateId): RxStateId {
    if st == SValue1 then SValue2 else SLrc
  }

  /** The second digit of a pair has arrived in field state s.state: the
      field is stored and checked. A frame for another slave is dropped; a
      function other than 3 or 6 raises ILLEGAL_FN; a nonzero first address
      byte or a second one past the register map raises
      ILLEGAL_DATA_ADDRESS; the value bytes move on; after the checksum the
      parser waits for the next frame, the comparison being left out. */
  function FieldDone(s: RxSnap, slaveID: uint8): (r: RxSnap)
    requires RxShape(s) && s.state.IsField()
    ensures RxShape(r) && r.frame == s.frame[s.state.Ord() := s.loNibble]
    ensures r.state != SCr && r.state != SLf && r.state != SException
    ensures r.exceptions == s.exceptions
         || (r.exceptions == s.exceptions + [IllegalFunction] && s.state == SCommand && r.state == SColon)
         || (r.exceptions == s.exceptions + [IllegalDataAddress] && r.state == SColon
             && (s.state == SRegAddress1 || s.state == SRegNumOrAddress2))
  {
    CombineKeepsLow(s.hiNibble, s.loNibble);
    var v := Combine(s.hiNibble, s.loNibble);
    var t := s.(frame := s.frame[s.state.Ord() := v]);
    match s.state
    case SSlaveAddress => t.(state := if v != slaveID then SColon else SCommand)
    case SCommand =>
      if v == 3 || v == 6 then t.(state := SRegAddress1)
      else t.(exceptions := t.exceptions + [IllegalFunction], state := SColon)
    case SRegAddress1 =>
      if v != 0 then t.(exceptions := t.exceptions + [IllegalDataAddress], state := SColon)
      else t.(state := SRegNumOrAddress2)
    case SRegNumOrAddress2 =>
      if v >= HrArraySize then t.(exceptions := t.exceptions + [IllegalDataAddress], state := SColon)
      else t.(state := SValue1)
    case SValue1 | SValue2 => t.(state := NextField(s.state))
    case SLrc => t.(state := SColon)
  }

  /** One call of modbus_receive_statemachine(dataIn). */
  function RxStep(s: RxSnap, slaveID: uint8, dataIn: uint8): (r: RxSnap)
    requires RxShape(s)
    ensures RxShape(r)
    ensures dataIn == Colon ==> r == s.(state := SSlaveAddress, getHi := 1)
    ensures dataIn == Tab || dataIn == Space ==> r == s
  {
    var s := if dataIn == Colon then s.(state := SColon) else s;
    if dataIn == Tab || dataIn == Space then s
    else match s.state
      case SColon => if dataIn == Colon then s.(state := SSlaveAddress, getHi := 1) else s
      case SSlaveAddress | SCommand | SRegAddress1 | SRegNumOrAddress2 | SValue1 | SValue2 | SLrc =>
        if s.getHi != 0 then s.(getHi := 0, hiNibble := AsciiToUint8(dataIn))
        else FieldDone(s.(getHi := 1, loNibble := AsciiToUint8(dataIn)), slaveID)
      case SCr =>
        if dataIn == CarriageReturn then s.(state := SLf)
        else s.(state := SColon, exceptions := s.exceptions + [IllegalDataValue])
      case SLf =>
        if dataIn == LineFeed then s.(state := SColon)
        else s.(state := SColon, exceptions := s.exceptions + [IllegalDataValue])
      case SException => s
  }

  /** The calls for a run of received bytes, in order. */
  function RxRun(s: RxSnap, slaveID: uint8, bytes: seq<uint8>): (r: RxSnap)
    requires RxShape(s)
    ensures RxShape(r)
    decreases |bytes|
  {
    if bytes == [] then s else RxRun(RxStep(s, slaveID, bytes[0]), slaveID, bytes[1..])
  }

  /** modbus_rx_state = sCOLON and the static initialisers; rxFrame starts
      zeroed. */
  const InitialRx: RxSnap := RxSnap(SColon, 1, 0, 0, [0, 0, 0, 0, 0, 0, 0], [])

  // ---- single calls ----

  /** In a field state, the first digit of a pair is only remembered. */
  lemma FirstDigitRemembered(s: RxSnap, slaveID: uint8, dataIn: uint8)
    requires RxShape(s) && s.state.IsField() && s.getHi != 0
    requires dataIn != Colon && dataIn != Tab && dataIn != Space
    ensures RxStep(s, slaveID, dataIn) == s.(getHi := 0, hiNibble := AsciiToUint8(dataIn))
  {
  }

  /** A byte that is neither ':' nor whitespace. */
  predicate Ordinary(b: uint8) {
    b != Colon && b != Tab && b != Space
  }

  /** The second digit of a pair stores its own value as the whole field,
      whatever the first digit was. */
  lemma SecondDigitStored(s: RxSnap, slaveID: uint8, dataIn: uint8)
    requires RxShape(s) && s.state.IsField() && s.getHi == 0 && Ordinary(dataIn)
    ensures var r := RxStep(s, slaveID, dataIn);
      r.getHi == 1 && r.frame == s.frame[s.state.Ord() := AsciiToUint8(dataIn)]
  {
    CombineKeepsLow(s.hiNibble, AsciiToUint8(dataIn));
  }

  // ---- the states a run can reach ----

  /** The states the parser can be in: the terminator states sCR and sLF are
      never entered, since the checksum pair always leads back to sCOLON, and
      sEXCEPTION is never assigned. Only ILLEGAL_FN and ILLEGAL_DATA_ADDRESS
      are ever raised. */
  predicate Reachable(s: RxSnap) {
    && RxShape(s)
    && s.state != SCr && s.state != SLf && s.state != SException
    && (forall i :: 0 <= i < |s.exceptions| ==> s.exceptions[i] == IllegalFunction || s.exceptions[i] == IllegalDataAddress)
  }

  lemma InitialReachable()
    ensures Reachable(InitialRx)
  {
  }

  /** One call keeps the parser among the reachable states, adding at most
      one exception. */
  lemma StepKeepsReachable(s: RxSnap, slaveID: uint8, dataIn: uint8)
    requires Reachable(s)
    ensures Reachable(RxStep(s, slaveID, dataIn))
    ensures var r := RxStep(s, slaveID, dataIn);
      r.exceptions == s.exceptions || (|r.exceptions| == |s.exceptions| + 1 && r.exceptions[..|s.exceptions|] == s.exceptions)
  {
    var s1 := if dataIn == Colon then s.(state := SColon) else s;
    if !(dataIn == Tab || dataIn == Space) && s1.state.IsField() && s1.getHi == 0 {
      var t := s1.(getHi := 1, loNibble := AsciiToUint8(dataIn));
      assert RxStep(s, slaveID, dataIn) == FieldDone(t, slaveID);
    }
  }

  /** Whatever bytes arrive, the parser never reaches sCR or sLF, and
      ILLEGAL_DATA_VALUE is never raised: the terminator checks of the code
      are dead. */
  lemma {:induction false} RunStaysReachable(s: RxSnap, slaveID: uint8, bytes: seq<uint8>)
    requires Reachable(s)
    ensures Reachable(RxRun(s, slaveID, bytes))
    decreases |bytes|
  {
    if bytes != [] {
      StepKeepsReachable(s, slaveID, bytes[0]);
      RunStaysReachable(RxStep(s, slaveID, bytes[0]), slaveID, bytes[1..]);
    }
  }

  /** From power-up, no byte string makes the parser raise ILLEGAL_DATA_VALUE
      or wait for CR or LF. */
  lemma NoTerminatorFromReset(slaveID: uint8, bytes: seq<uint8>)
    ensures var r := RxRun(InitialRx, slaveID, bytes);
      r.state != SCr && r.state != SLf && IllegalDataValue !in r.exceptions
  {
    InitialReachable();
    RunStaysReachable(InitialRx, slaveID, bytes);
  }

  // ---- whole frames ----

  lemma {:induction false} RxRunAppend(s: RxSnap, slaveID: uint8, a: seq<uint8>, b: seq<uint8>)
    requires RxShape(s)
    ensures RxRun(s, slaveID, a + b) == RxRun(RxRun(s, slaveID, a), slaveID, b)
    decreases |a|
  {
    if a != [] {
      assert (a + b)[0] == a[0] && (a + b)[1..] == a[1..] + b;
      RxRunAppend(RxStep(s, slaveID, a[0]), slaveID, a[1..], b);
    } else {
      assert a + b == b;
    }
  }

  /** A pair of ordinary bytes in a field state: the field is the value of
      the second one, and the field is checked. */
  lemma PairDone(s: RxSnap, slaveID: uint8, hi: uint8, lo: uint8)
    requires RxShape(s) && s.state.IsField() && s.getHi != 0 && Ordinary(hi) && Ordinary(lo)
    ensures RxRun(s, slaveID, [hi, lo])
         == FieldDone(s.(getHi := 1, hiNibble := AsciiToUint8(hi), loNibble := AsciiToUint8(lo)), slaveID)
  {
    var s1 := RxStep(s, slaveID, hi);
    assert s1 == s.(getHi := 0, hiNibble := AsciiToUint8(hi));
    assert [hi, lo][1..] == [lo];
    assert RxRun(s1, slaveID, [lo]) == RxStep(s1, slaveID, lo);
  }

  /** What the parser makes of the seven fields of a frame, stated on the
      field values alone (the second digit of each pair): the frame is not
      for this slave, or it raises an exception, or it runs to the end. */
  datatype Verdict = NotForUs | Raised(code: uint8) | Complete

  /** Fields 0..k-1 of a frame are read: the fields after the one that ended
      the frame are left as they were. */
  function Verdict7(v: seq<uint8>, slaveID: uint8): (r: (Verdict, nat))
    requires |v| == 7
    ensures 1 <= r.1 <= 7
  {
    if v[0] != slaveID then (NotForUs, 1)
    else if !(v[1] == 3 || v[1] == 6) then (Raised(IllegalFunction), 2)
    else if v[2] != 0 then (Raised(IllegalDataAddress), 3)
    else if v[3] >= HrArraySize then (Raised(IllegalDataAddress), 4)
    else (Complete, 7)
  }

  /** The low digits of the seven pairs of a frame body. */
  function LowDigits(body: seq<uint8>): (v: seq<uint8>)
    requires |body| == 14
    ensures |v| == 7
  {
    seq(7, k requires 0 <= k < 7 => AsciiToUint8(body[2 * k + 1]))
  }

  /** The state that reads field k, k < 7. */
  function FieldState(k: nat): (st: RxStateId)
    requires k < NumberOfBytesInRxFrame
    ensures st.IsField() && st.Ord() == k
  {
    [SSlaveAddress, SCommand, SRegAddress1, SRegNumOrAddress2, SValue1, SValue2, SLrc][k]
  }

  /** The state the parser is in after the pairs of fields 0..k-1 when the
      frame has not yet ended. */
  function Mid(s: RxSnap, body: seq<uint8>, k: nat): RxSnap
    requires RxShape(s) && |body| == 14 && 1 <= k < 7
  {
    var v := LowDigits(body);
    s.(state := FieldState(k), getHi := 1, hiNibble := AsciiToUint8(body[2 * k - 2]), loNibble := v[k - 1],
       frame := v[..k] + s.frame[k..])
  }

  /** A request frame ':' followed by fourteen ordinary bytes (seven digit
      pairs): whatever state the parser was in, it ends in sCOLON; the fields
      read up to the one that decided the frame hold the second digit of
      their pair and the rest of rxFrame is untouched; an exception is added
      exactly when Verdict7 raises one. Nothing marks the frame as received,
      and the checksum pair never matters. */
  lemma {:induction false} FrameParsed(s: RxSnap, slaveID: uint8, body: seq<uint8>)
    requires RxShape(s) && |body| == 14
    requires forall i :: 0 <= i < 14 ==> Ordinary(body[i])
    ensures var r := RxRun(s, slaveID, [Colon] + body);
      var v := LowDigits(body);
      var (verdict, k) := Verdict7(v, slaveID);
      && r.state == SColon
      && r.frame == v[..k] + s.frame[k..]
      && r.exceptions == s.exceptions + (if verdict.Raised? then [verdict.code] else [])
  {
    var v := LowDigits(body);
    var s0 := RxStep(s, slaveID, Colon);
    RxRunAppend(s, slaveID, [Colon], body);
    assert RxRun(s, slaveID, [Colon]) == s0 by {
      assert [Colon][1..] == [];
    }
    FieldsParsed(s0, slaveID, body, 0);
  }

  /** The state before the pair of field k. */
  function Before(s0: RxSnap, body: seq<uint8>, k: nat): RxSnap
    requires RxShape(s0) && |body| == 14 && k < 7
  {
    if k == 0 then s0 else Mid(s0, body, k)
  }

  /** The outcome of the pair of field k: the field holds its low digit, and
      either the frame ends here as Verdict7 says or field k + 1 is next. */
  lemma FieldOutcome(s0: RxSnap, slaveID: uint8, body: seq<uint8>, k: nat)
    requires RxShape(s0) && s0.state == SSlaveAddress && |body| == 14 && k < 7
    requires var (_, end) := Verdict7(LowDigits(body), slaveID); k < end
    ensures var v := LowDigits(body);
      var (verdict, end) := Verdict7(v, slaveID);
      var sk1 := AfterPair(s0, slaveID, body, k);
      && sk1.frame == v[..k + 1] + s0.frame[k + 1..]
      && (k + 1 == end ==> sk1.state == SColon && sk1.exceptions == s0.exceptions + (if verdict.Raised? then [verdict.code] else []))
      && (k + 1 < end ==> sk1 == Mid(s0, body, k + 1))
  {
    var v := LowDigits(body);
    var t := PairRead(s0, body, k);
    PairEntry(s0, body, k);
    FieldChecked(t, slaveID, v, k);
  }

  /** The state just before the second digit of field k is checked. */
  function PairRead(s0: RxSnap, body: seq<uint8>, k: nat): (t: RxSnap)
    requires RxShape(s0) && |body| == 14 && k < 7
    ensures RxShape(t)
  {
    Before(s0, body, k).(getHi := 1, hiNibble := AsciiToUint8(body[2 * k]), loNibble := AsciiToUint8(body[2 * k + 1]))
  }

  /** Field k is read in its own state, its low digit is the k-th of the
      body's, and the fields before it already hold theirs. */
  lemma PairEntry(s0: RxSnap, body: seq<uint8>, k: nat)
    requires RxShape(s0) && s0.state == SSlaveAddress && |body| == 14 && k < 7
    ensures var t := PairRead(s0, body, k);
      var v := LowDigits(body);
      && t.state == FieldState(k) && t.loNibble == v[k] && t.exceptions == s0.exceptions
      && t.frame[k := v[k]] == v[..k + 1] + s0.frame[k + 1..]
      && (k + 1 < 7 ==> t.(state := FieldState(k + 1), frame := t.frame[k := v[k]]) == Mid(s0, body, k + 1))
  {
    var v := LowDigits(body);
    var t := PairRead(s0, body, k);
    assert t.frame == v[..k] + s0.frame[k..];
    assert t.frame[k := v[k]] == v[..k + 1] + s0.frame[k + 1..];
  }

  /** The check of field k on its low digit x = v[k], the fields before it
      having passed theirs: the frame ends as Verdict7 says, or the next
      field's state is entered and nothing else but the field changes. */
  lemma FieldChecked(t: RxSnap, slaveID: uint8, v: seq<uint8>, k: nat)
    requires RxShape(t) && |v| == 7 && k < Verdict7(v, slaveID).1
    requires t.state == FieldState(k) && t.loNibble == v[k]
    ensures var (verdict, end) := Verdict7(v, slaveID);
      var r := FieldDone(t, slaveID);
      && r.frame == t.frame[k := v[k]]
      && (k + 1 == end ==> r.state == SColon && r.exceptions == t.exceptions + (if verdict.Raised? then [verdict.code] else []))
      && (k + 1 < end ==> r == t.(state := FieldState(k + 1), frame := t.frame[k := v[k]]))
  {
    CombineKeepsLow(t.hiNibble, t.loNibble);
    var t1 := t.(frame := t.frame[k := v[k]]);
    var r := FieldDone(t, slaveID);
    if k == 0 {
      assert r == t1.(state := if v[0] != slaveID then SColon else SCommand);
    } else if k == 1 {
      assert r == if v[1] == 3 || v[1] == 6 then t1.(state := SRegAddress1)
        else t1.(exceptions := t1.exceptions + [IllegalFunction], state := SColon);
    } else if k == 2 {
      assert r == if v[2] != 0 then t1.(exceptions := t1.exceptions + [IllegalDataAddress], state := SColon)
        else t1.(state := SRegNumOrAddress2);
    } else if k == 3 {
      assert r == if v[3] >= HrArraySize then t1.(exceptions := t1.exceptions + [IllegalDataAddress], state := SColon)
        else t1.(state := SValue1);
    } else if k == 6 {
      assert r == t1.(state := SColon);
    } else {
      assert r == t1.(state := FieldState(k + 1));
    }
  }

  /** The pairs from field k on, the first k having been read and passed. */
  lemma {:induction false} FieldsParsed(s0: RxSnap, slaveID: uint8, body: seq<uint8>, k: nat)
    requires RxShape(s0) && s0.state == SSlaveAddress && s0.getHi == 1 && |body| == 14 && k < 7
    requires forall i :: 0 <= i < 14 ==> Ordinary(body[i])
    requires var (_, end) := Verdict7(LowDigits(body), slaveID); k < end
    ensures var v := LowDigits(body);
      var (verdict, end) := Verdict7(v, slaveID);
      var r := RxRun(Before(s0, body, k), slaveID, body[2 * k..]);
      && r.state == SColon
      && r.frame == v[..end] + s0.frame[end..]
      && r.exceptions == s0.exceptions + (if verdict.Raised? then [verdict.code] else [])
    decreases 7 - k
  {
    var (verdict, end) := Verdict7(LowDigits(body), slaveID);
    var sk1 := AfterPair(s0, slaveID, body, k);
    PairThenRest(s0, slaveID, body, k);
    FieldOutcome(s0, slaveID, body, k);
    if k + 1 == end {
      FieldsEnd(s0, slaveID, body, k, sk1);
    } else {
      FieldsParsed(s0, slaveID, body, k + 1);
      assert body[2 * (k + 1)..] == body[2 * k + 2..];
    }
  }

  /** The state after the pair of field k. */
  function AfterPair(s0: RxSnap, slaveID: uint8, body: seq<uint8>, k: nat): RxSnap
    requires RxShape(s0) && s0.state == SSlaveAddress && |body| == 14 && k < 7
  {
    FieldDone(PairRead(s0, body, k), slaveID)
  }

  /** The pair of field k is read as one field. */
  lemma PairThenRest(s0: RxSnap, slaveID: uint8, body: seq<uint8>, k: nat)
    requires RxShape(s0) && s0.state == SSlaveAddress && s0.getHi == 1 && |body| == 14 && k < 7
    requires forall i :: 0 <= i < 14 ==> Ordinary(body[i])
    ensures RxRun(Before(s0, body, k), slaveID, body[2 * k..])
         == RxRun(AfterPair(s0, slaveID, body, k), slaveID, body[2 * k + 2..])
  {
    var sk := Before(s0, body, k);
    var hi, lo := body[2 * k], body[2 * k + 1];
    assert body[2 * k..] == [hi, lo] + body[2 * k + 2..];
    RxRunAppend(sk, slaveID, [hi, lo], body[2 * k + 2..]);
    PairDone(sk, slaveID, hi, lo);
  }

  /** The pair that ends the frame leaves the parser in sCOLON; any pairs
      after it are ordinary bytes that sCOLON ignores. */
  lemma FieldsEnd(s0: RxSnap, slaveID: uint8, body: seq<uint8>, k: nat, sk1: RxSnap)
    requires RxShape(s0) && |body| == 14 && k < 7
    requires forall i :: 0 <= i < 14 ==> Ordinary(body[i])
    requires var (_, end) := Verdict7(LowDigits(body), slaveID); k + 1 == end
    requires RxShape(sk1) && sk1.frame == LowDigits(body)[..k + 1] + s0.frame[k + 1..]
    requires var (verdict, _) := Verdict7(LowDigits(body), slaveID);
      sk1.state == SColon && sk1.exceptions == s0.exceptions + (if verdict.Raised? then [verdict.code] else [])
    ensures var v := LowDigits(body);
      var (verdict, end) := Verdict7(v, slaveID);
      var r := RxRun(sk1, slaveID, body[2 * k + 2..]);
      && r.state == SColon
      && r.frame == v[..end] + s0.frame[end..]
      && r.exceptions == s0.exceptions + (if verdict.Raised? then [verdict.code] else [])
  {
    assert Colon !in body[2 * k + 2..] by {
      forall i | 2 * k + 2 <= i < 14 ensures body[i] != Colon {
        assert Ordinary(body[i]);
      }
    }
    IdleIgnores(sk1, slaveID, body[2 * k + 2..]);
  }

  /** In sCOLON every byte but ':' is ignored. */
  lemma {:induction false} IdleIgnores(s: RxSnap, slaveID: uint8, bytes: seq<uint8>)
    requires RxShape(s) && s.state == SColon
    requires Colon !in bytes
    ensures RxRun(s, slaveID, bytes) == s
    decreases |bytes|
  {
    if bytes != [] {
      assert RxStep(s, slaveID, bytes[0]) == s;
      IdleIgnores(s, slaveID, bytes[1..]);
    }
  }

  /** The checksum pair has no say: two frames that differ only in it leave
      the parser in the same state with the same exceptions. */
  lemma ChecksumIgnored(s: RxSnap, slaveID: uint8, body: seq<uint8>, other: seq<uint8>)
    requires RxShape(s) && |body| == 14 && |other| == 14 && body[..12] == other[..12]
    requires forall i :: 0 <= i < 14 ==> Ordinary(body[i]) && Ordinary(other[i])
    ensures var r := RxRun(s, slaveID, [Colon] + body);
      var r' := RxRun(s, slaveID, [Colon] + other);
      r.state == r'.state == SColon && r.exceptions == r'.exceptions
      && r.frame[..6] == r'.frame[..6]
  {
    FrameParsed(s, slaveID, body);
    FrameParsed(s, slaveID, other);
    var v, w := LowDigits(body), LowDigits(other);
    LeadingDigits(body, other);
    var (verdict, end) := Verdict7(v, slaveID);
    assert Verdict7(w, slaveID) == (verdict, end) by {
      assert v[0] == w[0] && v[1] == w[1] && v[2] == w[2] && v[3] == w[3];
    }
    SamePrefix(v, w, s.frame, end);
  }

  /** Bodies that agree up to the checksum pair agree on the first six low
      digits. */
  lemma LeadingDigits(body: seq<uint8>, other: seq<uint8>)
    requires |body| == 14 && |other| == 14 && body[..12] == other[..12]
    ensures LowDigits(body)[..6] == LowDigits(other)[..6]
  {
    var v, w := LowDigits(body), LowDigits(other);
    forall k | 0 <= k < 6 ensures v[k] == w[k] {
      assert body[2 * k + 1] == body[..12][2 * k + 1];
      assert other[2 * k + 1] == other[..12][2 * k + 1];
    }
  }

  /** Two frames filled from field values that agree on the first six agree
      on their first six bytes. */
  lemma SamePrefix(v: seq<uint8>, w: seq<uint8>, f: seq<uint8>, end: nat)
    requires |v| == 7 && |w| == 7 && |f| == 7 && v[..6] == w[..6] && end <= 7
    ensures (v[..end] + f[end..])[..6] == (w[..end] + f[end..])[..6]
  {
    forall i | 0 <= i < 6 ensures (v[..end] + f[end..])[i] == (w[..end] + f[end..])[i] {
      if i < end {
        assert v[i] == v[..6][i];
        assert w[i] == w[..6][i];
      }
    }
  }

  // ---- example requests, slave address 1, from power-up ----

  /** The request ':' "010300000001" "FB" CR LF: read one register from
      address 0, its checksum FB, and the terminator. It is parsed without an
      exception and leaves the parser waiting for the next ':'; rxFrame holds
      the low digit of every pair, the checksum included, and nothing else
      records the request. */
  lemma ReadRequestParsed(s: RxSnap, body: seq<uint8>, crlf: seq<uint8>)
    requires s == InitialRx
    requires body == [0x30, 0x31, 0x30, 0x33, 0x30, 0x30, 0x30, 0x30, 0x30, 0x30, 0x30, 0x31, 0x46, 0x42]
    requires crlf == [CarriageReturn, LineFeed]
    ensures var r := RxRun(s, 1, [Colon] + body + crlf);
      r.state == SColon && r.exceptions == [] && r.frame == [1, 3, 0, 0, 0, 1, 0xB]
  {
    FrameWithDigits(s, 1, body, [1, 3, 0, 0, 0, 1, 0xB]);
    TrailerIgnored(s, 1, [Colon] + body, crlf);
  }

  /** Bytes other than ':' after a frame that left the parser in sCOLON
      change nothing. */
  lemma TrailerIgnored(s: RxSnap, slaveID: uint8, frame: seq<uint8>, trailer: seq<uint8>)
    requires RxShape(s) && RxRun(s, slaveID, frame).state == SColon && Colon !in trailer
    ensures RxRun(s, slaveID, frame + trailer) == RxRun(s, slaveID, frame)
  {
    RxRunAppend(s, slaveID, frame, trailer);
    IdleIgnores(RxRun(s, slaveID, frame), slaveID, trailer);
  }

  /** The low digits of a frame body, digit by digit. */
  lemma LowDigitsOf(body: seq<uint8>, v: seq<uint8>)
    requires |body| == 14 && |v| == 7
    requires forall k :: 0 <= k < 7 ==> AsciiToUint8(body[2 * k + 1]) == v[k]
    ensures LowDigits(body) == v
  {
  }

  /** FrameParsed for a body whose low digits are given one by one. */
  lemma FrameWithDigits(s: RxSnap, slaveID: uint8, body: seq<uint8>, v: seq<uint8>)
    requires RxShape(s) && |body| == 14 && |v| == 7
    requires forall i :: 0 <= i < 14 ==> Ordinary(body[i])
    requires forall k :: 0 <= k < 7 ==> AsciiToUint8(body[2 * k + 1]) == v[k]
    ensures var r := RxRun(s, slaveID, [Colon] + body);
      var (verdict, end) := Verdict7(v, slaveID);
      && r.state == SColon
      && r.frame == v[..end] + s.frame[end..]
      && r.exceptions == s.exceptions + (if verdict.Raised? then [verdict.code] else [])
  {
    LowDigitsOf(body, v);
    FrameParsed(s, slaveID, body);
  }

  /** Function 7 is refused with ILLEGAL_FN and nothing after it is read. */
  lemma UnknownFunctionRaises(s: RxSnap, body: seq<uint8>)
    requires s == InitialRx
    requires body == [0x30, 0x31, 0x30, 0x37, 0x30, 0x30, 0x30, 0x30, 0x30, 0x30, 0x30, 0x31, 0x46, 0x37]
    ensures var r := RxRun(s, 1, [Colon] + body);
      r.state == SColon && r.exceptions == [IllegalFunction] && r.frame == [1, 7, 0, 0, 0, 0, 0]
  {
    FrameWithDigits(s, 1, body, [1, 7, 0, 0, 0, 1, 7]);
  }

  /** The address "1000" passes the zero test on its first byte, only the
      digit '0' of "10" being kept. */
  lemma HighAddressDigitLost(s: RxSnap, body: seq<uint8>)
    requires s == InitialRx
    requires body == [0x30, 0x31, 0x30, 0x36, 0x31, 0x30, 0x30, 0x30, 0x30, 0x30, 0x30, 0x31, 0x45, 0x38]
    ensures var r := RxRun(s, 1, [Colon] + body);
      r.state == SColon && r.exceptions == [] && r.frame == [1, 6, 0, 0, 0, 1, 8]
  {
    FrameWithDigits(s, 1, body, [1, 6, 0, 0, 0, 1, 8]);
  }

  /** The address "0100" is refused with ILLEGAL_DATA_ADDRESS. */
  lemma LowAddressDigitChecked(s: RxSnap, body: seq<uint8>)
    requires s == InitialRx
    requires body == [0x30, 0x31, 0x30, 0x36, 0x30, 0x31, 0x30, 0x30, 0x30, 0x30, 0x30, 0x31, 0x46, 0x37]
    ensures var r := RxRun(s, 1, [Colon] + body);
      r.state == SColon && r.exceptions == [IllegalDataAddress] && r.frame == [1, 6, 1, 0, 0, 0, 0]
  {
    FrameWithDigits(s, 1, body, [1, 6, 1, 0, 0, 1, 7]);
  }

  /** ":11" is taken as slave address 1: the parser moves on to the function
      code. */
  lemma AddressHighDigitLost(s: RxSnap, start: seq<uint8>)
    requires s == InitialRx && start == [Colon, 0x31, 0x31]
    ensures RxRun(s, 1, start).state == SCommand
  {
    RxRunAppend(s, 1, [Colon], start[1..]);
    assert start == [Colon] + start[1..];
    var s0 := RxStep(s, 1, Colon);
    assert RxRun(s, 1, [Colon]) == s0 by { assert [Colon][1..] == []; }
    PairDone(s0, 1, 0x31, 0x31);
    assert start[1..] == [0x31, 0x31];
  }

  /** A frame for slave 2 is dropped silently. */
  lemma OtherSlaveIgnored(s: RxSnap, start: seq<uint8>)
    requires s == InitialRx && start == [Colon, 0x30, 0x32]
    ensures var r := RxRun(s, 1, start);
      r.state == SColon && r.exceptions == []
  {
    RxRunAppend(s, 1, [Colon], start[1..]);
    assert start == [Colon] + start[1..];
    var s0 := RxStep(s, 1, Colon);
    assert RxRun(s, 1, [Colon]) == s0 by { assert [Colon][1..] == []; }
    PairDone(s0, 1, 0x30, 0x32);
    assert start[1..] == [0x30, 0x32];
  }
}
