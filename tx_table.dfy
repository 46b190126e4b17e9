/** The state identifiers, the three step outcomes and the transmit transition
    table txs_state_table with its NEXT_STATE lookup (AsciiModbusSlave.cpp). */
module TxTable {

  /** STATESENUM, restricted to the transmit states and mNULL. */
  datatype TxStateId =
    | MTxStart | MColon | MSlaveId | MFnCode | MChoice | MExcept | MLrc
    | MFinish | MNumData | MTxReg | MDataAdd | MValue | MCrLf | MNull
  {
    /** The state's value in STATESENUM (mNULL comes after the three receive
        states and mMAX_STATES). */
    function Ord(): nat {
      match this
      case MTxStart => 0
      case MColon => 1
      case MSlaveId => 2
      case MFnCode => 3
      case MChoice => 4
      case MExcept => 5
      case MLrc => 6
      case MFinish => 7
      case MNumData => 8
      case MTxReg => 9
      case MDataAdd => 10
      case MValue => 11
      case MCrLf => 12
      case MNull => 17
    }
  }

  /** The transmit state with STATESENUM value i. */
  function StateAt(i: nat): (s: TxStateId)
    requires i < 13
    ensures s.Ord() == i && s != MNull
  {
    [MTxStart, MColon, MSlaveId, MFnCode, MChoice, MExcept, MLrc,
     MFinish, MNumData, MTxReg, MDataAdd, MValue, MCrLf][i]
  }

  /** return_values: the only results a step function may give. */
  datatype Outcome = RForward | RBranch | RRepeat {
    function Ord(): nat {
      match this
      case RForward => 0
      case RBranch => 1
      case RRepeat => 2
    }
  }

  /** A {current state, future state} pair of the table. */
  datatype Transition = Transition(current: TxStateId, future: TxStateId)

  /** The ST macro: one row, indexed by outcome. */
  function St(current: TxStateId, forward: TxStateId, branch: TxStateId, repeat: TxStateId): seq<Transition> {
    [Transition(current, forward), Transition(current, branch), Transition(current, repeat)]
  }

  /** txs_state_table; rows are indexed by STATESENUM value, columns by outcome. */
  const TxsStateTable: seq<seq<Transition>> := [
    St(MTxStart, MColon, MNull, MNull),
    St(MColon, MSlaveId, MNull, MColon),
    St(MSlaveId, MFnCode, MNull, MSlaveId),
    St(MFnCode, MChoice, MExcept, MFnCode),
    St(MChoice, MNumData, MDataAdd, MNull),
    St(MExcept, MLrc, MNull, MExcept),
    St(MLrc, MCrLf, MNull, MLrc),
    St(MFinish, MTxStart, MNull, MFinish),
    St(MNumData, MTxReg, MNull, MNumData),
    St(MTxReg, MLrc, MNull, MTxReg),
    St(MDataAdd, MValue, MNull, MDataAdd),
    St(MValue, MLrc, MNull, MValue),
    St(MCrLf, MFinish, MNull, MCrLf)
  ]

  /** Row i of the table describes the state with STATESENUM value i. */
  lemma RowsDescribeTheirState()
    ensures |TxsStateTable| == 13
    ensures forall i :: 0 <= i < 13 ==> |TxsStateTable[i]| == 3
    ensures forall i, k :: 0 <= i < 13 && 0 <= k < 3 ==> TxsStateTable[i][k].current == StateAt(i)
  {
  }

  /** NEXT_STATE(current_state, return_val) */
  function NextState(cur: TxStateId, rc: Outcome): TxStateId
    requires cur != MNull
  {
    RowsDescribeTheirState();
    if rc == RForward then TxsStateTable[cur.Ord()][RForward.Ord()].future
    else if rc == RBranch then TxsStateTable[cur.Ord()][RBranch.Ord()].future
    else TxsStateTable[cur.Ord()][RRepeat.Ord()].future
  }

  /** The transmit flow of the design written out state by state: the
      successor each outcome leads to, mNULL where the table has no entry. */
  function Successor(cur: TxStateId, rc: Outcome): TxStateId
    requires cur != MNull
  {
    match cur
    case MTxStart => if rc == RForward then MColon else MNull
    case MColon => if rc == RForward then MSlaveId else if rc == RBranch then MNull else MColon
    case MSlaveId => if rc == RForward then MFnCode else if rc == RBranch then MNull else MSlaveId
    case MFnCode => if rc == RForward then MChoice else if rc == RBranch then MExcept else MFnCode
    case MChoice => if rc == RForward then MNumData else if rc == RBranch then MDataAdd else MNull
    case MExcept => if rc == RForward then MLrc else if rc == RBranch then MNull else MExcept
    case MLrc => if rc == RForward then MCrLf else if rc == RBranch then MNull else MLrc
    case MFinish => if rc == RForward then MTxStart else if rc == RBranch then MNull else MFinish
    case MNumData => if rc == RForward then MTxReg else if rc == RBranch then MNull else MNumData
    case MTxReg => if rc == RForward then MLrc else if rc == RBranch then MNull else MTxReg
    case MDataAdd => if rc == RForward then MValue else if rc == RBranch then MNull else MDataAdd
    case MValue => if rc == RForward then MLrc else if rc == RBranch then MNull else MValue
    case MCrLf => if rc == RForward then MFinish else if rc == RBranch then MNull else MCrLf
  }

  /** The table lookup and the flow agree on every state and outcome. */
  lemma NextStateIsSuccessor(cur: TxStateId, rc: Outcome)
    requires cur != MNull
    ensures NextState(cur, rc) == Successor(cur, rc)
  {
  }

  predicate IsNullEntry(cur: TxStateId, rc: Outcome) {
    || (rc == RBranch && cur != MFnCode && cur != MChoice)
    || (rc == RRepeat && (cur == MTxStart || cur == MChoice))
  }

  /** Exactly the entries the table leaves at mNULL: the branch of every state
      but mFNCODE and mCHOICE, and the repeat of mTXSTART and mCHOICE. */
  lemma NullEntries(cur: TxStateId, rc: Outcome)
    requires cur != MNull
    ensures Successor(cur, rc) == MNull <==> IsNullEntry(cur, rc)
  {
  }

  /** Repeat stays in the state wherever the table defines it. */
  lemma RepeatStays(cur: TxStateId)
    requires cur != MNull
    ensures cur != MTxStart && cur != MChoice ==> Successor(cur, RRepeat) == cur
  {
  }
}
