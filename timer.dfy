/** The countdown timer of AsciiModbusSlave.h: UPDATE_MODBUS_TIMER,
    SET_MODBUS_TIMER and MODBUS_TIMER_EXPIRED on the global modbus_timer. */
module Timer {
  import opened ModbusTypes

  /** One tick of UPDATE_MODBUS_TIMER: a saturating decrement. */
  function Decrement(t: uint8): (r: uint8)
    ensures r <= t
    ensures t > 0 ==> r == t - 1
    ensures t == 0 ==> r == 0
  {
    if t > 0 then t - 1 else t
  }

  /** MODBUS_TIMER_EXPIRED: 1 when the countdown has reached 0, otherwise 0. */
  function TimerExpired(t: uint8): (r: uint8)
    ensures r == 1 <==> t == 0
    ensures r == 0 <==> t != 0
  {
    if t == 0 then 1 else 0
  }

  /** The timer after k ticks. */
  function AfterTicks(t: uint8, k: nat): uint8 {
    if k == 0 then t else AfterTicks(Decrement(t), k - 1)
  }

  /** k ticks take d down to d - k, never below 0. */
  lemma {:induction false} AfterTicksValue(d: uint8, k: nat)
    ensures AfterTicks(d, k) == if k <= d then d - k else 0
  {
    if k > 0 {
      AfterTicksValue(Decrement(d), k - 1);
    }
  }

  /** After SET_MODBUS_TIMER(d), exactly d ticks are needed before the timer
      reads expired. */
  lemma ExpiresAfterExactly(d: uint8, k: nat)
    ensures TimerExpired(AfterTicks(d, k)) == 1 <==> k >= d
  {
    AfterTicksValue(d, k);
  }

  /** The global modbus_timer. */
  class ModbusTimer {
    var modbusTimer: uint8

    constructor ()
      ensures modbusTimer == 0
    {
      modbusTimer := 0;
    }

    /** UPDATE_MODBUS_TIMER, called from the timer interrupt. */
    method Update()
      modifies this
      ensures modbusTimer == Decrement(old(modbusTimer))
    {
      if modbusTimer > 0 {
        modbusTimer := modbusTimer - 1;
      }
    }

    /** SET_MODBUS_TIMER(val) */
    method Set(val: uint8)
      modifies this
      ensures modbusTimer == val
    {
      modbusTimer := val;
    }
  }
}
