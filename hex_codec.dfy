/** Conversion between 4-bit values and upper-case ASCII hex digits, and the
    resumable emitter send_bin_as_ascii_char (AsciiModbusSlave.cpp). */
module HexCodec {
  import opened ModbusTypes
  import opened SerialPort

  /** The byte is one of '0'..'9' or 'A'..'F'. Lower case is not a digit here. */
  predicate IsHexDigit(ch: uint8) {
    ('0' as int <= ch <= '9' as int) || ('A' as int <= ch <= 'F' as int)
  }

  /** The sixteen digits in the order of their values. */
  const HexAlphabet: seq<char> := "0123456789ABCDEF"

  /** ascii_to_uint8: the value of a hex digit, 255 for every other byte. */
  function AsciiToUint8(ch: uint8): (r: uint8)
    ensures IsHexDigit(ch) <==> r < 16
    ensures !IsHexDigit(ch) <==> r == 255
  {
    if '0' as int <= ch <= '9' as int then ch - '0' as int
    else if 'A' as int <= ch <= 'F' as int then ch - ('A' as int - 10)
    else 255
  }

  /** uint8_to_ascii and the macro UINT8_TO_ASCII: the hex digit of a value
      below 16, 255 for every larger value. */
  function Uint8ToAscii(n: uint8): (r: uint8)
    ensures n < 16 <==> IsHexDigit(r)
    ensures n >= 16 <==> r == 255
  {
    if n < 10 then n + '0' as int
    else if n < 16 then n + ('A' as int - 10)
    else 255
  }

  /** Decoding the digit of a nibble gives the nibble back. */
  lemma NibbleRoundTrip(n: uint8)
    requires n < 16
    ensures AsciiToUint8(Uint8ToAscii(n)) == n
  {
  }

  /** Encoding the value of a hex digit gives the digit back, so the two
      functions are inverse bijections between 0..15 and the sixteen digits. */
  lemma DigitRoundTrip(ch: uint8)
    requires IsHexDigit(ch)
    ensures Uint8ToAscii(AsciiToUint8(ch)) == ch
  {
  }

  /** The digit of a value below 16 is the character at that position of
      "0123456789ABCDEF": '0'..'9' for 0..9, 'A'..'F' for 10..15. */
  lemma DigitOfValue(n: uint8)
    requires n < 16
    ensures Uint8ToAscii(n) == HexAlphabet[n] as int
  {
  }

  /** The value of a hex digit is its position in "0123456789ABCDEF". */
  lemma ValueOfDigit(ch: uint8)
    requires IsHexDigit(ch)
    ensures AsciiToUint8(ch) < 16 && HexAlphabet[AsciiToUint8(ch)] as int == ch
  {
  }

  /** Lower-case hex letters are not accepted. */
  lemma LowerCaseRejected(ch: uint8)
    requires 'a' as int <= ch <= 'f' as int
    ensures AsciiToUint8(ch) == 255
  {
  }

  /** d >> 4k: the k low nibbles of d shifted out. */
  function ShiftNibbles(d: nat, k: nat): nat {
    if k == 0 then d else ShiftNibbles(d / 16, k - 1)
  }

  /** Nibble k of d, counted from the least significant: (d >> 4k) & 0xF. */
  function Nibble(d: nat, k: nat): (r: uint8)
    ensures r < 16
  {
    ShiftNibbles(d, k) % 16
  }

  /** The shifts a 16-bit value sees, as divisions. */
  lemma ShiftValues(d: nat)
    ensures ShiftNibbles(d, 0) == d && ShiftNibbles(d, 1) == d / 16
    ensures ShiftNibbles(d, 2) == d / 256 && ShiftNibbles(d, 3) == d / 4096
  {
    assert ShiftNibbles(d, 3) == ShiftNibbles(d / 16 / 16, 1);
    assert d / 16 / 16 == d / 256 && d / 256 / 16 == d / 4096;
  }

  /** 16 to the n: the range of n hex digits. */
  function Pow16(n: nat): (r: nat)
    ensures r >= 1
  {
    if n == 0 then 1 else 16 * Pow16(n - 1)
  }

  /** The n low nibbles of d as hex digits, most significant first. */
  function HexDigits(d: nat, n: nat): (r: seq<uint8>)
    ensures |r| == n
  {
    if n == 0 then [] else HexDigits(d / 16, n - 1) + [Uint8ToAscii(d % 16)]
  }

  /** Digit i of HexDigits(d, n) is the digit of nibble n - 1 - i. */
  lemma {:induction false} HexDigitAt(d: nat, n: nat, i: nat)
    requires i < n
    ensures HexDigits(d, n)[i] == Uint8ToAscii(Nibble(d, n - 1 - i))
  {
    if i < n - 1 {
      HexDigitAt(d / 16, n - 1, i);
    }
  }

  /** A reference decoder for a string of hex digits, most significant first. */
  function DecodeHex(s: seq<uint8>): nat {
    if s == [] then 0 else 16 * DecodeHex(s[..|s| - 1]) + AsciiToUint8(s[|s| - 1])
  }

  lemma MulAtLeast(x: int, m: int)
    requires m > 0
    ensures x >= 1 ==> x * m >= m
    ensures x <= -1 ==> x * m <= -m
  {
  }

  lemma ModUnique(d: int, m: int, q: int, r: int)
    requires m > 0 && d == q * m + r && 0 <= r < m
    ensures d % m == r
  {
    var q' := d / m;
    var r' := d % m;
    assert d == q' * m + r';
    assert (q - q') * m == r' - r;
    MulAtLeast(q - q', m);
  }

  /** The low nibble, then the rest: d % 16p is made of d % 16 and (d / 16) % p. */
  lemma LowNibbleSplit(d: nat, p: nat)
    requires p > 0
    ensures 16 * (d / 16 % p) + d % 16 == d % (16 * p)
  {
    var q := d / 16;
    var b := q % p;
    assert q == (q / p) * p + b;
    assert d == (q / p) * (16 * p) + (16 * b + d % 16);
    assert 16 * b <= 16 * (p - 1);
    ModUnique(d, 16 * p, q / p, 16 * b + d % 16);
  }

  /** Decoding the digits of d gives back the n low nibbles of d; for a byte
      and two digits that is the byte itself. */
  lemma {:induction false} HexDigitsRoundTrip(d: nat, n: nat)
    ensures DecodeHex(HexDigits(d, n)) == d % Pow16(n)
  {
    if n > 0 {
      var h := HexDigits(d, n);
      assert h[..n - 1] == HexDigits(d / 16, n - 1);
      HexDigitsRoundTrip(d / 16, n - 1);
      NibbleRoundTrip(d % 16);
      LowNibbleSplit(d, Pow16(n - 1));
    }
  }

  /** The outcome of one call to send_bin_as_ascii_char: the character sent,
      the new nibble counter and the return value. */
  datatype Emission = Emission(ch: uint8, counter: uint8, done: uint8)

  /** One call of send_bin_as_ascii_char(data, numBits) made while the static
      nibble counter holds counter. The caller must keep calling with the same
      data until the value is complete, so counter is below numBits / 4. */
  function EmitStep(counter: uint8, data: uint16, numBits: uint8): (e: Emission)
    requires numBits == 8 || numBits == 16
    requires counter < numBits / 4
    ensures e.done == 1 <==> counter == numBits / 4 - 1
    ensures e.done == 0 <==> e.counter == counter + 1
    ensures e.done == 1 ==> e.counter == 0
    ensures e.counter < numBits / 4
  {
    var totalNibbles := numBits / 4;
    // shift = nibbleShift << 2 bits
    var nibbleShift := (totalNibbles - 1) - counter;
    var dataNibble := ShiftNibbles(data, nibbleShift) % 16;
    var next := counter + 1;
    if next >= totalNibbles then Emission(Uint8ToAscii(dataNibble), 0, 1)
    else Emission(Uint8ToAscii(dataNibble), next, 0)
  }

  /** The character a call sends is digit counter of the value's hex digits,
      most significant first. */
  lemma EmitStepDigit(counter: uint8, data: uint16, numBits: uint8)
    requires numBits == 8 || numBits == 16
    requires counter < numBits / 4
    ensures EmitStep(counter, data, numBits).ch == HexDigits(data, numBits / 4)[counter]
  {
    HexDigitAt(data, numBits / 4, counter);
  }

  /** What a run of calls with the same value produces: the characters sent,
      the return values in order, and the final nibble counter. */
  datatype EmitTrace = EmitTrace(chars: seq<uint8>, results: seq<uint8>, counter: uint8)

  function EmitCalls(counter: uint8, data: uint16, numBits: uint8, calls: nat): EmitTrace
    requires numBits == 8 || numBits == 16
    requires counter < numBits / 4
    decreases calls
  {
    if calls == 0 then EmitTrace([], [], counter)
    else
      var e := EmitStep(counter, data, numBits);
      var rest := EmitCalls(e.counter, data, numBits, calls - 1);
      EmitTrace([e.ch] + rest.chars, [e.done] + rest.results, rest.counter)
  }

  /** k zeros followed by a single 1. */
  function LastCallDone(k: nat): (r: seq<uint8>)
    ensures |r| == k + 1 && r[k] == 1
    ensures forall i :: 0 <= i < k ==> r[i] == 0
  {
    if k == 0 then [1] else [0] + LastCallDone(k - 1)
  }

  lemma {:induction false} EmitRemaining(counter: uint8, data: uint16, numBits: uint8)
    requires numBits == 8 || numBits == 16
    requires counter < numBits / 4
    decreases numBits / 4 - counter
    ensures EmitCalls(counter, data, numBits, numBits / 4 - counter)
         == EmitTrace(HexDigits(data, numBits / 4)[counter..], LastCallDone(numBits / 4 - 1 - counter), 0)
  {
    var n := numBits / 4;
    if counter < n - 1 {
      var e := EmitStep(counter, data, numBits);
      EmitRemaining(e.counter, data, numBits);
      EmitOneMore(counter, data, numBits);
    } else {
      var h := HexDigits(data, n);
      EmitStepDigit(counter, data, numBits);
      assert h[counter..] == [h[counter]];
    }
  }

  lemma EmitOneMore(counter: uint8, data: uint16, numBits: uint8)
    requires numBits == 8 || numBits == 16
    requires counter < numBits / 4 - 1
    requires EmitCalls(counter + 1, data, numBits, numBits / 4 - counter - 1)
          == EmitTrace(HexDigits(data, numBits / 4)[counter + 1..], LastCallDone(numBits / 4 - 2 - counter), 0)
    ensures EmitCalls(counter, data, numBits, numBits / 4 - counter)
         == EmitTrace(HexDigits(data, numBits / 4)[counter..], LastCallDone(numBits / 4 - 1 - counter), 0)
  {
    var h := HexDigits(data, numBits / 4);
    EmitStepDigit(counter, data, numBits);
    assert h[counter..] == [h[counter]] + h[counter + 1..];
  }

  /** numBits / 4 calls in a row with the same value, starting from a zero
      counter: the digits of the value go out most significant first, every
      call but the last returns 0, the last returns 1 and the counter is back
      at 0. */
  lemma EmitWholeValue(data: uint16, numBits: uint8)
    requires numBits == 8 || numBits == 16
    ensures EmitCalls(0, data, numBits, numBits / 4)
         == EmitTrace(HexDigits(data, numBits / 4), LastCallDone(numBits / 4 - 1), 0)
  {
    EmitRemaining(0, data, numBits);
    assert HexDigits(data, numBits / 4)[0..] == HexDigits(data, numBits / 4);
  }

  /** send_bin_as_ascii_char with its static nibble counter. */
  class HexEmitter {
    var nibbleCounter: uint8

    constructor ()
      ensures nibbleCounter == 0
    {
      nibbleCounter := 0;
    }

    method SendBinAsAsciiChar(uart: Uart, data: uint16, numBits: uint8) returns (done: uint8)
      requires numBits == 8 || numBits == 16
      requires nibbleCounter < numBits / 4
      modifies this, uart
      ensures uart.sent == old(uart.sent) + [EmitStep(old(nibbleCounter), data, numBits).ch]
      ensures nibbleCounter == EmitStep(old(nibbleCounter), data, numBits).counter
      ensures done == EmitStep(old(nibbleCounter), data, numBits).done
    {
      var totalNibbles := numBits / 4;
      var nibbleShift := (totalNibbles - 1) - nibbleCounter;
      var dataNibble := ShiftNibbles(data, nibbleShift) % 16;
      uart.SendByte(Uint8ToAscii(dataNibble));
      nibbleCounter := nibbleCounter + 1;
      if nibbleCounter >= totalNibbles {
        nibbleCounter := 0;
        return 1;
      }
      return 0;
    }
  }
}
