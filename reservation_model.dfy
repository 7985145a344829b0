/**
 * The reservation entity: its lifecycle status, its mutable fields with their
 * defaults, the persisted row, and the pre-persist hook that derives the
 * reservation code from a random UUID.
 */
module ReservationModel {
  import opened Wrappers

  /** The four lifecycle states of a reservation. */
  datatype ReservationStatus = Pending | Active | Completed | Canceled

  /** A reservation as stored: one row of the reservations table, keyed by its unique code. */
  datatype ReservationRow = ReservationRow(
    code: string,
    mealId: int,
    customerName: string,
    customerEmail: string,
    numberOfPeople: int,
    reservationTime: int,
    isUsed: bool,
    status: ReservationStatus)

  /** Java's `long` read as an unsigned 64-bit value. */
  type UInt64 = x: int | 0 <= x < 0x1_0000_0000_0000_0000

  /** A UUID: its two 64-bit halves, as java.util.UUID holds them. */
  datatype Uuid = Uuid(mostSigBits: UInt64, leastSigBits: UInt64)

  const TWO_TO_16: nat := 0x1_0000
  const TWO_TO_32: nat := 0x1_0000_0000
  const TWO_TO_48: nat := 0x1_0000_0000_0000

  predicate IsLowerHexChar(c: char) {
    '0' <= c <= '9' || 'a' <= c <= 'f'
  }

  predicate IsUpperHexChar(c: char) {
    '0' <= c <= '9' || 'A' <= c <= 'F'
  }

  /** The lower-case hexadecimal digit for d. */
  function HexDigit(d: nat): (c: char)
    requires d < 16
    ensures IsLowerHexChar(c)
  {
    if d < 10 then (48 + d) as char else (87 + d) as char
  }

  function Pow16(n: nat): (p: nat)
    ensures p > 0
  {
    if n == 0 then 1 else 16 * Pow16(n - 1)
  }

  /**
   * The last n hexadecimal digits of v, most significant first, zero-padded:
   * what UUID.toString writes for a field of n digits.
   */
  function HexDigits(v: nat, n: nat): (s: string)
    ensures |s| == n
    ensures forall i :: 0 <= i < n ==> IsLowerHexChar(s[i])
  {
    if n == 0 then [] else HexDigits(v / 16, n - 1) + [HexDigit(v % 16)]
  }

  /** The canonical 8-4-4-4-12 text of a UUID, in lower case. */
  function UuidString(u: Uuid): (s: string)
    ensures |s| == 36
  {
    HexDigits(u.mostSigBits / TWO_TO_32, 8) + "-" +
    HexDigits(u.mostSigBits / TWO_TO_16, 4) + "-" +
    HexDigits(u.mostSigBits, 4) + "-" +
    HexDigits(u.leastSigBits / TWO_TO_48, 4) + "-" +
    HexDigits(u.leastSigBits, 12)
  }

  /** String.toUpperCase on one character (only ASCII letters occur here). */
  function ToUpperChar(c: char): char {
    if 'a' <= c <= 'z' then (c as int - 32) as char else c
  }

  /**
   * String.toUpperCase on ASCII text, which is all a UUID's text holds:
   * each lower-case letter becomes its capital, every other character stays.
   */
  function ToUpperCase(s: string): (t: string)
    ensures |t| == |s|
    ensures forall i :: 0 <= i < |s| && 'a' <= s[i] <= 'z' ==>
      'A' <= t[i] <= 'Z' && t[i] as int - 'A' as int == s[i] as int - 'a' as int
    ensures forall i :: 0 <= i < |s| && !('a' <= s[i] <= 'z') ==> t[i] == s[i]
    ensures forall i :: 0 <= i < |s| && IsLowerHexChar(s[i]) ==> IsUpperHexChar(t[i])
  {
    seq(|s|, i requires 0 <= i < |s| => ToUpperChar(s[i]))
  }

  /** The reservation code the pre-persist hook assigns for a given UUID. */
  function CodeFromUuid(u: Uuid): (code: string)
    ensures |code| == 8
    ensures forall i :: 0 <= i < |code| ==> IsUpperHexChar(code[i])
  {
    ToUpperCase(UuidString(u)[..8])
  }

  /** The value of an upper-case hexadecimal numeral. */
  function HexValue(s: string): nat {
    if s == [] then 0 else 16 * HexValue(s[..|s| - 1]) + DigitValue(s[|s| - 1])
  }

  function DigitValue(c: char): nat {
    if '0' <= c <= '9' then c as int - '0' as int
    else if 'A' <= c <= 'F' then c as int - 'A' as int + 10
    else 0
  }

  lemma DigitRoundTrip(d: nat)
    requires d < 16
    ensures DigitValue(ToUpperChar(HexDigit(d))) == d
  {
  }

  /** Reading back the upper-cased digits of a value that fits in n digits gives the value. */
  lemma {:induction false} HexRoundTrip(v: nat, n: nat)
    requires v < Pow16(n)
    ensures HexValue(ToUpperCase(HexDigits(v, n))) == v
  {
    if n > 0 {
      var s, c := HexDigits(v / 16, n - 1), HexDigit(v % 16);
      var u := ToUpperCase(s + [c]);
      assert HexDigits(v, n) == s + [c];
      assert u[..|u| - 1] == ToUpperCase(s);
      assert u[|u| - 1] == ToUpperChar(c);
      HexRoundTrip(v / 16, n - 1);
      DigitRoundTrip(v % 16);
    }
  }

  lemma CodeIsHighDigits(u: Uuid)
    ensures CodeFromUuid(u) == ToUpperCase(HexDigits(u.mostSigBits / TWO_TO_32, 8))
  {
  }

  /** The code is the upper 32 bits of the UUID written in hexadecimal: reading it back recovers them. */
  lemma CodeEncodesHighBits(u: Uuid)
    ensures HexValue(CodeFromUuid(u)) == u.mostSigBits / TWO_TO_32
  {
    CodeIsHighDigits(u);
    assert Pow16(8) == TWO_TO_32;
    HexRoundTrip(u.mostSigBits / TWO_TO_32, 8);
  }

  /** Two UUIDs give the same code exactly when their upper 32 bits agree. */
  lemma CodesCollideIff(u1: Uuid, u2: Uuid)
    ensures CodeFromUuid(u1) == CodeFromUuid(u2) <==> u1.mostSigBits / TWO_TO_32 == u2.mostSigBits / TWO_TO_32
  {
    CodeEncodesHighBits(u1);
    CodeEncodesHighBits(u2);
    CodeIsHighDigits(u1);
    CodeIsHighDigits(u2);
  }

  /**
   * The mutable reservation entity. A fresh one is unused and PENDING and has
   * every other field unset (Java null).
   */
  class Reservation {
    var mealId: Option<int>
    var customerName: Option<string>
    var customerEmail: Option<string>
    var numberOfPeople: Option<int>
    var reservationTime: Option<int>
    var reservationCode: Option<string>
    var isUsed: bool
    var status: ReservationStatus

    constructor ()
      ensures mealId == None && customerName == None && customerEmail == None
      ensures numberOfPeople == None && reservationTime == None && reservationCode == None
      ensures !isUsed && status == Pending
    {
      mealId, customerName, customerEmail := None, None, None;
      numberOfPeople, reservationTime, reservationCode := None, None, None;
      isUsed, status := false, Pending;
    }

    /** The pre-persist hook: overwrites whatever code was set with one derived from `uuid`. */
    method GenerateReservationCode(uuid: Uuid)
      modifies this`reservationCode
      ensures reservationCode == Some(CodeFromUuid(uuid))
      ensures |reservationCode.value| == 8
      ensures forall i :: 0 <= i < 8 ==> IsUpperHexChar(reservationCode.value[i])
    {
      reservationCode := Some(ToUpperCase(UuidString(uuid)[..8]));
    }
  }
}
