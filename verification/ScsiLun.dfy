/**
 The DS8K LUN text: below 256 a two-digit hexadecimal number, otherwise the hexadecimal text of the number
 with its two 16-bit halves swapped (section 4.7 of SAM-5 describes the LUN format the source refers to).
 */
module ScsiLun {
  import opened Options
  import opened Text

  // ----- Python's bit operators on natural numbers

  function And(a: nat, b: nat): nat {
    if a == 0 || b == 0 then 0
    else 2 * And(a / 2, b / 2) + if a % 2 == 1 && b % 2 == 1 then 1 else 0
  }

  function Or(a: nat, b: nat): nat
    decreases a + b
  {
    if a == 0 && b == 0 then 0
    else 2 * Or(a / 2, b / 2) + if a % 2 == 1 || b % 2 == 1 then 1 else 0
  }

  function Pow2(k: nat): (p: nat)
    ensures p > 0
  {
    if k == 0 then 1 else 2 * Pow2(k - 1)
  }

  function Quotient(a: nat, d: nat): nat
    requires d > 0
  {
    a / d
  }

  function ShiftRight(a: nat, k: nat): nat {
    Quotient(a, Pow2(k))
  }

  function ShiftLeft(a: nat, k: nat): nat {
    a * Pow2(k)
  }

  /** Masking with k ones keeps the low k bits. */
  lemma {:induction false} AndMask(x: nat, k: nat)
    ensures And(x, Pow2(k) - 1) == x % Pow2(k)
  {
    if k == 0 {
      assert x % 1 == 0;
    } else {
      AndMask(x / 2, k - 1);
      AndMaskStep(x, Pow2(k - 1));
    }
  }

  lemma AndMaskStep(x: nat, half: nat)
    requires half > 0 && And(x / 2, half - 1) == x / 2 % half
    ensures And(x, 2 * half - 1) == x % (2 * half)
  {
    hide And;
    var m := half - 1;
    AndOdd(x, m);
    assert 2 * m + 1 == 2 * half - 1;
    ModDouble(x, half);
  }

  lemma AndOdd(x: nat, m: nat)
    ensures And(x, 2 * m + 1) == 2 * And(x / 2, m) + x % 2
  {
  }

  lemma ModDouble(x: nat, half: nat)
    requires half > 0
    ensures x % (2 * half) == 2 * (x / 2 % half) + x % 2
  {
    var q, r := x / 2 / half, x / 2 % half;
    assert x == q * (2 * half) + (2 * r + x % 2) by {
      assert x / 2 == q * half + r;
    }
    Remainder(x, 2 * half, q, 2 * r + x % 2);
  }

  lemma Remainder(x: nat, d: nat, q: nat, r: nat)
    requires d > 0 && r < d && x == q * d + r
    ensures x % d == r && x / d == q
  {
    var k := x / d - q;
    assert k * d == r - x % d;
    AtLeastOneMultiple(k, d);
  }

  lemma AtLeastOneMultiple(k: int, d: nat)
    ensures k >= 1 ==> k * d >= d
    ensures k <= -1 ==> k * d + d <= 0
  {
  }

  /** Setting the bits above k in a number below 2^k adds them. */
  lemma {:induction false} OrDisjoint(a: nat, b: nat, k: nat)
    requires a < Pow2(k)
    ensures Or(a, b * Pow2(k)) == a + b * Pow2(k)
  {
    var half := Pow2(if k == 0 then 0 else k - 1);
    if k == 0 {
      OrZero(b);
    } else {
      assert b * Pow2(k) == 2 * (b * half) by {
        assert b * (2 * half) == 2 * (b * half);
      }
      if a + b * Pow2(k) > 0 {
        OrDisjoint(a / 2, b, k - 1);
      }
    }
  }

  lemma {:induction false} OrZero(b: nat)
    ensures Or(0, b) == b
  {
    if b > 0 {
      OrZero(b / 2);
    }
  }

  // ----- the conversions

  /** `(x >> 16 & 0xFFFF) | (x & 0xFFFF) << 16`. */
  function Swap(x: nat): nat {
    Or(And(ShiftRight(x, 16), 0xFFFF), ShiftLeft(And(x, 0xFFFF), 16))
  }

  /** `'{0:0{1}x}'.format(n, 2)`. */
  function LunIdToHex(n: nat): string {
    var text := Numeral(n, 16);
    if |text| < 2 then "0" + text else text
  }

  function IntToScsilun(lun: nat): string {
    if lun < 256 then LunIdToHex(lun) else Numeral(Swap(lun), 16)
  }

  function ScsilunToInt(text: string): Option<nat> {
    match ParseNumeral(text, 16)
    case None => None
    case Some(n) => Some(if n < 256 then n else Swap(n))
  }

  lemma Pow16()
    ensures Pow2(16) == 65536
  {
    assert Pow2(4) == 16;
    assert Pow2(8) == 256;
    assert Pow2(12) == 4096;
  }

  /** The bit expression exchanges the two half-words and drops what is above them. */
  lemma SwapExchangesHalves(x: nat)
    ensures Swap(x) == x / 65536 % 65536 + x % 65536 * 65536
  {
    Pow16();
    AndMask(x / 65536, 16);
    AndMask(x, 16);
    OrDisjoint(x / 65536 % 65536, x % 65536, 16);
  }

  lemma SwapTwice(x: nat)
    requires x < 65536 * 65536
    ensures Swap(Swap(x)) == x
  {
    hide Swap;
    SwapExchangesHalves(x);
    SwapExchangesHalves(Swap(x));
    var high, low := x / 65536, x % 65536;
    assert high < 65536 && Swap(x) == low * 65536 + high;
    Remainder(Swap(x), 65536, low, high);
  }

  lemma HexReadsBack(n: nat)
    ensures ParseNumeral(LunIdToHex(n), 16) == Some(n)
  {
    NumeralRoundTrip(n, 16);
    LeadingZero(Numeral(n, 16), 16);
  }

  /** A whole number of half-words below 256 of them: the LUNs whose text reads as a short LUN. */
  predicate Ambiguous(lun: nat) {
    lun % 65536 == 0 && 1 <= lun / 65536 <= 255
  }

  /** Every 32-bit LUN survives the text except the ambiguous ones, which come back divided by 65536. */
  lemma ScsilunRoundTrip(lun: nat)
    requires lun < 65536 * 65536
    ensures ScsilunToInt(IntToScsilun(lun)) == Some(if Ambiguous(lun) then lun / 65536 else lun)
  {
    hide Swap, ParseNumeral, Numeral;
    if lun < 256 {
      HexReadsBack(lun);
    } else {
      NumeralRoundTrip(Swap(lun), 16);
      SwapExchangesHalves(lun);
      SwapTwice(lun);
    }
  }

  /** The exact condition, over all numbers. */
  lemma ScsilunRoundTripsExactly(lun: nat)
    ensures ScsilunToInt(IntToScsilun(lun)) == Some(lun) <==> lun < 65536 * 65536 && !Ambiguous(lun)
  {
    hide Swap;
    if lun < 65536 * 65536 {
      ScsilunRoundTrip(lun);
    } else {
      NumeralRoundTrip(Swap(lun), 16);
      SwapExchangesHalves(Swap(lun));
      SwapExchangesHalves(lun);
    }
  }

  /** A LUN below 256 is two lower-case hexadecimal digits. */
  lemma ShortLunIsTwoDigits(lun: nat)
    requires lun < 256
    ensures IntToScsilun(lun) == ["0123456789abcdef"[lun / 16], "0123456789abcdef"[lun % 16]]
  {
    assert Numeral(lun, 16) == if lun < 16 then [DIGITS[lun]] else [DIGITS[lun / 16]] + [DIGITS[lun % 16]] by {
      assert High(lun, 16) == lun / 16 && Low(lun, 16) == lun % 16;
      assert lun >= 16 ==> Numeral(lun / 16, 16) == [DIGITS[lun / 16]];
    }
  }

  /** A greater one is the shortest text of its swapped halves, as it comes. */
  lemma LongLunIsNotPadded(lun: nat)
    requires lun >= 256
    ensures IntToScsilun(lun) == Numeral(lun / 65536 % 65536 + lun % 65536 * 65536, 16)
  {
    SwapExchangesHalves(lun);
  }
}
