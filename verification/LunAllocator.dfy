/** The SVC mediator's choice of a free LUN for a host. */
module LunAllocator {
  import opened Text

  const MIN_LUN_NUMBER := 0
  const MAX_LUN_NUMBER := 511
  const MAX_LUN_NUMBER_INCREMENT := 512
  const LUN_INTERVAL := 128

  /** The LUNs of a host's mappings as the array prints them. */
  function Printed(luns: seq<nat>): set<string> {
    set n | n in luns :: Decimal(n)
  }

  predicate Used(luns: seq<nat>, n: nat) {
    n in luns
  }

  lemma PrintedIsUsed(luns: seq<nat>, n: nat)
    ensures Decimal(n) in Printed(luns) <==> Used(luns, n)
  {
    if Decimal(n) in Printed(luns) {
      var m :| m in luns && Decimal(m) == Decimal(n);
      NumeralIsInjective(m, n, 10);
    }
  }

  /** The least bound 512k - 1, k at least 1, that no used LUN exceeds. */
  ghost predicate IsCeiling(luns: seq<nat>, ceiling: nat) {
    && ceiling % 512 == 511
    && (forall n :: n in luns ==> n <= ceiling)
    && forall c: nat :: c < ceiling && c % 512 == 511 ==> exists n :: n in luns && n > c
  }

  /** `_get_used_lun_ids_from_host`, over the array's mappings of the host. */
  method GetUsedLunIdsFromHost(mappings: seq<string>, ghost luns: seq<nat>)
    returns (lunsInUse: set<string>, maxLunNumber: nat)
    requires mappings == Texts(luns)
    ensures lunsInUse == Printed(luns) && IsCeiling(luns, maxLunNumber)
  {
    hide Increments, IsCeiling, DigitsValue, Numeral;
    lunsInUse := {};
    var highest := 0;
    for k := 0 to |mappings|
      invariant lunsInUse == Printed(luns[..k])
      invariant forall j :: 0 <= j < k ==> luns[j] <= highest
      invariant highest == 0 || highest in luns
    {
      var text := mappings[k];
      NumeralRoundTrip(luns[k], 10);
      var number := ParseNumeral(text, 10).value;
      highest := if number > highest then number else highest;
      assert luns[..k + 1] == luns[..k] + [luns[k]];
      lunsInUse := lunsInUse + {text};
    }
    assert luns[..|mappings|] == luns;
    maxLunNumber := MAX_LUN_NUMBER + Increments(highest) * MAX_LUN_NUMBER_INCREMENT;
    LeastCeiling(luns, highest);
  }

  /** How many times the bound of 511 is raised to reach the highest LUN. */
  function Increments(highest: nat): nat {
    if highest > MAX_LUN_NUMBER
    then (highest - MAX_LUN_NUMBER + MAX_LUN_NUMBER_INCREMENT - 1) / MAX_LUN_NUMBER_INCREMENT
    else 0
  }

  lemma LeastCeiling(luns: seq<nat>, highest: nat)
    requires forall n :: n in luns ==> n <= highest
    requires highest == 0 || highest in luns
    ensures IsCeiling(luns, 511 + Increments(highest) * 512)
  {
    forall c: nat | c < 511 + Increments(highest) * 512 && c % 512 == 511 ensures highest > c {
      assert c / 512 < Increments(highest);
    }
  }

  function Texts(luns: seq<nat>): (texts: seq<string>)
    ensures |texts| == |luns| && forall k :: 0 <= k < |luns| ==> texts[k] == Decimal(luns[k])
  {
    seq(|luns|, k requires 0 <= k < |luns| => Decimal(luns[k]))
  }

  // ----- the free list

  /** The unused numbers below `bound`, in order. */
  function FreeBelow(luns: seq<nat>, bound: nat): seq<nat> {
    if bound == 0 then []
    else FreeBelow(luns, bound - 1) + if Used(luns, bound - 1) then [] else [bound - 1]
  }

  /** How many different used LUNs lie below `bound`. */
  function UsedBelow(luns: seq<nat>, bound: nat): set<nat> {
    set n: nat | n < bound && n in luns
  }

  /** Each free number is its position in the free list plus the used ones below it. */
  lemma {:induction false} FreePosition(luns: seq<nat>, bound: nat, j: nat)
    requires j < |FreeBelow(luns, bound)|
    ensures var n := FreeBelow(luns, bound)[j];
      n < bound && !Used(luns, n) && n == j + |UsedBelow(luns, n)|
  {
    var before := FreeBelow(luns, bound - 1);
    if j < |before| {
      FreePosition(luns, bound - 1, j);
    } else {
      CountBelow(luns, bound - 1);
    }
  }

  lemma {:induction false} CountBelow(luns: seq<nat>, bound: nat)
    ensures |FreeBelow(luns, bound)| + |UsedBelow(luns, bound)| == bound
  {
    if bound == 0 {
      assert UsedBelow(luns, 0) == {};
    } else {
      CountBelow(luns, bound - 1);
      var below := UsedBelow(luns, bound - 1);
      assert UsedBelow(luns, bound) == if Used(luns, bound - 1) then below + {bound - 1} else below;
    }
  }

  lemma FreeListIsComplete(luns: seq<nat>, bound: nat)
    ensures FreeBelow(luns, bound) == [] ==> forall n: nat :: n < bound ==> Used(luns, n)
  {
    if FreeBelow(luns, bound) == [] {
      CountBelow(luns, bound);
      forall n: nat | n < bound ensures Used(luns, n) {
        NothingFreeBelow(luns, bound, n);
      }
    }
  }

  lemma {:induction false} NothingFreeBelow(luns: seq<nat>, bound: nat, n: nat)
    requires FreeBelow(luns, bound) == [] && n < bound
    ensures Used(luns, n)
  {
    if n < bound - 1 {
      NothingFreeBelow(luns, bound - 1, n);
    }
  }

  lemma UsedBelowBound(luns: seq<nat>, bound: nat)
    ensures |UsedBelow(luns, bound)| <= |Distinct(luns)|
  {
    SubsetCardinality(UsedBelow(luns, bound), Distinct(luns));
  }

  function Distinct(luns: seq<nat>): set<nat> {
    set n | n in luns
  }

  lemma {:induction false} SubsetCardinality(a: set<nat>, b: set<nat>)
    requires a <= b
    ensures |a| <= |b|
    decreases |a|
  {
    if a != {} {
      var x :| x in a;
      SubsetCardinality(a - {x}, b - {x});
    }
  }

  ghost predicate WithinBound(luns: seq<nat>, number: nat, ceiling: nat) {
    && IsCeiling(luns, ceiling)
    && if exists n: nat :: n <= ceiling && !Used(luns, n)
       then number <= ceiling && number < |Distinct(luns)| + 128
       else ceiling + 1 <= number <= ceiling + 512
  }

  ghost predicate Bounded(luns: seq<nat>, number: nat) {
    exists ceiling: nat :: WithinBound(luns, number, ceiling)
  }

  /**
   `_get_free_lun`. The choice is never in use. From the free list it stays below the number of LUNs in use
   plus 128; when everything up to the ceiling is taken it is one of the next 512.
   */
  method GetFreeLun(mappings: seq<string>, ghost luns: seq<nat>) returns (lun: string)
    requires mappings == Texts(luns)
    ensures exists number: nat :: lun == Decimal(number) && !Used(luns, number) && Bounded(luns, number)
    ensures lun !in mappings
  {
    hide FreeBelow, Printed, Decimal, IsCeiling;
    var lunsInUse, maxLunNumber := GetUsedLunIdsFromHost(mappings, luns);
    var freeLuns := FreeLuns(lunsInUse, maxLunNumber + 1, luns);
    ghost var free := FreeBelow(luns, maxLunNumber + 1);
    var interval := if |freeLuns| < LUN_INTERVAL then |freeLuns| else LUN_INTERVAL;
    ghost var number: nat;
    if freeLuns != [] {
      var choice: nat :| choice < interval;
      lun := freeLuns[choice];
      number := free[choice];
      FreePosition(luns, maxLunNumber + 1, choice);
      UsedBelowBound(luns, number);
    } else {
      var choice: nat :| maxLunNumber + 1 <= choice <= maxLunNumber + MAX_LUN_NUMBER_INCREMENT;
      lun := Decimal(choice);
      number := choice;
      FreeListIsComplete(luns, maxLunNumber + 1);
      AboveCeiling(luns, number, maxLunNumber);
    }
    UnusedIsNotMapped(luns, number);
    assert WithinBound(luns, number, maxLunNumber);
  }

  lemma AboveCeiling(luns: seq<nat>, number: nat, ceiling: nat)
    requires IsCeiling(luns, ceiling) && number > ceiling
    ensures !Used(luns, number)
  {
  }

  lemma UnusedIsNotMapped(luns: seq<nat>, number: nat)
    requires !Used(luns, number)
    ensures Decimal(number) !in Texts(luns)
  {
    PrintedIsUsed(luns, number);
    hide Decimal;
  }

  /** The numerals below the bound that are not in use, in order. */
  method FreeLuns(lunsInUse: set<string>, bound: nat, ghost luns: seq<nat>) returns (freeLuns: seq<string>)
    requires lunsInUse == Printed(luns)
    ensures freeLuns == Texts(FreeBelow(luns, bound))
  {
    freeLuns := [];
    ghost var free: seq<nat> := [];
    for n := MIN_LUN_NUMBER to bound
      invariant free == FreeBelow(luns, n) && freeLuns == Texts(free)
    {
      PrintedIsUsed(luns, n);
      if Decimal(n) !in lunsInUse {
        freeLuns := freeLuns + [Decimal(n)];
        free := free + [n];
      }
    }
  }
}
