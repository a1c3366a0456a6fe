/** The bitwise operators of C on non-negative numbers, and their arithmetic on bit fields. */
module BitOperators {
  import opened Powers
  import opened BitFields

  function And(a: nat, b: nat): nat {
    if a == 0 || b == 0 then 0
    else 2 * And(a / 2, b / 2) + (if a % 2 == 1 && b % 2 == 1 then 1 else 0)
  }

  function Or(a: nat, b: nat): nat
    decreases a + b
  {
    if a == 0 && b == 0 then 0
    else 2 * Or(a / 2, b / 2) + (if a % 2 == 1 || b % 2 == 1 then 1 else 0)
  }

  function Shl(a: nat, k: nat): nat { if k == 0 then a else 2 * Shl(a, k - 1) }
  function Shr(a: nat, k: nat): nat { if k == 0 then a else Shr(a / 2, k - 1) }

  /** The k lowest bits. */
  function Low(a: nat, k: nat): nat { if k == 0 then 0 else 2 * Low(a / 2, k - 1) + a % 2 }

  function Mask(n: nat): nat { Pow2(n) - 1 }

  /** The complement in w bits. */
  function Not(w: nat, a: nat): nat
    requires a < Pow2(w)
  {
    Pow2(w) - 1 - a
  }

  lemma {:induction false} ShlMeans(a: nat, k: nat)
    ensures Shl(a, k) == a * Pow2(k)
  {
    if k > 0 {
      ShlMeans(a, k - 1);
      Associate(a, 2, Pow2(k - 1));
    }
  }

  lemma {:induction false} ShrMeans(a: nat, k: nat)
    ensures Shr(a, k) == a / Pow2(k)
  {
    if k > 0 {
      ShrMeans(a / 2, k - 1);
      CutTwice(a, 2, Pow2(k - 1));
    }
  }

  lemma {:induction false} LowMeans(a: nat, k: nat)
    ensures Low(a, k) == a % Pow2(k)
  {
    if k > 0 {
      LowMeans(a / 2, k - 1);
      CutTwice(a, 2, Pow2(k - 1));
    }
  }

  // ---------- The operators bit by bit ----------

  function Bit(a: nat, k: nat): nat { a / Pow2(k) % 2 }

  lemma {:induction false} ShrEach(a: nat, b: nat, k: nat)
    ensures Shr(And(a, b), k) == And(Shr(a, k), Shr(b, k))
    ensures Shr(Or(a, b), k) == Or(Shr(a, k), Shr(b, k))
  {
    if k > 0 {
      ShrEach(a / 2, b / 2, k - 1);
      assert And(a, b) / 2 == And(a / 2, b / 2) && Or(a, b) / 2 == Or(a / 2, b / 2);
    }
  }

  lemma LastBits(a: nat, b: nat)
    ensures And(a, b) % 2 == 1 <==> a % 2 == 1 && b % 2 == 1
    ensures Or(a, b) % 2 == 1 <==> a % 2 == 1 || b % 2 == 1
  {
  }

  /** A bit is set in the conjunction if it is in both numbers, in the disjunction if it is in one or both. */
  lemma BitsOf(a: nat, b: nat, k: nat)
    ensures Bit(And(a, b), k) == 1 <==> Bit(a, k) == 1 && Bit(b, k) == 1
    ensures Bit(Or(a, b), k) == 1 <==> Bit(a, k) == 1 || Bit(b, k) == 1
  {
    hide And, Or, Shr, Pow2;
    ShrEach(a, b, k);
    ShrMeans(a, k);
    ShrMeans(b, k);
    ShrMeans(And(a, b), k);
    ShrMeans(Or(a, b), k);
    LastBits(Shr(a, k), Shr(b, k));
  }

  // ---------- Arithmetic of the operators ----------

  lemma {:induction false} OrZero(a: nat)
    ensures Or(a, 0) == a && Or(0, a) == a
  {
    if a > 0 {
      OrZero(a / 2);
    }
  }

  lemma {:induction false} Pieces(a: nat, k: nat)
    ensures a == Shl(Shr(a, k), k) + Low(a, k) && Low(a, k) < Pow2(k)
  {
    if k > 0 {
      Pieces(a / 2, k - 1);
    }
  }

  lemma {:induction false} ShlZero(k: nat)
    ensures Shl(0, k) == 0
  {
    if k > 0 {
      ShlZero(k - 1);
    }
  }

  lemma {:induction false} ShlAdd(a: nat, b: nat, k: nat)
    ensures Shl(a + b, k) == Shl(a, k) + Shl(b, k)
  {
    if k > 0 {
      ShlAdd(a, b, k - 1);
    }
  }

  /** The operators and shifts, one bit at a time. */
  lemma AndStep(a: nat, b: nat)
    ensures And(a, b) == 2 * And(a / 2, b / 2) + (if a % 2 == 1 && b % 2 == 1 then 1 else 0)
  {
  }

  lemma ShiftStep(x: nat, a: nat, k: nat)
    requires k > 0
    ensures Shl(x, k) == 2 * Shl(x, k - 1)
    ensures (Shl(x, k) + a) / 2 == Shl(x, k - 1) + a / 2 && (Shl(x, k) + a) % 2 == a % 2
    ensures Low(a, k) == 2 * Low(a / 2, k - 1) + a % 2 && Pow2(k) == 2 * Pow2(k - 1)
  {
  }

  /** Both operators work on the upper and on the lower bits separately. */
  lemma {:induction false} AndByParts(x: nat, y: nat, a: nat, b: nat, k: nat)
    requires a < Pow2(k) && b < Pow2(k)
    ensures And(Shl(x, k) + a, Shl(y, k) + b) == Shl(And(x, y), k) + And(a, b)
  {
    if k > 0 {
      AndByParts(x, y, a / 2, b / 2, k - 1);
      AndOneMore(x, y, a, b, k);
    }
  }

  lemma AndOneMore(x: nat, y: nat, a: nat, b: nat, k: nat)
    requires k > 0
    requires And(Shl(x, k - 1) + a / 2, Shl(y, k - 1) + b / 2) == Shl(And(x, y), k - 1) + And(a / 2, b / 2)
    ensures And(Shl(x, k) + a, Shl(y, k) + b) == Shl(And(x, y), k) + And(a, b)
  {
    hide And, Shl, Low, Pow2;
    ShiftStep(x, a, k);
    ShiftStep(y, b, k);
    ShiftStep(And(x, y), 0, k);
    AndStep(Shl(x, k) + a, Shl(y, k) + b);
    AndStep(a, b);
  }

  lemma {:induction false} OrByParts(x: nat, y: nat, a: nat, b: nat, k: nat)
    requires a < Pow2(k) && b < Pow2(k)
    ensures Or(Shl(x, k) + a, Shl(y, k) + b) == Shl(Or(x, y), k) + Or(a, b)
    ensures Or(a, b) < Pow2(k)
  {
    if k > 0 {
      OrByParts(x, y, a / 2, b / 2, k - 1);
    }
  }

  lemma {:induction false} LowOfParts(x: nat, a: nat, k: nat)
    requires a < Pow2(k)
    ensures Low(Shl(x, k) + a, k) == a && Shr(Shl(x, k) + a, k) == x
  {
    if k > 0 {
      LowOfParts(x, a / 2, k - 1);
    }
  }

  lemma {:induction false} LowLow(a: nat, j: nat, k: nat)
    requires j <= k
    ensures Low(Low(a, k), j) == Low(a, j)
  {
    if j > 0 {
      LowLow(a / 2, j - 1, k - 1);
    }
  }

  lemma {:induction false} LowShl(a: nat, s: nat, k: nat)
    ensures Low(Shl(a, s), s + k) == Shl(Low(a, k), s)
  {
    if s > 0 {
      hide Shl, Low;
      ShiftStep(a, 0, s);
      ShiftStep(Low(a, k), 0, s);
      ShiftStep(0, Shl(a, s), s + k);
      LowShl(a, s - 1, k);
    }
  }

  lemma {:induction false} LowSum(a: nat, n: nat, k: nat)
    ensures Low(a, n + k) == Shl(Low(Shr(a, n), k), n) + Low(a, n)
  {
    if n > 0 {
      LowSum(a / 2, n - 1, k);
    }
  }

  /** A mask keeps the low bits. */
  lemma {:induction false} AndMask(a: nat, n: nat)
    ensures And(a, Mask(n)) == Low(a, n)
  {
    if n > 0 {
      AndMask(a / 2, n - 1);
    }
  }

  lemma {:induction false} AndNot(a: nat, m: nat, w: nat)
    requires a < Pow2(w) && m < Pow2(w)
    ensures And(a, m) <= a && And(a, Not(w, m)) == a - And(a, m)
  {
    if w > 0 {
      AndNot(a / 2, m / 2, w - 1);
    }
  }

  /** Bits put where only zeros were. */
  lemma OrBelow(a: nat, k: nat, b: nat)
    requires b < Pow2(k)
    ensures Or(Shl(a, k), b) == Shl(a, k) + b
  {
    OrByParts(a, 0, 0, b, k);
    ShlZero(k);
    OrZero(a);
    OrZero(b);
  }

  /** The number with value written to a field; what does not fit runs into the free bits above it. */
  function Written(number: nat, k: nat, n: nat, free: nat, value: nat): nat {
    var v0, v1 := value % Pow2(n), value / Pow2(n) % Pow2(free);
    WithFieldParts(number, k, n, v0);
    OrField(number, k + n, free, v1);
    Frame(number, k, n, v0, k + n, free);
    var once := WithField(number, k, n, v0);
    WithFieldParts(once, k + n, free, Or(Field(number, k + n, free), v1));
    WithField(once, k + n, free, Or(Field(number, k + n, free), v1))
  }

  lemma OrField(number: nat, k: nat, n: nat, v: nat)
    requires v < Pow2(n)
    ensures Or(Field(number, k, n), v) < Pow2(n)
  {
    OrByParts(0, 0, Field(number, k, n), v, n);
  }

  /**
   When nothing but the field is written: exactly if the bits that do not fit are set already in the
   bits above the field.
   */
  lemma SpillExact(number: nat, k: nat, n: nat, free: nat, value: nat)
    ensures var above, v1 := Field(number, k + n, free), value / Pow2(n) % Pow2(free);
            Written(number, k, n, free, value) == WithField(number, k, n, value % Pow2(n)) <==> Or(above, v1) == above
  {
    hide Or, Field, Pow2;
    var above, v1, v0 := Field(number, k + n, free), value / Pow2(n) % Pow2(free), value % Pow2(n);
    Frame(number, k, n, v0, k + n, free);
    SameProduct(above, Or(above, v1), Pow2(k + n));
  }

  lemma SameProduct(x: int, y: int, p: int)
    requires p > 0
    ensures x * p == y * p <==> x == y
  {
  }

  /** Whatever is in the buffer, nothing but the field is written: exactly if no bit runs over. */
  lemma SpillNever(k: nat, n: nat, free: nat, value: nat)
    ensures value / Pow2(n) % Pow2(free) == 0 <==>
            forall number: nat :: Written(number, k, n, free, value) == WithField(number, k, n, value % Pow2(n))
  {
    var v1 := value / Pow2(n) % Pow2(free);
    if v1 == 0 {
      forall number: nat ensures Written(number, k, n, free, value) == WithField(number, k, n, value % Pow2(n)) {
        SpillExact(number, k, n, free, value);
        OrZero(Field(number, k + n, free));
      }
    } else {
      SpillExact(0, k, n, free, value);
      Quotient(0, Pow2(k + n), 0, 0);
      Quotient(0, Pow2(free), 0, 0);
      OrZero(v1);
    }
  }

  /** Whatever the value, its low bits are read back, and nothing beyond the free bits changes. */
  lemma WrittenReadBack(number: nat, k: nat, n: nat, free: nat, value: nat, k': nat, n': nat)
    ensures Field(Written(number, k, n, free, value), k, n) == value % Pow2(n)
    ensures Apart(k, n + free, k', n') ==> Field(Written(number, k, n, free, value), k', n') == Field(number, k', n')
  {
    hide Or, Field, Pow2, WithField;
    var v0, v1 := value % Pow2(n), value / Pow2(n) % Pow2(free);
    var once, o := WithField(number, k, n, v0), Or(Field(number, k + n, free), v1);
    RoundTrip(number, k, n, v0);
    OrField(number, k + n, free, v1);
    Frame(once, k + n, free, o, k, n);
    if Apart(k, n + free, k', n') {
      Frame(number, k, n, v0, k', n');
      Frame(once, k + n, free, o, k', n');
    }
  }

  lemma NoRoomToSpill(number: nat, k: nat, n: nat, value: nat)
    ensures Written(number, k, n, 0, value) == WithField(number, k, n, value % Pow2(n))
  {
    Quotient(value / Pow2(n), 1, value / Pow2(n), 0);
    SpillNever(k, n, 0, value);
  }

  /** A field of a byte cleared by masking with a complement of 64 bits. */
  function Cleared(b: nat, s: nat, n: nat): nat
    requires b < 256 && s + n <= 8
  {
    MaskFits(s, n);
    And(b, Not(64, Shl(Mask(n), s)))
  }

  lemma MaskFits(s: nat, n: nat)
    requires s + n <= 8
    ensures Shl(Mask(n), s) < 256 < Pow2(64) && Mask(n) < Pow2(64)
  {
    EightBits();
    Pow2Grows(9, 64);
    Pow2Grows(n, 8);
    ShlMeans(Mask(n), s);
    Pow2Sum(n, s);
    Pow2Grows(n + s, 8);
    Distribute(Pow2(n), 1, Pow2(s));
  }

  lemma ClearedMeans(b: nat, s: nat, n: nat)
    requires b < 256 && s + n <= 8
    ensures Cleared(b, s, n) == Shl(Shl(Shr(Shr(b, s), n), n), s) + Low(b, s) <= b
  {
    hide Shl, Shr, Low, Or, Pow2;
    var upper, f, low := Shr(b, s), Low(Shr(b, s), n), Low(b, s);
    MaskFits(s, n);
    Pieces(b, s);
    AndByParts(upper, Mask(n), low, 0, s);
    AndMask(upper, n);
    assert And(b, Shl(Mask(n), s)) == Shl(f, s);
    AndNot(b, Shl(Mask(n), s), 64);
    Pieces(upper, n);
    ShlAdd(Shl(Shr(upper, n), n), f, s);
  }

  /** What is left of a field, shifted into its place, once the byte is cut to 8 bits. */
  function Poked(b: nat, s: nat, n: nat, value: nat): nat
    requires b < 256 && s + n <= 8
  {
    Low(Or(Cleared(b, s, n), Low(Shl(value, s), 64)), 8)
  }

  lemma ShiftedValue(s: nat, n: nat, value: nat)
    requires s + n <= 8
    ensures Low(Low(Shl(value, s), 64), 8) == Shl(Shl(Low(Shr(value, n), 8 - s - n), n) + Low(value, n), s)
  {
    LowLow(Shl(value, s), 8, 64);
    LowShl(value, s, 8 - s);
    LowSum(value, n, 8 - s - n);
  }

  lemma PokedMeans(b: nat, s: nat, n: nat, value: nat)
    requires b < 256 && s + n <= 8
    ensures var h, v1, v0 := Shr(Shr(b, s), n), Low(Shr(value, n), 8 - s - n), Low(value, n);
            Poked(b, s, n, value) == Shl(Shl(Or(h, v1), n) + v0, s) + Low(b, s)
  {
    hide Shl, Shr, Low, Or, And, Pow2;
    var h, v1, v0, low := Shr(Shr(b, s), n), Low(Shr(value, n), 8 - s - n), Low(value, n), Low(b, s);
    var x := Low(Shl(value, s), 64);
    assert low < Pow2(s) && v0 < Pow2(n) by {
      Pieces(b, s);
      Pieces(value, n);
    }
    assert Cleared(b, s, n) == Shl(Shl(h, n), s) + low <= b by { ClearedMeans(b, s, n); }
    assert Low(x, 8) == Shl(Shl(v1, n) + v0, s) by { ShiftedValue(s, n, value); }
    JoinedMeans(Cleared(b, s, n), x, h, v1, v0, low, s, n);
  }

  lemma JoinedMeans(c: nat, x: nat, h: nat, v1: nat, v0: nat, low: nat, s: nat, n: nat)
    requires v0 < Pow2(n) && low < Pow2(s) && c < 256
    requires c == Shl(Shl(h, n), s) + low && Low(x, 8) == Shl(Shl(v1, n) + v0, s)
    ensures Low(Or(c, x), 8) == Shl(Shl(Or(h, v1), n) + v0, s) + low
  {
    CutToByte(c, x);
    OrThreeParts(h, v1, v0, low, s, n);
  }

  lemma OrThreeParts(h: nat, v1: nat, v0: nat, low: nat, s: nat, n: nat)
    requires v0 < Pow2(n) && low < Pow2(s)
    ensures Or(Shl(Shl(h, n), s) + low, Shl(Shl(v1, n) + v0, s)) == Shl(Shl(Or(h, v1), n) + v0, s) + low
  {
    OrByParts(Shl(h, n), Shl(v1, n) + v0, low, 0, s);
    OrByParts(h, v1, 0, v0, n);
    OrZero(low);
    OrZero(v0);
  }

  lemma CutToByte(c: nat, x: nat)
    requires c < 256
    ensures Low(Or(c, x), 8) == Or(c, Low(x, 8))
  {
    EightBits();
    Pieces(x, 8);
    OrByParts(0, Shr(x, 8), c, Low(x, 8), 8);
    LowOfParts(Or(0, Shr(x, 8)), Or(c, Low(x, 8)), 8);
    ShlZero(8);
  }

  lemma FieldMeans(number: nat, k: nat, n: nat)
    ensures Field(number, k, n) == Low(Shr(number, k), n)
  {
    ShrMeans(number, k);
    LowMeans(Shr(number, k), n);
  }

  lemma WithFieldMeans(number: nat, k: nat, n: nat, v: nat)
    requires v < Pow2(n)
    ensures WithField(number, k, n, v) == Shl(Shl(Shr(Shr(number, k), n), n) + v, k) + Low(number, k)
  {
    var h := Shr(Shr(number, k), n);
    ShrMeans(number, k);
    ShrMeans(Shr(number, k), n);
    LowMeans(number, k);
    ShlMeans(h, n);
    ShlMeans(Shl(h, n) + v, k);
    WithFieldParts(number, k, n, v);
  }

  lemma {:induction false} ShrSum(a: nat, s: nat, n: nat)
    ensures Shr(a, s + n) == Shr(Shr(a, s), n)
  {
    if s > 0 {
      ShrSum(a / 2, s - 1, n);
    }
  }

  lemma {:induction false} ShlSum(a: nat, s: nat, n: nat)
    ensures Shl(a, s + n) == Shl(Shl(a, n), s)
  {
    if s > 0 {
      ShlSum(a, s - 1, n);
    }
  }

  /** Replacing what lies above the two lower parts. */
  lemma UpperReplaced(h: nat, v0: nat, low: nat, s: nat, n: nat, free: nat, o: nat)
    requires v0 < Pow2(n) && low < Pow2(s) && h < Pow2(free) && o < Pow2(free)
    ensures WithField(Shl(Shl(h, n) + v0, s) + low, s + n, free, o) == Shl(Shl(o, n) + v0, s) + low
  {
    var once := Shl(Shl(h, n) + v0, s) + low;
    WithFieldMeans(once, s + n, free, o);
    LowOfParts(Shl(h, n) + v0, low, s);
    LowOfParts(h, v0, n);
    ShrSum(once, s, n);
    LowSum(once, s, n);
    LowOfParts(0, h, free);
    ShlZero(free);
    ShlSum(o, s, n);
    ShlAdd(Shl(o, n), v0, s);
  }

  /** The byte as the code computes it is the byte with the value written. */
  lemma PokedWritten(b: nat, s: nat, n: nat, value: nat)
    requires b < 256 && s + n <= 8
    ensures Poked(b, s, n, value) == Written(b, s, n, 8 - s - n, value)
  {
    PokedMeans(b, s, n, value);
    WrittenMeans(b, s, n, value);
  }

  lemma WrittenMeans(b: nat, s: nat, n: nat, value: nat)
    requires b < 256 && s + n <= 8
    ensures var h, v1, v0 := Shr(Shr(b, s), n), Low(Shr(value, n), 8 - s - n), Low(value, n);
            Written(b, s, n, 8 - s - n, value) == Shl(Shl(Or(h, v1), n) + v0, s) + Low(b, s)
  {
    hide Shl, Shr, Low, Or, And, Pow2;
    var free := 8 - s - n;
    var h, v1, v0 := Shr(Shr(b, s), n), Low(Shr(value, n), free), Low(value, n);
    assert v0 == value % Pow2(n) by { LowMeans(value, n); }
    assert v1 == value / Pow2(n) % Pow2(free) by { FieldMeans(value, n, free); }
    assert h == Field(b, s + n, free) by { TopField(b, s, n); }
    assert Low(b, s) < Pow2(s) by { Pieces(b, s); }
    var once := WithField(b, s, n, v0);
    assert once == Shl(Shl(h, n) + v0, s) + Low(b, s) by { WithFieldMeans(b, s, n, v0); }
    assert Or(h, v1) < Pow2(free) by { OrField(b, s + n, free, v1); }
    UpperReplaced(h, v0, Low(b, s), s, n, free, Or(h, v1));
  }

  /** The rest of a byte above a field, as a field. */
  lemma TopField(b: nat, s: nat, n: nat)
    requires b < 256 && s + n <= 8
    ensures Shr(Shr(b, s), n) == Field(b, s + n, 8 - s - n) < Pow2(8 - s - n)
  {
    EightBits();
    ShrSum(b, s, n);
    ShrMeans(b, s + n);
    Pow2Sum(s + n, 8 - s - n);
    QuotientBound(b, Pow2(s + n), Pow2(8 - s - n));
  }

  lemma LowSmall(a: nat, k: nat)
    requires a < Pow2(k)
    ensures Low(a, k) == a
  {
    LowOfParts(0, a, k);
    ShlZero(k);
  }

  lemma SmallValue(value: nat, n: nat, free: nat)
    requires value < Pow2(n)
    ensures value % Pow2(n) == value && value / Pow2(n) % Pow2(free) == 0
  {
    Quotient(value, Pow2(n), 0, value);
    Quotient(0, Pow2(free), 0, 0);
  }

  lemma FittingValue(number: nat, k: nat, n: nat, free: nat, value: nat)
    ensures value < Pow2(n) ==> Written(number, k, n, free, value) == WithField(number, k, n, value)
  {
    if value < Pow2(n) {
      SmallValue(value, n, free);
      SpillNever(k, n, free, value);
    }
  }

  /** A value that fits goes into the byte alone. */
  lemma FittingByte(b: nat, s: nat, n: nat, v: nat)
    requires b < 256 && s + n <= 8 && v < Pow2(n)
    ensures Poked(b, s, n, v) == WithField(b, s, n, v) == Written(b, s, n, 8 - s - n, v) < 256
  {
    hide Or, Field, Pow2, Cleared, Written;
    PokedWritten(b, s, n, v);
    SmallValue(v, n, 8 - s - n);
    SpillNever(s, n, 8 - s - n, v);
    EightBits();
    Pieces(Or(Cleared(b, s, n), Low(Shl(v, s), 64)), 8);
  }

  /** Writing into a byte of a buffer writes into the number, with what runs over. */
  lemma ByteSpilled(s: seq<byte>, i: nat, r: nat, n: nat, value: nat, b: byte)
    requires i < |s| && r + n <= 8 && b as int == Written(s[i] as int, r, n, 8 - r - n, value)
    ensures Num(s[i := b]) == Written(Num(s), Below(s, i) + r, n, 8 - r - n, value)
  {
    hide Or, Field, Pow2, Cleared, Num, Below;
    var free := 8 - r - n;
    var v0, v1 := value % Pow2(n), value / Pow2(n) % Pow2(free);
    FittingByte(s[i] as int, r, n, v0);
    var once := WithField(s[i] as int, r, n, v0) as byte;
    ByteWritten(s, i, r, n, v0, once);
    ByteField(s, i, r + n, free);
    ByteWritten(s[i := once], i, r + n, free, Or(Field(s[i] as int, r + n, free), v1), b);
    assert s[i := once][i := b] == s[i := b];
    SameBelow(s, i, once);
  }

  lemma SameBelow(s: seq<byte>, i: nat, b: byte)
    requires i < |s|
    ensures Below(s[i := b], i) == Below(s, i)
  {
  }
}
