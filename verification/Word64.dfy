/** 64-bit words as numbers of seven bits a digit. The solver is asked about one
    shift or one conversion at a time. */
module Word64 {

  import opened Basics

  /** The number that the lowest `n` digits of `x` are, where `low` takes the
      lowest one, with a value, and `down` drops it. */
  function Digits<T>(value: T -> nat, low: T -> T, down: T -> T, x: T, n: nat): nat
    decreases n
  {
    if n == 0 then 0 else value(low(x)) + 0x80 * Digits(value, low, down, down(x), n - 1)
  }

  function Value(digit: bv64): nat {
    digit as nat
  }

  function Low(x: bv64): bv64 {
    x & 0x7F
  }

  function Down(x: bv64): bv64 {
    x >> 7
  }

  function Number(x: bv64, digits: nat): nat {
    Digits(Value, Low, Down, x, digits)
  }

  /** Ten digits are 70 bits, all that a word has. */
  method DigitsOfWord() returns (digits: nat)
    ensures digits >= 10
  {
    digits := 10;
  }

  /** `static_cast<char>` of a byte. */
  method ToChar(b: Byte) returns (c: bv8)
    ensures c as nat == b
  {
    c := AsChar(b);
  }

  /** The char with the value of a byte. */
  function AsChar(b: nat): (c: bv8)
    requires b < 0x100
    ensures c as nat == b
  {
    if b == 0 then 0
    else
      var half := AsChar(b / 2);
      NextBit(half, (half << 1) | (if b % 2 == 1 then 1 else 0), b % 2 == 1);
      (half << 1) | (if b % 2 == 1 then 1 else 0)
  }

  lemma NextBit(half: bv8, c: bv8, odd: bool)
    requires half as nat < 0x80 && c == (half << 1) | (if odd then 1 else 0)
    ensures c as nat == 2 * (half as nat) + (if odd then 1 else 0)
  {
    assert half <= 127;
    NextBitOf(half, c, odd);
  }

  lemma NextBitOf(half: bv8, c: bv8, odd: bool)
    requires half <= 127 && c == (half << 1) | (if odd then 1 else 0)
    ensures c as nat == 2 * (half as nat) + (if odd then 1 else 0)
  {
  }

  // ---------- Digits by shifts ----------

  /** Nothing is set from digit `k` on. */
  ghost predicate Below<T>(down: T -> T, zero: T, x: T, k: nat)
    decreases k
  {
    if k == 0 then x == zero else Below(down, zero, down(x), k - 1)
  }

  /** `z` moved up by `k` digits. */
  ghost function Place<T>(up: T -> T, z: T, k: nat): T
    decreases k
  {
    if k == 0 then z else up(Place(up, z, k - 1))
  }

  /** And nothing of it is lost on the way. */
  ghost predicate NoLoss<T>(up: T -> T, down: T -> T, z: T, k: nat)
    decreases k
  {
    k > 0 ==> NoLoss(up, down, z, k - 1) && down(Place(up, z, k)) == Place(up, z, k - 1)
  }

  /** What shifts and the or have to satisfy. */
  ghost predicate Shifts<T(!new)>(low: T -> T, up: T -> T, down: T -> T, or: (T, T) -> T, zero: T) {
    && low(zero) == zero && down(zero) == zero
    && (forall v, p :: down(up(p)) == p ==> low(or(v, up(p))) == low(v) && down(or(v, up(p))) == or(down(v), p))
  }

  lemma {:induction false} NoDigits<T>(value: T -> nat, low: T -> T, down: T -> T, zero: T, n: nat)
    requires value(zero) == 0 && low(zero) == zero && down(zero) == zero
    ensures Digits(value, low, down, zero, n) == 0
    decreases n
  {
    if n > 0 {
      NoDigits(value, low, down, zero, n - 1);
    }
  }

  /** An or into a digit that is not set, nor any above it, adds to the number and
      sets nothing above. */
  lemma {:induction false} OrAddsDigit<T(!new)>(value: T -> nat, low: T -> T, up: T -> T, down: T -> T, or: (T, T) -> T,
                                                zero: T, z: T, k: nat, v: T, n: nat)
    requires value(zero) == 0 && Shifts(low, up, down, or, zero)
    requires Below(down, zero, v, k) && NoLoss(up, down, z, k) && k < n
    requires low(or(zero, z)) == z && down(or(zero, z)) == zero
    ensures Digits(value, low, down, or(v, Place(up, z, k)), n)
            == Digits(value, low, down, v, n) + Pow(0x80, k) * value(z)
    ensures Below(down, zero, or(v, Place(up, z, k)), k + 1)
    decreases k
  {
    if k == 0 {
      NoDigits(value, low, down, zero, n - 1);
    } else {
      OrAddsDigit(value, low, up, down, or, zero, z, k - 1, down(v), n - 1);
      TimesPow(k, value(z));
    }
  }

  lemma TimesPow(k: nat, d: nat)
    requires k > 0
    ensures 0x80 * (Pow(0x80, k - 1) * d) == Pow(0x80, k) * d
  {
  }

  // ---------- On words ----------

  function Up(x: bv64): bv64 {
    x << 7
  }

  function Or(x: bv64, y: bv64): bv64 {
    x | y
  }

  lemma OrAbove(v: bv64, p: bv64, q: bv64, r: bv64)
    requires q == Up(p) && Down(q) == p && r == Or(v, q)
    ensures Low(r) == Low(v) && Down(r) == Or(Down(v), p)
  {
  }

  lemma LawOfZero()
    ensures Low(0) == 0 && Down(0) == 0
  {
  }

  lemma WordShifts()
    ensures Shifts(Low, Up, Down, Or, 0)
  {
    LawOfZero();
    forall v: bv64, p: bv64 | Down(Up(p)) == p
      ensures Low(Or(v, Up(p))) == Low(v) && Down(Or(v, Up(p))) == Or(Down(v), p)
    {
      OrAbove(v, p, Up(p), Or(v, Up(p)));
    }
  }

  lemma OrOnZero(z: bv64, r: bv64)
    requires z <= 0x7F && r == Or(0, z)
    ensures Low(r) == z && Down(r) == 0
  {
  }

  // ---------- Shifts by multiples of seven ----------

  function Sevens(k: nat): bv64 {
    if k == 0 then 0 else Sevens(k - 1) + 7
  }

  lemma SevensUpTo70(k: nat)
    requires k <= 10
    ensures Sevens(k) < 64 <==> k < 10
    ensures Sevens(k) <= 49 <==> k <= 7
    ensures k == 8 ==> Sevens(k) == 56
    ensures k == 9 ==> Sevens(k) == 63
  {
    assert Sevens(2) == 14;
    assert Sevens(4) == 28;
    assert Sevens(6) == 42;
    assert Sevens(8) == 56;
  }

  lemma ShiftMore(d: bv8, i: bv64, p: bv64, q: bv64)
    requires i <= 49 && p == (d as bv64) << i && q == (d as bv64) << (i + 7)
    ensures q == p << 7
  {
  }

  lemma ShiftFits(d: bv8, i: bv64, p: bv64)
    requires d <= 0x7F && i <= 49 && p == (d as bv64) << i
    ensures p <= 0x00FF_FFFF_FFFF_FFFF
  {
  }

  lemma UpAndDown(p: bv64, q: bv64)
    requires p <= 0x00FF_FFFF_FFFF_FFFF && q == Up(p)
    ensures Down(q) == p
  {
  }

  lemma LastShift(d: bv8, p: bv64, q: bv64)
    requires d <= 1 && p == (d as bv64) << 56 && q == (d as bv64) << 63
    ensures q == Up(p) && Down(q) == p
  {
  }

  lemma EarlyShift(d: bv8, i: bv64, p: bv64, q: bv64)
    requires d <= 0x7F && i <= 49 && p == (d as bv64) << i && q == (d as bv64) << (i + 7)
    ensures q == Up(p) && Down(q) == p
  {
    ShiftMore(d, i, p, q);
    ShiftFits(d, i, p);
    UpAndDown(p, q);
  }

  function Shifted(d: bv8, i: bv64): bv64 {
    if i < 64 then (d as bv64) << i else 0
  }

  lemma ShiftNext(d: bv8, i: bv64)
    requires (d <= 0x7F && i <= 49) || (d <= 1 && i == 56)
    ensures Shifted(d, i + 7) == Up(Shifted(d, i)) && Down(Shifted(d, i + 7)) == Shifted(d, i)
  {
    if i <= 49 {
      EarlyShift(d, i, (d as bv64) << i, (d as bv64) << (i + 7));
    } else {
      LastShift(d, (d as bv64) << 56, (d as bv64) << 63);
    }
  }

  lemma {:induction false} PlacedInSteps(shift: bv64 -> bv64, up: bv64 -> bv64, down: bv64 -> bv64, k: nat)
    requires forall j: nat :: j < k ==>
               var i := Sevens(j);
               shift(i + 7) == up(shift(i)) && down(shift(i + 7)) == shift(i)
    ensures shift(Sevens(k)) == Place(up, shift(0), k) && NoLoss(up, down, shift(0), k)
    decreases k
  {
    if k > 0 {
      PlacedInSteps(shift, up, down, k - 1);
      assert Sevens(k) == Sevens(k - 1) + 7;
    }
  }

  /** Seven bits are moved up to digit `k` without a loss, up to the ninth, and one
      bit to the tenth. */
  lemma ShiftPlaces(d: bv8, k: nat)
    requires (d <= 0x7F && k < 9) || (d <= 1 && k == 9)
    ensures Shifted(d, Sevens(k)) == Place(Up, Shifted(d, 0), k) && NoLoss(Up, Down, Shifted(d, 0), k)
  {
    var shift := (i: bv64) => Shifted(d, i);
    forall j: nat | j < k
      ensures var i := Sevens(j);
              shift(i + 7) == Up(shift(i)) && Down(shift(i + 7)) == shift(i)
    {
      SevensUpTo70(j);
      ShiftNext(d, Sevens(j));
    }
    PlacedInSteps(shift, Up, Down, k);
  }

  /** The seven bits of a char that count, and the one of them that does in the
      tenth place. */
  lemma CharBits(c: bv8, i: bv64, w: bv64, d: bv8)
    requires i < 64 && w == ((c as bv64) & 0x7F) << i && d == c & 0x7F
    ensures w == Shifted(d, i) && d <= 0x7F && d as nat == c as nat % 0x80
  {
  }

  lemma LastBit(c: bv8, w: bv64, d: bv8)
    requires w == ((c as bv64) & 0x7F) << 63 && d == c & 1
    ensures w == Shifted(d, 63) && d <= 1 && d as nat == c as nat % 2
  {
  }

  lemma Unshifted(d: bv8, z: bv64)
    requires d <= 0x7F && z == Shifted(d, 0)
    ensures z <= 0x7F && z as nat == d as nat
  {
  }

  lemma OrOfPlaced(z: bv64, k: nat, v: bv64, w: bv64, r: bv64, digits: nat)
    requires z <= 0x7F && k < digits && Below(Down, 0, v, k)
    requires w == Place(Up, z, k) && NoLoss(Up, Down, z, k) && r == Or(v, w)
    ensures Number(r, digits) == Number(v, digits) + Pow(0x80, k) * Value(z)
    ensures Below(Down, 0, r, k + 1)
  {
    WordShifts();
    OrOnZero(z, Or(0, z));
    OrAddsDigit(Value, Low, Up, Down, Or, 0, z, k, v, digits);
  }

  lemma OrAdds(d: bv8, k: nat, v: bv64, w: bv64, r: bv64, digits: nat)
    requires ((d <= 0x7F && k < 9) || (d <= 1 && k == 9)) && k < digits
    requires Below(Down, 0, v, k) && w == Shifted(d, Sevens(k)) && r == Or(v, w)
    ensures Number(r, digits) == Number(v, digits) + Pow(0x80, k) * (d as nat) && Below(Down, 0, r, k + 1)
  {
    var z := Shifted(d, 0);
    ShiftPlaces(d, k);
    Unshifted(d, z);
    OrOfPlaced(z, k, v, w, r, digits);
  }

  /** Or-ing seven bits in at digit `k`, where nothing is set from there on, adds
      them to the number; of the tenth digit only the lowest bit fits. */
  lemma OrShiftedAdds(c: bv8, k: nat, i: bv64, v: bv64, r: bv64, digits: nat)
    requires k < 10 <= digits && i == Sevens(k) && i < 64 && Below(Down, 0, v, k)
    requires r == v | (((c as bv64) & 0x7F) << i)
    ensures Number(r, digits) == Number(v, digits) + Pow(0x80, k) * (c as nat % (if k < 9 then 0x80 else 2))
    ensures Below(Down, 0, r, k + 1)
  {
    var w := ((c as bv64) & 0x7F) << i;
    if k < 9 {
      CharBits(c, i, w, c & 0x7F);
      OrAdds(c & 0x7F, k, v, w, r, digits);
    } else {
      SevensUpTo70(k);
      LastBit(c, w, c & 1);
      OrAdds(c & 1, k, v, w, r, digits);
    }
  }
}
