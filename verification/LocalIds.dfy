/** The carry arithmetic of the local-ID generator, one lane at a time.

    The generator never divides.  A lane holds three digits; adding a step and carrying once per digit
    moves it to the next thread.  The theorems say that this computes quotients and remainders, for
    every radix.
 */
module LocalIds {
  import opened Bits

  /** A work-item ID, or the digits (x, y, z) a lane or a group of lanes holds. */
  datatype Id = Id(x: nat, y: nat, z: nat)

  /** Which of a work-item's three IDs a kernel reads. */
  datatype Channels = Channels(x: bool, y: bool, z: bool)
  {
    function Count(): (n: nat)
      ensures n <= 3
    {
      (if x then 1 else 0) + (if y then 1 else 0) + (if z then 1 else 0)
    }

    /** An ID as the kernel has it: the channels it reads, in order, before the others. */
    function Arrange(d: Id): Id
    {
      if x then (if z && !y then Id(d.x, d.z, d.y) else d)
      else if y then (if z then Id(d.y, d.z, d.x) else Id(d.y, d.x, d.z))
      else if z then Id(d.z, d.x, d.y)
      else d
    }

    function Restore(a: Id): (d: Id)
      ensures Arrange(d) == a && forall e :: Arrange(e) == a ==> e == d
    {
      if x then (if z && !y then Id(a.x, a.z, a.y) else a)
      else if y then (if z then Id(a.z, a.x, a.y) else Id(a.y, a.x, a.z))
      else if z then Id(a.y, a.z, a.x)
      else a
    }
  }

  /** The number a digit triple stands for, with x counting modulo X and y modulo Y. */
  function Value(d: Id, X: nat, Y: nat): nat
  {
    d.x + X * (d.y + Y * d.z)
  }

  /** The ID of the n-th work-item when x runs fastest: (n mod X, n / X mod Y, n / (X * Y)). */
  function IdOf(n: nat, X: nat, Y: nat): Id
    requires X >= 1 && Y >= 1
  {
    Id(n % X, n / X % Y, n / X / Y)
  }

  /** One pass of compare, blend, subtract and add: at most one carry out of each digit. */
  function Carry(d: Id, X: nat, Y: nat): Id
  {
    var xWrap := d.x >= X;
    var y := if xWrap then d.y + 1 else d.y;
    var yWrap := y >= Y;
    Id(if xWrap then d.x - X else d.x, if yWrap then y - Y else y, if yWrap then d.z + 1 else d.z)
  }

  /** The normalisation loop: carry until x no longer wraps. */
  function Normalise(d: Id, X: nat, Y: nat): Id
    requires X >= 1
    decreases d.x
  {
    if d.x >= X then Normalise(Carry(d, X, Y), X, Y) else Carry(d, X, Y)
  }

  function Add(a: Id, b: Id): Id
  {
    Id(a.x + b.x, a.y + b.y, a.z + b.z)
  }

  /** What a lane holds before thread t is stored: it starts at `start` and moves on by `step`. */
  function LaneAt(start: nat, step: nat, t: nat, X: nat, Y: nat): Id
    requires X >= 1
  {
    if t == 0 then Normalise(Id(start, 0, 0), X, Y)
    else Carry(Add(LaneAt(start, step, t - 1, X, Y), Normalise(Id(step, 0, 0), X, Y)), X, Y)
  }

  predicate InRange(d: Id, X: nat, Y: nat) { d.x < X && d.y < Y }

  // ---------- arithmetic of digits ----------

  lemma ValueAdds(a: Id, b: Id, X: nat, Y: nat)
    ensures Value(Add(a, b), X, Y) == Value(a, X, Y) + Value(b, X, Y)
  {
    Distribute(Y, a.z, b.z);
    Distribute(X, a.y + Y * a.z, b.y + Y * b.z);
  }

  /** A carry never changes the number represented. */
  lemma CarryKeepsValue(d: Id, X: nat, Y: nat)
    ensures Value(Carry(d, X, Y), X, Y) == Value(d, X, Y)
  {
    var c := Carry(d, X, Y);
    Distribute(Y, d.z, 1);
    var wraps := if d.x >= X then 1 else 0;
    assert c.y + Y * c.z == d.y + Y * d.z + wraps;
    Distribute(X, d.y + Y * d.z, wraps);
  }

  /** Digits in range are the quotients and remainders of the number they represent. */
  lemma DigitsAreUnique(d: Id, X: nat, Y: nat)
    requires InRange(d, X, Y)
    ensures d == IdOf(Value(d, X, Y), X, Y)
  {
    var n := Value(d, X, Y);
    DivModUnique(n, X, d.y + Y * d.z, d.x);
    DivModUnique(n / X, Y, d.z, d.y);
  }

  // ---------- the generator, for every radix ----------

  /** The first loop of the generator: x strictly decreases while it wraps, a wrap of y implies a wrap of x,
      and the digits it ends with are in range. */
  lemma {:induction false} NormaliseDivides(d: Id, X: nat, Y: nat)
    requires X >= 1 && Y >= 1 && d.y < Y
    ensures d.x >= X ==> Carry(d, X, Y).x < d.x
    ensures d.x < X ==> Carry(d, X, Y) == d
    ensures Normalise(d, X, Y) == IdOf(Value(d, X, Y), X, Y)
    decreases d.x
  {
    if d.x >= X {
      NormaliseDivides(Carry(d, X, Y), X, Y);
      CarryKeepsValue(d, X, Y);
    } else {
      DigitsAreUnique(d, X, Y);
    }
  }

  lemma IdOfInRange(n: nat, X: nat, Y: nat)
    requires X >= 1 && Y >= 1
    ensures InRange(IdOf(n, X, Y), X, Y) && Value(IdOf(n, X, Y), X, Y) == n
  {
    assert n == X * (n / X) + n % X;
    assert n / X == Y * (n / X / Y) + n / X % Y;
  }

  /** Adding two digit triples in range needs only one conditional subtraction per digit. */
  lemma OneCarryIsEnough(a: Id, b: Id, X: nat, Y: nat)
    requires InRange(a, X, Y) && InRange(b, X, Y)
    ensures InRange(Carry(Add(a, b), X, Y), X, Y)
  {
  }

  /** Adding the digits of m and n and carrying once gives the digits of m + n. */
  lemma CarryAddsNumbers(m: nat, n: nat, X: nat, Y: nat)
    requires X >= 1 && Y >= 1
    ensures Carry(Add(IdOf(m, X, Y), IdOf(n, X, Y)), X, Y) == IdOf(m + n, X, Y)
  {
    var a, b := IdOf(m, X, Y), IdOf(n, X, Y);
    IdOfInRange(m, X, Y);
    IdOfInRange(n, X, Y);
    OneCarryIsEnough(a, b, X, Y);
    hide IdOf, Carry, Add, Value;
    ValueAdds(a, b, X, Y);
    CarryKeepsValue(Add(a, b), X, Y);
    DigitsAreUnique(Carry(Add(a, b), X, Y), X, Y);
  }

  lemma NormaliseOfNumber(n: nat, X: nat, Y: nat)
    requires X >= 1 && Y >= 1
    ensures Normalise(Id(n, 0, 0), X, Y) == IdOf(n, X, Y)
  {
    NormaliseDivides(Id(n, 0, 0), X, Y);
  }

  /** Before thread t is stored, the lane holds the ID of work-item start + t * step. */
  lemma {:induction false} LaneHoldsItsWorkItem(start: nat, step: nat, t: nat, X: nat, Y: nat)
    requires X >= 1 && Y >= 1
    ensures LaneAt(start, step, t, X, Y) == IdOf(start + t * step, X, Y)
  {
    hide IdOf, Carry, Add, Normalise;
    if t == 0 {
      NormaliseOfNumber(start, X, Y);
    } else {
      LaneHoldsItsWorkItem(start, step, t - 1, X, Y);
      NormaliseOfNumber(step, X, Y);
      CarryAddsNumbers(start + (t - 1) * step, step, X, Y);
      Distribute(step, t - 1, 1);
    }
  }
}
