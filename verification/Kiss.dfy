/** The random numbers of game/src/rnd.c: a linear congruential generator, an xorshift and a
    multiply-with-carry, added up.  One step is a permutation of the states, with an explicit
    inverse, so that no two states of any run ever merge. */
module Kiss {

  const TWO_32 := 0x1_0000_0000
  const TWO_64 := 0x1_0000_0000_0000_0000
  const A := 698769069

  type U32 = x: int | 0 <= x < TWO_32

  datatype State = State(x: U32, y: bv32, z: U32, c: U32)

  /** The states that the seeds are among and that every run stays in. */
  predicate Valid(s: State) { s.c < A && s.y != 0 }

  // ---- the three parts

  function Lcg(x: U32): U32 { (69069 * x + 12345) % 0x1_0000_0000 }

  function Left13(y: bv32): bv32 { y ^ (y << 13) }

  function Right17(y: bv32): bv32 { y ^ (y >> 17) }

  function Left5(y: bv32): bv32 { y ^ (y << 5) }

  /** The 64-bit product and carry; unbounded here, and MwcFits shows it needs no more. */
  function T(s: State): int { A * s.z + s.c }

  function Step(s: State): State
    requires s.c < A
  {
    assert 0 <= T(s) / 0x1_0000_0000 < A by { MwcFits(s); }
    State(Lcg(s.x), Left5(Right17(Left13(s.y))), T(s) % 0x1_0000_0000, T(s) / 0x1_0000_0000)
  }

  /** What UKISS returns from the state it leaves. */
  function Output(s: State): U32 { (s.x + Number(s.y) + s.z) % 0x1_0000_0000 }

  function Number(y: bv32): U32 { y as int }

  /** A*z + c never overflows 64 bits, and the new carry is below A again. */
  lemma MwcFits(s: State)
    requires s.c < A
    ensures 0 <= T(s) < A * TWO_32 < TWO_64 && T(s) / 0x1_0000_0000 < A
  {
  }

  /** Each of the three parts shows in the output: states that differ in one of them, and in it
      alone, give different numbers.  The carry does not show. */
  lemma OutputShows(s: State, t: State)
    requires (s.x == t.x && s.z == t.z) || (s.x == t.x && s.y == t.y) || (s.y == t.y && s.z == t.z)
    ensures Output(s) == Output(t) <==> s.x == t.x && s.y == t.y && s.z == t.z
  {
    hide Number;
    SumShows(s.x, Number(s.y), s.z, t.x, Number(t.y), t.z);
    if Number(s.y) == Number(t.y) { SameBits(s.y, t.y); }
  }

  lemma SumShows(x: U32, y: U32, z: U32, x2: U32, y2: U32, z2: U32)
    requires (x == x2 && z == z2) || (x == x2 && y == y2) || (y == y2 && z == z2)
    ensures (x + y + z) % 0x1_0000_0000 == (x2 + y2 + z2) % 0x1_0000_0000 <==> x == x2 && y == y2 && z == z2
  {
  }

  lemma SameBits(u: bv32, v: bv32)
    requires Number(u) == Number(v)
    ensures u == v
  {
    assert Number(u) as bv32 == u;
  }

  // ---- the first numbers

  /** The seeds of the file. */
  const SEED := State(123456789, 362436000, 521288629, 7654321)

  /** The first number from these seeds, with the state that it leaves. */
  lemma FirstNumber()
    ensures Valid(SEED) && Step(SEED) == State(1526889226, 3135323351, 1712429826, 84810976)
    ensures Output(Step(SEED)) == 2079675107
  {
    FirstShifts();
  }

  lemma FirstShifts()
    ensures Left5(Right17(Left13(362436000))) == 3135323351
  {
  }

  // ---- the inverse

  const INVERSE := 2783094533      // of 69069, modulo 2^32

  function UnLcg(x: U32): U32 { (INVERSE * (x - 12345)) % 0x1_0000_0000 }

  function UnLeft13(w: bv32): bv32 { w ^ (w << 13) ^ (w << 26) }

  function UnRight17(w: bv32): bv32 { w ^ (w >> 17) }

  function UnLeft5(w: bv32): bv32 { w ^ (w << 5) ^ (w << 10) ^ (w << 15) ^ (w << 20) ^ (w << 25) ^ (w << 30) }

  /** z and c are quotient and remainder of the product by A. */
  function UnStep(s: State): State
    requires s.c < A
  {
    var t := s.c * 0x1_0000_0000 + s.z;
    assert 0 <= t / A < TWO_32 && 0 <= t % A < A by { Quotient(s.c, s.z); }
    State(UnLcg(s.x), UnLeft13(UnRight17(UnLeft5(s.y))), t / A, t % A)
  }

  lemma Quotient(c: U32, z: U32)
    requires c < A
    ensures 0 <= (c * 0x1_0000_0000 + z) / A < TWO_32 && 0 <= (c * 0x1_0000_0000 + z) % A < A
  {
    assert c * 0x1_0000_0000 + z < 698769069 * 0x1_0000_0000;
    assert (c * 0x1_0000_0000 + z) / 698769069 < 0x1_0000_0000;
  }

  lemma ModUnique(a: int, k: int, r: U32)
    requires a == r + k * 0x1_0000_0000
    ensures a % 0x1_0000_0000 == r
  {
  }

  lemma LcgBack(x: U32)
    ensures UnLcg(Lcg(x)) == x
  {
    var q := (69069 * x + 12345) / 0x1_0000_0000;
    var k := (69069 * INVERSE) / 0x1_0000_0000;
    assert 69069 * INVERSE == 1 + k * 0x1_0000_0000;
    assert Lcg(x) == 69069 * x + 12345 - q * 0x1_0000_0000;
    ModUnique(INVERSE * (Lcg(x) - 12345), k * x - INVERSE * q, x);
  }

  lemma LcgForth(x: U32)
    ensures Lcg(UnLcg(x)) == x
  {
    var u := INVERSE * (x - 12345);
    var q := u / 0x1_0000_0000;
    var k := (69069 * INVERSE) / 0x1_0000_0000;
    assert 69069 * INVERSE == 1 + k * 0x1_0000_0000;
    assert UnLcg(x) == u - q * 0x1_0000_0000;
    ModUnique(69069 * UnLcg(x) + 12345, k * (x - 12345) - 69069 * q, x);
  }

  lemma ShiftsBack(y: bv32)
    ensures UnLeft13(UnRight17(UnLeft5(Left5(Right17(Left13(y)))))) == y
  {
    hide Left13, Right17, Left5, UnLeft13, UnRight17, UnLeft5;
    Left5Back(Right17(Left13(y)));
    Right17Back(Left13(y));
    Left13Back(y);
  }

  lemma ShiftsForth(y: bv32)
    ensures Left5(Right17(Left13(UnLeft13(UnRight17(UnLeft5(y)))))) == y
  {
    hide Left13, Right17, Left5, UnLeft13, UnRight17, UnLeft5;
    Left13Back(UnRight17(UnLeft5(y)));
    Right17Back(UnLeft5(y));
    Left5Back(y);
  }

  // The bit-vector facts, one direction each, on bare terms.

  lemma Left13Is(v: bv32)
    ensures Left13(v) == v ^ (v << 13) && UnLeft13(v) == v ^ (v << 13) ^ (v << 26)
  {
  }

  lemma Left13Undone(y: bv32, v: bv32)
    requires v == y ^ (y << 13)
    ensures UnLeft13(v) == y
  {
  }

  lemma Left13Redone(y: bv32, v: bv32)
    requires v == y ^ (y << 13) ^ (y << 26)
    ensures Left13(v) == y
  {
  }

  lemma Left13Back(y: bv32)
    ensures UnLeft13(Left13(y)) == y && Left13(UnLeft13(y)) == y
  {
    hide Left13, UnLeft13;
    Left13Is(y);
    Left13Undone(y, Left13(y));
    Left13Redone(y, UnLeft13(y));
  }

  lemma Right17Is(v: bv32)
    ensures Right17(v) == v ^ (v >> 17) && UnRight17(v) == v ^ (v >> 17)
  {
  }

  lemma Right17Undone(y: bv32, v: bv32)
    requires v == y ^ (y >> 17)
    ensures UnRight17(v) == y
  {
  }

  lemma Right17Redone(y: bv32, v: bv32)
    requires v == y ^ (y >> 17)
    ensures Right17(v) == y
  {
  }

  lemma Right17Back(y: bv32)
    ensures UnRight17(Right17(y)) == y && Right17(UnRight17(y)) == y
  {
    hide Right17, UnRight17;
    Right17Is(y);
    Right17Undone(y, Right17(y));
    Right17Redone(y, UnRight17(y));
  }

  lemma Left5Is(v: bv32)
    ensures Left5(v) == v ^ (v << 5) && UnLeft5(v) == v ^ (v << 5) ^ (v << 10) ^ (v << 15) ^ (v << 20) ^ (v << 25) ^ (v << 30)
  {
  }

  lemma Left5Undone(y: bv32, v: bv32)
    requires v == y ^ (y << 5)
    ensures UnLeft5(v) == y
  {
  }

  lemma Left5Redone(y: bv32, v: bv32)
    requires v == y ^ (y << 5) ^ (y << 10) ^ (y << 15) ^ (y << 20) ^ (y << 25) ^ (y << 30)
    ensures Left5(v) == y
  {
  }

  lemma Left5Back(y: bv32)
    ensures UnLeft5(Left5(y)) == y && Left5(UnLeft5(y)) == y
  {
    hide Left5, UnLeft5;
    Left5Is(y);
    Left5Undone(y, Left5(y));
    Left5Redone(y, UnLeft5(y));
  }

  // ---- one step and whole runs

  lemma MwcBack(s: State)
    requires s.c < A
    ensures T(s) / 698769069 == s.z && T(s) % 698769069 == s.c
  {
  }

  /** A step keeps the carry below A and y away from zero. */
  lemma StepKeeps(s: State)
    requires Valid(s)
    ensures Valid(Step(s))
  {
    hide Left13, Right17, Left5, UnLeft13, UnRight17, UnLeft5, Lcg;
    MwcFits(s);
    ShiftsBack(s.y);
    ZeroFixed();
  }

  lemma ZeroFixed()
    ensures UnLeft13(UnRight17(UnLeft5(0))) == 0 && Left5(Right17(Left13(0))) == 0
  {
  }

  /** Going back after a step. */
  lemma StepBack(s: State)
    requires s.c < A
    ensures Step(s).c < A && UnStep(Step(s)) == s
  {
    hide Left13, Right17, Left5, UnLeft13, UnRight17, UnLeft5, Lcg, UnLcg;
    MwcFits(s);
    LcgBack(s.x);
    ShiftsBack(s.y);
    MwcBack(s);
    var t := T(s);
    assert t / 0x1_0000_0000 * 0x1_0000_0000 + t % 0x1_0000_0000 == t;
  }

  /** And forth again: every valid state is the successor of one. */
  lemma StepForth(s: State)
    requires Valid(s)
    ensures Valid(UnStep(s)) && Step(UnStep(s)) == s
  {
    hide Left13, Right17, Left5, UnLeft13, UnRight17, UnLeft5, Lcg, UnLcg;
    Quotient(s.c, s.z);
    LcgForth(s.x);
    ShiftsForth(s.y);
    ZeroFixed();
    var t := s.c * 0x1_0000_0000 + s.z;
    assert T(UnStep(s)) == t;
    assert t / 0x1_0000_0000 == s.c && t % 0x1_0000_0000 == s.z;
  }

  function Run(s: State, n: nat): State
    requires Valid(s)
    decreases n
  {
    StepKeeps(s);
    if n == 0 then s else Run(Step(s), n - 1)
  }

  /** Two runs that meet after equally many steps have met from the start: no run loses
      information, from the seeds of the file or any other valid state. */
  lemma {:induction false} RunsNeverMerge(s: State, t: State, n: nat)
    requires Valid(s) && Valid(t) && Run(s, n) == Run(t, n)
    decreases n
    ensures s == t
  {
    hide Step, UnStep;
    if n > 0 {
      StepKeeps(s);
      StepKeeps(t);
      RunsNeverMerge(Step(s), Step(t), n - 1);
      StepBack(s);
      StepBack(t);
    }
  }

  /** Every run stays among the valid states. */
  lemma {:induction false} RunKeeps(s: State, n: nat)
    requires Valid(s)
    decreases n
    ensures Valid(Run(s, n))
  {
    hide Step;
    if n > 0 {
      StepKeeps(s);
      RunKeeps(Step(s), n - 1);
    }
  }

  // ---- the generator with its static variables

  class Generator {
    var x: U32
    var y: bv32
    var z: U32
    var c: U32

    function Current(): State
      reads this
    {
      State(x, y, z, c)
    }

    constructor ()
      ensures Current() == SEED && Valid(Current())
    {
      x, y, z, c := 123456789, 362436000, 521288629, 7654321;
    }

    method Ukiss() returns (r: U32)
      requires Valid(Current())
      modifies this
      ensures Current() == Step(old(Current())) && Valid(Current()) && r == Output(Current())
    {
      hide Left13, Right17, Left5;
      StepKeeps(Current());
      MwcFits(Current());
      x := (69069 * x + 12345) % 0x1_0000_0000;
      y := Left13(y);
      y := Right17(y);
      y := Left5(y);
      var t := A * z + c;
      c := t / 0x1_0000_0000;
      z := t % 0x1_0000_0000;
      r := (x + y as int + z) % 0x1_0000_0000;
    }
  }
}
