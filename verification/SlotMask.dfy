/** A 32-bit word used as a set of slots, with the shifts and masks of the code, and the cyclic search for a free
    slot. */
module SlotMask {

  /** 1 << i, by doubling; 0 from 32 on. */
  function One(i: nat): bv32
    decreases i
  {
    if i == 0 then 1 else Twice(One(i - 1))
  }

  /** (1 << n) - 1 */
  function Full(n: nat): bv32 {
    Pred(One(n))
  }

  predicate Taken(w: bv32, i: nat) {
    Meets(w, One(i))
  }

  function Take(w: bv32, i: nat): bv32 {
    Or(w, One(i))
  }

  function Release(w: bv32, i: nat): bv32 {
    Without(w, One(i))
  }

  /** The test for a full word: bufferMask >= (1 << n) - 1 */
  predicate IsFull(w: bv32, n: nat) {
    AtLeast(w, Full(n))
  }

  const WORD: nat := 32

  // ----- the word operations, and one fact about each

  function Twice(a: bv32): bv32 { a + a }
  function Pred(a: bv32): bv32 { a - 1 }
  function And(a: bv32, b: bv32): bv32 { a & b }
  function Or(a: bv32, b: bv32): bv32 { a | b }
  function Without(a: bv32, b: bv32): bv32 { a & !b }
  predicate Meets(a: bv32, b: bv32) { And(a, b) != 0 }
  predicate AtLeast(a: bv32, b: bv32) { a >= b }
  predicate Single(o: bv32) { o & (o - 1) == 0 }

  lemma TwiceApart(a: bv32, b: bv32)
    requires And(a, b) == 0
    ensures And(Twice(a), Twice(b)) == 0
  {
  }

  lemma LowestApart(b: bv32)
    ensures And(1, Twice(b)) == 0
  {
  }

  lemma AndCommutes(a: bv32, b: bv32)
    ensures And(a, b) == And(b, a)
  {
  }

  lemma AndZero(a: bv32)
    ensures And(0, a) == 0 && And(a, 0) == 0
  {
  }

  lemma SingleTwice(o: bv32)
    requires Single(o)
    ensures Single(Twice(o))
  {
  }

  lemma OrApart(w: bv32, a: bv32, b: bv32)
    requires And(a, b) == 0
    ensures And(Or(w, a), b) == And(w, b)
  {
  }

  lemma OrOwn(w: bv32, a: bv32)
    ensures And(Or(w, a), a) == a
  {
  }

  lemma WithoutApart(w: bv32, a: bv32, b: bv32)
    requires And(a, b) == 0
    ensures And(Without(w, a), b) == And(w, b)
  {
  }

  lemma WithoutOwn(w: bv32, a: bv32)
    ensures And(Without(w, a), a) == 0
  {
  }

  lemma PredTwice(o: bv32)
    requires Single(o) && o != 0
    ensures Pred(Twice(o)) == Or(Pred(o), o)
  {
  }

  lemma AndOr(v: bv32, w: bv32, f: bv32, o: bv32)
    requires And(v, f) == And(w, f) && And(v, o) == And(w, o)
    ensures And(v, Or(f, o)) == And(w, Or(f, o))
  {
  }

  lemma AndSingle(w: bv32, o: bv32)
    requires Single(o)
    ensures And(w, o) == 0 || And(w, o) == o
  {
  }

  lemma AndApart(w: bv32, f: bv32, o: bv32)
    requires And(f, o) == 0
    ensures And(And(w, f), o) == 0
  {
  }

  lemma AndAround(w: bv32, f: bv32, o: bv32)
    requires And(f, o) == o
    ensures And(And(w, f), o) == And(w, o)
  {
  }

  lemma AndOnes(w: bv32)
    ensures And(w, 0xFFFF_FFFF) == w
  {
  }

  lemma AndBelow(w: bv32, f: bv32)
    requires And(w, f) == w && w != f
    ensures !AtLeast(w, f)
  {
  }

  lemma AtLeastItself(w: bv32)
    ensures AtLeast(w, w)
  {
  }

  // ----- single bits

  lemma {:induction false} LessApart(i: nat, j: nat)
    requires i < j
    ensures And(One(i), One(j)) == 0
    decreases i
  {
    hide And, Twice;
    if i == 0 {
      LowestApart(One(j - 1));
    } else {
      LessApart(i - 1, j - 1);
      TwiceApart(One(i - 1), One(j - 1));
    }
  }

  lemma Apart(i: nat, j: nat)
    requires i != j
    ensures And(One(i), One(j)) == 0
  {
    hide And, One;
    if i < j {
      LessApart(i, j);
    } else {
      LessApart(j, i);
      AndCommutes(One(i), One(j));
    }
  }

  lemma TopBit()
    ensures One(31) == 0x8000_0000
    ensures One(32) == 0
  {
    assert One(5) == 32;
    assert One(10) == 1024;
    assert One(15) == 0x8000;
    assert One(20) == 0x10_0000;
    assert One(25) == 0x200_0000;
    assert One(30) == 0x4000_0000;
  }

  lemma {:induction false} NonZero(i: nat)
    requires i < WORD
    ensures One(i) != 0
    decreases 32 - i
  {
    if i == 31 {
      TopBit();
    } else {
      NonZero(i + 1);
    }
  }

  lemma {:induction false} OneIsSingle(i: nat)
    ensures Single(One(i))
    decreases i
  {
    if i != 0 {
      OneIsSingle(i - 1);
      SingleTwice(One(i - 1));
    }
  }

  // ----- taking and releasing

  lemma TakeTakes(w: bv32, i: nat, j: nat)
    requires i < WORD
    ensures Taken(Take(w, i), j) <==> j == i || Taken(w, j)
  {
    hide One, And, Or;
    if i == j {
      NonZero(i);
      OrOwn(w, One(i));
    } else {
      Apart(i, j);
      OrApart(w, One(i), One(j));
    }
  }

  lemma ReleaseReleases(w: bv32, i: nat, j: nat)
    ensures Taken(Release(w, i), j) <==> j != i && Taken(w, j)
  {
    hide One, And, Without;
    if i == j {
      WithoutOwn(w, One(i));
    } else {
      Apart(i, j);
      WithoutApart(w, One(i), One(j));
    }
  }

  lemma NothingTaken(i: nat)
    ensures !Taken(0, i)
  {
    hide One, And;
    AndZero(One(i));
  }

  // ----- the test for a full word

  lemma FullStep(k: nat)
    requires k < WORD
    ensures Full(k + 1) == Or(Full(k), One(k))
  {
    hide Pred, Twice, Or, Single;
    OneIsSingle(k);
    NonZero(k);
    PredTwice(One(k));
  }

  /** (1 << n) - 1 has exactly the slots below n. */
  lemma {:induction false} FullSlots(n: nat, i: nat)
    requires n <= WORD && i < WORD
    ensures Taken(Full(n), i) <==> i < n
    decreases n
  {
    if n == 0 {
      assert Full(0) == 0;
      NothingTaken(i);
    } else {
      hide One, Full, Taken, Or;
      FullSlots(n - 1, i);
      FullStep(n - 1);
      TakeTakes(Full(n - 1), n - 1, i);
    }
  }

  predicate SameBelow(v: bv32, w: bv32, k: nat) {
    forall i: nat :: i < k ==> (Taken(v, i) <==> Taken(w, i))
  }

  lemma SameBit(v: bv32, w: bv32, i: nat)
    requires Taken(v, i) <==> Taken(w, i)
    ensures And(v, One(i)) == And(w, One(i))
  {
    hide One, And, Single;
    OneIsSingle(i);
    AndSingle(v, One(i));
    AndSingle(w, One(i));
  }

  lemma NoBits(v: bv32)
    ensures And(v, Full(0)) == 0
  {
    hide And;
    assert Full(0) == 0;
    AndZero(v);
  }

  /** Words with the same slots below k agree there. */
  lemma {:induction false} SameSlots(v: bv32, w: bv32, k: nat)
    requires k <= WORD && SameBelow(v, w, k)
    ensures And(v, Full(k)) == And(w, Full(k))
    decreases k
  {
    hide One, Full, And, Or, Taken;
    if k == 0 {
      NoBits(v);
      NoBits(w);
    } else {
      SameSlots(v, w, k - 1);
      FullStep(k - 1);
      SameBit(v, w, k - 1);
      AndOr(v, w, Full(k - 1), One(k - 1));
    }
  }

  lemma Extensional(v: bv32, w: bv32)
    requires SameBelow(v, w, WORD)
    ensures v == w
  {
    hide Taken, And;
    SameSlots(v, w, WORD);
    TopBit();
    assert Full(WORD) == 0xFFFF_FFFF;
    AndOnes(v);
    AndOnes(w);
  }

  predicate Within(w: bv32, n: nat) {
    forall i: nat :: n <= i < WORD ==> !Taken(w, i)
  }

  lemma MaskedSlot(w: bv32, n: nat, i: nat)
    requires n <= WORD && i < WORD
    ensures Taken(And(w, Full(n)), i) <==> i < n && Taken(w, i)
  {
    hide One, Full, And, Single;
    FullSlots(n, i);
    OneIsSingle(i);
    AndSingle(Full(n), One(i));
    if i < n {
      AndAround(w, Full(n), One(i));
    } else {
      AndApart(w, Full(n), One(i));
    }
  }

  lemma MaskedWord(w: bv32, n: nat)
    requires n <= WORD && Within(w, n)
    ensures And(w, Full(n)) == w
  {
    hide Full, Taken, And;
    forall i: nat | i < WORD
      ensures Taken(And(w, Full(n)), i) <==> Taken(w, i)
    {
      MaskedSlot(w, n, i);
    }
    Extensional(And(w, Full(n)), w);
  }

  /** A word with slots below n only is at least (1 << n) - 1 exactly when all of them are taken. */
  lemma FullExactly(w: bv32, n: nat)
    requires n <= WORD && Within(w, n)
    ensures IsFull(w, n) <==> forall i: nat :: i < n ==> Taken(w, i)
  {
    hide Full, Taken, And, AtLeast;
    forall i: nat | i < WORD
      ensures Taken(Full(n), i) <==> i < n
    {
      FullSlots(n, i);
    }
    AtLeastItself(w);
    if forall i: nat :: i < n ==> Taken(w, i) {
      Extensional(w, Full(n));
    } else {
      MaskedWord(w, n);
      AndBelow(w, Full(n));
    }
  }

  // ----- the cyclic search

  /** The slot e after c, going around. */
  function Ahead(c: int, n: nat, e: int): nat
    requires 0 < n
  {
    (c + e) % n
  }

  /** The slot at which the search ends, looking at the `left` slots after c and then around again from 0. */
  function Search(w: bv32, n: nat, c: int, left: nat): (r: int)
    requires 0 < n
    ensures 0 < left || 0 <= c ==> 0 <= r
    decreases left
  {
    if left == 0 then c
    else if !Taken(w, Ahead(c, n, 1)) then Ahead(c, n, 1)
    else Search(w, n, Ahead(c, n, 1), left - 1)
  }

  /** idx is d slots after c, going around, and free; those before it are taken. */
  predicate FreeAt(w: bv32, n: nat, c: int, d: nat, idx: int)
    requires 0 < n
  {
    && 1 <= d && idx == Ahead(c, n, d) && !Taken(w, idx)
    && forall e: nat :: 1 <= e < d ==> Taken(w, Ahead(c, n, e))
  }

  lemma ModStep(c: int, n: nat, e: nat)
    requires 0 < n
    ensures Ahead(Ahead(c, n, 1), n, e) == Ahead(c, n, e + 1)
  {
    ModUnique(c + 1 + e, n, (c + 1) / n + ((c + 1) % n + e) / n, ((c + 1) % n + e) % n);
  }

  lemma ModUnique(x: int, n: nat, q: int, r: int)
    requires 0 <= r < n && x == n * q + r
    ensures x % n == r
  {
    var k := x / n - q;
    assert n * k == r - x % n;
    if k >= 1 {
      MulMono(n, k);
    } else if k <= -1 {
      MulMono(n, -k);
    }
  }

  lemma MulMono(n: nat, k: int)
    requires 1 <= k
    ensures n * k >= n
  {
  }

  lemma OneFurther(w: bv32, n: nat, c: int, d: nat, idx: int)
    requires 0 < n && Taken(w, Ahead(c, n, 1)) && FreeAt(w, n, Ahead(c, n, 1), d, idx)
    ensures FreeAt(w, n, c, d + 1, idx)
  {
    hide Taken, Ahead;
    ModStep(c, n, d);
    forall f: nat | 1 <= f < d + 1
      ensures Taken(w, Ahead(c, n, f))
    {
      if 1 < f {
        ModStep(c, n, f - 1);
        assert Taken(w, Ahead(Ahead(c, n, 1), n, f - 1));
      }
    }
  }

  lemma {:induction false} SearchFinds(w: bv32, n: nat, c: int, left: nat, e: nat) returns (d: nat)
    requires 0 < n && 1 <= e <= left && !Taken(w, Ahead(c, n, e))
    ensures d <= e && FreeAt(w, n, c, d, Search(w, n, c, left))
    decreases left
  {
    hide Taken, Ahead, FreeAt;
    var c' := Ahead(c, n, 1);
    if !Taken(w, c') {
      d := 1;
      FirstIsFree(w, n, c);
    } else {
      ModStep(c, n, e - 1);
      d := SearchFinds(w, n, c', left - 1, e - 1);
      OneFurther(w, n, c, d, Search(w, n, c', left - 1));
      d := d + 1;
    }
  }

  lemma FirstIsFree(w: bv32, n: nat, c: int)
    requires 0 < n && !Taken(w, Ahead(c, n, 1))
    ensures FreeAt(w, n, c, 1, Ahead(c, n, 1))
  {
    hide Taken, Ahead;
  }

  /** If any slot is free, the search over all of them ends at the first free one after c. */
  lemma SearchFirstFree(w: bv32, n: nat, c: int, free: nat) returns (d: nat)
    requires 0 < n && free < n && !Taken(w, free)
    ensures d <= n && FreeAt(w, n, c, d, Search(w, n, c, n))
    ensures 0 <= Search(w, n, c, n) < n && !Taken(w, Search(w, n, c, n))
  {
    hide Taken, Search;
    var e := (free - c - 1) % n + 1;
    ModUnique(c + e, n, -((free - c - 1) / n), free);
    d := SearchFinds(w, n, c, n, e);
  }
}
