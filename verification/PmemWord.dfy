/** The 32-bit lock word of a pmem buffer handle: bit 31 says that a writer holds the buffer, bit 30 that
    it is mapped, and the low 30 bits count the holds. The code works on the word with 32-bit operations;
    this module proves what those operations do to the three fields. */
module PmemWord {

  const LOCK_STATE_WRITE: bv32 := 0x8000_0000
  const LOCK_STATE_MAPPED: bv32 := 0x4000_0000
  const LOCK_STATE_READ_MASK: bv32 := 0x3FFF_FFFF

  const COUNT_BITS: nat := 30
  const MAX_HOLDS: nat := 0x3FFF_FFFF

  predicate Odd(w: bv32) {
    w & 1 == 1
  }

  function Half(w: bv32): bv32 {
    w >> 1
  }

  /** The number written in the low k bits of w. */
  function LowBits(w: bv32, k: nat): nat
    decreases k
  {
    if k == 0 then 0 else (if Odd(w) then 1 else 0) + 2 * LowBits(Half(w), k - 1)
  }

  function Pow2(k: nat): nat {
    if k == 0 then 1 else 2 * Pow2(k - 1)
  }

  datatype Fields = Fields(write: bool, mapped: bool, count: nat)

  function Decode(w: bv32): Fields {
    Fields(IsWrite(w), IsMapped(w), LowBits(CountField(w), COUNT_BITS))
  }

  // ----- the tests and updates of the code

  predicate IsWrite(w: bv32) {
    w & LOCK_STATE_WRITE != 0
  }

  predicate IsMapped(w: bv32) {
    w & LOCK_STATE_MAPPED != 0
  }

  function CountField(w: bv32): bv32 {
    w & LOCK_STATE_READ_MASK
  }

  predicate IsHeld(w: bv32) {
    CountField(w) != 0
  }

  predicate IsFull(w: bv32) {
    CountField(w) == LOCK_STATE_READ_MASK
  }

  function WithWrite(w: bv32): bv32 {
    w | LOCK_STATE_WRITE
  }

  function WithoutWrite(w: bv32): bv32 {
    w & !LOCK_STATE_WRITE
  }

  function WithMapped(w: bv32): bv32 {
    w | LOCK_STATE_MAPPED
  }

  function OneMore(w: bv32): bv32 {
    w + 1
  }

  function OneLess(w: bv32): bv32 {
    w - 1
  }

  // ----- the count field as a number

  lemma Carry(w: bv32)
    requires w != 0xFFFF_FFFF
    ensures Odd(w + 1) == !Odd(w)
    ensures Half(w) != 0xFFFF_FFFF
    ensures Half(w + 1) == if Odd(w) then Half(w) + 1 else Half(w)
  {
  }

  /** Adding one to the word adds one to its low k bits, unless all of them are ones. */
  lemma {:induction false} LowBitsIncrement(w: bv32, k: nat)
    requires w != 0xFFFF_FFFF
    ensures LowBits(w + 1, k) == if LowBits(w, k) == Pow2(k) - 1 then 0 else LowBits(w, k) + 1
    decreases k
  {
    hide Odd, Half;
    if k != 0 {
      Carry(w);
      if Odd(w) {
        LowBitsIncrement(Half(w), k - 1);
      }
    }
  }

  lemma {:induction false} LowBitsBound(w: bv32, k: nat)
    ensures LowBits(w, k) < Pow2(k)
    decreases k
  {
    if k != 0 {
      LowBitsBound(Half(w), k - 1);
    }
  }

  lemma MaxHoldsIsPower()
    ensures Pow2(COUNT_BITS) == MAX_HOLDS + 1
  {
    assert Pow2(5) == 32;
    assert Pow2(10) == 1024;
    assert Pow2(15) == 0x8000;
    assert Pow2(20) == 0x10_0000;
    assert Pow2(25) == 0x200_0000;
  }

  /** w is written in k bits. */
  predicate Fits(w: bv32, k: nat)
    decreases k
  {
    if k == 0 then w == 0 else Fits(Half(w), k - 1)
  }

  lemma {:induction false} ShiftFits(w: bv32, k: nat)
    requires 5 <= k && Fits(w >> 5, k - 5)
    ensures Fits(w, k)
  {
    FiveHalves(w);
    assert Fits(Half(Half(Half(w))), k - 3);
  }

  lemma FiveHalves(w: bv32)
    ensures Half(Half(Half(Half(Half(w))))) == w >> 5
  {
  }

  lemma ShiftShiftFits(w: bv32, k: nat)
    requires 10 <= k && Fits(w >> 10, k - 10)
    ensures Fits(w, k)
  {
    TenHalves(w);
    ShiftFits(w >> 5, k - 5);
    ShiftFits(w, k);
  }

  lemma TenHalves(w: bv32)
    ensures (w >> 5) >> 5 == w >> 10
  {
  }

  lemma MaskedShift(w: bv32)
    ensures ((CountField(w) >> 10) >> 10) >> 10 == 0
  {
  }

  lemma CountFits(w: bv32)
    ensures Fits(CountField(w), COUNT_BITS)
  {
    hide CountField, Fits;
    var c := CountField(w);
    MaskedShift(w);
    ShiftShiftFits((c >> 10) >> 10, 10);
    ShiftShiftFits(c >> 10, 20);
    ShiftShiftFits(c, COUNT_BITS);
  }

  lemma {:induction false} LowBitsOfZero(k: nat)
    ensures LowBits(0, k) == 0
  {
    if k != 0 {
      assert !Odd(0) && Half(0) == 0;
      LowBitsOfZero(k - 1);
    }
  }

  lemma {:induction false} LowBitsInjective(v: bv32, w: bv32, k: nat)
    requires Fits(v, k) && Fits(w, k)
    requires LowBits(v, k) == LowBits(w, k)
    ensures v == w
    decreases k
  {
    if k != 0 {
      LowBitsInjective(Half(v), Half(w), k - 1);
      SameHalf(v, w);
    }
  }

  lemma SameHalf(v: bv32, w: bv32)
    requires Odd(v) == Odd(w) && Half(v) == Half(w)
    ensures v == w
  {
  }

  // ----- what the updates do to the bits

  lemma WithWriteWrites(w: bv32)
    ensures IsWrite(WithWrite(w))
  {
  }

  lemma WithWriteKeepsMapped(w: bv32)
    ensures IsMapped(WithWrite(w)) == IsMapped(w)
  {
  }

  lemma WithWriteKeepsCount(w: bv32)
    ensures CountField(WithWrite(w)) == CountField(w)
  {
  }

  lemma WithoutWriteClears(w: bv32)
    ensures !IsWrite(WithoutWrite(w))
  {
  }

  lemma WithoutWriteKeepsMapped(w: bv32)
    ensures IsMapped(WithoutWrite(w)) == IsMapped(w)
  {
  }

  lemma WithoutWriteKeepsCount(w: bv32)
    ensures CountField(WithoutWrite(w)) == CountField(w)
  {
  }

  lemma WithMappedMaps(w: bv32)
    ensures IsMapped(WithMapped(w))
  {
  }

  lemma WithMappedKeepsWrite(w: bv32)
    ensures IsWrite(WithMapped(w)) == IsWrite(w)
  {
  }

  lemma WithMappedKeepsCount(w: bv32)
    ensures CountField(WithMapped(w)) == CountField(w)
  {
  }

  lemma OneMoreBits(w: bv32)
    requires !IsFull(w)
    ensures IsWrite(OneMore(w)) == IsWrite(w)
    ensures IsMapped(OneMore(w)) == IsMapped(w)
    ensures CountField(OneMore(w)) == CountField(w) + 1
    ensures CountField(w) != 0xFFFF_FFFF
  {
  }

  lemma OneLessBits(w: bv32)
    requires IsHeld(w)
    ensures !IsFull(OneLess(w)) && OneMore(OneLess(w)) == w
  {
  }

  lemma SameBits(v: bv32, w: bv32)
    requires IsWrite(v) == IsWrite(w) && IsMapped(v) == IsMapped(w) && CountField(v) == CountField(w)
    ensures v == w
  {
  }

  lemma ZeroBits()
    ensures CountField(0) == 0 && !IsWrite(0) && !IsMapped(0)
    ensures WithMapped(0) == LOCK_STATE_MAPPED
    ensures CountField(LOCK_STATE_READ_MASK) == LOCK_STATE_READ_MASK
  {
  }

  // ----- what they do to the fields

  /** Nothing but the three fields is stored in the word, so comparing words compares fields. */
  lemma DecodeInjective(v: bv32, w: bv32)
    requires Decode(v) == Decode(w)
    ensures v == w
  {
    hide IsWrite, IsMapped, CountField, LowBits, Fits;
    CountFits(v);
    CountFits(w);
    LowBitsInjective(CountField(v), CountField(w), COUNT_BITS);
    SameBits(v, w);
  }

  /** The READ_MASK test of the code asks whether there is a hold. */
  lemma HeldCount(w: bv32)
    ensures IsHeld(w) <==> 0 < Decode(w).count
  {
    hide IsWrite, IsMapped, CountField, LowBits, Fits;
    LowBitsOfZero(COUNT_BITS);
    if Decode(w).count == 0 {
      ZeroBits();
      CountFits(w);
      CountFits(0);
      LowBitsInjective(CountField(w), CountField(0), COUNT_BITS);
    }
  }

  /** The count fits its 30 bits, and is at its largest exactly when they are all ones. */
  lemma CountRange(w: bv32)
    ensures Decode(w).count <= MAX_HOLDS
    ensures Decode(w).count == MAX_HOLDS <==> IsFull(w)
  {
    hide IsWrite, IsMapped, CountField, LowBits, Fits;
    MaxHoldsIsPower();
    LowBitsBound(CountField(w), COUNT_BITS);
    FullMask();
    if Decode(w).count == MAX_HOLDS {
      ZeroBits();
      CountFits(w);
      CountFits(LOCK_STATE_READ_MASK);
      LowBitsInjective(CountField(w), CountField(LOCK_STATE_READ_MASK), COUNT_BITS);
    }
  }

  lemma FullMask()
    ensures LowBits(LOCK_STATE_READ_MASK, COUNT_BITS) == MAX_HOLDS
  {
    HalfMask();
    assert LowBits(0xF_FFFF, 20) == 0xF_FFFF;
    assert LowBits(0x1FF_FFFF, 25) == 0x1FF_FFFF;
  }

  lemma HalfMask()
    ensures LowBits(0x7FFF, 15) == 0x7FFF
  {
    assert LowBits(0x1F, 5) == 0x1F;
    assert LowBits(0x3FF, 10) == 0x3FF;
  }

  lemma ZeroWord()
    ensures Decode(0) == Fields(false, false, 0)
    ensures Decode(LOCK_STATE_MAPPED) == Fields(false, true, 0)
  {
    ZeroBits();
    HeldCount(0);
    SetMapped(0);
  }

  /** `|= LOCK_STATE_WRITE` changes the write field only. */
  lemma SetWrite(w: bv32)
    ensures Decode(WithWrite(w)) == Decode(w).(write := true)
  {
    hide IsWrite, IsMapped, CountField, LowBits, WithWrite;
    WithWriteWrites(w);
    WithWriteKeepsMapped(w);
    WithWriteKeepsCount(w);
  }

  /** `&= ~LOCK_STATE_WRITE` changes the write field only. */
  lemma ClearWrite(w: bv32)
    ensures Decode(WithoutWrite(w)) == Decode(w).(write := false)
  {
    hide IsWrite, IsMapped, CountField, LowBits, WithoutWrite;
    WithoutWriteClears(w);
    WithoutWriteKeepsMapped(w);
    WithoutWriteKeepsCount(w);
  }

  /** The atomic or of LOCK_STATE_MAPPED changes the mapped field only. */
  lemma SetMapped(w: bv32)
    ensures Decode(WithMapped(w)) == Decode(w).(mapped := true)
  {
    hide IsWrite, IsMapped, CountField, LowBits, WithMapped;
    WithMappedMaps(w);
    WithMappedKeepsWrite(w);
    WithMappedKeepsCount(w);
  }

  /** `++` adds one hold and touches no other field exactly when the count is not already full. */
  lemma Increment(w: bv32)
    ensures Decode(OneMore(w)) == Decode(w).(count := Decode(w).count + 1) <==> Decode(w).count < MAX_HOLDS
  {
    hide IsWrite, IsMapped, CountField, LowBits, OneMore, IsFull;
    CountRange(w);
    CountRange(OneMore(w));
    if Decode(w).count < MAX_HOLDS {
      OneMoreBits(w);
      MaxHoldsIsPower();
      LowBitsIncrement(CountField(w), COUNT_BITS);
    }
  }

  /** `--` takes one hold away and touches no other field exactly when there is one. */
  lemma Decrement(w: bv32)
    ensures Decode(w) == Decode(OneLess(w)).(count := Decode(OneLess(w)).count + 1) <==> 0 < Decode(w).count
  {
    hide Decode, IsHeld, IsFull, OneMore, OneLess;
    HeldCount(w);
    if 0 < Decode(w).count {
      OneLessBits(w);
      CountRange(OneLess(w));
      Increment(OneLess(w));
    }
  }
}
