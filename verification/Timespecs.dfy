/** Clock readings as seconds and nanoseconds, and the arithmetic the vsync thread does on them. */
module Timespecs {

  const NSEC_PER_SEC: int := 1_000_000_000

  datatype Timespec = Timespec(sec: int, nsec: int) {
    predicate Normal() { 0 <= nsec < NSEC_PER_SEC }
  }

  /** timespec_to_ns */
  function Ns(t: Timespec): int {
    t.sec * NSEC_PER_SEC + t.nsec
  }

  /** timespec_compare: only the sign of the result means anything. */
  function Compare(a: Timespec, b: Timespec): int {
    if a.sec < b.sec then -1
    else if a.sec > b.sec then 1
    else a.nsec - b.nsec
  }

  function Plus(t: Timespec, nsec: int): Timespec {
    var total := t.nsec + nsec;
    if total < 0 then Timespec(t.sec, total)
    else Timespec(t.sec + total / NSEC_PER_SEC, total % NSEC_PER_SEC)
  }

  /** timespec_add_ns: carries whole seconds out one at a time. The sum is always exact; it is normalised exactly
      when the nanoseconds do not go below zero. */
  method AddNs(t: Timespec, nsec: int) returns (r: Timespec)
    ensures r == Plus(t, nsec)
    ensures Ns(r) == Ns(t) + nsec
    ensures r.Normal() <==> 0 <= t.nsec + nsec
  {
    var sec, tmp := t.sec, t.nsec + nsec;
    while tmp >= NSEC_PER_SEC
      invariant sec * NSEC_PER_SEC + tmp == Ns(t) + nsec
      invariant t.nsec + nsec < 0 ==> sec == t.sec && tmp == t.nsec + nsec
      invariant 0 <= t.nsec + nsec ==> 0 <= tmp
      decreases tmp
    {
      sec := sec + 1;
      tmp := tmp - NSEC_PER_SEC;
    }
    r := Timespec(sec, tmp);
    SameInstant(r, Plus(t, nsec));
  }

  lemma SameInstant(a: Timespec, b: Timespec)
    requires Ns(a) == Ns(b) && ((a.Normal() && b.Normal()) || a.sec == b.sec)
    ensures a == b
  {
  }

  lemma PlusExact(t: Timespec, nsec: int)
    ensures Ns(Plus(t, nsec)) == Ns(t) + nsec
    ensures Plus(t, nsec).Normal() <==> 0 <= t.nsec + nsec
  {
    var total := t.nsec + nsec;
    assert total == total / NSEC_PER_SEC * NSEC_PER_SEC + total % NSEC_PER_SEC;
  }

  /** On normalised readings the comparison is the comparison of the instants in nanoseconds. */
  lemma CompareAgrees(a: Timespec, b: Timespec)
    requires a.Normal() && b.Normal()
    ensures Compare(a, b) < 0 <==> Ns(a) < Ns(b)
    ensures Compare(a, b) == 0 <==> Ns(a) == Ns(b)
    ensures Compare(a, b) > 0 <==> Ns(a) > Ns(b)
  {
  }

  /** Without normalisation it is not. */
  lemma CompareNeedsNormal()
    ensures exists a: Timespec, b: Timespec :: b.Normal() && Compare(a, b) < 0 && Ns(b) < Ns(a)
  {
    var a, b := Timespec(0, 2 * NSEC_PER_SEC), Timespec(1, 0);
    assert b.Normal() && Compare(a, b) < 0 && Ns(b) < Ns(a);
  }
}
