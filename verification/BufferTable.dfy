/** The table of the buffers a process uses: for each, how often it is registered and locked, and where it is mapped.
    An entry is created by the first count and removed, with its mapping, when both counts reach zero. */
module BufferTable {
  import opened Options

  const INT_MAX: int := 0x7FFF_FFFF

  /** A buffer handle. `size` is -1 unless the handle wraps a buffer that gralloc did not create. */
  datatype Buf = Buf(id: nat, size: int, addr: int) {
    predicate Wrapper() { size != -1 }
  }

  datatype Counter = Register | Lock

  datatype Prot = Prot(read: bool, write: bool)

  /** addr is 0 while the buffer is not mapped. */
  datatype Info = Info(addr: int, prot: Prot, regCnt: int, lockCnt: int) {
    function Count(c: Counter): int { if c == Register then regCnt else lockCnt }
    function With(c: Counter, n: int): Info { if c == Register then this.(regCnt := n) else this.(lockCnt := n) }
  }

  /** A mapping the kernel keeps: of which buffer, and with what access. */
  datatype Mapping = Mapping(buf: Buf, prot: Prot)

  /** The table, and the mappings the kernel keeps for it. */
  datatype Table = Table(infos: map<Buf, Info>, live: map<int, Mapping>) {
    function Count(b: Buf, c: Counter): int { if b in infos then infos[b].Count(c) else 0 }
  }

  /** What the kernel answers: whether the buffer's size and access can be had, the address of a new mapping, and
      whether a mapping can be removed. */
  datatype Kernel = Kernel(infoOk: bool, access: Prot, mmap: Option<int>, unmapOk: bool)

  /** mmap never returns null nor an address it has already given out. */
  predicate Fresh(t: Table, k: Kernel) {
    k.mmap.Some? ==> k.mmap.value != 0 && k.mmap.value !in t.live
  }

  const NO_ACCESS := Prot(false, false)

  // ----- the operations, on values

  /** inc_buf_cnt */
  function Increment(t: Table, b: Buf, c: Counter): (bool, Table) {
    if b.Wrapper() then (true, t)
    else
      var info := if b in t.infos then t.infos[b] else Info(0, NO_ACCESS, 0, 0);
      if info.Count(c) == INT_MAX then (false, t.(infos := t.infos[b := info]))
      else (true, t.(infos := t.infos[b := info.With(c, info.Count(c) + 1)]))
  }

  /** munmap_buf_if_necessary */
  function Unmap(t: Table, b: Buf, k: Kernel): Table {
    if b !in t.infos then t
    else
      var a := t.infos[b].addr;
      if a == 0 || !k.infoOk || !k.unmapOk then t
      else t.(infos := t.infos[b := t.infos[b].(addr := 0)], live := t.live - {a})
  }

  /** dec_buf_cnt */
  function Decrement(t: Table, b: Buf, c: Counter, k: Kernel): Table {
    if b.Wrapper() || b !in t.infos then t
    else
      var n := t.infos[b].Count(c) - 1;
      var info := t.infos[b].With(c, if n < 0 then 0 else n);
      var t' := t.(infos := t.infos[b := info]);
      if info.regCnt == 0 && info.lockCnt == 0 then
        var u := Unmap(t', b, k);
        u.(infos := u.infos - {b})
      else t'
  }

  /** dec_buf_reg_cnt_if_last_usr: false refuses the free. */
  function DecrementIfLast(t: Table, b: Buf, k: Kernel): (bool, Table) {
    if b.Wrapper() || b !in t.infos then (true, t)
    else if t.infos[b].regCnt > 1 || t.infos[b].lockCnt != 0 then (false, t)
    else (true, Decrement(t, b, Register, k))
  }

  /** mmap_buf_if_necessary: the address and its protection, or None. */
  function Mmap(t: Table, b: Buf, k: Kernel): (Option<(int, Prot)>, Table) {
    if b.Wrapper() then (if b.addr == 0 then None else Some((b.addr, Prot(true, true))), t)
    else if b !in t.infos then (None, t)
    else if t.infos[b].addr != 0 then (Some((t.infos[b].addr, t.infos[b].prot)), t)
    else if !k.infoOk then (None, t)
    else match k.mmap
      case None => (None, t.(infos := t.infos[b := t.infos[b].(prot := k.access)]))
      case Some(a) =>
        (Some((a, k.access)), t.(infos := t.infos[b := t.infos[b].(prot := k.access, addr := a)], live := t.live[a := Mapping(b, k.access)]))
  }

  // ----- any sequence of operations

  datatype Op =
    | Inc(buf: Buf, counter: Counter)
    | Dec(buf: Buf, counter: Counter, kernel: Kernel)
    | Free(buf: Buf, kernel: Kernel)
    | Map(buf: Buf, kernel: Kernel)

  function Apply(t: Table, op: Op): Table {
    match op
    case Inc(b, c) => Increment(t, b, c).1
    case Dec(b, c, k) => Decrement(t, b, c, k)
    case Free(b, k) => DecrementIfLast(t, b, k).1
    case Map(b, k) => Mmap(t, b, k).1
  }

  predicate KernelOk(t: Table, op: Op) {
    op.Map? ==> Fresh(t, op.kernel)
  }

  function ApplyAll(t: Table, ops: seq<Op>): Table
    decreases |ops|
  {
    if ops == [] then t else ApplyAll(Apply(t, ops[0]), ops[1..])
  }

  predicate KernelOkAll(t: Table, ops: seq<Op>)
    decreases |ops|
  {
    ops == [] || (KernelOk(t, ops[0]) && KernelOkAll(Apply(t, ops[0]), ops[1..]))
  }

  const EMPTY := Table(map[], map[])

  /** An entry is for a buffer of our own, its counts are those of an int and not both zero, and its mapping is the
      kernel's, for this buffer and with the access recorded. */
  predicate EntryOk(t: Table, b: Buf)
    requires b in t.infos
  {
    var i := t.infos[b];
    && !b.Wrapper()
    && 0 <= i.regCnt <= INT_MAX && 0 <= i.lockCnt <= INT_MAX && (0 < i.regCnt || 0 < i.lockCnt)
    && (i.addr != 0 ==> i.addr in t.live && t.live[i.addr] == Mapping(b, i.prot))
  }

  predicate TableOk(t: Table) {
    && (forall b <- t.infos :: EntryOk(t, b))
    && 0 !in t.live
  }

  /** Every mapping the kernel keeps belongs to the entry of its buffer. */
  predicate NoLeak(t: Table) {
    forall a <- t.live :: t.live[a].buf in t.infos && t.infos[t.live[a].buf].addr == a
  }

  lemma ApplyOk(t: Table, op: Op)
    requires TableOk(t) && KernelOk(t, op)
    ensures TableOk(Apply(t, op))
  {
    var t' := Apply(t, op);
    forall b | b in t'.infos
      ensures EntryOk(t', b)
    {
      if b in t.infos {
        assert EntryOk(t, b);
      }
      if op.buf in t.infos {
        assert EntryOk(t, op.buf);
      }
    }
  }

  lemma ApplyNoLeak(t: Table, op: Op)
    requires TableOk(t) && NoLeak(t) && KernelOk(t, op)
    requires op.Dec? || op.Free? ==> op.kernel.infoOk && op.kernel.unmapOk
    ensures NoLeak(Apply(t, op))
  {
    if op.buf in t.infos {
      assert EntryOk(t, op.buf);
    }
  }

  /** The reference for the counts: a counter that stays between 0 and INT_MAX, and a free that takes a registration
      away only when it is the last use. */
  function Tally(ops: seq<Op>, b: Buf): (nat, nat)
    decreases |ops|
  {
    if ops == [] || b.Wrapper() then (0, 0)
    else
      var (r, l) := Tally(ops[..|ops| - 1], b);
      var op := ops[|ops| - 1];
      Counted(op, b, r, l)
  }

  function Counted(op: Op, b: Buf, r: nat, l: nat): (nat, nat) {
    if op.buf != b then (r, l)
    else match op
      case Inc(_, c) => if c == Register then (Up(r), l) else (r, Up(l))
      case Dec(_, c, _) => if c == Register then (Down(r), l) else (r, Down(l))
      case Free(_, _) => if r <= 1 && l == 0 then (0, 0) else (r, l)
      case Map(_, _) => (r, l)
  }

  function Up(n: nat): nat { if n == INT_MAX then n else n + 1 }
  function Down(n: nat): nat { if n == 0 then 0 else n - 1 }

  lemma {:induction false} ApplyLast(t: Table, ops: seq<Op>, op: Op)
    ensures ApplyAll(t, ops + [op]) == Apply(ApplyAll(t, ops), op)
    ensures KernelOkAll(t, ops + [op]) <==> KernelOkAll(t, ops) && KernelOk(ApplyAll(t, ops), op)
    decreases |ops|
  {
    if ops == [] {
      assert ops + [op] == [op];
      assert ApplyAll(Apply(t, op), []) == Apply(t, op);
      assert KernelOkAll(Apply(t, op), []);
    } else {
      assert (ops + [op])[1..] == ops[1..] + [op];
      ApplyLast(Apply(t, ops[0]), ops[1..], op);
    }
  }

  lemma TallyStep(t: Table, op: Op, b: Buf, r: nat, l: nat)
    requires TableOk(t) && !b.Wrapper() && (r, l) == (t.Count(b, Register), t.Count(b, Lock))
    ensures var t' := Apply(t, op); (t'.Count(b, Register), t'.Count(b, Lock)) == Counted(op, b, r, l)
  {
    if op.buf in t.infos {
      assert EntryOk(t, op.buf);
    }
  }

  /** After any sequence of operations, however unbalanced, the counts are those of the reference, both within an int,
      and a buffer has an entry exactly when one of its counts is positive. */
  lemma {:induction false} TableMatchesTally(ops: seq<Op>, b: Buf)
    requires KernelOkAll(EMPTY, ops)
    ensures var t := ApplyAll(EMPTY, ops);
      && TableOk(t)
      && (t.Count(b, Register), t.Count(b, Lock)) == Tally(ops, b)
      && (b in t.infos <==> Tally(ops, b) != (0, 0))
      && Tally(ops, b).0 <= INT_MAX && Tally(ops, b).1 <= INT_MAX
    decreases |ops|
  {
    var t := ApplyAll(EMPTY, ops);
    if ops != [] {
      var front, op := ops[..|ops| - 1], ops[|ops| - 1];
      assert ops == front + [op];
      ApplyLast(EMPTY, front, op);
      TableMatchesTally(front, b);
      var t0 := ApplyAll(EMPTY, front);
      ApplyOk(t0, op);
      if !b.Wrapper() {
        TallyStep(t0, op, b, t0.Count(b, Register), t0.Count(b, Lock));
      }
    }
    if b in t.infos {
      assert EntryOk(t, b);
    }
  }

  /** While mappings can be removed, every live mapping belongs to the entry of one buffer. */
  lemma {:induction false} NoLeakEver(ops: seq<Op>)
    requires KernelOkAll(EMPTY, ops)
    requires forall op <- ops :: op.Dec? || op.Free? ==> op.kernel.infoOk && op.kernel.unmapOk
    ensures var t := ApplyAll(EMPTY, ops); TableOk(t) && NoLeak(t)
    decreases |ops|
  {
    if ops != [] {
      var front, op := ops[..|ops| - 1], ops[|ops| - 1];
      assert ops == front + [op];
      ApplyLast(EMPTY, front, op);
      NoLeakEver(front);
      ApplyOk(ApplyAll(EMPTY, front), op);
      ApplyNoLeak(ApplyAll(EMPTY, front), op);
    }
  }

  /** A free is refused exactly while the buffer has a lock or a second registration, and then changes nothing; a free
      that is not refused leaves no entry and, if the mapping can be removed, no mapping of the buffer. */
  lemma FreeExactly(t: Table, b: Buf, k: Kernel)
    requires TableOk(t) && !b.Wrapper()
    ensures var (ok, t') := DecrementIfLast(t, b, k);
      && (ok <==> t.Count(b, Register) <= 1 && t.Count(b, Lock) == 0)
      && (!ok ==> t' == t)
      && (ok ==> b !in t'.infos)
      && (ok && NoLeak(t) && k.infoOk && k.unmapOk ==> forall a <- t'.live :: t'.live[a].buf != b)
  {
    if b in t.infos {
      assert EntryOk(t, b);
    }
  }

  /** Mapping on demand succeeds exactly for a wrapper that has an address, or a buffer with an entry that is mapped
      already or can be now; it gives the address and the access of that mapping. */
  lemma MmapExactly(t: Table, b: Buf, k: Kernel)
    requires TableOk(t)
    ensures var (r, t') := Mmap(t, b, k);
      if b.Wrapper() then r == (if b.addr == 0 then None else Some((b.addr, Prot(true, true)))) && t' == t
      else if b !in t.infos then r == None && t' == t
      else if t.infos[b].addr != 0 then
        && r == Some((t.infos[b].addr, t.live[t.infos[b].addr].prot)) && t.live[t.infos[b].addr].buf == b && t' == t
      else
        && (r.Some? <==> k.infoOk && k.mmap.Some?)
        && (r.Some? ==> r == Some((k.mmap.value, k.access)) && t'.live == t.live[k.mmap.value := Mapping(b, k.access)])
        && (r.None? ==> t'.live == t.live)
        && t'.Count(b, Register) == t.Count(b, Register) && t'.Count(b, Lock) == t.Count(b, Lock)
  {
    if b in t.infos {
      assert EntryOk(t, b);
    }
  }

  /** The last decrement takes the entry away with its mapping, which stays behind only if the kernel would not have it
      removed; any other keeps the mapping, and all keep those of other buffers. */
  lemma DecrementUnmaps(t: Table, b: Buf, c: Counter, k: Kernel, a: int)
    requires TableOk(t) && a in t.live
    ensures var t' := Decrement(t, b, c, k);
      a !in t'.live <==>
        && t.live[a].buf == b && b in t.infos && t.infos[b].addr == a && b !in t'.infos
        && k.infoOk && k.unmapOk
    ensures a in Decrement(t, b, c, k).live ==> Decrement(t, b, c, k).live[a] == t.live[a]
  {
    if b in t.infos {
      assert EntryOk(t, b);
    }
  }

  /** Unmapping takes away the mapping of an entry and the address recorded for it together, or neither, when there is
      none or the kernel would not have it removed. */
  lemma UnmapExactly(t: Table, b: Buf, k: Kernel)
    requires TableOk(t)
    ensures var u := Unmap(t, b, k);
      && TableOk(u)
      && if b in t.infos && t.infos[b].addr != 0 && k.infoOk && k.unmapOk then
           && u.live == t.live - {t.infos[b].addr} && u.infos.Keys == t.infos.Keys && u.infos[b].addr == 0
           && forall x <- t.infos :: u.infos[x] == if x == b then t.infos[b].(addr := 0) else t.infos[x]
         else u == t
  {
    if b in t.infos {
      assert EntryOk(t, b);
    }
    forall x | x in t.infos
      ensures EntryOk(Unmap(t, b, k), x)
    {
      assert EntryOk(t, x);
    }
  }

  /** Wrapper handles are no business of the table's: every operation on one succeeds and changes nothing. */
  lemma WrapperUntouched(t: Table, op: Op)
    requires op.buf.Wrapper()
    ensures Apply(t, op) == t
    ensures op.Inc? ==> Increment(t, op.buf, op.counter).0
    ensures op.Free? ==> DecrementIfLast(t, op.buf, op.kernel).0
  {
  }
}
