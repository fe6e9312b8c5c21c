/** The table updated in place, function by function; each method is proved to be the operation of BufferTable that
    its callers rely on. The mutex is held throughout each of them. */
module BufferRegistry {
  import opened Options
  import opened BufferTable
  import opened BufferLocks

  class Registry {
    var infos: map<Buf, Info>
    /** The mappings the kernel keeps for this process. */
    ghost var live: map<int, Mapping>

    ghost function View(): Table
      reads this
    {
      Table(infos, live)
    }

    constructor ()
      ensures View() == EMPTY
    {
      infos, live := map[], map[];
    }

    /** inc_buf_cnt */
    method IncBufCnt(buf: Buf, counter: Counter) returns (ok: bool)
      modifies this
      ensures (ok, View()) == Increment(old(View()), buf, counter)
    {
      if buf.Wrapper() {
        return true;
      }
      if buf !in infos {
        infos := infos[buf := Info(0, NO_ACCESS, 0, 0)];
      }
      var count := infos[buf].Count(counter);
      if count == INT_MAX {
        assert View().infos == Increment(old(View()), buf, counter).1.infos;
        return false;
      }
      infos := infos[buf := infos[buf].With(counter, count + 1)];
      assert View().infos == Increment(old(View()), buf, counter).1.infos;
      return true;
    }

    /** munmap_buf_if_necessary */
    method MunmapBufIfNecessary(buf: Buf, k: Kernel)
      modifies this
      ensures View() == Unmap(old(View()), buf, k)
    {
      if buf !in infos {
        return;
      }
      var addr := infos[buf].addr;
      if addr == 0 {
        return;
      }
      if !k.infoOk {
        return;
      }
      if !k.unmapOk {
        return;
      }
      live := live - {addr};
      infos := infos[buf := infos[buf].(addr := 0)];
    }

    /** dec_buf_cnt, with remove_buf_tg_info */
    method DecBufCnt(buf: Buf, counter: Counter, k: Kernel)
      modifies this
      ensures View() == Decrement(old(View()), buf, counter, k)
    {
      if buf.Wrapper() {
        return;
      }
      if buf !in infos {
        return;
      }
      var count := infos[buf].Count(counter) - 1;
      if count < 0 {
        count := 0;
      }
      infos := infos[buf := infos[buf].With(counter, count)];
      if infos[buf].regCnt == 0 && infos[buf].lockCnt == 0 {
        MunmapBufIfNecessary(buf, k);
        infos := infos - {buf};
      }
    }

    /** dec_buf_reg_cnt_if_last_usr */
    method DecBufRegCntIfLastUsr(buf: Buf, k: Kernel) returns (ok: bool)
      modifies this
      ensures (ok, View()) == DecrementIfLast(old(View()), buf, k)
    {
      if buf.Wrapper() {
        return true;
      }
      if buf !in infos {
        return true;
      }
      if infos[buf].regCnt > 1 || infos[buf].lockCnt != 0 {
        return false;
      }
      DecBufCnt(buf, Register, k);
      return true;
    }

    /** mmap_buf_if_necessary */
    method MmapBufIfNecessary(buf: Buf, k: Kernel) returns (r: Option<(int, Prot)>)
      modifies this
      ensures (r, View()) == Mmap(old(View()), buf, k)
    {
      if buf.Wrapper() {
        if buf.addr == 0 {
          return None;
        }
        return Some((buf.addr, Prot(true, true)));
      }
      if buf !in infos {
        return None;
      }
      if infos[buf].addr != 0 {
        return Some((infos[buf].addr, infos[buf].prot));
      }
      if !k.infoOk {
        return None;
      }
      infos := infos[buf := infos[buf].(prot := k.access)];
      if k.mmap.None? {
        return None;
      }
      infos := infos[buf := infos[buf].(addr := k.mmap.value)];
      live := live[k.mmap.value := Mapping(buf, k.access)];
      assert View().infos == Mmap(old(View()), buf, k).1.infos;
      return Some((infos[buf].addr, infos[buf].prot));
    }

    /** gralloc_lock up to the domain. */
    method MapForLock(buf: Buf, usage: Usage, wanted: bool, k: Kernel) returns (start: Start)
      modifies this
      ensures (start, View()) == LockMap(old(View()), buf, usage, wanted, k)
    {
      if !usage.read && !usage.write {
        return Going(None);
      }
      if !wanted {
        return Refused(NoAddressGiven);
      }
      var mapped := MmapBufIfNecessary(buf, k);
      if mapped.None? {
        return Refused(NotMappable);
      }
      var (addr, prot) := mapped.value;
      if (usage.read && !prot.read) || (usage.write && !prot.write) {
        return Refused(AccessDenied);
      }
      return Going(Some(addr));
    }
  
    /** One operation on the table. */
    method Perform(op: Op)
      modifies this
      ensures View() == Apply(old(View()), op)
    {
      hide Increment, Decrement, DecrementIfLast, Mmap;
      match op
      case Inc(b, c) => var ok := IncBufCnt(b, c);
      case Dec(b, c, k) => DecBufCnt(b, c, k);
      case Free(b, k) => var ok := DecBufRegCntIfLastUsr(b, k);
      case Map(b, k) => var mapped := MmapBufIfNecessary(b, k);
    }

    /** Any sequence of operations, in place. */
    method Execute(ops: seq<Op>)
      modifies this
      ensures View() == ApplyAll(old(View()), ops)
    {
      hide Apply;
      var i := 0;
      while i < |ops|
        invariant 0 <= i <= |ops|
        invariant ApplyAll(View(), ops[i..]) == ApplyAll(old(View()), ops)
      {
        assert ops[i..][1..] == ops[i + 1..];
        Perform(ops[i]);
        i := i + 1;
      }
    }
  }
}
