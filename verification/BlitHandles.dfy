/** The table of open blitter handles: an array that is made on the first open and grows when it is full. */
module BlitHandles {
  import opened Options

  const DATAS_START_SIZE: nat := 10
  const DATAS_GROW_SIZE: nat := 5

  /** The address of a handle's data. */
  type Data = nat

  type Entries = seq<Option<Data>>

  function Nothing(n: nat): Entries {
    seq(n, _ => None)
  }

  /** What a handle leads to; handles outside the table lead nowhere. */
  function Lookup(s: Entries, handle: int): Option<Data> {
    if 0 <= handle < |s| then s[handle] else None
  }

  /** The least handle that leads nowhere. */
  predicate LeastFree(s: Entries, k: int) {
    && 0 <= k && Lookup(s, k) == None
    && forall j :: 0 <= j < k ==> Lookup(s, j) != None
  }

  /** The table after data has been entered under handle k, as far as anyone can tell by looking it up. */
  ghost predicate Entered(s: Entries, k: int, data: Data, t: Entries) {
    && 0 <= k < |t| && |s| <= |t|
    && forall h: int :: Lookup(t, h) == if h == k then Some(data) else Lookup(s, h)
  }

  ghost predicate Removed(s: Entries, k: int, t: Entries) {
    && |t| == |s|
    && forall h: int :: Lookup(t, h) == if h == k then None else Lookup(s, h)
  }

  lemma FullOrNot(s: Entries, k: int)
    requires LeastFree(s, k) && k <= |s|
    ensures None in s <==> k < |s|
    ensures s != [] && s[0] == None ==> k == 0
  {
    assert forall j :: 0 <= j < |s| ==> s[j] == Lookup(s, j);
    if k < |s| {
      assert s[k] == None;
    }
  }

  class Handles {
    var datas: array?<Option<Data>>
    var dataCount: nat

    ghost predicate Valid()
      reads this
    {
      if datas == null then dataCount == 0 else dataCount == datas.Length >= DATAS_START_SIZE
    }

    function Contents(): Entries
      reads this, datas
    {
      if datas == null then [] else datas[..]
    }

    constructor ()
      ensures Valid() && Contents() == []
    {
      datas, dataCount := null, 0;
    }

    method GrowDatas()
      requires Valid() && datas != null
      modifies this
      ensures Valid() && datas != null && fresh(datas)
      ensures Contents() == old(Contents()) + Nothing(DATAS_GROW_SIZE)
    {
      var newCount := dataCount + DATAS_GROW_SIZE;
      var newDatas := new Option<Data>[newCount](_ => None);
      var i := 0;
      while i < dataCount
        modifies newDatas
        invariant 0 <= i <= dataCount
        invariant newDatas[..i] == datas[..i]
        invariant newDatas[dataCount..] == Nothing(DATAS_GROW_SIZE)
      {
        newDatas[i] := datas[i];
        i := i + 1;
      }
      assert newDatas[..] == newDatas[..dataCount] + newDatas[dataCount..];
      dataCount := newCount;
      datas := newDatas;
    }

    /** The data goes under the least handle that leads nowhere; every other handle leads where it led. The table
        is as long as it was unless it was missing or full. */
    method GetHandle(data: Data) returns (handle: int)
      requires Valid()
      modifies this, datas
      ensures Valid() && (datas == old(datas) || fresh(datas))
      ensures LeastFree(old(Contents()), handle)
      ensures Entered(old(Contents()), handle, data, Contents())
      ensures |Contents()| ==
        if old(datas) == null then DATAS_START_SIZE
        else if None in old(Contents()) then |old(Contents())|
        else |old(Contents())| + DATAS_GROW_SIZE
    {
      ghost var before := Contents();
      if datas == null {
        datas := new Option<Data>[DATAS_START_SIZE](_ => None);
        dataCount := DATAS_START_SIZE;
      }
      ghost var start := Contents();
      assert forall h :: Lookup(start, h) == Lookup(before, h);
      handle := 0;
      while handle < dataCount
        invariant Valid() && datas != null && (datas == old(datas) || fresh(datas))
        invariant 0 <= handle < dataCount
        invariant forall j :: 0 <= j < handle ==> Lookup(start, j) != None
        invariant Contents() == if handle < |start| then start else start + Nothing(DATAS_GROW_SIZE)
        invariant handle <= |start|
        decreases |start| + DATAS_GROW_SIZE - handle
      {
        if datas[handle] == None {
          FullOrNot(start, handle);
          datas[handle] := Some(data);
          break;
        }
        if handle == dataCount - 1 {
          GrowDatas();
        }
        handle := handle + 1;
      }
    }

    method GetData(handle: int) returns (data: Option<Data>)
      requires Valid()
      ensures data == Lookup(Contents(), handle)
    {
      if handle >= dataCount || handle < 0 {
        return None;
      } else {
        return datas[handle];
      }
    }

    method FreeHandle(handle: int)
      requires Valid()
      modifies datas
      ensures Valid() && Removed(old(Contents()), handle, Contents())
    {
      if handle < dataCount && handle >= 0 {
        datas[handle] := None;
      }
    }
  }

  // ----- what users of handles see

  datatype Event = Opened(data: Data, handle: int) | Closed(handle: int)

  ghost predicate Happens(s: Entries, e: Event, t: Entries) {
    match e
    case Opened(data, k) => LeastFree(s, k) && Entered(s, k, data, t)
    case Closed(k) => Removed(s, k, t)
  }

  /** A history of the table: what it was at first and after each event. */
  ghost predicate History(tables: seq<Entries>, events: seq<Event>) {
    && |tables| == |events| + 1 && tables[0] == []
    && forall i :: 0 <= i < |events| ==> Happens(tables[i], events[i], tables[i + 1])
  }

  /** The reference: the handles that were opened and not closed since, with no table at all. */
  function Live(events: seq<Event>): map<int, Data> {
    if events == [] then map[]
    else
      var m := Live(events[..|events| - 1]);
      match events[|events| - 1]
      case Opened(data, k) => m[k := data]
      case Closed(k) => m - {k}
  }

  lemma HistoryPrefix(tables: seq<Entries>, events: seq<Event>, n: nat)
    requires History(tables, events) && n <= |events|
    ensures History(tables[..n + 1], events[..n])
  {
    hide Happens;
    forall i | 0 <= i < n
      ensures Happens(tables[..n + 1][i], events[..n][i], tables[..n + 1][i + 1])
    {
      assert Happens(tables[i], events[i], tables[i + 1]);
    }
  }

  /** Growing is invisible: a handle leads to the data it was last opened with until it is closed, and nowhere
      otherwise. */
  lemma {:induction false} TableIsLive(tables: seq<Entries>, events: seq<Event>, h: int)
    requires History(tables, events)
    ensures Lookup(tables[|events|], h) == if h in Live(events) then Some(Live(events)[h]) else None
    decreases |events|
  {
    if events != [] {
      var n := |events| - 1;
      HistoryPrefix(tables, events, n);
      TableIsLive(tables[..n + 1], events[..n], h);
      assert Happens(tables[n], events[n], tables[n + 1]);
    }
  }

  /** A handle that is given out is not in use, and every smaller one is. */
  lemma OpensUnused(tables: seq<Entries>, events: seq<Event>, i: nat)
    requires History(tables, events) && i < |events| && events[i].Opened?
    ensures events[i].handle !in Live(events[..i])
    ensures forall h :: 0 <= h < events[i].handle ==> h in Live(events[..i])
  {
    assert Happens(tables[i], events[i], tables[i + 1]);
    HistoryPrefix(tables, events, i);
    forall h: int
      ensures h in Live(events[..i]) <==> Lookup(tables[i], h) != None
    {
      TableIsLive(tables[..i + 1], events[..i], h);
    }
  }
}
