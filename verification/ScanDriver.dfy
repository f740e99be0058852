/** The scan in the form the source has: one object, an array of slots sorted in place. */
module ScanDriver {
  import opened Common
  import opened ScanRanking
  import opened ScanSpec
  import ScanRuns

  // The slots hold `list` from the front and nothing after it.
  predicate Holds(slots: seq<Option<Ref>>, list: seq<Ref>) {
    |list| <= |slots| && forall i :: 0 <= i < |slots| ==> slots[i] == Slot(list, i)
  }

  function Slot(list: seq<Ref>, j: nat): Option<Ref> {
    if j < |list| then Some(list[j]) else None
  }

  // Filling the slots from the back: `i` is the last slot not read yet, the first `k` of the old
  // entries `kept` and the first `rc` new ones are still to be placed.
  ghost predicate Filling(h: Heap, slots: seq<Option<Ref>>, before: seq<Option<Ref>>, kept: seq<Ref>, block: nat,
                          all: seq<Ref>, i: int, k: nat, rc: nat)
  {
    && |slots| == |before| && i < |slots|
    && AllLive(h, kept) && block in h && rc <= |h[block]|
    && k <= |kept| && k + rc <= |all| <= |slots|
    && |kept| <= |before| && (forall j :: 0 <= j < |kept| ==> before[j] == Some(kept[j]))
    && (if i < |kept| then k == i + 1 else k == |kept|)
    && AllLive(h, kept[..k]) && AllLive(h, Refs(block, rc)) && Merge(h, kept[..k], Refs(block, rc)) <= all
    && (forall j :: 0 <= j <= i ==> slots[j] == before[j])           // nothing unread is overwritten
    && (forall j :: k + rc <= j < |slots| ==> slots[j] == Slot(all, j))
  }

  lemma {:induction false} MergeTakesNew(heap: Heap, kept: seq<Ref>, block: nat, rc: nat)
    requires AllLive(heap, kept) && kept != [] && block in heap && 0 < rc <= |heap[block]|
    requires Rssi(heap, Last(kept)) > heap[block][rc - 1].rssi
    ensures Merge(heap, kept, Refs(block, rc)) == Merge(heap, kept, Refs(block, rc - 1)) + [Ref(block, rc - 1)]
  {
    assert Front(Refs(block, rc)) == Refs(block, rc - 1);
  }

  lemma {:induction false} MergeTakesOld(heap: Heap, kept: seq<Ref>, k: nat, block: nat, rc: nat)
    requires AllLive(heap, kept) && 0 < k <= |kept| && block in heap && 0 < rc <= |heap[block]|
    requires Rssi(heap, kept[k - 1]) <= heap[block][rc - 1].rssi
    ensures Merge(heap, kept[..k], Refs(block, rc)) == Merge(heap, kept[..k - 1], Refs(block, rc)) + [kept[k - 1]]
  {
    assert Front(kept[..k]) == kept[..k - 1];
  }

  lemma {:induction false} TakeNew(h: Heap, slots: seq<Option<Ref>>, before: seq<Option<Ref>>, kept: seq<Ref>,
                                   block: nat, all: seq<Ref>, i: int, k: nat, rc: nat)
    requires Filling(h, slots, before, kept, block, all, i, k, rc)
    requires 0 <= i < |kept| && rc > 0 && Rssi(h, kept[i]) > h[block][rc - 1].rssi
    ensures i + rc < |slots|
    ensures Filling(h, slots[i + rc := Some(Ref(block, rc - 1))], before, kept, block, all, i, k, rc - 1)
  {
    var m := Merge(h, kept[..k], Refs(block, rc - 1));
    MergeTakesNew(h, kept[..k], block, rc);
    assert m + [Ref(block, rc - 1)] <= all;
    assert all[i + rc] == (m + [Ref(block, rc - 1)])[|m|];
  }

  lemma {:induction false} TakeOld(h: Heap, slots: seq<Option<Ref>>, before: seq<Option<Ref>>, kept: seq<Ref>,
                                   block: nat, all: seq<Ref>, i: int, k: nat, rc: nat)
    requires Filling(h, slots, before, kept, block, all, i, k, rc)
    requires 0 <= i < |kept| && rc > 0 && Rssi(h, kept[i]) <= h[block][rc - 1].rssi
    ensures i + rc < |slots|
    ensures Filling(h, slots[i + rc := Some(kept[i])], before, kept, block, all, i - 1, k - 1, rc)
  {
    var m := Merge(h, kept[..k - 1], Refs(block, rc));
    MergeTakesOld(h, kept, k, block, rc);
    assert m + [kept[i]] <= all;
    assert all[i + rc] == (m + [kept[i]])[|m|];
  }

  lemma {:induction false} FillingStarts(h: Heap, slots: seq<Option<Ref>>, list: seq<Ref>, block: nat)
    requires AllLive(h, list) && block in h && Holds(slots, list)
    ensures var n := |slots|;
            var rc := Min(|h[block]|, n);
            var kept := list[..KeptLen(n, |list|, rc)];
            && Filling(h, slots, slots, kept, block, Insert(h, n, list, block), n - rc - 1, |kept|, rc)
            && |Insert(h, n, list, block)| == |kept| + rc
            && forall j :: 0 <= j < n - rc ==> slots[j] == Slot(kept, j)
  {
    var n := |slots|;
    var rc := Min(|h[block]|, n);
    var kept := list[..KeptLen(n, |list|, rc)];
    assert kept[..|kept|] == kept;
  }

  lemma {:induction false} Filled(h: Heap, slots: seq<Option<Ref>>, before: seq<Option<Ref>>, kept: seq<Ref>,
                                  block: nat, all: seq<Ref>, i: int, k: nat, rc: nat)
    requires Filling(h, slots, before, kept, block, all, i, k, rc)
    requires rc == 0 || i == -1
    ensures forall j :: rc <= j < |slots| ==> slots[j] == Slot(all, j)
    ensures forall j :: 0 <= j < rc ==> all[j] == Ref(block, j)
  {
    if rc == 0 {
      assert Refs(block, 0) == [];
      assert kept[..k] <= all;
      forall j | 0 <= j < k
        ensures slots[j] == Slot(all, j)
      {
        assert all[j] == kept[..k][j];
      }
    } else {
      assert kept[..k] == [];
      assert Merge(h, [], Refs(block, rc)) == Refs(block, rc);
      assert Refs(block, rc) <= all;
      assert forall j :: 0 <= j < rc ==> all[j] == Refs(block, rc)[j];
    }
  }

  // One round of the first loop: a slot is passed over or filled.
  method MergeOne(sorted: array<Option<Ref>>, heap: Heap, block: nat, ghost before: seq<Option<Ref>>,
                  ghost kept: seq<Ref>, ghost all: seq<Ref>, i: int, rc: nat, ghost k: nat)
    returns (i': int, rc': nat, ghost k': nat)
    requires Filling(heap, sorted[..], before, kept, block, all, i, k, rc) && rc > 0 && i >= 0
    requires forall j :: |kept| <= j <= i ==> before[j].None?
    modifies sorted
    ensures Filling(heap, sorted[..], before, kept, block, all, i', k', rc')
    ensures (i' == i - 1 && rc' == rc) || (i' == i && rc' == rc - 1)
  {
    i', rc', k' := i, rc, k;
    if sorted[i].Some? {
      ghost var slots := sorted[..];
      assert slots[i] == before[i];
      if Rssi(heap, sorted[i].value) > heap[block][rc - 1].rssi {
        TakeNew(heap, slots, before, kept, block, all, i, k, rc);
        sorted[i + rc] := Some(Ref(block, rc - 1));
        assert sorted[..] == slots[i + rc := Some(Ref(block, rc - 1))];
        return i, rc - 1, k;
      }
      TakeOld(heap, slots, before, kept, block, all, i, k, rc);
      sorted[i + rc] := sorted[i];
      assert sorted[..] == slots[i + rc := Some(kept[i])];
      k' := k - 1;
    }
    i' := i - 1;
  }

  // The first loop of the in-place merge, weakest first from the back. It leaves the count of
  // new records that go before everything already placed.
  method MergeBack(sorted: array<Option<Ref>>, heap: Heap, block: nat, ghost list: seq<Ref>) returns (rc: nat)
    requires AllLive(heap, list) && block in heap
    requires Holds(sorted[..], list)
    modifies sorted
    ensures var all := Insert(heap, sorted.Length, list, block);
            && rc <= |all| <= sorted.Length
            && (forall j :: rc <= j < sorted.Length ==> sorted[j] == Slot(all, j))
            && (forall j :: 0 <= j < rc ==> all[j] == Ref(block, j))
  {
    var n := sorted.Length;
    var count := |heap[block]|;
    rc := if n > count then count else n;
    var i := n - rc - 1;
    ghost var before := sorted[..];
    ghost var kept := list[..KeptLen(n, |list|, rc)];
    ghost var all := Insert(heap, n, list, block);
    ghost var k: nat := |kept|;
    FillingStarts(heap, before, list, block);
    while rc > 0 && i >= 0
      invariant -1 <= i < n - Min(count, n)
      invariant Filling(heap, sorted[..], before, kept, block, all, i, k, rc)
      decreases i + rc
    {
      i, rc, k := MergeOne(sorted, heap, block, before, kept, all, i, rc, k);
    }
    Filled(heap, sorted[..], before, kept, block, all, i, k, rc);
  }

  // The in-place merge of the records of `block` into the slots
  method MergeRecords(sorted: array<Option<Ref>>, heap: Heap, block: nat, ghost list: seq<Ref>)
    requires AllLive(heap, list) && block in heap
    requires Holds(sorted[..], list)
    modifies sorted
    ensures Holds(sorted[..], Insert(heap, sorted.Length, list, block))
  {
    var rc := MergeBack(sorted, heap, block, list);
    PlaceNew(sorted, block, rc);
  }

  // The second loop: new records that are stronger than every old one fill the front slots.
  method PlaceNew(sorted: array<Option<Ref>>, block: nat, count: nat)
    requires count <= sorted.Length
    modifies sorted
    ensures forall j :: 0 <= j < sorted.Length ==> sorted[j] == if j < count then Some(Ref(block, j)) else old(sorted[j])
  {
    var rc := count;
    while rc > 0
      invariant 0 <= rc <= count
      invariant forall j :: 0 <= j < sorted.Length ==>
                              sorted[j] == if rc <= j < count then Some(Ref(block, j)) else old(sorted[j])
    {
      sorted[rc - 1] := Some(Ref(block, rc - 1));
      rc := rc - 1;
    }
  }

  class Prov {
    const sorted: array<Option<Ref>>     // ap_list_sorted
    var scanning: bool
    var group: nat
    var cur: nat
    var heap: Heap
    var apList: seq<Option<nat>>
    var nextId: nat
    ghost var list: seq<Ref>
    ghost var done: seq<nat>
    ghost var merged: seq<seq<Record>>

    ghost function Model(): Scan
      reads this
    {
      Scan(sorted.Length, scanning, group, cur, heap, apList, nextId, list, done, merged)
    }

    ghost predicate Valid()
      reads this, sorted
    {
      Inv(Model()) && Holds(sorted[..], list)
    }

    constructor (n: nat)
      requires n > 0
      ensures Valid() && Model() == FreshScan(n) && fresh(sorted)
    {
      sorted := new Option<Ref>[n](_ => None);
      scanning, group, cur, heap, nextId := false, 0, 0, map[], 0;
      apList := seq(CHANNELS, _ => None);
      list, done, merged := [], [], [];
      new;
      ScanRuns.FreshOk(n);
    }

    method ScanStart(groupChannels: nat, driverStarted: bool) returns (ok: bool)
      requires Valid()
      modifies this, sorted
      ensures Valid() && Model() == Start(old(Model()), groupChannels, driverStarted)
      ensures ok == (old(scanning) || driverStarted)
    {
      ScanRuns.StepKeepsInv(Model(), ScanRuns.StartScan(groupChannels, driverStarted));
      if scanning {
        return true;
      }
      var i := 0;
      while i < sorted.Length
        invariant 0 <= i <= sorted.Length
        invariant forall j :: 0 <= j < i ==> sorted[j] == None
        modifies sorted
      {
        sorted[i] := None;
        i := i + 1;
      }
      list, done, merged := [], [], [];
      group := groupChannels;
      if !driverStarted {
        return false;
      }
      scanning := true;
      cur := if group != 0 then 1 else 0;
      return true;
    }

    // update_wifi_scan_results. With more records than the log can count the handler stays in the
    // log loop: the records are stored by then, but neither ranked nor followed by another scan.
    method UpdateScanResults(o: Outcome, restarted: bool) returns (hung: bool)
      requires Valid() && scanning && (o.Found? ==> Ranked(o.records))
      modifies this, sorted
      ensures hung <==> Hangs(o)
      ensures hung ==> Model() == Obtained(old(Model()), o.records) && sorted[..] == old(sorted[..])
      ensures !hung ==> Valid() && Model() == ScanDone(old(Model()), o, restarted)
    {
      NotYetDone(Model());
      if !Hangs(o) {
        ScanRuns.StepKeepsInv(Model(), ScanRuns.ChannelDone(o, restarted));
      }
      var ended := StoreResults(o);
      hung := !ended;
      if ended {
        NextChannel(Succeeded(o), restarted);
      }
    }

    // The part after the label exit
    method NextChannel(ok: bool, restarted: bool)
      modifies `scanning, `cur, `done
      ensures Model() == Advance(old(Model()), ok, restarted)
    {
      done := done + [cur];
      if group == 0 {
        scanning := false;
      } else {
        cur := (cur + 1) % CHANNELS;
        if !ok || cur == 0 {
          scanning := false;
        } else if !restarted {
          scanning := false;
        }
      }
    }

    method FreeRecords()
      requires cur < |apList|
      modifies this`heap, this`apList
      ensures Model() == Free(old(Model()), cur)
    {
      if apList[cur].Some? {
        heap := heap - {apList[cur].value};
        apList := apList[cur := None];
      }
    }

    method AllocateRecords(records: seq<Record>) returns (block: nat)
      requires cur < |apList|
      modifies this`heap, this`apList, this`nextId
      ensures Model() == Allocate(old(Model()), cur, records) && block == old(nextId)
    {
      block := nextId;
      nextId := nextId + 1;
      heap := heap[block := records];
      apList := apList[cur := Some(block)];
    }

    // The log of the records that have been found, as far as `rounds` rounds of its loop get
    static method LogRecords(count: nat, rounds: nat) returns (ended: bool)
      ensures ended <==> !LogsOn(count, rounds + 1)
    {
      var i := 0;
      for k := 0 to rounds
        invariant i == LogIndex(k) && LogsOn(count, k)
      {
        if i >= count {
          return true;
        }
        i := (i + 1) % 256;
      }
      ended := i >= count;
    }

    // The records of the finished channel replace those the channel had, and are ranked; as many
    // rounds of the log loop as there are records tell whether it ever ends.
    method StoreResults(o: Outcome) returns (ended: bool)
      requires Valid() && scanning && CurNotListed(Model())
      modifies this`heap, this`apList, this`nextId, this`list, this`merged, sorted
      ensures ended <==> !Hangs(o)
      ensures ended ==> Model() == Store(old(Model()), o) && Holds(sorted[..], list)
      ensures !ended ==> Model() == Obtained(old(Model()), o.records) && sorted[..] == old(sorted[..])
    {
      ghost var before := Model();
      ended := true;
      FreeRecords();
      match o
      case Failed =>
      case NoAps =>
      case RecordsFailed(count) =>
        var _ := AllocateRecords(ZeroRecords(count));
      case Found(records) =>
        ScanRuns.ReplaceOk(before, records);
        var block := AllocateRecords(records);
        LogLoopEnds(|records|);
        ended := LogRecords(|records|, |records|);
        if !ended {
          return;
        }
        MergeRecords(sorted, heap, block, list);
        list := Insert(heap, sorted.Length, list, block);
        merged := merged + [records];
    }

    method ResultCount() returns (count: nat)
      requires Valid()
      ensures count == |list| == Min(sorted.Length, Total(merged))
    {
      count := 0;
      while count < sorted.Length && sorted[count].Some?
        invariant 0 <= count <= |list|
      {
        count := count + 1;
      }
    }

    // wifi_prov_wifi_scan_result. Nobody compares the index, which comes with the request, with
    // the number of slots: `inside` tells whether there is such a slot.
    method Result(index: nat) returns (inside: bool, record: Option<Ref>)
      requires Valid()
      ensures inside <==> index < sorted.Length
      ensures inside ==> record == Slot(list, index) && (record.Some? ==> Live(heap, record.value))
    {
      inside, record := index < sorted.Length, None;
      if inside {
        record := sorted[index];
      }
    }
  }
}
