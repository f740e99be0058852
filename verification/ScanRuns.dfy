/** What holds over any sequence of scans. */
module ScanRuns {
  import opened Common
  import opened ScanRanking
  import opened ScanSpec

  datatype Step = StartScan(group: nat, started: bool) | ChannelDone(o: Outcome, restarted: bool)

  // One SCAN_DONE event comes for each scan started.
  ghost predicate Enabled(s: Scan, e: Step) {
    e.ChannelDone? ==> s.scanning && Returns(e.o)
  }

  ghost function Apply(s: Scan, e: Step): Scan
    requires Inv(s) && Enabled(s, e)
  {
    match e
    case StartScan(group, started) => Start(s, group, started)
    case ChannelDone(o, restarted) => ScanDone(s, o, restarted)
  }

  // ---- The list ----

  predicate FromBlocks(s: seq<Ref>, blocks: set<nat>) {
    forall i :: 0 <= i < |s| ==> s[i].block in blocks
  }

  lemma {:induction false} MergeBlocks(h: Heap, a: seq<Ref>, b: seq<Ref>, blocks: set<nat>)
    requires AllLive(h, a) && AllLive(h, b) && FromBlocks(a, blocks) && FromBlocks(b, blocks)
    ensures FromBlocks(Merge(h, a, b), blocks)
    decreases |a| + |b|
  {
    if a != [] && b != [] {
      if Rssi(h, Last(a)) > Rssi(h, Last(b)) {
        MergeBlocks(h, a, Front(b), blocks);
      } else {
        MergeBlocks(h, Front(a), b, blocks);
      }
    }
  }

  lemma {:induction false} RankingElements(h: Heap, a: seq<Ref>, b: seq<Ref>, block: nat, r: seq<Ref>)
    requires IsRanking(h, a, b, block, r)
    ensures forall x :: x in r <==> x in a || x in b
  {
    OfElements(r, block);
    assert multiset(r) == multiset(a) + multiset(b);
    forall x
      ensures x in r <==> x in a || x in b
    {
      assert x in r <==> x in multiset(r);
      assert x in a <==> x in multiset(a);
      assert x in b <==> x in multiset(b);
    }
  }

  predicate Avoids(s: seq<Ref>, x: Ref) {
    forall i :: 0 <= i < |s| ==> s[i] != x
  }

  lemma {:induction false} MergeAvoids(h: Heap, a: seq<Ref>, b: seq<Ref>, x: Ref)
    requires AllLive(h, a) && AllLive(h, b) && Avoids(a, x) && Avoids(b, x)
    ensures Avoids(Merge(h, a, b), x)
    decreases |a| + |b|
  {
    if a != [] && b != [] {
      if Rssi(h, Last(a)) > Rssi(h, Last(b)) {
        MergeAvoids(h, a, Front(b), x);
      } else {
        MergeAvoids(h, Front(a), b, x);
      }
    }
  }

  lemma {:induction false} MergeDistinct(h: Heap, a: seq<Ref>, b: seq<Ref>, block: nat)
    requires AllLive(h, a) && AllLive(h, b) && OldAndNew(a, b, block)
    requires Distinct(a) && Distinct(b)
    ensures Distinct(Merge(h, a, b))
    decreases |a| + |b|
  {
    if a != [] && b != [] {
      assert a[|a| - 1].block != block && b[|b| - 1].block == block;
      if Rssi(h, Last(a)) > Rssi(h, Last(b)) {
        MergeDistinct(h, a, Front(b), block);
        MergeAvoids(h, a, Front(b), Last(b));
      } else {
        MergeDistinct(h, Front(a), b, block);
        MergeAvoids(h, Front(a), b, Last(a));
      }
    }
  }

  lemma {:induction false} MergeHead(h: Heap, a: seq<Ref>, b: seq<Ref>)
    requires AllLive(h, a) && AllLive(h, b) && Descending(h, a) && Descending(h, b) && a != [] && b != []
    ensures var m := Merge(h, a, b)[0];
            && (m == a[0] || m == b[0])
            && Rssi(h, m) >= Rssi(h, a[0]) && Rssi(h, m) >= Rssi(h, b[0])
    decreases |a| + |b|
  {
    if Rssi(h, Last(a)) > Rssi(h, Last(b)) {
      if |b| > 1 {
        MergeHead(h, a, Front(b));
      }
    } else {
      if |a| > 1 {
        MergeHead(h, Front(a), b);
      }
    }
  }

  lemma {:induction false} InsertIsRanking(h: Heap, n: nat, list: seq<Ref>, block: nat)
    requires n > 0 && |list| <= n && AllLive(h, list) && Descending(h, list) && block in h && Ranked(h[block])
    requires forall i :: 0 <= i < |list| ==> list[i].block != block
    ensures var rc := Min(|h[block]|, n);
            var r := Insert(h, n, list, block);
            && |r| == Min(n, |list| + |h[block]|)
            && (Distinct(list) ==> Distinct(r))
            && IsRanking(h, list[..KeptLen(n, |list|, rc)], Refs(block, rc), block, r)
  {
    var rc := Min(|h[block]|, n);
    MergeIsRanking(h, list[..KeptLen(n, |list|, rc)], Refs(block, rc), block);
    if Distinct(list) {
      MergeDistinct(h, list[..KeptLen(n, |list|, rc)], Refs(block, rc), block);
    }
  }

  // ---- One step ----

  // The list and the heap, apart from which channels count as processed
  ghost predicate StorageOk(s: Scan) {
    && s.n > 0 && s.cur < CHANNELS && HeapOk(s)
    && |s.list| <= s.n && AllLive(s.heap, s.list) && Descending(s.heap, s.list) && Distinct(s.list)
  }

  predicate SameRssi(h: Heap, g: Heap, list: seq<Ref>) {
    AllLive(h, list) && AllLive(g, list) && forall i :: 0 <= i < |list| ==> Rssi(h, list[i]) == Rssi(g, list[i])
  }

  lemma {:induction false} FreeOk(s: Scan)
    requires StorageOk(s)
    requires CurNotListed(s)
    ensures var f := Free(s, s.cur);
            StorageOk(f) && SameRssi(s.heap, f.heap, s.list) && f.apList == s.apList[s.cur := None]
  {
  }

  lemma {:induction false} FreeLeaksNothing(s: Scan)
    requires HeapOk(s) && NoLeak(s.heap, s.apList) && s.cur < CHANNELS
    ensures NoLeak(Free(s, s.cur).heap, Free(s, s.cur).apList)
  {
    var f := Free(s, s.cur);
    forall b | b in f.heap
      ensures HasOwner(f.apList, b)
    {
      assert HasOwner(s.apList, b);
      var c :| 0 <= c < |s.apList| && Owned(s.apList, c, b);
      assert Owned(f.apList, c, b);
    }
  }

  lemma {:induction false} AllocateLeaksNothing(f: Scan, records: seq<Record>)
    requires HeapOk(f) && NoLeak(f.heap, f.apList) && f.cur < CHANNELS && f.apList[f.cur].None?
    ensures NoLeak(Allocate(f, f.cur, records).heap, Allocate(f, f.cur, records).apList)
  {
    var a := Allocate(f, f.cur, records);
    forall b | b in a.heap
      ensures HasOwner(a.apList, b)
    {
      if b == f.nextId {
        assert Owned(a.apList, f.cur, b);
      } else {
        assert HasOwner(f.apList, b);
        var c :| 0 <= c < |f.apList| && Owned(f.apList, c, b);
        assert Owned(a.apList, c, b);
      }
    }
  }

  lemma {:induction false} AllocateOk(f: Scan, records: seq<Record>)
    requires StorageOk(f) && f.apList[f.cur].None?
    requires forall i :: 0 <= i < |f.list| ==> f.list[i].block != f.nextId
    ensures var a := Allocate(f, f.cur, records);
            && StorageOk(a) && SameRssi(f.heap, a.heap, f.list)
            && a.heap[f.nextId] == records
  {
  }

  predicate Stored(s: Scan, t: Scan) {
    && t == s.(heap := t.heap, apList := t.apList, nextId := t.nextId, list := t.list, merged := t.merged)
    && |t.apList| == |s.apList|
    && (forall c :: 0 <= c < |s.apList| && c != s.cur ==> t.apList[c] == s.apList[c])
    && (forall i :: 0 <= i < |t.list| ==> (exists j :: 0 <= j < |s.list| && t.list[i].block == s.list[j].block)
                                          || Owned(t.apList, s.cur, t.list[i].block))
  }

  // Freeing, or allocating for the current channel, leaves the list and what it says alone.
  lemma {:induction false} HeapChangeOk(s: Scan, t: Scan)
    requires StorageOk(s) && HistoryOk(s) && StorageOk(t) && SameRssi(s.heap, t.heap, s.list)
    requires t == s.(heap := t.heap, apList := t.apList, nextId := t.nextId)
    requires forall c :: 0 <= c < CHANNELS && c != s.cur ==> t.apList[c] == s.apList[c]
    ensures Stored(s, t) && HistoryOk(t)
  {
  }

  lemma {:induction false} StoreOk(s: Scan, o: Outcome)
    requires Inv(s) && s.scanning && Returns(o) && CurNotListed(s)
    ensures StorageOk(Store(s, o)) && Stored(s, Store(s, o)) && HistoryOk(Store(s, o))
  {
    if o.Failed? || o.NoAps? {
      FreeOk(s);
      HeapChangeOk(s, Free(s, s.cur));
    } else {
      var records := if o.Found? then o.records else ZeroRecords(o.count);
      ReplaceOk(s, records);
      var a := Allocate(Free(s, s.cur), s.cur, records);
      if o.Found? {
        FoundOk(s, a, records);
      } else {
        HeapChangeOk(s, a);
      }
    }
  }

  lemma {:induction false} ReplaceOk(s: Scan, records: seq<Record>)
    requires StorageOk(s) && CurNotListed(s)
    ensures var a := Allocate(Free(s, s.cur), s.cur, records);
            && StorageOk(a) && SameRssi(s.heap, a.heap, s.list) && a.heap[s.nextId] == records
            && (forall c :: 0 <= c < CHANNELS && c != s.cur ==> a.apList[c] == s.apList[c])
  {
    FreeOk(s);
    AllocateOk(Free(s, s.cur), records);
  }

  lemma {:induction false} StoreLeaksNothing(s: Scan, o: Outcome)
    requires Inv(s) && s.scanning && CurNotListed(s)
    ensures NoLeak(Store(s, o).heap, Store(s, o).apList)
  {
    FreeOk(s);
    FreeLeaksNothing(s);
    if o.Found? || o.RecordsFailed? {
      AllocateLeaksNothing(Free(s, s.cur), if o.Found? then o.records else ZeroRecords(o.count));
    }
  }

  lemma {:induction false} FoundOk(s: Scan, a: Scan, records: seq<Record>)
    requires StorageOk(s) && HistoryOk(s) && StorageOk(a) && Ranked(records)
    requires a == s.(heap := a.heap, apList := a.apList, nextId := a.nextId)
    requires s.nextId in a.heap && a.heap[s.nextId] == records && Owned(a.apList, s.cur, s.nextId)
    requires SameRssi(s.heap, a.heap, s.list)
    requires forall i :: 0 <= i < |s.list| ==> s.list[i].block != s.nextId
    requires forall c :: 0 <= c < CHANNELS && c != s.cur ==> a.apList[c] == s.apList[c]
    ensures var t := a.(list := Insert(a.heap, s.n, s.list, s.nextId), merged := s.merged + [records]);
            StorageOk(t) && Stored(s, t) && HistoryOk(t)
  {
    InsertIsRanking(a.heap, s.n, s.list, s.nextId);
    var t := a.(list := Insert(a.heap, s.n, s.list, s.nextId), merged := s.merged + [records]);
    assert StorageOk(t);
    InsertBlocks(a.heap, s.n, s.list, s.nextId);
    assert Stored(s, t);
    InsertSays(a.heap, s.n, s.list, s.merged, s.nextId);
  }

  lemma {:induction false} InsertBlocks(h: Heap, n: nat, list: seq<Ref>, block: nat)
    requires AllLive(h, list) && block in h
    ensures var r := Insert(h, n, list, block);
            forall i :: 0 <= i < |r| ==> r[i].block == block || exists j :: 0 <= j < |list| && r[i].block == list[j].block
  {
    var rc := Min(|h[block]|, n);
    var olds := set j | 0 <= j < |list| :: list[j].block;
    MergeBlocks(h, list[..KeptLen(n, |list|, rc)], Refs(block, rc), olds + {block});
  }

  // What the list says about the lists merged, read in the heap `h`
  predicate Says(h: Heap, n: nat, list: seq<Ref>, merged: seq<seq<Record>>)
    requires AllLive(h, list)
  {
    && |list| == Min(n, Total(merged))
    && (list != [] ==> Strongest(Rssi(h, list[0]), merged[LastFlood(n, merged)..]))
  }

  lemma {:induction false} InsertSays(h: Heap, n: nat, list: seq<Ref>, merged: seq<seq<Record>>, block: nat)
    requires n > 0 && |list| <= n && AllLive(h, list) && Descending(h, list)
    requires block in h && Ranked(h[block]) && forall i :: 0 <= i < |list| ==> list[i].block != block
    requires Says(h, n, list, merged)
    ensures Says(h, n, Insert(h, n, list, block), merged + [h[block]])
  {
    InsertIsRanking(h, n, list, block);
    var after := merged + [h[block]];
    assert Front(after) == merged && Last(after) == h[block];
    assert Total(after) == Total(merged) + |h[block]|;
    InsertSaysFirst(h, n, list, merged, block);
  }

  // What it says about the first entry
  lemma {:induction false} InsertSaysFirst(h: Heap, n: nat, list: seq<Ref>, merged: seq<seq<Record>>, block: nat)
    requires n > 0 && |list| <= n && AllLive(h, list) && Descending(h, list)
    requires block in h && Ranked(h[block])
    requires Says(h, n, list, merged)
    ensures var r, after := Insert(h, n, list, block), merged + [h[block]];
      r != [] ==> Strongest(Rssi(h, r[0]), after[LastFlood(n, after)..])
  {
    var records := h[block];
    var after := merged + [records];
    assert Front(after) == merged && Last(after) == records;
    if |records| >= n {
      assert LastFlood(n, after) == |merged| && after[|merged|..] == [records];
      FloodHead(h, n, list, block);
    } else if Insert(h, n, list, block) != [] {
      var from := LastFlood(n, merged);
      assert LastFlood(n, after) == from && after[from..] == merged[from..] + [records];
      InsertHead(h, n, list, block);
      if list != [] {
        StrongestSnoc(Rssi(h, list[0]), merged[from..], records);
      } else {
        NothingMerged(merged);
        StrongestOnly(merged[from..], records);
      }
    }
  }

  lemma {:induction false} FloodHead(h: Heap, n: nat, list: seq<Ref>, block: nat)
    requires n > 0 && AllLive(h, list) && block in h && Ranked(h[block]) && |h[block]| >= n
    ensures var r := Insert(h, n, list, block);
            r == Refs(block, n) && Strongest(Rssi(h, r[0]), [h[block]])
  {
    assert list[..0] == [];
    var lists: seq<seq<Record>> := [h[block]];
    assert lists[0][0].rssi == Rssi(h, Ref(block, 0));
  }

  // The first entry after new records came in
  lemma {:induction false} InsertHead(h: Heap, n: nat, list: seq<Ref>, block: nat)
    requires |list| <= n && AllLive(h, list) && Descending(h, list) && block in h && Ranked(h[block])
    requires |h[block]| < n && Insert(h, n, list, block) != []
    ensures var v := Rssi(h, Insert(h, n, list, block)[0]);
            if list == [] then h[block] != [] && v == h[block][0].rssi
            else v == if h[block] != [] && h[block][0].rssi > Rssi(h, list[0]) then h[block][0].rssi else Rssi(h, list[0])
  {
    var rc := |h[block]|;
    var kept := list[..KeptLen(n, |list|, rc)];
    var news := Refs(block, rc);
    if list != [] && rc > 0 {
      assert kept[0] == list[0] && news[0] == Ref(block, 0);
      MergeHead(h, kept, news);
    } else if rc == 0 {
      assert news == [];
    }
  }

  lemma {:induction false} StrongestSnoc(v: int, lists: seq<seq<Record>>, records: seq<Record>)
    requires Strongest(v, lists) && Ranked(records)
    ensures Strongest(if records != [] && records[0].rssi > v then records[0].rssi else v, lists + [records])
  {
    var all: seq<seq<Record>> := lists + [records];
    if records != [] && records[0].rssi > v {
      assert all[|lists|][0].rssi == records[0].rssi;
    } else {
      var i, j :| 0 <= i < |lists| && 0 <= j < |lists[i]| && lists[i][j].rssi == v;
      assert all[i][j].rssi == v;
    }
  }

  lemma {:induction false} StrongestOnly(lists: seq<seq<Record>>, records: seq<Record>)
    requires (forall i :: 0 <= i < |lists| ==> lists[i] == []) && Ranked(records) && records != []
    ensures Strongest(records[0].rssi, lists + [records])
  {
    var all: seq<seq<Record>> := lists + [records];
    assert all[|lists|][0].rssi == records[0].rssi;
  }

  lemma {:induction false} NothingMerged(lists: seq<seq<Record>>)
    requires Total(lists) == 0
    ensures forall i :: 0 <= i < |lists| ==> lists[i] == []
  {
    if lists != [] {
      NothingMerged(Front(lists));
      assert Last(lists) == [];
    }
  }

  lemma {:induction false} StillDone(s: Scan, t: Scan, block: nat)
    requires Inv(s) && Stored(s, t) && OfDoneChannel(s, block) && s.cur !in s.done
    ensures exists c :: c in s.done + [s.cur] && Owned(t.apList, c, block)
  {
    var c :| c in s.done && Owned(s.apList, c, block);
    assert c in s.done + [s.cur] && Owned(t.apList, c, block);
  }

  lemma {:induction false} ListStaysDone(s: Scan, t: Scan)
    requires Inv(s) && s.scanning && StorageOk(t) && Stored(s, t)
    ensures forall i :: 0 <= i < |t.list| ==> OfDoneChannel(t.(done := s.done + [s.cur]), t.list[i].block)
  {
    var u := t.(done := s.done + [s.cur]);
    forall i | 0 <= i < |t.list|
      ensures OfDoneChannel(u, t.list[i].block)
    {
      if Owned(t.apList, s.cur, t.list[i].block) {
        assert s.cur in u.done;
      } else {
        var j :| 0 <= j < |s.list| && t.list[i].block == s.list[j].block;
        assert OfDoneChannel(s, s.list[j].block);
        StillDone(s, t, s.list[j].block);
      }
    }
  }

  lemma {:induction false} DoneDependsOn(u: Scan, r: Scan)
    requires u.done == r.done && u.apList == r.apList && u.list == r.list
    requires forall i :: 0 <= i < |u.list| ==> OfDoneChannel(u, u.list[i].block)
    ensures forall i :: 0 <= i < |r.list| ==> OfDoneChannel(r, r.list[i].block)
  {
    forall i | 0 <= i < |r.list|
      ensures OfDoneChannel(r, r.list[i].block)
    {
      assert OfDoneChannel(u, u.list[i].block);
      var c :| c in u.done && Owned(u.apList, c, u.list[i].block);
      assert c in r.done && Owned(r.apList, c, r.list[i].block);
    }
  }

  lemma {:induction false} AdvanceProgress(s: Scan, t: Scan, ok: bool, restarted: bool)
    requires ProgressOk(s) && s.scanning
    requires t.done == s.done && t.cur == s.cur && t.group == s.group && t.scanning
    ensures ProgressOk(Advance(t, ok, restarted))
    ensures s.group != 0 ==> Advance(t, ok, restarted).done == UpTo(s.cur)
  {
    if s.group != 0 {
      assert UpTo(s.cur - 1) + [s.cur] == UpTo(s.cur);
    }
  }

  predicate SameRanking(s: Scan, t: Scan) {
    s.n == t.n && s.heap == t.heap && s.apList == t.apList && s.list == t.list && s.merged == t.merged
  }

  lemma {:induction false} RankingDependsOn(t: Scan, r: Scan)
    requires StorageOk(t) && HistoryOk(t) && SameRanking(t, r) && r.cur < CHANNELS && r.nextId == t.nextId
    ensures StorageOk(r) && HistoryOk(r)
  {
  }

  lemma {:induction false} AdvanceOk(s: Scan, t: Scan, ok: bool, restarted: bool)
    requires Inv(s) && s.scanning && StorageOk(t) && Stored(s, t) && HistoryOk(t) && NoLeak(t.heap, t.apList)
    ensures Inv(Advance(t, ok, restarted))
  {
    var r := Advance(t, ok, restarted);
    AdvanceProgress(s, t, ok, restarted);
    RankingDependsOn(t, r);
    ListStaysDone(s, t);
    DoneDependsOn(t.(done := s.done + [s.cur]), r);
  }

  lemma {:induction false} StepKeepsInv(s: Scan, e: Step)
    requires Inv(s) && Enabled(s, e)
    ensures Inv(Apply(s, e))
  {
    match e
    case StartScan(group, started) =>
      assert UpTo(0) == [];
    case ChannelDone(o, restarted) =>
      NotYetDone(s);
      StoreOk(s, o);
      StoreLeaksNothing(s, o);
      AdvanceOk(s, Store(s, o), Succeeded(o), restarted);
  }

  // ---- Runs ----

  ghost predicate Run(s: Scan, steps: seq<Step>)
    requires Inv(s)
    decreases |steps|
  {
    steps == [] || (Enabled(s, steps[0]) && (StepKeepsInv(s, steps[0]); Run(Apply(s, steps[0]), steps[1..])))
  }

  ghost function Final(s: Scan, steps: seq<Step>): (r: Scan)
    requires Inv(s) && Run(s, steps)
    ensures Inv(r)
    decreases |steps|
  {
    if steps == [] then s else StepKeepsInv(s, steps[0]); Final(Apply(s, steps[0]), steps[1..])
  }

  lemma {:induction false} FreshOk(n: nat)
    requires n > 0
    ensures Inv(FreshScan(n))
  {
    assert UpTo(0) == [];
  }

  lemma {:induction false} StepKeepsCapacity(s: Scan, e: Step)
    requires Inv(s) && Enabled(s, e)
    ensures Apply(s, e).n == s.n
  {
    if e.ChannelDone? {
      NotYetDone(s);
    }
  }

  lemma {:induction false} CapacityStays(s: Scan, steps: seq<Step>)
    requires Inv(s) && Run(s, steps)
    ensures Final(s, steps).n == s.n
    decreases |steps|
  {
    if steps != [] {
      StepKeepsInv(s, steps[0]);
      StepKeepsCapacity(s, steps[0]);
      CapacityStays(Apply(s, steps[0]), steps[1..]);
    }
  }

  /** Over any sequence of scans the list is full or complete, ranked, and refers to live records of the current scan. */
  lemma {:induction false} EveryRun(n: nat, steps: seq<Step>)
    requires n > 0
    requires Inv(FreshScan(n)) && Run(FreshScan(n), steps)
    ensures var f := Final(FreshScan(n), steps);
            && |f.list| == Min(n, Total(f.merged))
            && AllLive(f.heap, f.list) && Descending(f.heap, f.list)
            && (forall i :: 0 <= i < |f.list| ==> OfDoneChannel(f, f.list[i].block))
            && NoLeak(f.heap, f.apList)
            && (forall i, j :: 0 <= i < j < |f.done| ==> f.done[i] < f.done[j] < CHANNELS)
  {
    CapacityStays(FreshScan(n), steps);
    var f := Final(FreshScan(n), steps);
    assert f.done == [0] || f.done == UpTo(|f.done|);
  }

  /**
   The first entry is the strongest record of the whole scan if and only if no record merged
   before the last flooding list is stronger than all those merged from that list on. Without a
   flooding list it always is.
   */
  lemma {:induction false} StrongestFirstIff(s: Scan)
    requires Inv(s) && s.list != []
    ensures var v := Rssi(s.heap, s.list[0]);
            var from := LastFlood(s.n, s.merged);
            && (Strongest(v, s.merged) <==>
                forall i, j :: 0 <= i < from && 0 <= j < |s.merged[i]| ==>
                                 Reaches(s.merged[from..], s.merged[i][j].rssi))
            && ((forall i :: 0 <= i < |s.merged| ==> |s.merged[i]| < s.n) ==> Strongest(v, s.merged))
  {
    var v := Rssi(s.heap, s.list[0]);
    var from := LastFlood(s.n, s.merged);
    var tail: seq<seq<Record>> := s.merged[from..];
    var i, j :| 0 <= i < |tail| && 0 <= j < |tail[i]| && tail[i][j].rssi == v;
    assert s.merged[from + i][j].rssi == v;
    forall x | x <= v ensures Reaches(tail, x) {
      assert tail[i][j].rssi >= x;
    }
    forall i, j | from <= i < |s.merged| && 0 <= j < |s.merged[i]|
      ensures s.merged[i][j].rssi <= v
    {
      assert tail[i - from][j].rssi <= v;
    }
    if forall i :: 0 <= i < |s.merged| ==> |s.merged[i]| < s.n {
      NoFlood(s.n, s.merged);
    }
  }

  // Some record of the lists is at least as strong as `v`.
  predicate Reaches(lists: seq<seq<Record>>, v: int) {
    exists i, j :: 0 <= i < |lists| && 0 <= j < |lists[i]| && lists[i][j].rssi >= v
  }

  lemma {:induction false} NoFlood(n: nat, lists: seq<seq<Record>>)
    requires forall i :: 0 <= i < |lists| ==> |lists[i]| < n
    ensures LastFlood(n, lists) == 0
  {
    if lists != [] {
      NoFlood(n, Front(lists));
    }
  }

  // `r` keeps the strongest of all the entries: no entry left out is stronger than one kept.
  ghost predicate KeepsStrongest(h: Heap, all: seq<Ref>, r: seq<Ref>)
    requires AllLive(h, all) && AllLive(h, r)
  {
    forall x, y :: x in all && x !in r && y in r ==> Rssi(h, x) <= Rssi(h, y)
  }

  /**
   One merge keeps the strongest of the old and the new entries if and only if there was room
   for all the old ones or the strongest one displaced is not above the weakest new one.
   */
  lemma {:induction false} InsertKeepsStrongestIff(h: Heap, n: nat, list: seq<Ref>, block: nat)
    requires n > 0 && |list| <= n && AllLive(h, list) && Descending(h, list) && Distinct(list)
    requires block in h && h[block] != [] && Ranked(h[block])
    requires forall i :: 0 <= i < |list| ==> list[i].block != block
    ensures KeepsStrongest(h, list + Refs(block, |h[block]|), Insert(h, n, list, block))
            <==> DisplacesWeak(h, n, list, block)
  {
    InsertIsRanking(h, n, list, block);
    if DisplacesWeak(h, n, list, block) {
      WeakIsDisplaced(h, n, list, block);
    } else {
      StrongIsLost(h, n, list, block);
    }
  }

  // The list after a merge holds the entries kept and the new ones.
  lemma {:induction false} InsertElements(h: Heap, n: nat, list: seq<Ref>, block: nat)
    requires n > 0 && |list| <= n && AllLive(h, list) && Descending(h, list)
    requires block in h && Ranked(h[block])
    requires forall i :: 0 <= i < |list| ==> list[i].block != block
    ensures var rc := Min(|h[block]|, n);
            var kept := list[..KeptLen(n, |list|, rc)];
            forall x :: x in Insert(h, n, list, block) <==> x in kept || x in Refs(block, rc)
  {
    InsertIsRanking(h, n, list, block);
    var rc := Min(|h[block]|, n);
    RankingElements(h, list[..KeptLen(n, |list|, rc)], Refs(block, rc), block, Insert(h, n, list, block));
  }

  lemma {:induction false} StrongIsLost(h: Heap, n: nat, list: seq<Ref>, block: nat)
    requires n > 0 && |list| <= n && AllLive(h, list) && Descending(h, list) && Distinct(list)
    requires block in h && h[block] != [] && Ranked(h[block])
    requires forall i :: 0 <= i < |list| ==> list[i].block != block
    requires !DisplacesWeak(h, n, list, block)
    ensures AllLive(h, Insert(h, n, list, block))
    ensures !KeepsStrongest(h, list + Refs(block, |h[block]|), Insert(h, n, list, block))
  {
    var rc := Min(|h[block]|, n);
    InsertIsRanking(h, n, list, block);
    InsertElements(h, n, list, block);
    StrongIsDropped(h, n, list, block);
    Loses(h, list + Refs(block, |h[block]|), Insert(h, n, list, block), list[n - rc], Ref(block, rc - 1));
  }

  lemma {:induction false} Loses(h: Heap, all: seq<Ref>, r: seq<Ref>, x: Ref, y: Ref)
    requires AllLive(h, all) && AllLive(h, r) && x in all && x !in r && y in r && Rssi(h, x) > Rssi(h, y)
    ensures !KeepsStrongest(h, all, r)
  {
  }

  lemma {:induction false} WeakIsDisplaced(h: Heap, n: nat, list: seq<Ref>, block: nat)
    requires n > 0 && |list| <= n && AllLive(h, list) && Descending(h, list)
    requires block in h && h[block] != [] && Ranked(h[block])
    requires forall i :: 0 <= i < |list| ==> list[i].block != block
    requires DisplacesWeak(h, n, list, block)
    ensures AllLive(h, Insert(h, n, list, block))
    ensures KeepsStrongest(h, list + Refs(block, |h[block]|), Insert(h, n, list, block))
  {
    InsertIsRanking(h, n, list, block);
    InsertElements(h, n, list, block);
    var all, r := list + Refs(block, |h[block]|), Insert(h, n, list, block);
    forall x, y | x in all && x !in r && y in r
      ensures Rssi(h, x) <= Rssi(h, y)
    {
      DroppedIsWeak(h, n, list, block, x, y);
    }
  }

  // The old entries displaced by new ones, if any, are not above the weakest new one.
  predicate DisplacesWeak(h: Heap, n: nat, list: seq<Ref>, block: nat)
    requires |list| <= n && AllLive(h, list) && block in h && h[block] != []
  {
    var rc := Min(|h[block]|, n);
    |list| + rc <= n || (rc > 0 && Rssi(h, list[n - rc]) <= h[block][rc - 1].rssi)
  }

  lemma {:induction false} StrongIsDropped(h: Heap, n: nat, list: seq<Ref>, block: nat)
    requires n > 0 && |list| <= n && AllLive(h, list) && Distinct(list)
    requires block in h && h[block] != []
    requires forall i :: 0 <= i < |list| ==> list[i].block != block
    requires var rc := Min(|h[block]|, n);
             |list| + rc > n
    ensures var rc := Min(|h[block]|, n);
            var kept := list[..KeptLen(n, |list|, rc)];
            var x, y := list[n - rc], Ref(block, rc - 1);
            && x in list + Refs(block, |h[block]|) && x !in kept && x !in Refs(block, rc)
            && y in Refs(block, rc)
  {
    var rc := Min(|h[block]|, n);
    var kept := list[..KeptLen(n, |list|, rc)];
    assert Refs(block, rc)[rc - 1] == Ref(block, rc - 1);
    assert (list + Refs(block, |h[block]|))[n - rc] == list[n - rc];
    assert forall k :: 0 <= k < |kept| ==> kept[k] == list[k] != list[n - rc];
  }

  lemma {:induction false} DroppedIsWeak(h: Heap, n: nat, list: seq<Ref>, block: nat, x: Ref, y: Ref)
    requires n > 0 && |list| <= n && AllLive(h, list) && Descending(h, list)
    requires block in h && h[block] != [] && Ranked(h[block])
    requires var rc := Min(|h[block]|, n);
             var kept := list[..KeptLen(n, |list|, rc)];
             DisplacesWeak(h, n, list, block)
             && x in list + Refs(block, |h[block]|) && x !in kept && x !in Refs(block, rc)
             && (y in kept || y in Refs(block, rc))
    ensures Live(h, x) && Live(h, y) && Rssi(h, x) <= Rssi(h, y)
  {
    var rc := Min(|h[block]|, n);
    var kept := list[..KeptLen(n, |list|, rc)];
    if x in list {
      var i :| 0 <= i < |list| && list[i] == x;
      assert forall k :: 0 <= k < |kept| ==> list[k] == kept[k] != x;
    } else {
      var i :| 0 <= i < |h[block]| && Refs(block, |h[block]|)[i] == x;
      assert forall k :: 0 <= k < rc ==> Ref(block, k) == Refs(block, rc)[k] != x;
    }
    if y in kept {
      var j :| 0 <= j < |kept| && kept[j] == y;
      assert list[j] == y;
    } else {
      var j :| 0 <= j < rc && Refs(block, rc)[j] == y;
    }
  }

  // ---- A grouped scan ends ----

  /**
   A scan in channel groups goes on with a higher channel each time, so the events still to
   come before it ends are at most 14 minus the current channel.
   */
  lemma {:induction false} GroupedScanEnds(s: Scan, steps: seq<Step>)
    requires Inv(s) && s.scanning && s.group != 0
    requires Run(s, steps) && forall i :: 0 <= i < |steps| ==> steps[i].ChannelDone?
    ensures |steps| <= CHANNELS - s.cur
    ensures |steps| == CHANNELS - s.cur ==> !Final(s, steps).scanning
    decreases |steps|
  {
    if steps != [] {
      StepKeepsInv(s, steps[0]);
      NotYetDone(s);
      StoreOk(s, steps[0].o);
      var t := Apply(s, steps[0]);
      assert t.scanning ==> t.cur == s.cur + 1 && t.group == s.group;
      if t.scanning {
        GroupedScanEnds(t, steps[1..]);
      } else {
        assert |steps| > 1 ==> Enabled(t, steps[1..][0]);
      }
    }
  }
}
