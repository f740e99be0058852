/**
 The scan that a run of calls and events is in, or has done last, told from the calls and events
 alone: what has been processed, stored and ranked is what the driver has found in it.
 */
module ScanHistory {
  import opened Common
  import opened ScanRanking
  import opened ScanSpec
  import opened ScanRuns

  // The last start that found no scan running, and the events since; started: the driver's answer
  datatype LastScan = LastScan(group: nat, started: bool, events: seq<Step>)

  predicate WentWell(e: Step) {
    e.ChannelDone? && (e.o.NoAps? || e.o.Found?) && e.restarted
  }

  // All channels at once take one event. Channel by channel, a scan goes on after each of the
  // first 12 channels if it yielded a count and the driver has accepted the next one.
  predicate GoesOn(c: LastScan) {
    && c.started
    && (c.group == 0 ==> c.events == [])
    && |c.events| < 13 && forall i :: 0 <= i < |c.events| ==> WentWell(c.events[i])
  }

  function Since(c: LastScan, steps: seq<Step>): LastScan
    decreases |steps|
  {
    if steps == [] then c
    else match steps[0]
      case StartScan(group, started) => Since(if GoesOn(c) then c else LastScan(group, started, []), steps[1..])
      case ChannelDone(_, _) => Since(c.(events := c.events + [steps[0]]), steps[1..])
  }

  // The scan after the steps of a run
  function ScanOf(steps: seq<Step>): LastScan {
    Since(LastScan(0, false, []), steps)
  }

  function ChannelOf(group: nat, k: nat): nat {
    if group == 0 then 0 else k + 1
  }

  function Channels(c: LastScan): seq<nat> {
    seq(|c.events|, k requires 0 <= k < |c.events| => ChannelOf(c.group, k))
  }

  // The lists of records found, in the order of the events
  function FoundIn(events: seq<Step>): seq<seq<Record>> {
    if events == [] then []
    else
      var e := Last(events);
      FoundIn(Front(events)) + if e.ChannelDone? && e.o.Found? then [e.o.records] else []
  }

  // What a processed channel owns: the records found, zeroed ones if they could not be had, or none
  predicate ChannelHolds(s: Scan, c: nat, o: Outcome) {
    && c < |s.apList|
    && match o
       case Failed => s.apList[c].None?
       case NoAps => s.apList[c].None?
       case RecordsFailed(count) => HoldsBlock(s, s.apList[c], ZeroRecords(count))
       case Found(records) => HoldsBlock(s, s.apList[c], records)
  }

  predicate HoldsBlock(s: Scan, block: Option<nat>, records: seq<Record>) {
    block.Some? && block.value in s.heap && s.heap[block.value] == records
  }

  // The entry is a record that the driver has found on the k-th channel of the scan.
  predicate FoundOn(s: Scan, c: LastScan, k: nat, r: Ref) {
    && k < |c.events| && c.events[k].ChannelDone? && c.events[k].o.Found?
    && Owned(s.apList, ChannelOf(c.group, k), r.block)
    && r.idx < |c.events[k].o.records|
  }

  ghost predicate FoundInScan(s: Scan, c: LastScan, r: Ref) {
    exists k :: FoundOn(s, c, k, r)
  }

  predicate ProgressAgrees(s: Scan, c: LastScan) {
    && (s.scanning <==> GoesOn(c))
    && (s.scanning ==> s.group == c.group && s.cur == ChannelOf(c.group, |c.events|))
    && s.done == Channels(c)
    && (c.group == 0 ==> |c.events| <= 1) && |c.events| <= 13
    && (forall i :: 0 <= i < |c.events| ==> c.events[i].ChannelDone?)
    && (forall i :: 0 <= i < |c.events| - 1 ==> WentWell(c.events[i]))
  }

  ghost predicate StoreAgrees(s: Scan, c: LastScan) {
    && s.merged == FoundIn(c.events)
    && (forall k :: 0 <= k < |c.events| && c.events[k].ChannelDone? ==>
          ChannelHolds(s, ChannelOf(c.group, k), c.events[k].o))
    && (forall i :: 0 <= i < |s.list| ==> FoundInScan(s, c, s.list[i]))
  }

  lemma {:induction false} StartAgrees(s: Scan, c: LastScan, group: nat, started: bool)
    requires ProgressAgrees(s, c) && StoreAgrees(s, c)
    ensures var d := if GoesOn(c) then c else LastScan(group, started, []);
      ProgressAgrees(Start(s, group, started), d) && StoreAgrees(Start(s, group, started), d)
  {
  }

  lemma {:induction false} AdvanceAgrees(t: Scan, c: LastScan, e: Step)
    requires t.scanning && e.ChannelDone? && ProgressAgrees(t, c)
    ensures ProgressAgrees(Advance(t, Succeeded(e.o), e.restarted), c.(events := c.events + [e]))
  {
    var d := c.(events := c.events + [e]);
    var u := Advance(t, Succeeded(e.o), e.restarted);
    assert forall i :: 0 <= i < |c.events| ==> d.events[i] == c.events[i];
    assert d.events[|c.events|] == e;
    assert u.done == Channels(d);
  }

  lemma {:induction false} DoneProgress(s: Scan, c: LastScan, e: Step)
    requires Inv(s) && Enabled(s, e) && e.ChannelDone? && ProgressAgrees(s, c)
    ensures ProgressAgrees(Apply(s, e), c.(events := c.events + [e]))
  {
    NotYetDone(s);
    StoreOk(s, e.o);
    AdvanceAgrees(Store(s, e.o), c, e);
  }

  // What a channel processed before holds stays as it is while another one is processed.
  lemma {:induction false} OthersHold(s: Scan, t: Scan, c: nat, o: Outcome)
    requires HeapOk(s) && s.cur < CHANNELS && c != s.cur && ChannelHolds(s, c, o)
    requires Kept(s, t)
    ensures ChannelHolds(t, c, o)
  {
  }

  // The current channel's block goes, and a new one may come.
  predicate Kept(s: Scan, t: Scan)
    requires HeapOk(s) && s.cur < CHANNELS
  {
    && |t.apList| == CHANNELS
    && (forall c :: 0 <= c < CHANNELS && c != s.cur ==> t.apList[c] == s.apList[c])
    && (forall b :: b in s.heap && s.apList[s.cur] != Some(b) && b != s.nextId ==> b in t.heap && t.heap[b] == s.heap[b])
  }

  lemma {:induction false} AllocateHolds(s: Scan, records: seq<Record>)
    requires HeapOk(s) && s.cur < CHANNELS
    ensures var t := Allocate(Free(s, s.cur), s.cur, records);
      Kept(s, t) && HoldsBlock(t, t.apList[s.cur], records)
  {
  }

  lemma {:induction false} StoreHolds(s: Scan, o: Outcome)
    requires HeapOk(s) && s.cur < CHANNELS && AllLive(s.heap, s.list) && CurNotListed(s)
    ensures var t := Store(s, o);
      && Kept(s, t) && ChannelHolds(t, s.cur, o)
      && t.merged == s.merged + if o.Found? then [o.records] else []
  {
    match o
    case Failed =>
    case NoAps =>
    case RecordsFailed(count) => AllocateHolds(s, ZeroRecords(count));
    case Found(records) => AllocateHolds(s, records);
  }

  lemma {:induction false} InsertAdds(h: Heap, n: nat, list: seq<Ref>, block: nat, r: Ref)
    requires n > 0 && |list| <= n && AllLive(h, list) && Descending(h, list)
    requires block in h && Ranked(h[block])
    requires forall i :: 0 <= i < |list| ==> list[i].block != block
    requires r in Insert(h, n, list, block)
    ensures r in list || (r.block == block && r.idx < |h[block]|)
  {
    InsertElements(h, n, list, block);
    var rc := Min(|h[block]|, n);
    var kept := list[..KeptLen(n, |list|, rc)];
    if r in kept {
      assert r in list;
    } else {
      var i :| 0 <= i < rc && Refs(block, rc)[i] == r;
    }
  }

  // Every entry after a channel is an earlier one or one of the records just found.
  lemma {:induction false} StoreLists(s: Scan, o: Outcome, r: Ref)
    requires Inv(s) && s.scanning && Returns(o) && CurNotListed(s)
    requires r in Store(s, o).list
    ensures r in s.list || (o.Found? && Owned(Store(s, o).apList, s.cur, r.block) && r.idx < |o.records|)
  {
    if o.Found? {
      ReplaceOk(s, o.records);
      var a := Allocate(Free(s, s.cur), s.cur, o.records);
      assert Store(s, o).list == Insert(a.heap, s.n, s.list, s.nextId);
      InsertAdds(a.heap, s.n, s.list, s.nextId, r);
    }
  }

  /**
   One event ranks the records found among the strongest earlier entries there is room for; an
   event that finds none leaves the list.
   */
  lemma {:induction false} RanksFound(s: Scan, o: Outcome)
    requires Inv(s) && s.scanning && CurNotListed(s) && Returns(o)
    ensures var t := Store(s, o);
      && (!o.Found? ==> t.list == s.list)
      && (o.Found? ==>
            var rc := Min(|o.records|, s.n);
            && ChannelHolds(t, s.cur, o)
            && IsRanking(t.heap, s.list[..Min(|s.list|, s.n - rc)], Refs(t.apList[s.cur].value, rc),
                         t.apList[s.cur].value, t.list))
  {
    if o.Found? {
      FoundIsRanking(s, o.records);
    }
  }

  lemma {:induction false} FoundIsRanking(s: Scan, records: seq<Record>)
    requires StorageOk(s) && CurNotListed(s) && Ranked(records)
    ensures var a, rc := Allocate(Free(s, s.cur), s.cur, records), Min(|records|, s.n);
      && s.nextId in a.heap && a.heap[s.nextId] == records && a.apList[s.cur] == Some(s.nextId)
      && AllLive(a.heap, s.list)
      && IsRanking(a.heap, s.list[..Min(|s.list|, s.n - rc)], Refs(s.nextId, rc), s.nextId,
                   Insert(a.heap, s.n, s.list, s.nextId))
  {
    ReplaceOk(s, records);
    AllocateHolds(s, records);
    InsertIsRanking(Allocate(Free(s, s.cur), s.cur, records).heap, s.n, s.list, s.nextId);
  }

  lemma {:induction false} DoneHolds(s: Scan, t: Scan, c: LastScan, e: Step, k: nat)
    requires HeapOk(s) && s.cur == ChannelOf(c.group, |c.events|) && s.cur < CHANNELS && e.ChannelDone?
    requires c.group == 0 ==> c.events == []
    requires forall k :: 0 <= k < |c.events| && c.events[k].ChannelDone? ==>
      ChannelHolds(s, ChannelOf(c.group, k), c.events[k].o)
    requires Kept(s, t) && ChannelHolds(t, s.cur, e.o)
    requires k <= |c.events| && (k < |c.events| ==> c.events[k].ChannelDone?)
    ensures ChannelHolds(t, ChannelOf(c.group, k), (c.events + [e])[k].o)
  {
    if k < |c.events| {
      OthersHold(s, t, ChannelOf(c.group, k), c.events[k].o);
    }
  }

  lemma {:induction false} DoneFound(s: Scan, t: Scan, c: LastScan, e: Step, r: Ref)
    requires HeapOk(s) && s.cur == ChannelOf(c.group, |c.events|) && s.cur < CHANNELS && e.ChannelDone?
    requires c.group == 0 ==> c.events == []
    requires Kept(s, t)
    requires FoundInScan(s, c, r) || (e.o.Found? && Owned(t.apList, s.cur, r.block) && r.idx < |e.o.records|)
    ensures FoundInScan(t, c.(events := c.events + [e]), r)
  {
    var d := c.(events := c.events + [e]);
    if FoundInScan(s, c, r) {
      var k :| FoundOn(s, c, k, r);
      assert FoundOn(t, d, k, r);
    } else {
      assert FoundOn(t, d, |c.events|, r);
    }
  }

  lemma {:induction false} DoneStore(s: Scan, c: LastScan, e: Step)
    requires Inv(s) && Enabled(s, e) && e.ChannelDone? && ProgressAgrees(s, c) && StoreAgrees(s, c) && CurNotListed(s)
    ensures StoreAgrees(Store(s, e.o), c.(events := c.events + [e]))
  {
    StoreHolds(s, e.o);
    var d := c.(events := c.events + [e]);
    var t := Store(s, e.o);
    assert Front(d.events) == c.events && Last(d.events) == e;
    forall k | 0 <= k < |d.events| && d.events[k].ChannelDone?
      ensures ChannelHolds(t, ChannelOf(c.group, k), d.events[k].o)
    {
      DoneHolds(s, t, c, e, k);
    }
    forall i | 0 <= i < |t.list|
      ensures FoundInScan(t, d, t.list[i])
    {
      var r := t.list[i];
      StoreLists(s, e.o, r);
      if r in s.list {
        var j :| 0 <= j < |s.list| && s.list[j] == r;
        assert FoundInScan(s, c, s.list[j]);
      }
      DoneFound(s, t, c, e, r);
    }
  }

  // Going on with the next channel, or not, changes nothing of it.
  lemma {:induction false} AdvanceStore(t: Scan, c: LastScan, ok: bool, restarted: bool)
    requires StoreAgrees(t, c)
    ensures StoreAgrees(Advance(t, ok, restarted), c)
  {
    var u := Advance(t, ok, restarted);
    forall k | 0 <= k < |c.events| && c.events[k].ChannelDone?
      ensures ChannelHolds(u, ChannelOf(c.group, k), c.events[k].o)
    {
      assert ChannelHolds(t, ChannelOf(c.group, k), c.events[k].o);
    }
    forall i | 0 <= i < |u.list|
      ensures FoundInScan(u, c, u.list[i])
    {
      assert FoundInScan(t, c, t.list[i]);
      var k :| FoundOn(t, c, k, t.list[i]);
      assert FoundOn(u, c, k, u.list[i]);
    }
  }

  lemma {:induction false} RunAgrees(s: Scan, c: LastScan, steps: seq<Step>)
    requires Inv(s) && Run(s, steps) && ProgressAgrees(s, c) && StoreAgrees(s, c)
    ensures ProgressAgrees(Final(s, steps), Since(c, steps)) && StoreAgrees(Final(s, steps), Since(c, steps))
    decreases |steps|
  {
    if steps != [] {
      var e := steps[0];
      StepKeepsInv(s, e);
      match e
      case StartScan(group, started) =>
        StartAgrees(s, c, group, started);
        RunAgrees(Apply(s, e), if GoesOn(c) then c else LastScan(group, started, []), steps[1..]);
      case ChannelDone(_, _) =>
        DoneProgress(s, c, e);
        NotYetDone(s);
        DoneStore(s, c, e);
        AdvanceStore(Store(s, e.o), c.(events := c.events + [e]), Succeeded(e.o), e.restarted);
        RunAgrees(Apply(s, e), c.(events := c.events + [e]), steps[1..]);
    }
  }

  /**
   Over any sequence of scans, with `c` the scan that the calls and events amount to: a scan is
   running exactly while that one goes on; the channels processed are those of its events, and each
   holds what the driver has found on it; the list has an entry for each record found, up to the
   capacity, and every entry is a record found in this scan, on the channel that owns it.
   */
  lemma {:induction false} EveryScan(n: nat, steps: seq<Step>)
    requires n > 0
    requires Inv(FreshScan(n)) && Run(FreshScan(n), steps)
    ensures var f, c := Final(FreshScan(n), steps), ScanOf(steps);
      && ProgressAgrees(f, c) && StoreAgrees(f, c)
      && |f.list| == Min(n, Total(FoundIn(c.events)))
      && AllLive(f.heap, f.list) && Descending(f.heap, f.list) && Distinct(f.list)
  {
    RunAgrees(FreshScan(n), LastScan(0, false, []), steps);
    EveryRun(n, steps);
  }

  /**
   The first entry is the strongest record found in the scan if and only if no record found
   before the last list that alone fills all slots is stronger than all those found from there on.
   */
  lemma {:induction false} StrongestOfScanIff(n: nat, steps: seq<Step>)
    requires n > 0
    requires Inv(FreshScan(n)) && Run(FreshScan(n), steps)
    requires Total(FoundIn(ScanOf(steps).events)) > 0
    ensures var f, found := Final(FreshScan(n), steps), FoundIn(ScanOf(steps).events);
      var from := LastFlood(n, found);
      && f.list != []
      && (Strongest(Rssi(f.heap, f.list[0]), found) <==>
            forall i, j :: 0 <= i < from && 0 <= j < |found[i]| ==> Reaches(found[from..], found[i][j].rssi))
  {
    EveryScan(n, steps);
    CapacityStays(FreshScan(n), steps);
    StrongestFirstIff(Final(FreshScan(n), steps));
  }

  lemma {:induction false} SinceEvents(c: LastScan, steps: seq<Step>)
    requires forall i :: 0 <= i < |steps| ==> steps[i].ChannelDone?
    ensures Since(c, steps) == c.(events := c.events + steps)
    decreases |steps|
  {
    if steps == [] {
      assert c.events + steps == c.events;
    } else {
      SinceEvents(c.(events := c.events + [steps[0]]), steps[1..]);
      assert c.events + [steps[0]] + steps[1..] == c.events + steps;
    }
  }

  /**
   A scan channel by channel whose outcomes all succeed and whose restarts are all accepted goes
   through the channels 1 to 13, one event each, and ends with the 13th.
   */
  lemma {:induction false} WholeScan(s: Scan, group: nat, steps: seq<Step>)
    requires Inv(s) && !s.scanning && group != 0
    requires Inv(Start(s, group, true)) && Run(Start(s, group, true), steps)
    requires forall i :: 0 <= i < |steps| ==> WentWell(steps[i])
    ensures var f := Final(Start(s, group, true), steps);
      && |steps| <= 13 && f.done == UpTo(|steps|)
      && (f.scanning <==> |steps| < 13)
      && (f.scanning ==> f.cur == |steps| + 1)
  {
    var c := LastScan(group, true, []);
    RunAgrees(Start(s, group, true), c, steps);
    SinceEvents(c, steps);
    assert c.events + steps == steps;
  }
}
