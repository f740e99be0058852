/**
 The channel-by-channel Wi-Fi scan (`components/conn_mgr_prov/src/conn_mgr_prov.c`).

 `Scan` is the state of the provisioning object that the scan uses, with two history
 fields: the channels processed in the current scan and the record lists merged in it.
 The two calls into the Wi-Fi driver are parameters: what a finished channel yielded, and
 whether the next scan could be started.
 */
module ScanSpec {
  import opened Common
  import opened ScanRanking

  const CHANNELS: nat := 14

  // What the driver answers when a channel is done
  datatype Outcome =
    | Failed                             // no count, or no memory for the records
    | NoAps                              // a count of zero
    | RecordsFailed(count: nat)          // records allocated, but not obtained
    | Found(records: seq<Record>)

  datatype Scan = Scan(
    n: nat,                              // MAX_SCAN_RESULTS
    scanning: bool,
    group: nat,                          // channels_per_group, 0 for all channels at once
    cur: nat,                            // curr_channel
    heap: Heap,
    apList: seq<Option<nat>>,            // ap_list[14]: the block allocated for each channel
    nextId: nat,                         // allocator state: every block is a new one
    list: seq<Ref>,                      // the filled slots of ap_list_sorted
    done: seq<nat>,
    merged: seq<seq<Record>>)

  function FreshScan(n: nat): Scan {
    Scan(n, false, 0, 0, map[], seq(CHANNELS, _ => None), 0, [], [], [])
  }

  function ZeroRecords(count: nat): seq<Record> {
    seq(count, _ => Record("", 0))
  }

  // wifi_prov_wifi_scan_start; `started` is the answer of the driver
  function Start(s: Scan, group: nat, started: bool): Scan {
    if s.scanning then s
    else
      var c := s.(list := [], done := [], merged := [], group := group);
      if started then c.(scanning := true, cur := if group != 0 then 1 else 0) else c
  }

  function Free(s: Scan, c: nat): Scan
    requires c < |s.apList|
  {
    if s.apList[c].Some? then s.(heap := s.heap - {s.apList[c].value}, apList := s.apList[c := None]) else s
  }

  function Allocate(s: Scan, c: nat, records: seq<Record>): Scan
    requires c < |s.apList|
  {
    s.(heap := s.heap[s.nextId := records], apList := s.apList[c := Some(s.nextId)], nextId := s.nextId + 1)
  }

  // No ranked entry refers to the records of the current channel, nor to the block allocated next.
  predicate CurNotListed(s: Scan)
    requires s.cur < |s.apList|
  {
    forall i :: 0 <= i < |s.list| ==> Some(s.list[i].block) != s.apList[s.cur] && s.list[i].block != s.nextId
  }

  // The part of update_wifi_scan_results that stores the records of the current channel
  function Store(s: Scan, o: Outcome): Scan
    requires s.cur < |s.apList| && AllLive(s.heap, s.list) && CurNotListed(s)
  {
    var f := Free(s, s.cur);
    match o
    case Failed => f
    case NoAps => f
    case RecordsFailed(count) => Allocate(f, s.cur, ZeroRecords(count))
    case Found(records) =>
      var a := Allocate(f, s.cur, records);
      a.(list := Insert(a.heap, s.n, s.list, s.nextId), merged := s.merged + [records])
  }

  predicate Succeeded(o: Outcome) {
    o.NoAps? || o.Found?
  }

  // The part after the label `exit`: go on with the next channel or end the scan
  function Advance(s: Scan, ok: bool, restarted: bool): Scan {
    var s := s.(done := s.done + [s.cur]);
    if s.group == 0 then s.(scanning := false)
    else
      var next := (s.cur + 1) % CHANNELS;
      s.(cur := next, scanning := s.scanning && ok && next != 0 && restarted)
  }

  // ---- The invariant of the object ----

  predicate Owned(apList: seq<Option<nat>>, c: nat, block: nat) {
    c < |apList| && apList[c] == Some(block)
  }

  // Every channel that has records owns a block of its own.
  predicate HeapOk(s: Scan) {
    && |s.apList| == CHANNELS
    && (forall c :: 0 <= c < CHANNELS && s.apList[c].Some? ==> s.apList[c].value in s.heap && s.apList[c].value < s.nextId)
    && (forall c, d :: 0 <= c < d < CHANNELS && s.apList[c].Some? ==> s.apList[c] != s.apList[d])
  }

  // Every allocated block still belongs to a channel.
  predicate NoLeak(heap: Heap, apList: seq<Option<nat>>) {
    forall b :: b in heap ==> HasOwner(apList, b)
  }

  predicate HasOwner(apList: seq<Option<nat>>, block: nat) {
    exists c :: 0 <= c < |apList| && Owned(apList, c, block)
  }

  // Every ranked entry is a live record of a channel already processed in this scan.
  predicate ListOk(s: Scan) {
    && |s.list| <= s.n
    && AllLive(s.heap, s.list)
    && Descending(s.heap, s.list)
    && Distinct(s.list)
    && forall i :: 0 <= i < |s.list| ==> OfDoneChannel(s, s.list[i].block)
  }

  predicate OfDoneChannel(s: Scan, block: nat) {
    exists c :: c in s.done && Owned(s.apList, c, block)
  }

  function UpTo(k: nat): seq<nat> {
    seq(k, i requires 0 <= i < k => i + 1)
  }

  // The channels processed: all at once as channel 0, or 1 up to the one before the current one.
  predicate ProgressOk(s: Scan) {
    && s.cur < CHANNELS
    && (s.scanning && s.group == 0 ==> s.cur == 0 && s.done == [])
    && (s.scanning && s.group != 0 ==> 1 <= s.cur && s.done == UpTo(s.cur - 1))
    && (!s.scanning ==> s.done == [0] || (|s.done| < CHANNELS && s.done == UpTo(|s.done|)))
  }

  function Total(lists: seq<seq<Record>>): nat {
    if lists == [] then 0 else Total(Front(lists)) + |Last(lists)|
  }

  // The last list that alone filled all n slots, 0 when there is none
  function LastFlood(n: nat, lists: seq<seq<Record>>): (r: nat)
    ensures r <= |lists|
  {
    if lists == [] then 0
    else if |Last(lists)| >= n then |lists| - 1
    else LastFlood(n, Front(lists))
  }

  predicate Strongest(v: int, lists: seq<seq<Record>>) {
    && (forall i, j :: 0 <= i < |lists| && 0 <= j < |lists[i]| ==> lists[i][j].rssi <= v)
    && exists i, j :: 0 <= i < |lists| && 0 <= j < |lists[i]| && lists[i][j].rssi == v
  }

  // What the list says about everything merged in the current scan
  predicate HistoryOk(s: Scan)
    requires AllLive(s.heap, s.list)
  {
    && |s.list| == Min(s.n, Total(s.merged))
    && (s.list != [] ==> Strongest(Rssi(s.heap, s.list[0]), s.merged[LastFlood(s.n, s.merged)..]))
  }

  ghost predicate Inv(s: Scan) {
    s.n > 0 && HeapOk(s) && NoLeak(s.heap, s.apList) && ListOk(s) && ProgressOk(s) && HistoryOk(s)
  }

  // A channel is finished. The records are in the driver's order.
  function ScanDone(s: Scan, o: Outcome, restarted: bool): Scan
    requires Inv(s) && s.scanning
  {
    NotYetDone(s);
    Advance(Store(s, o), Succeeded(o), restarted)
  }

  lemma {:induction false} NotYetDone(s: Scan)
    requires Inv(s) && s.scanning
    ensures CurNotListed(s)
  {
    forall i | 0 <= i < |s.list|
      ensures Some(s.list[i].block) != s.apList[s.cur] && s.list[i].block != s.nextId
    {
      assert OfDoneChannel(s, s.list[i].block);
      var c :| c in s.done && Owned(s.apList, c, s.list[i].block);
      assert c != s.cur;
    }
  }

  // The log of a finished channel counts its records with an 8-bit index: its value after so
  // many rounds of the loop
  function LogIndex(rounds: nat): nat {
    if rounds == 0 then 0 else (LogIndex(rounds - 1) + 1) % 256
  }

  // The guard of the log loop holds after each of the first `rounds` rounds.
  predicate LogsOn(count: nat, rounds: nat) {
    forall k :: 0 <= k < rounds ==> LogIndex(k) < count
  }

  lemma {:induction false} LogIndexCounts(rounds: nat)
    requires rounds < 256
    ensures LogIndex(rounds) == rounds
    decreases rounds
  {
    if rounds > 0 {
      LogIndexCounts(rounds - 1);
    }
  }

  /**
   The loop goes on for ever if and only if there are more than 255 records, and otherwise ends
   after one round for each of them.
   */
  lemma {:induction false} LogLoopEnds(count: nat)
    ensures (forall rounds: nat :: LogsOn(count, rounds)) <==> count > 255
    ensures count <= 255 ==> LogsOn(count, count) && !LogsOn(count, count + 1)
  {
    if count <= 255 {
      forall k | 0 <= k <= count ensures LogIndex(k) == k {
        LogIndexCounts(k);
      }
      assert LogIndex(count) == count;
      assert !LogsOn(count, count + 1);
    }
  }

  // The handler never comes to the end of its log.
  ghost predicate Hangs(o: Outcome) {
    o.Found? && forall rounds: nat :: LogsOn(|o.records|, rounds)
  }

  // What the handler has done when it comes to log the records it has found
  function Obtained(s: Scan, records: seq<Record>): Scan
    requires s.cur < |s.apList|
  {
    Allocate(Free(s, s.cur), s.cur, records)
  }

  // The outcomes with which the handler returns. The driver's records are in descending order.
  ghost predicate Returns(o: Outcome) {
    !Hangs(o) && (o.Found? ==> Ranked(o.records))
  }
}
