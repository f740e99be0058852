/**
 Ranking of access points by signal strength
 (`components/conn_mgr_prov/src/conn_mgr_prov.c`, update_wifi_scan_results).

 A record array allocated for a channel is a block of the heap; the ranked list holds
 references into blocks. The list has a fixed number of slots, filled from the front.
 */
module ScanRanking {
  datatype Record = Record(ssid: string, rssi: int)

  datatype Ref = Ref(block: nat, idx: nat)

  type Heap = map<nat, seq<Record>>

  predicate Live(h: Heap, r: Ref) {
    r.block in h && r.idx < |h[r.block]|
  }

  predicate AllLive(h: Heap, s: seq<Ref>) {
    forall i :: 0 <= i < |s| ==> Live(h, s[i])
  }

  function Rssi(h: Heap, r: Ref): int
    requires Live(h, r)
  {
    h[r.block][r.idx].rssi
  }

  function Last<T>(s: seq<T>): T
    requires s != []
  {
    s[|s| - 1]
  }

  function Front<T>(s: seq<T>): seq<T>
    requires s != []
  {
    s[..|s| - 1]
  }

  function Min(a: nat, b: nat): nat {
    if a <= b then a else b
  }

  // The driver's contract: records come in descending signal strength
  predicate Ranked(records: seq<Record>) {
    forall i, j :: 0 <= i < j < |records| ==> records[i].rssi >= records[j].rssi
  }

  predicate Descending(h: Heap, s: seq<Ref>)
    requires AllLive(h, s)
  {
    forall i, j :: 0 <= i < j < |s| ==> Rssi(h, s[i]) >= Rssi(h, s[j])
  }

  predicate Distinct(s: seq<Ref>) {
    forall i, j :: 0 <= i < j < |s| ==> s[i] != s[j]
  }

  // References to the first k records of a block
  function Refs(block: nat, k: nat): (s: seq<Ref>)
    ensures |s| == k && forall i :: 0 <= i < k ==> s[i] == Ref(block, i)
  {
    seq(k, i requires 0 <= i < k => Ref(block, i))
  }

  // Back-to-front merge; on equal strength the entry of `b` goes first
  function Merge(h: Heap, a: seq<Ref>, b: seq<Ref>): (r: seq<Ref>)
    requires AllLive(h, a) && AllLive(h, b)
    ensures |r| == |a| + |b| && AllLive(h, r)
    decreases |a| + |b|
  {
    if a == [] then b
    else if b == [] then a
    else if Rssi(h, Last(a)) > Rssi(h, Last(b)) then Merge(h, a, Front(b)) + [Last(b)]
    else Merge(h, Front(a), b) + [Last(a)]
  }

  // How many of the old entries survive when rc new ones come in
  function KeptLen(n: nat, m: nat, rc: nat): nat
    requires rc <= n
  {
    Min(m, n - rc)
  }

  // The ranked list after the records of `block` came in
  function Insert(h: Heap, n: nat, list: seq<Ref>, block: nat): seq<Ref>
    requires AllLive(h, list) && block in h
  {
    var rc := Min(|h[block]|, n);
    Merge(h, list[..KeptLen(n, |list|, rc)], Refs(block, rc))
  }

  // ---- What a ranking is, independently of the merge ----

  function Of(s: seq<Ref>, block: nat): seq<Ref> {
    if s == [] then []
    else if Last(s).block == block then Of(Front(s), block) + [Last(s)]
    else Of(Front(s), block)
  }

  function NotOf(s: seq<Ref>, block: nat): seq<Ref> {
    if s == [] then []
    else if Last(s).block != block then NotOf(Front(s), block) + [Last(s)]
    else NotOf(Front(s), block)
  }

  // An old entry comes before a new one only when it is stronger.
  predicate Older(h: Heap, r: seq<Ref>, block: nat)
    requires AllLive(h, r)
  {
    forall i, j :: 0 <= i < j < |r| && r[i].block != block && r[j].block == block ==> Rssi(h, r[i]) > Rssi(h, r[j])
  }

  // `r` interleaves the old entries `a` and the entries `b` of `block`, keeping both orders,
  // in descending strength, new before old on ties.
  predicate IsRanking(h: Heap, a: seq<Ref>, b: seq<Ref>, block: nat, r: seq<Ref>) {
    && AllLive(h, r)
    && Descending(h, r)
    && NotOf(r, block) == a
    && Of(r, block) == b
    && Older(h, r, block)
  }

  lemma {:induction false} OfSnoc(s: seq<Ref>, x: Ref, block: nat)
    ensures Of(s + [x], block) == if x.block == block then Of(s, block) + [x] else Of(s, block)
    ensures NotOf(s + [x], block) == if x.block == block then NotOf(s, block) else NotOf(s, block) + [x]
  {
    assert Front(s + [x]) == s;
  }

  lemma {:induction false} NotOfAll(s: seq<Ref>, block: nat)
    requires forall i :: 0 <= i < |s| ==> s[i].block != block
    ensures NotOf(s, block) == s
    ensures Of(s, block) == []
  {
    if s != [] {
      var f, x := Front(s), Last(s);
      assert x.block != block;
      assert Of(s, block) == Of(f, block);
      assert NotOf(s, block) == NotOf(f, block) + [x];
      NotOfAll(f, block);
      assert NotOf(s, block) == f + [x];
    }
  }

  lemma {:induction false} OfAll(s: seq<Ref>, block: nat)
    requires forall i :: 0 <= i < |s| ==> s[i].block == block
    ensures Of(s, block) == s
    ensures NotOf(s, block) == []
  {
    if s != [] {
      OfAll(Front(s), block);
      assert s == Front(s) + [Last(s)];
      assert Last(s).block == block;
    }
  }

  lemma {:induction false} OfElements(s: seq<Ref>, block: nat)
    ensures multiset(s) == multiset(NotOf(s, block)) + multiset(Of(s, block))
  {
    if s != [] {
      OfElements(Front(s), block);
      assert s == Front(s) + [Last(s)];
    }
  }

  predicate OldAndNew(a: seq<Ref>, b: seq<Ref>, block: nat) {
    && (forall i :: 0 <= i < |a| ==> a[i].block != block)
    && (forall i :: 0 <= i < |b| ==> b[i].block == block)
  }

  // Old entries are at least `va` strong, new ones at least `vb`.
  predicate Bounded(h: Heap, r: seq<Ref>, block: nat, va: int, vb: int)
    requires AllLive(h, r)
  {
    forall i :: 0 <= i < |r| ==> Rssi(h, r[i]) >= if r[i].block == block then vb else va
  }

  lemma {:induction false} BoundedSnoc(h: Heap, r: seq<Ref>, x: Ref, block: nat, va: int, vb: int)
    requires AllLive(h, r) && Live(h, x) && Bounded(h, r, block, va, vb)
    requires Rssi(h, x) >= if x.block == block then vb else va
    ensures AllLive(h, r + [x]) && Bounded(h, r + [x], block, va, vb)
  {
  }

  lemma {:induction false} MergeBounds(h: Heap, a: seq<Ref>, b: seq<Ref>, block: nat, va: int, vb: int)
    requires AllLive(h, a) && AllLive(h, b) && OldAndNew(a, b, block)
    requires Bounded(h, a, block, va, vb) && Bounded(h, b, block, va, vb)
    ensures Bounded(h, Merge(h, a, b), block, va, vb)
    decreases |a| + |b|
  {
    if a != [] && b != [] {
      if Rssi(h, Last(a)) > Rssi(h, Last(b)) {
        MergeBounds(h, a, Front(b), block, va, vb);
        BoundedSnoc(h, Merge(h, a, Front(b)), Last(b), block, va, vb);
      } else {
        MergeBounds(h, Front(a), b, block, va, vb);
        BoundedSnoc(h, Merge(h, Front(a), b), Last(a), block, va, vb);
      }
    }
  }

  lemma {:induction false} OrderSnoc(h: Heap, r: seq<Ref>, x: Ref, block: nat)
    requires AllLive(h, r) && Live(h, x) && Descending(h, r) && Older(h, r, block)
    requires forall i :: 0 <= i < |r| ==> Rssi(h, r[i]) >= Rssi(h, x)
    requires x.block == block ==> forall i :: 0 <= i < |r| && r[i].block != block ==> Rssi(h, r[i]) > Rssi(h, x)
    ensures AllLive(h, r + [x]) && Descending(h, r + [x]) && Older(h, r + [x], block)
  {
  }

  lemma {:induction false} RankingSnoc(h: Heap, a: seq<Ref>, b: seq<Ref>, block: nat, r: seq<Ref>, x: Ref)
    requires IsRanking(h, a, b, block, r) && Live(h, x)
    requires forall i :: 0 <= i < |r| ==> Rssi(h, r[i]) >= Rssi(h, x)
    requires x.block == block ==> forall i :: 0 <= i < |r| && r[i].block != block ==> Rssi(h, r[i]) > Rssi(h, x)
    ensures if x.block == block then IsRanking(h, a, b + [x], block, r + [x]) else IsRanking(h, a + [x], b, block, r + [x])
  {
    OfSnoc(r, x, block);
    OrderSnoc(h, r, x, block);
  }

  /** The merge of two descending lists is the ranking of their entries. */
  lemma {:induction false} MergeIsRanking(h: Heap, a: seq<Ref>, b: seq<Ref>, block: nat)
    requires AllLive(h, a) && AllLive(h, b) && Descending(h, a) && Descending(h, b) && OldAndNew(a, b, block)
    ensures IsRanking(h, a, b, block, Merge(h, a, b))
    decreases |a| + |b|
  {
    if a == [] {
      OfAll(b, block);
    } else if b == [] {
      NotOfAll(a, block);
    } else {
      var va, vb := Rssi(h, Last(a)), Rssi(h, Last(b));
      if va > vb {
        MergeIsRanking(h, a, Front(b), block);
        LastIsLeast(h, a, b, block);
        MergeBounds(h, a, Front(b), block, va, vb);
        RankingGrows(h, a, b, block, Merge(h, a, Front(b)), true);
      } else {
        MergeIsRanking(h, Front(a), b, block);
        LastIsLeast(h, a, b, block);
        MergeBounds(h, Front(a), b, block, va, vb);
        RankingGrows(h, a, b, block, Merge(h, Front(a), b), false);
      }
    }
  }

  lemma {:induction false} LastIsLeast(h: Heap, a: seq<Ref>, b: seq<Ref>, block: nat)
    requires AllLive(h, a) && AllLive(h, b) && Descending(h, a) && Descending(h, b) && a != [] && b != []
    requires OldAndNew(a, b, block)
    ensures Bounded(h, a, block, Rssi(h, Last(a)), Rssi(h, Last(b)))
    ensures Bounded(h, b, block, Rssi(h, Last(a)), Rssi(h, Last(b)))
  {
  }

  lemma {:induction false} RankingGrows(h: Heap, a: seq<Ref>, b: seq<Ref>, block: nat, r: seq<Ref>, takeNew: bool)
    requires AllLive(h, a) && AllLive(h, b) && OldAndNew(a, b, block) && a != [] && b != []
    requires var va, vb := Rssi(h, Last(a)), Rssi(h, Last(b));
             takeNew == (va > vb) &&
             AllLive(h, r) && Bounded(h, r, block, va, vb)
    requires if takeNew then IsRanking(h, a, Front(b), block, r) else IsRanking(h, Front(a), b, block, r)
    ensures IsRanking(h, a, b, block, r + [if takeNew then Last(b) else Last(a)])
  {
    assert a[|a| - 1].block != block && b[|b| - 1].block == block;
    if takeNew {
      RankingSnoc(h, a, Front(b), block, r, Last(b));
      assert b == Front(b) + [Last(b)];
    } else {
      RankingSnoc(h, Front(a), b, block, r, Last(a));
      assert a == Front(a) + [Last(a)];
    }
  }

  lemma {:induction false} RankingFront(h: Heap, a: seq<Ref>, b: seq<Ref>, block: nat, r: seq<Ref>)
    requires IsRanking(h, a, b, block, r) && r != []
    ensures if Last(r).block == block then b != [] && Last(b) == Last(r) && IsRanking(h, a, Front(b), block, Front(r))
            else a != [] && Last(a) == Last(r) && IsRanking(h, Front(a), b, block, Front(r))
  {
    assert r == Front(r) + [Last(r)];
    if Last(r).block == block {
      assert Front(b) == Of(Front(r), block);
    } else {
      assert Front(a) == NotOf(Front(r), block);
    }
  }

  // An entry of one of the two lists occurs in the ranking.
  lemma {:induction false} RankingHas(h: Heap, a: seq<Ref>, b: seq<Ref>, block: nat, r: seq<Ref>)
    requires IsRanking(h, a, b, block, r)
    ensures |r| == |a| + |b|
    ensures a != [] ==> exists i :: 0 <= i < |r| && r[i] == Last(a) && r[i].block != block
    ensures b != [] ==> exists i :: 0 <= i < |r| && r[i] == Last(b) && r[i].block == block
    decreases |r|
  {
    if r != [] {
      RankingFront(h, a, b, block, r);
      if Last(r).block == block {
        RankingHas(h, a, Front(b), block, Front(r));
        assert r[|r| - 1] == Last(b);
      } else {
        RankingHas(h, Front(a), b, block, Front(r));
        assert r[|r| - 1] == Last(a);
      }
    }
  }

  /** There is one ranking only, so what a ranking is determines the merge. */
  lemma {:induction false} RankingIsMerge(h: Heap, a: seq<Ref>, b: seq<Ref>, block: nat, r: seq<Ref>)
    requires AllLive(h, a) && AllLive(h, b)
    requires IsRanking(h, a, b, block, r)
    ensures r == Merge(h, a, b)
    decreases |r|
  {
    RankingHas(h, a, b, block, r);
    if r != [] {
      RankingFront(h, a, b, block, r);
      assert r == Front(r) + [Last(r)];
      if Last(r).block == block {
        RankingIsMerge(h, a, Front(b), block, Front(r));
      } else {
        RankingIsMerge(h, Front(a), b, block, Front(r));
      }
    }
  }
}
