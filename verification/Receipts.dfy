/**
 Receipt batches and the chunks they are sent in: what a batch does to the delivery rows,
 and exactly when the chunking can be noticed.
 */
module Receipts {
  import opened Prelude
  import opened Ranking
  import opened Schema
  import opened Transactions

  function ReceiptFor(deliveries: map<Slot, Lease>, s: Slot): Receipt
    requires s in deliveries
  {
    Receipt(s.consumer, s.message, deliveries[s].generation)
  }

  /** The statement a batch would be if SQLite bound any number of values. */
  function NackWhole(deliveries: map<Slot, Lease>, cid: nat, receipts: seq<Receipt>, visibleAt: int): (map<Slot, Lease>, nat) {
    (NackRows(deliveries, cid, receipts, visibleAt), |Hit(deliveries, cid, receipts)|)
  }

  function ExtendWhole(deliveries: map<Slot, Lease>, cid: nat, receipts: seq<Receipt>, visibleAt: int): (map<Slot, Lease>, nat) {
    (ExtendRows(deliveries, cid, receipts, visibleAt), |Hit(deliveries, cid, receipts)|)
  }

  lemma HitOfSplit(deliveries: map<Slot, Lease>, cid: nat, receipts: seq<Receipt>, n: nat)
    requires n <= |receipts|
    ensures Hit(deliveries, cid, receipts) == Hit(deliveries, cid, receipts[..n]) + Hit(deliveries, cid, receipts[n..])
  {
    assert receipts == receipts[..n] + receipts[n..];
  }

  // ---- What a nack batch can do to a row, whatever its receipts -------------------------

  /** No row appears or goes, and a row changes exactly when the batch holds its receipt. */
  ghost predicate NackEffect(before: map<Slot, Lease>, after: map<Slot, Lease>, hits: set<Slot>, visibleAt: int) {
    && after.Keys == before.Keys
    && (forall s | s in before && s !in hits :: after[s] == before[s])
    && (forall s | s in before && s in hits ::
          && after[s].visibleAt == visibleAt
          && after[s].deliveryCount == before[s].deliveryCount
          && after[s].generation > before[s].generation)
  }

  /** One statement, then the effect of the rest, is the effect of the whole batch. */
  lemma NackEffectJoins(deliveries: map<Slot, Lease>, cid: nat, receipts: seq<Receipt>, n: nat, visibleAt: int, after: map<Slot, Lease>)
    requires n <= |receipts|
    requires var rows := NackRows(deliveries, cid, receipts[..n], visibleAt);
      NackEffect(rows, after, Hit(rows, cid, receipts[n..]), visibleAt)
    ensures NackEffect(deliveries, after, Hit(deliveries, cid, receipts), visibleAt)
  {
    var rows := NackRows(deliveries, cid, receipts[..n], visibleAt);
    HitOfSplit(deliveries, cid, receipts, n);
    var first := Hit(deliveries, cid, receipts[..n]);
    forall s | s in deliveries && s !in first
      ensures s in Hit(rows, cid, receipts[n..]) <==> s in Hit(deliveries, cid, receipts[n..])
    {
      assert rows[s] == deliveries[s];
    }
  }

  lemma NackRowsNothing(deliveries: map<Slot, Lease>, cid: nat, receipts: seq<Receipt>, visibleAt: int)
    ensures Hit(deliveries, cid, receipts) == {} ==> NackRows(deliveries, cid, receipts, visibleAt) == deliveries
  {
  }

  lemma {:induction false} NackChunksEffect(deliveries: map<Slot, Lease>, cid: nat, receipts: seq<Receipt>, visibleAt: int, size: nat)
    requires size > 0
    ensures NackEffect(deliveries, NackChunks(deliveries, cid, receipts, visibleAt, size).0, Hit(deliveries, cid, receipts), visibleAt)
    ensures NackChunks(deliveries, cid, receipts, visibleAt, size).1 == 0 <==> Hit(deliveries, cid, receipts) == {}
    decreases |receipts|
  {
    hide NackRows, NackEffect, Hit;
    if receipts == [] {
      NothingNacked(deliveries, cid, visibleAt);
    } else {
      var n := if size < |receipts| then size else |receipts|;
      var rows := NackRows(deliveries, cid, receipts[..n], visibleAt);
      NackChunksEffect(rows, cid, receipts[n..], visibleAt, size);
      NackEffectJoins(deliveries, cid, receipts, n, visibleAt, NackChunks(rows, cid, receipts[n..], visibleAt, size).0);
      HitOfSplit(deliveries, cid, receipts, n);
      NackRowsNothing(deliveries, cid, receipts[..n], visibleAt);
    }
  }

  lemma NothingNacked(deliveries: map<Slot, Lease>, cid: nat, visibleAt: int)
    ensures Hit(deliveries, cid, []) == {}
    ensures NackEffect(deliveries, deliveries, {}, visibleAt)
  {
  }

  // ---- Extending ------------------------------------------------------------------------

  /** The rows never depend on the chunk size. */
  lemma {:induction false} ExtendRowsIgnoreChunks(deliveries: map<Slot, Lease>, cid: nat, receipts: seq<Receipt>, visibleAt: int, size: nat)
    requires size > 0
    ensures ExtendChunks(deliveries, cid, receipts, visibleAt, size).0 == ExtendRows(deliveries, cid, receipts, visibleAt)
    decreases |receipts|
  {
    if receipts == [] {
      assert ExtendRows(deliveries, cid, receipts, visibleAt) == deliveries;
    } else {
      var n := if size < |receipts| then size else |receipts|;
      var rows := ExtendRows(deliveries, cid, receipts[..n], visibleAt);
      ExtendRowsIgnoreChunks(rows, cid, receipts[n..], visibleAt, size);
      HitOfSplit(deliveries, cid, receipts, n);
      assert Hit(rows, cid, receipts[n..]) == Hit(deliveries, cid, receipts[n..]);
      assert ExtendRows(rows, cid, receipts[n..], visibleAt) == ExtendRows(deliveries, cid, receipts, visibleAt);
    }
  }

  // ---- When chunks can be noticed -------------------------------------------------------

  /** Some chunk holds `r` and a later chunk holds `q`. */
  predicate InLaterChunk(r: Receipt, q: Receipt, receipts: seq<Receipt>, size: nat)
    requires size > 0
    decreases |receipts|
  {
    receipts != [] &&
    var n := if size < |receipts| then size else |receipts|;
    (r in receipts[..n] && q in receipts[n..]) || InLaterChunk(r, q, receipts[n..], size)
  }

  lemma {:induction false} InLaterChunkHolds(r: Receipt, q: Receipt, receipts: seq<Receipt>, size: nat)
    requires size > 0 && InLaterChunk(r, q, receipts, size)
    ensures r in receipts && q in receipts
    decreases |receipts|
  {
    var n := if size < |receipts| then size else |receipts|;
    assert receipts == receipts[..n] + receipts[n..];
    if !(r in receipts[..n] && q in receipts[n..]) {
      InLaterChunkHolds(r, q, receipts[n..], size);
    }
  }

  /** A receipt of this consumer is held by two chunks. */
  predicate RepeatsAcrossChunks(cid: nat, receipts: seq<Receipt>, size: nat)
    requires size > 0
  {
    exists r | r in receipts :: r.consumer == cid && InLaterChunk(r, r, receipts, size)
  }

  function Successor(r: Receipt): Receipt {
    r.(generation := r.generation + 1)
  }

  /**
   A receipt of this consumer is followed, in a later chunk, by the receipt of the next
   generation. Redriving restarts generations, so one worker can hold both.
   */
  predicate SucceedsAcrossChunks(cid: nat, receipts: seq<Receipt>, size: nat)
    requires size > 0
  {
    exists r | r in receipts :: r.consumer == cid && InLaterChunk(r, Successor(r), receipts, size)
  }

  /** The first chunk has no successor in the rest, and neither has the rest within itself. */
  lemma SuccessorsInTail(cid: nat, receipts: seq<Receipt>, size: nat, n: nat)
    requires size > 0 && receipts != [] && n == (if size < |receipts| then size else |receipts|)
    requires !SucceedsAcrossChunks(cid, receipts, size)
    ensures !SucceedsAcrossChunks(cid, receipts[n..], size)
    ensures forall r | r in receipts[..n] && r.consumer == cid :: Successor(r) !in receipts[n..]
  {
    assert receipts == receipts[..n] + receipts[n..];
  }

  lemma RepeatsInTail(cid: nat, receipts: seq<Receipt>, size: nat, n: nat)
    requires size > 0 && receipts != [] && n == (if size < |receipts| then size else |receipts|)
    requires !RepeatsAcrossChunks(cid, receipts, size)
    ensures !RepeatsAcrossChunks(cid, receipts[n..], size)
    ensures forall r | r in receipts[..n] && r.consumer == cid :: r !in receipts[n..]
  {
    assert receipts == receipts[..n] + receipts[n..];
  }

  /** The count reported for an extension is the number of rows it extends, on every table, exactly without a repeat. */
  lemma ExtendCountIgnoresChunks(cid: nat, receipts: seq<Receipt>, visibleAt: int, size: nat)
    requires size > 0
    ensures (forall deliveries :: ExtendChunks(deliveries, cid, receipts, visibleAt, size) == ExtendWhole(deliveries, cid, receipts, visibleAt))
            <==> !RepeatsAcrossChunks(cid, receipts, size)
  {
    if r :| r in receipts && r.consumer == cid && InLaterChunk(r, r, receipts, size) {
      var s := Slot(cid, r.message);
      var deliveries := map[s := Lease(visibleAt, r.generation, 0)];
      ExtendCountsTwice(deliveries, r, receipts, visibleAt, size);
      assert Hit(deliveries, cid, receipts) <= {s};
      SubsetSize(Hit(deliveries, cid, receipts), {s});
      assert ExtendChunks(deliveries, cid, receipts, visibleAt, size) != ExtendWhole(deliveries, cid, receipts, visibleAt);
    } else {
      forall deliveries
        ensures ExtendChunks(deliveries, cid, receipts, visibleAt, size) == ExtendWhole(deliveries, cid, receipts, visibleAt)
      {
        ExtendRowsIgnoreChunks(deliveries, cid, receipts, visibleAt, size);
        ExtendCountsOnce(deliveries, cid, receipts, visibleAt, size);
      }
    }
  }

  lemma {:induction false} ExtendCountsOnce(deliveries: map<Slot, Lease>, cid: nat, receipts: seq<Receipt>, visibleAt: int, size: nat)
    requires size > 0 && !RepeatsAcrossChunks(cid, receipts, size)
    ensures ExtendChunks(deliveries, cid, receipts, visibleAt, size).1 == |Hit(deliveries, cid, receipts)|
    decreases |receipts|
  {
    if receipts != [] {
      var n := if size < |receipts| then size else |receipts|;
      hide RepeatsAcrossChunks;
      var rows := ExtendRows(deliveries, cid, receipts[..n], visibleAt);
      RepeatsInTail(cid, receipts, size, n);
      ExtendCountsOnce(rows, cid, receipts[n..], visibleAt, size);
      HitOfSplit(deliveries, cid, receipts, n);
      assert Hit(rows, cid, receipts[n..]) == Hit(deliveries, cid, receipts[n..]);
      forall s | s in Hit(deliveries, cid, receipts[..n]) ensures s !in Hit(deliveries, cid, receipts[n..]) {
        assert ReceiptFor(deliveries, s) in receipts[..n];
      }
      assert Hit(deliveries, cid, receipts[..n]) !! Hit(deliveries, cid, receipts[n..]);
    }
  }

  /** Every matching receipt's row is counted at least once; one in two chunks at least twice. */
  lemma {:induction false} ExtendCountsTwice(deliveries: map<Slot, Lease>, r: Receipt, receipts: seq<Receipt>, visibleAt: int, size: nat)
    requires size > 0 && r in receipts
    requires Slot(r.consumer, r.message) in deliveries && ReceiptFor(deliveries, Slot(r.consumer, r.message)) == r
    ensures ExtendChunks(deliveries, r.consumer, receipts, visibleAt, size).1 >= if InLaterChunk(r, r, receipts, size) then 2 else 1
    decreases |receipts|
  {
    var n := if size < |receipts| then size else |receipts|;
    assert receipts == receipts[..n] + receipts[n..];
    var rows := ExtendRows(deliveries, r.consumer, receipts[..n], visibleAt);
    if r in receipts[n..] {
      ExtendCountsTwice(rows, r, receipts[n..], visibleAt, size);
    } else if InLaterChunk(r, r, receipts[n..], size) {
      InLaterChunkHolds(r, r, receipts[n..], size);
    }
    if r in receipts[..n] {
      assert Slot(r.consumer, r.message) in Hit(deliveries, r.consumer, receipts[..n]);
    }
  }

  /** Chunked nacks leave the rows and the count of one whole statement, on every table, exactly without a successor. */
  lemma NackIgnoresChunks(cid: nat, receipts: seq<Receipt>, visibleAt: int, size: nat)
    requires size > 0
    ensures (forall deliveries :: NackChunks(deliveries, cid, receipts, visibleAt, size) == NackWhole(deliveries, cid, receipts, visibleAt))
            <==> !SucceedsAcrossChunks(cid, receipts, size)
  {
    if r :| r in receipts && r.consumer == cid && InLaterChunk(r, Successor(r), receipts, size) {
      var s := Slot(cid, r.message);
      var deliveries := map[s := Lease(visibleAt, r.generation, 0)];
      NackBumpsTwice(deliveries, r, receipts, visibleAt, size);
      assert NackRows(deliveries, cid, receipts, visibleAt)[s].generation <= r.generation + 1;
      assert NackChunks(deliveries, cid, receipts, visibleAt, size) != NackWhole(deliveries, cid, receipts, visibleAt);
    } else {
      forall deliveries
        ensures NackChunks(deliveries, cid, receipts, visibleAt, size) == NackWhole(deliveries, cid, receipts, visibleAt)
      {
        NackBumpsOnce(deliveries, cid, receipts, visibleAt, size);
      }
    }
  }

  lemma {:induction false} NackBumpsOnce(deliveries: map<Slot, Lease>, cid: nat, receipts: seq<Receipt>, visibleAt: int, size: nat)
    requires size > 0 && !SucceedsAcrossChunks(cid, receipts, size)
    ensures NackChunks(deliveries, cid, receipts, visibleAt, size).0 == NackRows(deliveries, cid, receipts, visibleAt)
    ensures NackChunks(deliveries, cid, receipts, visibleAt, size).1 == |Hit(deliveries, cid, receipts)|
    decreases |receipts|
  {
    if receipts == [] {
      assert NackRows(deliveries, cid, receipts, visibleAt) == deliveries;
    } else {
      hide Hit, NackRows, SucceedsAcrossChunks, InLaterChunk;
      var n := if size < |receipts| then size else |receipts|;
      var first, rest := receipts[..n], receipts[n..];
      SuccessorsInTail(cid, receipts, size, n);
      NackBumpsOnce(NackRows(deliveries, cid, first, visibleAt), cid, rest, visibleAt, size);
      NackInTwo(deliveries, cid, first, rest, visibleAt);
      assert receipts == first + rest;
    }
  }

  /** Without successors, the second of two statements hits what is left of its own receipts. */
  lemma SecondNackHits(deliveries: map<Slot, Lease>, cid: nat, first: seq<Receipt>, rest: seq<Receipt>, visibleAt: int)
    requires forall r | r in first && r.consumer == cid :: Successor(r) !in rest
    ensures Hit(NackRows(deliveries, cid, first, visibleAt), cid, rest) == Hit(deliveries, cid, rest) - Hit(deliveries, cid, first)
  {
    var rows := NackRows(deliveries, cid, first, visibleAt);
    var a := Hit(deliveries, cid, first);
    forall s | s in deliveries
      ensures s in Hit(rows, cid, rest) <==> s in Hit(deliveries, cid, rest) && s !in a
    {
      if s in a {
        assert ReceiptFor(rows, s) == Successor(ReceiptFor(deliveries, s));
      } else {
        assert rows[s] == deliveries[s];
      }
    }
  }

  /** Two nack statements without successors are one. */
  lemma NackInTwo(deliveries: map<Slot, Lease>, cid: nat, first: seq<Receipt>, rest: seq<Receipt>, visibleAt: int)
    requires forall r | r in first && r.consumer == cid :: Successor(r) !in rest
    ensures NackRows(NackRows(deliveries, cid, first, visibleAt), cid, rest, visibleAt) == NackRows(deliveries, cid, first + rest, visibleAt)
    ensures |Hit(deliveries, cid, first)| + |Hit(NackRows(deliveries, cid, first, visibleAt), cid, rest)| == |Hit(deliveries, cid, first + rest)|
  {
    hide Hit;
    SecondNackHits(deliveries, cid, first, rest, visibleAt);
    var all := first + rest;
    assert all[..|first|] == first && all[|first|..] == rest;
    HitOfSplit(deliveries, cid, all, |first|);
    var a := Hit(deliveries, cid, first);
    var b := Hit(deliveries, cid, rest) - a;
    assert Hit(deliveries, cid, all) == a + b && |a + b| == |a| + |b|;
  }

  /** A row whose receipt's successor comes in a later chunk moves on by two generations or more. */
  lemma {:induction false} NackBumpsTwice(deliveries: map<Slot, Lease>, r: Receipt, receipts: seq<Receipt>, visibleAt: int, size: nat)
    requires size > 0 && InLaterChunk(r, Successor(r), receipts, size)
    requires Slot(r.consumer, r.message) in deliveries && ReceiptFor(deliveries, Slot(r.consumer, r.message)) == r
    ensures var rows := NackChunks(deliveries, r.consumer, receipts, visibleAt, size).0;
      Slot(r.consumer, r.message) in rows && rows[Slot(r.consumer, r.message)].generation >= r.generation + 2
    decreases |receipts|
  {
    var s := Slot(r.consumer, r.message);
    var n := if size < |receipts| then size else |receipts|;
    var rows := NackRows(deliveries, r.consumer, receipts[..n], visibleAt);
    if r in receipts[..n] {
      if InLaterChunk(r, Successor(r), receipts[n..], size) {
        InLaterChunkHolds(r, Successor(r), receipts[n..], size);
      }
      assert ReceiptFor(rows, s) == Successor(r);
      assert s in Hit(rows, r.consumer, receipts[n..]);
      NackChunksEffect(rows, r.consumer, receipts[n..], visibleAt, size);
    } else {
      NackBumpsTwice(rows, r, receipts[n..], visibleAt, size);
    }
  }

  // ---- Tallies --------------------------------------------------------------------------

  /** Every row a batch hits is hit through a receipt of its own. */
  lemma {:induction false} HitsBounded(deliveries: map<Slot, Lease>, cid: nat, receipts: seq<Receipt>)
    ensures |Hit(deliveries, cid, receipts)| <= |receipts|
    decreases |receipts|
  {
    if receipts == [] {
      assert Hit(deliveries, cid, receipts) == {};
    } else {
      var n := |receipts| - 1;
      HitsBounded(deliveries, cid, receipts[..n]);
      HitOfSplit(deliveries, cid, receipts, n);
      var last := Hit(deliveries, cid, receipts[n..]);
      assert last <= {Slot(receipts[n].consumer, receipts[n].message)};
      SubsetSize(last, {Slot(receipts[n].consumer, receipts[n].message)});
      UnionBounded(Hit(deliveries, cid, receipts[..n]), last);
    }
  }

  lemma UnionBounded(a: set<Slot>, b: set<Slot>)
    ensures |a + b| <= |a| + |b|
  {
    assert a + b == a + (b - a);
    assert b == (b - a) + (b * a);
  }

  lemma {:induction false} NacksBounded(deliveries: map<Slot, Lease>, cid: nat, receipts: seq<Receipt>, visibleAt: int, size: nat)
    requires size > 0
    ensures NackChunks(deliveries, cid, receipts, visibleAt, size).1 <= |receipts|
    decreases |receipts|
  {
    hide Hit, NackRows;
    if receipts != [] {
      var n := if size < |receipts| then size else |receipts|;
      HitsBounded(deliveries, cid, receipts[..n]);
      NacksBounded(NackRows(deliveries, cid, receipts[..n], visibleAt), cid, receipts[n..], visibleAt, size);
    }
  }

  lemma {:induction false} ExtensionsBounded(deliveries: map<Slot, Lease>, cid: nat, receipts: seq<Receipt>, visibleAt: int, size: nat)
    requires size > 0
    ensures ExtendChunks(deliveries, cid, receipts, visibleAt, size).1 <= |receipts|
    decreases |receipts|
  {
    hide Hit, ExtendRows;
    if receipts != [] {
      var n := if size < |receipts| then size else |receipts|;
      HitsBounded(deliveries, cid, receipts[..n]);
      ExtensionsBounded(ExtendRows(deliveries, cid, receipts[..n], visibleAt), cid, receipts[n..], visibleAt, size);
    }
  }

  /** The two halves of every tally make up the batch: the subtraction never saturates. */
  lemma EveryReceiptTallied(core: Core, cid: nat, receipts: seq<Receipt>, visibleAt: int)
    ensures var r := Ack(core, cid, receipts).1; r.applied + r.stale == |receipts|
    ensures var r := Nack(core, cid, receipts, visibleAt).1; r.applied + r.stale == |receipts|
    ensures var r := Extend(core, cid, receipts, visibleAt).1; r.applied + r.stale == |receipts|
  {
    hide Hit, NackChunks, ExtendChunks;
    HitsBounded(core.deliveries, cid, receipts);
    NacksBounded(core.deliveries, cid, receipts, visibleAt, RECEIPTS_PER_CHUNK);
    ExtensionsBounded(core.deliveries, cid, receipts, visibleAt, RECEIPTS_PER_CHUNK);
  }

  // ---- What a batch reports -------------------------------------------------------------

  lemma SizeOfRest<K, V>(rows: map<K, V>, gone: set<K>)
    requires gone <= rows.Keys
    ensures |rows - gone| == |rows| - |gone|
  {
    assert (rows - gone).Keys == rows.Keys - gone;
    assert rows.Keys * gone == gone;
  }

  /** An acknowledgement ends exactly the rows the batch holds receipts for, and reports as many as it ended. */
  lemma AckReports(core: Core, cid: nat, receipts: seq<Receipt>)
    ensures var (after, r) := Ack(core, cid, receipts);
      && r.applied == |core.deliveries| - |after.deliveries| && r.stale == |receipts| - r.applied
      && after == core.(deliveries := after.deliveries)
      && (forall s: Slot :: s in after.deliveries <==> s in core.deliveries && !(s.consumer == cid && ReceiptFor(core.deliveries, s) in receipts))
      && (forall s | s in after.deliveries :: after.deliveries[s] == core.deliveries[s])
  {
    HitsBounded(core.deliveries, cid, receipts);
    SizeOfRest(core.deliveries, Hit(core.deliveries, cid, receipts));
  }

  /** The rows a statement changed. */
  function ChangedRows(before: map<Slot, Lease>, after: map<Slot, Lease>): set<Slot> {
    set s | s in before && s in after && before[s] != after[s]
  }

  lemma NackedRows(deliveries: map<Slot, Lease>, cid: nat, receipts: seq<Receipt>, visibleAt: int)
    ensures ChangedRows(deliveries, NackRows(deliveries, cid, receipts, visibleAt)) == Hit(deliveries, cid, receipts)
  {
    var hits, after := Hit(deliveries, cid, receipts), NackRows(deliveries, cid, receipts, visibleAt);
    forall s ensures s in ChangedRows(deliveries, after) <==> s in hits {
      if s in deliveries {
        assert s in after;
        assert s in hits ==> after[s].generation == deliveries[s].generation + 1;
        assert s !in hits ==> after[s] == deliveries[s];
      }
    }
  }

  /** Unless a later chunk holds a successor, a nack reports the number of rows it changed. */
  lemma NackReports(core: Core, cid: nat, receipts: seq<Receipt>, visibleAt: int)
    requires !SucceedsAcrossChunks(cid, receipts, RECEIPTS_PER_CHUNK)
    ensures var (after, r) := Nack(core, cid, receipts, visibleAt);
      && r.applied == |ChangedRows(core.deliveries, after.deliveries)| && r.stale == |receipts| - r.applied
      && after == core.(deliveries := after.deliveries)
      && (forall s :: s in ChangedRows(core.deliveries, after.deliveries) <==> s in core.deliveries && s.consumer == cid && ReceiptFor(core.deliveries, s) in receipts)
  {
    hide NackChunks, NackRows, SucceedsAcrossChunks, ChangedRows;
    NackBumpsOnce(core.deliveries, cid, receipts, visibleAt, RECEIPTS_PER_CHUNK);
    NackedRows(core.deliveries, cid, receipts, visibleAt);
    HitsBounded(core.deliveries, cid, receipts);
  }

  /** Unless a receipt is held by two chunks, an extension reports the number of rows the batch holds receipts for. */
  lemma ExtendReports(core: Core, cid: nat, receipts: seq<Receipt>, visibleAt: int)
    requires !RepeatsAcrossChunks(cid, receipts, RECEIPTS_PER_CHUNK)
    ensures var (after, r) := Extend(core, cid, receipts, visibleAt);
      && r.applied == |set s | s in core.deliveries && s.consumer == cid && ReceiptFor(core.deliveries, s) in receipts|
      && r.stale == |receipts| - r.applied
      && after == core.(deliveries := after.deliveries) && after.deliveries.Keys == core.deliveries.Keys
      && (forall s | s in core.deliveries ::
            after.deliveries[s] == if s.consumer == cid && ReceiptFor(core.deliveries, s) in receipts
              then core.deliveries[s].(visibleAt := Max(core.deliveries[s].visibleAt, visibleAt)) else core.deliveries[s])
  {
    hide ExtendChunks, RepeatsAcrossChunks;
    ExtendCountsOnce(core.deliveries, cid, receipts, visibleAt, RECEIPTS_PER_CHUNK);
    ExtendRowsIgnoreChunks(core.deliveries, cid, receipts, visibleAt, RECEIPTS_PER_CHUNK);
    HitsBounded(core.deliveries, cid, receipts);
    assert Hit(core.deliveries, cid, receipts) == set s | s in core.deliveries && s.consumer == cid && ReceiptFor(core.deliveries, s) in receipts;
  }
}
