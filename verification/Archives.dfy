/** The archive of a consumer: what a row keeps, how pages of it fit together, and what a purge takes. */
module Archives {
  import opened Prelude
  import opened Ranking
  import opened Schema
  import opened Transactions
  import opened Invariants
  import opened Receipts
  import opened Settling

  /** Position of a message among the copies an archive call moves. */
  function Position(order: seq<nat>, m: nat): (i: nat)
    requires m in order
    ensures i < |order| && order[i] == m
  {
    if order[0] == m then 0 else 1 + Position(order[1..], m)
  }

  /** The archive id a moved copy gets. */
  function ArchiveIdOf(core: Core, cid: nat, receipts: seq<Receipt>, m: nat): nat
    requires m in Sorted(MessagesOf(Hit(core.deliveries, cid, receipts)))
  {
    core.archiveSeq + 1 + Position(Sorted(MessagesOf(Hit(core.deliveries, cid, receipts))), m)
  }

  /**
   Every copy a receipt hits is archived once, under a new id, with the attempt count and
   generation it had and the caller's time and detail.
   */
  lemma ArchivedWithDetail(core: Core, cid: nat, receipts: seq<Receipt>, archivedAt: int, detail: Option<string>, s: Slot)
    requires CoreOk(core) && s in Hit(core.deliveries, cid, receipts)
    ensures s in core.deliveries && s.message in Sorted(MessagesOf(Hit(core.deliveries, cid, receipts)))
    ensures var after := Archive(core, cid, receipts, archivedAt, detail).0;
      var a := ArchiveIdOf(core, cid, receipts, s.message);
      && core.archiveSeq < a <= after.archiveSeq && a in after.archives
      && after.archives[a] == ArchiveRow(s, archivedAt, core.deliveries[s].deliveryCount, core.deliveries[s].generation, detail)
  {
    hide CoreOk, Hit, MessagesOf, Sorted, NextIds, NewArchives, Position;
    var hits := Hit(core.deliveries, cid, receipts);
    var order := Sorted(MessagesOf(hits));
    SortedHolds(MessagesOf(hits));
    ArchiveAllowed(core, cid, receipts);
    HitsOf(core.deliveries, cid, receipts);
    var i := Position(order, s.message);
    assert s == Slot(cid, order[i]);
    forall k | 0 <= k < |order| ensures Slot(cid, order[k]) in core.deliveries {
      assert order[k] in order;
    }
    RowAt(core.deliveries, core.archiveSeq, cid, order, archivedAt, detail, i);
  }

  lemma RowAt(rows: map<Slot, Lease>, last: nat, cid: nat, moved: seq<nat>, archivedAt: int, detail: Option<string>, i: nat)
    requires i < |moved| && forall k | 0 <= k < |moved| :: Slot(cid, moved[k]) in rows
    ensures var archived := NewArchives(rows, last, cid, moved, archivedAt, detail);
      last + 1 + i in archived && archived[last + 1 + i] == ArchiveRowFor(rows, Slot(cid, moved[i]), archivedAt, detail)
  {
    hide NextIds;
  }

  /** Archive ids follow the order of the messages. */
  lemma ArchivedInOrder(core: Core, cid: nat, receipts: seq<Receipt>, m: nat, n: nat)
    requires m < n && m in Sorted(MessagesOf(Hit(core.deliveries, cid, receipts))) && n in Sorted(MessagesOf(Hit(core.deliveries, cid, receipts)))
    ensures ArchiveIdOf(core, cid, receipts, m) < ArchiveIdOf(core, cid, receipts, n)
  {
    hide Hit, MessagesOf, Sorted, Position;
    var order := Sorted(MessagesOf(Hit(core.deliveries, cid, receipts)));
    SortedHolds(MessagesOf(Hit(core.deliveries, cid, receipts)));
    assert order[Position(order, m)] == m && order[Position(order, n)] == n;
  }

  /** Archiving moves exactly the rows the batch holds receipts for, and reports as many as it moved. */
  lemma ArchiveReports(core: Core, cid: nat, receipts: seq<Receipt>, archivedAt: int, detail: Option<string>)
    requires CoreOk(core)
    ensures var (after, r) := Archive(core, cid, receipts, archivedAt, detail);
      && r.Ok? && r.value.applied == |core.deliveries| - |after.deliveries| && r.value.stale == |receipts| - r.value.applied
      && (forall s: Slot :: s in after.deliveries <==> s in core.deliveries && !(s.consumer == cid && ReceiptFor(core.deliveries, s) in receipts))
      && (forall s | s in after.deliveries :: after.deliveries[s] == core.deliveries[s])
      && (forall a | a in core.archives :: a in after.archives && after.archives[a] == core.archives[a])
  {
    hide Archive, CoreOk;
    ArchiveKept(core, cid, receipts, archivedAt, detail);
    ArchiveMoves(core, cid, receipts, archivedAt, detail);
    HitsBounded(core.deliveries, cid, receipts);
    SizeOfRest(core.deliveries, Hit(core.deliveries, cid, receipts));
  }

  lemma ArchiveMoves(core: Core, cid: nat, receipts: seq<Receipt>, archivedAt: int, detail: Option<string>)
    requires CoreOk(core)
    ensures var after := Archive(core, cid, receipts, archivedAt, detail).0;
      && after.deliveries == core.deliveries - Hit(core.deliveries, cid, receipts)
      && (forall a | a in core.archives :: a in after.archives && after.archives[a] == core.archives[a])
  {
    hide CoreOk, Hit, Sorted, MessagesOf, NextIds;
    ArchiveAllowed(core, cid, receipts);
    ArchivesNumbered(core);
    SortedHolds(MessagesOf(Hit(core.deliveries, cid, receipts)));
  }

  lemma ArchivesNumbered(core: Core)
    requires CoreOk(core)
    ensures forall a | a in core.archives :: a <= core.archiveSeq
  {
  }

  lemma {:induction false} ListedBounded(archiveIds: seq<nat>, taken: set<nat>)
    requires forall a | a in taken :: a in archiveIds
    ensures |taken| <= |archiveIds|
    decreases |archiveIds|
  {
    if archiveIds != [] {
      var a := archiveIds[0];
      ListedBounded(archiveIds[1..], taken - {a});
      assert taken <= (taken - {a}) + {a};
      SubsetSize(taken, (taken - {a}) + {a});
    } else {
      assert taken == {};
    }
  }

  /**
   Redriving takes exactly the listed archives of the consumer, reports as many as it took, and
   puts each copy back at generation and count zero.
   */
  lemma RedriveReports(core: Core, cid: nat, archiveIds: seq<nat>, visibleAt: int)
    requires CoreOk(core)
    ensures var (after, r) := Redrive(core, cid, archiveIds, visibleAt);
      && r.Ok? && r.value.applied == |core.archives| - |after.archives| && r.value.stale == |archiveIds| - r.value.applied
      && (forall a :: a in after.archives <==> a in core.archives && !(core.archives[a].slot.consumer == cid && a in archiveIds))
      && (forall a | a in after.archives :: after.archives[a] == core.archives[a])
      && (forall a | a in core.archives && a !in after.archives ::
            && core.archives[a].slot !in core.deliveries && core.archives[a].slot in after.deliveries
            && after.deliveries[core.archives[a].slot] == Lease(visibleAt, 0, 0))
      && (forall s | s in core.deliveries :: s in after.deliveries && after.deliveries[s] == core.deliveries[s])
      && (forall s | s in after.deliveries && s !in core.deliveries :: exists a :: a in core.archives && a !in after.archives && core.archives[a].slot == s)
  {
    hide CoreOk, Redrive;
    RedriveKept(core, cid, archiveIds, visibleAt);
    RedriveMovesBack(core, cid, archiveIds, visibleAt);
    var taken := Redriven(core, cid, archiveIds);
    ListedBounded(archiveIds, taken);
    SizeOfRest(core.archives, taken);
  }

  lemma RedriveMovesBack(core: Core, cid: nat, archiveIds: seq<nat>, visibleAt: int)
    requires CoreOk(core)
    ensures var after := Redrive(core, cid, archiveIds, visibleAt).0; var taken := Redriven(core, cid, archiveIds);
      && after.archives == core.archives - taken
      && (forall s | s in SlotsOf(core, taken) :: s !in core.deliveries)
      && after.deliveries == core.deliveries + (map s | s in SlotsOf(core, taken) :: Lease(visibleAt, 0, 0))
  {
    hide CoreOk, SlotsOf;
    var taken := Redriven(core, cid, archiveIds);
    forall s | s in SlotsOf(core, taken) ensures s !in core.deliveries && s.consumer in core.consumers && s.message in core.messages {
      var a :| a in taken && core.archives[a].slot == s;
      assert a in core.archives;
      ArchivedSlotOk(core, a);
    }
  }

  lemma ArchivedSlotOk(core: Core, a: nat)
    requires CoreOk(core) && a in core.archives
    ensures SlotOk(core, core.archives[a].slot) && core.archives[a].slot !in core.deliveries
  {
  }

  // ---- Pages ----------------------------------------------------------------------------

  predicate Listable(core: Core, a: nat) {
    a in core.archives && core.archives[a].slot.message in core.messages
  }

  predicate AllListable(core: Core, order: seq<nat>) {
    forall a | a in order :: Listable(core, a)
  }

  /** Archives joined with their messages. */
  function Joined(core: Core, order: seq<nat>): seq<ArchivedDelivery>
    requires AllListable(core, order)
  {
    seq(|order|, i requires 0 <= i < |order| => assert order[i] in order; ArchivedOf(core, order[i]))
  }

  lemma JoinedInTwo(core: Core, p: seq<nat>, q: seq<nat>)
    requires AllListable(core, p) && AllListable(core, q)
    ensures AllListable(core, p + q)
    ensures Joined(core, p + q) == Joined(core, p) + Joined(core, q)
  {
    assert AllListable(core, p + q);
    hide ArchivedOf;
  }

  /** These archives in id order. */
  function Entries(core: Core, ids: set<nat>): seq<ArchivedDelivery>
    requires forall a | a in ids :: Listable(core, a)
  {
    Joined(core, Sorted(ids))
  }

  lemma PageIsEntries(core: Core, cid: nat, after: nat, limit: nat)
    ensures ListArchives(core, cid, after, limit) == Entries(core, ArchivePage(core, cid, after, limit))
  {
    hide Sorted, ArchivePage;
  }

  /** The page ends with its highest id, and is empty only when it holds no archive. */
  lemma PageEnds(core: Core, cid: nat, after: nat, limit: nat)
    ensures var page, ids := ListArchives(core, cid, after, limit), ArchivePage(core, cid, after, limit);
      && (page == [] <==> ids == {})
      && (page != [] ==> page[|page| - 1].id in ids && forall a | a in ids :: a <= page[|page| - 1].id)
  {
    hide Sorted, ArchivePage;
    var ids := ArchivePage(core, cid, after, limit);
    SortedHolds(ids);
    var order := Sorted(ids);
    if order != [] {
      assert order[|order| - 1] in order;
      forall a | a in ids ensures a <= order[|order| - 1] {
        assert a in order;
      }
    }
  }

  /** The ids above the last of a lowest selection are those it left out. */
  lemma AboveTheLast(all: set<nat>, n: nat, last: nat)
    requires last in Lowest(all, n) && forall a | a in Lowest(all, n) :: a <= last
    ensures (set a | a in all && last < a) == all - Lowest(all, n)
    ensures |all - Lowest(all, n)| < |all|
  {
    hide Lowest;
    var low := Lowest(all, n);
    SubsetSize(all - low, all - {last});
  }

  lemma AfterAgain(core: Core, cid: nat, after: nat, last: nat)
    requires after <= last
    ensures ArchivesAfter(core, cid, last) == (set a | a in ArchivesAfter(core, cid, after) && last < a)
    ensures forall a | a in ArchivesAfter(core, cid, after) :: after < a
  {
  }

  /** What is left after a page is what the page did not hold. */
  lemma PageAdvances(core: Core, cid: nat, after: nat, limit: nat)
    requires ListArchives(core, cid, after, limit) != []
    ensures var page, ids := ListArchives(core, cid, after, limit), ArchivePage(core, cid, after, limit);
      var last := page[|page| - 1].id;
      && ids <= ArchivesAfter(core, cid, after)
      && ArchivesAfter(core, cid, last) == ArchivesAfter(core, cid, after) - ids
      && |ArchivesAfter(core, cid, last)| < |ArchivesAfter(core, cid, after)|
      && forall a | a in ids :: a <= last
  {
    hide ListArchives, ArchivesAfter, Lowest;
    var page := ListArchives(core, cid, after, limit);
    PageEnds(core, cid, after, limit);
    AfterAgain(core, cid, after, after);
    AfterAgain(core, cid, after, page[|page| - 1].id);
    AboveTheLast(ArchivesAfter(core, cid, after), limit, page[|page| - 1].id);
  }

  /** Page after page, each starting after the last id of the one before, until a page is empty. */
  function AllPages(core: Core, cid: nat, after: nat, limit: nat): seq<ArchivedDelivery>
    requires limit > 0
    decreases |ArchivesAfter(core, cid, after)|
  {
    var page := ListArchives(core, cid, after, limit);
    if page == [] then []
    else
      PageAdvances(core, cid, after, limit);
      page + AllPages(core, cid, page[|page| - 1].id, limit)
  }

  lemma AfterIsListed(core: Core, cid: nat, after: nat)
    ensures forall a | a in ArchivesAfter(core, cid, after) :: Listable(core, a) && after < a
  {
  }

  /** Reading page by page lists every archive of the consumer once, in id order, whatever the page size. */
  lemma {:induction false} PagesListEverything(core: Core, cid: nat, after: nat, limit: nat)
    requires limit > 0
    ensures forall a | a in ArchivesAfter(core, cid, after) :: Listable(core, a)
    ensures AllPages(core, cid, after, limit) == Entries(core, ArchivesAfter(core, cid, after))
    decreases |ArchivesAfter(core, cid, after)|
  {
    hide Entries, ListArchives, ArchivesAfter, ArchivePage;
    AfterIsListed(core, cid, after);
    var page, ids := ListArchives(core, cid, after, limit), ArchivePage(core, cid, after, limit);
    PageEnds(core, cid, after, limit);
    PageIsEntries(core, cid, after, limit);
    if page == [] {
      EmptyPage(core, cid, after, limit);
    } else {
      PageAdvances(core, cid, after, limit);
      var last := page[|page| - 1].id;
      PagesListEverything(core, cid, last, limit);
      AfterIsListed(core, cid, last);
      EntriesJoin(core, ids, ArchivesAfter(core, cid, last));
      assert ids + ArchivesAfter(core, cid, last) == ArchivesAfter(core, cid, after);
    }
  }

  lemma EmptyPage(core: Core, cid: nat, after: nat, limit: nat)
    requires limit > 0 && ArchivePage(core, cid, after, limit) == {}
    ensures ArchivesAfter(core, cid, after) == {}
  {
    hide ArchivesAfter;
  }

  lemma EntriesJoin(core: Core, low: set<nat>, high: set<nat>)
    requires forall a | a in low + high :: Listable(core, a)
    requires forall a, b | a in low && b in high :: a < b
    ensures Entries(core, low + high) == Entries(core, low) + Entries(core, high)
  {
    hide Sorted, Joined, Listable;
    SortedInTwo(low, high);
    SortedHolds(low);
    SortedHolds(high);
    JoinedInTwo(core, Sorted(low), Sorted(high));
  }

  lemma AscendingJoin(p: seq<nat>, q: seq<nat>)
    requires Ascending(p) && Ascending(q) && forall a, b | a in p && b in q :: a < b
    ensures Ascending(p + q)
  {
    forall i, j | 0 <= i < j < |p + q| ensures (p + q)[i] < (p + q)[j] {
      if i < |p| <= j {
        assert p[i] in p && q[j - |p|] in q;
      }
    }
  }

  /** Sorting the lower ids and then the higher ones sorts them all. */
  lemma SortedInTwo(low: set<nat>, high: set<nat>)
    requires forall a, b | a in low && b in high :: a < b
    ensures Sorted(low + high) == Sorted(low) + Sorted(high)
  {
    hide Sorted, Ascending;
    SortedHolds(low);
    SortedHolds(high);
    SortedHolds(low + high);
    AscendingJoin(Sorted(low), Sorted(high));
    AscendingUnique(Sorted(low + high), Sorted(low) + Sorted(high));
  }

  // ---- What an entry says ---------------------------------------------------------------

  /** An entry has the row's message with what the log holds for it, and the row's attempt count, time and detail. */
  predicate Describes(core: Core, e: ArchivedDelivery) {
    && e.id in core.archives
    && var row := core.archives[e.id];
    && e.messageId == row.slot.message && row.slot.message in core.messages && e.message == core.messages[row.slot.message]
    && e.deliveryCount == row.deliveryCount && e.archivedAt == row.archivedAt && e.detail == row.detail
  }

  /** A page holds the lowest archives of the consumer after the cursor, as many as fit, in id order. */
  lemma PageIsExact(core: Core, cid: nat, after: nat, limit: nat)
    requires CoreOk(core)
    ensures var page, all := ListArchives(core, cid, after, limit), set a | a in core.archives && core.archives[a].slot.consumer == cid && after < a;
      && |page| == Min(limit, |all|)
      && (forall i | 0 <= i < |page| :: page[i].id in all && Describes(core, page[i]))
      && (forall i, j | 0 <= i < j < |page| :: page[i].id < page[j].id)
      && (forall a, i | a in all && 0 <= i < |page| && a < page[i].id :: exists k :: 0 <= k < |page| && page[k].id == a)
  {
    hide Sorted, Lowest, CoreOk;
    var ids := ArchivePage(core, cid, after, limit);
    AllJoinable(core, cid, after);
    SortedHolds(ids);
    var order, page := Sorted(ids), ListArchives(core, cid, after, limit);
    assert forall i | 0 <= i < |order| :: order[i] in order && page[i].id == order[i];
    forall a, i | a in ArchivesAfter(core, cid, after) && 0 <= i < |page| && a < page[i].id ensures exists k :: 0 <= k < |page| && page[k].id == a {
      assert order[i] in ids && a in order;
      var k :| 0 <= k < |order| && order[k] == a;
      assert page[k].id == a;
    }
  }

  lemma AllJoinable(core: Core, cid: nat, after: nat)
    requires CoreOk(core)
    ensures ArchivesAfter(core, cid, after) == set a | a in core.archives && core.archives[a].slot.consumer == cid && after < a
  {
    forall a | a in core.archives ensures core.archives[a].slot.message in core.messages {
      assert SlotOk(core, core.archives[a].slot);
    }
  }

  lemma EntryListed(core: Core, ids: set<nat>, a: nat)
    requires a in ids && forall b | b in ids :: Listable(core, b)
    ensures Listable(core, a) && ArchivedOf(core, a) in Entries(core, ids)
  {
    hide Sorted;
    SortedHolds(ids);
    var order := Sorted(ids);
    assert a in order;
    var i :| 0 <= i < |order| && order[i] == a;
    assert Entries(core, ids)[i] == ArchivedOf(core, a);
  }

  /**
   Follow a copy into the archive and out of a listing: reading the pages, of any size, shows it
   with the message of the log, the attempts its lease had counted, and the caller's time and detail.
   */
  lemma ArchivedIsListed(core: Core, cid: nat, receipts: seq<Receipt>, archivedAt: int, detail: Option<string>, s: Slot, limit: nat)
    requires CoreOk(core) && s in Hit(core.deliveries, cid, receipts) && limit > 0
    ensures s in core.deliveries && s.message in core.messages && s.message in Sorted(MessagesOf(Hit(core.deliveries, cid, receipts)))
    ensures var after := Archive(core, cid, receipts, archivedAt, detail).0;
      ArchivedDelivery(ArchiveIdOf(core, cid, receipts, s.message), s.message, core.messages[s.message], core.deliveries[s].deliveryCount, archivedAt, detail)
        in AllPages(after, cid, core.archiveSeq, limit)
  {
    hide CoreOk, Hit, MessagesOf, Sorted, Archive, ArchivesAfter, ArchiveIdOf, Entries, AllPages;
    ArchivedWithDetail(core, cid, receipts, archivedAt, detail, s);
    HitIsLive(core, cid, receipts, s);
    var after := Archive(core, cid, receipts, archivedAt, detail).0;
    ArchiveKeepsLog(core, cid, receipts, archivedAt, detail);
    ArchiveKept(core, cid, receipts, archivedAt, detail);
    AfterArchiving(core, cid, receipts, archivedAt, detail);
    AllJoinable(after, cid, core.archiveSeq);
    PagesListEverything(after, cid, core.archiveSeq, limit);
    EntryListed(after, ArchivesAfter(after, cid, core.archiveSeq), ArchiveIdOf(core, cid, receipts, s.message));
  }

  lemma HitIsLive(core: Core, cid: nat, receipts: seq<Receipt>, s: Slot)
    requires CoreOk(core) && s in Hit(core.deliveries, cid, receipts)
    ensures s in core.deliveries && s.consumer == cid && s.message in core.messages
  {
    assert SlotOk(core, s);
  }

  lemma AfterArchiving(core: Core, cid: nat, receipts: seq<Receipt>, archivedAt: int, detail: Option<string>)
    requires CoreOk(core)
    ensures CoreOk(Archive(core, cid, receipts, archivedAt, detail).0)
  {
    hide Archive;
    ArchiveKept(core, cid, receipts, archivedAt, detail);
  }

  lemma ArchiveKeepsLog(core: Core, cid: nat, receipts: seq<Receipt>, archivedAt: int, detail: Option<string>)
    ensures Archive(core, cid, receipts, archivedAt, detail).0.messages == core.messages
  {
    hide Hit, Sorted, MessagesOf, NewArchives;
    SortedHolds(MessagesOf(Hit(core.deliveries, cid, receipts)));
  }

  // ---- Purging --------------------------------------------------------------------------

  function Purgeable(core: Core, cid: nat, before: int): set<nat> {
    set a | a in core.archives && core.archives[a].slot.consumer == cid && core.archives[a].archivedAt < before
  }

  /** One purge deletes exactly min(limit, eligible) archives, the lowest ids, and nothing but archives. */
  lemma PurgeIsExact(core: Core, cid: nat, before: int, limit: nat)
    ensures var (after, purged) := PurgeArchives(core, cid, before, limit);
      && after == core.(archives := after.archives) && after.archives.Keys <= core.archives.Keys
      && purged == Min(limit, |Purgeable(core, cid, before)|) == |core.archives.Keys - after.archives.Keys|
      && (forall a | a in after.archives :: after.archives[a] == core.archives[a])
      && (forall a | a in core.archives && a !in after.archives :: a in Purgeable(core, cid, before))
      && (forall a, b | a in core.archives && a !in after.archives && b in Purgeable(core, cid, before) && b in after.archives :: a < b)
  {
    hide Lowest;
    var victims := PurgeVictims(core, cid, before, limit);
    assert victims == Lowest(Purgeable(core, cid, before), limit);
    assert core.archives.Keys - PurgeArchives(core, cid, before, limit).0.archives.Keys == victims;
  }
}
