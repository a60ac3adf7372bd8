/** Statements that bind one value per column and row, and the chunks they are split into. */
module Storage {
  import opened Prelude
  import opened Ranking
  import opened Schema
  import opened Transactions

  /** The chunk starting at `i`: `size` elements, or what is left. */
  function Chunk<T>(xs: seq<T>, i: nat, size: nat): (chunk: seq<T>)
    requires i < |xs| && size > 0
    ensures 0 < |chunk| <= size && i + |chunk| <= |xs|
    ensures chunk == xs[i..i + |chunk|]
    ensures xs[i..] == chunk + xs[i + |chunk|..]
  {
    if |xs| - i < size then xs[i..] else xs[i..i + size]
  }

  /** Left fold of single inserts. */
  function InsertAll(core: Core, messages: seq<Publish>, publishedAt: int): (after: Core)
    ensures after.messageSeq == core.messageSeq + |messages|
    ensures after == core.(messages := after.messages, messageSeq := after.messageSeq)
    decreases |messages|
  {
    if messages == [] then core
    else InsertMessage(InsertAll(core, messages[..|messages| - 1], publishedAt), messages[|messages| - 1], publishedAt)
  }

  lemma {:induction false} InsertAllSplit(core: Core, first: seq<Publish>, second: seq<Publish>, publishedAt: int)
    ensures InsertAll(core, first + second, publishedAt) == InsertAll(InsertAll(core, first, publishedAt), second, publishedAt)
    decreases |second|
  {
    if second == [] {
      assert first + second == first;
    } else {
      var n := |second| - 1;
      var all := first + second;
      assert all[..|all| - 1] == first + second[..n] && all[|all| - 1] == second[n];
      InsertAllSplit(core, first, second[..n], publishedAt);
    }
  }

  lemma NothingInserted(core: Core, publishedAt: int)
    ensures InsertAll(core, [], publishedAt) == core
  {
  }

  /** INSERT INTO litefan_messages ... RETURNING id: three values a row, ids in whatever order. */
  method InsertMessagesStatement(core: Core, rows: seq<Publish>, publishedAt: int) returns (after: Core, ids: seq<nat>)
    requires 3 * |rows| <= MAX_SQL_VARIABLES
    ensures after == InsertAll(core, rows, publishedAt)
    ensures forall id :: id in ids <==> core.messageSeq < id <= core.messageSeq + |rows|
  {
    after, ids := core, [];
    for i := 0 to |rows|
      invariant after == InsertAll(core, rows[..i], publishedAt)
      invariant forall id :: id in ids <==> core.messageSeq < id <= core.messageSeq + i
    {
      assert rows[..i + 1][..i] == rows[..i];
      after := InsertMessage(after, rows[i], publishedAt);
      ids := [after.messageSeq] + ids;
    }
    assert rows[..|rows|] == rows;
  }

  /**
   Inserts a batch in chunks. The ids come back sorted, which with one writer is the order
   of the messages whatever order each statement reported.
   */
  method InsertMessageRows(core: Core, messages: seq<Publish>, publishedAt: int) returns (after: Core, ids: seq<nat>)
    ensures after == InsertAll(core, messages, publishedAt)
    ensures |ids| == |messages| && forall i | 0 <= i < |ids| :: ids[i] == core.messageSeq + 1 + i
  {
    hide Sorted, InsertAll;
    after, ids := core, [];
    NothingInserted(core, publishedAt);
    var i := 0;
    while i < |messages|
      invariant i <= |messages| && after == InsertAll(core, messages[..i], publishedAt)
      invariant forall id :: id in ids <==> core.messageSeq < id <= core.messageSeq + i
    {
      var chunk := Chunk(messages, i, PUBLISHES_PER_CHUNK);
      var more: seq<nat>;
      InsertAllSplit(core, messages[..i], chunk, publishedAt);
      assert messages[..i] + chunk == messages[..i + |chunk|];
      after, more := InsertMessagesStatement(after, chunk, publishedAt);
      ids := ids + more;
      i := i + |chunk|;
    }
    assert messages[..i] == messages;
    SortsInOrder(ids, core.messageSeq, |messages|);
    ids := Sorted(set id | id in ids);
  }

  /** Consecutive ids sort into their order, whatever order they came in. */
  lemma SortsInOrder(ids: seq<nat>, last: nat, count: nat)
    requires forall id :: id in ids <==> last < id <= last + count
    ensures var order := Sorted(set id | id in ids); |order| == count && forall i | 0 <= i < |order| :: order[i] == last + 1 + i
  {
    hide Sorted;
    var expected := seq(count, j requires 0 <= j < count => last + 1 + j);
    forall id ensures id in ids <==> id in expected {
      if id in ids {
        assert expected[id - last - 1] == id;
      }
    }
    SortedHolds(set id | id in ids);
    AscendingUnique(Sorted(set id | id in ids), expected);
  }
}
