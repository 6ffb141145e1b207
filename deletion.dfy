/** Deleting an agent's rows from `schedules_update`. */
module Deletion {
  import opened Types
  import opened Tables

  /** A row belongs to `agent` when its agent name is that text; a missing name matches nothing. */
  predicate OfAgent(row: Row, agent: string) {
    row.rec.agentName == Some(agent)
  }

  /** The rows that survive the delete, in their stored order. */
  function WithoutAgent(rows: seq<Row>, agent: string): (kept: seq<Row>)
    ensures |kept| <= |rows|
    ensures forall row :: row in kept <==> row in rows && !OfAgent(row, agent)
    decreases |rows|
  {
    if rows == [] then []
    else
      var last := rows[|rows| - 1];
      assert rows == rows[..|rows| - 1] + [last];
      WithoutAgent(rows[..|rows| - 1], agent) + (if OfAgent(last, agent) then [] else [last])
  }

  /** The number of rows the delete removes: the row count it reports. */
  function CountAgent(rows: seq<Row>, agent: string): nat
    decreases |rows|
  {
    if rows == [] then 0
    else CountAgent(rows[..|rows| - 1], agent) + (if OfAgent(rows[|rows| - 1], agent) then 1 else 0)
  }

  /** The reported count is exactly the number of rows removed. */
  lemma {:induction false} DeleteCount(rows: seq<Row>, agent: string)
    ensures |WithoutAgent(rows, agent)| + CountAgent(rows, agent) == |rows|
    ensures CountAgent(rows, agent) == 0 <==> forall row :: row in rows ==> !OfAgent(row, agent)
    decreases |rows|
  {
    if rows != [] {
      var prefix, last := rows[..|rows| - 1], rows[|rows| - 1];
      assert rows == prefix + [last];
      DeleteCount(prefix, agent);
    }
  }

  /**
   * The delete keeps stored order: deleting from a concatenation is deleting
   * from each part and concatenating the survivors.
   */
  lemma {:induction false} WithoutAgentAppend(a: seq<Row>, b: seq<Row>, agent: string)
    ensures WithoutAgent(a + b, agent) == WithoutAgent(a, agent) + WithoutAgent(b, agent)
    decreases |b|
  {
    if b == [] {
      assert a + b == a;
    } else {
      var prefix, last := b[..|b| - 1], b[|b| - 1];
      assert (a + b)[..|a + b| - 1] == a + prefix;
      assert (a + b)[|a + b| - 1] == last;
      WithoutAgentAppend(a, prefix, agent);
    }
  }

  /** No surviving row carries an id no stored row carries. */
  lemma {:induction false} KeptAvoidsId(rows: seq<Row>, agent: string, id: nat)
    requires forall i :: 0 <= i < |rows| ==> rows[i].id != id
    ensures forall j :: 0 <= j < |WithoutAgent(rows, agent)| ==> WithoutAgent(rows, agent)[j].id != id
    decreases |rows|
  {
    if rows != [] {
      KeptAvoidsId(rows[..|rows| - 1], agent, id);
    }
  }

  /** No surviving row carries a key no stored row carries. */
  lemma {:induction false} KeptAvoidsKey(rows: seq<Row>, agent: string, k: Key)
    requires forall i :: 0 <= i < |rows| ==> RowKey(rows[i]) != k
    ensures forall j :: 0 <= j < |WithoutAgent(rows, agent)| ==> RowKey(WithoutAgent(rows, agent)[j]) != k
    decreases |rows|
  {
    if rows != [] {
      KeptAvoidsKey(rows[..|rows| - 1], agent, k);
    }
  }

  /** Surviving rows keep ids below any bound the stored rows respect. */
  lemma {:induction false} KeptBelow(rows: seq<Row>, agent: string, bound: nat)
    requires forall i :: 0 <= i < |rows| ==> rows[i].id < bound
    ensures forall j :: 0 <= j < |WithoutAgent(rows, agent)| ==> WithoutAgent(rows, agent)[j].id < bound
    decreases |rows|
  {
    if rows != [] {
      KeptBelow(rows[..|rows| - 1], agent, bound);
    }
  }

  /** Deleting keeps ids distinct and below the next id. */
  lemma DeleteKeepsIds(t: Table, agent: string)
    requires ValidIds(t)
    ensures ValidIds(Table(WithoutAgent(t.rows, agent), t.nextId))
  {
    KeptBelow(t.rows, agent, t.nextId);
    DistinctIdsKept(t.rows, agent);
  }

  /** Deleting keeps ids distinct. */
  lemma {:induction false} DistinctIdsKept(rows: seq<Row>, agent: string)
    requires DistinctIds(rows)
    ensures DistinctIds(WithoutAgent(rows, agent))
    decreases |rows|
  {
    if rows != [] {
      var prefix, last := rows[..|rows| - 1], rows[|rows| - 1];
      DistinctIdsKept(prefix, agent);
      KeptAvoidsId(prefix, agent, last.id);
      var kept, kept' := WithoutAgent(prefix, agent), WithoutAgent(rows, agent);
      assert kept' == kept + (if OfAgent(last, agent) then [] else [last]);
      forall i, j | 0 <= i < j < |kept'| ensures kept'[i].id != kept'[j].id {
        assert kept'[i] == kept[i];
        if j < |kept| {
          assert kept'[j] == kept[j];
        } else {
          assert kept'[j] == last;
        }
      }
    }
  }

  /** Deleting keeps "at most one row per (email, date)". */
  lemma {:induction false} DeleteKeepsUnique(rows: seq<Row>, agent: string)
    requires UniqueKeys(rows)
    ensures UniqueKeys(WithoutAgent(rows, agent))
    decreases |rows|
  {
    if rows != [] {
      var prefix, last := rows[..|rows| - 1], rows[|rows| - 1];
      DeleteKeepsUnique(prefix, agent);
      KeptAvoidsKey(prefix, agent, RowKey(last));
      if !OfAgent(last, agent) {
        UniqueAppend(WithoutAgent(prefix, agent), last);
      }
    }
  }
}
