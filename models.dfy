/**
 * The `QARecord` table. The database is replaced by an in-memory sequence of
 * rows in insertion order, the auto-increment counter by `nextId`, and the
 * source of `auto_now_add` timestamps by a clock that never goes back.
 */
module Models {

  /** One stored question/answer interaction. */
  datatype Record = Record(id: nat, question: string, answer: string, createdAt: int)

  /** No two records share an id. */
  predicate DistinctIds(rs: seq<Record>)
  {
    forall i, j :: 0 <= i < j < |rs| ==> rs[i].id != rs[j].id
  }

  class RecordTable {
    var rows: seq<Record>
    var nextId: nat
    var clock: int

    /**
     * Ids are handed out in increasing order and are all below the next one;
     * timestamps never decrease along the insertion order and none is later
     * than the clock.
     */
    ghost predicate Valid()
      reads this
    {
      && 1 <= nextId
      && (forall i, j :: 0 <= i < j < |rows| ==> rows[i].id < rows[j].id)
      && (forall i :: 0 <= i < |rows| ==> rows[i].id < nextId)
      && (forall i, j :: 0 <= i < j < |rows| ==> rows[i].createdAt <= rows[j].createdAt)
      && (forall i :: 0 <= i < |rows| ==> rows[i].createdAt <= clock)
    }

    /** An empty table whose clock reads `start`. */
    constructor (start: int)
      ensures Valid()
      ensures rows == [] && nextId == 1 && clock == start
    {
      rows, nextId, clock := [], 1, start;
    }

    /**
     * `QARecord.objects.create(question=..., answer=...)`: appends one row
     * with the next id, stamped with the clock after it advanced by `elapsed`.
     */
    method Create(question: string, answer: string, elapsed: nat) returns (r: Record)
      requires Valid()
      modifies this
      ensures Valid()
      ensures r == Record(old(nextId), question, answer, old(clock) + elapsed)
      ensures rows == old(rows) + [r]
      ensures nextId == old(nextId) + 1 && clock == r.createdAt
      ensures forall i :: 0 <= i < |old(rows)| ==> old(rows)[i].id != r.id && old(rows)[i].createdAt <= r.createdAt
    {
      r := Record(nextId, question, answer, clock + elapsed);
      rows := rows + [r];
      nextId := nextId + 1;
      clock := r.createdAt;
    }

    /** A valid table never holds two records with the same id. */
    lemma ValidIdsDistinct()
      requires Valid()
      ensures DistinctIds(rows)
    {
    }
  }
}
