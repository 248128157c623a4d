/** What one request does to one in-memory table, as a function from the
    table before to the reply status and the table after. The `Table`
    methods are proved to behave as these functions say; the lemmas here
    state what the handlers promise, alone and in sequence. */
module TableSpec {
  import opened Options
  import opened JsValues
  import opened JsParseInt
  import opened Records

  /** The reply of a handler: 200, 201, 400, 404 or 500. */
  datatype Status = Ok | Created | BadRequest | NotFound | WriteError

  /** The reply status together with the table as the handler leaves it. */
  datatype Step = Step(status: Status, rows: seq<Object>)

  /** `rows.findIndex(r => r.id === pid)`: the index of the first record
      answering to `pid`, or -1. */
  function FirstIndex(rows: seq<Object>, pid: ParsedId): (i: int)
    ensures -1 <= i < |rows|
    ensures 0 <= i ==> Matches(rows[i], pid)
  {
    if rows == [] then -1
    else if Matches(rows[0], pid) then 0
    else
      var j := FirstIndex(rows[1..], pid);
      if j < 0 then -1 else j + 1
  }

  /** `rows.find(r => r.id === pid)`. */
  function Lookup(rows: seq<Object>, pid: ParsedId): Option<Object>
  {
    var i := FirstIndex(rows, pid);
    if i < 0 then None else Some(rows[i])
  }

  /** How many records answer to `pid` (ids are not unique). */
  function CountMatches(rows: seq<Object>, pid: ParsedId): nat
  {
    if rows == [] then 0
    else (if Matches(rows[0], pid) then 1 else 0) + CountMatches(rows[1..], pid)
  }

  /** The status the write callback sends: `success` when the file was
      rewritten, 500 when the write failed. */
  function AfterWrite(writeOk: bool, success: Status): Status
  {
    if writeOk then success else WriteError
  }

  /** POST: validate, push the new record with id `length + 1`, then write. */
  function CreateStep(kind: Resource, rows: seq<Object>, body: Object, writeOk: bool): Step
  {
    if !Admissible(kind, body) then Step(BadRequest, rows)
    else Step(AfterWrite(writeOk, Created), rows + [NewRecord(kind, |rows| + 1, body)])
  }

  /** PUT: find the index, overwrite that element, then write. */
  function UpdateStep(kind: Resource, rows: seq<Object>, pid: ParsedId, body: Object, writeOk: bool): Step
  {
    var i := FirstIndex(rows, pid);
    if i < 0 then Step(NotFound, rows)
    else Step(AfterWrite(writeOk, Ok), rows[i := Replacement(kind, pid.n, body)])
  }

  /** DELETE: find the index, `splice(i, 1)`, then write. */
  function DeleteStep(rows: seq<Object>, pid: ParsedId, writeOk: bool): Step
  {
    var i := FirstIndex(rows, pid);
    if i < 0 then Step(NotFound, rows)
    else Step(AfterWrite(writeOk, Ok), rows[..i] + rows[i + 1..])
  }

  /** The search finds the first matching record, and finds nothing
      exactly when no record matches. */
  lemma {:induction false} FirstIndexIsFirstMatch(rows: seq<Object>, pid: ParsedId)
    ensures FirstIndex(rows, pid) == -1 <==> forall k | 0 <= k < |rows| :: !Matches(rows[k], pid)
    ensures forall k | 0 <= k < FirstIndex(rows, pid) :: !Matches(rows[k], pid)
  {
    if rows != [] && !Matches(rows[0], pid) {
      FirstIndexIsFirstMatch(rows[1..], pid);
      assert forall k | 1 <= k < |rows| :: rows[k] == rows[1..][k - 1];
    }
  }

  /** Any index that matches with no match before it is the one the search
      returns. */
  lemma FirstIndexUnique(rows: seq<Object>, pid: ParsedId, i: nat)
    requires i < |rows| && Matches(rows[i], pid)
    requires forall k | 0 <= k < i :: !Matches(rows[k], pid)
    ensures FirstIndex(rows, pid) == i
  {
    FirstIndexIsFirstMatch(rows, pid);
  }

  /** GET by id: the first record with that id, or not found when there is
      none; a NaN path id is never found. */
  lemma LookupIsFirstMatch(rows: seq<Object>, pid: ParsedId)
    ensures Lookup(rows, pid).None? <==> forall k | 0 <= k < |rows| :: !Matches(rows[k], pid)
    ensures Lookup(rows, pid).Some? ==>
      exists i | 0 <= i < |rows| :: Lookup(rows, pid).value == rows[i] && Matches(rows[i], pid) &&
        forall k | 0 <= k < i :: !Matches(rows[k], pid)
    ensures pid == NaN ==> Lookup(rows, pid).None?
  {
    FirstIndexIsFirstMatch(rows, pid);
  }

  /** The number of matches is zero exactly when the search fails. */
  lemma {:induction false} CountMatchesZero(rows: seq<Object>, pid: ParsedId)
    ensures CountMatches(rows, pid) == 0 <==> FirstIndex(rows, pid) == -1
  {
    if rows != [] {
      CountMatchesZero(rows[1..], pid);
    }
  }

  lemma {:induction false} CountMatchesAppend(a: seq<Object>, b: seq<Object>, pid: ParsedId)
    ensures CountMatches(a + b, pid) == CountMatches(a, pid) + CountMatches(b, pid)
  {
    if a != [] {
      assert (a + b)[1..] == a[1..] + b;
      CountMatchesAppend(a[1..], b, pid);
    } else {
      assert a + b == b;
    }
  }

  /** A create whose body lacks a required field answers 400 and leaves
      the table as it was, whatever the write would have done. */
  lemma CreateRejected(kind: Resource, rows: seq<Object>, body: Object, writeOk: bool)
    requires !Admissible(kind, body)
    ensures CreateStep(kind, rows, body, writeOk) == Step(BadRequest, rows)
  {
  }

  /** A create that passes validation appends exactly one record, whose id
      is the old length plus one, and leaves every earlier record in
      place; it answers 201, or 500 when the write fails. */
  lemma CreateAppends(kind: Resource, rows: seq<Object>, body: Object, writeOk: bool)
    requires Admissible(kind, body)
    ensures var s := CreateStep(kind, rows, body, writeOk);
      |s.rows| == |rows| + 1 && s.rows[..|rows|] == rows &&
      s.rows[|rows|] == NewRecord(kind, |rows| + 1, body) &&
      Field(s.rows[|rows|], "id") == Num(|rows| + 1) &&
      (s.status == Created <==> writeOk) && (s.status == WriteError <==> !writeOk)
  {
    assert (rows + [NewRecord(kind, |rows| + 1, body)])[..|rows|] == rows;
  }

  /** An update of an id no record carries (including NaN) answers 404
      and changes nothing. */
  lemma UpdateAbsent(kind: Resource, rows: seq<Object>, pid: ParsedId, body: Object, writeOk: bool)
    requires forall k | 0 <= k < |rows| :: !Matches(rows[k], pid)
    ensures UpdateStep(kind, rows, pid, body, writeOk) == Step(NotFound, rows)
  {
    FirstIndexIsFirstMatch(rows, pid);
  }

  /** An update of a present id keeps the length, replaces only the first
      record with that id, and leaves all the others as they were. */
  lemma UpdatePresent(kind: Resource, rows: seq<Object>, pid: ParsedId, body: Object, writeOk: bool, i: nat)
    requires i < |rows| && Matches(rows[i], pid)
    requires forall k | 0 <= k < i :: !Matches(rows[k], pid)
    ensures var s := UpdateStep(kind, rows, pid, body, writeOk);
      |s.rows| == |rows| && s.rows[i] == Replacement(kind, pid.n, body) &&
      (forall k | 0 <= k < |rows| && k != i :: s.rows[k] == rows[k]) &&
      (s.status == Ok <==> writeOk) && (s.status == WriteError <==> !writeOk)
  {
    FirstIndexUnique(rows, pid, i);
  }

  /** After updating a user or city the same GET finds the new record;
      after updating a plane with a body that does not carry the path id,
      the record it replaced can no longer be found under that id. */
  lemma UpdateThenLookup(kind: Resource, rows: seq<Object>, pid: ParsedId, body: Object, writeOk: bool)
    requires FirstIndex(rows, pid) >= 0
    ensures kind != Planes ==>
      Lookup(UpdateStep(kind, rows, pid, body, writeOk).rows, pid) == Some(Replacement(kind, pid.n, body))
    ensures kind == Planes && Field(body, "id") != Num(pid.n) && CountMatches(rows, pid) == 1 ==>
      Lookup(UpdateStep(kind, rows, pid, body, writeOk).rows, pid) == None
  {
    var i := FirstIndex(rows, pid);
    var r := Replacement(kind, pid.n, body);
    var after := rows[i := r];
    FirstIndexIsFirstMatch(rows, pid);
    if kind != Planes {
      NamedReplacementShape(kind, pid.n, body);
      FirstIndexUnique(after, pid, i);
    } else if Field(body, "id") != Num(pid.n) && CountMatches(rows, pid) == 1 {
      assert rows == rows[..i] + [rows[i]] + rows[i + 1..];
      assert after == rows[..i] + [r] + rows[i + 1..];
      CountMatchesAppend(rows[..i] + [rows[i]], rows[i + 1..], pid);
      CountMatchesAppend(rows[..i], [rows[i]], pid);
      CountMatchesAppend(rows[..i] + [r], rows[i + 1..], pid);
      CountMatchesAppend(rows[..i], [r], pid);
      assert CountMatches([rows[i]], pid) == 1;
      assert CountMatches([r], pid) == 0;
      CountMatchesZero(after, pid);
    }
  }

  /** A delete of an absent id (including NaN) answers 404 and changes
      nothing. */
  lemma DeleteAbsent(rows: seq<Object>, pid: ParsedId, writeOk: bool)
    requires forall k | 0 <= k < |rows| :: !Matches(rows[k], pid)
    ensures DeleteStep(rows, pid, writeOk) == Step(NotFound, rows)
  {
    FirstIndexIsFirstMatch(rows, pid);
  }

  /** A delete of a present id removes exactly the first record with that
      id, shortens the table by one and keeps the other records in order. */
  lemma DeletePresent(rows: seq<Object>, pid: ParsedId, writeOk: bool, i: nat)
    requires i < |rows| && Matches(rows[i], pid)
    requires forall k | 0 <= k < i :: !Matches(rows[k], pid)
    ensures var s := DeleteStep(rows, pid, writeOk);
      |s.rows| == |rows| - 1 &&
      (forall k | 0 <= k < i :: s.rows[k] == rows[k]) &&
      (forall k | i <= k < |s.rows| :: s.rows[k] == rows[k + 1]) &&
      (s.status == Ok <==> writeOk) && (s.status == WriteError <==> !writeOk)
  {
    FirstIndexUnique(rows, pid, i);
  }

  /** A successful search-and-splice removes exactly one of the records
      answering to the id. */
  lemma DeleteCountsDown(rows: seq<Object>, pid: ParsedId, writeOk: bool)
    requires FirstIndex(rows, pid) >= 0
    ensures CountMatches(DeleteStep(rows, pid, writeOk).rows, pid) == CountMatches(rows, pid) - 1
  {
    var i := FirstIndex(rows, pid);
    assert rows == rows[..i] + [rows[i]] + rows[i + 1..];
    CountMatchesAppend(rows[..i] + [rows[i]], rows[i + 1..], pid);
    CountMatchesAppend(rows[..i], [rows[i]], pid);
    CountMatchesAppend(rows[..i], rows[i + 1..], pid);
    assert CountMatches([rows[i]], pid) == 1;
  }

  /** Repeating a successful delete answers 404 exactly when the id was
      carried by a single record; with a duplicate id the repeat removes
      the next record carrying it. */
  lemma RepeatDelete(rows: seq<Object>, pid: ParsedId, w1: bool, w2: bool)
    requires FirstIndex(rows, pid) >= 0
    ensures var after := DeleteStep(rows, pid, w1).rows;
      DeleteStep(after, pid, w2).status == NotFound <==> CountMatches(rows, pid) == 1
  {
    var after := DeleteStep(rows, pid, w1).rows;
    DeleteCountsDown(rows, pid, w1);
    CountMatchesZero(after, pid);
  }

  /** The table is mutated before the write is attempted, so a failed
      write changes only the status (500 instead of 200/201): the table in
      memory is the same either way. */
  lemma WriteFailureKeepsMutation(kind: Resource, rows: seq<Object>, pid: ParsedId, body: Object)
    ensures CreateStep(kind, rows, body, false).rows == CreateStep(kind, rows, body, true).rows
    ensures UpdateStep(kind, rows, pid, body, false).rows == UpdateStep(kind, rows, pid, body, true).rows
    ensures DeleteStep(rows, pid, false).rows == DeleteStep(rows, pid, true).rows
    ensures Admissible(kind, body) ==> CreateStep(kind, rows, body, false).status == WriteError
    ensures FirstIndex(rows, pid) >= 0 ==>
      UpdateStep(kind, rows, pid, body, false).status == WriteError &&
      DeleteStep(rows, pid, false).status == WriteError
  {
  }

  /** When no record already carries the id `length + 1`, a create is
      found again by that id, and deleting that id restores the table. */
  lemma CreateThenLookupAndDelete(kind: Resource, rows: seq<Object>, body: Object, w1: bool, w2: bool)
    requires Admissible(kind, body)
    requires forall k | 0 <= k < |rows| :: !Matches(rows[k], Int(|rows| + 1))
    ensures var after := CreateStep(kind, rows, body, w1).rows;
      Lookup(after, Int(|rows| + 1)) == Some(NewRecord(kind, |rows| + 1, body)) &&
      DeleteStep(after, Int(|rows| + 1), w2).rows == rows
  {
    var pid := Int(|rows| + 1);
    var after := rows + [NewRecord(kind, |rows| + 1, body)];
    NewRecordMatches(kind, |rows| + 1, body);
    FirstIndexUnique(after, pid, |rows|);
    assert after[..|rows|] == rows;
  }

  /** Ids are not unique: in a table whose ids run 1..n (n >= 2), deleting
      any id but the last and then creating a record gives the new record
      the id n, which the old last record still carries. */
  lemma IdCollisionAfterDelete(kind: Resource, rows: seq<Object>, j: int, body: Object, w1: bool, w2: bool)
    requires |rows| >= 2
    requires forall k | 0 <= k < |rows| :: Field(rows[k], "id") == Num(k + 1)
    requires 1 <= j < |rows|
    requires Admissible(kind, body)
    ensures var afterDelete := DeleteStep(rows, Int(j), w1).rows;
      var afterCreate := CreateStep(kind, afterDelete, body, w2).rows;
      |afterCreate| == |rows| &&
      Field(afterCreate[|rows| - 2], "id") == Num(|rows|) &&
      Field(afterCreate[|rows| - 1], "id") == Num(|rows|) &&
      CountMatches(afterCreate, Int(|rows|)) >= 2
  {
    var n := |rows|;
    FirstIndexUnique(rows, Int(j), j - 1);
    var afterDelete := rows[..j - 1] + rows[j..];
    assert afterDelete[n - 2] == rows[n - 1];
    var created := NewRecord(kind, n, body);
    var afterCreate := afterDelete + [created];
    NewRecordMatches(kind, n, body);
    assert afterCreate == afterCreate[..n - 2] + [afterCreate[n - 2]] + [afterCreate[n - 1]];
    CountMatchesAppend(afterCreate[..n - 2] + [afterCreate[n - 2]], [afterCreate[n - 1]], Int(n));
    CountMatchesAppend(afterCreate[..n - 2], [afterCreate[n - 2]], Int(n));
  }
}
