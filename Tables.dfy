/** The server's in-memory tables and the handlers that change them in
    place: `push` on create, indexed assignment on update, `splice` on
    delete, each after a linear `find`/`findIndex` scan. The write of the
    whole table back to its file is not modelled; its outcome comes in as
    `writeOk`, and is consulted only after the table has been changed. */
module Tables {
  import opened Options
  import opened JsValues
  import opened JsParseInt
  import opened Records
  import opened TableSpec

  /** One resource's array of records (users, cities or planes). */
  class Table {
    const kind: Resource
    var rows: seq<Object>

    /** The table as loaded at start-up: any contents at all. */
    constructor (kind: Resource, initial: seq<Object>)
      ensures this.kind == kind && rows == initial
    {
      this.kind := kind;
      rows := initial;
    }

    /** GET /{resource}: the whole table, unfiltered and in order. */
    method List() returns (all: seq<Object>)
      ensures |all| == |rows| && forall k | 0 <= k < |rows| :: all[k] == rows[k]
    {
      all := rows;
    }

    /** `findIndex(r => r.id === pid)`: a scan from the front. */
    method FindIndex(pid: ParsedId) returns (i: int)
      ensures -1 <= i < |rows|
      ensures i == -1 <==> forall k | 0 <= k < |rows| :: !Matches(rows[k], pid)
      ensures 0 <= i ==> Matches(rows[i], pid) && forall k | 0 <= k < i :: !Matches(rows[k], pid)
      ensures i == FirstIndex(rows, pid)
    {
      var k := 0;
      while k < |rows|
        invariant 0 <= k <= |rows|
        invariant forall j | 0 <= j < k :: !Matches(rows[j], pid)
      {
        if Matches(rows[k], pid) {
          FirstIndexUnique(rows, pid, k);
          return k;
        }
        k := k + 1;
      }
      FirstIndexIsFirstMatch(rows, pid);
      return -1;
    }

    /** `find(r => r.id === pid)`: a scan from the front. */
    method Find(pid: ParsedId) returns (found: Option<Object>)
      ensures found.None? <==> forall k | 0 <= k < |rows| :: !Matches(rows[k], pid)
      ensures found.Some? ==> exists i | 0 <= i < |rows| ::
        found.value == rows[i] && Matches(rows[i], pid) && forall k | 0 <= k < i :: !Matches(rows[k], pid)
      ensures found == Lookup(rows, pid)
    {
      var k := 0;
      while k < |rows|
        invariant 0 <= k <= |rows|
        invariant forall j | 0 <= j < k :: !Matches(rows[j], pid)
      {
        if Matches(rows[k], pid) {
          FirstIndexUnique(rows, pid, k);
          return Some(rows[k]);
        }
        k := k + 1;
      }
      FirstIndexIsFirstMatch(rows, pid);
      return None;
    }

    /** GET /{resource}/{id}: 200 with the first record carrying the parsed
        id, 404 when there is none (always for a non-numeric id). */
    method Get(rawId: string) returns (status: Status, record: Option<Object>)
      ensures record == Lookup(rows, ParseInt(rawId))
      ensures status == Ok <==> record.Some?
      ensures status == NotFound <==> record.None?
      ensures ParseInt(rawId) == NaN ==> status == NotFound
    {
      var pid := ParseInt(rawId);
      record := Find(pid);
      if record.Some? {
        status := Ok;
      } else {
        status := NotFound;
      }
      LookupIsFirstMatch(rows, pid);
    }

    /** POST /{resource}: 400 when a required field is missing; otherwise
        push the new record with id `length + 1` and answer 201, or 500
        when the write fails (the record stays pushed). */
    method Create(body: Object, writeOk: bool) returns (status: Status)
      modifies this
      ensures Step(status, rows) == CreateStep(kind, old(rows), body, writeOk)
      ensures !Admissible(kind, body) ==> status == BadRequest && rows == old(rows)
      ensures Admissible(kind, body) ==>
        rows == old(rows) + [NewRecord(kind, |old(rows)| + 1, body)] &&
        status == (if writeOk then Created else WriteError)
    {
      if !Admissible(kind, body) {
        return BadRequest;
      }
      var newId := |rows| + 1;
      rows := rows + [NewRecord(kind, newId, body)];
      status := if writeOk then Created else WriteError;
    }

    /** PUT /{resource}/{id}: 404 when no record carries the parsed id;
        otherwise overwrite the first one that does and answer 200, or 500
        when the write fails (the record stays overwritten). */
    method Update(rawId: string, body: Object, writeOk: bool) returns (status: Status)
      modifies this
      ensures Step(status, rows) == UpdateStep(kind, old(rows), ParseInt(rawId), body, writeOk)
      ensures FirstIndex(old(rows), ParseInt(rawId)) == -1 ==> status == NotFound && rows == old(rows)
      ensures FirstIndex(old(rows), ParseInt(rawId)) >= 0 ==>
        rows == old(rows)[FirstIndex(old(rows), ParseInt(rawId)) := Replacement(kind, ParseInt(rawId).n, body)] &&
        status == (if writeOk then Ok else WriteError)
    {
      var pid := ParseInt(rawId);
      var i := FindIndex(pid);
      if i == -1 {
        return NotFound;
      }
      rows := rows[i := Replacement(kind, pid.n, body)];
      status := if writeOk then Ok else WriteError;
    }

    /** DELETE /{resource}/{id}: 404 when no record carries the parsed id;
        otherwise splice out the first one that does and answer 200, or
        500 when the write fails (the record stays removed). */
    method Delete(rawId: string, writeOk: bool) returns (status: Status)
      modifies this
      ensures Step(status, rows) == DeleteStep(old(rows), ParseInt(rawId), writeOk)
      ensures FirstIndex(old(rows), ParseInt(rawId)) == -1 ==> status == NotFound && rows == old(rows)
      ensures FirstIndex(old(rows), ParseInt(rawId)) >= 0 ==>
        var i := FirstIndex(old(rows), ParseInt(rawId));
        rows == old(rows)[..i] + old(rows)[i + 1..] &&
        status == (if writeOk then Ok else WriteError)
    {
      var pid := ParseInt(rawId);
      var i := FindIndex(pid);
      if i == -1 {
        return NotFound;
      }
      rows := rows[..i] + rows[i + 1..];
      status := if writeOk then Ok else WriteError;
    }
  }

  /** The three module-level tables, each loaded once at start-up and then
      shared by all requests for its resource. */
  class Server {
    const users: Table
    const cities: Table
    const planes: Table

    constructor (initialUsers: seq<Object>, initialCities: seq<Object>, initialPlanes: seq<Object>)
      ensures users.kind == Users && cities.kind == Cities && planes.kind == Planes
      ensures users != cities && users != planes && cities != planes
      ensures fresh(users) && fresh(cities) && fresh(planes)
      ensures users.rows == initialUsers && cities.rows == initialCities && planes.rows == initialPlanes
    {
      users := new Table(Users, initialUsers);
      cities := new Table(Cities, initialCities);
      planes := new Table(Planes, initialPlanes);
    }
  }
}
