# Flat-file CRUD tables of the business-trips server

The Express server in `index.js` keeps three module-level arrays in memory,
one per resource: users, cities and planes. Each is loaded from a JSON file
at start-up. For each resource the server exposes list, get-by-id, create,
update and delete. Every by-id handler turns the path parameter into a
number with `parseInt`. It then scans the array for the first record whose
`id` is strictly equal to that number. The three mutating handlers change
the array in place (`push`, indexed assignment, `splice`). After that they
rewrite the whole file and answer 201/200, or 500 when the write fails.
A create with a missing (falsy) required field answers 400. An id no
record carries answers 404.

This project models that table logic in Dafny:

- `JsValues.dfy`: JSON-shaped values, objects as maps from property names,
  and JavaScript truthiness, which the `!body.field` guards test.
- `JsParseInt.dfy`: `parseInt` without a radix. It skips leading white
  space, reads an optional sign and an optional `0x` prefix, reads the
  longest digit run, and gives NaN when there are no digits.
- `Records.dfy`: the three resources, their required fields, how a stored
  record is built from a request body, and the `r.id === id` test.
- `TableSpec.dfy`: one request's effect on one table, as a function from
  the old table to the reply status and the new table. Lemmas state what
  the handlers promise, alone and in sequence.
- `Tables.dfy`: class `Table`, whose `rows` field stands for the mutable
  array. Its methods do the scans as loops and are proved to behave as
  `TableSpec` says. Class `Server` holds the three tables.

All three resources run the same handler code. `Table` is written once and
instantiated three times, with `kind` selecting the required fields and
the record-construction rule. So each `Table` row below cites the users
handler, and the cities and planes handlers are the same code at
index.js:247-388 and index.js:429-560.

The id a create assigns is `length + 1`, so ids are not unique. In a
table whose ids run 1..n (n >= 2), a delete of any record but the last,
followed by a create, gives the new record the id n, which the current
last record still carries (`TableSpec.IdCollisionAfterDelete`). The model
therefore never assumes unique ids. Lookups, updates and deletes act on
the first record that carries the id, as `find`/`findIndex` do.

A user or city update builds a fresh record from the request body. A
plane update stores the request body itself (index.js:509), whatever `id`
it carries or lacks, so the record can stop answering to its own path id
(`TableSpec.UpdateThenLookup`).

## Model

| member | source | states |
|---|---|---|
| `JsValues.FalsyValues` | index.js:97 | the guard `!v` holds exactly for `undefined`, `null`, `false`, `0` and `""` |
| `JsParseInt.ParseIntOfDecimal` | index.js:67 | parsing the decimal text of any integer gives that integer back, even with non-digit text after it |
| `JsParseInt.ParseIntNonNumeric` | index.js:67 | a path id with no decimal digit after optional white space and sign parses to NaN |
| `JsParseInt.ParseIntOfHex` | index.js:194 | after a `0x`/`0X` prefix, any non-empty run of hex digits followed by a non-hex character (or nothing) parses to its hexadecimal value |
| `JsParseInt.ParseIntHexExample` | index.js:291 | `"0x1F"` parses to 31 |
| `Records.UserValidation` | index.js:97-100 | a user create is admitted iff first_name, last_name, email and password are all truthy |
| `Records.CityValidation` | index.js:249-252 | a city create is admitted iff full_name and abbreviation are both truthy |
| `Records.PlaneValidation` | index.js:431-434 | a plane create is admitted iff capacity and IDFSCity are truthy, so a capacity of 0 or an empty IDFSCity is rejected |
| `Records.UserRecordShape` | index.js:101-109 | a created user has exactly the keys id, first_name, last_name, email, password; id is the new id and the rest are copied from the body |
| `Records.CityRecordShape` | index.js:253-259 | a created city has exactly the keys id, full_name, abbreviation; id is the new id and the rest are copied from the body |
| `Records.PlaneRecordShape` | index.js:435-437 | a created plane is the body with every field kept and `id` set to the new id |
| `Records.NewRecordMatches` | index.js:101-102 | a created record answers to its new id and to no other id |
| `Records.NamedReplacementShape` | index.js:152-158 | an updated user or city is a fresh record with the path id and only the named fields (a replace, not a merge), and it answers to the path id |
| `Records.PlaneReplacementMatches` | index.js:509 | an updated plane answers to the path id iff the body carries that id |
| `Records.NaNMatchesNothing` | index.js:68 | `r.id === NaN` is false for every record |
| `TableSpec.FirstIndex` | index.js:150 | the search gives -1 or an index in range, and any index it gives holds a matching record |
| `TableSpec.FirstIndexIsFirstMatch` | index.js:150 | the search gives -1 iff no record matches, and no record before the index it gives matches |
| `TableSpec.FirstIndexUnique` | index.js:195 | a matching index with no match before it is the index the search gives |
| `TableSpec.LookupIsFirstMatch` | index.js:66-74 | get-by-id finds nothing iff no record matches; otherwise it finds the first matching record; a NaN id is never found |
| `TableSpec.CountMatchesZero` | index.js:374 | no record carries the id iff the search gives -1 |
| `TableSpec.CreateRejected` | index.js:95-100 | a create missing a required field answers 400 and leaves the table unchanged, whatever the write outcome |
| `TableSpec.CreateAppends` | index.js:101-117 | a valid create appends one record with id old length + 1, keeps every earlier record, and answers 201, or 500 if the write fails |
| `TableSpec.UpdateAbsent` | index.js:147-170 | an update of an id no record carries (NaN included) answers 404 and changes nothing |
| `TableSpec.UpdatePresent` | index.js:150-166 | an update of a present id keeps the length, replaces only the first matching record, keeps all others, and answers 200, or 500 if the write fails |
| `TableSpec.UpdateThenLookup` | index.js:504-521 | after updating a user or city, get-by-id finds the replacement; after updating a uniquely held plane id with a body lacking that id, get-by-id finds nothing |
| `TableSpec.DeleteAbsent` | index.js:193-209 | a delete of an id no record carries answers 404 and changes nothing |
| `TableSpec.DeletePresent` | index.js:195-205 | a delete of a present id removes exactly the first matching record, shortens the table by one, keeps the others in order, and answers 200, or 500 if the write fails |
| `TableSpec.DeleteCountsDown` | index.js:546-548 | a successful delete lowers the number of records carrying the id by exactly one |
| `TableSpec.RepeatDelete` | index.js:544-560 | repeating a successful delete answers 404 iff exactly one record carried the id |
| `TableSpec.WriteFailureKeepsMutation` | index.js:159-166 | the table after create, update or delete is the same whether or not the write succeeds; a failed write only turns the status into 500 |
| `TableSpec.CreateThenLookupAndDelete` | index.js:253-260 | when no record already carries id length + 1, a created record is found by that id, and deleting that id restores the table |
| `TableSpec.IdCollisionAfterDelete` | index.js:101 | with ids 1..n (n >= 2), deleting any id but n and then creating gives the new record id n, which the old last record still carries |
| `Tables.Table.constructor` | index.js:26 | a table starts from any initial array |
| `Tables.Table.List` | index.js:43-45 | listing returns every record of the table, in order |
| `Tables.Table.FindIndex` | index.js:150 | the loop returns the index of the first matching record, or -1 iff none matches |
| `Tables.Table.Find` | index.js:68 | the loop returns the first matching record, or nothing iff none matches |
| `Tables.Table.Get` | index.js:66-74 | GET by id answers 200 with the first record carrying the parsed id, or 404 when there is none, always 404 for NaN |
| `Tables.Table.Create` | index.js:95-118 | POST answers 400 with no change when validation fails; otherwise it pushes the new record, then answers 201 or 500 by the write outcome |
| `Tables.Table.Update` | index.js:147-170 | PUT answers 404 with no change for an absent id; otherwise it overwrites the first matching element, then answers 200 or 500 by the write outcome |
| `Tables.Table.Delete` | index.js:193-209 | DELETE answers 404 with no change for an absent id; otherwise it splices out the first matching element, then answers 200 or 500 by the write outcome |
| `Tables.Server.constructor` | index.js:26-28 | the server holds three distinct tables (users, cities, planes), each starting from its own initial array |

## Left out

- Express routing, the request and response objects, the status-text strings and the Swagger/OpenAPI set-up (index.js:1-24, 567-569). These are framework plumbing. A reply is its status.
- `fs.writeFile` and `JSON.stringify`: the file is not modelled. The write outcome is the `writeOk` parameter, read only after the table has been changed. A property stored as `undefined` stays in the in-memory record, but `JSON.stringify` would drop it from the file.
- The reply is sent from the write callback, asynchronously. Requests that interleave while a write is pending are not modelled: each handler runs as one sequential step.
- Loading the JSON files at start-up (index.js:26-28) is I/O. A table starts from any sequence of records.
- JSON numbers are doubles in JavaScript but integers here. Fractional ids, and parseInt's loss of precision above 2^53, are not modelled.
- `JsParseInt.IsWhiteSpace` covers the ASCII white space, no-break space, line and paragraph separators and byte-order mark. The other Unicode space separators that parseInt also skips are not modelled.
- A request body that is a JSON array rather than an object is not modelled. Every body is an object.
- The create handlers also set `id` on the request body object. That object is discarded after the reply, except for planes, whose body is what gets stored, and that case is modelled.
- The React client (`App.jsx` and its wishlist reducer): `components/tripsReducer` is not part of this model. `App.jsx` only wires routes.
