/** The three resource families the server keeps (users, cities, planes):
    which request fields a create needs, how a stored record is built from
    a request body, and when a record answers to a path id. */
module Records {
  import opened JsValues
  import opened JsParseInt

  datatype Resource = Users | Cities | Planes

  /** The fields a create request must carry with a truthy value. */
  function RequiredFields(kind: Resource): seq<string>
  {
    match kind
    case Users => ["first_name", "last_name", "email", "password"]
    case Cities => ["full_name", "abbreviation"]
    case Planes => ["capacity", "IDFSCity"]
  }

  /** The validation guard `!b.f1 || !b.f2 || ...` is false: every
      required field is present and truthy. */
  predicate Admissible(kind: Resource, body: Object)
  {
    forall i | 0 <= i < |RequiredFields(kind)| :: Truthy(Field(body, RequiredFields(kind)[i]))
  }

  /** The object literal `{ id, first_name: b.first_name, ... }` a user
      record is built from. */
  function UserRecord(id: Value, body: Object): Object
  {
    map["id" := id,
        "first_name" := Field(body, "first_name"),
        "last_name" := Field(body, "last_name"),
        "email" := Field(body, "email"),
        "password" := Field(body, "password")]
  }

  /** The object literal `{ id, full_name: b.full_name, abbreviation: ... }`
      a city record is built from. */
  function CityRecord(id: Value, body: Object): Object
  {
    map["id" := id,
        "full_name" := Field(body, "full_name"),
        "abbreviation" := Field(body, "abbreviation")]
  }

  /** The record a create stores under the new id: a fresh user or city
      literal, or the plane request body itself with its `id` overwritten. */
  function NewRecord(kind: Resource, id: int, body: Object): Object
  {
    match kind
    case Users => UserRecord(Num(id), body)
    case Cities => CityRecord(Num(id), body)
    case Planes => body["id" := Num(id)]
  }

  /** The record an update stores for the parsed path id `id`: a fresh user
      or city literal carrying the path id, or the plane body unchanged. */
  function Replacement(kind: Resource, id: int, body: Object): Object
  {
    match kind
    case Users => UserRecord(Num(id), body)
    case Cities => CityRecord(Num(id), body)
    case Planes => body
  }

  /** The search callback `r => r.id === pid`: strict equality of numbers,
      which NaN never satisfies. */
  predicate Matches(r: Object, pid: ParsedId)
  {
    pid.Int? && Field(r, "id") == Num(pid.n)
  }

  /** A user create is admitted exactly when first name, last name, email
      and password are all truthy. */
  lemma UserValidation(body: Object)
    ensures Admissible(Users, body) <==>
      Truthy(Field(body, "first_name")) && Truthy(Field(body, "last_name")) &&
      Truthy(Field(body, "email")) && Truthy(Field(body, "password"))
  {
    if Truthy(Field(body, "first_name")) && Truthy(Field(body, "last_name")) &&
       Truthy(Field(body, "email")) && Truthy(Field(body, "password")) {
      forall i | 0 <= i < |RequiredFields(Users)|
        ensures Truthy(Field(body, RequiredFields(Users)[i]))
      {
      }
    }
    assert RequiredFields(Users)[0] == "first_name" && RequiredFields(Users)[1] == "last_name";
    assert RequiredFields(Users)[2] == "email" && RequiredFields(Users)[3] == "password";
  }

  /** A city create is admitted exactly when full name and abbreviation
      are both truthy. */
  lemma CityValidation(body: Object)
    ensures Admissible(Cities, body) <==>
      Truthy(Field(body, "full_name")) && Truthy(Field(body, "abbreviation"))
  {
    if Truthy(Field(body, "full_name")) && Truthy(Field(body, "abbreviation")) {
      forall i | 0 <= i < |RequiredFields(Cities)|
        ensures Truthy(Field(body, RequiredFields(Cities)[i]))
      {
      }
    }
    assert RequiredFields(Cities)[0] == "full_name" && RequiredFields(Cities)[1] == "abbreviation";
  }

  /** A plane create is admitted exactly when capacity and IDFSCity are
      both truthy; in particular a capacity of 0 (or an empty city
      reference) is turned away as a missing field. */
  lemma PlaneValidation(body: Object)
    ensures Admissible(Planes, body) <==>
      Truthy(Field(body, "capacity")) && Truthy(Field(body, "IDFSCity"))
    ensures Field(body, "capacity") == Num(0) ==> !Admissible(Planes, body)
    ensures Field(body, "IDFSCity") == Str("") ==> !Admissible(Planes, body)
  {
    if Truthy(Field(body, "capacity")) && Truthy(Field(body, "IDFSCity")) {
      forall i | 0 <= i < |RequiredFields(Planes)|
        ensures Truthy(Field(body, RequiredFields(Planes)[i]))
      {
      }
    }
    assert RequiredFields(Planes)[0] == "capacity";
    assert RequiredFields(Planes)[1] == "IDFSCity";
  }

  /** A stored user holds the id and the four named fields and nothing
      else: other request fields are dropped, and a field the request
      lacks is stored as `undefined`. */
  lemma UserRecordShape(id: int, body: Object)
    ensures var r := NewRecord(Users, id, body);
      r.Keys == {"id", "first_name", "last_name", "email", "password"} &&
      r["id"] == Num(id) &&
      r["first_name"] == Field(body, "first_name") && r["last_name"] == Field(body, "last_name") &&
      r["email"] == Field(body, "email") && r["password"] == Field(body, "password")
  {
  }

  /** A stored city holds the id, full name and abbreviation and nothing
      else. */
  lemma CityRecordShape(id: int, body: Object)
    ensures var r := NewRecord(Cities, id, body);
      r.Keys == {"id", "full_name", "abbreviation"} &&
      r["id"] == Num(id) &&
      r["full_name"] == Field(body, "full_name") && r["abbreviation"] == Field(body, "abbreviation")
  {
  }

  /** A stored plane is the request body as given, every field kept, with
      `id` set to the new id (overwriting any id the client sent). */
  lemma PlaneRecordShape(id: int, body: Object)
    ensures var r := NewRecord(Planes, id, body);
      r.Keys == body.Keys + {"id"} && r["id"] == Num(id) &&
      forall k | k in body && k != "id" :: r[k] == body[k]
  {
  }

  /** Whatever the resource, the stored record answers to its new id. */
  lemma NewRecordMatches(kind: Resource, id: int, body: Object)
    ensures Matches(NewRecord(kind, id, body), Int(id))
    ensures forall m | m != id :: !Matches(NewRecord(kind, id, body), Int(m))
  {
  }

  /** An updated user or city carries the path id and only the named
      fields: a whole replacement, not a merge with the old record, so it
      keeps answering to the path id. */
  lemma NamedReplacementShape(kind: Resource, id: int, body: Object)
    requires kind != Planes
    ensures Replacement(kind, id, body) == NewRecord(kind, id, body)
    ensures Matches(Replacement(kind, id, body), Int(id))
  {
  }

  /** An updated plane is the body as sent, so it answers to the path id
      only when the body itself carries that id. */
  lemma PlaneReplacementMatches(id: int, body: Object)
    ensures Matches(Replacement(Planes, id, body), Int(id)) <==> Field(body, "id") == Num(id)
  {
  }

  /** NaN, the parse of a non-numeric path id, matches no record. */
  lemma NaNMatchesNothing(r: Object)
    ensures !Matches(r, NaN)
  {
  }
}
