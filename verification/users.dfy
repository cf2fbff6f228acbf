/** Profile endpoints over the user table: the two JSON-dict patches, the
    typed profile patch, and the profile read. The table maps user ids to
    rows; a JSON value is a text or null. `ensure_user` lives in
    app/store.py, which is not part of this model: the row it creates is
    taken to have every profile column unset. */
module Users {
  import opened Wrappers

  datatype User = User(
    id: int, name: Option<string>, address: Option<string>, phone: Option<string>,
    birthDate: Option<string>, timezone: Option<string>)

  type Table = map<int, User>

  /** A JSON request body: key to text, `None` for null. */
  type Payload = map<string, Option<string>>

  /** The row `ensure_user(user_id)` inserts. */
  function Blank(id: int): User {
    User(id, None, None, None, None, None)
  }

  /** The row a request works on: the stored one, created when absent. */
  function Ensure(users: Table, id: int): (r: (Table, User))
    ensures id in r.0 && r.0[id] == r.1
    ensures id in users ==> r.0 == users
    ensures id !in users ==> r.0 == users[id := Blank(id)]
  {
    if id in users then (users, users[id]) else (users[id := Blank(id)], Blank(id))
  }

  /** The `if "<key>" in payload` assignments: each of the five keys the
      body carries replaces its column, null included. */
  function PatchFromDict(u: User, payload: Payload): (r: User)
    ensures r.id == u.id
    ensures r.name == (if "name" in payload then payload["name"] else u.name)
    ensures r.address == (if "address" in payload then payload["address"] else u.address)
    ensures r.phone == (if "phone" in payload then payload["phone"] else u.phone)
    ensures r.birthDate == (if "birth_date" in payload then payload["birth_date"] else u.birthDate)
    ensures r.timezone == (if "timezone" in payload then payload["timezone"] else u.timezone)
  {
    var u1 := if "name" in payload then u.(name := payload["name"]) else u;
    var u2 := if "address" in payload then u1.(address := payload["address"]) else u1;
    var u3 := if "phone" in payload then u2.(phone := payload["phone"]) else u2;
    var u4 := if "birth_date" in payload then u3.(birthDate := payload["birth_date"]) else u3;
    if "timezone" in payload then u4.(timezone := payload["timezone"]) else u4
  }

  /** A body with none of the five keys changes nothing. */
  lemma PatchFromDictIgnoresOtherKeys(u: User, payload: Payload)
    requires forall k | k in payload :: k !in {"name", "address", "phone", "birth_date", "timezone"}
    ensures PatchFromDict(u, payload) == u
  {
  }

  /** Applying the same body twice is applying it once. */
  lemma PatchFromDictIdempotent(u: User, payload: Payload)
    ensures PatchFromDict(PatchFromDict(u, payload), payload) == PatchFromDict(u, payload)
  {
  }

  /** `update_user_profile` as written. The module never imports
      `HTTPException`, so for an unknown user the `raise` fails with a
      NameError (a 500 response) and the table is unchanged. */
  function UpdateUserProfileAsWritten(users: Table, id: int, payload: Payload): (r: Response<Table>)
    ensures id !in users ==> r == Raised("NameError")
    ensures id in users ==> r == Ok(users[id := PatchFromDict(users[id], payload)])
  {
    if id !in users then Raised("NameError")
    else Ok(users[id := PatchFromDict(users[id], payload)])
  }

  /** `update_user_profile` as its code intends: 404 for an unknown user;
      otherwise only that user's row changes, and only in the keys the body
      carries. */
  function UpdateUserProfile(users: Table, id: int, payload: Payload): (r: Response<Table>)
    ensures id !in users <==> r == HttpError(404, "User not found")
    ensures r.Ok? ==> r.value.Keys == users.Keys && r.value[id] == PatchFromDict(users[id], payload)
    ensures r.Ok? ==> forall k | k in users && k != id :: r.value[k] == users[k]
  {
    if id !in users then HttpError(404, "User not found")
    else Ok(users[id := PatchFromDict(users[id], payload)])
  }

  /** The two versions differ only for unknown users. */
  lemma UpdateUserProfileVersionsAgree(users: Table, id: int, payload: Payload)
    ensures id in users <==> UpdateUserProfileAsWritten(users, id, payload) == UpdateUserProfile(users, id, payload)
  {
  }

  /** `update_user_timezone` as written: for an unknown user or a body
      without `timezone`, the `raise` fails with a NameError and nothing
      changes. */
  function UpdateUserTimezoneAsWritten(users: Table, id: int, payload: Payload): (r: Response<(Table, Option<string>)>)
    ensures id !in users || "timezone" !in payload <==> r == Raised("NameError")
    ensures r.Ok? ==> r.value == (users[id := users[id].(timezone := payload["timezone"])], payload["timezone"])
  {
    if id !in users || "timezone" !in payload then Raised("NameError")
    else Ok((users[id := users[id].(timezone := payload["timezone"])], payload["timezone"]))
  }

  /** `update_user_timezone` as intended: 404 for an unknown user, 400 when
      the body has no `timezone`; otherwise only that user's timezone
      changes and the new value is returned. */
  function UpdateUserTimezone(users: Table, id: int, payload: Payload): (r: Response<(Table, Option<string>)>)
    ensures id !in users ==> r == HttpError(404, "User not found")
    ensures id in users && "timezone" !in payload ==> r == HttpError(400, "Timezone is required")
    ensures r.Ok? <==> id in users && "timezone" in payload
    ensures r.Ok? ==>
      && r.value.0.Keys == users.Keys
      && r.value.0[id] == users[id].(timezone := payload["timezone"])
      && r.value.1 == payload["timezone"]
      && forall k | k in users && k != id :: r.value.0[k] == users[k]
  {
    if id !in users then HttpError(404, "User not found")
    else if "timezone" !in payload then HttpError(400, "Timezone is required")
    else Ok((users[id := users[id].(timezone := payload["timezone"])], payload["timezone"]))
  }

  /** Setting the timezone is the general patch restricted to that key. */
  lemma TimezoneIsProfilePatch(users: Table, id: int, tz: Option<string>)
    requires id in users
    ensures UpdateUserTimezone(users, id, map["timezone" := tz]).Ok?
    ensures UpdateUserTimezone(users, id, map["timezone" := tz]).value.0 == UpdateUserProfile(users, id, map["timezone" := tz]).value
  {
  }

  /** `ProfileUpdate`: the typed body of `/users/profile`. */
  datatype ProfileUpdate = ProfileUpdate(phone: Option<string>, name: Option<string>, address: Option<string>, birthDate: Option<string>)

  /** `update_profile`: creates the user when absent; each field given
      (not None) replaces its column; the timezone is never touched. */
  function UpdateProfile(users: Table, id: int, body: ProfileUpdate): (r: Table)
    ensures r.Keys == users.Keys + {id}
    ensures forall k | k in users && k != id :: r[k] == users[k]
    ensures var before := Ensure(users, id).1;
      && r[id].id == before.id
      && r[id].timezone == before.timezone
      && r[id].phone == (if body.phone.Some? then body.phone else before.phone)
      && r[id].name == (if body.name.Some? then body.name else before.name)
      && r[id].address == (if body.address.Some? then body.address else before.address)
      && r[id].birthDate == (if body.birthDate.Some? then body.birthDate else before.birthDate)
  {
    var (table, u) := Ensure(users, id);
    var u1 := if body.phone.Some? then u.(phone := body.phone) else u;
    var u2 := if body.name.Some? then u1.(name := body.name) else u1;
    var u3 := if body.address.Some? then u2.(address := body.address) else u2;
    var u4 := if body.birthDate.Some? then u3.(birthDate := body.birthDate) else u3;
    table[id := u4]
  }

  /** The typed patch cannot clear a column: a field left out keeps the
      stored value, where the dict patch writes null. */
  lemma UpdateProfileNeverClears(users: Table, id: int, body: ProfileUpdate)
    requires id in users
    ensures users[id].name.Some? ==> UpdateProfile(users, id, body)[id].name.Some?
    ensures users[id].phone.Some? ==> UpdateProfile(users, id, body)[id].phone.Some?
    ensures UpdateUserProfile(users, id, map["name" := None]).value[id].name.None?
  {
  }

  datatype Profile = Profile(id: int, phone: Option<string>, name: Option<string>, address: Option<string>, birthDate: Option<string>, timezone: Option<string>)

  /** `get_profile`: the stored row's fields, the row being created first
      when absent. */
  function GetProfile(users: Table, id: int): (r: (Table, Profile))
    ensures r.0 == Ensure(users, id).0 && id in r.0
    ensures r.1 == Profile(id, r.0[id].phone, r.0[id].name, r.0[id].address, r.0[id].birthDate, r.0[id].timezone)
    ensures id !in users ==> r.1 == Profile(id, None, None, None, None, None)
  {
    var (table, u) := Ensure(users, id);
    (table, Profile(id, u.phone, u.name, u.address, u.birthDate, u.timezone))
  }

  /** A profile read after a typed update shows the update. */
  lemma ProfileAfterUpdate(users: Table, id: int, name: string)
    ensures GetProfile(UpdateProfile(users, id, ProfileUpdate(None, Some(name), None, None)), id).1.name == Some(name)
    ensures GetProfile(UpdateProfile(users, id, ProfileUpdate(None, Some(name), None, None)), id).0
         == UpdateProfile(users, id, ProfileUpdate(None, Some(name), None, None))
  {
  }
}
