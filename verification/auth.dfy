/** The request guards: the super-admin id list read from the environment,
    the user id taken from the `X-Telegram-User-Id` header or the `uid`
    query parameter, and the signed `admin_session` cookie of the web admin.
    HMAC-SHA256 and base64 decoding are parameters; the clock is an integer
    number of seconds (for an integer expiry, `exp > t` and
    `exp > floor(t)` agree). */
module Auth {
  import opened Wrappers
  import opened Text

  // ----- SUPER_ADMIN_IDS -----

  /** A comma-separated part names `x` when it reads as `x` once stripped. */
  predicate NamesId(part: string, x: int) {
    PartId(part) == Some(x)
  }

  /** The id a part names, if any. */
  function PartId(part: string): Option<int> {
    PyInt(Strip(part))
  }

  /** The ids the parts name under `read`, in a set. */
  function IdsOf(parts: seq<string>, read: string -> Option<int>): set<int>
    decreases |parts|
  {
    if |parts| == 0 then {}
    else
      var last := read(parts[|parts| - 1]);
      IdsOf(parts[..|parts| - 1], read) + (if last.Some? then {last.value} else {})
  }

  /** `_load_super_admin_ids()`: the integers among the stripped
      comma-separated parts; empty and malformed parts are skipped, so it
      never fails. */
  function LoadSuperAdminIds(raw: string): (r: set<int>)
    ensures forall x :: x in r <==> SomePartNames(Split(raw, ','), x)
  {
    var parts := Split(raw, ',');
    IdsOfAll(parts, PartId);
    IdsOf(parts, PartId)
  }

  /** Some part reads as `x`. */
  predicate SomePartNames(parts: seq<string>, x: int) {
    exists k :: 0 <= k < |parts| && NamesId(parts[k], x)
  }

  /** An id is collected exactly when some part reads as it. */
  lemma {:induction false} IdsOfMember(parts: seq<string>, read: string -> Option<int>, x: int)
    ensures x in IdsOf(parts, read) <==> exists k :: 0 <= k < |parts| && read(parts[k]) == Some(x)
    decreases |parts|
  {
    if |parts| > 0 {
      var init := parts[..|parts| - 1];
      IdsOfMember(init, read, x);
      if exists k :: 0 <= k < |parts| && read(parts[k]) == Some(x) {
        var k :| 0 <= k < |parts| && read(parts[k]) == Some(x);
        if k < |init| {
          assert init[k] == parts[k];
        }
      }
      if exists k :: 0 <= k < |init| && read(init[k]) == Some(x) {
        var k :| 0 <= k < |init| && read(init[k]) == Some(x);
        assert parts[k] == init[k];
      }
    }
  }

  /** `IdsOfMember` for every id at once. */
  lemma IdsOfAll(parts: seq<string>, read: string -> Option<int>)
    ensures forall x :: x in IdsOf(parts, read) <==> exists k :: 0 <= k < |parts| && read(parts[k]) == Some(x)
  {
    forall x ensures x in IdsOf(parts, read) <==> exists k :: 0 <= k < |parts| && read(parts[k]) == Some(x) {
      IdsOfMember(parts, read, x);
    }
  }

  /** A printed integer holds no comma and reads back as itself. */
  lemma IntNamesItself(n: int)
    ensures ',' !in IntToString(n) && NamesId(IntToString(n), n)
  {
    IntToStringShape(n);
    StripUnpadded(IntToString(n));
    PyIntOfIntToString(n);
  }

  /** The environment variable written from a list of ids reads back as
      exactly those ids. */
  lemma LoadSuperAdminIdsOfList(ids: seq<int>)
    requires |ids| >= 1
    ensures var parts := seq(|ids|, k requires 0 <= k < |ids| => IntToString(ids[k]));
      forall x :: x in LoadSuperAdminIds(Join(parts, ",")) <==> x in ids
  {
    var parts := seq(|ids|, k requires 0 <= k < |ids| => IntToString(ids[k]));
    forall k | 0 <= k < |parts| ensures ',' !in parts[k] && PartId(parts[k]) == Some(ids[k]) {
      IntNamesItself(ids[k]);
    }
    SplitOfJoin(parts, ',');
    var loaded := LoadSuperAdminIds(Join(parts, ","));
    assert loaded == IdsOf(parts, PartId);
    forall x ensures x in loaded <==> x in ids {
      IdsOfMember(parts, PartId, x);
      if x in ids {
        var k :| 0 <= k < |ids| && ids[k] == x;
        assert PartId(parts[k]) == Some(x);
      }
      if x in loaded {
        var k :| 0 <= k < |parts| && PartId(parts[k]) == Some(x);
        assert ids[k] == x;
      }
    }
  }

  // ----- user id resolution -----

  /** The id a request carries: the header when present; otherwise a
      non-empty `uid` query parameter read with `int()`, a malformed one
      counting as absent. */
  function ResolveUserId(header: Option<int>, uid: Option<string>): (id: Option<int>)
    ensures header.Some? ==> id == header
    ensures header.None? && (uid.None? || uid.value == "") ==> id.None?
    ensures header.None? && uid.Some? && uid.value != "" ==> id == PyInt(uid.value)
  {
    if header.Some? then header
    else if uid.Some? && uid.value != "" then PyInt(uid.value)
    else None
  }

  /** A `uid` query parameter carrying a printed id resolves to that id
      when no header is sent. */
  lemma ResolveUserIdFromQuery(n: int)
    ensures ResolveUserId(None, Some(IntToString(n))) == Some(n)
  {
    PyIntOfIntToString(n);
    IntToStringShape(n);
  }

  // ----- the admin_session cookie -----

  /** Everything `_is_valid_admin_session` reads besides the token:
      `ADMIN_SITE_SECRET`, the clock, HMAC-SHA256 as a hex digest of
      (key, message), and base64 decoding that may fail. */
  datatype SessionEnv = SessionEnv(secret: string, now: int, hmac: (string, string) -> string, b64decode: string -> Option<string>)

  /** `p.split("=", 1)` for a part holding `=`. */
  function KeyOf(p: string): string
    requires '=' in p
  {
    p[..IndexOf(p, '=')]
  }

  function ValueOf(p: string): string
    requires '=' in p
  {
    p[IndexOf(p, '=') + 1..]
  }

  /** The dict comprehension's entry for `key`: the value of the last part
      holding `=` whose key is `key`. */
  function Field(parts: seq<string>, key: string): Option<string>
  {
    if |parts| == 0 then None
    else
      var last := parts[|parts| - 1];
      if '=' in last && KeyOf(last) == key then Some(ValueOf(last))
      else Field(parts[..|parts| - 1], key)
  }

  /** A key no part carries has no field. */
  lemma {:induction false} FieldAbsent(parts: seq<string>, key: string)
    requires forall k | 0 <= k < |parts| && '=' in parts[k] :: KeyOf(parts[k]) != key
    ensures Field(parts, key).None?
    decreases |parts|
  {
    if |parts| > 0 {
      var init := parts[..|parts| - 1];
      assert forall k | 0 <= k < |init| :: init[k] == parts[k];
      FieldAbsent(init, key);
    }
  }

  /** A later part with the same key overrides an earlier one. */
  lemma LaterFieldWins(parts: seq<string>, key: string, value: string)
    requires '=' !in key
    ensures Field(parts + [key + "=" + value], key) == Some(value)
  {
    var p := key + "=" + value;
    assert p[|key|] == '=';
    assert '=' !in p[..|key|] by { assert p[..|key|] == key; }
    assert (parts + [p])[|parts + [p]| - 1] == p;
  }

  /** A part without `=` is ignored wherever it sits. */
  lemma PartWithoutEqualsIgnored(a: seq<string>, p: string, b: seq<string>, key: string)
    requires '=' !in p
    ensures Field(a + [p] + b, key) == Field(a + b, key)
    decreases |b|
  {
    if |b| == 0 {
      assert (a + [p] + b)[..|a + [p] + b| - 1] == a;
      assert a + b == a;
    } else {
      var b' := b[..|b| - 1];
      assert (a + [p] + b)[..|a + [p] + b| - 1] == a + [p] + b';
      assert (a + b)[..|a + b| - 1] == a + b';
      PartWithoutEqualsIgnored(a, p, b', key);
    }
  }

  /** Python's `str()` of the role in the signed text: a missing role is
      written `None`. */
  function RoleText(role: Option<string>): string {
    if role.Some? then role.value else "None"
  }

  /** One `key=value` part of the cookie text. */
  function Pair(key: string, value: string): string {
    key + "=" + value
  }

  /** The text the signature covers: `role=<role>&exp=<exp>`. */
  function SignedBase(role: Option<string>, exp: int): string {
    Pair("role", RoleText(role)) + "&" + Pair("exp", IntToString(exp))
  }

  /** The token after the base64 attempt: the decoded text when decoding
      succeeds, the token itself otherwise. */
  function Decoded(token: string, env: SessionEnv): string {
    match env.b64decode(token)
    case Some(t) => t
    case None => token
  }

  /** `_is_valid_admin_session(token)`: the signature must be the HMAC of
      `role=<role>&exp=<exp>`, the role `super_admin`, and the expiry in the
      future. A missing `exp` counts as 0; one `int()` cannot read makes the
      token invalid instead of raising. */
  function IsValidAdminSession(token: string, env: SessionEnv): (ok: bool)
    ensures var parts := Split(Decoded(token, env), '&');
      ok <==>
        && Field(parts, "role") == Some("super_admin")
        && PyInt(Field(parts, "exp").GetOr("0")).Some?
        && PyInt(Field(parts, "exp").GetOr("0")).value > env.now
        && Field(parts, "sig").GetOr("") == env.hmac(env.secret, SignedBase(Some("super_admin"), PyInt(Field(parts, "exp").GetOr("0")).value))
  {
    var parts := Split(Decoded(token, env), '&');
    var role := Field(parts, "role");
    match PyInt(Field(parts, "exp").GetOr("0"))
    case None => false
    case Some(exp) =>
      var sig := Field(parts, "sig").GetOr("");
      sig == env.hmac(env.secret, SignedBase(role, exp)) && role == Some("super_admin") && exp > env.now
  }

  /** The cookie the admin site issues for expiry `exp`. */
  function IssueToken(secret: string, hmac: (string, string) -> string, exp: int): string {
    SignedBase(Some("super_admin"), exp) + "&" + Pair("sig", hmac(secret, SignedBase(Some("super_admin"), exp)))
  }

  /** An issued cookie, sent as is, is valid exactly until its expiry (as
      long as the digest holds no `&`, as a hex digest does not and the
      base64 attempt rejects the plain text). */
  lemma IssuedTokenValidUntilExpiry(env: SessionEnv, exp: int)
    requires '&' !in env.hmac(env.secret, SignedBase(Some("super_admin"), exp))
    requires env.b64decode(IssueToken(env.secret, env.hmac, exp)).None?
    ensures IsValidAdminSession(IssueToken(env.secret, env.hmac, exp), env) <==> exp > env.now
  {
    var token := IssueToken(env.secret, env.hmac, exp);
    var e := IntToString(exp);
    var sig := env.hmac(env.secret, SignedBase(Some("super_admin"), exp));
    var p0, p1, p2 := Pair("role", "super_admin"), Pair("exp", e), Pair("sig", sig);
    IntToStringShape(exp);
    NoAmpersandInPair("role", "super_admin");
    NoAmpersandInPair("exp", e);
    NoAmpersandInPair("sig", sig);
    SplitThree(p0, p1, p2, '&');
    assert Decoded(token, env) == token == p0 + "&" + p1 + "&" + p2;
    FieldOfIssued(e, sig);
    PyIntOfIntToString(exp);
    ValidWhenFieldsMatch(token, env, exp);
  }

  /** A cookie whose fields are the super-admin role, an expiry and that
      expiry's signature is valid exactly until the expiry. */
  lemma ValidWhenFieldsMatch(token: string, env: SessionEnv, exp: int)
    requires var parts := Split(Decoded(token, env), '&');
      && Field(parts, "role") == Some("super_admin")
      && Field(parts, "exp").Some? && PyInt(Field(parts, "exp").value) == Some(exp)
      && Field(parts, "sig") == Some(env.hmac(env.secret, SignedBase(Some("super_admin"), exp)))
    ensures IsValidAdminSession(token, env) <==> exp > env.now
  {
  }

  /** A part made of texts without `&` holds no `&`. */
  lemma NoAmpersandInPair(key: string, value: string)
    requires '&' !in key && '&' !in value
    ensures '&' !in Pair(key, value)
  {
    assert forall c | c in Pair(key, value) :: c in key || c == '=' || c in value;
  }

  /** Three parts without the separator, joined by it, split back into
      the three. */
  lemma SplitThree(p0: string, p1: string, p2: string, sep: char)
    requires sep !in p0 && sep !in p1 && sep !in p2
    ensures Split(p0 + [sep] + p1 + [sep] + p2, sep) == [p0, p1, p2]
  {
    var parts := [p0, p1, p2];
    assert parts[1..][1..] == [p2];
    assert Join(parts[1..], [sep]) == p1 + [sep] + p2;
    assert Join(parts, [sep]) == p0 + [sep] + p1 + [sep] + p2;
    SplitOfJoin(parts, sep);
  }

  /** A part `key=value` with no `=` in the key splits back into both. */
  lemma KeyValueOf(key: string, value: string)
    requires '=' !in key
    ensures '=' in Pair(key, value)
    ensures KeyOf(Pair(key, value)) == key && ValueOf(Pair(key, value)) == value
  {
    var p := Pair(key, value);
    assert p[|key|] == '=';
    assert p[..|key|] == key;
    assert IndexOf(p, '=') == |key|;
  }

  /** The three fields of an issued cookie are found under their keys. */
  lemma FieldOfIssued(e: string, sig: string)
    ensures var parts := [Pair("role", "super_admin"), Pair("exp", e), Pair("sig", sig)];
      && Field(parts, "role") == Some("super_admin")
      && Field(parts, "exp") == Some(e)
      && Field(parts, "sig") == Some(sig)
  {
    KeyValueOf("role", "super_admin");
    KeyValueOf("exp", e);
    KeyValueOf("sig", sig);
    FieldOfThree(Pair("role", "super_admin"), Pair("exp", e), Pair("sig", sig));
  }

  lemma FieldOfThree(p0: string, p1: string, p2: string)
    requires '=' in p0 && '=' in p1 && '=' in p2
    requires KeyOf(p0) == "role" && KeyOf(p1) == "exp" && KeyOf(p2) == "sig"
    ensures Field([p0, p1, p2], "role") == Some(ValueOf(p0))
    ensures Field([p0, p1, p2], "exp") == Some(ValueOf(p1))
    ensures Field([p0, p1, p2], "sig") == Some(ValueOf(p2))
  {
    assert [p0, p1, p2][..2] == [p0, p1];
    assert [p0, p1][..1] == [p0];
    assert Field([p0, p1], "role") == Field([p0], "role") == Some(ValueOf(p0));
    assert Field([p0, p1, p2], "role") == Field([p0, p1], "role");
    assert Field([p0, p1, p2], "exp") == Field([p0, p1], "exp") == Some(ValueOf(p1));
  }

  // ----- the guards -----

  /** `require_super_admin`: a listed id passes with itself; anyone else
      passes as the web admin (id 0) only with a valid cookie, and is
      refused with 403 otherwise. */
  function RequireSuperAdmin(admins: set<int>, header: Option<int>, uid: Option<string>, cookie: Option<string>, env: SessionEnv): (r: Response<int>)
    ensures var id := ResolveUserId(header, uid);
      id.Some? && id.value in admins ==> r == Ok(id.value)
    ensures var id := ResolveUserId(header, uid);
      (id.None? || id.value !in admins) ==>
        (r == Ok(0) <==> cookie.Some? && cookie.value != "" && IsValidAdminSession(cookie.value, env))
    ensures r.Ok? || r == HttpError(403, "forbidden")
  {
    var id := ResolveUserId(header, uid);
    if id.None? || id.value !in admins then
      if cookie.Some? && cookie.value != "" && IsValidAdminSession(cookie.value, env) then Ok(0)
      else HttpError(403, "forbidden")
    else Ok(id.value)
  }

  /** Granting super-admin rights to more ids never locks anyone out. */
  lemma RequireSuperAdminMonotone(admins: set<int>, more: set<int>, header: Option<int>, uid: Option<string>, cookie: Option<string>, env: SessionEnv)
    requires admins <= more
    requires RequireSuperAdmin(admins, header, uid, cookie, env).Ok?
    ensures RequireSuperAdmin(more, header, uid, cookie, env).Ok?
  {
  }

  /** The user table as the guard sees it: `is_blocked` per id. */
  type BlockedFlags = map<int, bool>

  /** `require_user_id` as written. The 403 for a blocked user is raised
      inside a `try` whose `except Exception: pass` catches it, so a
      blocked user gets through. */
  function RequireUserIdAsWritten(users: BlockedFlags, header: Option<int>, uid: Option<string>): (r: Response<int>)
    ensures ResolveUserId(header, uid).None? <==> r == HttpError(401, "user_id_required")
    ensures ResolveUserId(header, uid).Some? ==> r == Ok(ResolveUserId(header, uid).value)
  {
    var id := ResolveUserId(header, uid);
    if id.None? then HttpError(401, "user_id_required")
    else
      // the check runs, and its HTTPException is swallowed
      Ok(id.value)
  }

  /** A blocked user passes the guard as written. */
  lemma BlockedUserPassesAsWritten()
    ensures RequireUserIdAsWritten(map[5 := true], Some(5), None) == Ok(5)
  {
  }

  /** `require_user_id` as its comment intends: a blocked user is refused
      with 403. */
  function RequireUserId(users: BlockedFlags, header: Option<int>, uid: Option<string>): (r: Response<int>)
    ensures ResolveUserId(header, uid).None? <==> r == HttpError(401, "user_id_required")
    ensures r.Ok? <==> ResolveUserId(header, uid).Some? && !(ResolveUserId(header, uid).value in users && users[ResolveUserId(header, uid).value])
    ensures r.Ok? ==> r.value == ResolveUserId(header, uid).value
    ensures r.HttpError? && r.status == 403 ==> r.detail == "user_blocked"
  {
    var id := ResolveUserId(header, uid);
    if id.None? then HttpError(401, "user_id_required")
    else if id.value in users && users[id.value] then HttpError(403, "user_blocked")
    else Ok(id.value)
  }

  /** The two versions differ exactly on blocked users. */
  lemma RequireUserIdDiffersOnBlocked(users: BlockedFlags, header: Option<int>, uid: Option<string>)
    ensures RequireUserId(users, header, uid) != RequireUserIdAsWritten(users, header, uid) <==>
      ResolveUserId(header, uid).Some? && ResolveUserId(header, uid).value in users && users[ResolveUserId(header, uid).value]
  {
  }
}
