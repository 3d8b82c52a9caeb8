/**
 * The OAuth authentication backend: resolve the profile returned by the
 * OAuth provider to a user row, updating, claiming or creating rows.
 *
 * The user table is a sequence; a user's pk is its position (rows are
 * never deleted here).  The profile fetch, `normalize_email` and the clock
 * are parameters.
 */
module AuthBackend {
  import opened Wrappers
  import opened AccountModels

  /** The OAuth credentials the backend reads: both tokens and the expiry. */
  datatype Credentials = Credentials(accessToken: string, refreshToken: string, tokenExpiry: int)

  /** The profile dictionary returned by the provider. */
  type UserInfo = map<string, string>

  /** How `authenticate` ended: no user, a user (by pk), or an exception it lets escape. */
  datatype AuthResult =
    | NoUser
    | Authenticated(pk: nat)
    | KeyMissing(key: string)
    | MultipleReturned

  datatype AuthRun = AuthRun(users: seq<User>, result: AuthResult)

  /** The result of a `get()` on the table. */
  datatype Lookup = NotFound | Found(pk: nat) | Multiple

  /** A dictionary lookup with a default, as `dict.get(key, default)`. */
  function Get(info: UserInfo, key: string, default: string): string
  {
    if key in info then info[key] else default
  }

  /** The field values `get_user_values_to_store` yields (the `creating` flag changes nothing). */
  datatype UserValues = UserValues(
    email: string,
    firstName: string,
    lastName: string,
    fullName: string,
    profileImageUrl: string,
    lastLogin: int,
    accessToken: string,
    refreshToken: string,
    tokenExpiry: int)

  function GetUserValuesToStore(creds: Credentials, info: UserInfo, normalize: string -> string, now: int): (v: UserValues)
    requires "email" in info
    ensures v.email == normalize(info["email"])
    ensures v.firstName == Get(info, "given_name", "") && v.lastName == Get(info, "family_name", "")
    ensures v.fullName == Get(info, "name", "") && v.profileImageUrl == Get(info, "picture", "")
    ensures v.accessToken == creds.accessToken && v.refreshToken == creds.refreshToken
    ensures v.tokenExpiry == creds.tokenExpiry && v.lastLogin == now
  {
    UserValues(normalize(info["email"]), Get(info, "given_name", ""), Get(info, "family_name", ""),
               Get(info, "name", ""), Get(info, "picture", ""), now,
               creds.accessToken, creds.refreshToken, creds.tokenExpiry)
  }

  /** `setattr` of every stored value onto a user. */
  function Apply(u: User, v: UserValues): User
  {
    u.(email := v.email, firstName := v.firstName, lastName := v.lastName, fullName := v.fullName,
       profileImageUrl := v.profileImageUrl, lastLogin := Some(v.lastLogin),
       accessToken := v.accessToken, refreshToken := v.refreshToken, tokenExpiry := Some(v.tokenExpiry))
  }

  /** `User.objects.create(username=None, oauth_user_id=id, password=make_password(None), **values)`. */
  function NewUser(id: string, v: UserValues): (u: User)
    ensures u.username.None? && !u.usablePassword
    ensures id != "" ==> u.oauthUserId == Some(id)
    ensures u.email == v.email && u.firstName == v.firstName && u.lastName == v.lastName
    ensures u.fullName == v.fullName && u.profileImageUrl == v.profileImageUrl
    ensures u.lastLogin == Some(v.lastLogin)
    ensures u.accessToken == v.accessToken && u.refreshToken == v.refreshToken
    ensures u.tokenExpiry == Some(v.tokenExpiry)
  {
    Stored(Apply(User(None, "", Some(id), "", "", "", "", None, "", "", None, false), v))
  }

  predicate HasOauthId(u: User, id: string)
  {
    u.oauthUserId == Some(id)
  }

  /** Positions `i >= from` of the rows holding the oauth id, in increasing order. */
  function OauthMatches(users: seq<User>, id: string, from: nat): (r: seq<nat>)
    requires from <= |users|
    decreases |users| - from
    ensures forall k :: 0 <= k < |r| ==> from <= r[k] < |users| && HasOauthId(users[r[k]], id)
    ensures forall i :: from <= i < |users| && HasOauthId(users[i], id) ==> i in r
    ensures forall a, b :: 0 <= a < b < |r| ==> r[a] < r[b]
  {
    if from == |users| then []
    else if HasOauthId(users[from], id) then [from] + OauthMatches(users, id, from + 1)
    else OauthMatches(users, id, from + 1)
  }

  /** Positions `i >= from` of the rows holding the email, in increasing order. */
  function EmailMatches(users: seq<User>, email: string, from: nat): (r: seq<nat>)
    requires from <= |users|
    decreases |users| - from
    ensures forall k :: 0 <= k < |r| ==> from <= r[k] < |users| && users[r[k]].email == email
    ensures forall i :: from <= i < |users| && users[i].email == email ==> i in r
    ensures forall a, b :: 0 <= a < b < |r| ==> r[a] < r[b]
  {
    if from == |users| then []
    else if users[from].email == email then [from] + EmailMatches(users, email, from + 1)
    else EmailMatches(users, email, from + 1)
  }

  /** `get()` over a list of matching positions: none, exactly one, or several. */
  function LookupOf(matches: seq<nat>): Lookup
  {
    if |matches| == 0 then NotFound else if |matches| == 1 then Found(matches[0]) else Multiple
  }

  /** `User.objects.get(oauth_user_id=id)`. */
  function GetByOauthId(users: seq<User>, id: string): (r: Lookup)
    ensures r.NotFound? <==> forall i :: 0 <= i < |users| ==> !HasOauthId(users[i], id)
    ensures r.Found? ==> r.pk < |users| && HasOauthId(users[r.pk], id)
                         && forall i :: 0 <= i < |users| && i != r.pk ==> !HasOauthId(users[i], id)
    ensures r.Multiple? ==> exists i, j :: 0 <= i < j < |users| && HasOauthId(users[i], id) && HasOauthId(users[j], id)
  {
    var m := OauthMatches(users, id, 0);
    if |m| == 1 then
      assert forall i :: 0 <= i < |users| && HasOauthId(users[i], id) ==> i == m[0];
      LookupOf(m)
    else if |m| == 0 then LookupOf(m)
    else
      assert m[0] < m[1] < |users| && HasOauthId(users[m[0]], id) && HasOauthId(users[m[1]], id);
      LookupOf(m)
  }

  /** `User.objects.get(email=email)`. */
  function GetByEmail(users: seq<User>, email: string): (r: Lookup)
    ensures r.NotFound? <==> forall i :: 0 <= i < |users| ==> users[i].email != email
    ensures r.Found? ==> r.pk < |users| && users[r.pk].email == email
                         && forall i :: 0 <= i < |users| && i != r.pk ==> users[i].email != email
    ensures r.Multiple? ==> exists i, j :: 0 <= i < j < |users| && users[i].email == email && users[j].email == email
  {
    var m := EmailMatches(users, email, 0);
    if |m| == 1 then
      assert forall i :: 0 <= i < |users| && users[i].email == email ==> i == m[0];
      LookupOf(m)
    else if |m| == 0 then LookupOf(m)
    else
      assert m[0] < m[1] < |users| && users[m[0]].email == email && users[m[1]].email == email;
      LookupOf(m)
  }

  /** No two rows hold the same oauth id (the field is unique). */
  predicate OauthIdsUnique(users: seq<User>)
  {
    forall i, j :: 0 <= i < j < |users| && users[i].oauthUserId.Some? ==> users[i].oauthUserId != users[j].oauthUserId
  }

  /** A profile dictionary is falsy when it is None or empty. */
  predicate InfoFalsy(info: Option<UserInfo>)
  {
    info.None? || info.value == map[]
  }

  /**
   * `OauthenticationBackend.authenticate`.  `info` is what fetching the
   * profile with the credentials produced; `createUnknown` is the
   * create-unknown-user setting.
   */
  function Authenticate(users: seq<User>, creds: Option<Credentials>, info: Option<UserInfo>,
                        createUnknown: bool, normalize: string -> string, now: int): (r: AuthRun)
    ensures r.result.Authenticated? ==> r.result.pk < |r.users|
    ensures |users| <= |r.users| <= |users| + 1
    ensures !r.result.Authenticated? ==> r.users == users
  {
    if creds.None? || InfoFalsy(info) then AuthRun(users, NoUser)
    else if "id" !in info.value then AuthRun(users, KeyMissing("id"))
    else if "email" !in info.value then AuthRun(users, KeyMissing("email"))
    else
      var id := info.value["id"];
      var email := normalize(info.value["email"]);
      match GetByOauthId(users, id)
      case Multiple => AuthRun(users, MultipleReturned)
      case Found(k) =>
        var values := GetUserValuesToStore(creds.value, info.value, normalize, now);
        AuthRun(users[k := Stored(Apply(users[k], values))], Authenticated(k))
      case NotFound =>
        if !createUnknown then AuthRun(users, NoUser)
        else
          var values := GetUserValuesToStore(creds.value, info.value, normalize, now);
          match GetByEmail(users, email)
          case Multiple => AuthRun(users, MultipleReturned)
          case Found(k) =>
            if users[k].oauthUserId.None? then
              var claimed := Apply(users[k].(oauthUserId := Some(id), email := email), values);
              AuthRun(users[k := Stored(claimed)], Authenticated(k))
            else
              var wiped := users[k := users[k].(email := "")];
              AuthRun(wiped + [NewUser(id, values)], Authenticated(|users|))
          case NotFound =>
            AuthRun(users + [NewUser(id, values)], Authenticated(|users|))
  }

  /**
   * Missing profile names and picture are stored as empty strings: in the
   * values to store, and so on whichever row `authenticate` returns, be it
   * updated, claimed or created.
   */
  lemma {:induction false} MissingProfileFieldsDefaultEmpty(users: seq<User>, creds: Credentials, info: UserInfo,
                                                           createUnknown: bool, normalize: string -> string, now: int)
    requires "email" in info
    requires "given_name" !in info && "family_name" !in info && "name" !in info && "picture" !in info
    ensures var v := GetUserValuesToStore(creds, info, normalize, now);
            v.firstName == "" && v.lastName == "" && v.fullName == "" && v.profileImageUrl == ""
    ensures var r := Authenticate(users, Some(creds), Some(info), createUnknown, normalize, now);
            r.result.Authenticated? ==>
              var u := r.users[r.result.pk];
              u.firstName == "" && u.lastName == "" && u.fullName == "" && u.profileImageUrl == ""
  {
    var r := Authenticate(users, Some(creds), Some(info), createUnknown, normalize, now);
    if r.result.Authenticated? {
      var v := GetUserValuesToStore(creds, info, normalize, now);
      match GetByOauthId(users, info["id"])
      case Found(k) =>
        assert r.users[k] == Stored(Apply(users[k], v));
      case NotFound =>
        match GetByEmail(users, normalize(info["email"]))
        case Found(k) =>
          if users[k].oauthUserId.None? {
            assert r.users[k] == Stored(Apply(users[k].(oauthUserId := Some(info["id"]), email := normalize(info["email"])), v));
          } else {
            assert r.users[|users|] == NewUser(info["id"], v);
          }
        case NotFound =>
          assert r.users[|users|] == NewUser(info["id"], v);
    }
  }

  /** Missing credentials or a falsy profile yield no user and touch no row. */
  lemma NoCredentialsNoUser(users: seq<User>, creds: Option<Credentials>, info: Option<UserInfo>,
                            createUnknown: bool, normalize: string -> string, now: int)
    requires creds.None? || InfoFalsy(info)
    ensures Authenticate(users, creds, info, createUnknown, normalize, now) == AuthRun(users, NoUser)
  {
  }

  /** The preconditions shared by the lemmas below: credentials and a profile with id and email. */
  predicate WellFormedLogin(creds: Option<Credentials>, info: Option<UserInfo>)
  {
    creds.Some? && info.Some? && "id" in info.value && "email" in info.value
  }

  /**
   * A row already holding the profile's oauth id is updated with the new
   * values and returned; the number of users does not change and no other
   * row changes.
   */
  lemma OauthMatchUpdatesThatUser(users: seq<User>, creds: Option<Credentials>, info: Option<UserInfo>,
                                  createUnknown: bool, normalize: string -> string, now: int, k: nat)
    requires WellFormedLogin(creds, info) && info.value["id"] != "" && OauthIdsUnique(users)
    requires k < |users| && HasOauthId(users[k], info.value["id"])
    ensures var r := Authenticate(users, creds, info, createUnknown, normalize, now);
            && r.result == Authenticated(k)
            && |r.users| == |users|
            && r.users[k] == Stored(Apply(users[k], GetUserValuesToStore(creds.value, info.value, normalize, now)))
            && r.users[k].accessToken == creds.value.accessToken
            && r.users[k].refreshToken == creds.value.refreshToken
            && r.users[k].oauthUserId == Some(info.value["id"])
            && forall i :: 0 <= i < |users| && i != k ==> r.users[i] == users[i]
  {
    var id := info.value["id"];
    assert info.value != map[] by { assert "id" in info.value; }
    assert GetByOauthId(users, id) == Found(k);
  }

  /** Without an oauth match and with unknown users not to be created, nothing happens. */
  lemma CreateUnknownDisabledRefuses(users: seq<User>, creds: Option<Credentials>, info: Option<UserInfo>,
                                     normalize: string -> string, now: int)
    requires WellFormedLogin(creds, info)
    requires forall i :: 0 <= i < |users| ==> !HasOauthId(users[i], info.value["id"])
    ensures Authenticate(users, creds, info, false, normalize, now) == AuthRun(users, NoUser)
  {
    assert info.value != map[] by { assert "id" in info.value; }
  }

  /**
   * A pre-created row (matching email, no oauth id) is claimed: it gets the
   * oauth id and the new values and is returned; no row is added.
   */
  lemma PreCreatedUserIsClaimed(users: seq<User>, creds: Option<Credentials>, info: Option<UserInfo>,
                                normalize: string -> string, now: int, k: nat)
    requires WellFormedLogin(creds, info) && info.value["id"] != ""
    requires forall i :: 0 <= i < |users| ==> !HasOauthId(users[i], info.value["id"])
    requires k < |users| && users[k].email == normalize(info.value["email"]) && users[k].oauthUserId.None?
    requires forall i :: 0 <= i < |users| && i != k ==> users[i].email != users[k].email
    ensures var r := Authenticate(users, creds, info, true, normalize, now);
            && r.result == Authenticated(k)
            && |r.users| == |users|
            && r.users[k].oauthUserId == Some(info.value["id"])
            && r.users[k].email == normalize(info.value["email"])
            && r.users[k].accessToken == creds.value.accessToken
            && r.users[k].usablePassword == users[k].usablePassword
            && r.users[k] == Stored(Apply(users[k].(oauthUserId := Some(info.value["id"]), email := normalize(info.value["email"])),
                                          GetUserValuesToStore(creds.value, info.value, normalize, now)))
            && forall i :: 0 <= i < |users| && i != k ==> r.users[i] == users[i]
  {
    assert info.value != map[] by { assert "id" in info.value; }
    assert GetByEmail(users, normalize(info.value["email"])) == Found(k);
  }

  /**
   * A row with the email but another oauth id keeps its oauth id and loses
   * its email; a new user with the oauth id and no usable password is
   * created and returned, so the count rises by one.
   */
  lemma ConflictingEmailIsWipedAndNewUserCreated(users: seq<User>, creds: Option<Credentials>, info: Option<UserInfo>,
                                                 normalize: string -> string, now: int, k: nat)
    requires WellFormedLogin(creds, info) && info.value["id"] != ""
    requires forall i :: 0 <= i < |users| ==> !HasOauthId(users[i], info.value["id"])
    requires k < |users| && users[k].email == normalize(info.value["email"]) && users[k].oauthUserId.Some?
    requires forall i :: 0 <= i < |users| && i != k ==> users[i].email != users[k].email
    ensures var r := Authenticate(users, creds, info, true, normalize, now);
            && r.result == Authenticated(|users|)
            && |r.users| == |users| + 1
            && r.users[k] == users[k].(email := "")
            && r.users[|users|].oauthUserId == Some(info.value["id"])
            && r.users[|users|].email == normalize(info.value["email"])
            && !r.users[|users|].usablePassword
            && r.users[|users|] == NewUser(info.value["id"], GetUserValuesToStore(creds.value, info.value, normalize, now))
            && forall i :: 0 <= i < |users| && i != k ==> r.users[i] == users[i]
  {
    assert info.value != map[] by { assert "id" in info.value; }
    assert GetByEmail(users, normalize(info.value["email"])) == Found(k);
  }

  /** With neither an oauth nor an email match, a new user is created with the oauth id. */
  lemma UnknownUserIsCreated(users: seq<User>, creds: Option<Credentials>, info: Option<UserInfo>,
                             normalize: string -> string, now: int)
    requires WellFormedLogin(creds, info) && info.value["id"] != ""
    requires forall i :: 0 <= i < |users| ==> !HasOauthId(users[i], info.value["id"])
    requires forall i :: 0 <= i < |users| ==> users[i].email != normalize(info.value["email"])
    ensures var r := Authenticate(users, creds, info, true, normalize, now);
            && r.result == Authenticated(|users|)
            && r.users == users + [r.users[|users|]]
            && r.users[|users|].oauthUserId == Some(info.value["id"])
            && r.users[|users|].email == normalize(info.value["email"])
            && !r.users[|users|].usablePassword
            && r.users[|users|] == NewUser(info.value["id"], GetUserValuesToStore(creds.value, info.value, normalize, now))
  {
    assert info.value != map[] by { assert "id" in info.value; }
  }

  /**
   * `authenticate` never gives two rows the same oauth id: uniqueness of the
   * oauth id is preserved by every branch.
   */
  lemma AuthenticateKeepsOauthIdsUnique(users: seq<User>, creds: Option<Credentials>, info: Option<UserInfo>,
                                        createUnknown: bool, normalize: string -> string, now: int)
    requires OauthIdsUnique(users)
    ensures OauthIdsUnique(Authenticate(users, creds, info, createUnknown, normalize, now).users)
  {
    var r := Authenticate(users, creds, info, createUnknown, normalize, now);
    if r.result.Authenticated? {
      var id := info.value["id"];
      var email := normalize(info.value["email"]);
      var values := GetUserValuesToStore(creds.value, info.value, normalize, now);
      match GetByOauthId(users, id)
      case Found(k) =>
        assert r.users == users[k := Stored(Apply(users[k], values))];
        assert r.users[k].oauthUserId == CharOrNone(users[k].oauthUserId);
        forall i, j | 0 <= i < j < |r.users| && r.users[i].oauthUserId.Some?
          ensures r.users[i].oauthUserId != r.users[j].oauthUserId
        {
          assert r.users[i].oauthUserId.Some? ==> r.users[i].oauthUserId == users[i].oauthUserId;
          if r.users[j].oauthUserId.Some? {
            assert r.users[j].oauthUserId == users[j].oauthUserId;
          }
        }
      case NotFound =>
        match GetByEmail(users, email)
        case Found(k) =>
          if users[k].oauthUserId.None? {
            assert r.users == users[k := Stored(Apply(users[k].(oauthUserId := Some(id), email := email), values))];
            forall i, j | 0 <= i < j < |r.users| && r.users[i].oauthUserId.Some?
              ensures r.users[i].oauthUserId != r.users[j].oauthUserId
            {
              if i == k || j == k {
                assert r.users[k].oauthUserId == CharOrNone(Some(id));
              }
            }
          } else {
            var wiped := users[k := users[k].(email := "")];
            assert r.users == wiped + [NewUser(id, values)];
            forall i, j | 0 <= i < j < |r.users| && r.users[i].oauthUserId.Some?
              ensures r.users[i].oauthUserId != r.users[j].oauthUserId
            {
              if j == |users| {
                assert r.users[j].oauthUserId == CharOrNone(Some(id));
                assert r.users[i].oauthUserId == users[i].oauthUserId;
              } else {
                assert r.users[i].oauthUserId == users[i].oauthUserId;
                assert r.users[j].oauthUserId == users[j].oauthUserId;
              }
            }
          }
        case NotFound =>
          assert r.users == users + [NewUser(id, values)];
          forall i, j | 0 <= i < j < |r.users| && r.users[i].oauthUserId.Some?
            ensures r.users[i].oauthUserId != r.users[j].oauthUserId
          {
            if j == |users| {
              assert r.users[j].oauthUserId == CharOrNone(Some(id));
            }
          }
    }
  }
}
