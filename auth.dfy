/**
 * The credential store of the chat application (auth.py, `AuthManager` and
 * `get_current_user`): the `users_auth` and `user_profiles` tables as
 * sequences of rows, and the two password schemes.
 *
 * Hashes are symbolic. `BcryptBytes(salt, p)` is what `bcrypt.hashpw` returns
 * for password `p` (a bytes object), `BcryptText(salt, p)` is that value
 * decoded to text, and `LegacyHex(p)` is the SHA-256 hex digest of `p`. Both
 * hash functions are taken to be collision-free, and the salt that
 * `bcrypt.gensalt()` draws at random is a parameter.
 */
module Auth {
  import opened Wrappers
  import opened Text
  import opened Sessions

  datatype StoredHash = BcryptText(salt: nat, secret: string) | BcryptBytes(salt: nat, secret: string) | LegacyHex(secret: string)

  /** `hash_password`: a fresh bcrypt hash, as bytes. */
  function HashPassword(password: string, salt: nat): (h: StoredHash)
    ensures h.BcryptBytes?
  {
    BcryptBytes(salt, password)
  }

  /** `.decode('utf-8')` of a bcrypt hash. */
  function DecodeHash(h: StoredHash): (t: StoredHash)
    requires h.BcryptBytes?
    ensures t.BcryptText?
  {
    BcryptText(h.salt, h.secret)
  }

  /**
   * `verify_password`: `bcrypt.checkpw` accepts the password a bcrypt text was
   * made from. On a legacy digest `checkpw` raises (it is no bcrypt hash), and
   * on a bytes value `.encode` raises; both are caught and read as `False`.
   */
  predicate VerifyPassword(password: string, stored: StoredHash) {
    stored.BcryptText? && stored.secret == password
  }

  /**
   * `verify_legacy_password`: the SHA-256 hex digest of the password equals
   * the stored value. A bcrypt text never equals a hex digest, and a bytes
   * value never equals a string.
   */
  predicate VerifyLegacy(password: string, stored: StoredHash) {
    stored.LegacyHex? && stored.secret == password
  }

  /**
   * A stored, decoded bcrypt hash accepts exactly the password it was made
   * from, under the bcrypt check only.
   */
  lemma DecodedHashVerifies(password: string, other: string, salt: nat)
    ensures VerifyPassword(password, DecodeHash(HashPassword(password, salt)))
    ensures other != password ==> !VerifyPassword(other, DecodeHash(HashPassword(password, salt)))
    ensures !VerifyLegacy(other, DecodeHash(HashPassword(password, salt)))
  {
  }

  /** An undecoded bcrypt hash verifies under neither scheme, whatever the password. */
  lemma BytesHashNeverVerifies(password: string, other: string, salt: nat)
    ensures !VerifyPassword(other, HashPassword(password, salt))
    ensures !VerifyLegacy(other, HashPassword(password, salt))
  {
  }

  datatype Credential = Credential(id: int, username: string, email: string, passwordHash: StoredHash,
                                   createdAt: int, lastLogin: int, isActive: bool)

  datatype Profile = Profile(rowId: int, userId: int, displayName: Option<string>, avatarUrl: Option<string>,
                             preferences: Option<string>, createdAt: int, updatedAt: int)

  /** The dictionary `get_user_by_id` returns. */
  datatype UserInfo = UserInfo(id: int, username: string, email: string, createdAt: int, lastLogin: int,
                               displayName: Option<string>, avatarUrl: Option<string>, preferences: Option<string>)

  /** `SELECT id FROM users_auth WHERE username = ? OR email = ?` finds a row, active or not. */
  predicate Taken(cs: seq<Credential>, username: string, email: string) {
    exists i :: 0 <= i < |cs| && (cs[i].username == username || cs[i].email == email)
  }

  /** The index of the first row that satisfies `p`: what `fetchone` returns for a `WHERE` clause. */
  function FindFirst(cs: seq<Credential>, p: Credential -> bool): (r: Option<nat>)
    ensures r.Some? ==> r.value < |cs| && p(cs[r.value]) && forall j :: 0 <= j < r.value ==> !p(cs[j])
    ensures r.None? <==> forall i :: 0 <= i < |cs| ==> !p(cs[i])
    decreases |cs|
  {
    if cs == [] then None
    else if p(cs[0]) then Some(0)
    else
      var r := FindFirst(cs[1..], p);
      if r.Some? then Some(r.value + 1) else None
  }

  /** The first active row with this username (`WHERE username = ? AND is_active = 1`). */
  function FindActiveByName(cs: seq<Credential>, username: string): (r: Option<nat>)
    ensures r.Some? ==> r.value < |cs| && cs[r.value].username == username && cs[r.value].isActive
    ensures r.None? <==> forall i :: 0 <= i < |cs| ==> !(cs[i].username == username && cs[i].isActive)
  {
    FindFirst(cs, (c: Credential) => c.username == username && c.isActive)
  }

  /** The first row with this id, active or not (`WHERE id = ?`). */
  function FindById(cs: seq<Credential>, id: int): (r: Option<nat>)
    ensures r.Some? ==> r.value < |cs| && cs[r.value].id == id
    ensures r.None? <==> forall i :: 0 <= i < |cs| ==> cs[i].id != id
  {
    FindFirst(cs, (c: Credential) => c.id == id)
  }

  /** The first active row with this id (`WHERE ua.id = ? AND ua.is_active = 1`). */
  function FindActiveById(cs: seq<Credential>, id: int): (r: Option<nat>)
    ensures r.Some? ==> r.value < |cs| && cs[r.value].id == id && cs[r.value].isActive
    ensures r.None? <==> forall i :: 0 <= i < |cs| ==> !(cs[i].id == id && cs[i].isActive)
  {
    FindFirst(cs, (c: Credential) => c.id == id && c.isActive)
  }

  /** The first profile of a user, as the LEFT JOIN's first row carries it. */
  function FirstProfile(ps: seq<Profile>, userId: int): (r: Option<Profile>)
    ensures r.Some? ==> r.value in ps && r.value.userId == userId
    ensures r.None? <==> forall i :: 0 <= i < |ps| ==> ps[i].userId != userId
    decreases |ps|
  {
    if ps == [] then None
    else if ps[0].userId == userId then Some(ps[0])
    else FirstProfile(ps[1..], userId)
  }

  /** Python truthiness of an optional text argument: present and non-empty. */
  predicate Truthy(v: Option<string>) {
    v.Some? && v.value != ""
  }

  /** `COALESCE(?, column)`: a supplied value, even an empty one, replaces the column. */
  function Coalesce(v: Option<string>, current: Option<string>): (r: Option<string>)
    ensures v.Some? ==> r == v
    ensures v.None? ==> r == current
  {
    if v.Some? then v else current
  }

  /** The row update of `update_user_profile` applied to every profile of the user. */
  function UpdateProfiles(ps: seq<Profile>, userId: int, displayName: Option<string>, avatarUrl: Option<string>,
                          preferences: Option<string>, now: int): (r: seq<Profile>)
    ensures |r| == |ps|
    ensures forall i :: 0 <= i < |ps| && ps[i].userId != userId ==> r[i] == ps[i]
    ensures forall i :: 0 <= i < |ps| && ps[i].userId == userId ==>
              && r[i].rowId == ps[i].rowId && r[i].userId == userId && r[i].createdAt == ps[i].createdAt
              && r[i].displayName == Coalesce(displayName, ps[i].displayName)
              && r[i].avatarUrl == Coalesce(avatarUrl, ps[i].avatarUrl)
              && r[i].preferences == Coalesce(preferences, ps[i].preferences)
              && r[i].updatedAt == now
  {
    seq(|ps|, i requires 0 <= i < |ps| =>
      if ps[i].userId == userId then
        ps[i].(displayName := Coalesce(displayName, ps[i].displayName),
               avatarUrl := Coalesce(avatarUrl, ps[i].avatarUrl),
               preferences := Coalesce(preferences, ps[i].preferences),
               updatedAt := now)
      else ps[i])
  }

  /** Which branch of `login_user` a password takes against a stored hash. */
  datatype LoginPath = ByBcrypt | ByLegacy | Refused

  function PathFor(password: string, stored: StoredHash): (p: LoginPath)
    ensures p == ByBcrypt <==> VerifyPassword(password, stored)
    ensures p == ByLegacy <==> !VerifyPassword(password, stored) && VerifyLegacy(password, stored)
  {
    if VerifyPassword(password, stored) then ByBcrypt
    else if VerifyLegacy(password, stored) then ByLegacy
    else Refused
  }

  /**
   * A password accepted under the legacy scheme and migrated is accepted
   * under bcrypt the next time; a password stored as undecoded bytes is
   * refused by both branches.
   */
  lemma MigrationThenReplay(password: string, other: string, salt: nat)
    ensures PathFor(password, LegacyHex(password)) == ByLegacy
    ensures PathFor(password, DecodeHash(HashPassword(password, salt))) == ByBcrypt
    ensures PathFor(other, HashPassword(password, salt)) == Refused
  {
  }

  /** The outcome of `get_current_user`: a lookup, or the `ValueError` that `int()` raises. */
  datatype Resolution = Resolved(user: Option<UserInfo>) | ParseFailure

  const AUTH_PREFIX: string := "auth_user_"

  class AuthManager {
    var credentials: seq<Credential>
    var profiles: seq<Profile>
    /** The next AUTOINCREMENT id of each table. */
    var nextCredentialId: int
    var nextProfileId: int

    /**
     * `username` and `email` are each UNIQUE; ids ascend in table order and
     * lie below their counters.
     */
    ghost predicate Valid()
      reads this
    {
      && (forall i, j :: 0 <= i < j < |credentials| ==>
            && credentials[i].username != credentials[j].username
            && credentials[i].email != credentials[j].email
            && credentials[i].id < credentials[j].id)
      && (forall i :: 0 <= i < |credentials| ==> credentials[i].id < nextCredentialId)
      && (forall i :: 0 <= i < |profiles| ==> profiles[i].rowId < nextProfileId)
    }

    /** `init_auth_tables`: two empty tables. */
    constructor ()
      ensures Valid()
      ensures credentials == [] && profiles == [] && nextCredentialId == 1 && nextProfileId == 1
    {
      credentials, profiles := [], [];
      nextCredentialId, nextProfileId := 1, 1;
    }

    /**
     * `register_user`: refused, with nothing written, when any row (active or
     * not) already has the username or the email; otherwise one credential
     * holding the decoded bcrypt hash and one profile whose display name is the
     * username are added.
     */
    method RegisterUser(username: string, email: string, password: string, salt: nat, now: int)
      returns (ok: bool, message: string)
      requires Valid()
      modifies this
      ensures Valid()
      ensures ok <==> !Taken(old(credentials), username, email)
      ensures !ok ==> message == "Username or email already exists"
                      && credentials == old(credentials) && profiles == old(profiles)
                      && nextCredentialId == old(nextCredentialId) && nextProfileId == old(nextProfileId)
      ensures ok ==> message == "User " + username + " registered successfully"
      ensures ok ==> credentials == old(credentials) + [Credential(old(nextCredentialId), username, email,
                                                                   DecodeHash(HashPassword(password, salt)), now, now, true)]
      ensures ok ==> profiles == old(profiles) + [Profile(old(nextProfileId), old(nextCredentialId), Some(username),
                                                          None, None, now, now)]
      ensures ok ==> nextCredentialId == old(nextCredentialId) + 1 && nextProfileId == old(nextProfileId) + 1
    {
      if Taken(credentials, username, email) {
        return false, "Username or email already exists";
      }
      var hash := DecodeHash(HashPassword(password, salt));
      var id := nextCredentialId;
      credentials := credentials + [Credential(id, username, email, hash, now, now, true)];
      nextCredentialId := nextCredentialId + 1;
      profiles := profiles + [Profile(nextProfileId, id, Some(username), None, None, now, now)];
      nextProfileId := nextProfileId + 1;
      return true, "User " + username + " registered successfully";
    }

    /**
     * `login_user`: bcrypt first; failing that the legacy digest, which on a
     * match is migrated to a fresh decoded bcrypt hash before the login
     * succeeds. `migrationFails` stands for a database error in
     * `migrate_password`, which makes the login fail. An unknown or inactive
     * user, a wrong password and a failed migration all give the same
     * `(False, None, None)` with nothing written.
     */
    method LoginUser(username: string, password: string, salt: nat, now: int, migrationFails: bool)
      returns (ok: bool, id: Option<int>, name: Option<string>)
      requires Valid()
      modifies this
      ensures Valid()
      ensures profiles == old(profiles)
      ensures nextCredentialId == old(nextCredentialId) && nextProfileId == old(nextProfileId)
      ensures var found := FindActiveByName(old(credentials), username);
              ok <==> found.Some? && match PathFor(password, old(credentials)[found.value].passwordHash)
                                     case ByBcrypt => true
                                     case ByLegacy => !migrationFails
                                     case Refused => false
      ensures !ok ==> id.None? && name.None? && credentials == old(credentials)
      ensures ok ==> var i := FindActiveByName(old(credentials), username).value;
                     var c := old(credentials)[i];
                     && id == Some(c.id) && name == Some(username)
                     && credentials == old(credentials)[i := c.(
                          passwordHash := if VerifyPassword(password, c.passwordHash) then c.passwordHash
                                          else DecodeHash(HashPassword(password, salt)),
                          lastLogin := now)]
    {
      var found := FindActiveByName(credentials, username);
      if found.None? {
        return false, None, None;
      }
      var i := found.value;
      var c := credentials[i];
      if VerifyPassword(password, c.passwordHash) {
        credentials := credentials[i := c.(lastLogin := now)];
        return true, Some(c.id), Some(c.username);
      } else if VerifyLegacy(password, c.passwordHash) {
        if !migrationFails {
          credentials := credentials[i := c.(passwordHash := DecodeHash(HashPassword(password, salt)))];
          credentials := credentials[i := credentials[i].(lastLogin := now)];
          return true, Some(c.id), Some(c.username);
        }
      }
      return false, None, None;
    }

    /**
     * `get_user_by_id`: only an active user is returned, joined with the
     * first of its profiles (none gives empty profile fields).
     */
    function GetUserById(id: int): (r: Option<UserInfo>)
      reads this
      ensures r.Some? <==> exists i :: 0 <= i < |credentials| && credentials[i].id == id && credentials[i].isActive
      ensures r.Some? ==> && r.value.id == id
                          && (exists i :: 0 <= i < |credentials| && credentials[i].id == id && credentials[i].isActive
                                && r.value.username == credentials[i].username && r.value.email == credentials[i].email)
      ensures r.Some? ==> var c := credentials[FindActiveById(credentials, id).value];
                          && r.value.username == c.username && r.value.email == c.email
                          && r.value.createdAt == c.createdAt && r.value.lastLogin == c.lastLogin
      ensures r.Some? && FirstProfile(profiles, id).Some? ==>
                var p := FirstProfile(profiles, id).value;
                r.value.displayName == p.displayName && r.value.avatarUrl == p.avatarUrl && r.value.preferences == p.preferences
      ensures r.Some? && FirstProfile(profiles, id).None? ==>
                r.value.displayName.None? && r.value.avatarUrl.None? && r.value.preferences.None?
    {
      var found := FindActiveById(credentials, id);
      if found.None? then None
      else
        var c := credentials[found.value];
        var p := FirstProfile(profiles, id);
        Some(UserInfo(c.id, c.username, c.email, c.createdAt, c.lastLogin,
                      if p.Some? then p.value.displayName else None,
                      if p.Some? then p.value.avatarUrl else None,
                      if p.Some? then p.value.preferences else None))
    }

    /**
     * `update_user_profile`: when none of the three arguments is truthy it
     * reports `False` and writes nothing; otherwise every profile row of the
     * user takes each supplied value (COALESCE keeps a column whose argument is
     * `None`) and it reports `True`, whether or not such a row exists.
     */
    method UpdateUserProfile(userId: int, displayName: Option<string>, avatarUrl: Option<string>,
                             preferences: Option<string>, now: int) returns (ok: bool)
      requires Valid()
      modifies this
      ensures Valid()
      ensures ok <==> Truthy(displayName) || Truthy(avatarUrl) || Truthy(preferences)
      ensures ok ==> profiles == UpdateProfiles(old(profiles), userId, displayName, avatarUrl, preferences, now)
      ensures !ok ==> profiles == old(profiles)
      ensures credentials == old(credentials)
      ensures nextCredentialId == old(nextCredentialId) && nextProfileId == old(nextProfileId)
    {
      if Truthy(displayName) || Truthy(avatarUrl) || Truthy(preferences) {
        profiles := UpdateProfiles(profiles, userId, displayName, avatarUrl, preferences, now);
        return true;
      }
      return false;
    }

    /**
     * `change_password` as written: the row is found by id alone (active or
     * not), the old password is checked with bcrypt only, and the new hash is
     * stored as the raw bytes `hash_password` returns, without `.decode`.
     */
    method ChangePassword(userId: int, oldPassword: string, newPassword: string, salt: nat)
      returns (ok: bool, message: string)
      requires Valid()
      modifies this
      ensures Valid()
      ensures profiles == old(profiles)
      ensures nextCredentialId == old(nextCredentialId) && nextProfileId == old(nextProfileId)
      ensures var found := FindById(old(credentials), userId);
              && (found.None? ==> !ok && message == "User not found" && credentials == old(credentials))
              && (found.Some? && !VerifyPassword(oldPassword, old(credentials)[found.value].passwordHash) ==>
                    !ok && message == "Current password is incorrect" && credentials == old(credentials))
              && (found.Some? && VerifyPassword(oldPassword, old(credentials)[found.value].passwordHash) ==>
                    ok && message == "Password changed successfully"
                    && credentials == old(credentials)[found.value := old(credentials)[found.value].(
                         passwordHash := HashPassword(newPassword, salt))])
    {
      var found := FindById(credentials, userId);
      if found.None? {
        return false, "User not found";
      }
      var i := found.value;
      if !VerifyPassword(oldPassword, credentials[i].passwordHash) {
        return false, "Current password is incorrect";
      }
      credentials := credentials[i := credentials[i].(passwordHash := HashPassword(newPassword, salt))];
      return true, "Password changed successfully";
    }

    /** `change_password` with the hash decoded before it is stored, as the other writers do. */
    method ChangePasswordDecoded(userId: int, oldPassword: string, newPassword: string, salt: nat)
      returns (ok: bool, message: string)
      requires Valid()
      modifies this
      ensures Valid()
      ensures profiles == old(profiles)
      ensures nextCredentialId == old(nextCredentialId) && nextProfileId == old(nextProfileId)
      ensures var found := FindById(old(credentials), userId);
              && (found.None? ==> !ok && message == "User not found" && credentials == old(credentials))
              && (found.Some? && !VerifyPassword(oldPassword, old(credentials)[found.value].passwordHash) ==>
                    !ok && message == "Current password is incorrect" && credentials == old(credentials))
              && (found.Some? && VerifyPassword(oldPassword, old(credentials)[found.value].passwordHash) ==>
                    ok && message == "Password changed successfully"
                    && credentials == old(credentials)[found.value := old(credentials)[found.value].(
                         passwordHash := DecodeHash(HashPassword(newPassword, salt)))])
    {
      var found := FindById(credentials, userId);
      if found.None? {
        return false, "User not found";
      }
      var i := found.value;
      if !VerifyPassword(oldPassword, credentials[i].passwordHash) {
        return false, "Current password is incorrect";
      }
      credentials := credentials[i := credentials[i].(passwordHash := DecodeHash(HashPassword(newPassword, salt)))];
      return true, "Password changed successfully";
    }
  }

  /**
   * `get_current_user`: an `auth_user_...` string has every `auth_user_`
   * removed and the rest parsed with `int()` (whose `ValueError` is not
   * caught); an integer is used as it is; anything else, or no entry, gives no
   * user.
   */
  function GetCurrentUser(value: Option<SessionValue>, auth: AuthManager): (r: Resolution)
    reads auth
    ensures value.None? || value.value.OtherValue? ==> r == Resolved(None)
    ensures value.Some? && value.value.Integer? ==> r == Resolved(auth.GetUserById(value.value.n))
    ensures value.Some? && value.value.Text? && !StartsWith(value.value.s, AUTH_PREFIX) ==> r == Resolved(None)
    ensures value.Some? && value.value.Text? && StartsWith(value.value.s, AUTH_PREFIX) ==>
              var parsed := ParseInt(RemoveAll(value.value.s, AUTH_PREFIX));
              && (r.ParseFailure? <==> parsed.None?)
              && (parsed.Some? ==> r == Resolved(auth.GetUserById(parsed.value)))
    ensures r.ParseFailure? ==> value.Some? && value.value.Text?
    ensures r.Resolved? && r.user.Some? ==> value.Some? && (value.value.Integer? || value.value.Text?)
  {
    match value
    case None => Resolved(None)
    case Some(v) =>
      match v
      case Text(s) =>
        if StartsWith(s, AUTH_PREFIX) then
          match ParseInt(RemoveAll(s, AUTH_PREFIX))
          case None => ParseFailure
          case Some(n) => Resolved(auth.GetUserById(n))
        else Resolved(None)
      case Integer(n) => Resolved(auth.GetUserById(n))
      case OtherValue => Resolved(None)
  }

  /** Removing the prefix from `auth_user_<n>` leaves the digits of `n`. */
  lemma StripAuthPrefix(n: int)
    ensures RemoveAll(AUTH_PREFIX + IntToString(n), AUTH_PREFIX) == IntToString(n)
  {
    var d := IntToString(n);
    var s := AUTH_PREFIX + d;
    assert s[..|AUTH_PREFIX|] == AUTH_PREFIX;
    assert s[|AUTH_PREFIX|..] == d;
    assert 'a' !in d by {
      if n < 0 {
        assert d == [d[0]] + d[1..];
        assert 'a' !in d[1..];
      }
    }
    RemoveAllAbsent(d, AUTH_PREFIX);
  }

  /**
   * Rewriting an integer session value to its `auth_user_<n>` form (as
   * `get_user_id` does) does not change which user `get_current_user` finds.
   */
  lemma NormalisedSessionResolvesAlike(n: int, auth: AuthManager)
    ensures GetCurrentUser(Some(Text(AUTH_PREFIX + IntToString(n))), auth) == GetCurrentUser(Some(Integer(n)), auth)
  {
    var s := AUTH_PREFIX + IntToString(n);
    assert s[..|AUTH_PREFIX|] == AUTH_PREFIX;
    StripAuthPrefix(n);
    IntToStringRoundTrip(n);
  }

  /**
   * The defect of `change_password`: after a successful change the stored
   * value is bytes, so neither the new nor the old password logs in, and a
   * second change is refused as "Current password is incorrect".
   */
  method ChangePasswordLocksOut() returns (loginWithNew: bool, loginWithOld: bool, secondChange: bool)
    ensures !loginWithNew && !loginWithOld && !secondChange
  {
    var auth := new AuthManager();
    var registered, note := auth.RegisterUser("alice", "alice@example.com", "secret1", 1, 100);
    assert registered;
    assert FindById(auth.credentials, 1) == Some(0);
    var changed, note2 := auth.ChangePassword(1, "secret1", "secret2", 2);
    assert changed;
    assert auth.credentials[0].passwordHash == BcryptBytes(2, "secret2");
    var id1, name1;
    loginWithNew, id1, name1 := auth.LoginUser("alice", "secret2", 3, 200, false);
    var id2, name2;
    loginWithOld, id2, name2 := auth.LoginUser("alice", "secret1", 4, 300, false);
    var msg;
    secondChange, msg := auth.ChangePassword(1, "secret2", "secret3", 5);
  }

  /** With the hash decoded, the new password logs in and the old one no longer does. */
  method ChangePasswordDecodedKeepsLogin() returns (loginWithNew: bool, loginWithOld: bool)
    ensures loginWithNew && !loginWithOld
  {
    var auth := new AuthManager();
    var registered, note := auth.RegisterUser("alice", "alice@example.com", "secret1", 1, 100);
    assert registered;
    assert FindById(auth.credentials, 1) == Some(0);
    var changed, note2 := auth.ChangePasswordDecoded(1, "secret1", "secret2", 2);
    assert changed;
    assert auth.credentials[0].passwordHash == BcryptText(2, "secret2");
    var id1, name1;
    loginWithOld, id1, name1 := auth.LoginUser("alice", "secret1", 3, 200, false);
    var id2, name2;
    loginWithNew, id2, name2 := auth.LoginUser("alice", "secret2", 4, 300, false);
  }

  /**
   * A user whose row still holds a legacy digest logs in through the legacy
   * branch, which migrates the row; the same password then succeeds through the
   * bcrypt branch and leaves the migrated hash in place.
   */
  method LegacyLoginMigrates() returns (first: bool, second: bool, migrated: bool)
    ensures first && second && migrated
  {
    var auth := new AuthManager();
    auth.credentials := [Credential(1, "bob", "bob@example.com", LegacyHex("hunter22"), 0, 0, true)];
    auth.nextCredentialId := 2;
    var id1, name1;
    first, id1, name1 := auth.LoginUser("bob", "hunter22", 7, 100, false);
    migrated := auth.credentials[0].passwordHash == BcryptText(7, "hunter22");
    var id2, name2;
    second, id2, name2 := auth.LoginUser("bob", "hunter22", 8, 200, false);
    migrated := migrated && auth.credentials[0].passwordHash == BcryptText(7, "hunter22");
  }
}
