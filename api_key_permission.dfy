/**
 * The `ApiKeyPermission` enum and `ApiKeyPermissionByStringConverter.GetString`,
 * which names each permission by the token the service expects on the wire.
 *
 * The enum is declared without a base type, so it is an `Int32`: a value of the
 * type is any 32-bit integer; the declared
 * members are constants at their declaration-order values.
 */
module ApiKeyPermissions {
  import opened Wrappers

  newtype ApiKeyPermission = x: int | Int32Min <= x <= Int32Max

  const SendNotification: ApiKeyPermission := 0
  const AddUser: ApiKeyPermission := 1
  const AccessSync: ApiKeyPermission := 2
  const Subscribe: ApiKeyPermission := 3

  /** The value is one of the four declared members. */
  predicate IsDeclared(p: ApiKeyPermission) {
    SendNotification <= p <= Subscribe
  }

  /** A character that may appear in a wire token. */
  predicate IsTokenChar(c: char) {
    'a' <= c <= 'z' || c == '_'
  }

  /** A non-empty string of lower-case letters and underscores. */
  predicate IsWireToken(s: string) {
    |s| > 0 && forall i :: 0 <= i < |s| ==> IsTokenChar(s[i])
  }

  /** The four tokens `GetString` produces for declared permissions. */
  const WireTokens: set<string> := {"access_sync", "add_user", "send_notification", "subscribe"}

  /**
   * `GetString`: the wire token of a permission; the empty string for any
   * undeclared value.
   */
  function GetString(permission: ApiKeyPermission): (r: string)
    ensures r != "" <==> IsDeclared(permission)
    ensures r == "" || (r in WireTokens && IsWireToken(r))
  {
    if permission == AccessSync then "access_sync"
    else if permission == AddUser then "add_user"
    else if permission == SendNotification then "send_notification"
    else if permission == Subscribe then "subscribe"
    else ""
  }

  /**
   * The token a permission is named by, read backwards: an independent
   * statement of the table `GetString` encodes.
   */
  ghost function PermissionOf(token: string): (r: Option<ApiKeyPermission>)
    ensures r.Some? <==> token in WireTokens
    ensures r.Some? ==> IsDeclared(r.value)
  {
    if token == "send_notification" then Some(SendNotification)
    else if token == "add_user" then Some(AddUser)
    else if token == "access_sync" then Some(AccessSync)
    else if token == "subscribe" then Some(Subscribe)
    else None
  }

  /** The exact token of each declared permission, and "" for every other value. */
  lemma GetStringExact(p: ApiKeyPermission)
    ensures GetString(p) == "access_sync" <==> p == AccessSync
    ensures GetString(p) == "add_user" <==> p == AddUser
    ensures GetString(p) == "send_notification" <==> p == SendNotification
    ensures GetString(p) == "subscribe" <==> p == Subscribe
    ensures GetString(p) == "" <==> !IsDeclared(p)
  {
  }

  /** Reading a token back recovers the permission; undeclared values have no token. */
  lemma PermissionOfGetString(p: ApiKeyPermission)
    ensures IsDeclared(p) ==> PermissionOf(GetString(p)) == Some(p)
    ensures !IsDeclared(p) ==> PermissionOf(GetString(p)) == None
  {
  }

  /** Every wire token is the name of exactly the permission it is read back as. */
  lemma GetStringPermissionOf(token: string)
    requires token in WireTokens
    ensures GetString(PermissionOf(token).value) == token
  {
  }

  /** Distinct permissions that have a token have distinct tokens. */
  lemma GetStringInjective(p: ApiKeyPermission, q: ApiKeyPermission)
    requires GetString(p) == GetString(q) != ""
    ensures p == q
  {
    PermissionOfGetString(p);
    PermissionOfGetString(q);
  }

  /** The tokens are exactly the outputs of `GetString` on declared permissions. */
  lemma GetStringRange(token: string)
    ensures token in WireTokens <==> exists p :: IsDeclared(p) && GetString(p) == token
  {
    if token in WireTokens {
      GetStringPermissionOf(token);
      assert GetString(PermissionOf(token).value) == token;
    }
  }
}
