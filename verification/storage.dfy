/**
 The credential store: the browser's Web Storage areas, each a map from
 string keys to string values, and the two token keys the client uses.
 */
module Storage {
  import opened Wrappers

  /** One storage area (`localStorage` or `sessionStorage`). */
  type Area = map<string, string>

  const RefreshTokenKey: string := "refreshToken"
  const AccessTokenKey: string := "accessToken"

  /** `getItem`: the stored value, or absent (`null`) when the key is not set. */
  function GetItem(a: Area, key: string): Option<string> {
    if key in a then Some(a[key]) else None
  }

  /** `setItem`: the key reads back the written value and every other key reads as before. */
  function SetItem(a: Area, key: string, value: string): (r: Area)
    ensures GetItem(r, key) == Some(value)
    ensures forall k :: k != key ==> GetItem(r, k) == GetItem(a, k)
  {
    a[key := value]
  }

  /** `clear`: afterwards no key reads back a value. */
  function Clear(a: Area): (r: Area)
    ensures forall k :: GetItem(r, k) == None
    ensures |r| == 0
  {
    map[]
  }

  /** JavaScript truthiness of an optional string (a `getItem` result, a draft): present and not empty. */
  predicate Truthy(v: Option<string>) {
    v.Some? && v.value != ""
  }

  /** The session signal: the refresh token is stored and non-empty. */
  predicate HasRefreshToken(a: Area) {
    Truthy(GetItem(a, RefreshTokenKey))
  }

  /**
   The two writes a successful login performs: the refresh token first, then
   the access token. Both read back, and every other key is untouched.
   */
  function StoreTokens(a: Area, accessToken: string, refreshToken: string): (r: Area)
    ensures GetItem(r, RefreshTokenKey) == Some(refreshToken)
    ensures GetItem(r, AccessTokenKey) == Some(accessToken)
    ensures forall k :: k != RefreshTokenKey && k != AccessTokenKey ==> GetItem(r, k) == GetItem(a, k)
    ensures HasRefreshToken(r) <==> refreshToken != ""
  {
    assert RefreshTokenKey[0] != AccessTokenKey[0];
    SetItem(SetItem(a, RefreshTokenKey, refreshToken), AccessTokenKey, accessToken)
  }
}
