/** The two package-level caches of core/user/cache.go. */
module UserCache {
  import opened Wrappers
  import opened UserRecord

  /**
   * The id-keyed map and the access-token-keyed map. They share nothing: a write to one
   * never changes the other, and a write replaces the whole entry for its key.
   */
  class Cache {
    var idCache: map<string, User>
    var tokenCache: map<string, User>

    /** Both maps start empty, as the package-level map literals do. */
    constructor ()
      ensures idCache == map[] && tokenCache == map[]
    {
      idCache := map[];
      tokenCache := map[];
    }

    /** Every entry is filed under its own user's key; the only writer, registration, keeps this. */
    ghost predicate SelfKeyed()
      reads this
    {
      (forall k :: k in idCache ==> idCache[k].id == k)
      && (forall t :: t in tokenCache ==> tokenCache[t].accessToken == t)
    }

    /** The cached user for `id`, or None (Go's nil) when that id was never set. */
    function GetCachedIdUser(id: string): (u: Option<User>)
      reads this
      ensures u.Some? <==> id in idCache
      ensures u.Some? ==> u.value == idCache[id]
    {
      if id in idCache then Some(idCache[id]) else None
    }

    /** Binds `id` to `user`, replacing any earlier entry; the token map and every other id stay as they were. */
    method SetCachedIdUser(id: string, user: User)
      modifies this`idCache
      ensures idCache == old(idCache)[id := user]
      ensures GetCachedIdUser(id) == Some(user)
      ensures forall k :: k != id ==> GetCachedIdUser(k) == old(GetCachedIdUser(k))
      ensures tokenCache == old(tokenCache)
    {
      idCache := idCache[id := user];
    }

    /** The cached user for access token `token`, or None when that token was never set. */
    function GetCachedAccessTokenUser(token: string): (u: Option<User>)
      reads this
      ensures u.Some? <==> token in tokenCache
      ensures u.Some? ==> u.value == tokenCache[token]
    {
      if token in tokenCache then Some(tokenCache[token]) else None
    }

    /** Binds `token` to `user`, replacing any earlier entry; the id map and every other token stay as they were. */
    method SetCachedAccessTokenUser(token: string, user: User)
      modifies this`tokenCache
      ensures tokenCache == old(tokenCache)[token := user]
      ensures GetCachedAccessTokenUser(token) == Some(user)
      ensures forall t :: t != token ==> GetCachedAccessTokenUser(t) == old(GetCachedAccessTokenUser(t))
      ensures idCache == old(idCache)
    {
      tokenCache := tokenCache[token := user];
    }
  }

}
