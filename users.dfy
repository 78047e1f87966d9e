/**
 * The identity service of core/user/user.go: anonymous registration into the caches,
 * lookups that try a cache before the users table, and the two table writes.
 * Values that come from generators, the clock or the database driver are parameters.
 */
module Users {
  import opened Wrappers
  import opened UserRecord
  import opened UserCache
  import opened UserStore

  /** What the access-token generator hands back: a token, or the error it failed with. */
  datatype TokenResult = Generated(token: string) | GenerationFailed(error: string)

  /**
   * How a table write ends: with a nil error, with the error `Commit` returned, or with the
   * process stopped by `panic` or `log.Fatal` before anything was committed.
   */
  datatype WriteOutcome = NilError | CommitFailed | Aborted

  /**
   * Registers an anonymous user under the generated `id`, token, name and colour and puts it into
   * both caches. A token-generation failure returns that error, no user, and leaves both caches
   * as they were. The users table is not an argument: registration never persists the user.
   */
  method CreateAnonymousUser(cache: Cache, id: string, generated: TokenResult, displayName: string, displayColor: Hue)
    returns (err: Option<string>, user: Option<User>)
    modifies cache
    ensures generated.GenerationFailed? ==>
      err == Some(generated.error) && user == None
      && cache.idCache == old(cache.idCache) && cache.tokenCache == old(cache.tokenCache)
    ensures generated.Generated? ==>
      err == None && user.Some?
      && user.value.id == id && user.value.accessToken == generated.token
      && user.value.displayName == displayName && user.value.displayColor == displayColor
      && user.value.createdAt == ZeroTime && user.value.disabledAt == None
    ensures generated.Generated? ==>
      cache.idCache == old(cache.idCache)[id := user.value]
      && cache.tokenCache == old(cache.tokenCache)[generated.token := user.value]
    ensures old(cache.SelfKeyed()) ==> cache.SelfKeyed()
  {
    if generated.GenerationFailed? {
      return Some(generated.error), None;
    }
    var u := User(id, generated.token, displayName, displayColor, ZeroTime, None);
    cache.SetCachedIdUser(id, u);
    cache.SetCachedAccessTokenUser(generated.token, u);
    return None, Some(u);
  }

  /**
   * Inserts `user` as a new row. A failed begin or prepare, a failed statement, or an id that
   * is already in the table stops the process; otherwise the commit decides. Only a successful
   * commit changes the table, by adding the user's row with no disable timestamp.
   */
  method Create(store: Store, user: User, beginOk: bool, prepareOk: bool, execOk: bool, commitOk: bool)
    returns (outcome: WriteOutcome)
    modifies store
    ensures outcome == Aborted
      <==> !(beginOk && prepareOk && execOk) || HasKey(old(store.rows), IdColumn, user.id)
    ensures outcome == NilError <==> outcome != Aborted && commitOk
    ensures outcome == NilError ==> store.rows == old(store.rows) + [user.(disabledAt := None)]
    ensures outcome != NilError ==> store.rows == old(store.rows)
    ensures outcome == NilError ==> Select(store.rows, IdColumn, user.id) == Some(user.(disabledAt := None))
    ensures outcome == NilError ==>
      forall other :: other != user.id ==> Select(store.rows, IdColumn, other) == Select(old(store.rows), IdColumn, other)
    ensures UniqueIn(old(store.rows), IdColumn) ==> UniqueIn(store.rows, IdColumn)
  {
    if !beginOk || !prepareOk || !execOk || HasKey(store.rows, IdColumn, user.id) {
      return Aborted;
    }
    if !commitOk {
      return CommitFailed;
    }
    var row := user.(disabledAt := None);
    InsertFresh(store.rows, row);
    store.rows := store.rows + [row];
    return NilError;
  }

  /**
   * Disable as the package writes it. A failed begin or prepare stops the process; otherwise it
   * returns a nil error whatever the update did. The update binds the user's id to the timestamp
   * column and the time to the id test, and the transaction is never committed, so the table is
   * left exactly as it was.
   */
  method Disable(store: Store, user: User, now: Time, beginOk: bool, prepareOk: bool)
    returns (outcome: WriteOutcome)
    modifies store
    ensures outcome == (if beginOk && prepareOk then NilError else Aborted)
    ensures store.rows == old(store.rows)
  {
    if !beginOk || !prepareOk {
      return Aborted;
    }
    return NilError;
  }

  /**
   * `Disable` leaves the table as it was. For a user whose row is active, that table differs from
   * the one the intended update produces, and in it the user still reads back as active.
   */
  lemma DisableMissesIntendedUpdate(rows: seq<User>, k: nat, now: Time)
    requires UniqueIn(rows, IdColumn)
    requires k < |rows| && rows[k].disabledAt == None
    ensures MarkDisabled(rows, rows[k].id, now) != rows
    ensures Select(rows, IdColumn, rows[k].id).Some?
    ensures Select(rows, IdColumn, rows[k].id).value.disabledAt == None
  {
  }

  /**
   * Disable as it is evidently meant to work: set the disable timestamp on the user's row and
   * commit. The table changes only on a successful commit.
   */
  method DisableIntended(store: Store, user: User, now: Time, beginOk: bool, prepareOk: bool, execOk: bool, commitOk: bool)
    returns (outcome: WriteOutcome)
    modifies store
    ensures outcome == Aborted <==> !(beginOk && prepareOk && execOk)
    ensures outcome == NilError <==> beginOk && prepareOk && execOk && commitOk
    ensures outcome == NilError ==> store.rows == MarkDisabled(old(store.rows), user.id, now)
    ensures outcome != NilError ==> store.rows == old(store.rows)
  {
    if !beginOk || !prepareOk || !execOk {
      return Aborted;
    }
    if !commitOk {
      return CommitFailed;
    }
    store.rows := MarkDisabled(store.rows, user.id, now);
    return NilError;
  }

  /**
   * Maps a single-row query result to a user: no row, or a failed scan, gives None; a found row
   * gives a user carrying only that row's id, every other field left at its zero value.
   */
  function UserFromRow(row: Option<User>, scanOk: bool): (u: Option<User>)
    ensures u.Some? <==> row.Some? && scanOk
    ensures u.Some? ==> u.value.id == row.value.id && OnlyIdSet(u.value)
  {
    if row.None? || !scanOk then None
    else Some(User(row.value.id, "", "", ZeroHue, ZeroTime, None))
  }

  /**
   * The user for an access token: the token cache's entry when there is one, otherwise the
   * store's first row with that token, reduced to its id. A miss writes to neither cache.
   */
  function GetUserByToken(cache: Cache, store: Store, token: string, scanOk: bool): (u: Option<User>)
    reads cache, store
    ensures token in cache.tokenCache ==> u == Some(cache.tokenCache[token])
    ensures token !in cache.tokenCache ==> (u.Some? <==> scanOk && HasKey(store.rows, TokenColumn, token))
    ensures token !in cache.tokenCache && u.Some? ==>
      OnlyIdSet(u.value) && exists row :: row in store.rows && row.accessToken == token && row.id == u.value.id
    ensures cache.SelfKeyed() && token in cache.tokenCache ==> u.value.accessToken == token
  {
    var cached := cache.GetCachedAccessTokenUser(token);
    if cached.Some? then cached
    else UserFromRow(Select(store.rows, TokenColumn, token), scanOk)
  }

  /**
   * The user for an id: the id cache's entry when there is one, otherwise the store's first row
   * with that id, reduced to its id. A miss writes to neither cache.
   */
  function GetUserById(cache: Cache, store: Store, id: string, scanOk: bool): (u: Option<User>)
    reads cache, store
    ensures id in cache.idCache ==> u == Some(cache.idCache[id])
    ensures id !in cache.idCache ==> (u.Some? <==> scanOk && HasKey(store.rows, IdColumn, id))
    ensures id !in cache.idCache && u.Some? ==> OnlyIdSet(u.value) && u.value.id == id
    ensures cache.SelfKeyed() && u.Some? ==> u.value.id == id
  {
    var cached := cache.GetCachedIdUser(id);
    if cached.Some? then cached
    else UserFromRow(Select(store.rows, IdColumn, id), scanOk)
  }

  /** An id-cache hit decides the answer: neither the table's contents nor the scan outcome matter. */
  lemma IdCacheHitSkipsStore(cache: Cache, s1: Store, s2: Store, id: string, ok1: bool, ok2: bool)
    requires id in cache.idCache
    ensures GetUserById(cache, s1, id, ok1) == GetUserById(cache, s2, id, ok2)
  {
  }

  /** A token-cache hit decides the answer: neither the table's contents nor the scan outcome matter. */
  lemma TokenCacheHitSkipsStore(cache: Cache, s1: Store, s2: Store, token: string, ok1: bool, ok2: bool)
    requires token in cache.tokenCache
    ensures GetUserByToken(cache, s1, token, ok1) == GetUserByToken(cache, s2, token, ok2)
  {
  }

  /**
   * A user just written to both caches by registration is resolved, by id and by token, to
   * that same user whatever the table holds.
   */
  lemma RegisteredUserResolves(cache: Cache, store: Store, u: User, scanOk: bool)
    requires u.id in cache.idCache && cache.idCache[u.id] == u
    requires u.accessToken in cache.tokenCache && cache.tokenCache[u.accessToken] == u
    ensures GetUserById(cache, store, u.id, scanOk) == Some(u)
    ensures GetUserByToken(cache, store, u.accessToken, scanOk) == Some(u)
  {
  }

  /**
   * A cold lookup by id of a row that `Create` wrote returns the id alone: the stored name,
   * colour, token and timestamps are not carried back.
   */
  lemma ColdLookupReturnsIdOnly(cache: Cache, store: Store, k: nat)
    requires k < |store.rows|
    requires store.rows[k].id !in cache.idCache
    ensures GetUserById(cache, store, store.rows[k].id, true)
      == Some(User(store.rows[k].id, "", "", ZeroHue, ZeroTime, None))
  {
  }

  /**
   * A store hit by token yields a user whose own access token is empty, so it is not the
   * token it was found by unless that token was empty.
   */
  lemma TokenStoreHitDropsToken(cache: Cache, store: Store, token: string)
    requires token !in cache.tokenCache
    requires token != ""
    requires HasKey(store.rows, TokenColumn, token)
    ensures GetUserByToken(cache, store, token, true).Some?
    ensures GetUserByToken(cache, store, token, true).value.accessToken != token
  {
  }
}
