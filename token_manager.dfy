/**
 * PasswordResetTokenManager: the ofPasswordResetToken table and the five
 * statements the plugin runs against it. The table is a sequence of rows in
 * storage order; the clock (`now`, in epoch milliseconds), the configured
 * expiry, the random token and database failures are parameters.
 */
module TokenManager {
  import opened Base
  import opened Accounts

  /** Length of every generated token. */
  const TokenLength: nat := 32

  /** A row of ofPasswordResetToken. */
  datatype TokenRecord = TokenRecord(token: string, userId: string, sourceAddress: string, expires: int)

  /** A row as the administration page lists it: everything but the token. */
  datatype ResetRequest = ResetRequest(userId: string, sourceAddress: string, expires: int)

  // -----------------------------------------------------------------------
  // The statements, as functions of the table
  // -----------------------------------------------------------------------

  /** DELETE ... WHERE expires < NOW(): the rows that survive, in order. */
  function Purged(t: seq<TokenRecord>, now: int): (r: seq<TokenRecord>)
    ensures forall x :: x in r <==> x in t && x.expires >= now
  {
    if t == [] then []
    else if t[0].expires < now then Purged(t[1..], now) else [t[0]] + Purged(t[1..], now)
  }

  /** DELETE ... WHERE userId = ?: the rows of every other user, in order. */
  function WithoutUser(t: seq<TokenRecord>, userId: string): (r: seq<TokenRecord>)
    ensures forall x :: x in r <==> x in t && x.userId != userId
  {
    if t == [] then []
    else if t[0].userId == userId then WithoutUser(t[1..], userId) else [t[0]] + WithoutUser(t[1..], userId)
  }

  /** SELECT userId ... WHERE token = ?: the position of the first matching row. */
  function IndexOfToken(t: seq<TokenRecord>, token: string): (r: Option<nat>)
    ensures r.Some? ==> r.value < |t| && t[r.value].token == token
    ensures r.Some? ==> forall j :: 0 <= j < r.value ==> t[j].token != token
    ensures r.None? ==> forall x :: x in t ==> x.token != token
  {
    if t == [] then None
    else if t[0].token == token then Some(0)
    else match IndexOfToken(t[1..], token)
      case None => None
      case Some(i) => Some(i + 1)
  }

  /** The owner named by the first row holding `token`, if any. */
  function OwnerOf(t: seq<TokenRecord>, token: string): (r: Option<string>)
    ensures r.None? <==> forall x :: x in t ==> x.token != token
    ensures r.Some? ==> exists x :: x in t && x.token == token && x.userId == r.value
  {
    match IndexOfToken(t, token)
    case None => None
    case Some(i) => Some(t[i].userId)
  }

  /**
   * getUser as a function of the table before the call: purge, find the
   * owner of the token, then look the owner up; an unknown owner is "none".
   */
  function Resolve(t: seq<TokenRecord>, users: seq<User>, token: string, now: int): (r: Option<User>)
    ensures r.Some? ==> r.value in users && OwnerOf(Purged(t, now), token) == Some(r.value.username)
    ensures OwnerOf(Purged(t, now), token).None? ==> r.None?
  {
    match OwnerOf(Purged(t, now), token)
    case None => None
    case Some(owner) => LookupUser(users, owner)
  }

  // -----------------------------------------------------------------------
  // Properties of the statements
  // -----------------------------------------------------------------------

  /** A resolved token is a live row of the table, owned by the account returned. */
  lemma ResolveSound(t: seq<TokenRecord>, users: seq<User>, token: string, now: int)
    ensures Resolve(t, users, token, now).Some? ==>
      var u := Resolve(t, users, token, now).value;
      u in users && exists x :: x in t && x.token == token && x.userId == u.username && x.expires >= now
  {
    var live := Purged(t, now);
    match OwnerOf(live, token)
    case None =>
    case Some(owner) =>
      var x :| x in live && x.token == token && x.userId == owner;
      assert x in t && x.expires >= now;
  }

  /**
   * The converse of ResolveSound: when the first live row with the token
   * belongs to an existing account, getUser returns that account.
   */
  lemma ResolveComplete(t: seq<TokenRecord>, users: seq<User>, token: string, now: int, u: User)
    requires OwnerOf(Purged(t, now), token) == Some(u.username) && u in users
    ensures Resolve(t, users, token, now).Some?
    ensures Resolve(t, users, token, now).value.username == u.username
  {
  }

  /**
   * A token held by one user only, in a live row, resolves to that user's
   * account whenever the account exists.
   */
  lemma LiveRowResolves(t: seq<TokenRecord>, users: seq<User>, token: string, now: int, x: TokenRecord, u: User)
    requires x in t && x.token == token && x.expires >= now
    requires forall y :: y in t && y.token == token ==> y.userId == x.userId
    requires u in users && u.username == x.userId
    ensures Resolve(t, users, token, now).Some?
    ensures Resolve(t, users, token, now).value.username == x.userId
  {
    var live := Purged(t, now);
    assert x in live;
    var owner := OwnerOf(live, token);
    assert owner.Some?;
    var y :| y in live && y.token == token && y.userId == owner.value;
    assert y in t;
    ResolveComplete(t, users, token, now, u);
  }

  /** A token all of whose rows have expired never resolves, purged or not. */
  lemma ExpiredTokenNeverResolves(t: seq<TokenRecord>, users: seq<User>, token: string, now: int)
    requires forall x :: x in t && x.token == token ==> x.expires < now
    ensures Resolve(t, users, token, now) == None
  {
    ResolveSound(t, users, token, now);
  }

  /** A token that was never stored never resolves. */
  lemma UnknownTokenNeverResolves(t: seq<TokenRecord>, users: seq<User>, token: string, now: int)
    requires forall x :: x in t ==> x.token != token
    ensures Resolve(t, users, token, now) == None
  {
    ResolveSound(t, users, token, now);
  }

  /** Purging distributes over concatenation. */
  lemma {:induction false} PurgedAppend(a: seq<TokenRecord>, b: seq<TokenRecord>, now: int)
    ensures Purged(a + b, now) == Purged(a, now) + Purged(b, now)
  {
    if a != [] {
      assert (a + b)[0] == a[0] && (a + b)[1..] == a[1..] + b;
      PurgedAppend(a[1..], b, now);
      assert [a[0]] + (Purged(a[1..], now) + Purged(b, now)) == ([a[0]] + Purged(a[1..], now)) + Purged(b, now);
    } else {
      assert a + b == b;
    }
  }

  /** A table with no expired row is left as it is; so purging twice is purging once. */
  lemma {:induction false} PurgeKeepsLiveTable(t: seq<TokenRecord>, now: int)
    requires forall x :: x in t ==> x.expires >= now
    ensures Purged(t, now) == t
  {
    if t != [] {
      PurgeKeepsLiveTable(t[1..], now);
    }
  }

  lemma PurgeIdempotent(t: seq<TokenRecord>, now: int)
    ensures Purged(Purged(t, now), now) == Purged(t, now)
  {
    PurgeKeepsLiveTable(Purged(t, now), now);
  }

  /** A purge at a later time removes at least what an earlier one did. */
  lemma {:induction false} PurgeLaterSubsumes(t: seq<TokenRecord>, now: int, later: int)
    requires now <= later
    ensures Purged(Purged(t, now), later) == Purged(t, later)
  {
    if t != [] {
      PurgeLaterSubsumes(t[1..], now, later);
    }
  }

  /** Rows without the token in front shift the position of its first row. */
  lemma {:induction false} IndexOfTokenAppendAbsent(a: seq<TokenRecord>, b: seq<TokenRecord>, token: string)
    requires forall x :: x in a ==> x.token != token
    ensures IndexOfToken(a + b, token) == match IndexOfToken(b, token)
      case None => None
      case Some(i) => Some(i + |a|)
    decreases |a|
  {
    if a == [] {
      assert a + b == b;
    } else {
      assert a[0] in a;
      var ab := a + b;
      assert ab[0] == a[0] && ab[1..] == a[1..] + b;
      assert forall x :: x in a[1..] ==> x in a;
      IndexOfTokenAppendAbsent(a[1..], b, token);
    }
  }

  /** The first row holding a token is found in front of any appended rows. */
  lemma OwnerOfAppendAbsent(a: seq<TokenRecord>, b: seq<TokenRecord>, token: string)
    requires forall x :: x in a ==> x.token != token
    ensures OwnerOf(a + b, token) == OwnerOf(b, token)
    ensures IndexOfToken(a + b, token) == match IndexOfToken(b, token)
      case None => None
      case Some(i) => Some(i + |a|)
  {
    IndexOfTokenAppendAbsent(a, b, token);
    match IndexOfToken(b, token)
    case None =>
    case Some(i) => assert (a + b)[i + |a|] == b[i];
  }

  /**
   * generateToken followed by getUser: the new token resolves to its user at
   * any time up to its expiry, provided the random token was not already in
   * use by a live row and the account still exists.
   */
  lemma GeneratedTokenResolves(
    t: seq<TokenRecord>, users: seq<User>, user: User, sourceAddress: string,
    token: string, now: int, expiryMillis: int, later: int)
    requires user in users && LookupUser(users, user.username) == Some(user)
    requires forall x :: x in Purged(t, now) ==> x.token != token
    requires now <= later <= now + expiryMillis
    ensures Resolve(Purged(t, now) + [TokenRecord(token, user.username, sourceAddress, now + expiryMillis)],
                    users, token, later) == Some(user)
  {
    var rec := TokenRecord(token, user.username, sourceAddress, now + expiryMillis);
    var live := Purged(t, now);
    PurgedAppend(live, [rec], later);
    assert Purged([rec], later) == [rec];
    var before := Purged(live, later);
    assert forall x :: x in before ==> x in live;
    OwnerOfAppendAbsent(before, [rec], token);
  }

  /** Purging and deleting a user's rows commute. */
  lemma {:induction false} PurgeDeleteCommute(t: seq<TokenRecord>, userId: string, now: int)
    ensures Purged(WithoutUser(t, userId), now) == WithoutUser(Purged(t, now), userId)
  {
    if t != [] {
      PurgeDeleteCommute(t[1..], userId, now);
    }
  }

  /** Deleting a user's rows does not change who owns another user's token. */
  lemma {:induction false} OwnerOfWithoutOther(t: seq<TokenRecord>, userId: string, token: string)
    requires OwnerOf(t, token).Some? && OwnerOf(t, token).value != userId
    ensures OwnerOf(WithoutUser(t, userId), token) == OwnerOf(t, token)
  {
    var w := WithoutUser(t, userId);
    if t[0].token == token {
      assert w == [t[0]] + WithoutUser(t[1..], userId);
      assert IndexOfToken(w, token) == Some(0);
    } else {
      assert t == [t[0]] + t[1..];
      OwnerOfSkip(t[0], t[1..], token);
      OwnerOfWithoutOther(t[1..], userId, token);
      if t[0].userId != userId {
        OwnerOfSkip(t[0], WithoutUser(t[1..], userId), token);
      }
    }
  }

  /** A leading row holding another token does not change the owner. */
  lemma OwnerOfSkip(h: TokenRecord, rest: seq<TokenRecord>, token: string)
    requires h.token != token
    ensures OwnerOf([h] + rest, token) == OwnerOf(rest, token)
  {
    var s := [h] + rest;
    assert s[1..] == rest;
  }

  /** Deleting a user's rows leaves none of them to resolve. */
  lemma DeletedUserNeverResolves(t: seq<TokenRecord>, users: seq<User>, userId: string, token: string, now: int)
    ensures Resolve(WithoutUser(t, userId), users, token, now) != None ==>
      Resolve(WithoutUser(t, userId), users, token, now).value.username != userId
  {
    ResolveSound(WithoutUser(t, userId), users, token, now);
  }

  /**
   * Deleting one user's rows keeps every other user's tokens resolvable:
   * deleteTokens(u) invalidates u's tokens only.
   */
  lemma DeleteKeepsOtherUsersTokens(t: seq<TokenRecord>, users: seq<User>, userId: string, token: string, now: int)
    requires Resolve(t, users, token, now).Some?
    requires Resolve(t, users, token, now).value.username != userId
    ensures Resolve(WithoutUser(t, userId), users, token, now) == Resolve(t, users, token, now)
  {
    PurgeDeleteCommute(t, userId, now);
    OwnerOfWithoutOther(Purged(t, now), userId, token);
  }

  /** deleteTokens for a user without rows changes nothing; so a second call changes nothing. */
  lemma {:induction false} DeleteWithoutRowsIsNoOp(t: seq<TokenRecord>, userId: string)
    requires forall x :: x in t ==> x.userId != userId
    ensures WithoutUser(t, userId) == t
  {
    if t != [] {
      DeleteWithoutRowsIsNoOp(t[1..], userId);
    }
  }

  lemma DeleteIdempotent(t: seq<TokenRecord>, userId: string)
    ensures WithoutUser(WithoutUser(t, userId), userId) == WithoutUser(t, userId)
  {
    DeleteWithoutRowsIsNoOp(WithoutUser(t, userId), userId);
  }

  // -----------------------------------------------------------------------
  // ORDER BY userId, expires
  // -----------------------------------------------------------------------

  /** Lexicographic order on character codes. */
  predicate LexLessEq(a: string, b: string)
    decreases |a|
  {
    a == [] || (b != [] && (a[0] < b[0] || (a[0] == b[0] && LexLessEq(a[1..], b[1..]))))
  }

  lemma {:induction false} LexTotal(a: string, b: string)
    ensures LexLessEq(a, b) || LexLessEq(b, a)
    decreases |a|
  {
    if a != [] && b != [] && a[0] == b[0] {
      LexTotal(a[1..], b[1..]);
    }
  }

  lemma {:induction false} LexAntisymmetric(a: string, b: string)
    requires LexLessEq(a, b) && LexLessEq(b, a)
    ensures a == b
    decreases |a|
  {
    if a != [] {
      LexAntisymmetric(a[1..], b[1..]);
      assert a == [a[0]] + a[1..] && b == [b[0]] + b[1..];
    }
  }

  lemma {:induction false} LexTransitive(a: string, b: string, c: string)
    requires LexLessEq(a, b) && LexLessEq(b, c)
    ensures LexLessEq(a, c)
    decreases |a|
  {
    if a != [] && a[0] == b[0] && b[0] == c[0] {
      LexTransitive(a[1..], b[1..], c[1..]);
    }
  }

  /** The sort key of the listing: userId, then expiry. */
  predicate RowLe(x: TokenRecord, y: TokenRecord) {
    if x.userId == y.userId then x.expires <= y.expires else LexLessEq(x.userId, y.userId)
  }

  lemma RowLeTotal(x: TokenRecord, y: TokenRecord)
    ensures RowLe(x, y) || RowLe(y, x)
  {
    LexTotal(x.userId, y.userId);
  }

  lemma RowLeTransitive(x: TokenRecord, y: TokenRecord, z: TokenRecord)
    requires RowLe(x, y) && RowLe(y, z)
    ensures RowLe(x, z)
  {
    if x.userId != y.userId && y.userId != z.userId {
      LexTransitive(x.userId, y.userId, z.userId);
      if x.userId == z.userId {
        LexAntisymmetric(x.userId, y.userId);
      }
    }
  }

  predicate SortedRows(s: seq<TokenRecord>) {
    forall i, j :: 0 <= i < j < |s| ==> RowLe(s[i], s[j])
  }

  /** `h` sorts before every element of `s`. */
  predicate Below(h: TokenRecord, s: seq<TokenRecord>) {
    forall j :: 0 <= j < |s| ==> RowLe(h, s[j])
  }

  /** A row sorting before the head of a sorted sequence sorts before all of it. */
  lemma BelowSorted(x: TokenRecord, s: seq<TokenRecord>)
    requires SortedRows(s) && |s| > 0 && RowLe(x, s[0])
    ensures Below(x, s)
  {
    forall j | 0 <= j < |s| ensures RowLe(x, s[j]) {
      if j > 0 { RowLeTransitive(x, s[0], s[j]); }
    }
  }

  /** Sorting before every row of s and before x means sorting before any arrangement of them. */
  lemma BelowPermuted(h: TokenRecord, x: TokenRecord, s: seq<TokenRecord>, r: seq<TokenRecord>)
    requires Below(h, s) && RowLe(h, x) && multiset(r) == multiset(s) + multiset{x}
    ensures Below(h, r)
  {
    forall j | 0 <= j < |r| ensures RowLe(h, r[j]) {
      assert r[j] in multiset(r);
      if r[j] != x {
        assert r[j] in multiset(s);
        var k :| 0 <= k < |s| && s[k] == r[j];
      }
    }
  }

  lemma SortedCons(h: TokenRecord, r: seq<TokenRecord>)
    requires Below(h, r) && SortedRows(r)
    ensures SortedRows([h] + r)
  {
    var s := [h] + r;
    forall i, j | 0 <= i < j < |s| ensures RowLe(s[i], s[j]) {
      assert s[j] == r[j - 1];
      if i > 0 { assert s[i] == r[i - 1]; }
    }
  }

  /** Inserts a row into a sorted sequence of rows. */
  function InsertRow(x: TokenRecord, s: seq<TokenRecord>): (r: seq<TokenRecord>)
    requires SortedRows(s)
    ensures SortedRows(r)
    ensures multiset(r) == multiset(s) + multiset{x}
    ensures |r| == |s| + 1
    decreases |s|
  {
    if s == [] then [x]
    else if RowLe(x, s[0]) then
      BelowSorted(x, s);
      SortedCons(x, s);
      [x] + s
    else
      assert SortedRows(s[1..]) && Below(s[0], s[1..]);
      var rest := InsertRow(x, s[1..]);
      RowLeTotal(x, s[0]);
      BelowPermuted(s[0], x, s[1..], rest);
      SortedCons(s[0], rest);
      assert s == [s[0]] + s[1..];
      [s[0]] + rest
  }

  /** The rows in the order of ORDER BY userId, expires. */
  function OrderedRows(t: seq<TokenRecord>): (r: seq<TokenRecord>)
    ensures SortedRows(r)
    ensures multiset(r) == multiset(t)
    ensures |r| == |t|
  {
    if t == [] then []
    else
      assert t == [t[0]] + t[1..];
      InsertRow(t[0], OrderedRows(t[1..]))
  }

  /** Ordering the rows neither adds nor drops one. */
  lemma OrderedRowsKeepMembers(t: seq<TokenRecord>)
    ensures forall k :: 0 <= k < |OrderedRows(t)| ==> OrderedRows(t)[k] in t
  {
    var r := OrderedRows(t);
    forall k | 0 <= k < |r| ensures r[k] in t {
      assert r[k] in multiset(r);
    }
  }

  function AsRequest(x: TokenRecord): ResetRequest {
    ResetRequest(x.userId, x.sourceAddress, x.expires)
  }

  /** Purging keeps every live row as often as it occurs, and no expired row. */
  lemma {:induction false} PurgedCounts(t: seq<TokenRecord>, now: int)
    ensures forall x :: multiset(Purged(t, now))[x] == if x.expires >= now then multiset(t)[x] else 0
  {
    if t != [] {
      PurgedCounts(t[1..], now);
      assert t == [t[0]] + t[1..];
    }
  }

  /** The listing of the live rows is ordered by user, then expiry, and holds exactly the live rows. */
  lemma ListingIsOrderedLiveRows(t: seq<TokenRecord>, now: int)
    ensures SortedRows(OrderedRows(Purged(t, now)))
    ensures forall x :: multiset(OrderedRows(Purged(t, now)))[x] == if x.expires >= now then multiset(t)[x] else 0
  {
    PurgedCounts(t, now);
  }

  // -----------------------------------------------------------------------
  // The manager
  // -----------------------------------------------------------------------

  class PasswordResetTokenManager {
    /** The content of ofPasswordResetToken, in storage order. */
    var table: seq<TokenRecord>

    constructor (table: seq<TokenRecord>)
      ensures this.table == table
    {
      this.table := table;
    }

    /** purgeOldTokens: every row with expires < now is deleted. */
    method PurgeOldTokens(now: int)
      modifies this
      ensures table == Purged(old(table), now)
      ensures forall x :: x in table ==> x.expires >= now
    {
      table := Purged(table, now);
    }

    /**
     * generateToken: purge, then store one row for the user expiring at
     * now + expiry and return its token. `randomToken` is the 32-character
     * output of the random generator.
     */
    method GenerateToken(
      user: User, sourceAddress: string, now: int, expiryMillis: int,
      randomToken: string, fault: StorageFault)
      returns (r: Result<string>)
      requires |randomToken| == TokenLength
      modifies this
      ensures r.Success? ==> |r.value| == TokenLength
      ensures fault == FailsAtPurge ==> r == SqlFailure && table == old(table)
      ensures fault == FailsAtStatement ==> r == SqlFailure && table == Purged(old(table), now)
      ensures fault == Healthy ==>
        && r == Success(randomToken)
        && table == Purged(old(table), now) + [TokenRecord(randomToken, user.username, sourceAddress, now + expiryMillis)]
    {
      if fault == FailsAtPurge {
        return SqlFailure;
      }
      PurgeOldTokens(now);
      if fault == FailsAtStatement {
        return SqlFailure;
      }
      table := table + [TokenRecord(randomToken, user.username, sourceAddress, now + expiryMillis)];
      r := Success(randomToken);
    }

    /** getUser: purge, then resolve the token's owner among `users`. */
    method GetUser(token: string, users: seq<User>, now: int, fault: StorageFault)
      returns (r: Result<Option<User>>)
      modifies this
      ensures fault == FailsAtPurge ==> r == SqlFailure && table == old(table)
      ensures fault == FailsAtStatement ==> r == SqlFailure && table == Purged(old(table), now)
      ensures fault == Healthy ==>
        r == Success(Resolve(old(table), users, token, now)) && table == Purged(old(table), now)
      ensures r.Success? && r.value.Some? ==>
        exists x :: x in old(table) && x.token == token && x.userId == r.value.value.username && x.expires >= now
    {
      if fault == FailsAtPurge {
        return SqlFailure;
      }
      PurgeOldTokens(now);
      if fault == FailsAtStatement {
        return SqlFailure;
      }
      match OwnerOf(table, token)
      case None =>
        r := Success(None);
      case Some(owner) =>
        r := Success(LookupUser(users, owner));
      ResolveSound(old(table), users, token, now);
    }

    /** deleteTokens: every row of the user goes, whatever its expiry. */
    method DeleteTokens(user: User, fails: bool) returns (r: Result<()>)
      modifies this
      ensures fails ==> r == SqlFailure && table == old(table)
      ensures !fails ==> r == Success(()) && table == WithoutUser(old(table), user.username)
    {
      if fails {
        return SqlFailure;
      }
      table := WithoutUser(table, user.username);
      r := Success(());
    }

    /**
     * getResetRequests: purge, then list the surviving rows without their
     * tokens, ordered by user and then expiry. A database failure gives the
     * empty list instead of an error.
     */
    method GetResetRequests(now: int, fault: StorageFault) returns (requests: seq<ResetRequest>)
      modifies this
      ensures fault == FailsAtPurge ==> requests == [] && table == old(table)
      ensures fault == FailsAtStatement ==> requests == [] && table == Purged(old(table), now)
      ensures fault == Healthy ==>
        && table == Purged(old(table), now)
        && |requests| == |table|
        && forall k :: 0 <= k < |requests| ==> requests[k] == AsRequest(OrderedRows(table)[k])
      ensures forall k :: 0 <= k < |requests| ==> requests[k].expires >= now
    {
      if fault == FailsAtPurge {
        return [];
      }
      PurgeOldTokens(now);
      if fault == FailsAtStatement {
        return [];
      }
      var rows := OrderedRows(table);
      OrderedRowsKeepMembers(table);
      requests := [];
      var i := 0;
      while i < |rows|
        invariant 0 <= i <= |rows|
        invariant |requests| == i
        invariant forall k :: 0 <= k < i ==> requests[k] == AsRequest(rows[k])
      {
        requests := requests + [AsRequest(rows[i])];
        i := i + 1;
      }
    }
  }
}
