/** The user repository (infrastructure/database/repo/users.py): cache-through
    reads and writes of `users`, registration together with the referral row,
    and the top-5 leaderboard with a per-user rank. */
module UserRepository {
  import opened Common
  import opened Schema
  import opened Storage

  /** The leaderboard query keeps this many rows. */
  const LeaderboardSize: nat := 5

  function HashOf(u: User): UserHash {
    UserHash(u.userId, u.language, u.balance)
  }

  function FromHash(h: UserHash): User {
    User(h.userId, h.balance, h.language)
  }

  /** Every cached `user:<id>` hash mirrors the row with that id. */
  ghost predicate Agrees(cached: map<int, UserHash>, users: map<int, User>) {
    forall id :: id in cached ==> id in users && cached[id] == HashOf(users[id])
  }

  ghost predicate UsersCoherent(db: Db, cache: Cache)
    reads db, cache
  {
    Agrees(cache.users, db.users)
  }

  /** What select_user answers: on a hit the cached fields, without reading the
      table; on a miss the row, or nothing when there is none or the store fails. */
  function Lookup(cached: map<int, UserHash>, users: map<int, User>, reachable: bool, id: int): Option<User> {
    if id in cached then Some(FromHash(cached[id]))
    else if reachable && id in users then Some(users[id])
    else None
  }

  /** With a coherent cache, select_user answers the table row whenever it can read it. */
  lemma LookupCoherent(cached: map<int, UserHash>, users: map<int, User>, reachable: bool, id: int)
    requires Agrees(cached, users)
    ensures Lookup(cached, users, reachable, id)
            == if id in users && (reachable || id in cached) then Some(users[id]) else None
  {
  }

  // ---------------------------------------------------------------- create_user

  /** The transaction of create_user commits exactly when the store answers, the
      language fits its column, and the referral insert (no conflict clause, so
      a second row for the same id violates the primary key) succeeds. */
  predicate RegistrationAccepted(reachable: bool, referrals: map<int, Referral>, id: int,
                                 language: string, rewardType: int)
  {
    reachable && FitsLanguage(language) && id !in referrals && InInt32(rewardType)
  }

  /** The row `INSERT ... ON CONFLICT (user_id) DO UPDATE SET language` leaves behind. */
  function Upserted(users: map<int, User>, id: int, language: string): User {
    if id in users then users[id].(language := language) else User(id, DefaultBalance, language)
  }

  // ---------------------------------------------------------------- update_user

  /** The balance update_user writes: the balance select_user returned plus the delta. */
  function NewBalance(seen: User, delta: Option<int>): Option<int> {
    if delta.Some? then Some(seen.balance + delta.value) else None
  }

  /** The UPDATE raises (and nothing is committed) when the store fails, when
      there is nothing to SET, or when a value does not fit its column. */
  predicate UpdateAccepted(reachable: bool, language: Option<string>, balance: Option<int>) {
    && reachable
    && (language.Some? || balance.Some?)
    && (language.Some? ==> FitsLanguage(language.value))
    && (balance.Some? ==> InInt32(balance.value))
  }

  function Updated(row: User, language: Option<string>, balance: Option<int>): User {
    row.(balance := if balance.Some? then balance.value else row.balance,
         language := if language.Some? then language.value else row.language)
  }

  // ---------------------------------------------------------- batch_create_users

  /** The single bulk INSERT succeeds when the store answers and every row is
      new, unique within the batch and fits its columns. */
  predicate BatchAccepted(reachable: bool, users: map<int, User>, rows: seq<User>) {
    && reachable
    && (forall i :: 0 <= i < |rows| ==>
          rows[i].userId !in users && InInt32(rows[i].balance) && FitsLanguage(rows[i].language))
    && (forall i, j :: 0 <= i < j < |rows| ==> rows[i].userId != rows[j].userId)
  }

  function WithRows(users: map<int, User>, rows: seq<User>): map<int, User> {
    if rows == [] then users
    else WithRows(users, rows[..|rows| - 1])[rows[|rows| - 1].userId := rows[|rows| - 1]]
  }

  function WithHashes(cached: map<int, UserHash>, rows: seq<User>): map<int, UserHash> {
    if rows == [] then cached
    else WithHashes(cached, rows[..|rows| - 1])[rows[|rows| - 1].userId := HashOf(rows[|rows| - 1])]
  }

  /** A row fits the schema of `users` under its key. */
  predicate RowFits(id: int, u: User) {
    u.userId == id && InInt32(u.balance) && FitsLanguage(u.language)
  }

  /** Inserting rows that fit keeps every row fitting and removes no key. */
  lemma {:induction false} WithRowsFits(users: map<int, User>, rows: seq<User>)
    requires forall id :: id in users ==> RowFits(id, users[id])
    requires forall i :: 0 <= i < |rows| ==> RowFits(rows[i].userId, rows[i])
    ensures users.Keys <= WithRows(users, rows).Keys
    ensures forall id :: id in WithRows(users, rows) ==> RowFits(id, WithRows(users, rows)[id])
  {
    if rows != [] {
      WithRowsFits(users, rows[..|rows| - 1]);
    }
  }

  /** Writing each inserted row's hash after the insert keeps the cache coherent. */
  lemma {:induction false} WithRowsCoherent(cached: map<int, UserHash>, users: map<int, User>, rows: seq<User>)
    requires Agrees(cached, users)
    ensures Agrees(WithHashes(cached, rows), WithRows(users, rows))
  {
    if rows != [] {
      WithRowsCoherent(cached, users, rows[..|rows| - 1]);
    }
  }

  // ----------------------------------------------------------- select_leaderboard

  /** The users whose balance is strictly greater than that of `id`; for an id
      with no row the subquery is NULL and no balance compares greater. */
  function StrictlyAbove(users: map<int, User>, id: int): set<int> {
    if id in users then set u | u in users && users[u].balance > users[id].balance else {}
  }

  /** The rank query: one more than the number of users strictly above. */
  function Rank(users: map<int, User>, id: int): int {
    1 + |StrictlyAbove(users, id)|
  }

  /** The list comprehension that numbers the top rows from place 1. */
  function EntriesOf(top: seq<User>): seq<Entry> {
    seq(|top|, i requires 0 <= i < |top| => Entry(top[i].userId, i + 1, top[i].balance))
  }

  function BoardIds(board: seq<Entry>): set<int> {
    set i | 0 <= i < |board| :: board[i].userId
  }

  /** A cached leaderboard is used only when it decodes to a non-empty list. */
  predicate LeaderboardHit(cached: Option<seq<Entry>>) {
    cached.Some? && cached.value != []
  }

  /** What a freshly computed leaderboard is: min(5, #users) entries numbered
      1..n, each an existing user with its balance, no user twice, balances
      non-increasing, and no unlisted user above any listed one. */
  ghost predicate IsTopBoard(board: seq<Entry>, users: map<int, User>) {
    && |board| == (if |users| < LeaderboardSize then |users| else LeaderboardSize)
    && (forall i :: 0 <= i < |board| ==> board[i].place == i + 1)
    && (forall i :: 0 <= i < |board| ==>
          board[i].userId in users && board[i].balance == users[board[i].userId].balance)
    && (forall i, j :: 0 <= i < j < |board| ==>
          board[i].userId != board[j].userId && board[j].balance <= board[i].balance)
    && (forall i, u :: 0 <= i < |board| && u in users && u !in BoardIds(board) ==>
          users[u].balance <= board[i].balance)
  }

  /** `next(row['place'] for row in leaderboard if row['user_id'] == user_id)`:
      the place of the first entry for the user, or nothing when it is not listed. */
  function PlaceIn(board: seq<Entry>, id: int): (r: Option<int>)
    ensures r.None? <==> forall i :: 0 <= i < |board| ==> board[i].userId != id
    ensures r.Some? ==> exists i :: 0 <= i < |board| && board[i].userId == id && board[i].place == r.value
                                    && forall j :: 0 <= j < i ==> board[j].userId != id
  {
    if board == [] then None
    else if board[0].userId == id then Some(board[0].place)
    else
      var r := PlaceIn(board[1..], id);
      assert forall i :: 1 <= i < |board| ==> board[i] == board[1..][i - 1];
      if r.Some? then
        var k :| 0 <= k < |board[1..]| && board[1..][k].userId == id && board[1..][k].place == r.value
                 && forall j :: 0 <= j < k ==> board[1..][j].userId != id;
        assert board[k + 1] == board[1..][k];
        r
      else r
  }

  /** The place a user gets: from the list when listed, else the cached rank,
      else the rank query when the store answers. */
  function Placed(listed: seq<Entry>, ranks: map<int, int>, users: map<int, User>, reachable: bool, id: int): Option<int> {
    match PlaceIn(listed, id)
    case Some(p) => Some(p)
    case None => if id in ranks then Some(ranks[id]) else if reachable then Some(Rank(users, id)) else None
  }

  /** Some user of a non-empty set of rows has the highest balance. */
  lemma {:induction false} HighestBalance(users: map<int, User>, rest: set<int>) returns (top: int)
    requires rest != {} && rest <= users.Keys
    ensures top in rest && forall u :: u in rest ==> users[u].balance <= users[top].balance
    decreases rest
  {
    var x := Pick(rest);
    if rest == {x} {
      top := x;
    } else {
      var y := HighestBalance(users, rest - {x});
      top := if users[x].balance <= users[y].balance then y else x;
    }
  }

  function UserIds(top: seq<User>): set<int> {
    set i | 0 <= i < |top| :: top[i].userId
  }

  /** The state of the top-n selection: `top` holds the rows taken so far,
      highest balance first, and `rest` the ids not taken yet, none above them. */
  ghost predicate TopSoFar(top: seq<User>, rest: set<int>, users: map<int, User>) {
    && rest <= users.Keys
    && |top| + |rest| == |users|
    && (forall i :: 0 <= i < |top| ==> top[i].userId in users && users[top[i].userId] == top[i])
    && (forall i :: 0 <= i < |top| ==> top[i].userId !in rest)
    && (forall u :: u in users && u !in rest ==> u in UserIds(top))
    && (forall i, j :: 0 <= i < j < |top| ==> top[i].userId != top[j].userId && top[j].balance <= top[i].balance)
    && (forall i, u :: 0 <= i < |top| && u in rest ==> users[u].balance <= top[i].balance)
  }

  lemma UserIdsAppend(top: seq<User>, u: User)
    ensures UserIds(top + [u]) == UserIds(top) + {u.userId}
  {
    var next := top + [u];
    forall x | x in UserIds(next) ensures x in UserIds(top) + {u.userId} {
      var k :| 0 <= k < |next| && next[k].userId == x;
      if k < |top| {
        assert next[k] == top[k];
      }
    }
    forall x | x in UserIds(top) + {u.userId} ensures x in UserIds(next) {
      if x == u.userId {
        assert next[|top|].userId == x;
      } else {
        var k :| 0 <= k < |top| && top[k].userId == x;
        assert next[k] == top[k];
      }
    }
  }

  /** Taking the highest remaining row keeps the selection state. */
  lemma TopSoFarStep(top: seq<User>, rest: set<int>, users: map<int, User>, id: int)
    requires TopSoFar(top, rest, users)
    requires forall u :: u in users ==> users[u].userId == u
    requires id in rest && forall u :: u in rest ==> users[u].balance <= users[id].balance
    ensures TopSoFar(top + [users[id]], rest - {id}, users)
  {
    var next, left := top + [users[id]], rest - {id};
    UserIdsAppend(top, users[id]);
    assert |left| == |rest| - 1;
    forall i | 0 <= i < |next|
      ensures next[i].userId in users && users[next[i].userId] == next[i] && next[i].userId !in left
    {
      if i < |top| {
        assert next[i] == top[i];
      }
    }
    forall i, j | 0 <= i < j < |next|
      ensures next[i].userId != next[j].userId && next[j].balance <= next[i].balance
    {
      assert next[i] == top[i];
      if j == |top| {
        assert next[j] == users[id];
      } else {
        assert next[j] == top[j];
      }
    }
    forall i, u | 0 <= i < |next| && u in left ensures users[u].balance <= next[i].balance {
      if i < |top| {
        assert next[i] == top[i];
      }
    }
  }

  /** When the selection stops, the numbered rows form the leaderboard. */
  lemma TopSoFarDone(top: seq<User>, rest: set<int>, users: map<int, User>)
    requires TopSoFar(top, rest, users)
    requires |top| <= LeaderboardSize && (|top| == LeaderboardSize || rest == {})
    ensures IsTopBoard(EntriesOf(top), users)
  {
    var board := EntriesOf(top);
    assert BoardIds(board) == UserIds(top) by {
      forall u | u in UserIds(top) ensures u in BoardIds(board) {
        var k :| 0 <= k < |top| && top[k].userId == u;
        assert board[k].userId == u;
      }
    }
    if rest == {} {
      forall u | u in users ensures u in UserIds(top) {
      }
      assert users.Keys <= UserIds(top);
    }
  }

  /** The user ids of a board, in order. */
  function Ids(board: seq<Entry>): seq<int> {
    seq(|board|, k requires 0 <= k < |board| => board[k].userId)
  }

  /** Everyone strictly above a listed user is listed before it. */
  lemma AboveIsListedBefore(board: seq<Entry>, users: map<int, User>, i: nat)
    requires IsTopBoard(board, users) && i < |board|
    ensures StrictlyAbove(users, board[i].userId) <= Elements(Ids(board)[..i])
  {
    var id := board[i].userId;
    forall u | u in StrictlyAbove(users, id) ensures u in Elements(Ids(board)[..i]) {
      assert u in BoardIds(board);
      var j :| 0 <= j < |board| && board[j].userId == u;
      assert j < i;
      assert Ids(board)[..i][j] == u;
    }
  }

  /** With pairwise distinct balances, everyone listed before a user is strictly above it. */
  lemma ListedBeforeIsAbove(board: seq<Entry>, users: map<int, User>, i: nat)
    requires IsTopBoard(board, users) && i < |board|
    requires forall a, b :: a in users && b in users && a != b ==> users[a].balance != users[b].balance
    ensures Elements(Ids(board)[..i]) <= StrictlyAbove(users, board[i].userId)
  {
    var id := board[i].userId;
    forall u | u in Elements(Ids(board)[..i]) ensures u in StrictlyAbove(users, id) {
      var j :| 0 <= j < i && Ids(board)[..i][j] == u;
      assert board[j].userId == u && board[j].userId != id;
    }
  }

  lemma ListedIdsDistinct(board: seq<Entry>, users: map<int, User>, i: nat)
    requires IsTopBoard(board, users) && i <= |board|
    ensures Distinct(Ids(board)[..i])
  {
    var before := Ids(board)[..i];
    forall a, b | 0 <= a < b < |before| ensures before[a] != before[b] {
      assert before[a] == board[a].userId && before[b] == board[b].userId;
    }
  }

  /** A listed user's place is never better than its computed rank, and the two
      agree when no two users share a balance (ties are ordered by the store). */
  lemma ListedPlaceAndRank(board: seq<Entry>, users: map<int, User>, id: int)
    requires IsTopBoard(board, users)
    requires PlaceIn(board, id).Some?
    ensures Rank(users, id) <= PlaceIn(board, id).value
    ensures (forall a, b :: a in users && b in users && a != b ==> users[a].balance != users[b].balance)
            ==> Rank(users, id) == PlaceIn(board, id).value
  {
    var i :| 0 <= i < |board| && board[i].userId == id && board[i].place == PlaceIn(board, id).value;
    var before := Ids(board)[..i];
    ListedIdsDistinct(board, users, i);
    DistinctCardinality(before);
    AboveIsListedBefore(board, users, i);
    SubsetCardinality(StrictlyAbove(users, id), Elements(before));
    if forall a, b :: a in users && b in users && a != b ==> users[a].balance != users[b].balance {
      ListedBeforeIsAbove(board, users, i);
      assert StrictlyAbove(users, id) == Elements(before);
    }
  }

  lemma SubsetCardinality<T>(a: set<T>, b: set<T>)
    requires a <= b
    ensures |a| <= |b|
  {
    assert b == a + (b - a);
  }

  class UserRepo {
    const db: Db
    const cache: Cache

    constructor (db: Db, cache: Cache)
      ensures this.db == db && this.cache == cache
    {
      this.db := db;
      this.cache := cache;
    }

    /** create_user: upsert the user (language only on conflict), insert the
        referral row, write `user:<id>`, all in one transaction. */
    method CreateUser(userId: int, language: string, referredBy: Option<int>, rewardType: int)
      returns (r: Option<User>)
      requires db.Valid()
      modifies db`users, db`referrals, cache`users
      ensures db.Valid()
      ensures r.Some? <==> old(RegistrationAccepted(db.reachable, db.referrals, userId, language, rewardType))
      ensures r.Some? ==>
                && r.value == old(Upserted(db.users, userId, language))
                && db.users == old(db.users)[userId := r.value]
                && db.referrals == old(db.referrals)[userId := Referral(userId, referredBy, rewardType)]
                && cache.users == old(cache.users)[userId := HashOf(r.value)]
      ensures r.None? ==>
                db.users == old(db.users) && db.referrals == old(db.referrals) && cache.users == old(cache.users)
      ensures old(UsersCoherent(db, cache)) ==> UsersCoherent(db, cache)
    {
      if !db.reachable || !FitsLanguage(language) {
        return None;  // the upsert raises
      }
      var before := db.users;
      var user := Upserted(db.users, userId, language);
      db.users := db.users[userId := user];
      if userId in db.referrals || !InInt32(rewardType) {
        db.users := before;  // the referral insert raises; the transaction is rolled back
        return None;
      }
      db.referrals := db.referrals[userId := Referral(userId, referredBy, rewardType)];
      cache.users := cache.users[userId := HashOf(user)];
      r := Some(user);
    }

    /** select_user */
    method SelectUser(userId: int) returns (r: Option<User>)
      modifies cache`users
      ensures r == old(Lookup(cache.users, db.users, db.reachable, userId))
      ensures userId in old(cache.users) || r.None? ==> cache.users == old(cache.users)
      ensures userId !in old(cache.users) && r.Some? ==> cache.users == old(cache.users)[userId := HashOf(r.value)]
      ensures old(UsersCoherent(db, cache)) ==> UsersCoherent(db, cache)
    {
      if userId in cache.users {
        return Some(FromHash(cache.users[userId]));
      }
      if !db.reachable {
        return None;  // the query raises
      }
      if userId in db.users {
        r := Some(db.users[userId]);
        cache.users := cache.users[userId := HashOf(r.value)];
      } else {
        r := None;
      }
    }

    /** update_user: read through select_user, add the delta to the balance it
        returned, UPDATE ... RETURNING, commit, and refresh `user:<id>`. */
    method UpdateUser(userId: int, language: Option<string>, delta: Option<int>) returns (r: Option<User>)
      requires db.Valid()
      modifies db`users, cache`users
      ensures db.Valid()
      ensures var seen := old(Lookup(cache.users, db.users, db.reachable, userId));
              r.Some? <==> seen.Some? && userId in old(db.users)
                           && UpdateAccepted(db.reachable, language, NewBalance(seen.value, delta))
      ensures r.Some? ==>
                var seen := old(Lookup(cache.users, db.users, db.reachable, userId));
                && r.value == Updated(old(db.users[userId]), language, NewBalance(seen.value, delta))
                && db.users == old(db.users)[userId := r.value]
                && cache.users == old(cache.users)[userId := HashOf(r.value)]
      ensures r.None? ==> db.users == old(db.users)
      ensures old(Lookup(cache.users, db.users, db.reachable, userId)).None? ==> cache.users == old(cache.users)
      ensures r.None? ==>
                || cache.users == old(cache.users)
                || (userId !in old(cache.users) && userId in old(db.users)
                    && cache.users == old(cache.users)[userId := HashOf(old(db.users)[userId])])
      ensures cache.users - {userId} == old(cache.users) - {userId}
      ensures old(UsersCoherent(db, cache)) ==> UsersCoherent(db, cache)
      ensures old(UsersCoherent(db, cache)) && r.Some? && delta.Some? ==>
                r.value.balance == old(db.users[userId].balance) + delta.value
    {
      var seen := SelectUser(userId);
      if seen.None? {
        return None;
      }
      var balance := NewBalance(seen.value, delta);
      if !UpdateAccepted(db.reachable, language, balance) {
        return None;  // the UPDATE raises; nothing is committed
      }
      if userId !in db.users {
        return None;  // no row matched, RETURNING yields nothing
      }
      var row := Updated(db.users[userId], language, balance);
      db.users := db.users[userId := row];
      cache.users := cache.users[userId := HashOf(row)];
      r := Some(row);
    }

    /** The top-5 query: rows by balance, highest first; the store orders ties. */
    method QueryTopUsers() returns (top: seq<User>)
      requires db.Valid()
      ensures IsTopBoard(EntriesOf(top), db.users)
    {
      top := [];
      var rest := db.users.Keys;
      while |top| < LeaderboardSize && rest != {}
        invariant |top| <= LeaderboardSize
        invariant TopSoFar(top, rest, db.users)
        decreases |rest|
      {
        ghost var highest := HighestBalance(db.users, rest);
        var id :| id in rest && forall u :: u in rest ==> db.users[u].balance <= db.users[id].balance;
        TopSoFarStep(top, rest, db.users, id);
        top := top + [db.users[id]];
        rest := rest - {id};
      }
      TopSoFarDone(top, rest, db.users);
    }

    /** select_leaderboard: the cached list when there is one, else the top-5
        query (cached); the caller's place from the list, else the cached rank,
        else the rank query (cached). A failing query yields an empty answer. */
    method SelectLeaderboard(userId: int) returns (board: seq<Entry>, place: Option<int>)
      requires db.Valid()
      modifies cache`leaderboard, cache`ranks
      ensures LeaderboardHit(old(cache.leaderboard)) ==>
                var listed := old(cache.leaderboard).value;
                var p := Placed(listed, old(cache.ranks), db.users, db.reachable, userId);
                place == p && board == (if p.Some? then listed else []) && cache.leaderboard == old(cache.leaderboard)
      ensures !LeaderboardHit(old(cache.leaderboard)) && db.reachable ==>
                && IsTopBoard(board, db.users)
                && cache.leaderboard == Some(board)
                && place == Placed(board, old(cache.ranks), db.users, true, userId)
      ensures !LeaderboardHit(old(cache.leaderboard)) && !db.reachable ==>
                board == [] && place.None? && cache.leaderboard == old(cache.leaderboard)
      ensures cache.ranks == old(cache.ranks)
              || (userId !in old(cache.ranks) && db.reachable && place == Some(Rank(db.users, userId))
                  && cache.ranks == old(cache.ranks)[userId := Rank(db.users, userId)])
    {
      var listed: seq<Entry>;
      if LeaderboardHit(cache.leaderboard) {
        listed := cache.leaderboard.value;
      } else {
        if !db.reachable {
          return [], None;  // the top-5 query raises
        }
        var top := QueryTopUsers();
        listed := EntriesOf(top);
        cache.leaderboard := Some(listed);
      }
      place := PlaceIn(listed, userId);
      if place.None? {
        if userId in cache.ranks {
          place := Some(cache.ranks[userId]);
        } else if db.reachable {
          var rank := Rank(db.users, userId);
          cache.ranks := cache.ranks[userId := rank];
          place := Some(rank);
        } else {
          return [], None;  // the rank query raises
        }
      }
      board := listed;
    }

    /** batch_create_users: one bulk INSERT and commit, then one `user:<id>`
        hash per row; on failure nothing is written anywhere. */
    method BatchCreateUsers(rows: seq<User>)
      requires db.Valid()
      modifies db`users, cache`users
      ensures db.Valid()
      ensures old(BatchAccepted(db.reachable, db.users, rows)) ==>
                db.users == WithRows(old(db.users), rows) && cache.users == WithHashes(old(cache.users), rows)
      ensures !old(BatchAccepted(db.reachable, db.users, rows)) ==>
                db.users == old(db.users) && cache.users == old(cache.users)
      ensures old(UsersCoherent(db, cache)) ==> UsersCoherent(db, cache)
    {
      if !BatchAccepted(db.reachable, db.users, rows) {
        return;  // the insert raises before anything is committed
      }
      WithRowsFits(db.users, rows);
      if UsersCoherent(db, cache) {
        WithRowsCoherent(cache.users, db.users, rows);
      }
      db.users := WithRows(db.users, rows);
      var i := 0;
      while i < |rows|
        invariant 0 <= i <= |rows|
        invariant db.users == WithRows(old(db.users), rows)
        invariant cache.users == WithHashes(old(cache.users), rows[..i])
      {
        assert rows[..i + 1][..i] == rows[..i];
        cache.users := cache.users[rows[i].userId := HashOf(rows[i])];
        i := i + 1;
      }
      assert rows[..|rows|] == rows;
    }
  }
}
