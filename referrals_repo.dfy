/** The referral repository (infrastructure/database/repo/referrals.py): the
    cached list of a user's direct referrals, the cached first/second-level
    counts, and the cached referral record joined with the user's language. */
module ReferralRepository {
  import opened Common
  import opened Schema
  import opened Storage

  // ------------------------------------------------------- referrals of a user

  /** Ids of the referrals whose `referred_by` is `rb`. */
  function DirectReferrals(referrals: map<int, Referral>, rb: int): set<int> {
    set id | id in referrals && referrals[id].referredBy == Some(rb)
  }

  /** `WHERE referred_by IN ids`: the referrals made by any of `ids`. */
  function SecondLevel(referrals: map<int, Referral>, ids: set<int>): set<int> {
    set id | id in referrals && referrals[id].referredBy.Some? && referrals[id].referredBy.value in ids
  }

  /** Rows of the table whose `referred_by` is `rb`, none twice. */
  ghost predicate ReferralsOf(s: seq<Referral>, referrals: map<int, Referral>, rb: int) {
    && (forall i :: 0 <= i < |s| ==> s[i].referralId in referrals && referrals[s[i].referralId] == s[i])
    && (forall i :: 0 <= i < |s| ==> s[i].referredBy == Some(rb))
    && (forall i, j :: 0 <= i < j < |s| ==> s[i].referralId != s[j].referralId)
  }

  /** What `select(Referral).where(referred_by == rb)` returns: every such row
      once, in an order the store chooses. */
  ghost predicate IsReferralScan(s: seq<Referral>, referrals: map<int, Referral>, rb: int) {
    && ReferralsOf(s, referrals, rb)
    && DirectReferrals(referrals, rb) <= set i | 0 <= i < |s| :: s[i].referralId
  }

  /** A scan holds exactly as many rows as the user has direct referrals. */
  lemma ScanSize(s: seq<Referral>, referrals: map<int, Referral>, rb: int)
    requires IsReferralScan(s, referrals, rb)
    ensures |s| == |DirectReferrals(referrals, rb)|
  {
    var ids := seq(|s|, i requires 0 <= i < |s| => s[i].referralId);
    assert Distinct(ids);
    forall id | id in Elements(ids) ensures id in DirectReferrals(referrals, rb) {
      var i :| 0 <= i < |ids| && ids[i] == id;
    }
    forall id | id in DirectReferrals(referrals, rb) ensures id in Elements(ids) {
      var i :| 0 <= i < |s| && s[i].referralId == id;
      assert ids[i] == id;
    }
    assert Elements(ids) == DirectReferrals(referrals, rb);
    DistinctCardinality(ids);
  }

  /** The `referrals_by_user:<id>` hash the miss path builds, one referral at a
      time: `referral_id:<i>` and `reward_type:<i>` for the i-th row. */
  function EncodeReferrals(rows: seq<Referral>): map<RefField, int> {
    if rows == [] then map[]
    else
      var n := |rows| - 1;
      EncodeReferrals(rows[..n])[ReferralIdAt(n) := rows[n].referralId][RewardTypeAt(n) := rows[n].rewardType]
  }

  /** The encoding holds exactly two fields per row, with that row's values. */
  lemma {:induction false} EncodeFields(rows: seq<Referral>)
    ensures forall f :: f in EncodeReferrals(rows) <==> f.i < |rows|
    ensures forall i :: 0 <= i < |rows| ==>
              EncodeReferrals(rows)[ReferralIdAt(i)] == rows[i].referralId
              && EncodeReferrals(rows)[RewardTypeAt(i)] == rows[i].rewardType
  {
    if rows != [] {
      var n := |rows| - 1;
      EncodeFields(rows[..n]);
      assert forall i :: 0 <= i < n ==> rows[..n][i] == rows[i];
    }
  }

  /** Two fields are written per referral. */
  lemma {:induction false} EncodeSize(rows: seq<Referral>)
    ensures |EncodeReferrals(rows)| == 2 * |rows|
  {
    if rows != [] {
      var n := |rows| - 1;
      EncodeSize(rows[..n]);
      EncodeFields(rows[..n]);
      var m := EncodeReferrals(rows[..n]);
      assert ReferralIdAt(n) !in m && RewardTypeAt(n) !in m;
      assert |m[ReferralIdAt(n) := rows[n].referralId]| == |m| + 1;
    }
  }

  /** Reads the first `k` cached referrals of `rb`; a missing field raises
      KeyError, which the repository turns into an empty answer. */
  function DecodeFirst(h: map<RefField, int>, rb: int, k: nat): Option<seq<Referral>> {
    if k == 0 then Some([])
    else match DecodeFirst(h, rb, k - 1)
      case None => None
      case Some(s) =>
        if ReferralIdAt(k - 1) in h && RewardTypeAt(k - 1) in h
        then Some(s + [Referral(h[ReferralIdAt(k - 1)], Some(rb), h[RewardTypeAt(k - 1)])])
        else None
  }

  /** The cached read as written: `len(hash) // 3` records. */
  function DecodeReferralsAsWritten(h: map<RefField, int>, rb: int): Option<seq<Referral>> {
    DecodeFirst(h, rb, |h| / 3)
  }

  /** The cached read with the stride of the writer: `len(hash) // 2` records. */
  function DecodeReferrals(h: map<RefField, int>, rb: int): Option<seq<Referral>> {
    DecodeFirst(h, rb, |h| / 2)
  }

  /** Reading the first k of the cached rows gives back exactly those rows. */
  lemma {:induction false} DecodeFirstEncode(rows: seq<Referral>, rb: int, k: nat)
    requires k <= |rows|
    requires forall i :: 0 <= i < |rows| ==> rows[i].referredBy == Some(rb)
    ensures DecodeFirst(EncodeReferrals(rows), rb, k) == Some(rows[..k])
  {
    if k > 0 {
      DecodeFirstEncode(rows, rb, k - 1);
      EncodeFields(rows);
      assert rows[..k] == rows[..k - 1] + [rows[k - 1]];
    }
  }

  /** With the writer's stride, a cached list reads back as the list written. */
  lemma DecodeEncode(rows: seq<Referral>, rb: int)
    requires forall i :: 0 <= i < |rows| ==> rows[i].referredBy == Some(rb)
    ensures DecodeReferrals(EncodeReferrals(rows), rb) == Some(rows)
  {
    var enc := EncodeReferrals(rows);
    EncodeSize(rows);
    assert |enc| / 2 == |rows|;
    DecodeFirstEncode(rows, rb, |rows|);
    assert rows[..|rows|] == rows;
  }

  /** As written, n cached referrals read back as only the first 2n/3 of them,
      so any non-empty list loses at least one referral. */
  lemma AsWrittenStrideLosesReferrals(rows: seq<Referral>, rb: int)
    requires forall i :: 0 <= i < |rows| ==> rows[i].referredBy == Some(rb)
    ensures DecodeReferralsAsWritten(EncodeReferrals(rows), rb) == Some(rows[..(2 * |rows|) / 3])
    ensures rows != [] ==> DecodeReferralsAsWritten(EncodeReferrals(rows), rb) != Some(rows)
  {
    EncodeSize(rows);
    DecodeFirstEncode(rows, rb, (2 * |rows|) / 3);
    if rows != [] {
      assert |rows[..(2 * |rows|) / 3]| < |rows|;
    }
  }

  /** A cached list that encodes a scan reads back, as written, as
      referrals of the user, none twice, two thirds of them. */
  lemma CachedScanReadAsWritten(s: seq<Referral>, referrals: map<int, Referral>, rb: int)
    requires IsReferralScan(s, referrals, rb)
    ensures DecodeReferralsAsWritten(EncodeReferrals(s), rb).Some?
    ensures ReferralsOf(DecodeReferralsAsWritten(EncodeReferrals(s), rb).value, referrals, rb)
    ensures |DecodeReferralsAsWritten(EncodeReferrals(s), rb).value| == (2 * |DirectReferrals(referrals, rb)|) / 3
  {
    AsWrittenStrideLosesReferrals(s, rb);
    ScanSize(s, referrals, rb);
    var k := (2 * |s|) / 3;
    assert forall i :: 0 <= i < k ==> s[..k][i] == s[i];
  }

  /** The smallest instance: one cached referral reads back as none. */
  lemma AsWrittenSingleReferral(rb: int, id: int, rewardType: int)
    ensures DecodeReferralsAsWritten(EncodeReferrals([Referral(id, Some(rb), rewardType)]), rb) == Some([])
  {
    AsWrittenStrideLosesReferrals([Referral(id, Some(rb), rewardType)], rb);
  }

  /** A non-empty `referrals_by_user:<id>` hash is a hit. */
  predicate ListHit(cached: map<int, map<RefField, int>>, rb: int) {
    rb in cached && cached[rb] != map[]
  }

  /** Every cached list is the encoding of a scan of that user's referrals. */
  ghost predicate ReferralListsSound(db: Db, cache: Cache)
    reads db, cache
  {
    forall rb :: ListHit(cache.referralsByUser, rb) ==>
      exists s :: IsReferralScan(s, db.referrals, rb) && cache.referralsByUser[rb] == EncodeReferrals(s)
  }

  // -------------------------------------------------------------- the counts

  /** The `referral_breakdown:<id>` hash. */
  function BreakdownHash(first: int, second: int): map<string, int> {
    map["first_referrals" := first, "second_referrals" := second]
  }

  /** `hash.get(key, 0)` */
  function GetOrZero(h: map<string, int>, key: string): int {
    if key in h then h[key] else 0
  }

  /** The counts the miss path computes from the table. */
  function Breakdown(referrals: map<int, Referral>, rb: int): (int, int) {
    var direct := DirectReferrals(referrals, rb);
    (|direct|, if direct == {} then 0 else |SecondLevel(referrals, direct)|)
  }

  /** A non-empty `referral_breakdown:<id>` hash is a hit. */
  predicate CountHit(cached: map<int, map<string, int>>, rb: int) {
    rb in cached && cached[rb] != map[]
  }

  /** Every cached breakdown holds the counts of the table. */
  ghost predicate BreakdownsSound(db: Db, cache: Cache)
    reads db, cache
  {
    forall rb :: rb in cache.breakdowns ==>
      cache.breakdowns[rb] == BreakdownHash(Breakdown(db.referrals, rb).0, Breakdown(db.referrals, rb).1)
  }

  /** The number of referrals made by each of the ids, added up. */
  function SumDirect(referrals: map<int, Referral>, ids: seq<int>): nat {
    if ids == [] then 0 else |DirectReferrals(referrals, ids[0])| + SumDirect(referrals, ids[1..])
  }

  /** The second-level count adds up the direct referrals of each first-level
      referral: nobody is counted twice, because each row has one referrer. */
  lemma {:induction false} SecondLevelSum(referrals: map<int, Referral>, ids: seq<int>)
    requires Distinct(ids)
    ensures |SecondLevel(referrals, Elements(ids))| == SumDirect(referrals, ids)
  {
    if ids != [] {
      var rest := ids[1..];
      DistinctTail(ids);
      SecondLevelSum(referrals, rest);
      SecondLevelSplit(referrals, ids);
    }
  }

  lemma DistinctTail(ids: seq<int>)
    requires Distinct(ids) && ids != []
    ensures Distinct(ids[1..]) && ids[0] !in Elements(ids[1..])
    ensures Elements(ids) == {ids[0]} + Elements(ids[1..])
  {
    var rest := ids[1..];
    forall a, b | 0 <= a < b < |rest| ensures rest[a] != rest[b] {
      assert rest[a] == ids[a + 1] && rest[b] == ids[b + 1];
    }
    forall k | 0 <= k < |rest| ensures rest[k] != ids[0] {
      assert rest[k] == ids[k + 1];
    }
    assert ids == [ids[0]] + rest;
  }

  /** The referrals made by the first id and those made by the others are
      disjoint and together make up the referrals made by all of them. */
  lemma SecondLevelSplit(referrals: map<int, Referral>, ids: seq<int>)
    requires Distinct(ids) && ids != []
    ensures |SecondLevel(referrals, Elements(ids))|
            == |DirectReferrals(referrals, ids[0])| + |SecondLevel(referrals, Elements(ids[1..]))|
  {
    DistinctTail(ids);
    var all, head, tail := SecondLevel(referrals, Elements(ids)), DirectReferrals(referrals, ids[0]),
                           SecondLevel(referrals, Elements(ids[1..]));
    assert all == head + tail;
    assert head * tail == {} by {
      forall id | id in head ensures id !in tail {
      }
    }
    assert |head + tail| == |head| + |tail|;
  }

  /** Two direct referrals with three referrals each give the pair (2, 6). */
  lemma TwoByThree(referrals: map<int, Referral>, rb: int, a: int, b: int)
    requires a != b && DirectReferrals(referrals, rb) == {a, b}
    requires |DirectReferrals(referrals, a)| == 3 && |DirectReferrals(referrals, b)| == 3
    ensures Breakdown(referrals, rb) == (2, 6)
  {
    SecondLevelSum(referrals, [a, b]);
    assert Elements([a, b]) == {a, b};
    assert [a, b][1..] == [b] && [b][1..] == [];
    assert SumDirect(referrals, [b]) == 3;
    assert SumDirect(referrals, [a, b]) == 6;
    assert |{a, b}| == 2;
  }

  // ----------------------------------------------------------- get_referral

  /** A referral with the language of the referred user. */
  datatype ReferralInfo = ReferralInfo(referral: Referral, language: string)

  /** The outer join's language, `or "en"`: the user's own when there is a
      user row with a non-empty language, else "en". */
  function JoinedLanguage(users: map<int, User>, id: int): (r: string)
    ensures r != ""
    ensures id in users && users[id].language != "" ==> r == users[id].language
  {
    if id in users && users[id].language != "" then users[id].language else "en"
  }

  /** The decimal text of an integer, as str() writes it. */
  function Decimal(n: int): string
    decreases if n < 0 then 1 - n else n
  {
    if n < 0 then "-" + Decimal(-n)
    else if n < 10 then [['0', '1', '2', '3', '4', '5', '6', '7', '8', '9'][n]]
    else Decimal(n / 10) + Decimal(n % 10)
  }

  /** A cached field read as text: str() of a number, or the text itself. */
  function FieldText(f: Field): string {
    match f
    case Num(n) => Decimal(n)
    case Text(s) => s
  }

  const ReferralKeys: seq<string> := ["referral_id", "referred_by", "reward_type", "language"]

  /** The completeness test of the cached read: all four fields present, none
      of them '' or 'None'. */
  predicate CompleteHash(h: map<string, Field>) {
    forall k :: k in ReferralKeys ==> k in h && h[k] != Text("") && h[k] != Text("None")
  }

  /** The fields the miss path writes to `referral:<id>`: the numbers as
      str(), a missing referrer as ''. */
  function ReferralHash(r: Referral, language: string): map<string, Field> {
    map[
      "referral_id" := Num(r.referralId),
      "referred_by" := if r.referredBy.Some? then Num(r.referredBy.value) else Text(""),
      "reward_type" := Num(r.rewardType),
      "language" := Text(language)]
  }

  /** The hit path after the completeness test: int() of the three numbers
      (a value int() refuses raises, and the caller gets nothing). */
  function ReadCachedReferral(h: map<string, Field>): Option<ReferralInfo>
    requires CompleteHash(h)
  {
    if h["referral_id"].Num? && h["referred_by"].Num? && h["reward_type"].Num?
    then Some(ReferralInfo(
      Referral(h["referral_id"].n, Some(h["referred_by"].n), h["reward_type"].n),
      FieldText(h["language"])))
    else None
  }

  /** A referral without a referrer is cached with an empty `referred_by`, so
      its cache entry never passes the completeness test. */
  lemma RootReferralNeverServed(old_hash: map<string, Field>, r: Referral, language: string)
    requires r.referredBy.None?
    ensures !CompleteHash(old_hash + ReferralHash(r, language))
  {
    var h := old_hash + ReferralHash(r, language);
    assert "referred_by" in ReferralKeys;
    assert h["referred_by"] == Text("");
  }

  /** A referral with a referrer reads back from its cache entry as written,
      whatever the entry held before, unless its language is the text 'None'. */
  lemma CachedReferralRoundTrip(old_hash: map<string, Field>, r: Referral, language: string)
    requires r.referredBy.Some? && language != "" && language != "None"
    ensures CompleteHash(old_hash + ReferralHash(r, language))
    ensures ReadCachedReferral(old_hash + ReferralHash(r, language)) == Some(ReferralInfo(r, language))
  {
  }

  /** Every complete cached referral reads back as the row with its joined language. */
  ghost predicate ReferralsCacheSound(db: Db, cache: Cache)
    reads db, cache
  {
    forall id :: id in cache.referrals && CompleteHash(cache.referrals[id]) ==>
      id in db.referrals
      && ReadCachedReferral(cache.referrals[id]) == Some(ReferralInfo(db.referrals[id], JoinedLanguage(db.users, id)))
  }

  class ReferralsRepo {
    const db: Db
    const cache: Cache

    constructor (db: Db, cache: Cache)
      ensures this.db == db && this.cache == cache
    {
      this.db := db;
      this.cache := cache;
    }

    /** `select(Referral).where(referred_by == rb)` */
    method QueryReferralsBy(rb: int) returns (rows: seq<Referral>)
      requires db.Valid() && db.reachable
      ensures IsReferralScan(rows, db.referrals, rb)
    {
      var referrals := db.referrals;
      var order := Enumerate(DirectReferrals(referrals, rb));
      forall i | 0 <= i < |order| ensures order[i] in DirectReferrals(referrals, rb) {
        assert order[i] in Elements(order);
      }
      rows := seq(|order|, i requires 0 <= i < |order| => referrals[order[i]]);
      assert forall i :: 0 <= i < |rows| ==> rows[i].referralId == order[i];
      forall id | id in DirectReferrals(referrals, rb) ensures id in set i | 0 <= i < |rows| :: rows[i].referralId {
        assert id in Elements(order);
        var k :| 0 <= k < |order| && order[k] == id;
        assert rows[k].referralId == id;
      }
    }

    /** get_referrals_by_user: a non-empty cached hash is decoded with the
        stride as written, `len // 3` records (a missing field gives []);
        otherwise the rows, cached only when there are some. A sound cached
        list therefore answers only the first two thirds of the referrals. */
    method GetReferralsByUser(rb: int) returns (r: seq<Referral>)
      requires db.Valid()
      modifies cache`referralsByUser
      ensures ListHit(old(cache.referralsByUser), rb) ==>
                && r == (match DecodeReferralsAsWritten(old(cache.referralsByUser)[rb], rb) case Some(s) => s case None => [])
                && cache.referralsByUser == old(cache.referralsByUser)
      ensures !ListHit(old(cache.referralsByUser), rb) && !db.reachable ==>
                r == [] && cache.referralsByUser == old(cache.referralsByUser)
      ensures !ListHit(old(cache.referralsByUser), rb) && db.reachable ==>
                && IsReferralScan(r, db.referrals, rb)
                && cache.referralsByUser ==
                     (if r == [] then old(cache.referralsByUser) else old(cache.referralsByUser)[rb := EncodeReferrals(r)])
      ensures old(ReferralListsSound(db, cache)) ==> ReferralListsSound(db, cache)
      ensures old(ReferralListsSound(db, cache)) && ListHit(old(cache.referralsByUser), rb) ==>
                && ReferralsOf(r, db.referrals, rb)
                && |r| == (2 * |DirectReferrals(db.referrals, rb)|) / 3
    {
      if ListHit(cache.referralsByUser, rb) {
        if ReferralListsSound(db, cache) {
          var s :| IsReferralScan(s, db.referrals, rb) && cache.referralsByUser[rb] == EncodeReferrals(s);
          CachedScanReadAsWritten(s, db.referrals, rb);
        }
        var decoded := DecodeReferralsAsWritten(cache.referralsByUser[rb], rb);
        return match decoded case Some(s) => s case None => [];
      }
      if !db.reachable {
        return [];  // the query raises
      }
      r := QueryReferralsBy(rb);
      if r != [] {
        var data: map<RefField, int> := map[];
        var i := 0;
        while i < |r|
          invariant 0 <= i <= |r|
          invariant data == EncodeReferrals(r[..i])
        {
          assert r[..i + 1][..i] == r[..i];
          data := data[ReferralIdAt(i) := r[i].referralId][RewardTypeAt(i) := r[i].rewardType];
          i := i + 1;
        }
        assert r[..|r|] == r;
        cache.referralsByUser := cache.referralsByUser[rb := data];
      }
    }

    /** _count_direct_referrals */
    method CountDirectReferrals(rb: int) returns (n: nat)
      requires db.reachable
      ensures n == |DirectReferrals(db.referrals, rb)|
    {
      n := |DirectReferrals(db.referrals, rb)|;
    }

    /** _get_direct_referrals_ids: as many ids as the direct count, each once. */
    method GetDirectReferralIds(rb: int) returns (ids: seq<int>)
      requires db.reachable
      ensures Distinct(ids) && Elements(ids) == DirectReferrals(db.referrals, rb)
      ensures |ids| == |DirectReferrals(db.referrals, rb)|
    {
      ids := Enumerate(DirectReferrals(db.referrals, rb));
      DistinctCardinality(ids);
    }

    /** _count_second_referrals */
    method CountSecondReferrals(ids: seq<int>) returns (n: nat)
      requires db.reachable
      ensures n == |SecondLevel(db.referrals, Elements(ids))|
    {
      n := |SecondLevel(db.referrals, Elements(ids))|;
    }

    /** count_referrals_by_user: the cached pair (a missing field counts 0), else
        the direct count and the count of referrals made by the direct ones
        (no query when there are none), cached; (0, 0) when the store fails. */
    method CountReferralsByUser(rb: int) returns (first: int, second: int)
      requires db.Valid()
      modifies cache`breakdowns
      ensures CountHit(old(cache.breakdowns), rb) ==>
                && first == GetOrZero(old(cache.breakdowns)[rb], "first_referrals")
                && second == GetOrZero(old(cache.breakdowns)[rb], "second_referrals")
                && cache.breakdowns == old(cache.breakdowns)
      ensures !CountHit(old(cache.breakdowns), rb) && !db.reachable ==>
                first == 0 && second == 0 && cache.breakdowns == old(cache.breakdowns)
      ensures !CountHit(old(cache.breakdowns), rb) && db.reachable ==>
                && (first, second) == Breakdown(db.referrals, rb)
                && cache.breakdowns == old(cache.breakdowns)[rb := BreakdownHash(first, second)]
      ensures old(BreakdownsSound(db, cache)) ==> BreakdownsSound(db, cache)
      ensures old(BreakdownsSound(db, cache)) && (db.reachable || CountHit(old(cache.breakdowns), rb)) ==>
                (first, second) == Breakdown(db.referrals, rb)
    {
      if CountHit(cache.breakdowns, rb) {
        var h := cache.breakdowns[rb];
        return GetOrZero(h, "first_referrals"), GetOrZero(h, "second_referrals");
      }
      if !db.reachable {
        return 0, 0;  // the first query raises
      }
      first := CountDirectReferrals(rb);
      var ids := GetDirectReferralIds(rb);
      if ids == [] {
        second := 0;
      } else {
        second := CountSecondReferrals(ids);
      }
      cache.breakdowns := cache.breakdowns[rb := BreakdownHash(first, second)];
    }

    /** get_referral: a complete cached hash is read back (a value int()
        refuses gives nothing); otherwise the row joined with the user's
        language, merged into the cached hash; nothing when there is no row. */
    method GetReferral(id: int) returns (r: Option<ReferralInfo>)
      requires db.Valid()
      modifies cache`referrals
      ensures id in old(cache.referrals) && CompleteHash(old(cache.referrals)[id]) ==>
                r == ReadCachedReferral(old(cache.referrals)[id]) && cache.referrals == old(cache.referrals)
      ensures !(id in old(cache.referrals) && CompleteHash(old(cache.referrals)[id])) ==>
                && r == (if db.reachable && id in db.referrals
                         then Some(ReferralInfo(db.referrals[id], JoinedLanguage(db.users, id))) else None)
                && cache.referrals ==
                     (if r.None? then old(cache.referrals)
                      else old(cache.referrals)[id := (if id in old(cache.referrals) then old(cache.referrals)[id] else map[])
                                                      + ReferralHash(r.value.referral, r.value.language)])
      ensures old(ReferralsCacheSound(db, cache)) ==> ReferralsCacheSound(db, cache)
      ensures old(ReferralsCacheSound(db, cache)) && r.Some? ==>
                id in db.referrals && r == Some(ReferralInfo(db.referrals[id], JoinedLanguage(db.users, id)))
    {
      if id in cache.referrals && CompleteHash(cache.referrals[id]) {
        return ReadCachedReferral(cache.referrals[id]);
      }
      if !db.reachable || id !in db.referrals {
        return None;  // the query raises, or finds no row
      }
      var referral := db.referrals[id];
      var language := JoinedLanguage(db.users, id);
      var before := if id in cache.referrals then cache.referrals[id] else map[];
      if referral.referredBy.None? {
        RootReferralNeverServed(before, referral, language);
      } else if language != "None" {
        CachedReferralRoundTrip(before, referral, language);
      }
      cache.referrals := cache.referrals[id := before + ReferralHash(referral, language)];
      r := Some(ReferralInfo(referral, language));
    }
  }
}
