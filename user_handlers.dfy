/** The reward and crediting rules of the user handlers (tgbot/handlers/user.py):
    the referral reward tiers and the chain of referrers credited when a new
    user picks a language, the crediting decision of the task check, and the
    language toggle. Chat I/O (messages, media, keyboards) is not modelled;
    the channel-membership check is a boolean oracle passed in. */
module UserHandlers {
  import opened Common
  import opened Schema
  import opened Storage
  import opened UserRepository
  import opened ReferralRepository
  import TaskRepository
  import UserTaskRepository

  // ------------------------------------------------------------ reward tiers

  /** The reward rate in thousandths: 10% / 15% for the direct referrer
      (level 0), 5% / 7.5% further up; reward type 1 gets the lower tier and
      every other type the higher one. */
  function PerMille(level: nat, rewardType: int): (r: int)
    ensures r in {50, 75, 100, 150}
    ensures rewardType == 1 <==> r in {50, 100}
    ensures level == 0 <==> r in {100, 150}
  {
    if level == 0 then (if rewardType == 1 then 100 else 150)
    else (if rewardType == 1 then 50 else 75)
  }

  /** How the tiers relate: further levels get half of the direct rate, and
      the higher tier is one and a half times the lower one. */
  lemma RewardTiers(level: nat, rewardType: int)
    ensures level > 0 ==> 2 * PerMille(level, rewardType) == PerMille(0, rewardType)
    ensures rewardType != 1 ==> 2 * PerMille(level, rewardType) == 3 * PerMille(level, 1)
  {
  }

  /** `int(amount * pct)`: the exact product truncated toward zero. */
  function Reward(amount: int, level: nat, rewardType: int): (r: int)
    ensures amount >= 0 ==> 0 <= r <= amount && r * 1000 <= amount * PerMille(level, rewardType) < (r + 1) * 1000
    ensures amount <= 0 ==> amount <= r <= 0 && (r - 1) * 1000 < amount * PerMille(level, rewardType) <= r * 1000
  {
    TruncDiv(amount * PerMille(level, rewardType), 1000)
  }

  // ------------------------------------------------------- crediting a user

  /** What update_user(id, balance=amount) does to the table when the cache
      agrees with it: the balance grows by the amount when the user exists and
      the sum fits the column; otherwise nothing changes. */
  function Credited(users: map<int, User>, id: int, amount: int): (r: map<int, User>)
    ensures r.Keys == users.Keys
    ensures forall k :: k in users && k != id ==> r[k] == users[k]
    ensures id in users && InInt32(users[id].balance + amount) ==>
              r[id] == users[id].(balance := users[id].balance + amount)
    ensures !(id in users && InInt32(users[id].balance + amount)) ==> r == users
  {
    if id in users && InInt32(users[id].balance + amount)
    then users[id := users[id].(balance := users[id].balance + amount)]
    else users
  }

  // ------------------------------------------------------ referrer chain

  /** The referrer answered by get_referral when the cache agrees with the table. */
  function TableReferral(referrals: map<int, Referral>, users: map<int, User>, id: int): (r: Option<ReferralInfo>)
    ensures r.Some? <==> id in referrals
    ensures r.Some? ==> r.value.referral == referrals[id] && r.value.language == JoinedLanguage(users, id)
  {
    if id in referrals then Some(ReferralInfo(referrals[id], JoinedLanguage(users, id))) else None
  }

  /** The chain handle_language_change assembles: nothing without a (non-zero)
      referrer; else the referrer's row, and its own referrer's row looked up
      only when the first was found and names one. */
  function ChainOf(referrals: map<int, Referral>, users: map<int, User>, referredBy: Option<int>)
    : (chain: seq<Option<ReferralInfo>>)
    ensures |chain| == 2
    ensures referredBy.None? || referredBy == Some(0) ==> chain == [None, None]
    ensures chain[0].Some? <==> referredBy.Some? && referredBy.value != 0 && referredBy.value in referrals
    ensures chain[0].Some? ==> chain[0].value.referral == referrals[referredBy.value]
    ensures chain[1].Some? <==> chain[0].Some? && chain[0].value.referral.referredBy.Some?
                                && chain[0].value.referral.referredBy.value in referrals
    ensures chain[1].Some? ==> chain[1].value.referral == referrals[chain[0].value.referral.referredBy.value]
  {
    if referredBy.Some? && referredBy.value != 0 then
      var first := TableReferral(referrals, users, referredBy.value);
      var second :=
        if first.Some? && first.value.referral.referredBy.Some?
        then TableReferral(referrals, users, first.value.referral.referredBy.value)
        else None;
      [first, second]
    else [None, None]
  }

  /** The ids a chain credits. */
  function ChainIds(chain: seq<Option<ReferralInfo>>): set<int> {
    set i | 0 <= i < |chain| && chain[i].Some? :: chain[i].value.referral.referralId
  }

  /** notify_referrers over a table the cache agrees with: entry `level`
      credits its referral id with the reward of its level and type. */
  function CreditChain(users: map<int, User>, chain: seq<Option<ReferralInfo>>, amount: int): map<int, User> {
    if chain == [] then users
    else
      var n := |chain| - 1;
      var before := CreditChain(users, chain[..n], amount);
      if chain[n].None? then before
      else Credited(before, chain[n].value.referral.referralId,
                    Reward(amount, n, chain[n].value.referral.rewardType))
  }

  /** Crediting a chain touches no user outside it, adds and removes no user,
      and with a non-negative amount never lowers a balance. */
  lemma {:induction false} CreditChainFrame(users: map<int, User>, chain: seq<Option<ReferralInfo>>, amount: int)
    ensures CreditChain(users, chain, amount).Keys == users.Keys
    ensures forall id :: id in users && id !in ChainIds(chain) ==> CreditChain(users, chain, amount)[id] == users[id]
    ensures amount >= 0 ==> forall id :: id in users ==> CreditChain(users, chain, amount)[id].balance >= users[id].balance
  {
    if chain != [] {
      var n := |chain| - 1;
      CreditChainFrame(users, chain[..n], amount);
      assert ChainIds(chain[..n]) <= ChainIds(chain) by {
        forall id | id in ChainIds(chain[..n]) ensures id in ChainIds(chain) {
          var i :| 0 <= i < n && chain[..n][i].Some? && chain[..n][i].value.referral.referralId == id;
          assert chain[i] == chain[..n][i];
        }
      }
      if chain[n].Some? {
        assert chain[n].value.referral.referralId in ChainIds(chain);
      }
    }
  }

  /** Without a referrer nobody is credited. */
  lemma NoReferrerNoCredit(referrals: map<int, Referral>, users: map<int, User>, amount: int)
    ensures CreditChain(users, ChainOf(referrals, users, None), amount) == users
  {
    var chain := ChainOf(referrals, users, None);
    assert chain[..1][..0] == [];
    assert CreditChain(users, chain[..1], amount) == users;
    assert chain[..2] == chain;
  }

  /** A direct referrer with no referrer of its own gets the level-0 reward
      and nobody else is credited. */
  lemma {:induction false} DirectReferrerCredit(referrals: map<int, Referral>, users: map<int, User>, rb: int, amount: int)
    requires rb != 0 && rb in referrals && referrals[rb].referralId == rb && referrals[rb].referredBy.None?
    requires rb in users && InInt32(users[rb].balance + Reward(amount, 0, referrals[rb].rewardType))
    ensures CreditChain(users, ChainOf(referrals, users, Some(rb)), amount)
            == users[rb := users[rb].(balance := users[rb].balance + Reward(amount, 0, referrals[rb].rewardType))]
  {
    var chain := ChainOf(referrals, users, Some(rb));
    assert chain[..1][..0] == [];
    assert chain[..1] == [chain[0]];
    assert chain[0].value.referral.referralId == rb;
    assert chain[1].None?;
    assert chain[..2] == chain;
    assert CreditChain(users, chain[..1], amount)
           == Credited(users, rb, Reward(amount, 0, referrals[rb].rewardType));
  }

  /** A new user who names their own id as referrer: the row just inserted
      refers to itself, so the chain is that row twice and the new user is
      credited both the level-0 and the level-1 reward. */
  lemma {:induction false} SelfReferralCreditsTwice(referrals: map<int, Referral>, users: map<int, User>,
                                                    id: int, amount: int)
    requires id != 0 && id !in referrals && id !in users
    requires 0 <= amount <= 1_000_000
    ensures var refs := referrals[id := Referral(id, Some(id), DefaultRewardType)];
            var registered := users[id := User(id, DefaultBalance, DefaultLanguage)];
            var chain := ChainOf(refs, registered, Some(id));
            && chain[0] == chain[1] && chain[0].Some? && chain[0].value.referral.referralId == id
            && id in CreditChain(registered, chain, amount)
            && CreditChain(registered, chain, amount)[id].balance
               == DefaultBalance + Reward(amount, 0, DefaultRewardType) + Reward(amount, 1, DefaultRewardType)
  {
    var refs := referrals[id := Referral(id, Some(id), DefaultRewardType)];
    var registered := users[id := User(id, DefaultBalance, DefaultLanguage)];
    var chain := ChainOf(refs, registered, Some(id));
    assert chain[..2] == chain;
    assert chain[..2][..1] == [chain[0]];
    assert [chain[0]][..0] == [];
    CreditChainFrame(registered, chain, amount);
    var once := Credited(registered, id, Reward(amount, 0, DefaultRewardType));
    assert once[id].balance == DefaultBalance + Reward(amount, 0, DefaultRewardType);
    assert CreditChain(registered, chain[..1], amount) == once;
  }

  // ------------------------------------------------- notifications that fail

  /** The notification to the referrer of level `i` raises. `delivered[i]`
      says whether bot.send_message returns for that level; a level with no
      answer counts as delivered. Only a level holding a referrer sends. */
  predicate SendFails(chain: seq<Option<ReferralInfo>>, delivered: seq<bool>, i: int) {
    0 <= i < |chain| && chain[i].Some? && i < |delivered| && !delivered[i]
  }

  /** The levels from `from` on that notify_referrers works through: it stops
      right after the first level whose notification raises. */
  function ReachedFrom(chain: seq<Option<ReferralInfo>>, delivered: seq<bool>, from: nat): (n: nat)
    requires from <= |chain|
    ensures from <= n <= |chain|
    ensures forall i :: from <= i < n - 1 ==> !SendFails(chain, delivered, i)
    ensures n < |chain| ==> from < n && SendFails(chain, delivered, n - 1)
    decreases |chain| - from
  {
    if from == |chain| then from
    else if SendFails(chain, delivered, from) then from + 1
    else ReachedFrom(chain, delivered, from + 1)
  }

  /** How many levels of the chain notify_referrers works through. */
  function Reached(chain: seq<Option<ReferralInfo>>, delivered: seq<bool>): (n: nat)
    ensures n <= |chain|
    ensures forall i :: 0 <= i < n - 1 ==> !SendFails(chain, delivered, i)
    ensures n < |chain| ==> 0 < n && SendFails(chain, delivered, n - 1)
  {
    ReachedFrom(chain, delivered, 0)
  }

  /** The first level whose notification raises is the last one worked through. */
  lemma ReachedAtFailure(chain: seq<Option<ReferralInfo>>, delivered: seq<bool>, i: int)
    requires forall j :: 0 <= j < i ==> !SendFails(chain, delivered, j)
    requires SendFails(chain, delivered, i)
    ensures Reached(chain, delivered) == i + 1
  {
    var n := Reached(chain, delivered);
    if n < |chain| {
      assert SendFails(chain, delivered, n - 1);
    }
  }

  /** When every notification goes out, the whole chain is worked through. */
  lemma AllDeliveredReachesEnd(chain: seq<Option<ReferralInfo>>, delivered: seq<bool>)
    requires forall i :: 0 <= i < |delivered| ==> delivered[i]
    ensures Reached(chain, delivered) == |chain|
    ensures chain[..Reached(chain, delivered)] == chain
  {
  }

  /** A direct referrer whose notification fails (for example, they blocked
      the bot) is still credited, but their own referrer is not. */
  lemma {:induction false} FirstSendFailureStopsChain(users: map<int, User>, chain: seq<Option<ReferralInfo>>,
                                                      delivered: seq<bool>, amount: int)
    requires |chain| >= 1 && chain[0].Some? && |delivered| >= 1 && !delivered[0]
    ensures Reached(chain, delivered) == 1
    ensures CreditChain(users, chain[..Reached(chain, delivered)], amount)
            == Credited(users, chain[0].value.referral.referralId, Reward(amount, 0, chain[0].value.referral.rewardType))
  {
    assert SendFails(chain, delivered, 0);
    assert chain[..1][..0] == [];
    assert CreditChain(users, chain[..1][..0], amount) == users;
  }

  /** Two user tables with the same users, each with the same language. */
  ghost predicate SameLanguages(before: map<int, User>, after: map<int, User>) {
    before.Keys == after.Keys && forall id :: id in before ==> after[id].language == before[id].language
  }

  /** The complete `referral:<id>` hashes read back as the table's rows
      joined with the users' languages. */
  ghost predicate SoundFor(cached: map<int, map<string, Field>>, referrals: map<int, Referral>, users: map<int, User>) {
    forall k :: k in cached && CompleteHash(cached[k]) ==>
      k in referrals && ReadCachedReferral(cached[k]) == Some(ReferralInfo(referrals[k], JoinedLanguage(users, k)))
  }

  /** Changing balances only keeps the cached referrals sound. */
  lemma LanguagesKeepSound(cached: map<int, map<string, Field>>, referrals: map<int, Referral>,
                           before: map<int, User>, after: map<int, User>)
    requires SoundFor(cached, referrals, before) && SameLanguages(before, after)
    ensures SoundFor(cached, referrals, after)
  {
    forall k | k in cached && CompleteHash(cached[k])
      ensures ReadCachedReferral(cached[k]) == Some(ReferralInfo(referrals[k], JoinedLanguage(after, k)))
    {
      assert JoinedLanguage(after, k) == JoinedLanguage(before, k);
    }
  }

  /** One level of notify_referrers: credit the reward when select_user finds
      the referrer. */
  method CreditReferrer(repo: UserRepo, id: int, reward: int)
    requires repo.db.Valid()
    modifies repo.db`users, repo.cache`users
    ensures repo.db.Valid()
    ensures old(UsersCoherent(repo.db, repo.cache)) ==> UsersCoherent(repo.db, repo.cache)
    ensures old(UsersCoherent(repo.db, repo.cache)) && repo.db.reachable ==>
              repo.db.users == Credited(old(repo.db.users), id, reward)
    ensures !repo.db.reachable ==> repo.db.users == old(repo.db.users)
    ensures SameLanguages(old(repo.db.users), repo.db.users)
  {
    var user := repo.SelectUser(id);
    if user.Some? {
      var updated := repo.UpdateUser(id, None, Some(reward));
    }
  }

  /** notify_referrers: for each level of the chain that holds a referrer,
      credit that referrer's reward when select_user finds them, then notify
      them; a notification that raises ends the loop. */
  method NotifyReferrers(repo: UserRepo, chain: seq<Option<ReferralInfo>>, amount: int, delivered: seq<bool>)
    requires repo.db.Valid()
    modifies repo.db`users, repo.cache`users
    ensures repo.db.Valid()
    ensures old(UsersCoherent(repo.db, repo.cache)) ==> UsersCoherent(repo.db, repo.cache)
    ensures old(UsersCoherent(repo.db, repo.cache)) && repo.db.reachable ==>
              repo.db.users == CreditChain(old(repo.db.users), chain[..Reached(chain, delivered)], amount)
    ensures !repo.db.reachable ==> repo.db.users == old(repo.db.users)
    ensures SameLanguages(old(repo.db.users), repo.db.users)
  {
    var i := 0;
    while i < |chain|
      invariant 0 <= i <= |chain|
      invariant forall j :: 0 <= j < i ==> !SendFails(chain, delivered, j)
      invariant repo.db.Valid()
      invariant old(UsersCoherent(repo.db, repo.cache)) ==> UsersCoherent(repo.db, repo.cache)
      invariant old(UsersCoherent(repo.db, repo.cache)) && repo.db.reachable ==>
                  repo.db.users == CreditChain(old(repo.db.users), chain[..i], amount)
      invariant !repo.db.reachable ==> repo.db.users == old(repo.db.users)
      invariant SameLanguages(old(repo.db.users), repo.db.users)
    {
      assert chain[..i + 1][..i] == chain[..i];
      if chain[i].Some? {
        var referral := chain[i].value.referral;
        CreditReferrer(repo, referral.referralId, Reward(amount, i, referral.rewardType));
        if i < |delivered| && !delivered[i] {
          ReachedAtFailure(chain, delivered, i);
          return;  // bot.send_message raises
        }
      }
      i := i + 1;
    }
    assert chain[..|chain|] == chain;
  }

  /** Registering a user whose id has no referral row keeps the cached
      referrals sound: no complete hash can be for that id. */
  lemma SoundAfterRegistration(cached: map<int, map<string, Field>>, referrals: map<int, Referral>,
                               users: map<int, User>, id: int, row: Referral, user: User)
    requires SoundFor(cached, referrals, users)
    requires id !in referrals
    ensures SoundFor(cached, referrals[id := row], users[id := user])
  {
    forall k | k in cached && CompleteHash(cached[k])
      ensures k in referrals[id := row]
              && ReadCachedReferral(cached[k]) == Some(ReferralInfo(referrals[id := row][k], JoinedLanguage(users[id := user], k)))
    {
      assert k != id;
      assert JoinedLanguage(users[id := user], k) == JoinedLanguage(users, k);
    }
  }

  /** The lookups of handle_language_change: get_referral for a non-zero
      referrer, then for that referrer's own referrer when there is one. */
  method ReferrerChain(referrals: ReferralsRepo, referredBy: Option<int>) returns (chain: seq<Option<ReferralInfo>>)
    requires referrals.db.Valid()
    modifies referrals.cache`referrals
    ensures |chain| == 2
    ensures old(ReferralsCacheSound(referrals.db, referrals.cache)) ==> ReferralsCacheSound(referrals.db, referrals.cache)
    ensures old(ReferralsCacheSound(referrals.db, referrals.cache)) && referrals.db.reachable ==>
              chain == ChainOf(referrals.db.referrals, referrals.db.users, referredBy)
  {
    var first: Option<ReferralInfo> := None;
    var second: Option<ReferralInfo> := None;
    if referredBy.Some? && referredBy.value != 0 {
      first := referrals.GetReferral(referredBy.value);
      if first.Some? && first.value.referral.referredBy.Some? {
        second := referrals.GetReferral(first.value.referral.referredBy.value);
      }
    }
    chain := [first, second];
  }

  /** handle_language_change: register the user with the chosen language and
      referrer, look up the referrer and the referrer's referrer, then credit
      them — unless the registration failed, in which case the handler stops
      (it reads the id of a missing user) before anyone is credited. */
  method HandleLanguageChange(users: UserRepo, referrals: ReferralsRepo, chatId: int, langCode: string,
                              referredBy: Option<int>, amount: int, delivered: seq<bool>)
    returns (created: Option<User>, chain: seq<Option<ReferralInfo>>)
    requires users.db == referrals.db && users.cache == referrals.cache
    requires users.db.Valid()
    modifies users.db`users, users.db`referrals, users.cache`users, users.cache`referrals
    ensures users.db.Valid()
    ensures created.Some? <==>
              old(RegistrationAccepted(users.db.reachable, users.db.referrals, chatId, langCode, DefaultRewardType))
    ensures created.Some? ==>
              users.db.referrals == old(users.db.referrals)[chatId := Referral(chatId, referredBy, DefaultRewardType)]
    ensures created.None? ==> users.db.users == old(users.db.users) && users.db.referrals == old(users.db.referrals)
    ensures old(UsersCoherent(users.db, users.cache)) ==> UsersCoherent(users.db, users.cache)
    ensures old(ReferralsCacheSound(users.db, users.cache)) ==> ReferralsCacheSound(users.db, users.cache)
    ensures old(UsersCoherent(users.db, users.cache) && ReferralsCacheSound(users.db, users.cache) && users.db.reachable) ==>
              var registered := if created.Some? then old(users.db.users)[chatId := created.value] else old(users.db.users);
              && chain == ChainOf(users.db.referrals, registered, referredBy)
              && users.db.users
                 == (if created.Some? then CreditChain(registered, chain[..Reached(chain, delivered)], amount) else registered)
  {
    var db := users.db;
    var cache := users.cache;
    ghost var coherent := UsersCoherent(db, cache);
    ghost var sound := ReferralsCacheSound(db, cache);
    created := users.CreateUser(chatId, langCode, referredBy, DefaultRewardType);
    if sound && created.Some? {
      SoundAfterRegistration(cache.referrals, old(db.referrals), old(db.users), chatId,
                             Referral(chatId, referredBy, DefaultRewardType), created.value);
    }
    assert sound ==> ReferralsCacheSound(db, cache);
    ghost var registered := db.users;
    ghost var coherentNow := UsersCoherent(db, cache);
    assert coherent ==> coherentNow;
    chain := ReferrerChain(referrals, referredBy);
    assert db.users == registered;
    assert coherentNow ==> UsersCoherent(db, cache);
    if created.None? {
      return;  // new_user.user_id raises before notify_referrers runs
    }
    ghost var listed := cache.referrals;
    ghost var soundNow := ReferralsCacheSound(db, cache);
    NotifyReferrers(users, chain, amount, delivered);
    if soundNow {
      LanguagesKeepSound(listed, db.referrals, registered, db.users);
    }
  }

  // ------------------------------------------------------------- check_task

  /** What check_task decides once the task is found: whether it records a
      completion and whether it credits the task's balance. */
  datatype Decision = Decision(record: bool, credit: bool)

  function Decide(completed: bool, source: string, isMember: bool): (d: Decision)
    ensures completed ==> d == Decision(false, false)
    ensures d.record ==> d.credit && source == "t"
    ensures !completed && source != "t" ==> d == Decision(false, true)
    ensures !completed && source == "t" ==> d.credit == isMember
  {
    if completed then Decision(false, false)
    else if source == "t" then Decision(isMember, isMember)
    else Decision(false, true)
  }

  /** The two tables check_task writes. */
  datatype Tables = Tables(users: map<int, User>, userTasks: map<CompletionKey, bool>)

  /** check_task over tables the caches agree with: the completion is recorded
      for the user who pressed the button (when they are a registered user)
      and the balance credited to the chat. */
  function CheckTaskEffect(t: Tables, tasks: map<int, Task>, fromUser: int, chatId: int, taskId: int, isMember: bool)
    : (r: Tables)
    ensures taskId !in tasks ==> r == t
    ensures r.users.Keys == t.users.Keys
    ensures forall k :: k in t.users && k != chatId ==> r.users[k] == t.users[k]
    ensures forall k :: k in t.userTasks ==> k in r.userTasks && r.userTasks[k] == t.userTasks[k]
    ensures forall k :: k in r.userTasks && k !in t.userTasks ==> k == (fromUser, taskId)
    ensures (fromUser, taskId) in t.userTasks ==> r == t
  {
    if taskId !in tasks then t
    else
      var d := Decide((fromUser, taskId) in t.userTasks, tasks[taskId].source, isMember);
      Tables(
        if d.credit then Credited(t.users, chatId, tasks[taskId].balance) else t.users,
        if d.record && fromUser in t.users then t.userTasks[(fromUser, taskId) := DefaultStatus] else t.userTasks)
  }

  /** A Telegram task checked by a member who is a registered user is
      credited once: every later check changes nothing. */
  lemma TelegramTaskCreditedOnce(t: Tables, tasks: map<int, Task>, fromUser: int, chatId: int, taskId: int,
                                 later: bool)
    requires taskId in tasks && tasks[taskId].source == "t" && fromUser in t.users
    ensures var once := CheckTaskEffect(t, tasks, fromUser, chatId, taskId, true);
            CheckTaskEffect(once, tasks, fromUser, chatId, taskId, later) == once
  {
    var once := CheckTaskEffect(t, tasks, fromUser, chatId, taskId, true);
    if (fromUser, taskId) !in t.userTasks {
      assert (fromUser, taskId) in once.userTasks;
    }
  }

  /** A task from any other source records no completion, so checking it
      twice credits its balance twice. */
  lemma OtherSourceCreditedAgain(t: Tables, tasks: map<int, Task>, fromUser: int, chatId: int, taskId: int,
                                 isMember: bool)
    requires taskId in tasks && tasks[taskId].source != "t" && (fromUser, taskId) !in t.userTasks
    requires chatId in t.users && InInt32(t.users[chatId].balance + 2 * tasks[taskId].balance)
    requires InInt32(t.users[chatId].balance + tasks[taskId].balance)
    ensures var twice := CheckTaskEffect(CheckTaskEffect(t, tasks, fromUser, chatId, taskId, isMember),
                                         tasks, fromUser, chatId, taskId, isMember);
            && twice.userTasks == t.userTasks
            && twice.users[chatId].balance == t.users[chatId].balance + 2 * tasks[taskId].balance
  {
  }

  /** check_task: find the task, stop when the user completed it already;
      a Telegram task needs the membership oracle's yes and is then recorded
      as completed; the task's balance is credited to the chat, and the
      remaining tasks are listed again. */
  method CheckTask(tasksRepo: TaskRepository.TasksRepo, userTasks: UserTaskRepository.UserTaskRepo, users: UserRepo,
                   fromUser: int, chatId: int, taskId: int, locale: string, isMember: bool)
    returns (remaining: Option<seq<(int, string)>>)
    requires tasksRepo.db == users.db && userTasks.db == users.db && tasksRepo.cache == users.cache
    requires users.db.Valid()
    modifies users.cache`tasks, users.db`userTasks, users.db`users, users.cache`users
    ensures users.db.Valid()
    ensures old(UsersCoherent(users.db, users.cache)) ==> UsersCoherent(users.db, users.cache)
    ensures old(TaskRepository.TasksCoherent(users.db, users.cache)) ==> TaskRepository.TasksCoherent(users.db, users.cache)
    ensures old(UsersCoherent(users.db, users.cache) && TaskRepository.TasksCoherent(users.db, users.cache)
                && users.db.reachable) ==>
              Tables(users.db.users, users.db.userTasks)
              == CheckTaskEffect(old(Tables(users.db.users, users.db.userTasks)), users.db.tasks,
                                 fromUser, chatId, taskId, isMember)
    ensures remaining.Some? && users.db.reachable ==>
              UserTaskRepository.PairIds(remaining.value) == UserTaskRepository.IncompleteIds(users.db.tasks, users.db.userTasks, chatId)
  {
    var task := tasksRepo.GetTaskById(taskId, locale);
    if task.None? {
      return None;  // "task not found"
    }
    var settled := Settle(userTasks, users, fromUser, chatId, taskId, task.value.Source(), task.value.Balance(), isMember);
    if settled {
      var listed := userTasks.GetIncompleteTasks(chatId, locale);
      remaining := Some(listed);
    } else {
      remaining := None;
    }
  }

  /** The part of check_task after the task was found, given its source and
      balance: the completion test, the membership decision, the completion
      insert and the credit. `settled` is false when the handler stops early. */
  method Settle(userTasks: UserTaskRepository.UserTaskRepo, users: UserRepo, fromUser: int, chatId: int, taskId: int,
                source: string, balance: int, isMember: bool)
    returns (settled: bool)
    requires userTasks.db == users.db
    requires users.db.Valid()
    modifies users.db`userTasks, users.db`users, users.cache`users
    ensures users.db.Valid()
    ensures old(UsersCoherent(users.db, users.cache)) ==> UsersCoherent(users.db, users.cache)
    ensures old(UsersCoherent(users.db, users.cache) && users.db.reachable)
            && taskId in users.db.tasks && source == users.db.tasks[taskId].source && balance == users.db.tasks[taskId].balance
            ==> Tables(users.db.users, users.db.userTasks)
                == CheckTaskEffect(old(Tables(users.db.users, users.db.userTasks)), users.db.tasks,
                                   fromUser, chatId, taskId, isMember)
  {
    var done := userTasks.IsTaskCompleted(fromUser, taskId);
    if done {
      return false;  // "already completed"
    }
    if source == "t" {
      if isMember {
        var recorded := userTasks.CompleteTask(fromUser, taskId);
      } else {
        return false;  // "not completed"
      }
    }
    var updated := users.UpdateUser(chatId, None, Some(balance));
    settled := true;
  }

  // -------------------------------------------------------- change_language

  /** The language the toggle switches to: "en" from "ru", "ru" from anything else. */
  function Toggle(locale: string): (r: string)
    ensures r in {"en", "ru"}
    ensures r != locale
    ensures FitsLanguage(r)
  {
    if locale == "ru" then "en" else "ru"
  }

  /** Toggling twice from one of the two languages comes back to it. */
  lemma ToggleTwice(locale: string)
    requires locale in {"en", "ru"}
    ensures Toggle(Toggle(locale)) == locale
  {
  }

  /** change_language: store the toggled language; the balance is untouched. */
  method ChangeLanguage(repo: UserRepo, chatId: int, locale: string) returns (r: Option<User>)
    requires repo.db.Valid()
    modifies repo.db`users, repo.cache`users
    ensures repo.db.Valid()
    ensures old(UsersCoherent(repo.db, repo.cache)) ==> UsersCoherent(repo.db, repo.cache)
    ensures r.Some? ==>
              && chatId in old(repo.db.users)
              && r.value == old(repo.db.users[chatId]).(language := Toggle(locale))
              && repo.db.users == old(repo.db.users)[chatId := r.value]
    ensures r.None? ==> repo.db.users == old(repo.db.users)
    ensures old(UsersCoherent(repo.db, repo.cache)) ==>
              (r.Some? <==> repo.db.reachable && chatId in old(repo.db.users))
  {
    r := repo.UpdateUser(chatId, Some(Toggle(locale)), None);
  }
}
