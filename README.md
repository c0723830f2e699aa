# Referral-rewards bot: cache-through repositories and crediting rules

This project models the core of a Telegram bot that pays users for inviting
friends and for completing tasks, and proves properties of that model.

- **Stores.** A relational database holds four tables: users, referrals,
  tasks and user_tasks (completions). A key-value cache sits in front of it.
- **Repositories.** Each repository reads through the cache and writes to
  both stores:
  - users: registration, lookup, balance update, leaderboard, bulk insert.
  - tasks: create, read, update, delete, list.
  - referrals: a user's direct referrals, first- and second-level counts,
    and one referral record joined with its user's language.
  - completions: incomplete tasks, recording a completion, the completion test.
- **Handlers** (tgbot/handlers/user.py):
  - The referral reward tiers, and the chain of referrers credited when a new
    user picks a language.
  - The crediting decision of the task check.
  - The language toggle.
- **funcs.py helpers.** The task-source name taken from a link, and the
  syntactic part of the URL check.

Layout, one module per file:

- `common.dfy` (`Common`): Option, 32-bit bounds, truncating division,
  distinct sequences, enumerating a finite set.
- `schema.dfy` (`Schema`): the rows and their column defaults. A new user
  gets balance 1000 and language "en". A referral gets reward type 1. A
  completion gets status false.
- `storage.dfy` (`Storage`): the two stores.
  - `Db` holds the four tables as maps, the task-id sequence, and a
    `reachable` flag. When the flag is false, every statement raises.
  - `Cache` holds one map per family of cache keys.
- `user_repo.dfy` (`UserRepository`), `tasks_repo.dfy` (`TaskRepository`),
  `referrals_repo.dfy` (`ReferralRepository`), `user_tasks_repo.dfy`
  (`UserTaskRepository`): one class per repository. Its methods update the
  stores' fields in place.
- `user_handlers.dfy` (`UserHandlers`), `funcs.dfy` (`Funcs`).

Each repository method is specified twice.

1. Its exact effect holds for any cache contents, whether cold, warm or
   stale. For example, a cache hit answers from the cache and never reads
   the table.
2. Each cache family has a coherence predicate saying the cache mirrors the
   table: `UsersCoherent`, `TasksCoherent`, `ReferralListsSound`,
   `BreakdownsSound` and `ReferralsCacheSound`. Each method preserves the
   predicates its contract names. Under a predicate, the reads of that cache
   answer what the table holds. The exception is `get_referrals_by_user`,
   which as written answers only the first two thirds of a cached list (see
   "## Findings").
   Writes to one table do not refresh the caches derived from it in other
   repositories. Those caches go stale, as "## Left out" says.

A failure of the store is the `reachable` flag. The model rolls back to the
old state and returns the source's fallback value: None, False, an empty
list or (0, 0).

The code behaves as follows in these places, and the model does the same:

- `create_user` (infrastructure/database/repo/users.py:21-57) runs in one
  transaction. The user insert updates the language on conflict, but the
  referral insert has no conflict clause. So registering an id that already
  has a referral row rolls back everything, including the language change,
  and the result is None.
- `complete_task` (infrastructure/database/repo/user_tasks.py:57-81) is
  documented as marking the task complete (line 59). It inserts the pair
  without a status, so the row holds the column default, false.
- `batch_create_users` (infrastructure/database/repo/users.py:182-203) writes
  the cache hashes only after the bulk insert has committed. When the insert
  fails, nothing is cached.
- The reward rates (tgbot/handlers/user.py:90 and 93) test `reward_type == 1`.
  The comments there name the higher rate for reward type 2, but the code
  gives it to every reward type other than 1.
- On a cache miss, `get_task_by_id` returns the stored task unprojected,
  with all its titles and descriptions. Only a cache hit projects them for
  the locale. `TaskResult` keeps the two shapes apart.

Further consequences the model makes explicit:

- `check_task` records the completion for the user who pressed the button,
  `from_user`, but credits the chat, `chat.id`. In a private chat these are
  the same id.
- A referral without a referrer is cached with an empty `referred_by`, so
  it is never served from the cache (`RootReferralNeverServed`).
- A user who registers with their own id as referrer is credited as their
  own first- and second-level referrer (`SelfReferralCreditsTwice`).
- `check_task` never records a completion for a task whose source is not
  `t`, so each check credits it again (`OtherSourceCreditedAgain`).

## Model

| member | source | states |
|---|---|---|
| UserRepository.LookupCoherent | infrastructure/database/repo/users.py:59-84 | with a coherent cache, select_user answers the table row for an existing user (from the cache or the table) and nothing for a missing one |
| UserRepository.UserRepo.CreateUser | infrastructure/database/repo/users.py:21-57 | succeeds exactly when the store answers, the language fits String(10), the reward type fits the column and the id has no referral row; then the user is upserted (a new user gets the default balance, an existing one only the new language), the referral row (id, referred_by, reward_type) is inserted and `user:<id>` holds the returned row; otherwise tables and cache are unchanged and the result is None; cache coherence is kept |
| UserRepository.UserRepo.SelectUser | infrastructure/database/repo/users.py:59-84 | a cache hit returns the cached fields without reading the table; a miss returns the row or None, and caches the row only when one was found, so absence is never cached |
| UserRepository.UserRepo.UpdateUser | infrastructure/database/repo/users.py:86-125 | None with the table unchanged when select_user finds nobody or the UPDATE raises or matches no row; when select_user finds nobody the cache is unchanged too, and after a failed UPDATE the only cache change is the `user:<id>` hash select_user wrote from the row; otherwise the stored balance is the balance select_user returned plus the delta (unchanged without one), the language changes only when given, `user:<id>` equals the returned row, and no other hash changes |
| UserRepository.WithRowsFits | infrastructure/database/repo/users.py:182-188 | a bulk insert of rows that fit their columns keeps every row of the table fitting and removes no user |
| UserRepository.WithRowsCoherent | infrastructure/database/repo/users.py:190-200 | writing one `user:<id>` hash per inserted row keeps the users cache coherent with the table |
| UserRepository.UserRepo.BatchCreateUsers | infrastructure/database/repo/users.py:182-203 | when the bulk insert is accepted, the table gains exactly the rows and the cache one hash per row, in order; otherwise neither store changes |
| UserRepository.PlaceIn | infrastructure/database/repo/users.py:136 | the place of the first leaderboard entry for the user, and nothing exactly when the user is not listed |
| UserRepository.UserRepo.QueryTopUsers | infrastructure/database/repo/users.py:138-153 | the leaderboard holds min(5, #users) entries with places 1..n, each a user with its balance, no user twice, balances non-increasing, and no unlisted user above a listed one |
| UserRepository.ListedPlaceAndRank | infrastructure/database/repo/users.py:159-171 | a listed user's place is never better than 1 + the number of users with a strictly greater balance, and equals it when balances are distinct |
| UserRepository.UserRepo.SelectLeaderboard | infrastructure/database/repo/users.py:127-180 | a non-empty cached list is used as it is, otherwise the top-5 query is cached; the place comes from the list, else the cached rank, else the rank query, which is then cached; a failing query gives an empty list and no place |
| TaskRepository.ProjectTitle | infrastructure/database/repo/tasks.py:184 | the locale's title when present and non-empty, else the English title when present, else "No title available"; always one of the titles or the placeholder |
| TaskRepository.ProjectDescription | infrastructure/database/repo/tasks.py:183-185 | the locale's description exactly when the descriptions mapping has that locale, with no English fallback |
| TaskRepository.DeserializeSerialize | infrastructure/database/repo/tasks.py:155-195 | reading back a serialized task yields its id, source, link, balance and the projection of its own titles and descriptions; a missing cover comes back as '' |
| TaskRepository.TitleFallback | infrastructure/database/repo/tasks.py:184 | a locale without its own title reads back the English title, or the placeholder when there is none |
| TaskRepository.WithoutTask | infrastructure/database/models/user_tasks.py:9 | deleting a task removes every completion of that task and keeps every other completion with its status (ON DELETE CASCADE) |
| TaskRepository.Views | infrastructure/database/repo/tasks.py:131-132 | a cached list is returned entry by entry, in its order: each entry a projected view with the cached id, source, link and balance and the title for "en" (else the placeholder) |
| TaskRepository.WarmListingListsTable | infrastructure/database/repo/tasks.py:129-132 | a coherent cached list lists every task once with its own source, link and balance |
| TaskRepository.ScanListsTable | infrastructure/database/repo/tasks.py:134-141 | a full scan lists every task once, with its own source, link and balance |
| TaskRepository.ScanCachesTable | infrastructure/database/repo/tasks.py:138-139 | the serializations of a full scan form a `tasks:all` list that mirrors the table |
| TaskRepository.TasksRepo.CacheTask | infrastructure/database/repo/tasks.py:146-153 | `task:<id>` holds the task's serialization and no other hash changes |
| TaskRepository.TasksRepo.CreateTask | infrastructure/database/repo/tasks.py:19-41 | on success the task gets the next id, is added to the table, `task:<id>` holds its serialization and `tasks:all` is removed; on a database error nothing changes and the result is None |
| TaskRepository.TasksRepo.GetTaskById | infrastructure/database/repo/tasks.py:43-67 | a hit returns the cached hash projected for the locale without reading the table; a miss returns the stored task unprojected and caches it, or None with nothing cached; under coherence the answer has the table's id, source, link and balance |
| TaskRepository.TasksRepo.UpdateTask | infrastructure/database/repo/tasks.py:69-95 | only when a row matched: the patched row is stored, re-cached and `tasks:all` removed; with no match or an error nothing changes and the result is None |
| TaskRepository.TasksRepo.DeleteTask | infrastructure/database/repo/tasks.py:97-119 | true whenever the DELETE runs, even when no row matched; the row and its completions go, and `task:<id>` and `tasks:all` are always evicted |
| TaskRepository.TasksRepo.QueryAllTasks | infrastructure/database/repo/tasks.py:134-136 | the scan returns every row of the table once |
| TaskRepository.TasksRepo.ListTasks | infrastructure/database/repo/tasks.py:121-144 | a cached list is returned projected for "en"; on a miss every row is returned and `tasks:all` is set to their serializations; under coherence both list exactly the table |
| TaskRepository.UpdateThenRead | infrastructure/database/repo/tasks.py:82-89 | after a successful update the list cache is gone and a read by id serves the new row projected for the locale |
| ReferralRepository.EncodeFields | infrastructure/database/repo/referrals.py:33-36 | the cached list holds `referral_id:<i>` and `reward_type:<i>` for exactly the indexes of the rows, with that row's values |
| ReferralRepository.EncodeSize | infrastructure/database/repo/referrals.py:33-36 | n referrals are cached as 2n fields |
| ReferralRepository.DecodeFirstEncode | infrastructure/database/repo/referrals.py:23-26 | reading the first k cached referrals gives back exactly the first k rows |
| ReferralRepository.DecodeEncode | infrastructure/database/repo/referrals.py:17-41 | with the writer's stride of two fields per referral, a cached list reads back as the list written |
| ReferralRepository.AsWrittenStrideLosesReferrals | infrastructure/database/repo/referrals.py:26 | with the stride as written (len // 3), n cached referrals read back as the first floor(2n/3), so every non-empty list loses referrals |
| ReferralRepository.CachedScanReadAsWritten | infrastructure/database/repo/referrals.py:22-26 | a cached list that encodes a scan reads back, with the stride as written, as referrals of the user, none twice, floor(2n/3) of the n there are |
| ReferralRepository.AsWrittenSingleReferral | infrastructure/database/repo/referrals.py:26 | one cached referral reads back as none |
| ReferralRepository.SecondLevelSum | infrastructure/database/repo/referrals.py:93-96 | the second-level count equals the sum, over the first-level ids, of the referrals each made |
| ReferralRepository.SecondLevelSplit | infrastructure/database/repo/referrals.py:93-96 | the referrals made by one first-level id and by the others are disjoint |
| ReferralRepository.TwoByThree | infrastructure/database/repo/referrals.py:57-64 | two direct referrals with three referrals each give the counts (2, 6) |
| ReferralRepository.JoinedLanguage | infrastructure/database/repo/referrals.py:121-136 | the outer join's language is never empty: the user's own language when it is non-empty, else "en" |
| ReferralRepository.RootReferralNeverServed | infrastructure/database/repo/referrals.py:110 | a referral without a referrer is cached with an empty referred_by, so its entry never passes the completeness test |
| ReferralRepository.CachedReferralRoundTrip | infrastructure/database/repo/referrals.py:110-117 | a referral with a referrer, once cached, reads back as the referral and language written |
| ReferralRepository.ReferralsRepo.QueryReferralsBy | infrastructure/database/repo/referrals.py:28-30 | the query returns each referral whose referred_by is the user, once |
| ReferralRepository.ScanSize | infrastructure/database/repo/referrals.py:28-30 | a scan of the user's referrals holds exactly as many rows as the user has direct referrals |
| ReferralRepository.ReferralsRepo.GetReferralsByUser | infrastructure/database/repo/referrals.py:17-44 | a cached list is decoded with the stride as written, `len // 3` records (a missing field gives []); on a miss exactly the user's referrals are returned and cached, two fields each, only when there are some; [] when the store fails; a sound cached list of n referrals answers floor(2n/3) of the user's referrals, none twice, so any non-empty list loses at least one |
| ReferralRepository.ReferralsRepo.CountDirectReferrals | infrastructure/database/repo/referrals.py:83-86 | the number of referrals whose referred_by is the user |
| ReferralRepository.ReferralsRepo.GetDirectReferralIds | infrastructure/database/repo/referrals.py:88-91 | the ids of those referrals, each once, as many as the direct count |
| ReferralRepository.ReferralsRepo.CountSecondReferrals | infrastructure/database/repo/referrals.py:93-96 | the number of referrals whose referred_by is among the given ids |
| ReferralRepository.ReferralsRepo.CountReferralsByUser | infrastructure/database/repo/referrals.py:46-81 | a cached pair is returned (a missing field counts 0); a miss computes the direct count and the second-level count (0 with no query when there are no direct referrals) and caches the pair; (0, 0) when the store fails |
| ReferralRepository.ReferralsRepo.GetReferral | infrastructure/database/repo/referrals.py:98-154 | a cached hash is trusted only when all four fields are present and not ''/'None'; otherwise the row with its joined language is returned and merged into the hash, or None when there is no row; a sound cache stays sound and answers the table |
| UserTaskRepository.IncompleteIdsOf | infrastructure/database/repo/user_tasks.py:36-50 | the ids listed are exactly the ids of the rows without a completion |
| UserTaskRepository.IncompleteEntries | infrastructure/database/repo/user_tasks.py:38-50 | each listed entry is a task without a completion, paired with its title for the locale |
| UserTaskRepository.IncompleteDistinct | infrastructure/database/repo/user_tasks.py:29-39 | rows with distinct ids give each incomplete task once |
| UserTaskRepository.UserTaskRepo.QueryTaskTitles | infrastructure/database/repo/user_tasks.py:27-29 | the scan returns every task's id and titles once |
| UserTaskRepository.UserTaskRepo.GetIncompleteTasks | infrastructure/database/repo/user_tasks.py:17-55 | exactly the tasks the user has no completion for, each once, with the locale's title, else the English title, else the placeholder; [] when the store fails |
| UserTaskRepository.UserTaskRepo.CompleteTask | infrastructure/database/repo/user_tasks.py:57-81 | true exactly when the store answers, the pair has no row and the user and task exist; then exactly that pair is inserted with status false; otherwise nothing changes |
| UserTaskRepository.UserTaskRepo.IsTaskCompleted | infrastructure/database/repo/user_tasks.py:83-97 | true iff the store answers and a row for the pair exists |
| UserTaskRepository.CompleteTwice | infrastructure/database/repo/user_tasks.py:66-77 | a second completion of the same pair returns false and leaves the row as the first call wrote it |
| UserHandlers.PerMille | tgbot/handlers/user.py:88-93 | the rate is one of 10%, 15%, 5% and 7.5%; the lower tier exactly for reward type 1, the first two exactly at level 0 |
| UserHandlers.RewardTiers | tgbot/handlers/user.py:88-93 | further levels get half the direct rate; the higher tier is 1.5 times the lower one |
| UserHandlers.Reward | tgbot/handlers/user.py:98 | the reward is amount × rate truncated toward zero: for a non-negative amount it lies between 0 and the amount and is the floor of the exact product |
| UserHandlers.Credited | tgbot/handlers/user.py:99-101 | the user's balance grows by the amount when the user exists and the sum fits the column; no other user changes |
| UserHandlers.TableReferral | tgbot/handlers/user.py:114-116 | the referrer found is the table's referral row with its joined language, and exists exactly when the row does |
| UserHandlers.ChainOf | tgbot/handlers/user.py:110-121 | two entries; none without a non-zero referrer; level 0 is the referrer's row; level 1 is looked up only when level 0 was found and names a referrer |
| UserHandlers.CreditChainFrame | tgbot/handlers/user.py:79-103 | crediting a chain adds no user, changes nobody outside the chain, and with a non-negative amount lowers no balance |
| UserHandlers.NoReferrerNoCredit | tgbot/handlers/user.py:113-126 | with no referrer nobody is credited |
| UserHandlers.DirectReferrerCredit | tgbot/handlers/user.py:113-126 | a referrer with no referrer of its own receives exactly the level-0 reward and nobody else is credited |
| UserHandlers.SelfReferralCreditsTwice | tgbot/handlers/user.py:111-126 | a new user naming their own id as referrer is credited both the level-0 and the level-1 reward |
| UserHandlers.ReachedFrom | tgbot/handlers/user.py:78-103 | from a given level on, the levels worked through end right after the first level holding a referrer whose notification raises, or at the end of the chain |
| UserHandlers.Reached | tgbot/handlers/user.py:78-103 | notify_referrers works through the levels up to and including the first failed notification, and through the whole chain when none fails |
| UserHandlers.ReachedAtFailure | tgbot/handlers/user.py:103 | when level i is the first whose notification raises, exactly levels 0..i are worked through |
| UserHandlers.AllDeliveredReachesEnd | tgbot/handlers/user.py:78-103 | when every notification goes out, the whole chain is credited |
| UserHandlers.FirstSendFailureStopsChain | tgbot/handlers/user.py:97-103 | a direct referrer whose notification raises is still credited, but their own referrer is not |
| UserHandlers.CreditReferrer | tgbot/handlers/user.py:97-101 | one level: with a coherent users cache and a reachable store the referrer's balance grows by the reward exactly as Credited says; nothing changes when the store fails; languages are untouched |
| UserHandlers.NotifyReferrers | tgbot/handlers/user.py:75-103 | with a coherent users cache, each chain entry credits its referral id with the reward of its level and type when select_user finds the user, up to and including the first level whose notification raises, after which the loop ends; nothing changes when the store fails; languages are untouched |
| UserHandlers.ReferrerChain | tgbot/handlers/user.py:113-121 | with a sound referral cache and a reachable store, the lookups return the chain of the table |
| UserHandlers.HandleLanguageChange | tgbot/handlers/user.py:106-130 | registration as create_user; when it fails nobody is credited; otherwise the chain is looked up after the new referral row exists and credited through notify_referrers up to the first failed notification; the users and referral-record caches stay coherent |
| UserHandlers.Decide | tgbot/handlers/user.py:194-218 | an already completed task records and credits nothing; a `t` task is recorded and credited exactly when the membership oracle says yes; any other source is credited and never recorded |
| UserHandlers.CheckTaskEffect | tgbot/handlers/user.py:175-218 | a missing or already completed task changes nothing; only the chat's balance and the (user, task) completion can change |
| UserHandlers.TelegramTaskCreditedOnce | tgbot/handlers/user.py:194-213 | after a member's successful check of a `t` task, every later check changes nothing |
| UserHandlers.OtherSourceCreditedAgain | tgbot/handlers/user.py:215-218 | checking a task of another source twice credits its balance twice and records no completion |
| UserHandlers.CheckTask | tgbot/handlers/user.py:175-224 | with coherent caches and a reachable store, the tables change exactly as CheckTaskEffect says; the remaining tasks listed afterwards are the chat's incomplete tasks |
| UserHandlers.Settle | tgbot/handlers/user.py:194-218 | the completion test, the membership decision, the insert and the credit together have the effect CheckTaskEffect describes |
| UserHandlers.Toggle | tgbot/handlers/user.py:254 | the new language is "en" or "ru" and always differs from the current locale |
| UserHandlers.ToggleTwice | tgbot/handlers/user.py:254 | toggling twice from "en" or "ru" returns to it |
| UserHandlers.ChangeLanguage | tgbot/handlers/user.py:251-257 | when a user is returned, it existed, its stored row is the old row with the toggled language (balance untouched) and no other row changes; when none is returned the users table is unchanged; the users cache stays coherent |
| Funcs.FirstOf | funcs.py:25 | the index of the first stop character, with none before it, or the length when there is none |
| Funcs.SplitScheme | funcs.py:18 | a scheme is a run of scheme characters that starts with a letter and ends at the first ':'; without one the remainder is the whole URL |
| Funcs.SplitSchemeOf | funcs.py:18 | every URL of the form scheme ":" rest, with such a scheme, splits into exactly that scheme and rest; with SplitScheme this makes "has a scheme" an if-and-only-if |
| Funcs.Netloc | funcs.py:19 | the network location is empty unless the remainder starts with "//"; after "//" it is the longest prefix of the rest without '/', '?' or '#' (it ends at the end or just before one of them) |
| Funcs.StripWww | funcs.py:22-23 | exactly one leading "www." is removed when present |
| Funcs.StripWwwOnce | funcs.py:22-23 | a host starting "www.www." keeps its second "www." |
| Funcs.GetLinkSource | funcs.py:8-25 | the source has no '.', is a prefix of the host without "www.", is the whole host when the host has no '.', and otherwise stops just before the first '.' |
| Funcs.HttpsScheme | funcs.py:18 | a URL starting "https:" has scheme "https" |
| Funcs.NetlocBeforePath | funcs.py:19 | after "//", the host runs up to the next '/' |
| Funcs.TelegramLinkSource | funcs.py:8-25 | every `https://t.me/...` link has source "t", the source check_task treats as a Telegram channel |
| Funcs.IsValidUrl | funcs.py:28-51 | never valid when the scheme or the network location is empty |

## Left out

- Time is not modelled. Cache expiry (`expire`, `setex`, the 24-hour TTL)
  and pipelines are out. Every property holds for any cache contents, and
  eviction is just another cache state.
- Concurrency is not modelled. async/await interleaving, lost updates and
  check-then-insert races are out: each repository call is one atomic step.
- Cache failures are not modelled. Only the database can fail, through
  `Db.reachable`. A Redis error is not caught by the task and completion
  repositories and would propagate to the handler.
- Stored text encodings are not modelled. JSON text, Redis string encoding
  and the int/text typing of hash fields are out. Titles and descriptions
  are kept as maps and assumed to round-trip. The cached task balance is a
  number, where Redis returns text that `check_task` converts with `int()`.
- Descriptions with no value are not modelled. `_serialize_task` produces
  `None` for missing descriptions, and the Redis client refuses None hash
  values. The model simply leaves the field out.
- Ids consumed by failed inserts are not modelled. A failed `create_task`
  leaves the id sequence where it was.
- An UPDATE with nothing to SET is modelled as a database error. This
  applies to `update_user` with neither field and `update_task` with an
  empty patch.
- `TaskRepository.TaskPatch`: update_task's free-form keyword dictionary
  is modelled as optional values for the six task columns. Unknown keys
  and type errors are not modelled.
- `UserRepository.UserRepo.SelectLeaderboard`: the store orders rows with
  equal balances arbitrarily. The model picks one highest-balance row at a
  time and proves the properties every order shares.
- `UserTaskRepository.UserTaskRepo.GetIncompleteTasks`: undecodable titles
  are not modelled, because titles are maps by typing. So the "decoding
  error gives the placeholder" path does not arise.
- `UserHandlers.Reward`: the float rates 0.1, 0.15, 0.05 and 0.075 are
  modelled as exact thousandths, truncated toward zero. Float rounding of
  the product is not claimed for every amount.
- `UserHandlers.NotifyReferrers`, `UserHandlers.HandleLanguageChange`:
  the credits are stated only when the caches agree with the tables and
  the store answers. For arbitrary cache contents, only validity and frame
  properties are stated.
  - The text of the Telegram messages is left out, and so are the
    notification language and `new_user_id`, which only go into the message.
    Whether each `send_message` raises is an oracle (`delivered`), and a
    raising send ends the loop after that level's credit.
  - The chain entries always carry "referral" when present, so the
    `"referral" in referrer_info` test is always true.
  - The referrer id arrives already parsed; a non-numeric deep-link
    argument, where `int()` raises, is not modelled.
  - Level 1 looked up with `referred_by = None` finds nothing. The model
    skips that lookup, which changes nothing and returns None.
- `UserHandlers.CheckTask`, `UserHandlers.Settle`: the effect on the tables
  is stated only when the caches agree with the tables and the store
  answers.
  - Channel membership (`check_user_membership`) is a boolean oracle.
  - The channel name cut from the link is not modelled.
  - Chat answers and the media update are left out.
- `Funcs.SplitScheme`, `Funcs.Netloc`: only the scheme and network-location
  rules of `urlparse` are modelled. These are out: lower-casing of the
  scheme, stripping of control characters, bracket validation and the path,
  query and fragment.
- Writes leave other repositories' caches stale until they expire. A
  registration adds a referral row but leaves `referrals_by_user:<id>`
  and `referral_breakdown:<id>` of the referrer as they were. A language
  change leaves the language in the `referral:<id>` records. So
  `ReferralListsSound` and `BreakdownsSound` are not kept by `create_user`,
  and `ReferralsCacheSound` is not kept by `change_language`. The contracts
  claim only the predicates they name.
- `Funcs.IsValidUrl`: the HTTP HEAD request is a parameter (`headOk`).
  Network errors and the `ValueError` path appear only as that parameter
  being false.
- The rest of the repository is not part of this model: the admin wizard,
  keyboards, bot start-up, middlewares, filters, the echo handler and the
  thin Redis and repository wrappers.

## Findings

| source | as written | input that shows it | evidently intended | confidence | as-written member | corrected member |
|---|---|---|---|---|---|---|
| infrastructure/database/repo/referrals.py:26 | the cached referral list is read back as `len(hash) // 3` records, while the writer (lines 34-36) stores two fields per referral | a user with one referral: the cache holds 2 fields, and a cached read returns `2 // 3 = 0` referrals instead of 1 | read back `len(hash) // 2` records, one per referral written | high, not executed | ReferralRepository.AsWrittenStrideLosesReferrals | ReferralRepository.DecodeEncode |

`ReferralRepository.ReferralsRepo.GetReferralsByUser` models the read as
written. `DecodeReferrals` with `DecodeEncode` is the corrected read, the
one the writer's layout calls for.
