/** The two stores the repositories work on: the relational database (four
    tables) and the key-value cache (one map per family of cache keys). */
module Storage {
  import opened Common
  import opened Schema

  /** The hash at `user:<id>`: the three fields the user repository writes. */
  datatype UserHash = UserHash(userId: int, language: string, balance: int)

  /** The hash at `task:<id>`. Titles and descriptions are kept as maps, standing
      for their JSON text; a missing cover is stored as the empty string. */
  datatype TaskHash = TaskHash(
    taskId: int,
    titles: map<string, string>,
    source: string,
    link: string,
    cover: string,
    descriptions: Option<map<string, string>>,
    balance: int)

  /** One element of the JSON list at `leaderboard:top5`. */
  datatype Entry = Entry(userId: int, place: int, balance: int)

  /** The field names of a `referrals_by_user:<id>` hash: `referral_id:<i>` and `reward_type:<i>`. */
  datatype RefField = ReferralIdAt(i: nat) | RewardTypeAt(i: nat)

  /** A value in a `referral:<id>` hash: a number written with str(), or text. */
  datatype Field = Num(n: int) | Text(s: string)

  /** The relational store. `reachable` is the connection: when it is false,
      every statement raises. */
  class Db {
    var users: map<int, User>
    var referrals: map<int, Referral>
    var tasks: map<int, Task>
    var userTasks: map<CompletionKey, bool>
    var nextTaskId: int
    var reachable: bool

    /** What the schema guarantees of every state: primary keys agree with the
        keys of the maps, the autoincrement sequence is ahead of every task id,
        column widths hold, and completions reference existing users and tasks. */
    ghost predicate Valid()
      reads this
    {
      && (forall id :: id in users ==>
            users[id].userId == id && InInt32(users[id].balance) && FitsLanguage(users[id].language))
      && (forall id :: id in referrals ==>
            referrals[id].referralId == id && InInt32(referrals[id].rewardType))
      && (forall id :: id in tasks ==> tasks[id].taskId == id && id < nextTaskId && InInt32(tasks[id].balance))
      && (forall k :: k in userTasks ==> k.0 in users && k.1 in tasks)
    }
  }

  /** The key-value cache, one field per family of keys. */
  class Cache {
    /** `user:<id>` */
    var users: map<int, UserHash>
    /** `user:<id>:rank` */
    var ranks: map<int, int>
    /** `leaderboard:top5` */
    var leaderboard: Option<seq<Entry>>
    /** `task:<id>` */
    var tasks: map<int, TaskHash>
    /** `tasks:all` */
    var tasksAll: Option<seq<TaskHash>>
    /** `referral:<id>` */
    var referrals: map<int, map<string, Field>>
    /** `referrals_by_user:<id>` */
    var referralsByUser: map<int, map<RefField, int>>
    /** `referral_breakdown:<id>` */
    var breakdowns: map<int, map<string, int>>
  }
}
