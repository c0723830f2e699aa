/** The four relational entities with their column defaults and widths
    (the model classes under infrastructure/database/models). */
module Schema {
  import opened Common

  /** users.balance defaults to 1000 and users.language to 'en'. */
  const DefaultBalance: int := 1000
  const DefaultLanguage: string := "en"
  /** referrals.reward_type defaults to 1. */
  const DefaultRewardType: int := 1
  /** users.language is a VARCHAR(10). */
  const LanguageWidth: nat := 10

  predicate FitsLanguage(language: string) {
    |language| <= LanguageWidth
  }

  /** A row of `users`; `user_id` is the primary key and is assigned by the chat platform. */
  datatype User = User(userId: int, balance: int, language: string)

  /** A row of `referrals`: the referred user's own id is the primary key,
      `referredBy` is the nullable id of whoever referred them. */
  datatype Referral = Referral(referralId: int, referredBy: Option<int>, rewardType: int)

  /** A row of `tasks`; titles and descriptions map a locale to text. */
  datatype Task = Task(
    taskId: int,
    titles: map<string, string>,
    descriptions: Option<map<string, string>>,
    source: string,
    link: string,
    cover: Option<string>,
    balance: int)

  /** The fields an administrator supplies for a new task (the id comes from the sequence). */
  datatype TaskFields = TaskFields(
    titles: map<string, string>,
    descriptions: Option<map<string, string>>,
    source: string,
    link: string,
    cover: Option<string>,
    balance: int)

  /** The composite primary key (user_id, task_id) of `user_tasks`. */
  type CompletionKey = (int, int)

  /** user_tasks.status defaults to False. */
  const DefaultStatus: bool := false
}
