/** Values shared by every part of the Join Hider bot model: the rows of the
    three SQLite tables, the broadcast target class, the kinds of chat and the
    process-wide configuration (bot identity and owner identity). */
module Records {

  datatype Option<+T> = None | Some(value: T)

  /** Python truthiness of an optional text: `None` and `""` are both falsy. */
  predicate Truthy(s: Option<string>) {
    s.Some? && s.value != ""
  }

  /** `datetime.now().isoformat()` values. Isoformat strings of one format sort
      lexicographically in time order, so a number stands for them here. */
  type Timestamp = nat

  /** A row of the `chats` table: (chat_id, chat_title, added_date). */
  datatype Group = Group(id: int, title: string, addedDate: Timestamp)

  /** A row of the `users` table: (user_id, username, first_name, joined_date). */
  datatype User = User(id: int, username: Option<string>, firstName: string, joinedDate: Timestamp)

  /** The `broadcast_type` column: "groups" for /gbroadcast, "users" for /broadcast. */
  datatype TargetClass = Groups | Users

  /** A row of the append-only `broadcast` table; `id` is its AUTOINCREMENT key. */
  datatype BroadcastRecord = BroadcastRecord(id: nat, message: string, timestamp: Timestamp, target: TargetClass)

  /** Telegram chat types as the bot compares them ('private', 'group', ...). */
  datatype ChatKind = PrivateChat | GroupChat | SupergroupChat | ChannelChat

  /** The bot's own user id (`context.bot.id`) and `OWNER_ID` (0 when unset). */
  datatype Config = Config(botId: int, ownerId: int)

  /** The owner check of every privileged handler: plain equality with OWNER_ID. */
  predicate IsOwner(cfg: Config, userId: int) {
    userId == cfg.ownerId
  }
}
