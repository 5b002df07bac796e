# Join Hider Bot — a verified model of its decision and bookkeeping logic

Join Hider Bot is a Telegram group bot in one Python file, `main.py`. In every
group it joins, it deletes the "X joined" and "X left" notices. It greets
groups and users with a welcome animation, a text and an inline keyboard. It
keeps three SQLite tables: `chats` (the groups it was added to), `users`
(people who sent `/start` in private) and `broadcast` (an audit log of owner
broadcasts). Its owner (`OWNER_ID`) can read statistics, list the managed
groups and broadcast a message to every group or every user.

This project models the logic around the Telegram and SQLite calls:

- **Tables** (`tables.dfy`): the three tables as a `Registry` object. It holds
  two maps keyed by chat id and user id and one append-only sequence. The
  model covers the bot's three write modes (INSERT OR REPLACE, INSERT OR
  IGNORE, plain INSERT into the AUTOINCREMENT table), the order in which a
  full-table SELECT returns rows, and the per-type broadcast counts.
- **Membership events** (`events.dfy`): the classification of a service
  message into bot added / member joined / bot removed / member left /
  nothing. This covers the search loop for the bot's own id, the actions the
  handler takes, and the registry effect as a method on the registry. `/start`
  and its insert-if-absent into `users` are here too.
- **Broadcasts** (`broadcast.dfy`): `/gbroadcast` and `/broadcast`. The owner
  check comes first, then the usage check, then the recipient list. The send
  loop counts successes and failures. One audit row is written after the loop.
- **Buttons and `/stats`** (`menu.dfy`): the callback tokens and which of them
  need the owner, the view each token produces, and the managed-chat listing.
  The listing is newest first, shows at most 50 entries, then "... and N more
  groups".
- **Welcome** (`welcome.dfy`): the choice of welcome template and keyboard, and
  the chain of fallback transport calls with the boolean it returns.
- **Text** (`text.dfy`): `" ".join(context.args)` and `html.escape`, with the
  entity decoding a client applies, so that the model can state what escaping
  preserves.

The transport is a parameter. A broadcast takes the set of chat ids whose
`send_message` raises. The welcome chain takes the set of call kinds that
raise. The event handler takes a flag saying whether deleting the notice
succeeded. The clock is a `Timestamp` parameter (a `nat`). The bot id and
`OWNER_ID` form a `Config` value.

Points where the code may surprise a reader, all modelled as the code
behaves:

- The owner check in the handlers is plain `user_id == OWNER_ID`. There is no
  special case for an unset `OWNER_ID` of 0. Only the owner notifications in
  `handle_group_events` test `if OWNER_ID:`.
- After a successful broadcast send, `asyncio.sleep` runs inside the `try`.
  A failed send skips it.
- When `welcome.gif` exists and the captioned animation fails, the code sends
  the bare file and then the text. It never tries `ANIMATION_URL` in that case.
  When there is no local file and the URL animation fails, the text goes out
  with the template's own keyboard. The minimal keyboard is used only by the
  outer last resort.
- `/start` and the `back` button never pass `chat_title`. So the group
  template is never chosen from them, even in a group: a user with a first
  name gets the private template.

## Model

| member | source | states |
|---|---|---|
| Tables.InsertOrReplace | main.py:317-318 | afterwards the key holds the new row whatever was there; every other key keeps its row |
| Tables.InsertOrIgnore | main.py:360-361 | an existing row for the key is kept unchanged; a missing key gets the new row; every other key keeps its row |
| Tables.InsertOrIgnoreKeepsFirst | main.py:276-279 | a second insert-or-ignore with the same key keeps the first row |
| Tables.InsertOrReplaceKeepsLast | main.py:317-318 | a second insert-or-replace with the same key leaves the last row |
| Tables.SortedIds | main.py:44-45 | the ids of a set in strictly ascending order, each exactly once, nothing else |
| Tables.RowIds | main.py:622-623 | a full scan of an INTEGER PRIMARY KEY table yields every key once, ascending |
| Tables.CountTarget | main.py:448-451 | the count for a broadcast type is the number of audit rows of that type |
| Tables.CountTargetAppend | main.py:448-451 | appending an audit row raises the count of its own type by one and leaves the other count unchanged |
| Tables.CountTargetsPartition | main.py:448-451 | the "groups" and "users" broadcast counts add up to the number of audit rows |
| Tables.Registry.constructor | main.py:41-53 | on a fresh database `init_db` leaves three empty tables, and the registry invariant holds |
| Tables.Registry.InsertOrReplaceGroup | main.py:315-320 | `chats` becomes the insert-or-replace of the group under its id; the invariant is kept |
| Tables.Registry.InsertOrIgnoreGroup | main.py:358-363 | `chats` becomes the insert-or-ignore of the group under its id; the invariant is kept |
| Tables.Registry.InsertOrIgnoreUser | main.py:274-281 | `users` becomes the insert-or-ignore of the user under their id; the invariant is kept |
| Tables.Registry.AppendBroadcast | main.py:653-654 | exactly one row is appended; its id is the next AUTOINCREMENT value, and it holds the message, timestamp and type |
| Text.Escape | main.py:642 | the escaped message holds none of `<`, `>`, `"`, `'` and is never shorter than the message |
| Text.UnescapeEscape | main.py:710 | decoding the escaped message gives back exactly the owner's text |
| Text.Join | main.py:618 | `" ".join(args)`: no words give the empty string; otherwise the first word comes first, and the length is the total length of the words plus one space between each pair |
| Text.SplitJoin | main.py:686 | for arguments without spaces, splitting the joined message on spaces gives back exactly the arguments, in order |
| Welcome.SelectTemplate | main.py:124-196 | group template iff a group with a title; private template iff not that and a first name is given, with the owner panel iff the caller is OWNER_ID; generic otherwise |
| Welcome.EveryKeyboardOffersHelp | main.py:142-196 | every template keyboard and the last-resort keyboard offer Help and the support channel |
| Welcome.Deliver | main.py:200-264 | the first call is the captioned local file when it exists, else the URL animation; after a failed captioned local file come the bare file and then the text, or the last resort if the bare file failed; after a failed URL animation comes the text; every failed call but the last resort is followed by another, and every call except the bare file is followed only when it failed; the result is true iff the captioned media worked, or the text fallback worked (after a working bare file when the file exists), or the last resort worked; no URL when the file exists, no local call when it is absent; no call is made twice |
| Welcome.TextFallbackWhenMediaFails | main.py:225-245 | with no local file, a failing URL animation and a working text send, the text with its keyboard goes out and the result is true |
| Events.DisplayTitle | main.py:298 | the stored title is never empty and is the chat's own title whenever it has one |
| Events.Classify | main.py:301-310 | bot added iff the bot is among the new members; member joined iff there are new members and the bot is not one of them; bot removed / member left iff there are no new members and the departed member is / is not the bot; nothing iff neither field is set |
| Events.BotAddedTakesPrecedence | main.py:301-310 | the bot's id anywhere among the new members makes the update "bot added", whoever else joined with it |
| Events.DetectBot | main.py:302-308 | the loop finds the bot iff it is among the members; it stops at the first match; without a match it scans the whole list |
| Events.Reaction | main.py:322-393 | the notice is deleted iff a member other than the bot joined or left; the owner is told of an add / a removal iff that happened and OWNER_ID is non-zero, and every owner notice names this chat and its displayed title; only "bot added" sends a welcome, the group template with the stored title, to this chat; no call is made twice; an empty update does nothing |
| Events.GroupsAfter | main.py:315-366 | the registry never loses a group and changes no other chat; bot added overwrites the row; a join inserts the group only if absent and only if the delete succeeded; every other case leaves `chats` as it was |
| Events.HandleGroupEvent | main.py:293-396 | returns the classified event and the reaction's actions; the new `chats` is the one `GroupsAfter` gives; the invariant is kept |
| Events.RegisteredGroupsStay | main.py:293-396 | over any sequence of updates, every registered group stays registered |
| Events.OnlyNotifyingChatsRegistered | main.py:315-363 | a group registered after a sequence of updates was registered before or is the chat of one of the updates |
| Events.UsersAfterStart | main.py:272-281 | outside a private chat `users` is untouched; in a private chat the caller's id is added if absent and every existing row is kept |
| Events.RepeatedStartKeepsFirst | main.py:276-279 | a repeated `/start` by the same user keeps the first record |
| Events.Start | main.py:267-290 | `users` becomes `UsersAfterStart` of the caller, and the welcome is the template chosen without a chat title, for the caller's name and id |
| Events.StartGreetsCallerByName | main.py:284-290 | a caller with a first name is greeted by name in any chat, with the owner panel iff they are the owner |
| Broadcasts.Recipients | main.py:622-623 | the recipients are exactly the registered ids of the target table, each once, ascending |
| Broadcasts.CountFailingIsOverlap | main.py:638-649 | over distinct recipients, the loop's failure count is the number of registered ids the transport rejects |
| Broadcasts.BroadcastResult | main.py:599-665 | rejection iff the caller is not OWNER_ID; usage iff owner and no arguments; "no recipients" iff owner, arguments and an empty table; otherwise a summary for the target whose total is the table size and whose counts add up |
| Broadcasts.CompletedCounts | main.py:638-665 | an owner's broadcast with arguments to a non-empty table completes; it reports as failed exactly the registered recipients the transport rejects and as successful all the others |
| Broadcasts.AuditAfter | main.py:651-656 | a completed broadcast appends one row numbered after the last, with the message, timestamp and type; any other outcome leaves the audit log as it was |
| Broadcasts.AuditCountsAfter | main.py:448-451 | after a command, the statistics count of the broadcast's type is one higher iff it completed, and the other count is unchanged |
| Broadcasts.SendAll | main.py:638-649 | every recipient is sent the escaped text once, in order; `success + failed` is the number of recipients and `failed` counts the rejected sends |
| Broadcasts.SendAndRecord | main.py:630-665 | after the loop exactly one audit row is appended and the summary carries the loop's counts |
| Broadcasts.Broadcast | main.py:667-733 | the outcome is `BroadcastResult` of the tables before the call; the audit log is `AuditAfter` of the outcome; the sends are the escaped message to every recipient when the checks pass, none otherwise |
| Broadcasts.RejectionWritesNothing | main.py:602-607 | a non-owner gets the fixed rejection and the audit log is unchanged |
| Broadcasts.AuditRowIffRecipients | main.py:626-656 | with arguments, the owner's broadcast adds one audit row iff the target table is non-empty, even when every send fails |
| Broadcasts.ThreeGroupsOneFailing | main.py:638-665 | three groups with one rejected send give total 3, successful 2, failed 1, and one "groups" audit row with the message |
| Menu.ParseToken | main.py:437-582 | a recognised callback string is the string of the token it yields |
| Menu.ParseTokenData | main.py:437-582 | every token's own string selects that token, so no two tokens share a branch |
| Menu.InsertNewestFirst | main.py:480 | inserting into a newest-first list keeps it newest first and adds exactly the one row |
| Menu.SortNewestFirst | main.py:480 | the rows come out ordered by `added_date` descending, a permutation of the input |
| Menu.GroupRows | main.py:480-481 | the scan yields one row per registered group; every row is a registered group and every registered group appears |
| Menu.ChatRows | main.py:480-481 | the query yields every registered group, newest first, one row per group |
| Menu.ChatListing | main.py:484-491 | the empty message iff there are no rows; otherwise the first min(50, n) rows, and the "... and N more" line iff n > 50, with N = n - 50 |
| Menu.ManagedChats | main.py:478-491 | the listing is empty iff no group is registered; the shown rows are the first min(50, n) rows of the newest-first query, so each registered group at most once; "... and N more" iff n > 50, with N = n - 50 |
| Menu.HiddenChatsAreOlder | main.py:480-488 | a registered group cut from the listing is never newer than any group shown |
| Menu.ButtonView | main.py:431-596 | rejection iff the token is stats, chats, gbroadcast_menu or broadcast_menu and the caller is not OWNER_ID, with the stats and chats texts for those two; statistics iff stats and the owner, showing the two table sizes and the "groups" and "users" broadcast counts; the chat listing iff chats and the owner; the group / user broadcast how-to iff gbroadcast_menu / broadcast_menu and the owner; help iff help; settings with the chat title iff group_settings in a group or supergroup; the welcome chosen without a chat title for the caller iff back; nothing iff the data is unknown, or group_settings outside a group |
| Menu.RejectionReadsNoTable | main.py:437-553 | a rejected button press shows the same thing whatever the tables hold |
| Menu.OpenTokensIgnoreCaller | main.py:500-580 | help and group_settings show the same view whoever presses them |
| Menu.GatedButtonsOnlyOnOwnerPanel | main.py:163-181 | an owner-only button appears on a welcome keyboard only on the owner's panel |
| Menu.StatsCommand | main.py:736-759 | rejection iff the caller is not OWNER_ID; the owner gets the sizes of `chats` and `users` |

## Left out

- The Flask liveness server and its thread (main.py:13-25): HTTP and threading.
- `download_animation` (main.py:56-117): network fetch, file I/O and image generation. The model takes whether `welcome.gif` exists as a parameter.
- SQLite connections, commits and storage failures: the tables are maps and a sequence, and every statement succeeds.
- Telegram transport calls: only three have a success/failure oracle given as a parameter. These are the broadcast `send_message` (`failing: set<int>` in `Broadcasts`), the welcome chain (`failing: set<Call>` in `Welcome.Deliver`) and the `delete` of a join or leave notice (`deleteOk` in `Events`).
- Every other transport call is assumed to succeed or is not modelled, and none of them changes a table.
  - `query.answer()` (main.py:433) raises before the button handler reads anything, and that handler writes no table.
  - The owner notices (main.py:331-349, 382-393) and the delete of the old message on `back` (main.py:593-596) catch their own failures. `Menu.View.WelcomeAgain` does not record that delete.
  - The `edit_text` and `reply_text` replies of the button handler and of `/stats` are the handler's last step. A failing one only ends the handler early.
  - The broadcast's progress `reply_text` (main.py:633, 701) comes before any send. If it raised, the command would end without sends or an audit row, and the model does not cover that case.
  - The broadcast's final `edit_text` (main.py:658, 726) comes after the audit row is written.
- `asyncio.sleep` pacing after successful sends: timing cannot be stated here.
- `datetime.now()`: a `Timestamp` parameter. ISO strings of one format sort like the times they denote, so the model compares timestamps as numbers. The date-only display `added_date.split('T')[0]` is left out.
- The HTML prose of every message, and the keyboards of the owner notifications and of the stats, chats, help and settings views: the views record what their text is built from.
- Logging, `main()` handler wiring, webhook deletion and environment loading: the bot id and `OWNER_ID` are the `Config` value.
- `group_settings_callback` (main.py:399-428): it is never registered as a handler.
- The `/settings` command (main.py:761-791) and `error_handler` are not part of this model.
- Menu.SortNewestFirst: SQL leaves the order of groups with equal `added_date` open; the model fixes one order (scan order among equals), and the contracts state only the descending order and the permutation.
- Text.Escape: the contract states the absence of markup characters and, through `Text.UnescapeEscape`, that nothing is lost; it does not state the exact entity spellings beyond what the decoding round trip needs.
