/** `handle_group_events` and `start`: classifying a membership notice, the
    transport calls the bot makes in reaction, and what it writes to the
    `chats` and `users` tables. */
module Events {
  import opened Records
  import opened Tables
  import opened Welcome

  /** A service message: the chat it is in, the chat's title if any, the
      `new_chat_members` list (ids) and the `left_chat_member` (id) if any. */
  datatype Notice = Notice(chatId: int, chatTitle: Option<string>, newMembers: seq<int>, leftMember: Option<int>)

  datatype Event = BotAdded | MemberJoined | BotRemoved | MemberLeft | NoEvent

  /** `chat.title or "Group"`: the title written to the registry and shown. */
  function DisplayTitle(title: Option<string>): (r: string)
    ensures r != ""
    ensures Truthy(title) ==> r == title.value
  {
    if Truthy(title) then title.value else "Group"
  }

  /** The branch `handle_group_events` takes. A non-empty member list is
      looked at first, and the bot's own id anywhere in it makes the whole
      notice a bot-added event; the departed member is only looked at when no
      member was added. */
  function Classify(n: Notice, botId: int): (e: Event)
    ensures e == BotAdded <==> botId in n.newMembers
    ensures e == MemberJoined <==> n.newMembers != [] && botId !in n.newMembers
    ensures e == BotRemoved <==> n.newMembers == [] && n.leftMember == Some(botId)
    ensures e == MemberLeft <==> n.newMembers == [] && n.leftMember.Some? && n.leftMember.value != botId
    ensures e == NoEvent <==> n.newMembers == [] && n.leftMember.None?
  {
    if n.newMembers != [] then
      if botId in n.newMembers then BotAdded else MemberJoined
    else
      match n.leftMember
      case Some(id) => if id == botId then BotRemoved else MemberLeft
      case None => NoEvent
  }

  /** However many members join together with the bot, and wherever it sits
      among them, the notice is a bot-added event. */
  lemma BotAddedTakesPrecedence(n: Notice, botId: int, before: seq<int>, after: seq<int>)
    requires n.newMembers == before + [botId] + after
    ensures Classify(n, botId) == BotAdded
  {
    assert n.newMembers[|before|] == botId;
  }

  /** The search loop over `new_chat_members`: it reports whether the bot is
      among them and how many members it looked at, stopping at the first
      match. */
  method DetectBot(members: seq<int>, botId: int) returns (botAdded: bool, scanned: nat)
    ensures botAdded <==> botId in members
    ensures scanned <= |members|
    ensures botAdded ==> 0 < scanned && members[scanned - 1] == botId && botId !in members[..scanned - 1]
    ensures !botAdded ==> scanned == |members|
  {
    botAdded := false;
    scanned := 0;
    while scanned < |members|
      invariant scanned <= |members|
      invariant botId !in members[..scanned]
    {
      var member := members[scanned];
      scanned := scanned + 1;
      if member == botId {
        botAdded := true;
        break;
      }
      assert members[..scanned] == members[..scanned - 1] + [member];
    }
    if !botAdded {
      assert members[..scanned] == members;
    }
  }

  datatype OwnerNotice = AddedToGroup | RemovedFromGroup

  /** A transport call the handler makes. */
  datatype Action =
    | SendWelcome(chatId: int, template: Template)
    | DeleteNotice
    | NotifyOwner(notice: OwnerNotice, chatId: int, title: string)

  /** The message to OWNER_ID, sent only when OWNER_ID is set (non-zero). */
  function OwnerNote(cfg: Config, notice: OwnerNotice, chatId: int, title: string): seq<Action>
  {
    if cfg.ownerId != 0 then [NotifyOwner(notice, chatId, title)] else []
  }

  /** The transport calls made for an event, in order. Joins and departures of
      others delete the notice; the bot's arrival greets the group by its
      title and tells the owner; the bot's removal only tells the owner. */
  function Reaction(cfg: Config, e: Event, n: Notice): (r: seq<Action>)
    ensures DeleteNotice in r <==> e == MemberJoined || e == MemberLeft
    ensures NotifyOwner(AddedToGroup, n.chatId, DisplayTitle(n.chatTitle)) in r <==> e == BotAdded && cfg.ownerId != 0
    ensures NotifyOwner(RemovedFromGroup, n.chatId, DisplayTitle(n.chatTitle)) in r <==> e == BotRemoved && cfg.ownerId != 0
    ensures e == BotAdded ==> |r| > 0 && r[0] == SendWelcome(n.chatId, GroupWelcome(DisplayTitle(n.chatTitle)))
    ensures e != BotAdded ==> forall a :: a in r ==> !a.SendWelcome?
    ensures e == NoEvent ==> r == []
    ensures forall i, j :: 0 <= i < j < |r| ==> r[i] != r[j]
    ensures forall a :: a in r && a.NotifyOwner? ==> a.chatId == n.chatId && a.title == DisplayTitle(n.chatTitle)
    ensures forall a :: a in r && a.SendWelcome? ==> a == SendWelcome(n.chatId, GroupWelcome(DisplayTitle(n.chatTitle)))
  {
    var title := DisplayTitle(n.chatTitle);
    match e
    case BotAdded =>
      [SendWelcome(n.chatId, SelectTemplate(cfg, true, Some(title), None, None))]
        + OwnerNote(cfg, AddedToGroup, n.chatId, title)
    case MemberJoined => [DeleteNotice]
    case MemberLeft => [DeleteNotice]
    case BotRemoved => OwnerNote(cfg, RemovedFromGroup, n.chatId, title)
    case NoEvent => []
  }

  /** The `chats` table after the handler. The bot's arrival writes the row
      with replace semantics; a join writes it only if it is missing, and only
      when deleting the notice succeeded (a failed delete skips the insert);
      nothing else writes, and nothing ever deletes a row. */
  function GroupsAfter(groups: map<int, Group>, e: Event, n: Notice, now: Timestamp, deleteOk: bool): (r: map<int, Group>)
    ensures groups.Keys <= r.Keys <= groups.Keys + {n.chatId}
    ensures forall id :: id in groups && id != n.chatId ==> id in r && r[id] == groups[id]
    ensures e == BotAdded ==> n.chatId in r && r[n.chatId] == Group(n.chatId, DisplayTitle(n.chatTitle), now)
    ensures e == MemberJoined && deleteOk ==> n.chatId in r
    ensures e == MemberJoined && n.chatId in groups ==> r == groups
    ensures e == MemberJoined && deleteOk && n.chatId !in groups ==> r[n.chatId] == Group(n.chatId, DisplayTitle(n.chatTitle), now)
    ensures e != BotAdded && !(e == MemberJoined && deleteOk) ==> r == groups
  {
    var row := Group(n.chatId, DisplayTitle(n.chatTitle), now);
    match e
    case BotAdded => InsertOrReplace(groups, n.chatId, row)
    case MemberJoined => if deleteOk then InsertOrIgnore(groups, n.chatId, row) else groups
    case _ => groups
  }

  /** `handle_group_events` on a notice, given the clock and whether deleting
      the notice succeeds. */
  method HandleGroupEvent(cfg: Config, reg: Registry, n: Notice, now: Timestamp, deleteOk: bool)
    returns (e: Event, actions: seq<Action>)
    requires reg.Valid()
    modifies reg`groups
    ensures reg.Valid()
    ensures e == Classify(n, cfg.botId)
    ensures actions == Reaction(cfg, e, n)
    ensures reg.groups == GroupsAfter(old(reg.groups), e, n, now, deleteOk)
  {
    var title := DisplayTitle(n.chatTitle);
    actions := [];
    if n.newMembers != [] {
      var botAdded, _ := DetectBot(n.newMembers, cfg.botId);
      if botAdded {
        e := BotAdded;
        reg.InsertOrReplaceGroup(Group(n.chatId, title, now));
        actions := [SendWelcome(n.chatId, SelectTemplate(cfg, true, Some(title), None, None))];
        if cfg.ownerId != 0 {
          actions := actions + [NotifyOwner(AddedToGroup, n.chatId, title)];
        }
      } else {
        e := MemberJoined;
        actions := [DeleteNotice];
        if deleteOk {
          reg.InsertOrIgnoreGroup(Group(n.chatId, title, now));
        }
      }
    } else if n.leftMember.Some? {
      if n.leftMember.value != cfg.botId {
        e := MemberLeft;
        actions := [DeleteNotice];
      } else {
        e := BotRemoved;
        if cfg.ownerId != 0 {
          actions := [NotifyOwner(RemovedFromGroup, n.chatId, title)];
        }
      }
    } else {
      e := NoEvent;
    }
  }

  /** A run of notices, each with its clock reading and delete outcome. */
  datatype Step = Step(notice: Notice, now: Timestamp, deleteOk: bool)

  /** The `chats` table after handling the steps in order. */
  function Replay(cfg: Config, groups: map<int, Group>, steps: seq<Step>): map<int, Group>
    decreases |steps|
  {
    if steps == [] then groups
    else
      var s := steps[0];
      Replay(cfg, GroupsAfter(groups, Classify(s.notice, cfg.botId), s.notice, s.now, s.deleteOk), steps[1..])
  }

  /** No run of notices, removals of the bot included, takes a group out of
      the registry. */
  lemma {:induction false} RegisteredGroupsStay(cfg: Config, groups: map<int, Group>, steps: seq<Step>)
    ensures groups.Keys <= Replay(cfg, groups, steps).Keys
    decreases |steps|
  {
    if steps != [] {
      var s := steps[0];
      RegisteredGroupsStay(cfg, GroupsAfter(groups, Classify(s.notice, cfg.botId), s.notice, s.now, s.deleteOk), steps[1..]);
    }
  }

  /** A group enters the registry only through a notice from that chat. */
  lemma {:induction false} OnlyNotifyingChatsRegistered(cfg: Config, groups: map<int, Group>, steps: seq<Step>, id: int)
    requires id in Replay(cfg, groups, steps)
    ensures id in groups || exists i :: 0 <= i < |steps| && steps[i].notice.chatId == id
    decreases |steps|
  {
    if steps != [] {
      var s := steps[0];
      var next := GroupsAfter(groups, Classify(s.notice, cfg.botId), s.notice, s.now, s.deleteOk);
      OnlyNotifyingChatsRegistered(cfg, next, steps[1..], id);
      if id !in next {
        var i :| 0 <= i < |steps[1..]| && steps[1..][i].notice.chatId == id;
        assert steps[i + 1].notice.chatId == id;
      }
    }
  }

  /** The `users` table after `/start`: a private chat inserts the caller if
      absent and keeps an existing row as it is; other chats leave it alone. */
  function UsersAfterStart(users: map<int, User>, u: User, kind: ChatKind): (r: map<int, User>)
    ensures kind != PrivateChat ==> r == users
    ensures kind == PrivateChat ==> r.Keys == users.Keys + {u.id}
    ensures forall id :: id in users ==> id in r && r[id] == users[id]
    ensures kind == PrivateChat && u.id !in users ==> r[u.id] == u
  {
    if kind == PrivateChat then InsertOrIgnore(users, u.id, u) else users
  }

  /** A repeated `/start` keeps the row written by the first one. */
  lemma RepeatedStartKeepsFirst(users: map<int, User>, first: User, second: User, kind: ChatKind)
    requires first.id == second.id
    ensures UsersAfterStart(UsersAfterStart(users, first, kind), second, kind) == UsersAfterStart(users, first, kind)
  {
  }

  /** `start`: record a private caller, then send the welcome. The welcome is
      asked for without a chat title, so even in a group it greets the caller
      by first name rather than greeting the group. */
  method Start(cfg: Config, reg: Registry, chatId: int, kind: ChatKind, userId: int,
               username: Option<string>, firstName: string, now: Timestamp)
    returns (welcome: Action)
    requires reg.Valid()
    modifies reg`users
    ensures reg.Valid()
    ensures reg.users == UsersAfterStart(old(reg.users), User(userId, username, firstName, now), kind)
    ensures welcome == SendWelcome(chatId, SelectTemplate(cfg, kind != PrivateChat, None, Some(firstName), Some(userId)))
  {
    if kind == PrivateChat {
      reg.InsertOrIgnoreUser(User(userId, username, firstName, now));
    }
    welcome := SendWelcome(chatId, SelectTemplate(cfg, kind != PrivateChat, None, Some(firstName), Some(userId)));
  }

  /** `/start` never picks the group template, and gives the owner panel
      exactly to OWNER_ID. */
  lemma StartGreetsCallerByName(cfg: Config, kind: ChatKind, userId: int, firstName: string)
    requires firstName != ""
    ensures SelectTemplate(cfg, kind != PrivateChat, None, Some(firstName), Some(userId))
            == PrivateWelcome(firstName, IsOwner(cfg, userId))
  {
  }
}
