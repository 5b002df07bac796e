/** `button_handler` and `stats_command`: the callback tokens, which of them
    only the owner may use, the view each token leads to, and the managed-chat
    listing (newest first, at most 50 entries, then a count of the rest). The
    handlers only read the tables; the views record what their text is built
    from, and the HTML prose itself is left out. */
module Menu {
  import opened Records
  import opened Tables
  import opened Welcome

  /** The callback tokens `button_handler` recognises. */
  datatype Token =
    | StatsToken | ChatsToken | GroupSettingsToken | GBroadcastMenuToken
    | BroadcastMenuToken | HelpToken | BackToken

  /** The `callback_data` string of each token. */
  function TokenData(t: Token): string
  {
    match t
    case StatsToken => "stats"
    case ChatsToken => "chats"
    case GroupSettingsToken => "group_settings"
    case GBroadcastMenuToken => "gbroadcast_menu"
    case BroadcastMenuToken => "broadcast_menu"
    case HelpToken => "help"
    case BackToken => "back"
  }

  /** The `if data == ... elif ...` chain; any other string matches no branch. */
  function ParseToken(data: string): (t: Option<Token>)
    ensures t.Some? ==> TokenData(t.value) == data
  {
    if data == "stats" then Some(StatsToken)
    else if data == "chats" then Some(ChatsToken)
    else if data == "group_settings" then Some(GroupSettingsToken)
    else if data == "gbroadcast_menu" then Some(GBroadcastMenuToken)
    else if data == "broadcast_menu" then Some(BroadcastMenuToken)
    else if data == "help" then Some(HelpToken)
    else if data == "back" then Some(BackToken)
    else None
  }

  /** Every token's own string leads back to it: no two tokens share one. */
  lemma ParseTokenData(t: Token)
    ensures ParseToken(TokenData(t)) == Some(t)
  {
  }

  /** The tokens whose branch starts with `if user_id != OWNER_ID`. */
  predicate OwnerOnly(t: Token) {
    t == StatsToken || t == ChatsToken || t == GBroadcastMenuToken || t == BroadcastMenuToken
  }

  /** The three fixed rejection texts. */
  datatype Rejection = StatsRejected | ChatsRejected | BroadcastRejected

  const ListLimit: nat := 50

  /** The managed-chat text: the empty message, or the first rows and, when
      some were cut, the count in "... and N more groups". */
  datatype Listing = NoChats | ChatList(shown: seq<Group>, more: Option<nat>)

  datatype View =
    | Rejected(reason: Rejection)
    | StatsView(groups: nat, users: nat, groupBroadcasts: nat, userBroadcasts: nat)
    | ChatsView(listing: Listing)
    | SettingsView(title: Option<string>)
    | BroadcastHowTo(target: TargetClass)
    | HelpView
    | WelcomeAgain(template: Template)
    | NoView

  predicate NewestFirst(gs: seq<Group>) {
    forall i, j :: 0 <= i < j < |gs| ==> gs[i].addedDate >= gs[j].addedDate
  }

  lemma NewestFirstCons(g: Group, gs: seq<Group>)
    requires NewestFirst(gs)
    requires forall x :: x in gs ==> x.addedDate <= g.addedDate
    ensures NewestFirst([g] + gs)
  {
  }

  function InsertNewestFirst(g: Group, gs: seq<Group>): (r: seq<Group>)
    requires NewestFirst(gs)
    ensures NewestFirst(r)
    ensures multiset(r) == multiset(gs) + multiset{g}
    ensures forall x :: x in r ==> x == g || x in gs
  {
    if gs == [] || g.addedDate >= gs[0].addedDate then [g] + gs
    else
      var rest := InsertNewestFirst(g, gs[1..]);
      assert gs == [gs[0]] + gs[1..];
      assert forall x :: x in rest ==> x.addedDate <= gs[0].addedDate by {
        forall x | x in rest ensures x.addedDate <= gs[0].addedDate {
          if x != g {
            var k :| 0 <= k < |gs[1..]| && gs[1..][k] == x;
            assert gs[k + 1] == x;
          }
        }
      }
      NewestFirstCons(gs[0], rest);
      [gs[0]] + rest
  }

  /** `ORDER BY added_date DESC`: the same rows, newest first. SQL leaves the
      order of equal dates open; this sort keeps them in scan order. */
  function SortNewestFirst(gs: seq<Group>): (r: seq<Group>)
    ensures NewestFirst(r)
    ensures multiset(r) == multiset(gs)
  {
    if gs == [] then []
    else
      assert gs == [gs[0]] + gs[1..];
      InsertNewestFirst(gs[0], SortNewestFirst(gs[1..]))
  }

  /** The rows of `chats` in scan order. */
  function GroupRows(groups: map<int, Group>): (r: seq<Group>)
    ensures |r| == |groups|
    ensures forall g :: g in r ==> g in groups.Values
    ensures forall id :: id in groups ==> groups[id] in r
  {
    var ids := RowIds(groups);
    assert forall i :: 0 <= i < |ids| ==> ids[i] in groups;
    var r := seq(|ids|, i requires 0 <= i < |ids| => groups[ids[i]]);
    RowsCoverValues(groups, ids, r);
    r
  }

  lemma RowsCoverValues(groups: map<int, Group>, ids: seq<int>, r: seq<Group>)
    requires forall x :: x in ids <==> x in groups
    requires |r| == |ids|
    requires forall i :: 0 <= i < |ids| ==> ids[i] in groups && r[i] == groups[ids[i]]
    ensures forall g :: g in r ==> g in groups.Values
    ensures forall id :: id in groups ==> groups[id] in r
  {
  }

  /** Two sequences with the same multiset have the same length and elements. */
  lemma SameElements(a: seq<Group>, b: seq<Group>)
    requires multiset(a) == multiset(b)
    ensures |a| == |b|
    ensures forall g :: g in a <==> g in b
  {
    assert |a| == |multiset(a)| && |b| == |multiset(b)|;
    forall g ensures g in a <==> g in b {
      assert g in a <==> g in multiset(a);
      assert g in b <==> g in multiset(b);
    }
  }

  /** `SELECT chat_id, title, added_date FROM chats ORDER BY added_date DESC`:
      every registered group once, newest first. */
  function ChatRows(groups: map<int, Group>): (rows: seq<Group>)
    ensures NewestFirst(rows)
    ensures |rows| == |groups|
    ensures forall g :: g in rows ==> g in groups.Values
    ensures forall id :: id in groups ==> groups[id] in rows
  {
    var scan := GroupRows(groups);
    var rows := SortNewestFirst(scan);
    SameElements(rows, scan);
    rows
  }

  /** `chats[:50]` plus the "... and N more groups" line when `len(chats) > 50`. */
  function ChatListing(rows: seq<Group>): (l: Listing)
    ensures l == NoChats <==> rows == []
    ensures l.ChatList? ==> |l.shown| == (if |rows| < ListLimit then |rows| else ListLimit)
    ensures l.ChatList? ==> l.shown == rows[..|l.shown|]
    ensures l.ChatList? ==> (l.more.Some? <==> |rows| > ListLimit)
    ensures l.ChatList? && l.more.Some? ==> |l.shown| + l.more.value == |rows|
  {
    if rows == [] then NoChats
    else if |rows| > ListLimit then ChatList(rows[..ListLimit], Some(|rows| - ListLimit))
    else ChatList(rows, None)
  }

  /** The listing behind the `chats` token. */
  function ManagedChats(groups: map<int, Group>): (l: Listing)
    ensures l == NoChats <==> |groups| == 0
    ensures l.ChatList? ==> NewestFirst(l.shown)
    ensures l.ChatList? ==> forall g :: g in l.shown ==> g in groups.Values
    ensures l.ChatList? ==> |l.shown| == (if |groups| < ListLimit then |groups| else ListLimit)
    ensures l.ChatList? ==> l.shown == ChatRows(groups)[..|l.shown|]
    ensures l.ChatList? ==> (l.more.Some? <==> |groups| > ListLimit)
    ensures l.ChatList? && l.more.Some? ==> l.more.value == |groups| - ListLimit
  {
    var rows := ChatRows(groups);
    var l := ChatListing(rows);
    if l.ChatList? then
      PrefixNewestFirst(rows, |l.shown|);
      l
    else l
  }

  /** No group left out of the listing is newer than one shown in it. */
  lemma HiddenChatsAreOlder(groups: map<int, Group>, g: Group, id: int)
    requires ManagedChats(groups).ChatList?
    requires g in ManagedChats(groups).shown
    requires id in groups && groups[id] !in ManagedChats(groups).shown
    ensures groups[id].addedDate <= g.addedDate
  {
    var rows := ChatRows(groups);
    PrefixHoldsNewest(rows, |ManagedChats(groups).shown|, g, groups[id]);
  }

  lemma PrefixHoldsNewest(rows: seq<Group>, n: nat, g: Group, h: Group)
    requires NewestFirst(rows) && n <= |rows|
    requires g in rows[..n] && h in rows && h !in rows[..n]
    ensures h.addedDate <= g.addedDate
  {
  }

  lemma PrefixNewestFirst(rows: seq<Group>, n: nat)
    requires NewestFirst(rows) && n <= |rows|
    ensures NewestFirst(rows[..n])
  {
  }

  /** The view `button_handler` produces for a callback, given the caller, the
      chat the button sits in, and the tables. */
  function ButtonView(cfg: Config, data: string, callerId: int, callerName: string,
                      kind: ChatKind, chatTitle: Option<string>,
                      groups: map<int, Group>, users: map<int, User>, audit: seq<BroadcastRecord>): (v: View)
    ensures v.Rejected? <==> ParseToken(data).Some? && OwnerOnly(ParseToken(data).value) && !IsOwner(cfg, callerId)
    ensures v == Rejected(StatsRejected) <==> ParseToken(data) == Some(StatsToken) && !IsOwner(cfg, callerId)
    ensures v == Rejected(ChatsRejected) <==> ParseToken(data) == Some(ChatsToken) && !IsOwner(cfg, callerId)
    ensures v.StatsView? <==> ParseToken(data) == Some(StatsToken) && IsOwner(cfg, callerId)
    ensures v.StatsView? ==> v.groups == |groups| && v.users == |users|
    ensures v.StatsView? ==> v.groupBroadcasts == CountTarget(audit, Groups) && v.userBroadcasts == CountTarget(audit, Users)
    ensures v.StatsView? ==> v.groupBroadcasts + v.userBroadcasts == |audit|
    ensures v.ChatsView? <==> ParseToken(data) == Some(ChatsToken) && IsOwner(cfg, callerId)
    ensures v.ChatsView? ==> v.listing == ManagedChats(groups)
    ensures v == BroadcastHowTo(Groups) <==> ParseToken(data) == Some(GBroadcastMenuToken) && IsOwner(cfg, callerId)
    ensures v == BroadcastHowTo(Users) <==> ParseToken(data) == Some(BroadcastMenuToken) && IsOwner(cfg, callerId)
    ensures v == HelpView <==> ParseToken(data) == Some(HelpToken)
    ensures v.SettingsView? <==> ParseToken(data) == Some(GroupSettingsToken) && (kind == GroupChat || kind == SupergroupChat)
    ensures v.SettingsView? ==> v.title == chatTitle
    ensures v.WelcomeAgain? <==> ParseToken(data) == Some(BackToken)
    ensures v.WelcomeAgain? ==> v.template == SelectTemplate(cfg, kind != PrivateChat, None, Some(callerName), Some(callerId))
    ensures v == NoView <==> ParseToken(data).None?
                             || (ParseToken(data) == Some(GroupSettingsToken) && kind != GroupChat && kind != SupergroupChat)
  {
    match ParseToken(data)
    case None => NoView
    case Some(t) =>
      if OwnerOnly(t) && !IsOwner(cfg, callerId) then
        Rejected(match t
                 case StatsToken => StatsRejected
                 case ChatsToken => ChatsRejected
                 case _ => BroadcastRejected)
      else
        match t
        case StatsToken =>
          CountTargetsPartition(audit);
          StatsView(|groups|, |users|, CountTarget(audit, Groups), CountTarget(audit, Users))
        case ChatsToken => ChatsView(ManagedChats(groups))
        case GroupSettingsToken =>
          if kind == GroupChat || kind == SupergroupChat then SettingsView(chatTitle) else NoView
        case GBroadcastMenuToken => BroadcastHowTo(Groups)
        case BroadcastMenuToken => BroadcastHowTo(Users)
        case HelpToken => HelpView
        case BackToken =>
          WelcomeAgain(SelectTemplate(cfg, kind != PrivateChat, None, Some(callerName), Some(callerId)))
  }

  /** A rejected caller learns nothing from the tables: the view is the same
      whatever they hold. */
  lemma RejectionReadsNoTable(cfg: Config, data: string, callerId: int, callerName: string,
                              kind: ChatKind, chatTitle: Option<string>,
                              groups: map<int, Group>, users: map<int, User>, audit: seq<BroadcastRecord>,
                              groups': map<int, Group>, users': map<int, User>, audit': seq<BroadcastRecord>)
    requires ButtonView(cfg, data, callerId, callerName, kind, chatTitle, groups, users, audit).Rejected?
    ensures ButtonView(cfg, data, callerId, callerName, kind, chatTitle, groups, users, audit)
         == ButtonView(cfg, data, callerId, callerName, kind, chatTitle, groups', users', audit')
  {
  }

  /** `help` and `group_settings` are not owner-gated: who presses them does
      not matter. */
  lemma OpenTokensIgnoreCaller(cfg: Config, t: Token, callerId: int, otherId: int, callerName: string,
                               otherName: string, kind: ChatKind, chatTitle: Option<string>,
                               groups: map<int, Group>, users: map<int, User>, audit: seq<BroadcastRecord>)
    requires t == HelpToken || t == GroupSettingsToken
    ensures ButtonView(cfg, TokenData(t), callerId, callerName, kind, chatTitle, groups, users, audit)
         == ButtonView(cfg, TokenData(t), otherId, otherName, kind, chatTitle, groups, users, audit)
  {
    ParseTokenData(t);
  }

  /** The owner-gated buttons sit only on the owner's welcome keyboard. */
  lemma GatedButtonsOnlyOnOwnerPanel(t: Template, data: string)
    requires OnKeyboard(Callback(data), KeyboardOf(t))
    requires ParseToken(data).Some? && OwnerOnly(ParseToken(data).value)
    ensures t.PrivateWelcome? && t.ownerPanel
  {
  }

  /** The reply to `/stats`. */
  datatype StatsReply = Counts(groups: nat, users: nat) | OwnerOnlyStats

  /** `stats_command`: the owner gets the two table sizes, anyone else the
      rejection. */
  function StatsCommand(cfg: Config, callerId: int, groups: map<int, Group>, users: map<int, User>): (r: StatsReply)
    ensures r == OwnerOnlyStats <==> !IsOwner(cfg, callerId)
    ensures r.Counts? ==> r.groups == |groups| && r.users == |users|
  {
    if IsOwner(cfg, callerId) then Counts(|groups|, |users|) else OwnerOnlyStats
  }
}
