/** `send_welcome_message`: which welcome template and inline keyboard the bot
    picks for a chat, and the fallback chain of transport calls it walks
    through to deliver it, with the boolean it hands back. The text of the
    templates is left out; a template records what the text is built from. */
module Welcome {
  import opened Records

  /** An inline keyboard button: the two URL buttons, or a callback token. */
  datatype Button = SupportLink | AddToGroupLink | Callback(data: string)

  /** Rows of buttons, as `InlineKeyboardMarkup` takes them. */
  type Keyboard = seq<seq<Button>>

  datatype Template =
    | GroupWelcome(title: string)                       // greets the group by its title
    | PrivateWelcome(userName: string, ownerPanel: bool) // greets a user; the owner gets the panel line
    | GenericWelcome                                    // nobody to greet by name

  /** The template branch: a group with a title is greeted as a group, else a
      user with a first name is greeted by name (with the owner panel exactly
      when the caller is OWNER_ID), else the generic text is used. */
  function SelectTemplate(cfg: Config, isGroup: bool, chatTitle: Option<string>,
                          userName: Option<string>, userId: Option<int>): (t: Template)
    ensures t.GroupWelcome? <==> isGroup && Truthy(chatTitle)
    ensures t.GroupWelcome? ==> t.title == chatTitle.value
    ensures t.PrivateWelcome? <==> !(isGroup && Truthy(chatTitle)) && Truthy(userName)
    ensures t.PrivateWelcome? ==> t.userName == userName.value
    ensures t.PrivateWelcome? ==> (t.ownerPanel <==> userId == Some(cfg.ownerId))
  {
    if isGroup && Truthy(chatTitle) then GroupWelcome(chatTitle.value)
    else if Truthy(userName) then PrivateWelcome(userName.value, userId == Some(cfg.ownerId))
    else GenericWelcome
  }

  /** The keyboard that goes with each template. */
  function KeyboardOf(t: Template): Keyboard
  {
    match t
    case GroupWelcome(_) =>
      [[SupportLink], [Callback("group_settings"), Callback("help")]]
    case PrivateWelcome(_, true) =>
      [[Callback("stats"), Callback("broadcast_menu")],
       [Callback("chats"), Callback("help")],
       [SupportLink],
       [AddToGroupLink]]
    case PrivateWelcome(_, false) =>
      [[SupportLink], [Callback("help"), AddToGroupLink]]
    case GenericWelcome =>
      [[SupportLink], [Callback("help")]]
  }

  /** The keyboard of the last-resort plain message. */
  const MinimalKeyboard: Keyboard := [[SupportLink], [Callback("help")]]

  predicate OnKeyboard(b: Button, k: Keyboard) {
    exists r :: 0 <= r < |k| && b in k[r]
  }

  /** Every welcome, and the last-resort message too, offers Help and the
      support channel. */
  lemma EveryKeyboardOffersHelp(t: Template)
    ensures OnKeyboard(Callback("help"), KeyboardOf(t)) && OnKeyboard(SupportLink, KeyboardOf(t))
    ensures OnKeyboard(Callback("help"), MinimalKeyboard) && OnKeyboard(SupportLink, MinimalKeyboard)
  {
    var k := KeyboardOf(t);
    assert Callback("help") in MinimalKeyboard[1] && SupportLink in MinimalKeyboard[0];
    match t {
      case GroupWelcome(_) =>
        assert Callback("help") in k[1] && SupportLink in k[0];
      case PrivateWelcome(_, owner) =>
        if owner {
          assert Callback("help") in k[1] && SupportLink in k[2];
        } else {
          assert Callback("help") in k[1] && SupportLink in k[0];
        }
      case GenericWelcome =>
        assert Callback("help") in k[1] && SupportLink in k[0];
    }
  }

  /** The transport calls `send_welcome_message` can make. */
  datatype Call =
    | CaptionedLocalAnimation  // welcome.gif with the text and keyboard as caption
    | BareLocalAnimation       // welcome.gif alone
    | CaptionedUrlAnimation    // the animation by ANIMATION_URL with caption
    | TextWithMenu             // the welcome text with the template keyboard
    | LastResortText           // the short text with the minimal keyboard

  /** The calls made, in order, and the boolean returned to the caller. */
  datatype Delivery = Delivery(calls: seq<Call>, delivered: bool)

  /** The last resort of the outer `except`: one short message. */
  function LastResort(tried: seq<Call>, failing: set<Call>): Delivery
  {
    Delivery(tried + [LastResortText], LastResortText !in failing)
  }

  /** The fallback chain, given whether welcome.gif exists and which calls
      the transport rejects. A local file is tried with its caption, then bare
      followed by the text; without one the URL is tried, then the text; a
      failure in a fallback lands in the last resort. Every call but the bare
      animation is followed by another call only when it failed; the bare
      animation is always followed by the text. No call is made twice. */
  function Deliver(gifExists: bool, failing: set<Call>): (d: Delivery)
    ensures |d.calls| > 0
    ensures d.calls[0] == (if gifExists then CaptionedLocalAnimation else CaptionedUrlAnimation)
    ensures forall i :: 0 <= i < |d.calls| - 1 && d.calls[i] != BareLocalAnimation ==> d.calls[i] in failing
    ensures d.calls[|d.calls| - 1] != BareLocalAnimation
    ensures d.delivered <==> d.calls[|d.calls| - 1] !in failing
    ensures !d.delivered ==> d.calls[|d.calls| - 1] == LastResortText
    ensures LastResortText !in failing ==> d.delivered
    ensures gifExists ==> CaptionedUrlAnimation !in d.calls
    ensures !gifExists ==> CaptionedLocalAnimation !in d.calls && BareLocalAnimation !in d.calls
    ensures forall i :: 0 <= i < |d.calls| && d.calls[i] in failing && d.calls[i] != LastResortText ==> i < |d.calls| - 1
    ensures forall i, j :: 0 <= i < j < |d.calls| ==> d.calls[i] != d.calls[j]
    ensures gifExists && CaptionedLocalAnimation in failing ==>
              && |d.calls| >= 3 && d.calls[1] == BareLocalAnimation
              && d.calls[2] == (if BareLocalAnimation in failing then LastResortText else TextWithMenu)
    ensures !gifExists && CaptionedUrlAnimation in failing ==> |d.calls| >= 2 && d.calls[1] == TextWithMenu
    ensures d.delivered <==>
              || (if gifExists
                  then CaptionedLocalAnimation !in failing || (BareLocalAnimation !in failing && TextWithMenu !in failing)
                  else CaptionedUrlAnimation !in failing || TextWithMenu !in failing)
              || LastResortText !in failing
  {
    if gifExists then
      if CaptionedLocalAnimation !in failing then Delivery([CaptionedLocalAnimation], true)
      else if BareLocalAnimation in failing then
        LastResort([CaptionedLocalAnimation, BareLocalAnimation], failing)
      else if TextWithMenu in failing then
        LastResort([CaptionedLocalAnimation, BareLocalAnimation, TextWithMenu], failing)
      else Delivery([CaptionedLocalAnimation, BareLocalAnimation, TextWithMenu], true)
    else
      if CaptionedUrlAnimation !in failing then Delivery([CaptionedUrlAnimation], true)
      else if TextWithMenu in failing then
        LastResort([CaptionedUrlAnimation, TextWithMenu], failing)
      else Delivery([CaptionedUrlAnimation, TextWithMenu], true)
  }

  /** No local file and a failing URL: the welcome text still goes out, with
      the template's own keyboard, as a plain message. */
  lemma TextFallbackWhenMediaFails(failing: set<Call>)
    requires CaptionedUrlAnimation in failing && TextWithMenu !in failing
    ensures Deliver(false, failing) == Delivery([CaptionedUrlAnimation, TextWithMenu], true)
  {
  }
}
