/** `gbroadcast_command` and `broadcast_command`: the owner check, the usage
    check, the enumeration of the recipients from the registry, the send loop
    that counts each failure and carries on, and the single audit row written
    after it. The two commands differ only in their table and target class,
    so one method with a `TargetClass` models both. The transport is given as
    the set of chat ids whose `send_message` raises. */
module Broadcasts {
  import opened Records
  import opened Tables
  import opened Text

  /** The reply the command ends with. */
  datatype Outcome =
    | NotOwner                            // "Only owner can use this command."
    | Usage(target: TargetClass)          // the usage text: no arguments were given
    | NoRecipients(target: TargetClass)   // "No groups/users found to broadcast!"
    | Completed(target: TargetClass, total: nat, success: nat, failed: nat)  // the final summary

  /** One `send_message` attempt: the recipient and the text. */
  datatype Send = Send(chatId: int, text: string)

  /** The ids of the table a broadcast goes to. */
  function Registered(groups: map<int, Group>, users: map<int, User>, target: TargetClass): set<int>
  {
    match target
    case Groups => groups.Keys
    case Users => users.Keys
  }

  function Elems(s: seq<int>): set<int> {
    set x | x in s
  }

  /** The recipients in the order the SELECT returns them: each registered
      id exactly once. */
  function Recipients(groups: map<int, Group>, users: map<int, User>, target: TargetClass): (rs: seq<int>)
    ensures Elems(rs) == Registered(groups, users, target)
    ensures |rs| == |Registered(groups, users, target)|
    ensures StrictlyAscending(rs)
  {
    var rs := match target
      case Groups => RowIds(groups)
      case Users => RowIds(users);
    assert Elems(rs) == Registered(groups, users, target);
    rs
  }

  /** The number of failed sends when the recipients are taken in order. */
  function CountFailing(rs: seq<int>, failing: set<int>): (n: nat)
    ensures n <= |rs|
  {
    if rs == [] then 0
    else CountFailing(rs[..|rs| - 1], failing) + (if rs[|rs| - 1] in failing then 1 else 0)
  }

  /** Dropping the last of an ascending sequence leaves an ascending
      sequence that does not hold the dropped element. */
  lemma AscendingLast(rs: seq<int>)
    requires rs != [] && StrictlyAscending(rs)
    ensures StrictlyAscending(rs[..|rs| - 1])
    ensures rs[|rs| - 1] !in Elems(rs[..|rs| - 1])
    ensures Elems(rs) == Elems(rs[..|rs| - 1]) + {rs[|rs| - 1]}
  {
  }

  /** Over distinct recipients the loop's failure count is the number of
      recipients the transport rejects. */
  lemma {:induction false} CountFailingIsOverlap(rs: seq<int>, failing: set<int>)
    requires StrictlyAscending(rs)
    ensures CountFailing(rs, failing) == |Elems(rs) * failing|
  {
    if rs == [] {
      assert Elems(rs) == {};
    } else {
      var p, x := rs[..|rs| - 1], rs[|rs| - 1];
      AscendingLast(rs);
      CountFailingIsOverlap(p, failing);
      assert CountFailing(rs, failing) == CountFailing(p, failing) + (if x in failing then 1 else 0);
      OverlapGrows(Elems(p), x, failing);
    }
  }

  lemma OverlapGrows(a: set<int>, x: int, failing: set<int>)
    requires x !in a
    ensures |(a + {x}) * failing| == |a * failing| + (if x in failing then 1 else 0)
  {
    if x in failing {
      assert (a + {x}) * failing == a * failing + {x};
    } else {
      assert (a + {x}) * failing == a * failing;
    }
  }

  /** A set splits into the part inside `b` and the part outside it. */
  lemma SplitCard(a: set<int>, b: set<int>)
    ensures |a| == |a * b| + |a - b|
  {
  }

  /** What a broadcast command answers. The owner check comes first, then the
      usage check, then the emptiness of the table; otherwise every
      registered recipient is tried once, the ones the transport rejects are
      counted as failed and the others as successful. */
  function BroadcastResult(cfg: Config, target: TargetClass, callerId: int, args: seq<string>,
                           groups: map<int, Group>, users: map<int, User>, failing: set<int>): (o: Outcome)
    ensures o == NotOwner <==> !IsOwner(cfg, callerId)
    ensures o == Usage(target) <==> IsOwner(cfg, callerId) && args == []
    ensures o == NoRecipients(target) <==> IsOwner(cfg, callerId) && args != [] && Registered(groups, users, target) == {}
    ensures o.Completed? ==> o.target == target
    ensures o.Completed? ==> o.total == |Registered(groups, users, target)| > 0
    ensures o.Completed? ==> o.success + o.failed == o.total
  {
    var rs := Recipients(groups, users, target);
    if !IsOwner(cfg, callerId) then NotOwner
    else if args == [] then Usage(target)
    else if rs == [] then NoRecipients(target)
    else
      var failed := CountFailing(rs, failing);
      Completed(target, |rs|, |rs| - failed, failed)
  }

  /** A completed broadcast reports as failed exactly the registered
      recipients the transport rejects, and as successful all the others. */
  lemma CompletedCounts(cfg: Config, target: TargetClass, callerId: int, args: seq<string>,
                        groups: map<int, Group>, users: map<int, User>, failing: set<int>)
    requires IsOwner(cfg, callerId) && args != [] && |Registered(groups, users, target)| > 0
    ensures var o := BroadcastResult(cfg, target, callerId, args, groups, users, failing);
            && o.Completed?
            && o.failed == |Registered(groups, users, target) * failing|
            && o.success == |Registered(groups, users, target) - failing|
  {
    var rs := Recipients(groups, users, target);
    CountFailingIsOverlap(rs, failing);
    SplitCard(Elems(rs), failing);
  }

  lemma CompletedResult(cfg: Config, target: TargetClass, callerId: int, args: seq<string>,
                        groups: map<int, Group>, users: map<int, User>, failing: set<int>)
    requires IsOwner(cfg, callerId) && args != [] && Recipients(groups, users, target) != []
    ensures var rs := Recipients(groups, users, target);
            BroadcastResult(cfg, target, callerId, args, groups, users, failing)
              == Completed(target, |rs|, |rs| - CountFailing(rs, failing), CountFailing(rs, failing))
  {
  }

  /** The `broadcast` table after the command: one row when the loop ran,
      none otherwise. */
  function AuditAfter(audit: seq<BroadcastRecord>, o: Outcome, message: string, now: Timestamp): (r: seq<BroadcastRecord>)
    ensures o.Completed? ==> |r| == |audit| + 1 && r[..|audit|] == audit
    ensures o.Completed? ==> r[|audit|] == BroadcastRecord(|audit| + 1, message, now, o.target)
    ensures !o.Completed? ==> r == audit
  {
    if o.Completed? then audit + [BroadcastRecord(|audit| + 1, message, now, o.target)] else audit
  }

  /** What the statistics screen counts moves with the audit log: a completed
      broadcast adds one to the count of its own type, and nothing else
      changes either count. */
  lemma AuditCountsAfter(audit: seq<BroadcastRecord>, o: Outcome, message: string, now: Timestamp, t: TargetClass)
    ensures CountTarget(AuditAfter(audit, o, message, now), t)
         == CountTarget(audit, t) + (if o.Completed? && o.target == t then 1 else 0)
  {
    if o.Completed? {
      CountTargetAppend(audit, BroadcastRecord(|audit| + 1, message, now, o.target), t);
    }
  }

  /** One send of `text` to each recipient, in order. */
  function SendPlan(recipients: seq<int>, text: string): seq<Send>
  {
    seq(|recipients|, k requires 0 <= k < |recipients| => Send(recipients[k], text))
  }

  /** The sends a command with outcome `o` makes: the escaped message to
      every recipient once the checks passed, nothing otherwise. */
  function SendsFor(o: Outcome, recipients: seq<int>, message: string): seq<Send>
  {
    if o.Completed? then SendPlan(recipients, Escape(message)) else []
  }

  lemma SendPlanIs(recipients: seq<int>, text: string, sends: seq<Send>)
    requires |sends| == |recipients|
    requires forall k :: 0 <= k < |sends| ==> sends[k] == Send(recipients[k], text)
    ensures sends == SendPlan(recipients, text)
  {
  }

  /** The `for` loop over the recipients: each one is sent `text` once, in
      order; a send that raises counts as failed and the loop goes on, any
      other counts as a success. */
  method SendAll(recipients: seq<int>, text: string, failing: set<int>)
    returns (success: nat, failed: nat, sends: seq<Send>)
    ensures success + failed == |recipients|
    ensures failed == CountFailing(recipients, failing)
    ensures |sends| == |recipients|
    ensures forall k :: 0 <= k < |sends| ==> sends[k] == Send(recipients[k], text)
  {
    success, failed, sends := 0, 0, [];
    for i := 0 to |recipients|
      invariant success + failed == i
      invariant failed == CountFailing(recipients[..i], failing)
      invariant |sends| == i
      invariant forall k :: 0 <= k < i ==> sends[k] == Send(recipients[k], text)
    {
      var chatId := recipients[i];
      sends := sends + [Send(chatId, text)];
      if chatId in failing {
        failed := failed + 1;
      } else {
        success := success + 1;
      }
      assert recipients[..i + 1][..i] == recipients[..i];
    }
    assert recipients[..|recipients|] == recipients;
  }

  /** The part of the command after the checks: the send loop, then one
      audit row with the unescaped message, then the summary. */
  method SendAndRecord(reg: Registry, target: TargetClass, recipients: seq<int>, message: string,
                       now: Timestamp, failing: set<int>)
    returns (outcome: Outcome, sends: seq<Send>)
    requires reg.Valid()
    modifies reg`audit
    ensures reg.Valid()
    ensures outcome == Completed(target, |recipients|, |recipients| - CountFailing(recipients, failing),
                                 CountFailing(recipients, failing))
    ensures reg.audit == old(reg.audit) + [BroadcastRecord(|old(reg.audit)| + 1, message, now, target)]
    ensures sends == SendPlan(recipients, Escape(message))
  {
    var success, failed;
    success, failed, sends := SendAll(recipients, Escape(message), failing);
    SendPlanIs(recipients, Escape(message), sends);
    var _ := reg.AppendBroadcast(message, now, target);
    outcome := Completed(target, |recipients|, success, failed);
  }

  /** /gbroadcast (target Groups) and /broadcast (target Users): the checks,
      the send loop and the audit row. `sends` lists the `send_message`
      attempts; the message goes out HTML-escaped. */
  method Broadcast(cfg: Config, reg: Registry, target: TargetClass, callerId: int, args: seq<string>,
                   now: Timestamp, failing: set<int>)
    returns (outcome: Outcome, sends: seq<Send>)
    requires reg.Valid()
    modifies reg`audit
    ensures reg.Valid()
    ensures outcome == BroadcastResult(cfg, target, callerId, args, old(reg.groups), old(reg.users), failing)
    ensures reg.audit == AuditAfter(old(reg.audit), outcome, Join(args), now)
    ensures sends == SendsFor(outcome, Recipients(old(reg.groups), old(reg.users), target), Join(args))
  {
    if !IsOwner(cfg, callerId) {
      outcome, sends := NotOwner, [];
    } else if args == [] {
      outcome, sends := Usage(target), [];
    } else {
      var message := Join(args);
      var recipients := Recipients(reg.groups, reg.users, target);
      if recipients == [] {
        outcome, sends := NoRecipients(target), [];
      } else {
        CompletedResult(cfg, target, callerId, args, reg.groups, reg.users, failing);
        outcome, sends := SendAndRecord(reg, target, recipients, message, now, failing);
      }
    }
  }

  /** A caller other than OWNER_ID gets the fixed rejection, and the audit
      table is left as it was. */
  lemma RejectionWritesNothing(cfg: Config, target: TargetClass, callerId: int, args: seq<string>,
                               groups: map<int, Group>, users: map<int, User>, failing: set<int>,
                               audit: seq<BroadcastRecord>, now: Timestamp)
    requires callerId != cfg.ownerId
    ensures BroadcastResult(cfg, target, callerId, args, groups, users, failing) == NotOwner
    ensures AuditAfter(audit, BroadcastResult(cfg, target, callerId, args, groups, users, failing), Join(args), now) == audit
  {
  }

  /** With an empty table the command stops before the loop and writes no
      audit row; with a non-empty one it writes exactly one, even when every
      send failed. */
  lemma AuditRowIffRecipients(cfg: Config, target: TargetClass, args: seq<string>,
                              groups: map<int, Group>, users: map<int, User>, failing: set<int>,
                              audit: seq<BroadcastRecord>, now: Timestamp)
    requires args != []
    ensures var o := BroadcastResult(cfg, target, cfg.ownerId, args, groups, users, failing);
            |AuditAfter(audit, o, Join(args), now)| == |audit| + (if Registered(groups, users, target) == {} then 0 else 1)
  {
  }

  /** Three registered groups, one of which the transport rejects: two
      successes, one failure and one "groups" audit row with the message. */
  lemma ThreeGroupsOneFailing(cfg: Config, a: Group, b: Group, c: Group,
                              audit: seq<BroadcastRecord>, now: Timestamp)
    requires a.id != b.id && b.id != c.id && a.id != c.id
    ensures var groups := map[a.id := a, b.id := b, c.id := c];
            var o := BroadcastResult(cfg, Groups, cfg.ownerId, ["Hello"], groups, map[], {b.id});
            && o == Completed(Groups, 3, 2, 1)
            && AuditAfter(audit, o, Join(["Hello"]), now) == audit + [BroadcastRecord(|audit| + 1, "Hello", now, Groups)]
  {
    var groups := map[a.id := a, b.id := b, c.id := c];
    var keys := groups.Keys;
    assert keys == {a.id, c.id} + {b.id};
    assert |{a.id, c.id}| == 2;
    assert |keys| == 3;
    assert keys * {b.id} == {b.id};
    assert keys - {b.id} == {a.id, c.id};
    var o := BroadcastResult(cfg, Groups, cfg.ownerId, ["Hello"], groups, map[], {b.id});
    assert Registered(groups, map[], Groups) == keys;
    assert o.Completed?;
    CompletedCounts(cfg, Groups, cfg.ownerId, ["Hello"], groups, map[], {b.id});
  }
}
