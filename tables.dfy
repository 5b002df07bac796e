/** The three SQLite tables of the bot (`chats`, `users`, `broadcast`) as a
    registry object: two maps keyed by their INTEGER PRIMARY KEY and an
    append-only sequence. SQLite itself is not modelled; the two write modes the
    bot uses (INSERT OR REPLACE, INSERT OR IGNORE), the plain INSERT into the
    AUTOINCREMENT table and the order of a full-table scan are. */
module Tables {
  import opened Records

  /** `INSERT OR REPLACE`: the row for `k` is `v` afterwards, whatever was there. */
  function InsertOrReplace<V>(m: map<int, V>, k: int, v: V): (r: map<int, V>)
    ensures r.Keys == m.Keys + {k}
    ensures r[k] == v
    ensures forall j :: j in m && j != k ==> r[j] == m[j]
  {
    m[k := v]
  }

  /** `INSERT OR IGNORE`: a row that already has key `k` is kept as it is. */
  function InsertOrIgnore<V>(m: map<int, V>, k: int, v: V): (r: map<int, V>)
    ensures r.Keys == m.Keys + {k}
    ensures forall j :: j in m ==> r[j] == m[j]
    ensures k !in m ==> r[k] == v
  {
    if k in m then m else m[k := v]
  }

  /** Inserting the same key twice while ignoring conflicts keeps the first row. */
  lemma InsertOrIgnoreKeepsFirst<V>(m: map<int, V>, k: int, first: V, second: V)
    ensures InsertOrIgnore(InsertOrIgnore(m, k, first), k, second) == InsertOrIgnore(m, k, first)
  {
  }

  /** Replacing the same key twice keeps the last row. */
  lemma InsertOrReplaceKeepsLast<V>(m: map<int, V>, k: int, first: V, second: V)
    ensures InsertOrReplace(InsertOrReplace(m, k, first), k, second) == InsertOrReplace(m, k, second)
  {
  }

  predicate StrictlyAscending(s: seq<int>) {
    forall i, j :: 0 <= i < j < |s| ==> s[i] < s[j]
  }

  lemma {:induction false} HasLeast(s: set<int>)
    requires s != {}
    ensures exists m :: m in s && forall x :: x in s ==> m <= x
    decreases |s|
  {
    if forall x :: x !in s {
      assert false;
    }
    var y :| y in s;
    var rest := s - {y};
    if rest == {} {
      assert s == {y};
    } else {
      HasLeast(rest);
      var m :| m in rest && forall x :: x in rest ==> m <= x;
      var least := if y < m then y else m;
      assert forall x :: x in s ==> x == y || x in rest;
      assert least in s && forall x :: x in s ==> least <= x;
    }
  }

  /** The smallest element of a non-empty set. */
  function Least(s: set<int>): (m: int)
    requires s != {}
    ensures m in s && forall x :: x in s ==> m <= x
  {
    HasLeast(s);
    var m :| m in s && forall x :: x in s ==> m <= x;
    m
  }

  /** The keys of a set in ascending order. */
  function SortedIds(s: set<int>): (r: seq<int>)
    ensures StrictlyAscending(r)
    ensures forall x :: x in r <==> x in s
    ensures |r| == |s|
    decreases |s|
  {
    if s == {} then []
    else
      var m := Least(s);
      var rest := SortedIds(s - {m});
      assert |s - {m}| == |s| - 1;
      [m] + rest
  }

  /** The keys a `SELECT ... FROM t` without ORDER BY yields, in order: a full
      scan of a rowid table visits rows by rowid, and an INTEGER PRIMARY KEY
      column is the rowid, so the keys come out ascending. */
  function RowIds<V>(m: map<int, V>): (r: seq<int>)
    ensures StrictlyAscending(r)
    ensures forall x :: x in r <==> x in m
    ensures |r| == |m|
  {
    SortedIds(m.Keys)
  }

  /** The positions of the audit rows whose type is `t`. */
  function RowsOfType(audit: seq<BroadcastRecord>, t: TargetClass): set<int>
  {
    set i | 0 <= i < |audit| && audit[i].target == t
  }

  lemma RowsOfTypeLast(audit: seq<BroadcastRecord>, t: TargetClass)
    requires audit != []
    ensures var p := audit[..|audit| - 1];
            && |audit| - 1 !in RowsOfType(p, t)
            && RowsOfType(audit, t) == RowsOfType(p, t) + (if audit[|audit| - 1].target == t then {|audit| - 1} else {})
  {
    var p := audit[..|audit| - 1];
    assert forall i :: 0 <= i < |p| ==> p[i] == audit[i];
  }

  /** `SELECT COUNT(*) FROM broadcast WHERE broadcast_type = t`: the number
      of audit rows of type `t`. */
  function CountTarget(audit: seq<BroadcastRecord>, t: TargetClass): (n: nat)
    ensures n == |RowsOfType(audit, t)|
    ensures n <= |audit|
  {
    if audit == [] then
      assert RowsOfType(audit, t) == {};
      0
    else
      RowsOfTypeLast(audit, t);
      CountTarget(audit[..|audit| - 1], t) + (if audit[|audit| - 1].target == t then 1 else 0)
  }

  /** Appending an audit row raises the count of its own type by one and
      leaves the other type's count as it was. */
  lemma CountTargetAppend(audit: seq<BroadcastRecord>, r: BroadcastRecord, t: TargetClass)
    ensures CountTarget(audit + [r], t) == CountTarget(audit, t) + (if r.target == t then 1 else 0)
  {
    assert (audit + [r])[..|audit|] == audit;
  }

  /** Every audit row is either a group or a user broadcast, so the two
      statistics counters add up to the size of the table. */
  lemma {:induction false} CountTargetsPartition(audit: seq<BroadcastRecord>)
    ensures CountTarget(audit, Groups) + CountTarget(audit, Users) == |audit|
  {
    if audit != [] {
      CountTargetsPartition(audit[..|audit| - 1]);
    }
  }

  /** Each `chats` row sits under its own chat_id. */
  predicate GroupsKeyed(groups: map<int, Group>) {
    forall id :: id in groups ==> groups[id].id == id
  }

  /** Each `users` row sits under its own user_id. */
  predicate UsersKeyed(users: map<int, User>) {
    forall id :: id in users ==> users[id].id == id
  }

  /** Audit ids are 1, 2, 3, ...: nothing is ever deleted from the
      AUTOINCREMENT table. */
  predicate Numbered(audit: seq<BroadcastRecord>) {
    forall i :: 0 <= i < |audit| ==> audit[i].id == i + 1
  }

  /** The registry: `chats` and `users` keyed by id, `broadcast` in insertion order. */
  class Registry {
    var groups: map<int, Group>
    var users: map<int, User>
    var audit: seq<BroadcastRecord>

    ghost predicate Valid()
      reads this
    {
      GroupsKeyed(groups) && UsersKeyed(users) && Numbered(audit)
    }

    /** The tables as `init_db` leaves them on a fresh database. */
    constructor ()
      ensures Valid()
      ensures groups == map[] && users == map[] && audit == []
    {
      groups := map[];
      users := map[];
      audit := [];
    }

    /** `INSERT OR REPLACE INTO chats`. */
    method InsertOrReplaceGroup(g: Group)
      requires Valid()
      modifies this`groups
      ensures Valid()
      ensures groups == InsertOrReplace(old(groups), g.id, g)
    {
      groups := InsertOrReplace(groups, g.id, g);
    }

    /** `INSERT OR IGNORE INTO chats`. */
    method InsertOrIgnoreGroup(g: Group)
      requires Valid()
      modifies this`groups
      ensures Valid()
      ensures groups == InsertOrIgnore(old(groups), g.id, g)
    {
      groups := InsertOrIgnore(groups, g.id, g);
    }

    /** `INSERT OR IGNORE INTO users`. */
    method InsertOrIgnoreUser(u: User)
      requires Valid()
      modifies this`users
      ensures Valid()
      ensures users == InsertOrIgnore(old(users), u.id, u)
    {
      users := InsertOrIgnore(users, u.id, u);
    }

    /** `INSERT INTO broadcast (message, timestamp, broadcast_type)`: the new row
        gets the next AUTOINCREMENT id and goes at the end. */
    method AppendBroadcast(message: string, timestamp: Timestamp, target: TargetClass)
      returns (rec: BroadcastRecord)
      requires Valid()
      modifies this`audit
      ensures Valid()
      ensures rec == BroadcastRecord(|old(audit)| + 1, message, timestamp, target)
      ensures audit == old(audit) + [rec]
    {
      rec := BroadcastRecord(|audit| + 1, message, timestamp, target);
      audit := audit + [rec];
    }
  }
}
