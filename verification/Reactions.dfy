/** Direct-message reactions: one per user and message, and the aggregate sent to clients. */
module Reactions {
  import opened DmThreads
  import opened Text

  datatype Emoji = Emoji(text: string)
  datatype MessageId = MessageId(id: string)

  datatype RowKey = RowKey(message: MessageId, user: User)

  /** The other member of the message's thread. */
  function Peer(threads: map<MessageId, Thread>, m: MessageId, me: User): Result<User> {
    if m in threads then PeerIn(threads[m], me) else Err(NotFound)
  }

  /** A stored reaction; `at` is when it got its emoji. */
  datatype Reaction = Reaction(id: string, emoji: Emoji, at: int)

  type Table = map<RowKey, Reaction>

  /** `react_core` on the table: same emoji off, other emoji swapped, none inserted. */
  function React(rows: Table, m: MessageId, u: User, e: Emoji, newId: string, now: int): Table {
    var k := RowKey(m, u);
    if k !in rows then rows[k := Reaction(newId, e, now)]
    else if rows[k].emoji == e then rows - {k}
    else rows[k := rows[k].(emoji := e, at := now)]
  }

  function Clear(rows: Table, m: MessageId, u: User): Table {
    rows - {RowKey(m, u)}
  }

  /** Who reacts to what with which emoji: all that a client sees. */
  function Emojis(rows: Table): map<RowKey, Emoji> {
    map k | k in rows :: rows[k].emoji
  }

  /** Reacting twice with one emoji: back to the very same rows if there was no reaction; to the
      same emoji under a new id and time if it was this one; otherwise the reaction is lost.
      So clients see the state restored exactly when there was no other reaction. */
  lemma ReactTwice(rows: Table, m: MessageId, u: User, e: Emoji, id1: string, t1: int, id2: string, t2: int)
    ensures var k, rows' := RowKey(m, u), React(React(rows, m, u, e, id1, t1), m, u, e, id2, t2);
      && (k !in rows ==> rows' == rows)
      && (k in rows && rows[k].emoji == e ==> rows' == rows[k := Reaction(id2, e, t2)])
      && (k in rows && rows[k].emoji != e ==> rows' == Clear(rows, m, u))
      && (Emojis(rows') == Emojis(rows) <==> k !in rows || rows[k].emoji == e)
  {
    var k := RowKey(m, u);
    var once := React(rows, m, u, e, id1, t1);
    var rows' := React(once, m, u, e, id2, t2);
    if k !in rows {
      assert once - {k} == rows;
    } else if rows[k].emoji == e {
      assert (rows - {k})[k := Reaction(id2, e, t2)] == rows[k := Reaction(id2, e, t2)];
    } else {
      assert once - {k} == rows - {k};
      assert k in Emojis(rows) && k !in Emojis(rows');
    }
  }

  /** Reacting once: the same emoji goes; another takes its place under the old id with a new
      time; none before means a new row. Nobody else's reaction changes. */
  lemma ReactOnce(rows: Table, m: MessageId, u: User, e: Emoji, newId: string, now: int)
    ensures var k, rows' := RowKey(m, u), React(rows, m, u, e, newId, now);
      && (k in rows' <==> k !in rows || rows[k].emoji != e)
      && (k !in rows ==> rows'[k] == Reaction(newId, e, now))
      && (k in rows && rows[k].emoji != e ==> rows'[k] == Reaction(rows[k].id, e, now))
      && (forall x :: x != k ==> (x in rows' <==> x in rows) && (x in rows ==> rows'[x] == rows[x]))
  {
  }

  /** Clearing removes the user's reaction and no other. */
  lemma ClearOnce(rows: Table, m: MessageId, u: User)
    ensures var k, rows' := RowKey(m, u), Clear(rows, m, u);
      k !in rows' && forall x :: x != k ==> (x in rows' <==> x in rows) && (x in rows ==> rows'[x] == rows[x])
  {
  }

  // ---------- the rows of one message ----------

  datatype Row = Row(emoji: Emoji, user: User)

  /** `rows` lists the reactions to `m`, each user once. */
  ghost predicate Lists(table: Table, m: MessageId, rows: seq<Row>) {
    && (forall r :: r in rows <==> RowKey(m, r.user) in table && table[RowKey(m, r.user)].emoji == r.emoji)
    && (forall i, j :: 0 <= i < j < |rows| ==> rows[i].user != rows[j].user)
  }

  /** How many of the rows carry the emoji: the window count the query puts on each row. */
  function Count(rows: seq<Row>, e: Emoji): nat {
    if rows == [] then 0
    else Count(rows[..|rows| - 1], e) + if rows[|rows| - 1].emoji == e then 1 else 0
  }

  function UsersOf(rows: seq<Row>, e: Emoji): seq<User> {
    if rows == [] then []
    else
      var head, last := UsersOf(rows[..|rows| - 1], e), rows[|rows| - 1];
      if last.emoji == e then head + [last.user] else head
  }

  lemma {:induction false} UsersOfIsExact(rows: seq<Row>, e: Emoji)
    ensures |UsersOf(rows, e)| == Count(rows, e)
    ensures forall u :: u in UsersOf(rows, e) <==> Row(e, u) in rows
  {
    if rows != [] {
      var n := |rows| - 1;
      UsersOfIsExact(rows[..n], e);
      assert rows == rows[..n] + [rows[n]];
    }
  }

  // ---------- sorted user lists ----------

  predicate Sorted(us: seq<string>) {
    |us| <= 1 || (!Less(us[1], us[0]) && Sorted(us[1..]))
  }

  function Insert(u: string, us: seq<string>): seq<string> {
    if us == [] || Less(u, us[0]) then [u] + us else [us[0]] + Insert(u, us[1..])
  }

  function Sort(us: seq<string>): seq<string> {
    if us == [] then [] else Insert(us[0], Sort(us[1..]))
  }

  lemma {:induction false} InsertSorts(u: string, us: seq<string>)
    requires Sorted(us)
    ensures Sorted(Insert(u, us)) && Insert(u, us) != []
    ensures Insert(u, us)[0] == if us == [] || Less(u, us[0]) then u else us[0]
  {
    if us == [] {
    } else if Less(u, us[0]) {
      LessTotal(u, us[0]);
      assert ([u] + us)[1..] == us;
    } else {
      InsertSorts(u, us[1..]);
      assert ([us[0]] + Insert(u, us[1..]))[1..] == Insert(u, us[1..]);
    }
  }

  lemma {:induction false} InsertKeeps(u: string, us: seq<string>)
    ensures multiset(Insert(u, us)) == multiset(us) + multiset{u}
  {
    if us != [] && !Less(u, us[0]) {
      InsertKeeps(u, us[1..]);
      assert us == [us[0]] + us[1..];
    }
  }

  lemma {:induction false} SortIsSorted(us: seq<string>)
    ensures Sorted(Sort(us))
  {
    if us != [] {
      SortIsSorted(us[1..]);
      InsertSorts(us[0], Sort(us[1..]));
    }
  }

  lemma {:induction false} SortKeeps(us: seq<string>)
    ensures multiset(Sort(us)) == multiset(us)
  {
    if us != [] {
      SortKeeps(us[1..]);
      InsertKeeps(us[0], Sort(us[1..]));
      assert us == [us[0]] + us[1..];
    }
  }

  /** Sorting sorts, and keeps every element as often as it was there. */
  lemma SortSorts(us: seq<string>)
    ensures Sorted(Sort(us)) && multiset(Sort(us)) == multiset(us)
  {
    SortIsSorted(us);
    SortKeeps(us);
  }

  // ---------- the aggregate ----------

  datatype Entry = Entry(emoji: Emoji, count: int, users: seq<User>, mine: bool)

  predicate Ascending(es: seq<Entry>) {
    forall i, j :: 0 <= i < j < |es| ==> Less(es[i].emoji.text, es[j].emoji.text)
  }

  /** One entry: every user who reacted with its emoji, sorted, counted, and whether I did. */
  ghost predicate EntryOk(rows: seq<Row>, me: User, x: Entry) {
    && x.count == |x.users| == Count(rows, x.emoji)
    && Sorted(x.users)
    && (forall u :: u in x.users <==> Row(x.emoji, u) in rows)
    && (x.mine <==> me in x.users)
  }

  ghost predicate Aggregates(rows: seq<Row>, me: User, items: seq<Entry>) {
    && Ascending(items)
    && (forall i :: 0 <= i < |items| ==> EntryOk(rows, me, items[i]))
    && Covers(rows, items)
  }

  function SumCounts(es: seq<Entry>): int {
    if es == [] then 0 else SumCounts(es[..|es| - 1]) + es[|es| - 1].count
  }

  function Without(rows: seq<Row>, e: Emoji): seq<Row> {
    if rows == [] then []
    else
      var head, last := Without(rows[..|rows| - 1], e), rows[|rows| - 1];
      if last.emoji == e then head else head + [last]
  }

  lemma {:induction false} WithoutLength(rows: seq<Row>, e: Emoji)
    ensures |Without(rows, e)| == |rows| - Count(rows, e)
  {
    if rows != [] { WithoutLength(rows[..|rows| - 1], e); }
  }

  lemma {:induction false} WithoutRows(rows: seq<Row>, e: Emoji)
    ensures forall r :: r in Without(rows, e) <==> r in rows && r.emoji != e
  {
    if rows != [] {
      var n := |rows| - 1;
      WithoutRows(rows[..n], e);
      assert rows == rows[..n] + [rows[n]];
    }
  }

  lemma {:induction false} WithoutCounts(rows: seq<Row>, e: Emoji, x: Emoji)
    requires x != e
    ensures Count(Without(rows, e), x) == Count(rows, x)
  {
    if rows != [] {
      var n := |rows| - 1;
      WithoutCounts(rows[..n], e, x);
      if rows[n].emoji != e {
        var w := Without(rows, e);
        assert w[..|w| - 1] == Without(rows[..n], e);
      }
    }
  }

  /** Every row's emoji has an entry. */
  ghost predicate Covers(rows: seq<Row>, items: seq<Entry>) {
    forall r :: r in rows ==> exists i :: 0 <= i < |items| && items[i].emoji == r.emoji
  }

  lemma CoversRest(rows: seq<Row>, items: seq<Entry>)
    requires items != [] && Covers(rows, items)
    ensures Covers(Without(rows, items[|items| - 1].emoji), items[..|items| - 1])
  {
    var n := |items| - 1;
    WithoutRows(rows, items[n].emoji);
    forall r | r in Without(rows, items[n].emoji) ensures exists i :: 0 <= i < n && items[..n][i].emoji == r.emoji {
      var i :| 0 <= i < |items| && items[i].emoji == r.emoji;
      assert items[..n][i].emoji == r.emoji;
    }
  }

  lemma {:induction false} CountsCover(rows: seq<Row>, items: seq<Entry>)
    requires Ascending(items)
    requires forall i :: 0 <= i < |items| ==> items[i].count == Count(rows, items[i].emoji)
    requires Covers(rows, items)
    ensures SumCounts(items) == |rows|
    decreases |items|
  {
    assert rows == [] || rows[0] in rows;
    if items != [] {
      var n := |items| - 1;
      var e := items[n].emoji;
      var rest, left := items[..n], Without(rows, e);
      WithoutLength(rows, e);
      CoversRest(rows, items);
      forall i | 0 <= i < |rest| ensures rest[i].count == Count(left, rest[i].emoji) {
        LessTotal(rest[i].emoji.text, e.text);
        WithoutCounts(rows, e, rest[i].emoji);
      }
      CountsCover(left, rest);
    }
  }

  /** The payload partitions the reactors: the counts add up to the rows, every user is in
      exactly one entry, and at most one entry is mine. */
  lemma PayloadPartitions(table: Table, m: MessageId, rows: seq<Row>, me: User, items: seq<Entry>)
    requires Lists(table, m, rows) && Aggregates(rows, me, items)
    ensures SumCounts(items) == |rows|
    ensures forall i, j :: 0 <= i < |items| && 0 <= j < |items| && items[i].mine && items[j].mine ==> i == j
    ensures forall u, i :: 0 <= i < |items| ==>
      (u in items[i].users <==> RowKey(m, u) in table && table[RowKey(m, u)].emoji == items[i].emoji)
    ensures forall u :: RowKey(m, u) in table ==>
      exists i :: 0 <= i < |items| && u in items[i].users && forall j :: 0 <= j < |items| && j != i ==> u !in items[j].users
  {
    CountsCover(rows, items);
    forall u, i | 0 <= i < |items|
      ensures u in items[i].users <==> RowKey(m, u) in table && table[RowKey(m, u)].emoji == items[i].emoji
    {
      assert EntryOk(rows, me, items[i]);
      assert Row(items[i].emoji, u) in rows <==> RowKey(m, u) in table && table[RowKey(m, u)].emoji == items[i].emoji;
    }
    forall i, j | 0 <= i < j < |items| ensures items[i].emoji != items[j].emoji {
      LessTotal(items[i].emoji.text, items[j].emoji.text);
    }
    forall i, j | 0 <= i < |items| && 0 <= j < |items| && items[i].mine && items[j].mine ensures i == j {
      assert EntryOk(rows, me, items[i]) && EntryOk(rows, me, items[j]);
      assert me in items[i].users && me in items[j].users;
    }
    forall u | RowKey(m, u) in table
      ensures exists i :: 0 <= i < |items| && u in items[i].users && forall j :: 0 <= j < |items| && j != i ==> u !in items[j].users
    {
      assert Row(table[RowKey(m, u)].emoji, u) in rows;
      var i :| 0 <= i < |items| && items[i].emoji == table[RowKey(m, u)].emoji;
      assert u in items[i].users;
    }
  }

  lemma SortedEntryOk(rows: seq<Row>, me: User, e: Emoji)
    ensures var users := Sort(UsersOf(rows, e)); EntryOk(rows, me, Entry(e, Count(rows, e), users, me in users))
  {
    SortSorts(UsersOf(rows, e));
    UsersOfIsExact(rows, e);
    SameElements(UsersOf(rows, e), Sort(UsersOf(rows, e)));
  }

  // ---------- the table as the handlers change and read it ----------

  class ReactionTable {
    var threads: map<MessageId, Thread>
    var rows: Table

    /** The writer job of `react_core`. */
    method ReactCore(m: MessageId, me: User, e: Emoji, newId: string, now: int) returns (peer: Result<User>)
      modifies this`rows
      ensures peer == Peer(threads, m, me)
      ensures peer.Ok? <==> m in threads && (me == threads[m].a || me == threads[m].b)
      ensures rows == if peer.Ok? then React(old(rows), m, me, e, newId, now) else old(rows)
    {
      peer := Peer(threads, m, me);
      if peer.Err? { return; }
      var k := RowKey(m, me);
      if k in rows {
        if rows[k].emoji == e {
          rows := rows - {k};
        } else {
          rows := rows[k := rows[k].(emoji := e, at := now)];
        }
      } else {
        rows := rows[k := Reaction(newId, e, now)];
      }
    }

    /** The writer job of `clear_my_reaction`. */
    method ClearMine(m: MessageId, me: User) returns (peer: Result<User>)
      modifies this`rows
      ensures peer == Peer(threads, m, me)
      ensures peer.Ok? <==> m in threads && (me == threads[m].a || me == threads[m].b)
      ensures rows == if peer.Ok? then Clear(old(rows), m, me) else old(rows)
    {
      peer := Peer(threads, m, me);
      if peer.Ok? { rows := rows - {RowKey(m, me)}; }
    }

    method Select(m: MessageId) returns (found: seq<Row>)
      ensures Lists(rows, m, found)
    {
      var left := rows.Keys;
      found := [];
      while left != {}
        invariant left <= rows.Keys
        invariant forall r :: r in found <==>
          RowKey(m, r.user) in rows && RowKey(m, r.user) !in left && rows[RowKey(m, r.user)].emoji == r.emoji
        invariant forall i, j :: 0 <= i < j < |found| ==> found[i].user != found[j].user
        decreases |left|
      {
        var k :| k in left;
        left := left - {k};
        if k.message == m {
          assert k == RowKey(m, k.user);
          assert forall i :: 0 <= i < |found| ==> found[i] in found;
          found := found + [Row(rows[k].emoji, k.user)];
        }
      }
    }

    /** `reaction_payload_for`: a map from emoji to count and users, filled row by row and
        read out in ascending order of emoji. */
    method PayloadFor(m: MessageId, me: User) returns (payload: Result<seq<Entry>>, ghost found: seq<Row>)
      ensures payload.Ok? <==> m in threads && (me == threads[m].a || me == threads[m].b)
      ensures payload.Ok? ==> Lists(rows, m, found) && Aggregates(found, me, payload.value)
    {
      found := [];
      var peer := Peer(threads, m, me);
      if peer.Err? { return Err(peer.error), []; }
      var selected := Select(m);
      found := selected;
      var byEmoji: map<Emoji, (int, seq<User>)> := map[];
      var n := 0;
      while n < |selected|
        invariant n <= |selected|
        invariant forall e :: e in byEmoji <==> Count(selected[..n], e) > 0
        invariant forall e :: e in byEmoji ==> byEmoji[e] == (Count(selected, e), UsersOf(selected[..n], e))
        invariant forall e :: e !in byEmoji ==> UsersOf(selected[..n], e) == []
      {
        var r := selected[n];
        assert selected[..n + 1][..n] == selected[..n];
        var entry := if r.emoji in byEmoji then byEmoji[r.emoji] else (Count(selected, r.emoji), []);
        byEmoji := byEmoji[r.emoji := (entry.0, entry.1 + [r.user])];
        n := n + 1;
      }
      assert selected[..n] == selected;
      var items := ReadOut(selected, byEmoji, me);
      payload := Ok(items);
    }

    method ReadOut(selected: seq<Row>, byEmoji: map<Emoji, (int, seq<User>)>, me: User) returns (items: seq<Entry>)
      requires forall e :: e in byEmoji <==> Count(selected, e) > 0
      requires forall e :: e in byEmoji ==> byEmoji[e] == (Count(selected, e), UsersOf(selected, e))
      ensures Aggregates(selected, me, items)
    {
      items := [];
      var left := byEmoji.Keys;
      while left != {}
        invariant left <= byEmoji.Keys
        invariant PartOf(selected, me, byEmoji.Keys, left, items)
        decreases |left|
      {
        var e := Least(left);
        var users := Sort(byEmoji[e].1);
        var entry := Entry(e, byEmoji[e].0, users, me in users);
        SortedEntryOk(selected, me, e);
        PartGrows(selected, me, byEmoji.Keys, left, items, entry);
        left := left - {e};
        items := items + [entry];
      }
      PartIsAll(selected, me, byEmoji.Keys, items);
    }
  }

  /** The entries read out so far: all of `keys` but those `left`, which come after them. */
  ghost predicate PartOf(rows: seq<Row>, me: User, keys: set<Emoji>, left: set<Emoji>, items: seq<Entry>) {
    && Ascending(items)
    && (forall i :: 0 <= i < |items| ==> EntryOk(rows, me, items[i]))
    && (forall e :: e in keys && e !in left ==> exists i :: 0 <= i < |items| && items[i].emoji == e)
    && (forall i, e :: 0 <= i < |items| && e in left ==> Less(items[i].emoji.text, e.text))
  }

  lemma PartGrows(rows: seq<Row>, me: User, keys: set<Emoji>, left: set<Emoji>, items: seq<Entry>, entry: Entry)
    requires PartOf(rows, me, keys, left, items) && entry.emoji in left && EntryOk(rows, me, entry)
    requires forall e :: e in left && e != entry.emoji ==> Less(entry.emoji.text, e.text)
    ensures PartOf(rows, me, keys, left - {entry.emoji}, items + [entry])
  {
    var items' := items + [entry];
    assert items'[|items|] == entry;
    forall e | e in keys && e !in left - {entry.emoji} ensures exists i :: 0 <= i < |items'| && items'[i].emoji == e {
      if e != entry.emoji {
        var i :| 0 <= i < |items| && items[i].emoji == e;
        assert items'[i].emoji == e;
      }
    }
  }

  lemma PartIsAll(rows: seq<Row>, me: User, keys: set<Emoji>, items: seq<Entry>)
    requires PartOf(rows, me, keys, {}, items) && forall e :: e in keys <==> Count(rows, e) > 0
    ensures Aggregates(rows, me, items)
  {
    forall r | r in rows ensures exists i :: 0 <= i < |items| && items[i].emoji == r.emoji {
      UsersOfIsExact(rows, r.emoji);
      assert r.user in UsersOf(rows, r.emoji);
      assert r.emoji in keys;
    }
  }

  lemma SameElements(a: seq<string>, b: seq<string>)
    requires multiset(a) == multiset(b)
    ensures |a| == |b| && forall u :: u in a <==> u in b
  {
    assert |multiset(a)| == |a| && |multiset(b)| == |b|;
    forall u ensures u in a <==> u in b {
      assert u in a <==> u in multiset(a);
      assert u in b <==> u in multiset(b);
    }
  }

  /** The next key in the map's order. */
  method Least(keys: set<Emoji>) returns (least: Emoji)
    requires keys != {}
    ensures least in keys && forall e :: e in keys && e != least ==> Less(least.text, e.text)
  {
    least :| least in keys;
    var left := keys - {least};
    while left != {}
      invariant least in keys && left <= keys
      invariant forall e :: e in keys && e !in left && e != least ==> Less(least.text, e.text)
      decreases |left|
    {
      var e :| e in left;
      left := left - {e};
      LessTotal(least.text, e.text);
      if Less(e.text, least.text) {
        forall x | x in keys && x !in left && x != e ensures Less(e.text, x.text) {
          if x != least { LessTransitive(e.text, least.text, x.text); }
        }
        least := e;
      } else {
        assert e == least || Less(least.text, e.text);
      }
    }
  }
}
