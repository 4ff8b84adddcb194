/** Keyset pagination: pages of rows in descending (timestamp, id) order, the cursor of each
    page taken from the last row of the one before, while rows come and go in between. */
module Keyset {
  import opened Common
  import opened Text
  import opened Cursor

  /** The order of the page queries, and their row filter against the cursor. */
  predicate Before(a: Key, b: Key) {
    a.at < b.at || (a.at == b.at && Less(a.id, b.id))
  }

  lemma BeforeTotal(a: Key, b: Key)
    ensures !(Before(a, b) && Before(b, a)) && !Before(a, a)
    ensures a == b || Before(a, b) || Before(b, a)
  {
    LessTotal(a.id, b.id);
    LessTotal(a.id, a.id);
  }

  lemma BeforeTransitive(a: Key, b: Key, c: Key)
    requires Before(a, b) && Before(b, c)
    ensures Before(a, c)
  {
    if a.at == b.at && b.at == c.at { LessTransitive(a.id, b.id, c.id); }
  }

  predicate Descending(ks: seq<Key>) {
    forall i, j :: 0 <= i < j < |ks| ==> Before(ks[j], ks[i])
  }

  /** What `WHERE key < cur ORDER BY key DESC LIMIT n` returns: rows below the cursor in
      descending order, at most n, and none missed above the last one or, if the page is
      not full, anywhere. */
  ghost predicate IsPage(rows: set<Key>, cur: Key, n: nat, page: seq<Key>) {
    && |page| <= n
    && Descending(page)
    && (forall k :: k in page ==> k in rows && Before(k, cur))
    && (forall k :: k in rows && Before(k, cur) && k !in page ==>
          |page| == n && forall x :: x in page ==> Before(k, x))
  }

  // ---------- the query has exactly one answer ----------

  ghost predicate IsGreatest(rows: set<Key>, m: Key) {
    m in rows && forall k :: k in rows && k != m ==> Before(k, m)
  }

  lemma {:induction false} GreatestExists(rows: set<Key>) returns (m: Key)
    requires rows != {}
    ensures IsGreatest(rows, m)
    decreases |rows|
  {
    m :| m in rows;
    var rest := rows - {m};
    if rest != {} {
      var r := GreatestExists(rest);
      BeforeTotal(m, r);
      if Before(m, r) {
        m := r;
      } else {
        forall k | k in rows && k != m ensures Before(k, m) {
          if k != r { BeforeTransitive(k, r, m); }
        }
      }
    }
  }

  lemma {:induction false} PageExists(rows: set<Key>, cur: Key, n: nat) returns (page: seq<Key>)
    ensures IsPage(rows, cur, n, page)
    decreases n
  {
    var below := set k | k in rows && Before(k, cur);
    if n == 0 || below == {} {
      page := [];
      assert forall k :: k in rows && Before(k, cur) ==> k in below;
    } else {
      var m := GreatestExists(below);
      var rest := PageExists(rows, m, n - 1);
      page := [m] + rest;
      forall k | k in page ensures k in rows && Before(k, cur) {
        if k != m { BeforeTransitive(k, m, cur); }
      }
      forall k | k in rows && Before(k, cur) && k !in page
        ensures |page| == n && forall x :: x in page ==> Before(k, x)
      {
        assert k in below && k != m && k !in rest;
      }
    }
  }

  /** A page is its greatest row followed by the page below that row. */
  lemma PageTail(rows: set<Key>, cur: Key, n: nat, p: seq<Key>)
    requires IsPage(rows, cur, n, p) && p != []
    ensures n > 0 && IsPage(rows, p[0], n - 1, p[1..])
    ensures p[0] in rows && Before(p[0], cur)
    ensures forall k :: k in rows && Before(k, cur) && k != p[0] ==> Before(k, p[0])
  {
    var rest := p[1..];
    assert p[0] in p && p == [p[0]] + rest;
    forall i | 0 <= i < |rest| ensures Before(rest[i], p[0]) { assert rest[i] == p[i + 1]; }
    forall k | k in rest ensures k in rows && Before(k, p[0]) { assert k in p; }
    forall k | k in rows && Before(k, cur) && k != p[0] ensures Before(k, p[0]) {
      if k in rest { assert Before(k, p[0]); } else { assert k !in p; }
    }
    forall k | k in rows && Before(k, p[0]) && k !in rest
      ensures |rest| == n - 1 && forall x :: x in rest ==> Before(k, x)
    {
      BeforeTransitive(k, p[0], cur);
      BeforeTotal(k, k);
      assert k !in p;
    }
  }

  /** The page query determines its answer. */
  lemma {:induction false} PageUnique(rows: set<Key>, cur: Key, n: nat, p: seq<Key>, q: seq<Key>)
    requires IsPage(rows, cur, n, p) && IsPage(rows, cur, n, q)
    ensures p == q
    decreases n
  {
    if p == [] && q != [] {
      PageTail(rows, cur, n, q);
      assert false;
    } else if p != [] && q == [] {
      PageTail(rows, cur, n, p);
      assert false;
    } else if p != [] {
      PageTail(rows, cur, n, p);
      PageTail(rows, cur, n, q);
      BeforeTotal(p[0], q[0]);
      PageUnique(rows, p[0], n - 1, p[1..], q[1..]);
      assert p == [p[0]] + p[1..] && q == [q[0]] + q[1..];
    }
  }

  // ---------- walking page by page ----------

  /** `next_cursor_from`: no cursor after a short page, else that of the last row. */
  function NextCursor(page: seq<Key>, limit: nat): Option<string> {
    if |page| < limit || page == [] then None else Some(CursorOf(page[|page| - 1]))
  }

  ghost predicate Storable(rows: set<Key>) {
    forall k :: k in rows ==> IsI64(k.at)
  }

  /** `pages[i]` answers the i-th request, against the table as it is then; the client follows
      the cursors for as long as it likes. */
  ghost predicate Walk(tables: seq<set<Key>>, cursor: Option<string>, limit: nat, pages: seq<seq<Key>>)
    decreases |pages|
  {
    && 1 <= |pages| <= |tables|
    && Storable(tables[0])
    && IsPage(tables[0], Keyset(cursor), limit, pages[0])
    && (|pages| > 1 ==>
          && NextCursor(pages[0], limit).Some?
          && Walk(tables[1..], NextCursor(pages[0], limit), limit, pages[1..]))
  }

  /** The walk has reached a page without a cursor. */
  predicate Finished(pages: seq<seq<Key>>, limit: nat) {
    pages != [] && NextCursor(pages[|pages| - 1], limit).None?
  }

  function Flatten(pages: seq<seq<Key>>): seq<Key> {
    if pages == [] then [] else pages[0] + Flatten(pages[1..])
  }

  /** Following the cursor of a page starts the next one at its last row. */
  lemma NextStartsAtLast(rows: set<Key>, cur: Key, limit: nat, page: seq<Key>)
    requires Storable(rows) && IsPage(rows, cur, limit, page) && NextCursor(page, limit).Some?
    ensures page != [] && Keyset(NextCursor(page, limit)) == page[|page| - 1]
  {
    assert page[|page| - 1] in page;
    CursorRoundTrip(page[|page| - 1]);
  }

  /** What a walk returns is strictly descending, hence free of repetitions, below its start. */
  lemma {:induction false} WalkDescends(tables: seq<set<Key>>, cursor: Option<string>, limit: nat, pages: seq<seq<Key>>)
    requires Walk(tables, cursor, limit, pages)
    ensures Descending(Flatten(pages))
    ensures forall k :: k in Flatten(pages) ==> Before(k, Keyset(cursor))
    decreases |pages|
  {
    var p, rest := pages[0], Flatten(pages[1..]);
    if |pages| > 1 {
      NextStartsAtLast(tables[0], Keyset(cursor), limit, p);
      WalkDescends(tables[1..], NextCursor(p, limit), limit, pages[1..]);
      var last := p[|p| - 1];
      assert last in p;
      forall k | k in rest ensures Before(k, Keyset(cursor)) && forall x :: x in p ==> Before(k, x) {
        BeforeTransitive(k, last, Keyset(cursor));
        forall x | x in p ensures Before(k, x) {
          if x != last { BeforeTransitive(k, last, x); }
        }
      }
      DescendingConcat(p, rest);
    } else {
      assert rest == [];
      assert Flatten(pages) == p;
    }
  }

  lemma DescendingConcat(a: seq<Key>, b: seq<Key>)
    requires Descending(a) && Descending(b)
    requires forall x, k :: x in a && k in b ==> Before(k, x)
    ensures Descending(a + b)
  {
    forall i, j | 0 <= i < j < |a + b| ensures Before((a + b)[j], (a + b)[i]) {
      if i < |a| <= j {
        assert a[i] in a && b[j - |a|] in b;
      }
    }
  }

  /** A finished walk has returned every row that was there throughout and below its start,
      whatever else was inserted or deleted between the pages. */
  lemma {:induction false} WalkMissesNothing(tables: seq<set<Key>>, cursor: Option<string>, limit: nat, pages: seq<seq<Key>>, k: Key)
    requires limit >= 1 && Walk(tables, cursor, limit, pages) && Finished(pages, limit)
    requires Before(k, Keyset(cursor)) && forall i :: 0 <= i < |pages| ==> k in tables[i]
    ensures k in Flatten(pages)
    decreases |pages|
  {
    var p := pages[0];
    if k !in p {
      if |pages| > 1 {
        NextStartsAtLast(tables[0], Keyset(cursor), limit, p);
        assert p[|p| - 1] in p;
        assert forall i :: 0 <= i < |pages[1..]| ==> tables[1..][i] == tables[i + 1];
        WalkMissesNothing(tables[1..], NextCursor(p, limit), limit, pages[1..], k);
      } else {
        assert false;
      }
    }
  }

  /** Each row of page i was in the table when page i was read. */
  lemma {:induction false} WalkInventsNothing(tables: seq<set<Key>>, cursor: Option<string>, limit: nat, pages: seq<seq<Key>>, i: nat)
    requires Walk(tables, cursor, limit, pages) && i < |pages|
    ensures forall k :: k in pages[i] ==> k in tables[i]
    decreases |pages|
  {
    if i > 0 {
      WalkInventsNothing(tables[1..], NextCursor(pages[0], limit), limit, pages[1..], i - 1);
    }
  }

  lemma TimesNext(limit: nat, n: nat)
    ensures limit * (n + 1) == limit * n + limit
  {
  }

  lemma {:induction false} FullPages(tables: seq<set<Key>>, cursor: Option<string>, limit: nat, pages: seq<seq<Key>>)
    requires Walk(tables, cursor, limit, pages)
    ensures |Flatten(pages)| == limit * (|pages| - 1) + |pages[|pages| - 1]|
    decreases |pages|
  {
    if |pages| > 1 {
      FullPages(tables[1..], NextCursor(pages[0], limit), limit, pages[1..]);
      TimesNext(limit, |pages| - 2);
      assert |pages[0]| == limit;
      assert pages[1..][|pages| - 2] == pages[|pages| - 1];
    } else {
      assert Flatten(pages[1..]) == [];
    }
  }

  lemma {:induction false} LastPage(tables: seq<set<Key>>, cursor: Option<string>, limit: nat, pages: seq<seq<Key>>)
    requires limit >= 1 && Walk(tables, cursor, limit, pages) && !Finished(pages, limit)
    ensures |pages[|pages| - 1]| == limit
    decreases |pages|
  {
    if |pages| > 1 {
      assert pages[1..][|pages| - 2] == pages[|pages| - 1];
      LastPage(tables[1..], NextCursor(pages[0], limit), limit, pages[1..]);
    }
  }

  lemma {:induction false} DescendingFits(ks: seq<Key>, within: set<Key>)
    requires Descending(ks) && forall k :: k in ks ==> k in within
    ensures |ks| <= |within|
  {
    if ks != [] {
      var n := |ks| - 1;
      assert ks[n] in ks;
      forall k | k in ks[..n] ensures k in within - {ks[n]} {
        var i :| 0 <= i < n && ks[..n][i] == k;
        assert Before(ks[n], ks[i]);
        BeforeTotal(ks[n], ks[n]);
      }
      DescendingFits(ks[..n], within - {ks[n]});
    }
  }

  lemma {:induction false} FlattenWithin(tables: seq<set<Key>>, cursor: Option<string>, limit: nat, pages: seq<seq<Key>>, within: set<Key>)
    requires Walk(tables, cursor, limit, pages)
    requires forall i :: 0 <= i < |pages| ==> tables[i] <= within
    ensures forall k :: k in Flatten(pages) ==> k in within
    decreases |pages|
  {
    assert tables[0] <= within;
    if |pages| > 1 {
      assert forall i :: 0 <= i < |pages[1..]| ==> tables[1..][i] == tables[i + 1];
      FlattenWithin(tables[1..], NextCursor(pages[0], limit), limit, pages[1..], within);
    } else {
      assert Flatten(pages[1..]) == [];
    }
  }

  /** A walk ends: if only finitely many rows ever exist, it reads at most one page more than
      they fill. */
  lemma WalkEnds(tables: seq<set<Key>>, cursor: Option<string>, limit: nat, pages: seq<seq<Key>>, ever: set<Key>)
    requires limit >= 1 && Walk(tables, cursor, limit, pages)
    requires forall i :: 0 <= i < |pages| ==> tables[i] <= ever
    ensures limit * (|pages| - 1) <= |ever|
    ensures limit * |pages| > |ever| ==> Finished(pages, limit)
  {
    FullPages(tables, cursor, limit, pages);
    if !Finished(pages, limit) { LastPage(tables, cursor, limit, pages); }
    TimesNext(limit, |pages| - 1);
    WalkDescends(tables, cursor, limit, pages);
    FlattenWithin(tables, cursor, limit, pages, ever);
    DescendingFits(Flatten(pages), ever);
  }

  /** The first page's sentinel lets through exactly the rows that are not of the last
      representable second, and of that second those whose id is empty or starts before "~". */
  lemma SentinelAdmits(k: Key)
    requires IsI64(k.at)
    ensures Before(k, Keyset(None)) <==> k.at < I64_MAX || k.id == "" || k.id[0] < '~'
  {
    assert Less("", "~") && "~"[1..] == "";
    if k.id != "" {
      assert Less(k.id, "~") == if k.id[0] != '~' then k.id[0] < '~' else Less(k.id[1..], "");
    }
  }

  /** On a table that does not change, a finished walk from the start is the sorted table. */
  lemma WalkIsTheSortedTable(rows: set<Key>, limit: nat, pages: seq<seq<Key>>, sorted: seq<Key>)
    requires limit >= 1 && Walk(seq(|pages|, _ => rows), None, limit, pages) && Finished(pages, limit)
    requires IsPage(rows, Keyset(None), |rows|, sorted)
    ensures Flatten(pages) == sorted
  {
    var tables := seq(|pages|, _ => rows);
    WalkDescends(tables, None, limit, pages);
    FlattenWithin(tables, None, limit, pages, rows);
    forall k | k in rows && Before(k, Keyset(None)) ensures k in Flatten(pages) {
      WalkMissesNothing(tables, None, limit, pages, k);
    }
    DescendingFits(Flatten(pages), rows);
    PageUnique(rows, Keyset(None), |rows|, Flatten(pages), sorted);
  }
}
