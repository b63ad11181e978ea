/** Keyset pagination over the received bridge events (apps/wiki-sync-worker/src/reconciliation.ts). */
module Keyset {
  /** The sort key of a row: its time in microseconds, as the column stores it, and its id's rank. */
  datatype Row = Row(at: nat, id: nat)

  /** The key of the last row seen. Its time went through a JavaScript date, so it has whole milliseconds. */
  datatype Cursor = Start | At(at: nat, id: nat)

  function CursorOf(r: Row): Cursor { At(r.at - r.at % 1000, r.id) }

  predicate Before(a: Row, b: Row) { a.at < b.at || (a.at == b.at && a.id < b.id) }

  predicate Ascending(rows: seq<Row>) { forall i, j | 0 <= i < j < |rows| :: Before(rows[i], rows[j]) }

  predicate Beyond(r: Row, c: Cursor) { c.Start? || r.at > c.at || (r.at == c.at && r.id > c.id) }

  /** The rows the condition lets through, in order. */
  function Matching(rows: seq<Row>, received: set<nat>, c: Cursor): seq<Row> {
    if rows == [] then []
    else
      var last := rows[|rows| - 1];
      Matching(rows[..|rows| - 1], received, c) + if last.id in received && Beyond(last, c) then [last] else []
  }

  /** One page: `where`, `orderBy`, `limit`. */
  function Page(rows: seq<Row>, received: set<nat>, c: Cursor, n: nat): seq<Row> {
    var all := Matching(rows, received, c);
    if |all| < n then all else all[..n]
  }

  lemma {:induction false} MatchingIs(rows: seq<Row>, received: set<nat>, c: Cursor)
    requires Ascending(rows)
    ensures Ascending(Matching(rows, received, c))
    ensures forall r :: r in Matching(rows, received, c) <==> r in rows && r.id in received && Beyond(r, c)
  {
    if rows != [] {
      var front, last := rows[..|rows| - 1], rows[|rows| - 1];
      MatchingIs(front, received, c);
      assert rows == front + [last];
      forall r | r in front ensures Before(r, last) {
        var i :| 0 <= i < |front| && front[i] == r;
        assert Before(rows[i], rows[|rows| - 1]);
      }
    }
  }

  /** How many rows lie beyond the cursor. */
  function Remaining(rows: seq<Row>, c: Cursor): nat {
    if rows == [] then 0
    else Remaining(rows[..|rows| - 1], c) + if Beyond(rows[|rows| - 1], c) then 1 else 0
  }

  lemma {:induction false} RemainingShrinks(rows: seq<Row>, c: Cursor, d: Cursor)
    requires forall r | r in rows && Beyond(r, d) :: Beyond(r, c)
    ensures Remaining(rows, d) <= Remaining(rows, c)
    ensures (exists r :: r in rows && Beyond(r, c) && !Beyond(r, d)) ==> Remaining(rows, d) < Remaining(rows, c)
  {
    if rows != [] {
      var front, last := rows[..|rows| - 1], rows[|rows| - 1];
      assert rows == front + [last];
      RemainingShrinks(front, c, d);
    }
  }

  lemma BeyondUpwards(c: Cursor, a: Row, b: Row)
    requires Beyond(a, c) && Before(a, b)
    ensures Beyond(b, c)
  {
  }

  /** What is behind the cursor of a row does not come after the row, however the time is cut. */
  lemma BehindCursor(last: Row, r: Row)
    ensures !Beyond(r, CursorOf(last)) ==> r == last || Before(r, last)
    ensures last.at % 1000 == 0 ==> (Beyond(r, CursorOf(last)) <==> Before(last, r))
  {
  }

  /** Every page's query sees the row as received. */
  ghost predicate Throughout(received: nat -> set<nat>, id: nat) { forall page: nat :: id in received(page) }

  /** No row received throughout was missed. */
  ghost predicate Complete(rows: seq<Row>, received: nat -> set<nat>, visited: seq<Row>) {
    && (forall r | r in visited :: r in rows)
    && (forall r | r in rows && Throughout(received, r.id) :: r in visited)
  }

  datatype Loop = Loop(cursor: Cursor, visited: seq<Row>, done: bool)

  /** One more page, unless the loop has ended. */
  function Next(rows: seq<Row>, received: set<nat>, n: nat, l: Loop): Loop
    requires n >= 1
  {
    var events := Page(rows, received, l.cursor, n);
    if l.done then l
    else if |events| < n then Loop(l.cursor, l.visited + events, true)
    else Loop(CursorOf(events[n - 1]), l.visited + events, false)
  }

  /** The loop after k pages, while `received` says which rows each page's query sees as received. */
  function After(rows: seq<Row>, received: nat -> set<nat>, n: nat, k: nat): Loop
    requires n >= 1
  {
    if k == 0 then Loop(Start, [], false) else Next(rows, received(k - 1), n, After(rows, received, n, k - 1))
  }

  lemma PageIs(rows: seq<Row>, received: set<nat>, c: Cursor, n: nat)
    requires Ascending(rows)
    ensures var p := Page(rows, received, c, n);
      Ascending(p) && |p| <= n && forall r | r in p :: r in rows && r.id in received && Beyond(r, c)
  {
    MatchingIs(rows, received, c);
    var all, p := Matching(rows, received, c), Page(rows, received, c, n);
    assert forall r | r in p :: r in all;
  }

  /** A matching row that is not on the page comes after all that are; a short page has all. */
  lemma OffThePage(rows: seq<Row>, received: set<nat>, c: Cursor, n: nat, r: Row)
    requires Ascending(rows) && n >= 1 && r in rows && r.id in received && Beyond(r, c)
    ensures var p := Page(rows, received, c, n); r in p || (|p| == n && Before(p[n - 1], r))
  {
    MatchingIs(rows, received, c);
    var all, p := Matching(rows, received, c), Page(rows, received, c, n);
    var i :| 0 <= i < |all| && all[i] == r;
    if i < |p| {
      assert p[i] == r;
    } else {
      assert Before(all[n - 1], all[i]);
    }
  }

  // ---- Nothing is missed ----

  /** Only rows are visited, and one received throughout is, once it is behind the cursor or the loop has ended. */
  ghost predicate SoundFor(rows: seq<Row>, received: nat -> set<nat>, l: Loop, r: Row) {
    && (r in l.visited ==> r in rows)
    && (r in rows && Throughout(received, r.id) && (l.done || !Beyond(r, l.cursor)) ==> r in l.visited)
  }

  lemma NextIsSound(rows: seq<Row>, received: nat -> set<nat>, n: nat, page: nat, l: Loop, r: Row)
    requires Ascending(rows) && n >= 1 && SoundFor(rows, received, l, r)
    ensures SoundFor(rows, received, Next(rows, received(page), n, l), r)
  {
    if !l.done {
      var p := Page(rows, received(page), l.cursor, n);
      PageIs(rows, received(page), l.cursor, n);
      if |p| == n { BehindCursor(p[n - 1], r); }
      if r in rows && Throughout(received, r.id) && Beyond(r, l.cursor) {
        assert r.id in received(page);
        OffThePage(rows, received(page), l.cursor, n, r);
      }
    }
  }

  /** Whatever the times and the changes of status, a run that has ended missed no row received throughout. */
  lemma {:induction false} EveryRunIsSound(rows: seq<Row>, received: nat -> set<nat>, n: nat, k: nat, r: Row)
    requires Ascending(rows) && n >= 1
    ensures SoundFor(rows, received, After(rows, received, n, k), r)
  {
    if k > 0 {
      EveryRunIsSound(rows, received, n, k - 1, r);
      NextIsSound(rows, received, n, k - 1, After(rows, received, n, k - 1), r);
    }
  }

  lemma EndedRunIsComplete(rows: seq<Row>, received: nat -> set<nat>, n: nat, k: nat)
    requires Ascending(rows) && n >= 1 && After(rows, received, n, k).done
    ensures Complete(rows, received, After(rows, received, n, k).visited)
  {
    forall r | r in After(rows, received, n, k).visited ensures r in rows {
      EveryRunIsSound(rows, received, n, k, r);
    }
    forall r | r in rows && Throughout(received, r.id) ensures r in After(rows, received, n, k).visited {
      EveryRunIsSound(rows, received, n, k, r);
    }
  }

  // ---- When rows are visited in order ----

  /** Only a row that can end a full page needs a time of whole milliseconds. */
  predicate AlignedFrom(rows: seq<Row>, n: nat) { forall i | 0 <= i < |rows| && n <= i + 1 :: rows[i].at % 1000 == 0 }

  lemma Places(rows: seq<Row>, i: nat, j: nat)
    requires Ascending(rows) && i < |rows| && j < |rows|
    ensures Before(rows[i], rows[j]) ==> i < j
    ensures rows[i] == rows[j] ==> i == j
  {
    if j < i {
      assert Before(rows[j], rows[i]);
    } else if i < j {
      assert Before(rows[i], rows[j]);
    }
  }

  /** The m-th of some rows in order stands no earlier than at m in the table. */
  lemma {:induction false} PlaceInTable(rows: seq<Row>, p: seq<Row>, m: nat) returns (i: nat)
    requires Ascending(rows) && Ascending(p) && m < |p| && forall r | r in p :: r in rows
    ensures m <= i < |rows| && rows[i] == p[m]
  {
    assert p[m] in p;
    i :| 0 <= i < |rows| && rows[i] == p[m];
    if m > 0 {
      var j := PlaceInTable(rows, p, m - 1);
      assert Before(p[m - 1], p[m]);
      Places(rows, j, i);
    }
  }

  lemma FullPageIsAligned(rows: seq<Row>, received: set<nat>, c: Cursor, n: nat)
    requires Ascending(rows) && n >= 1 && AlignedFrom(rows, n) && |Page(rows, received, c, n)| == n
    ensures Page(rows, received, c, n)[n - 1].at % 1000 == 0
  {
    PageIs(rows, received, c, n);
    var i := PlaceInTable(rows, Page(rows, received, c, n), n - 1);
  }

  /** What was visited is in order, and behind the cursor while the loop goes on. */
  predicate Ordered(l: Loop) { Ascending(l.visited) && (!l.done ==> forall r | r in l.visited :: !Beyond(r, l.cursor)) }

  lemma AppendAscending(visited: seq<Row>, p: seq<Row>, c: Cursor)
    requires Ascending(visited) && Ascending(p)
    requires forall r | r in visited :: !Beyond(r, c)
    requires forall r | r in p :: Beyond(r, c)
    ensures Ascending(visited + p)
  {
    forall i, j | 0 <= i < j < |visited + p| ensures Before((visited + p)[i], (visited + p)[j]) {
      if i < |visited| <= j {
        assert visited[i] in visited && p[j - |visited|] in p;
      }
    }
  }

  lemma FullPageIsBehind(p: seq<Row>, visited: seq<Row>, c: Cursor)
    requires p != [] && Ascending(p) && p[|p| - 1].at % 1000 == 0
    requires forall r | r in visited :: !Beyond(r, c)
    requires forall r | r in p :: Beyond(r, c)
    ensures forall r | r in visited + p :: !Beyond(r, CursorOf(p[|p| - 1]))
  {
    var last := p[|p| - 1];
    forall r | r in visited + p ensures !Beyond(r, CursorOf(last)) {
      BehindCursor(last, r);
      assert last in p;
      if r in p {
        var i :| 0 <= i < |p| && p[i] == r;
        assert i < |p| - 1 ==> Before(p[i], last);
      } else if Before(last, r) {
        BeyondUpwards(c, last, r);
      }
    }
  }

  lemma NextIsOrdered(rows: seq<Row>, received: set<nat>, n: nat, l: Loop)
    requires Ascending(rows) && n >= 1 && AlignedFrom(rows, n) && Ordered(l)
    ensures Ordered(Next(rows, received, n, l))
  {
    if !l.done {
      var p := Page(rows, received, l.cursor, n);
      PageIs(rows, received, l.cursor, n);
      AppendAscending(l.visited, p, l.cursor);
      if |p| == n {
        FullPageIsAligned(rows, received, l.cursor, n);
        FullPageIsBehind(p, l.visited, l.cursor);
      }
    }
  }

  lemma {:induction false} EveryRunIsOrdered(rows: seq<Row>, received: nat -> set<nat>, n: nat, k: nat)
    requires Ascending(rows) && n >= 1 && AlignedFrom(rows, n)
    ensures Ordered(After(rows, received, n, k))
  {
    if k > 0 {
      EveryRunIsOrdered(rows, received, n, k - 1);
      NextIsOrdered(rows, received(k - 1), n, After(rows, received, n, k - 1));
    }
  }

  predicate DistinctIds(rows: seq<Row>) { forall i, j | 0 <= i < j < |rows| :: rows[i].id != rows[j].id }

  /** Exactly the rows from lo up to hi are received. */
  predicate Only(rows: seq<Row>, received: set<nat>, lo: nat, hi: nat) {
    forall i | 0 <= i < |rows| :: rows[i].id in received <==> lo <= i < hi
  }

  lemma OnlyWindow(rows: seq<Row>, lo: nat, hi: nat) returns (received: set<nat>)
    requires lo <= hi <= |rows| && DistinctIds(rows)
    ensures Only(rows, received, lo, hi)
  {
    received := set i | lo <= i < hi :: rows[i].id;
    forall i | 0 <= i < |rows| ensures rows[i].id in received <==> lo <= i < hi {
      if j :| lo <= j < hi && rows[j].id == rows[i].id { assert i == j; }
    }
  }

  /** When exactly a window is received and all of it is beyond the cursor, it is what matches. */
  lemma {:induction false} MatchingWindow(
      rows: seq<Row>, received: set<nat>, lo: nat, hi: nat, c: Cursor, k: nat)
    requires lo <= hi <= |rows| && k <= |rows| && Only(rows, received, lo, hi)
    requires forall i | lo <= i < hi :: Beyond(rows[i], c)
    ensures Matching(rows[..k], received, c) == WindowUpTo(rows, lo, hi, k)
  {
    if k > 0 {
      MatchingWindow(rows, received, lo, hi, c, k - 1);
      MatchingOneMore(rows, received, c, k);
      WindowGrows(rows, lo, hi, k);
    }
  }

  lemma MatchingOneMore(rows: seq<Row>, received: set<nat>, c: Cursor, k: nat)
    requires 0 < k <= |rows|
    ensures Matching(rows[..k], received, c) == Matching(rows[..k - 1], received, c) +
      if rows[k - 1].id in received && Beyond(rows[k - 1], c) then [rows[k - 1]] else []
  {
    assert rows[..k][..k - 1] == rows[..k - 1];
  }

  function WindowUpTo(rows: seq<Row>, lo: nat, hi: nat, k: nat): seq<Row>
    requires lo <= hi <= |rows| && k <= |rows|
  {
    if k <= lo then [] else if k < hi then rows[lo..k] else rows[lo..hi]
  }

  lemma WindowGrows(rows: seq<Row>, lo: nat, hi: nat, k: nat)
    requires lo <= hi <= |rows| && 0 < k <= |rows|
    ensures WindowUpTo(rows, lo, hi, k) ==
      WindowUpTo(rows, lo, hi, k - 1) + if lo <= k - 1 < hi then [rows[k - 1]] else []
  {
  }

  lemma PageOfWindow(rows: seq<Row>, received: set<nat>, lo: nat, hi: nat, n: nat, c: Cursor)
    requires lo + n == hi <= |rows| && Only(rows, received, lo, hi)
    requires forall i | lo <= i < hi :: Beyond(rows[i], c)
    ensures Matching(rows, received, c) == rows[lo..hi] == Page(rows, received, c, n)
  {
    MatchingWindow(rows, received, lo, hi, c, |rows|);
    assert rows[..|rows|] == rows;
    assert WindowUpTo(rows, lo, hi, |rows|) == rows[lo..hi];
  }

  lemma {:induction false} MatchesMoreAtTheStart(rows: seq<Row>, received: set<nat>, c: Cursor)
    ensures |Matching(rows, received, c)| <= |Matching(rows, received, Start)|
  {
    if rows != [] { MatchesMoreAtTheStart(rows[..|rows| - 1], received, c); }
  }

  lemma FewMatch(rows: seq<Row>, received: set<nat>, c: Cursor, n: nat, r: Row)
    requires Ascending(rows) && |Matching(rows, received, Start)| <= n
    requires r in rows && r.id in received && Beyond(r, c)
    ensures r in Page(rows, received, c, n)
  {
    MatchesMoreAtTheStart(rows, received, c);
    MatchingIs(rows, received, c);
    assert Page(rows, received, c, n) == Matching(rows, received, c);
  }

  /** A row with a finer time that ends a full page is visited again on the next one. */
  lemma FinerTimeIsVisitedTwice(rows: seq<Row>, n: nat, i: nat, received: set<nat>)
    requires Ascending(rows) && n >= 1 && n <= i + 1 <= |rows|
    requires rows[i].at % 1000 != 0 && Only(rows, received, i + 1 - n, i + 1)
    ensures Page(rows, received, Start, n) == rows[i + 1 - n..i + 1]
    ensures rows[i] in Page(rows, received, CursorOf(rows[i]), n)
  {
    PageOfWindow(rows, received, i + 1 - n, i + 1, n, Start);
    assert rows[i] in rows;
    FewMatch(rows, received, CursorOf(rows[i]), n, rows[i]);
  }

  lemma TwicePagesAreNotOrdered(first: seq<Row>, second: seq<Row>)
    requires first != [] && first[|first| - 1] in second
    ensures !Ascending(first + second)
  {
    var j :| 0 <= j < |second| && second[j] == first[|first| - 1];
    var both := first + second;
    assert both[|first| - 1] == both[|first| + j] && !Before(both[|first| - 1], both[|first| + j]);
  }

  /** The same rows are received on every page. */
  function Always(received: set<nat>): nat -> set<nat> { _ => received }

  lemma TwoPages(rows: seq<Row>, received: set<nat>, n: nat)
    requires n >= 1 && |Page(rows, received, Start, n)| == n
    ensures var p := Page(rows, received, Start, n);
      After(rows, Always(received), n, 2).visited == p + Page(rows, received, CursorOf(p[n - 1]), n)
  {
    var all := Always(received);
    var p := Page(rows, received, Start, n);
    assert After(rows, all, n, 0) == Loop(Start, [], false);
    assert After(rows, all, n, 1) == Loop(CursorOf(p[n - 1]), p, false) by { assert [] + p == p; }
    assert After(rows, all, n, 2) == Next(rows, received, n, After(rows, all, n, 1));
  }

  /** In every run so far the rows visited are in order, and so none is visited twice. */
  ghost predicate InOrder(rows: seq<Row>, received: nat -> set<nat>, n: nat, k: nat)
    requires n >= 1
  {
    Ascending(After(rows, received, n, k).visited)
  }

  /**
    For each batch size: no row is ever visited twice or out of order exactly when the rows that
    can end a full page have times of whole milliseconds.
   */
  lemma InOrderIffAligned(rows: seq<Row>, n: nat)
    requires Ascending(rows) && DistinctIds(rows) && n >= 1
    ensures (forall received: nat -> set<nat>, k: nat :: InOrder(rows, received, n, k)) <==> AlignedFrom(rows, n)
  {
    if AlignedFrom(rows, n) {
      forall received: nat -> set<nat>, k: nat ensures InOrder(rows, received, n, k) {
        EveryRunIsOrdered(rows, received, n, k);
      }
    } else {
      var i: nat :| i < |rows| && n <= i + 1 && rows[i].at % 1000 != 0;
      var received := OnlyWindow(rows, i + 1 - n, i + 1);
      FinerTimeBreaksTheOrder(rows, n, i, received);
    }
  }

  lemma FinerTimeBreaksTheOrder(rows: seq<Row>, n: nat, i: nat, received: set<nat>)
    requires Ascending(rows) && n >= 1 && n <= i + 1 <= |rows|
    requires rows[i].at % 1000 != 0 && Only(rows, received, i + 1 - n, i + 1)
    ensures !InOrder(rows, Always(received), n, 2)
  {
    var p := Page(rows, received, Start, n);
    FinerTimeIsVisitedTwice(rows, n, i, received);
    TwoPages(rows, received, n);
    TwicePagesAreNotOrdered(p, Page(rows, received, CursorOf(rows[i]), n));
  }

  // ---- When the loop ends ----

  /** Some n rows in a row lie beyond the cursor that the last of them leaves. */
  predicate Crowded(rows: seq<Row>, n: nat)
    requires n >= 1
  {
    exists i | 0 <= i < |rows| && n <= i + 1 :: Beyond(rows[i + 1 - n], CursorOf(rows[i]))
  }

  /** The first row of a full page is behind the cursor the page leaves. */
  lemma FirstIsBehind(rows: seq<Row>, p: seq<Row>, n: nat)
    requires Ascending(rows) && n >= 1 && !Crowded(rows, n)
    requires Ascending(p) && |p| == n && forall r | r in p :: r in rows
    ensures !Beyond(p[0], CursorOf(p[n - 1]))
  {
    var i := PlaceInTable(rows, p, n - 1);
    assert p[0] in p;
    var j :| 0 <= j < |rows| && rows[j] == p[0];
    PlacesApart(rows, p, n - 1, j, i);
    if Beyond(p[0], CursorOf(p[n - 1])) && j < i + 1 - n {
      BeyondUpwards(CursorOf(p[n - 1]), rows[j], rows[i + 1 - n]);
    }
  }

  /** From the first to the m-th of some rows in order there are at least m steps in the table. */
  lemma {:induction false} PlacesApart(rows: seq<Row>, p: seq<Row>, m: nat, j: nat, i: nat)
    requires Ascending(rows) && Ascending(p) && m < |p| && forall r | r in p :: r in rows
    requires j < |rows| && rows[j] == p[0] && i < |rows| && rows[i] == p[m]
    ensures j + m <= i
  {
    if m == 0 {
      Places(rows, i, j);
    } else {
      assert p[m - 1] in p;
      var h :| 0 <= h < |rows| && rows[h] == p[m - 1];
      PlacesApart(rows, p, m - 1, j, h);
      assert Before(p[m - 1], p[m]);
      Places(rows, h, i);
    }
  }

  /** A full page leaves fewer rows beyond the cursor. */
  lemma PageMakesHeadway(rows: seq<Row>, received: set<nat>, c: Cursor, n: nat)
    requires Ascending(rows) && n >= 1 && !Crowded(rows, n) && |Page(rows, received, c, n)| == n
    ensures Remaining(rows, CursorOf(Page(rows, received, c, n)[n - 1])) < Remaining(rows, c)
  {
    var p := Page(rows, received, c, n);
    var d := CursorOf(p[n - 1]);
    PageIs(rows, received, c, n);
    FirstIsBehind(rows, p, n);
    assert p[0] in p;
    forall r | r in rows && Beyond(r, d) ensures Beyond(r, c) {
      if Before(r, p[0]) { BeyondUpwards(d, r, p[0]); } else if Before(p[0], r) { BeyondUpwards(c, p[0], r); }
    }
    RemainingShrinks(rows, c, d);
  }

  lemma EndsFrom(rows: seq<Row>, received: nat -> set<nat>, n: nat, k: nat) returns (end: nat)
    requires Ascending(rows) && n >= 1 && !Crowded(rows, n)
    ensures After(rows, received, n, end).done
    decreases if After(rows, received, n, k).done then 0 else 1 + Remaining(rows, After(rows, received, n, k).cursor)
  {
    var l := After(rows, received, n, k);
    if l.done {
      end := k;
    } else {
      PageIs(rows, received(k), l.cursor, n);
      if |Page(rows, received(k), l.cursor, n)| == n { PageMakesHeadway(rows, received(k), l.cursor, n); }
      end := EndsFrom(rows, received, n, k + 1);
    }
  }

  function Copies(window: seq<Row>, k: nat): seq<Row> { if k == 0 then [] else Copies(window, k - 1) + window }

  /** Rows too close together that stay received are fetched again and again: the same page, without end. */
  lemma {:induction false} CrowdedLoopsForever(rows: seq<Row>, n: nat, i: nat, received: set<nat>, k: nat)
    requires Ascending(rows) && n >= 1 && n <= i + 1 <= |rows|
    requires Beyond(rows[i + 1 - n], CursorOf(rows[i])) && Only(rows, received, i + 1 - n, i + 1)
    ensures var l := After(rows, Always(received), n, k);
      !l.done && l.visited == Copies(rows[i + 1 - n..i + 1], k) && (l.cursor == Start || l.cursor == CursorOf(rows[i]))
  {
    if k > 0 {
      CrowdedLoopsForever(rows, n, i, received, k - 1);
      SamePage(rows, n, i, received, After(rows, Always(received), n, k - 1).cursor);
      assert rows[i + 1 - n..i + 1][n - 1] == rows[i];
    }
  }

  lemma SamePage(rows: seq<Row>, n: nat, i: nat, received: set<nat>, c: Cursor)
    requires Ascending(rows) && n >= 1 && n <= i + 1 <= |rows|
    requires Beyond(rows[i + 1 - n], CursorOf(rows[i])) && Only(rows, received, i + 1 - n, i + 1)
    requires c == Start || c == CursorOf(rows[i])
    ensures Page(rows, received, c, n) == rows[i + 1 - n..i + 1]
  {
    AllBeyond(rows, i + 1 - n, c);
    PageOfWindow(rows, received, i + 1 - n, i + 1, n, c);
  }

  lemma AllBeyond(rows: seq<Row>, lo: nat, c: Cursor)
    requires Ascending(rows) && lo < |rows| && (c == Start || Beyond(rows[lo], c))
    ensures forall j | lo <= j < |rows| :: Beyond(rows[j], c)
  {
    forall j | lo <= j < |rows| ensures Beyond(rows[j], c) {
      if c != Start && j > lo { BeyondUpwards(c, rows[lo], rows[j]); }
    }
  }

  predicate Done(rows: seq<Row>, received: nat -> set<nat>, n: nat, k: nat)
    requires n >= 1
  {
    After(rows, received, n, k).done
  }

  ghost predicate Ends(rows: seq<Row>, received: nat -> set<nat>, n: nat)
    requires n >= 1
  {
    exists k: nat :: Done(rows, received, n, k)
  }

  lemma CrowdedNeverEnds(rows: seq<Row>, n: nat, i: nat, received: set<nat>)
    requires Ascending(rows) && n >= 1 && n <= i + 1 <= |rows|
    requires Beyond(rows[i + 1 - n], CursorOf(rows[i])) && Only(rows, received, i + 1 - n, i + 1)
    ensures !Ends(rows, Always(received), n)
  {
    forall k: nat ensures !Done(rows, Always(received), n, k) { CrowdedLoopsForever(rows, n, i, received, k); }
  }

  /** The loop ends however statuses change if and only if no n rows in a row are that close together. */
  lemma EndsIff(rows: seq<Row>, n: nat)
    requires Ascending(rows) && DistinctIds(rows) && n >= 1
    ensures (forall received: nat -> set<nat> :: Ends(rows, received, n)) <==> !Crowded(rows, n)
  {
    if !Crowded(rows, n) {
      forall received: nat -> set<nat> ensures Ends(rows, received, n) {
        var k := EndsFrom(rows, received, n, 0);
        assert Done(rows, received, n, k);
      }
    } else {
      var i: nat :| i < |rows| && n <= i + 1 && Beyond(rows[i + 1 - n], CursorOf(rows[i]));
      var received := OnlyWindow(rows, i + 1 - n, i + 1);
      CrowdedNeverEnds(rows, n, i, received);
    }
  }

  /**
    The loop of `reconcileOnStartup` while other processes change which rows are `received`: it
    ends, visits every row received throughout, and in order where times allow it.
   */
  method Reconcile(rows: seq<Row>, received: nat -> set<nat>, batchSize: nat) returns (visited: seq<Row>, pages: nat)
    requires batchSize >= 1 && Ascending(rows) && !Crowded(rows, batchSize)
    ensures Complete(rows, received, visited)
    ensures AlignedFrom(rows, batchSize) ==> Ascending(visited)
    ensures After(rows, received, batchSize, pages).done && visited == After(rows, received, batchSize, pages).visited
  {
    var cursor := Start;
    visited := [];
    pages := 0;
    while true
      invariant After(rows, received, batchSize, pages) == Loop(cursor, visited, false)
      decreases Remaining(rows, cursor)
    {
      var events := Page(rows, received(pages), cursor, batchSize);
      pages := pages + 1;
      if |events| < batchSize {
        visited := visited + events;
        EndedRunIsComplete(rows, received, batchSize, pages);
        if AlignedFrom(rows, batchSize) { EveryRunIsOrdered(rows, received, batchSize, pages); }
        return;
      }
      PageIs(rows, received(pages - 1), cursor, batchSize);
      PageMakesHeadway(rows, received(pages - 1), cursor, batchSize);
      visited := visited + events;
      cursor := CursorOf(events[batchSize - 1]);
    }
  }
}
