/**
 * Keyset pagination over (created_at, id), descending, as the agent and audit-log repositories do it.
 *
 * The table keeps microseconds. The cursor is printed from a JavaScript date and so carries whole
 * milliseconds; `CursorAfter` models that truncation. Ids are compared as numbers.
 */
module Paging {
  import opened Arithmetic
  import opened Common
  import opened Text

  const MICROS_PER_MILLI := 1000

  datatype Row = Row(id: nat, createdAt: int, agentId: string, outcome: string)

  /** A position in the descending order. */
  datatype Key = Key(at: int, id: nat)

  function KeyOf(r: Row): Key {
    Key(r.createdAt, r.id)
  }

  /** `(created_at, id) < (at, id)`: strictly further down the listing. */
  predicate Below(k: Key, than: Key) {
    k.at < than.at || (k.at == than.at && k.id < than.id)
  }

  /** The position the cursor of a page's last row stands for. */
  function CursorAfter(r: Row): Key {
    Key(r.createdAt / MICROS_PER_MILLI * MICROS_PER_MILLI, r.id)
  }

  ghost predicate DistinctIds(rows: set<Row>) {
    forall a, b :: a in rows && b in rows && a.id == b.id ==> a == b
  }

  // ---------------------------------------------------------------- the sorted listing

  ghost predicate Descending(s: seq<Row>) {
    forall i, j :: 0 <= i < j < |s| ==> Below(KeyOf(s[j]), KeyOf(s[i]))
  }

  predicate IsTop(rows: set<Row>, top: Row) {
    top in rows && forall r :: r in rows && r != top ==> Below(KeyOf(r), KeyOf(top))
  }

  /** `ORDER BY created_at DESC, id DESC`. */
  function Listing(rows: set<Row>): seq<Row>
    requires DistinctIds(rows)
  {
    if rows == {} then []
    else
      Topmost(rows);
      var top :| IsTop(rows, top);
      [top] + Listing(rows - {top})
  }

  lemma {:induction false} Topmost(rows: set<Row>)
    requires rows != {} && DistinctIds(rows)
    ensures exists top :: IsTop(rows, top)
  {
    var x :| x in rows;
    var rest := rows - {x};
    if rest == {} {
      assert rows == {x} && IsTop(rows, x);
    } else {
      Topmost(rest);
      var top :| IsTop(rest, top);
      TopOfTwo(rows, x, top);
    }
  }

  lemma TopOfTwo(rows: set<Row>, x: Row, top: Row)
    requires DistinctIds(rows) && x in rows && IsTop(rows - {x}, top)
    ensures IsTop(rows, if Below(KeyOf(x), KeyOf(top)) then top else x)
  {
    forall r | r in rows && r != x ensures r in rows - {x} {
    }
  }

  lemma TopComesFirst(rows: set<Row>)
    requires DistinctIds(rows) && rows != {}
    ensures var s := Listing(rows); s != [] && IsTop(rows, s[0]) && s[1..] == Listing(rows - {s[0]})
  {
    var s := Listing(rows);
    assert s[1..] == Listing(rows - {s[0]});
  }

  lemma TopThenRest(rows: set<Row>, s: seq<Row>)
    requires s != [] && IsTop(rows, s[0]) && Descending(s[1..]) && forall r :: r in s[1..] <==> r in rows - {s[0]}
    ensures Descending(s) && forall r :: r in s <==> r in rows
  {
    forall i, j | 0 <= i < j < |s| ensures Below(KeyOf(s[j]), KeyOf(s[i])) {
      assert s[j] == s[1..][j - 1] && s[j] in s[1..];
      assert i > 0 ==> s[i] == s[1..][i - 1];
    }
    forall r ensures r in s <==> r in rows {
      assert r in s <==> r == s[0] || r in s[1..];
    }
  }

  lemma {:induction false} ListingIsSorted(rows: set<Row>)
    requires DistinctIds(rows)
    ensures Descending(Listing(rows)) && |Listing(rows)| == |rows|
    ensures forall r :: r in Listing(rows) <==> r in rows
  {
    if rows != {} {
      TopComesFirst(rows);
      var s := Listing(rows);
      ListingIsSorted(rows - {s[0]});
      TopThenRest(rows, s);
    }
  }

  /** The row comes later in a listing: it is older, or as old as the other with a smaller id. */
  predicate ComesAfter(r: Row, other: Row) {
    r.createdAt < other.createdAt || (r.createdAt == other.createdAt && r.id < other.id)
  }

  ghost predicate NewestFirst(s: seq<Row>) {
    forall i, j :: 0 <= i < j < |s| ==> ComesAfter(s[j], s[i])
  }

  lemma ListingIsNewestFirst(rows: set<Row>)
    requires DistinctIds(rows)
    ensures NewestFirst(Listing(rows)) && |Listing(rows)| == |rows|
    ensures forall r :: r in Listing(rows) <==> r in rows
  {
    ListingIsSorted(rows);
  }

  /** A descending sequence is determined by its members. */
  lemma {:induction false} SortedIsUnique(s: seq<Row>, t: seq<Row>)
    requires Descending(s) && Descending(t) && forall r :: r in s <==> r in t
    ensures s == t
  {
    assert |s| > 0 ==> s[0] in s;
    assert |t| > 0 ==> t[0] in t;
    if s != [] {
      assert s[0] in t && t[0] in s;
      assert s[0] == t[0];
      forall r ensures r in s[1..] <==> r in t[1..] {
        assert r in s[1..] <==> r in s && r != s[0];
        assert r in t[1..] <==> r in t && r != t[0];
      }
      SortedIsUnique(s[1..], t[1..]);
    }
  }

  /** The rows below a position form the tail of the listing. */
  function Beneath(rows: set<Row>, cursor: Option<Key>): set<Row> {
    if cursor.None? then rows else set r | r in rows && Below(KeyOf(r), cursor.value)
  }

  /** The sequence crosses the position between `i - 1` and `i`. */
  ghost predicate CrossesAt(s: seq<Row>, cursor: Key, i: nat) {
    forall j :: 0 <= j < |s| ==> (Below(KeyOf(s[j]), cursor) <==> i <= j)
  }

  lemma TailIsBelow(s: seq<Row>, cursor: Key, i: nat)
    requires i <= |s| && CrossesAt(s, cursor, i)
    ensures forall r :: r in s[i..] <==> r in s && Below(KeyOf(r), cursor)
  {
    forall r | r in s[i..] ensures r in s && Below(KeyOf(r), cursor) {
      var j :| 0 <= j < |s[i..]| && s[i..][j] == r;
      assert s[i + j] == r;
    }
    forall r | r in s && Below(KeyOf(r), cursor) ensures r in s[i..] {
      var j :| 0 <= j < |s| && s[j] == r;
      assert s[i..][j - i] == r;
    }
  }

  lemma TailIsDescending(s: seq<Row>, n: nat)
    requires Descending(s) && n <= |s|
    ensures Descending(s[n..])
  {
  }

  /** Where the listing crosses the position, its tail lists the rows beneath. */
  lemma ListingBeneath(rows: set<Row>, cursor: Key, i: nat)
    requires DistinctIds(rows) && i <= |Listing(rows)| && CrossesAt(Listing(rows), cursor, i)
    ensures Listing(Beneath(rows, Some(cursor))) == Listing(rows)[i..]
  {
    var s, below := Listing(rows), Beneath(rows, Some(cursor));
    ListingIsSorted(rows);
    ListingIsSorted(below);
    TailIsBelow(s, cursor, i);
    TailIsDescending(s, i);
    SortedIsUnique(Listing(below), s[i..]);
  }

  // ---------------------------------------------------------------- one page

  function ClampLimit(limit: Option<int>): (n: nat)
    ensures 1 <= n <= 200
    ensures limit.None? ==> n == 50
    ensures limit.Some? && 1 <= limit.value <= 200 ==> n == limit.value
    ensures limit.Some? && limit.value < 1 ==> n == 1
    ensures limit.Some? && limit.value > 200 ==> n == 200
  {
    var asked := if limit.Some? then limit.value else 50;
    if asked < 1 then 1 else if asked > 200 then 200 else asked
  }

  datatype Page = Page(items: seq<Row>, hasMore: bool, next: Option<Key>)

  /** The page cut from a listing that was fetched with one row to spare. */
  function PageOf(rows: set<Row>, cursor: Option<Key>, limit: nat): Page
    requires DistinctIds(rows) && limit > 0
  {
    BeneathIsDistinct(rows, cursor);
    var s := Listing(Beneath(rows, cursor));
    if |s| > limit then Page(s[..limit], true, Some(CursorAfter(s[limit - 1]))) else Page(s, false, None)
  }

  lemma BeneathIsDistinct(rows: set<Row>, cursor: Option<Key>)
    requires DistinctIds(rows)
    ensures DistinctIds(Beneath(rows, cursor))
  {
  }

  // ---------------------------------------------------------------- the whole walk

  lemma BelowIsTransitive(a: Key, b: Key, c: Key)
    requires Below(a, b) && Below(b, c)
    ensures Below(a, c)
  {
  }

  /** A cursor is never above the row it was taken from, so it stays below every row served. */
  lemma CursorIsBelowServed(s: seq<Row>, i: nat, j: nat)
    requires Descending(s) && j <= i < |s|
    ensures !Below(KeyOf(s[j]), CursorAfter(s[i]))
  {
    assert s[i].createdAt / MICROS_PER_MILLI * MICROS_PER_MILLI <= s[i].createdAt;
  }

  /** A row below the next cursor sits in the listing after the page that was served. */
  lemma BelowNextIsLater(s: seq<Row>, limit: nat, r: Row)
    requires Descending(s) && 0 < limit < |s| && r in s && Below(KeyOf(r), CursorAfter(s[limit - 1]))
    ensures r in s[limit..]
  {
    var j :| 0 <= j < |s| && s[j] == r;
    forall served | 0 <= served < limit ensures !Below(KeyOf(s[served]), CursorAfter(s[limit - 1])) {
      CursorIsBelowServed(s, limit - 1, served);
    }
    assert s[limit..][j - limit] == r;
  }

  lemma CursorBeneath(rows: set<Row>, cursor: Option<Key>, r: Row)
    requires r in Beneath(rows, cursor)
    ensures cursor.Some? ==> Below(CursorAfter(r), cursor.value)
  {
    assert r.createdAt / MICROS_PER_MILLI * MICROS_PER_MILLI <= r.createdAt;
  }

  /** What the next page can see: only rows after those already served. */
  lemma NextSeesLater(rows: set<Row>, cursor: Option<Key>, limit: nat)
    requires DistinctIds(rows) && limit > 0 && PageOf(rows, cursor, limit).next.Some?
    ensures var page, s := PageOf(rows, cursor, limit), Listing(Beneath(rows, cursor));
            && Beneath(rows, page.next) <= (set r | r in s[limit..])
            && (cursor.Some? ==> Below(page.next.value, cursor.value))
  {
    var here, s := Beneath(rows, cursor), Listing(Beneath(rows, cursor));
    BeneathIsDistinct(rows, cursor);
    ListingIsSorted(here);
    var last := s[limit - 1];
    assert last in here;
    CursorBeneath(rows, cursor, last);
    forall r | r in Beneath(rows, Some(CursorAfter(last))) ensures r in s[limit..] {
      if cursor.Some? {
        BelowIsTransitive(KeyOf(r), CursorAfter(last), cursor.value);
      }
      BelowNextIsLater(s, limit, r);
    }
  }

  /** The next page starts strictly below everything already served. */
  lemma CursorDescends(rows: set<Row>, cursor: Option<Key>, limit: nat)
    requires DistinctIds(rows) && limit > 0 && PageOf(rows, cursor, limit).next.Some?
    ensures var page, s := PageOf(rows, cursor, limit), Listing(Beneath(rows, cursor));
            && Beneath(rows, page.next) <= (set r | r in s[limit..])
            && |set r | r in s[limit..]| == |s| - limit
            && (cursor.Some? ==> Below(page.next.value, cursor.value))
    ensures |Beneath(rows, PageOf(rows, cursor, limit).next)| + limit <= |Beneath(rows, cursor)|
  {
    var s := Listing(Beneath(rows, cursor));
    NextSeesLater(rows, cursor, limit);
    ListingIsSorted(Beneath(rows, cursor));
    TailIsDescending(s, limit);
    ListedOnce(s[limit..]);
    CardinalityMonotone(Beneath(rows, PageOf(rows, cursor, limit).next), set r | r in s[limit..]);
  }

  lemma {:induction false} ListedOnce(s: seq<Row>)
    requires Descending(s)
    ensures |set r | r in s| == |s|
  {
    if s != [] {
      ListedOnce(s[1..]);
      assert s[0] !in s[1..];
      assert (set r | r in s) == {s[0]} + set r | r in s[1..];
    }
  }

  lemma {:induction false} CardinalityMonotone(a: set<Row>, b: set<Row>)
    requires a <= b
    ensures |a| <= |b|
  {
    assert b == a + (b - a);
  }

  /** Following `next` from `cursor` until it is absent: the pages served. */
  ghost function Walk(rows: set<Row>, cursor: Option<Key>, limit: nat): seq<Page>
    requires DistinctIds(rows) && limit > 0
    decreases |Beneath(rows, cursor)|
  {
    var page := PageOf(rows, cursor, limit);
    if page.next.None? then [page]
    else
      CursorDescends(rows, cursor, limit);
      [page] + Walk(rows, page.next, limit)
  }

  function Items(pages: seq<Page>): seq<Row> {
    if pages == [] then [] else pages[0].items + Items(pages[1..])
  }

  /** Rows are never repeated or invented: a walk serves at most what lies beneath its cursor. */
  lemma {:induction false} WalkServesAtMost(rows: set<Row>, cursor: Option<Key>, limit: nat)
    requires DistinctIds(rows) && limit > 0
    ensures |Items(Walk(rows, cursor, limit))| <= |Beneath(rows, cursor)|
    decreases |Beneath(rows, cursor)|
  {
    BeneathIsDistinct(rows, cursor);
    ListingIsSorted(Beneath(rows, cursor));
    var page := PageOf(rows, cursor, limit);
    if page.next.Some? {
      CursorDescends(rows, cursor, limit);
      WalkServesAtMost(rows, page.next, limit);
      assert ([page] + Walk(rows, page.next, limit))[1..] == Walk(rows, page.next, limit);
    }
  }

  /** The row that opens the page at `b` lies below the cursor taken from the row before it. */
  predicate SafeBoundary(s: seq<Row>, b: nat)
    requires 0 < b < |s|
  {
    Below(KeyOf(s[b]), CursorAfter(s[b - 1]))
  }

  /** A page starts at `b` when pages of `limit` are counted from `from`. */
  predicate PageStart(from: nat, limit: nat, b: nat)
    requires limit > 0
  {
    from < b && (b - from) % limit == 0
  }

  /** Every page boundary from position `from` on is safe. */
  ghost predicate SafeFrom(s: seq<Row>, limit: nat, from: nat)
    requires limit > 0
  {
    forall b :: 0 < b < |s| && PageStart(from, limit, b) ==> SafeBoundary(s, b)
  }

  lemma PageStartStep(from: nat, limit: nat, b: nat)
    requires limit > 0
    ensures PageStart(from, limit, b) <==> b == from + limit || PageStart(from + limit, limit, b)
  {
    if from < b < from + limit {
      SmallQuotient(b - from, limit);
    } else if from + limit <= b {
      QuotientStep(b - from, limit);
      SmallQuotient(0, limit);
    }
  }

  lemma SafeFromStep(s: seq<Row>, limit: nat, from: nat)
    requires limit > 0 && from + limit < |s|
    ensures SafeFrom(s, limit, from) <==> SafeBoundary(s, from + limit) && SafeFrom(s, limit, from + limit)
  {
    forall b: nat ensures PageStart(from, limit, b) <==> b == from + limit || PageStart(from + limit, limit, b) {
      PageStartStep(from, limit, b);
    }
    assert PageStart(from, limit, from + limit);
  }

  /** The same, page by page. */
  predicate SafeOnwards(s: seq<Row>, limit: nat, from: nat)
    requires limit > 0
    decreases |s| - from
  {
    from + limit < |s| ==> SafeBoundary(s, from + limit) && SafeOnwards(s, limit, from + limit)
  }

  lemma {:induction false} SafeOnwardsIsSafeFrom(s: seq<Row>, limit: nat, from: nat)
    requires limit > 0
    ensures SafeOnwards(s, limit, from) <==> SafeFrom(s, limit, from)
    decreases |s| - from
  {
    if from + limit < |s| {
      SafeFromStep(s, limit, from);
      SafeOnwardsIsSafeFrom(s, limit, from + limit);
    } else {
      forall b | 0 < b < |s| ensures !PageStart(from, limit, b) {
        PageStartStep(from, limit, b);
      }
    }
  }

  function PageCount(n: nat, limit: nat): nat
    requires limit > 0
  {
    if n <= limit then 1 else 1 + PageCount(n - limit, limit)
  }

  /** After a safe boundary the next page lists exactly the rest. */
  lemma SafeBoundaryContinues(rows: set<Row>, b: nat)
    requires DistinctIds(rows) && 0 < b < |Listing(rows)| && SafeBoundary(Listing(rows), b)
    ensures Listing(Beneath(rows, Some(CursorAfter(Listing(rows)[b - 1])))) == Listing(rows)[b..]
  {
    var s := Listing(rows);
    var next := CursorAfter(s[b - 1]);
    ListingIsSorted(rows);
    forall j | 0 <= j < |s| ensures Below(KeyOf(s[j]), next) <==> b <= j {
      if j < b {
        CursorIsBelowServed(s, b - 1, j);
      } else if j > b {
        BelowIsTransitive(KeyOf(s[j]), KeyOf(s[b]), next);
      }
    }
    ListingBeneath(rows, next, b);
  }

  /** At an unsafe boundary the row that should come next is not beneath the cursor: something is skipped. */
  lemma UnsafeBoundarySkips(rows: set<Row>, cursor: Option<Key>, limit: nat, s: seq<Row>, i: nat)
    requires DistinctIds(rows) && limit > 0 && i + limit < |s|
    requires Listing(Beneath(rows, cursor)) == s[i..] && !SafeBoundary(s, i + limit)
    ensures |Items(Walk(rows, Some(CursorAfter(s[i + limit - 1])), limit))| < |s| - i - limit
  {
    var tail, next := s[i..], Some(CursorAfter(s[i + limit - 1]));
    assert PageOf(rows, cursor, limit).next == next;
    CursorDescends(rows, cursor, limit);
    WalkServesAtMost(rows, next, limit);
    var rest := set r | r in tail[limit..];
    assert tail[limit..][0] == s[i + limit];
    assert s[i + limit] in rest && s[i + limit] !in Beneath(rows, next);
    CardinalityMonotone(Beneath(rows, next) + {s[i + limit]}, rest);
  }

  /** What one page of the walk serves, and what it leaves. */
  lemma WalkStep(rows: set<Row>, cursor: Option<Key>, limit: nat, s: seq<Row>, i: nat)
    requires DistinctIds(rows) && limit > 0 && i + limit < |s|
    requires Listing(Beneath(rows, cursor)) == s[i..]
    ensures var next := Some(CursorAfter(s[i + limit - 1]));
            && |Walk(rows, cursor, limit)| == 1 + |Walk(rows, next, limit)|
            && Items(Walk(rows, cursor, limit)) == s[i..i + limit] + Items(Walk(rows, next, limit))
  {
    var page := PageOf(rows, cursor, limit);
    var rest := Walk(rows, page.next, limit);
    assert page.items == s[i..i + limit];
    assert ([page] + rest)[1..] == rest;
  }

  lemma LastPage(rows: set<Row>, cursor: Option<Key>, limit: nat)
    requires DistinctIds(rows) && limit > 0 && |Listing(Beneath(rows, cursor))| <= limit
    ensures Items(Walk(rows, cursor, limit)) == Listing(Beneath(rows, cursor))
    ensures |Walk(rows, cursor, limit)| == 1
  {
    var page := PageOf(rows, cursor, limit);
    assert Items([page]) == page.items + Items([page][1..]) == page.items;
  }

  lemma SplitTail(s: seq<Row>, i: nat, n: nat)
    requires i + n <= |s|
    ensures s[i..] == s[i..i + n] + s[i + n..]
  {
  }

  /** The cursor with which a walk arrives at position `i` of the listing `s`. */
  function CursorAt(s: seq<Row>, i: nat): Option<Key>
    requires i <= |s|
  {
    if i == 0 then None else Some(CursorAfter(s[i - 1]))
  }

  /** That cursor sees exactly the rest of the listing. */
  ghost predicate StandsAt(rows: set<Row>, s: seq<Row>, i: nat)
    requires DistinctIds(rows) && i <= |s|
  {
    Listing(Beneath(rows, CursorAt(s, i))) == s[i..]
  }

  /** One page of a walk that goes on at a safe boundary. */
  lemma SafeStep(rows: set<Row>, limit: nat, s: seq<Row>, i: nat)
    requires DistinctIds(rows) && limit > 0 && s == Listing(rows)
    requires i + limit < |s| && StandsAt(rows, s, i) && SafeBoundary(s, i + limit)
    ensures StandsAt(rows, s, i + limit)
    ensures var here, next := Walk(rows, CursorAt(s, i), limit), Walk(rows, CursorAt(s, i + limit), limit);
            |here| == 1 + |next| && Items(here) == s[i..i + limit] + Items(next)
  {
    SafeBoundaryContinues(rows, i + limit);
    WalkStep(rows, CursorAt(s, i), limit, s, i);
  }

  /** A walk that stands at position `i` serves the rest of the listing, in the expected number of pages. */
  ghost predicate Serves(rows: set<Row>, limit: nat, s: seq<Row>, i: nat)
    requires DistinctIds(rows) && limit > 0
  {
    i <= |s| && StandsAt(rows, s, i) ==>
      var walk := Walk(rows, CursorAt(s, i), limit);
      Items(walk) == s[i..] && |walk| == PageCount(|s| - i, limit)
  }

  lemma SafeStepServes(rows: set<Row>, limit: nat, s: seq<Row>, i: nat)
    requires DistinctIds(rows) && limit > 0 && s == Listing(rows)
    requires i + limit < |s| && SafeBoundary(s, i + limit) && Serves(rows, limit, s, i + limit)
    ensures Serves(rows, limit, s, i)
  {
    if StandsAt(rows, s, i) {
      SafeStep(rows, limit, s, i);
      SplitTail(s, i, limit);
    }
  }

  lemma LastPageServes(rows: set<Row>, limit: nat, s: seq<Row>, i: nat)
    requires DistinctIds(rows) && limit > 0 && |s| <= i + limit
    ensures Serves(rows, limit, s, i)
  {
    if i <= |s| && StandsAt(rows, s, i) {
      LastPage(rows, CursorAt(s, i), limit);
    }
  }

  /** A walk that stands at position `i` loses something. */
  ghost predicate FallsShort(rows: set<Row>, limit: nat, s: seq<Row>, i: nat)
    requires DistinctIds(rows) && limit > 0
  {
    i <= |s| && StandsAt(rows, s, i) ==> |Items(Walk(rows, CursorAt(s, i), limit))| < |s| - i
  }

  lemma UnsafeStepFallsShort(rows: set<Row>, limit: nat, s: seq<Row>, i: nat)
    requires DistinctIds(rows) && limit > 0 && i + limit < |s| && !SafeBoundary(s, i + limit)
    ensures FallsShort(rows, limit, s, i)
  {
    if StandsAt(rows, s, i) {
      WalkStep(rows, CursorAt(s, i), limit, s, i);
      UnsafeBoundarySkips(rows, CursorAt(s, i), limit, s, i);
    }
  }

  lemma SafeStepFallsShort(rows: set<Row>, limit: nat, s: seq<Row>, i: nat)
    requires DistinctIds(rows) && limit > 0 && s == Listing(rows)
    requires i + limit < |s| && SafeBoundary(s, i + limit) && FallsShort(rows, limit, s, i + limit)
    ensures FallsShort(rows, limit, s, i)
  {
    if StandsAt(rows, s, i) {
      SafeStep(rows, limit, s, i);
    }
  }

  /** Induction over the pages of a walk all of whose boundaries are safe. */
  lemma {:induction false} OverSafePages(s: seq<Row>, limit: nat, i: nat, holds: nat -> bool)
    requires limit > 0 && SafeOnwards(s, limit, i)
    requires forall j: nat :: |s| <= j + limit ==> holds(j)
    requires forall j: nat, k: nat :: k == j + limit && k < |s| && SafeBoundary(s, k) && holds(k) ==> holds(j)
    ensures holds(i)
    decreases |s| - i
  {
    if i + limit < |s| {
      OverSafePages(s, limit, i + limit, holds);
    }
  }

  /** Induction over the pages of a walk up to its first unsafe boundary. */
  lemma {:induction false} UpToUnsafePage(s: seq<Row>, limit: nat, i: nat, holds: nat -> bool)
    requires limit > 0 && !SafeOnwards(s, limit, i)
    requires forall j: nat :: j + limit < |s| && !SafeBoundary(s, j + limit) ==> holds(j)
    requires forall j: nat, k: nat :: k == j + limit && k < |s| && SafeBoundary(s, k) && holds(k) ==> holds(j)
    ensures holds(i)
    decreases |s| - i
  {
    if SafeBoundary(s, i + limit) {
      UpToUnsafePage(s, limit, i + limit, holds);
    }
  }

  lemma SafeWalk(rows: set<Row>, limit: nat, s: seq<Row>)
    requires DistinctIds(rows) && limit > 0 && s == Listing(rows) && SafeOnwards(s, limit, 0)
    ensures Serves(rows, limit, s, 0)
  {
    var holds := (j: nat) => Serves(rows, limit, s, j);
    forall j: nat | |s| <= j + limit ensures holds(j) {
      LastPageServes(rows, limit, s, j);
    }
    forall j: nat, k: nat | k == j + limit && k < |s| && SafeBoundary(s, k) && holds(k) ensures holds(j) {
      SafeStepServes(rows, limit, s, j);
    }
    OverSafePages(s, limit, 0, holds);
  }

  lemma UnsafeWalk(rows: set<Row>, limit: nat, s: seq<Row>)
    requires DistinctIds(rows) && limit > 0 && s == Listing(rows) && !SafeOnwards(s, limit, 0)
    ensures FallsShort(rows, limit, s, 0)
  {
    var holds := (j: nat) => FallsShort(rows, limit, s, j);
    forall j: nat | j + limit < |s| && !SafeBoundary(s, j + limit) ensures holds(j) {
      UnsafeStepFallsShort(rows, limit, s, j);
    }
    forall j: nat, k: nat | k == j + limit && k < |s| && SafeBoundary(s, k) && holds(k) ensures holds(j) {
      SafeStepFallsShort(rows, limit, s, j);
    }
    UpToUnsafePage(s, limit, 0, holds);
  }

  /**
   * Following the cursors from the first page reproduces the sorted listing iff every page boundary is safe
   * for the truncated cursor, and then in exactly the expected number of pages.
   */
  lemma WalkReproducesListingExactlyWhen(rows: set<Row>, limit: nat)
    requires DistinctIds(rows) && limit > 0
    ensures Items(Walk(rows, None, limit)) == Listing(rows) <==> SafeFrom(Listing(rows), limit, 0)
    ensures SafeFrom(Listing(rows), limit, 0) ==> |Walk(rows, None, limit)| == PageCount(|rows|, limit)
  {
    var s := Listing(rows);
    ListingIsSorted(rows);
    SafeOnwardsIsSafeFrom(s, limit, 0);
    assert StandsAt(rows, s, 0);
    if SafeOnwards(s, limit, 0) {
      SafeWalk(rows, limit, s);
    } else {
      UnsafeWalk(rows, limit, s);
    }
  }

  lemma {:induction false} PageCountIs(n: nat, limit: nat)
    requires limit > 0
    ensures PageCount(n, limit) == if n == 0 then 1 else (n + limit - 1) / limit
  {
    if n > limit {
      PageCountIs(n - limit, limit);
      QuotientStep(n + limit - 1, limit);
    } else if n > 0 {
      QuotientIs(n + limit - 1, limit, 1, n - 1);
    }
  }

  /** No information is lost in the cursor of this row among these rows. */
  ghost predicate TellApart(rows: set<Row>) {
    || (forall r :: r in rows ==> r.createdAt % MICROS_PER_MILLI == 0)
    || (forall a, b :: a in rows && b in rows && a != b
                       ==> a.createdAt / MICROS_PER_MILLI != b.createdAt / MICROS_PER_MILLI)
  }

  lemma TruncationIsHarmless(lower: Row, upper: Row)
    requires Below(KeyOf(lower), KeyOf(upper))
    requires (upper.createdAt % MICROS_PER_MILLI == 0)
             || lower.createdAt / MICROS_PER_MILLI != upper.createdAt / MICROS_PER_MILLI
    ensures Below(KeyOf(lower), CursorAfter(upper))
  {
  }

  lemma ToldApartIsSafe(rows: set<Row>, s: seq<Row>, limit: nat)
    requires limit > 0 && TellApart(rows) && Descending(s) && forall r :: r in s ==> r in rows
    ensures SafeFrom(s, limit, 0)
  {
    forall b | 0 < b < |s| ensures SafeBoundary(s, b) {
      assert s[b] in rows && s[b - 1] in rows;
      TruncationIsHarmless(s[b], s[b - 1]);
    }
  }

  /**
   * At the cursor's own precision (creation times in whole milliseconds, or no two in the same millisecond)
   * paging is exact for every limit: the full descending list, no row skipped or repeated, in
   * `max(1, ceil(n / limit))` pages.
   */
  lemma PagingIsExact(rows: set<Row>, limit: nat)
    requires DistinctIds(rows) && limit > 0 && TellApart(rows)
    ensures Items(Walk(rows, None, limit)) == Listing(rows)
    ensures |Walk(rows, None, limit)| == if rows == {} then 1 else (|rows| + limit - 1) / limit
  {
    ListingIsSorted(rows);
    ToldApartIsSafe(rows, Listing(rows), limit);
    WalkReproducesListingExactlyWhen(rows, limit);
    PageCountIs(|rows|, limit);
  }

  /** Two rows written in one millisecond, one row per page: the second page comes back empty. */
  lemma RowSkippedWithinAMillisecond()
    ensures var a, b := Row(1, 10500, "a", "ok"), Row(2, 10200, "a", "ok");
            DistinctIds({a, b}) && Items(Walk({a, b}, None, 1)) != Listing({a, b})
  {
    var a, b := Row(1, 10500, "a", "ok"), Row(2, 10200, "a", "ok");
    var rows := {a, b};
    ListingIsSorted(rows);
    ListingIsSorted({a, b});
    SortedIsUnique(Listing(rows), [a, b]);
    assert !SafeBoundary([a, b], 1);
    WalkReproducesListingExactlyWhen(rows, 1);
  }

  // ---------------------------------------------------------------- rows arriving during the walk

  ghost predicate NotBelow(rows: set<Row>, cursor: Key) {
    forall r :: r in rows ==> !Below(KeyOf(r), cursor)
  }

  ghost function Union(sets: seq<set<Row>>): set<Row> {
    if sets == [] then {} else sets[0] + Union(sets[1..])
  }

  lemma ArrivalsAreInvisible(rows: set<Row>, arrived: set<Row>, cursor: Key)
    requires NotBelow(arrived, cursor)
    ensures Beneath(rows + arrived, Some(cursor)) == Beneath(rows, Some(cursor))
  {
  }

  lemma StillNotBelow(arrived: set<Row>, cursor: Key, next: Key)
    requires NotBelow(arrived, cursor) && Below(next, cursor)
    ensures NotBelow(arrived, next)
  {
    forall r | r in arrived ensures !Below(KeyOf(r), next) {
      if Below(KeyOf(r), next) {
        BelowIsTransitive(KeyOf(r), next, cursor);
      }
    }
  }

  /** None of the batches of rows still to arrive lies below the cursor. */
  ghost predicate AllNotBelow(arrivals: seq<set<Row>>, cursor: Key) {
    forall i :: 0 <= i < |arrivals| ==> NotBelow(arrivals[i], cursor)
  }

  /** A walk that continues at `cursor` while, before each page, the next batch of `arrivals` is inserted. */
  ghost function WalkLive(rows: set<Row>, arrivals: seq<set<Row>>, cursor: Key, limit: nat): seq<Page>
    requires limit > 0 && AllNotBelow(arrivals, cursor) && DistinctIds(rows + Union(arrivals))
    decreases |arrivals|
  {
    if arrivals == [] then
      assert rows == rows + Union(arrivals);
      Walk(rows, Some(cursor), limit)
    else
      var now := rows + arrivals[0];
      assert now + Union(arrivals[1..]) == rows + Union(arrivals);
      var page := PageOf(now, Some(cursor), limit);
      if page.next.None? then [page]
      else
        CursorDescends(now, Some(cursor), limit);
        LaterArrivals(arrivals, cursor, page.next.value);
        [page] + WalkLive(now, arrivals[1..], page.next.value, limit)
  }

  lemma LaterArrivals(arrivals: seq<set<Row>>, cursor: Key, next: Key)
    requires arrivals != [] && AllNotBelow(arrivals, cursor) && Below(next, cursor)
    ensures AllNotBelow(arrivals[1..], next)
  {
    forall i | 0 <= i < |arrivals| ensures NotBelow(arrivals[i], next) {
      StillNotBelow(arrivals[i], cursor, next);
    }
  }

  /** A walk only depends on what lies beneath its cursor. */
  lemma {:induction false} WalkDependsOnBeneath(rows: set<Row>, others: set<Row>, cursor: Key, limit: nat)
    requires DistinctIds(rows) && DistinctIds(others) && limit > 0
    requires Beneath(rows, Some(cursor)) == Beneath(others, Some(cursor))
    ensures Walk(rows, Some(cursor), limit) == Walk(others, Some(cursor), limit)
    decreases |Beneath(rows, Some(cursor))|
  {
    var page := PageOf(rows, Some(cursor), limit);
    if page.next.Some? {
      var next := page.next.value;
      CursorDescends(rows, Some(cursor), limit);
      forall r | Below(KeyOf(r), next) ensures r in rows <==> r in others {
        BelowIsTransitive(KeyOf(r), next, cursor);
        assert r in Beneath(rows, Some(cursor)) <==> r in Beneath(others, Some(cursor));
      }
      WalkDependsOnBeneath(rows, others, next, limit);
    }
  }

  /** Rows inserted at or above the cursor while paging goes on never change the pages still to come. */
  lemma {:induction false} WalkIgnoresNewerRows(rows: set<Row>, arrivals: seq<set<Row>>, cursor: Key, limit: nat)
    requires limit > 0 && AllNotBelow(arrivals, cursor) && DistinctIds(rows + Union(arrivals))
    ensures WalkLive(rows, arrivals, cursor, limit) == Walk(rows, Some(cursor), limit)
    decreases |arrivals|
  {
    if arrivals != [] {
      var now := rows + arrivals[0];
      assert now + Union(arrivals[1..]) == rows + Union(arrivals);
      ArrivalsAreInvisible(rows, arrivals[0], cursor);
      WalkDependsOnBeneath(now, rows, cursor, limit);
      var page := PageOf(now, Some(cursor), limit);
      if page.next.Some? {
        CursorDescends(now, Some(cursor), limit);
        LaterArrivals(arrivals, cursor, page.next.value);
        WalkIgnoresNewerRows(now, arrivals[1..], page.next.value, limit);
      }
    }
  }

  // ---------------------------------------------------------------- the repositories

  /** What a query asks for; `None` and empty text both mean "no filter". */
  datatype Query = Query(agentId: Option<string>, outcome: Option<string>, cursor: Option<Key>, limit: Option<int>)

  /** One condition of the WHERE clause. */
  datatype Condition = AgentIs(agentId: string) | OutcomeIs(outcome: string) | BelowKey(key: Key)

  predicate Matches(r: Row, c: Condition) {
    match c
    case AgentIs(agentId) => r.agentId == agentId
    case OutcomeIs(outcome) => r.outcome == outcome
    case BelowKey(key) => Below(KeyOf(r), key)
  }

  function Where(rows: set<Row>, conditions: seq<Condition>): set<Row> {
    set r | r in rows && forall c :: c in conditions ==> Matches(r, c)
  }

  lemma WhereAlso(rows: set<Row>, conditions: seq<Condition>, c: Condition)
    ensures Where(rows, conditions + [c]) == set r | r in Where(rows, conditions) && Matches(r, c)
  {
  }

  predicate Wanted(filter: Option<string>, actual: string) {
    filter.None? || filter.value == "" || filter.value == actual
  }

  /** The rows a filter is about, cursor aside. */
  function Filtered(rows: set<Row>, q: Query): set<Row> {
    set r | r in rows && Wanted(q.agentId, r.agentId) && Wanted(q.outcome, r.outcome)
  }

  /** Fetching one row to spare and cutting it off again. */
  lemma FetchAndCut(s: seq<Row>, limit: nat)
    ensures var fetched := s[..Min(limit + 1, |s|)];
            (|fetched| > limit <==> |s| > limit) && fetched[..Min(limit, |fetched|)] == s[..Min(limit, |s|)]
  {
  }

  class AuditLogRepository {
    var rows: set<Row>

    ghost predicate Valid()
      reads this
    {
      DistinctIds(rows)
    }

    constructor ()
      ensures Valid() && rows == {}
    {
      rows := {};
    }

    /** The database assigns the id, so it is one no row has. */
    method Append(row: Row)
      requires Valid() && forall r :: r in rows ==> r.id != row.id
      modifies this
      ensures Valid() && rows == old(rows) + {row}
    {
      rows := rows + {row};
    }

    /** Collect the conditions, fetch one row more than a page holds, and cut. */
    method Find(q: Query) returns (page: Page)
      requires Valid()
      ensures DistinctIds(Filtered(rows, q))
      ensures page == PageOf(Filtered(rows, q), q.cursor, ClampLimit(q.limit))
    {
      var limit := ClampLimit(q.limit);
      var conditions: seq<Condition> := [];
      assert Where(rows, conditions) == rows;
      if q.agentId.Some? && q.agentId.value != "" {
        WhereAlso(rows, conditions, AgentIs(q.agentId.value));
        conditions := conditions + [AgentIs(q.agentId.value)];
      }
      if q.outcome.Some? && q.outcome.value != "" {
        WhereAlso(rows, conditions, OutcomeIs(q.outcome.value));
        conditions := conditions + [OutcomeIs(q.outcome.value)];
      }
      assert Where(rows, conditions) == Filtered(rows, q);
      if q.cursor.Some? {
        WhereAlso(rows, conditions, BelowKey(q.cursor.value));
        conditions := conditions + [BelowKey(q.cursor.value)];
      }
      var matching := Where(rows, conditions);
      assert matching == Beneath(Filtered(rows, q), q.cursor);
      var listing := Listing(matching);
      FetchAndCut(listing, limit);
      var fetched := listing[..Min(limit + 1, |listing|)];
      var hasMore := |fetched| > limit;
      var items := fetched[..Min(limit, |fetched|)];
      page := Page(items, hasMore, if hasMore then Some(CursorAfter(items[|items| - 1])) else None);
    }
  }

  // ---------------------------------------------------------------- a page, read off the rows

  /** The row is one the query asks for: its filters let it pass, and it was created before the cursor's position. */
  predicate AskedFor(r: Row, q: Query) {
    && (q.agentId.Some? && q.agentId.value != "" ==> r.agentId == q.agentId.value)
    && (q.outcome.Some? && q.outcome.value != "" ==> r.outcome == q.outcome.value)
    && (q.cursor.Some? ==>
          || r.createdAt < q.cursor.value.at
          || (r.createdAt == q.cursor.value.at && r.id < q.cursor.value.id))
  }

  /** The rows of the table that the query asks for. */
  function Asked(rows: set<Row>, q: Query): set<Row> {
    set r | r in rows && AskedFor(r, q)
  }

  /** The newest `n` of the rows, newest first. */
  ghost predicate AreNewest(items: seq<Row>, rows: set<Row>, n: nat) {
    && NewestFirst(items) && |items| == Min(n, |rows|)
    && (forall r :: r in items ==> r in rows)
    && (forall r, last :: r in rows && r !in items && last in items ==> ComesAfter(r, last))
  }

  lemma FirstAreNewest(s: seq<Row>, rows: set<Row>, n: nat)
    requires NewestFirst(s) && |s| == |rows| && forall r :: r in s <==> r in rows
    ensures AreNewest(s[..Min(n, |s|)], rows, n)
  {
    var items := s[..Min(n, |s|)];
    forall r, last | r in rows && r !in items && last in items ensures ComesAfter(r, last) {
      var i :| 0 <= i < |items| && items[i] == last;
      var j :| 0 <= j < |s| && s[j] == r;
      assert i < |items| <= j || (j < |items| && items[j] in items);
    }
  }

  /** The cursor of a row keeps its id, and its time down to the millisecond. */
  predicate Points(key: Key, r: Row) {
    key.id == r.id && key.at % 1000 == 0 && key.at <= r.createdAt < key.at + 1000
  }

  lemma CursorPoints(r: Row)
    ensures Points(CursorAfter(r), r)
  {
    var at := r.createdAt;
    assert at == at / 1000 * 1000 + at % 1000;
  }

  /**
   * The answer to a query holds the newest of the rows it asks for, newest first, as many as a page takes; it says
   * that there are more exactly when it leaves some out, and then points at its last row.
   */
  lemma PageExactly(rows: set<Row>, q: Query)
    requires DistinctIds(rows)
    ensures DistinctIds(Filtered(rows, q))
    ensures var page, limit := PageOf(Filtered(rows, q), q.cursor, ClampLimit(q.limit)), ClampLimit(q.limit);
            && AreNewest(page.items, Asked(rows, q), limit)
            && (page.hasMore <==> limit < |Asked(rows, q)|)
            && (page.hasMore <==> page.next.Some?)
            && (page.hasMore ==> |page.items| == limit && Points(page.next.value, page.items[limit - 1]))
  {
    var limit, asked := ClampLimit(q.limit), Asked(rows, q);
    assert asked == Beneath(Filtered(rows, q), q.cursor);
    var s := Listing(asked);
    ListingIsNewestFirst(asked);
    FirstAreNewest(s, asked, limit);
    assert s[..|s|] == s;
    if |s| > limit {
      CursorPoints(s[limit - 1]);
    }
  }

  // ---------------------------------------------------------------- cursor text

  datatype CursorError = Malformed

  /** The text inside a cursor: the printed time, a bar, the id. */
  function EncodeCursor(time: string, id: string): string {
    time + "|" + id
  }

  function DecodeCursor(raw: string): Result<(string, string), CursorError> {
    IndexOfIsFirst(raw, '|');
    match IndexOf(raw, '|')
    case None => Err(Malformed)
    case Some(bar) => Ok((raw[..bar], raw[bar + 1..]))
  }

  /** Decoding undoes encoding, for every id, iff the printed time has no bar (an ISO instant has none). */
  lemma CursorRoundTrip(time: string, id: string)
    ensures DecodeCursor(EncodeCursor(time, id)) == Ok((time, id)) <==> '|' !in time
  {
    var raw := EncodeCursor(time, id);
    IndexOfIsFirst(raw, '|');
    if '|' !in time {
      IndexOfSeparator(time, id, '|');
      assert raw[..|time|] == time && raw[|time| + 1..] == id;
    }
  }
}
