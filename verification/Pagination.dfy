/**
 Newest-first pages over a set of ids, and what a client sees that follows
 `next_cursor` to the end while rows are being inserted. A table is the set of ids
 the owner-filtered query can see; `list_by_owner` and `list_by_wallet` page the
 same way.
 */
module Pagination {
  import opened Base
  import opened Wallets
  import opened Cursors
  import opened Movement
  import opened LedgerTheorem
  import opened IdTheorem
  import opened DrawLimits

  predicate Descending(xs: seq<Id>) {
    forall i, j :: 0 <= i < j < |xs| ==> xs[i] > xs[j]
  }

  ghost predicate IsLargest(rows: set<Id>, m: Id) {
    m in rows && forall r :: r in rows ==> r <= m
  }

  ghost function Largest(rows: set<Id>): (m: Id)
    requires rows != {}
    ensures IsLargest(rows, m)
  {
    LargestExists(rows);
    var m :| IsLargest(rows, m);
    m
  }

  lemma {:induction false} LargestExists(rows: set<Id>)
    requires rows != {}
    ensures exists m :: IsLargest(rows, m)
  {
    var x :| x in rows;
    var others := rows - {x};
    assert forall r :: r in rows ==> r == x || r in others;
    if others == {} {
      assert IsLargest(rows, x);
    } else {
      LargestExists(others);
      var m :| IsLargest(others, m);
      if x > m {
        assert IsLargest(rows, x);
      } else {
        assert IsLargest(rows, m);
      }
    }
  }

  /** SELECT ... ORDER BY id DESC LIMIT n */
  ghost function Newest(rows: set<Id>, n: nat): seq<Id> {
    if n == 0 || rows == {} then [] else [Largest(rows)] + Newest(rows - {Largest(rows)}, n - 1)
  }

  /** `xs` are the n newest of `rows`, newest first. */
  ghost predicate AreNewest(rows: set<Id>, n: nat, xs: seq<Id>) {
    && |xs| <= n && (|xs| < n ==> forall r :: r in rows ==> r in xs)
    && Descending(xs)
    && (forall x :: x in xs ==> x in rows)
    && (forall r, x :: r in rows && r !in xs && x in xs ==> r < x)
  }

  lemma {:induction false} NewestAreNewest(rows: set<Id>, n: nat)
    ensures AreNewest(rows, n, Newest(rows, n))
  {
    if n > 0 && rows != {} {
      var m := Largest(rows);
      var rest := Newest(rows - {m}, n - 1);
      NewestAreNewest(rows - {m}, n - 1);
      assert Newest(rows, n) == [m] + rest;
      forall j | 0 <= j < |rest|
        ensures rest[j] < m
      {
        assert rest[j] in rest;
      }
    }
  }

  /** WHERE id < :after */
  ghost function Below(rows: set<Id>, after: Option<Id>): set<Id> {
    match after
    case None => rows
    case Some(bound) => set r | r in rows && r < bound
  }

  datatype Page = Page(items: seq<Id>, next: Option<string>)

  function Visible(fetched: seq<Id>, limit: nat): seq<Id> {
    if |fetched| > limit then fetched[..limit] else fetched
  }

  /** The query: one row more than asked for tells whether there is a next page, and after which id. */
  ghost function Query(rows: set<Id>, limit: nat, after: Option<Id>): (seq<Id>, Option<Id>) {
    var fetched := Newest(Below(rows, after), limit + 1);
    var visible := Visible(fetched, limit);
    (visible, if |fetched| > limit && visible != [] then Some(visible[|visible| - 1]) else None)
  }

  /** One call of the listing, cursors in and out as text. */
  ghost function List(rows: set<Id>, limit: nat, cursor: Option<string>): Result<Page, CursorError> {
    match DecodeCursor(cursor)
    case Err(e) => Err(e)
    case Ok(after) =>
      var (items, last) := Query(rows, limit, after);
      Ok(Page(items, if last.None? then None else Some(EncodeCursor(last.value))))
  }

  function Limit(after: Option<Id>): int {
    match after
    case None => 0x1_0000_0000_0000_0000_0000_0000_0000_0000
    case Some(id) => id
  }

  /** The bound a cursor sets on the rows it will see; a malformed one sees none. */
  function Bound(cursor: Option<string>): int {
    match DecodeCursor(cursor)
    case Err(_) => 0
    case Ok(after) => Limit(after)
  }

  /** The rows not shown are older than every row shown, if there are any. */
  lemma VisibleIsPrefix(rows: set<Id>, limit: nat, fetched: seq<Id>)
    requires limit >= 1 && AreNewest(rows, limit + 1, fetched)
    ensures var visible := Visible(fetched, limit);
            && Descending(visible)
            && (forall x :: x in visible ==> x in rows && x >= visible[|visible| - 1])
            && (forall r :: r in rows && r !in visible ==> |fetched| > limit && r < visible[|visible| - 1])
  {
    var visible := Visible(fetched, limit);
    assert forall i :: 0 <= i < |visible| ==> visible[i] == fetched[i] && visible[i] in visible;
    assert forall x :: x in visible ==> x in fetched;
    forall r | r in rows && r !in visible
      ensures |fetched| > limit && r < visible[|visible| - 1]
    {
      if r in fetched {
        var i :| 0 <= i < |fetched| && fetched[i] == r;
        assert visible[|visible| - 1] == fetched[limit - 1];
      } else {
        assert |fetched| == limit + 1;
        assert visible[|visible| - 1] in fetched;
      }
    }
  }

  /** What one query shows: the newest rows below its bound, leaving only older ones. */
  lemma QueryIsPrefix(rows: set<Id>, limit: nat, after: Option<Id>)
    requires limit >= 1
    ensures var (items, last) := Query(rows, limit, after);
            && Descending(items)
            && (forall x :: x in items ==> x in rows && x < Limit(after))
            && (forall r :: r in rows && r < Limit(after) && r !in items ==> last.Some? && r < last.value)
            && (last.Some? ==> last.value < Limit(after) && forall x :: x in items ==> x >= last.value)
  {
    var below := Below(rows, after);
    assert forall r :: r in below <==> r in rows && r < Limit(after);
    NewestAreNewest(below, limit + 1);
    VisibleIsPrefix(below, limit, Newest(below, limit + 1));
    var (items, last) := Query(rows, limit, after);
    assert last.Some? ==> last.value in items;
  }

  lemma {:induction false} NewestCounts(rows: set<Id>, n: nat)
    ensures |Newest(rows, n)| == Min(n, |rows|)
  {
    if n > 0 && rows != {} {
      NewestCounts(rows - {Largest(rows)}, n - 1);
    }
  }

  /** A page is full if it can be, and there is a next one exactly when rows remain. */
  lemma QueryFillsItsPage(rows: set<Id>, limit: nat, after: Option<Id>)
    requires limit >= 1
    ensures var (items, last) := Query(rows, limit, after);
            var below := set r | r in rows && (after.Some? ==> r < after.value);
            && |items| == Min(limit, |below|)
            && (last.Some? <==> |below| > limit)
            && (last.Some? ==> last.value == items[limit - 1])
  {
    var below := set r | r in rows && (after.Some? ==> r < after.value);
    assert Below(rows, after) == below;
    NewestCounts(below, limit + 1);
  }

  /** The next cursor, decoded again, is the last item shown, and strictly below the one it came from. */
  lemma NextCursorIsLower(rows: set<Id>, limit: nat, cursor: Option<string>)
    requires limit >= 1 && DecodeCursor(cursor).Ok? && Query(rows, limit, DecodeCursor(cursor).value).1.Some?
    ensures var page := List(rows, limit, cursor).value;
            && DecodeCursor(page.next) == Ok(Query(rows, limit, DecodeCursor(cursor).value).1)
            && 0 <= Bound(page.next) < Bound(cursor)
  {
    QueryIsPrefix(rows, limit, DecodeCursor(cursor).value);
    var last := Query(rows, limit, DecodeCursor(cursor).value).1.value;
    CursorRoundTrip(last, "");
    assert EncodeCursor(last) + "" == EncodeCursor(last);
  }

  /** Everything a client is shown that follows the cursors, page k being read from `tables(k)`. */
  ghost function Walk(tables: nat -> set<Id>, k: nat, limit: nat, cursor: Option<string>): seq<Id>
    requires limit >= 1
    decreases Bound(cursor)
  {
    match List(tables(k), limit, cursor)
    case Err(_) => []
    case Ok(page) =>
      if page.next.None? then page.items
      else
        NextCursorIsLower(tables(k), limit, cursor);
        page.items + Walk(tables, k + 1, limit, page.next)
  }

  /** Tables only gain rows between pages. */
  ghost predicate OnlyInserts(tables: nat -> set<Id>) {
    forall i: nat, j: nat :: i <= j ==> tables(i) <= tables(j)
  }

  /** What a client that starts below `bound` at page `k` is shown: see `WalkShowsEverything`. */
  ghost predicate ShowsEverything(tables: nat -> set<Id>, k: nat, bound: int, shown: seq<Id>) {
    && Descending(shown)
    && (forall x :: x in shown ==> x < bound && exists j: nat :: k <= j && x in tables(j))
    && (forall r :: r in tables(k) && r < bound ==> r in shown)
  }

  /** The last page shows the rest of its table. */
  lemma LastPageShowsEverything(tables: nat -> set<Id>, k: nat, limit: nat, after: Option<Id>)
    requires limit >= 1 && Query(tables(k), limit, after).1.None?
    ensures ShowsEverything(tables, k, Limit(after), Query(tables(k), limit, after).0)
  {
    QueryIsPrefix(tables(k), limit, after);
  }

  /** A page, and then everything below its last row. */
  lemma PageThenRest(tables: nat -> set<Id>, k: nat, limit: nat, after: Option<Id>, rest: seq<Id>)
    requires limit >= 1 && OnlyInserts(tables) && Query(tables(k), limit, after).1.Some?
    requires ShowsEverything(tables, k + 1, Query(tables(k), limit, after).1.value, rest)
    ensures ShowsEverything(tables, k, Limit(after), Query(tables(k), limit, after).0 + rest)
  {
    var (items, last) := Query(tables(k), limit, after);
    QueryIsPrefix(tables(k), limit, after);
    DescendingJoins(items, rest, last.value);
    assert tables(k) <= tables(k + 1);
    forall x | x in items + rest
      ensures x < Limit(after) && exists j: nat :: k <= j && x in tables(j)
    {
      if x in items {
        assert x in tables(k);
      } else {
        var j: nat :| k + 1 <= j && x in tables(j);
        assert k <= j;
      }
    }
  }

  /**
   With arbitrary inserts between pages, a walk shows strictly descending ids, so
   none twice; it shows every row below its cursor that was there when it began;
   and it shows nothing that was never there. Its end is the decreases clause of
   `Walk`: the 128-bit cursor falls with every page.
   */
  lemma {:induction false} WalkShowsEverything(tables: nat -> set<Id>, k: nat, limit: nat, cursor: Option<string>)
    requires OnlyInserts(tables) && limit >= 1 && DecodeCursor(cursor).Ok?
    ensures ShowsEverything(tables, k, Bound(cursor), Walk(tables, k, limit, cursor))
    decreases Bound(cursor)
  {
    var after := DecodeCursor(cursor).value;
    var last := Query(tables(k), limit, after).1;
    if last.None? {
      LastPageShowsEverything(tables, k, limit, after);
    } else {
      NextCursorIsLower(tables(k), limit, cursor);
      var next := Some(EncodeCursor(last.value));
      WalkShowsEverything(tables, k + 1, limit, next);
      PageThenRest(tables, k, limit, after, Walk(tables, k + 1, limit, next));
    }
  }

  lemma DescendingJoins(xs: seq<Id>, ys: seq<Id>, bound: int)
    requires Descending(xs) && Descending(ys)
    requires (forall x :: x in xs ==> x >= bound) && (forall y :: y in ys ==> y < bound)
    ensures Descending(xs + ys)
  {
    forall i, j | 0 <= i < j < |xs + ys|
      ensures (xs + ys)[i] > (xs + ys)[j]
    {
      if i < |xs| {
        assert xs[i] in xs;
      }
      if j >= |xs| {
        assert ys[j - |xs|] in ys;
      }
    }
  }

  /** With one table, the walk is the whole table. */
  lemma QuietWalkIsTheTable(rows: set<Id>, limit: nat)
    requires limit >= 1
    ensures var shown := Walk(_ => rows, 0, limit, None);
            Descending(shown) && forall r :: r in rows <==> r in shown
  {
    WalkShowsEverything(_ => rows, 0, limit, None);
  }

  // ----- reading the ledger back

  function Ids(es: seq<Entry>): seq<Id> {
    if es == [] then [] else Ids(es[..|es| - 1]) + [es[|es| - 1].id]
  }

  function Reversed(xs: seq<Id>): seq<Id> {
    if xs == [] then [] else [xs[|xs| - 1]] + Reversed(xs[..|xs| - 1])
  }

  /** A descending list is determined by its elements. */
  lemma {:induction false} DescendingIsUnique(xs: seq<Id>, ys: seq<Id>)
    requires Descending(xs) && Descending(ys) && forall x :: x in xs <==> x in ys
    ensures xs == ys
  {
    if xs + ys != [] {
      var z := (xs + ys)[0];
      assert z in xs || z in ys;
      assert z in xs && z in ys;
      assert xs[0] in ys && ys[0] in xs;
      assert xs[0] == ys[0];
      forall x
        ensures x in xs[1..] <==> x in ys[1..]
      {
        assert x in xs[1..] <==> x in xs && x != xs[0];
        assert x in ys[1..] <==> x in ys && x != ys[0];
      }
      DescendingIsUnique(xs[1..], ys[1..]);
      assert xs == [xs[0]] + xs[1..] && ys == [ys[0]] + ys[1..];
    }
  }

  lemma {:induction false} AscendingReversed(es: seq<Entry>)
    requires Ascending(es)
    ensures Descending(Reversed(Ids(es)))
    ensures forall x :: x in Reversed(Ids(es)) <==> x in Ids(es)
    ensures forall x :: x in Ids(es) ==> x <= LastId(es)
  {
    if es != [] {
      var front := es[..|es| - 1];
      AscendingReversed(front);
      var ids := Ids(es);
      assert ids[..|ids| - 1] == Ids(front) && ids[|ids| - 1] == es[|es| - 1].id;
      var rest := Reversed(Ids(front));
      assert Reversed(ids) == [es[|es| - 1].id] + rest;
      forall j | 0 <= j < |rest|
        ensures rest[j] < es[|es| - 1].id
      {
        assert rest[j] in rest;
      }
    }
  }

  function LastBalance(es: seq<Entry>): int {
    if es == [] then 0 else es[|es| - 1].balanceAfter
  }

  /** Each entry's balance is the one before it, moved by its own amount. */
  ghost predicate Replays(es: seq<Entry>) {
    es == [] ||
    (Replays(es[..|es| - 1])
     && LastBalance(es) == LastBalance(es[..|es| - 1]) + Effect(es[|es| - 1].direction, es[|es| - 1].cents))
  }

  lemma {:induction false} RunningBalancesReplay(es: seq<Entry>, currency: string)
    requires RunningBalances(es, currency)
    ensures Replays(es) && LastBalance(es) == Balance(es)
  {
    if es != [] {
      RunningBalancesReplay(es[..|es| - 1], currency);
      assert RunningBalance(es[|es| - 1], Balance(es), currency);
    }
  }

  ghost function IdSet(es: seq<Entry>): set<Id> {
    set x | x in Ids(es)
  }

  /**
   If id draws never fall, following the cursors over a wallet's ledger lists exactly
   its committed entries in reverse commit order, and read backwards it replays the
   balance step by step, from zero to the wallet's current balance.
   */
  lemma ListingReplaysTheBalance(cfg: Settings, run: seq<Action>, w: Id, limit: nat)
    requires IsRun(cfg, run) && DrawsNeverFall(cfg, run) && w in End(cfg, run).wallets && limit >= 1
    ensures var (row, es) := (End(cfg, run).wallets[w], EntriesOf(End(cfg, run).ledger, w));
            && Walk(_ => IdSet(es), 0, limit, None) == Reversed(Ids(es))
            && Replays(es)
            && row.cents == LastBalance(es)
  {
    var s := End(cfg, run);
    var es := EntriesOf(s.ledger, w);
    RunsKeepInv(cfg, run);
    RunsKeepOrder(cfg, run);
    assert WalletAscends(s.ledger, s.topId, w);
    assert Reconciles(s.wallets[w], es);
    RunningBalancesReplay(es, s.wallets[w].currency);
    AscendingReversed(es);
    QuietWalkIsTheTable(IdSet(es), limit);
    DescendingIsUnique(Walk(_ => IdSet(es), 0, limit, None), Reversed(Ids(es)));
  }

  /** Following the cursors, page by page, lists the wallet's entries in reverse commit order. */
  ghost predicate ListsBackwards(es: seq<Entry>, limit: nat)
    requires limit >= 1
  {
    Walk(_ => IdSet(es), 0, limit, None) == Reversed(Ids(es))
  }

  /** In all runs that draw from the generator, every listing is in reverse commit order. */
  ghost predicate KeepsListings(cfg: Settings, draw: Generator, limit: nat)
    requires limit >= 1
  {
    forall run, w ::
      IsRun(cfg, run) && DrawsFrom(cfg, run, draw) && w in End(cfg, run).wallets ==>
        ListsBackwards(EntriesOf(End(cfg, run).ledger, w), limit)
  }

  lemma IdsOfTwo(es: seq<Entry>)
    requires |es| == 2
    ensures Ids(es) == [es[0].id, es[1].id]
  {
    assert Ids(es) == Ids(es[..1]) + [es[1].id];
    assert Ids(es[..1]) == Ids(es[..1][..0]) + [es[0].id];
    assert es[..1][..0] == [] && Ids([]) == [];
  }

  lemma ReversedTwo(a: Id, b: Id)
    ensures Reversed([a, b]) == [b, a]
  {
    assert Reversed([a, b]) == [b] + Reversed([a, b][..1]);
    assert [a, b][..1] == [a] && Reversed([a]) == [a] + Reversed([a][..0]);
    assert [a][..0] == [] && Reversed([]) == [];
  }

  lemma TwoListedBackwards(es: seq<Entry>, limit: nat)
    requires |es| == 2 && limit >= 1 && ListsBackwards(es, limit)
    ensures es[0].id < es[1].id
  {
    IdsOfTwo(es);
    ReversedTwo(es[0].id, es[1].id);
    QuietWalkIsTheTable(IdSet(es), limit);
    var shown := Walk(_ => IdSet(es), 0, limit, None);
    assert shown == [es[1].id, es[0].id];
    assert Descending(shown) && shown[0] > shown[1];
  }

  /** Listings are in reverse commit order in all runs if and only if the generator never goes down. */
  lemma KeepsListingsIff(cfg: Settings, draw: Generator, limit: nat)
    requires limit >= 1
    ensures KeepsListings(cfg, draw, limit) <==> NeverGoesDown(draw)
  {
    if NeverGoesDown(draw) {
      forall run, w | IsRun(cfg, run) && DrawsFrom(cfg, run, draw) && w in End(cfg, run).wallets
        ensures ListsBackwards(EntriesOf(End(cfg, run).ledger, w), limit)
      {
        RisingDrawsNeverFall(cfg, run, draw);
        ListingReplaysTheBalance(cfg, run, w, limit);
      }
    } else {
      var i: nat, j: nat :| i < j && draw(i) > draw(j);
      var run := PostsTwo(cfg, draw, i, j);
      var es := EntriesOf(End(cfg, run).ledger, 0);
      if ListsBackwards(es, limit) {
        TwoListedBackwards(es, limit);
      }
    }
  }
}
