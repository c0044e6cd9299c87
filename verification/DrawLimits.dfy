/**
 Which id generators keep the ledger in order. The k-th movement that the domain accepts
 draws the generator's k-th id, whoever makes it and whatever becomes of it; the order of
 ids is the order of versions in all runs exactly if the generator never goes down.
 */
module DrawLimits {
  import opened Base
  import opened Wallets
  import opened Movement
  import opened LedgerTheorem
  import opened IdTheorem
  import opened Scenes

  type Generator = nat -> Id

  ghost predicate NeverGoesDown(draw: Generator) {
    forall i: nat, j: nat :: i < j ==> draw(i) <= draw(j)
  }

  ghost predicate Prefix(ids: seq<Id>, draw: Generator) {
    forall k :: 0 <= k < |ids| ==> ids[k] == draw(k)
  }

  /** Every id of the run comes from the generator, in its order. */
  ghost predicate DrawsFrom(cfg: Settings, run: seq<Action>, draw: Generator)
    requires IsRun(cfg, run)
  {
    Prefix(DrawnIds(cfg, run), draw)
  }

  // ----- a generator that never goes down keeps the order

  /** The top of the ids is the last one drawn, and none of them was below one before it. */
  lemma {:induction false} RisingDrawsNeverFall(cfg: Settings, run: seq<Action>, draw: Generator)
    requires IsRun(cfg, run) && DrawsFrom(cfg, run, draw) && NeverGoesDown(draw)
    ensures DrawsNeverFall(cfg, run)
    ensures var ids := DrawnIds(cfg, run); End(cfg, run).topId == if ids == [] then -1 else ids[|ids| - 1]
    decreases |run|
  {
    if run != [] {
      var (before, a) := (run[..|run| - 1], run[|run| - 1]);
      var (ids, new_) := (DrawnIds(cfg, before), NewDraw(End(cfg, before), a));
      assert DrawnIds(cfg, run) == ids + new_;
      PrefixOfPart(ids, new_, draw);
      RisingDrawsNeverFall(cfg, before, draw);
      if new_ != [] {
        assert (ids + new_)[|ids|] == a.turn.id == draw(|ids|);
        assert ids != [] ==> ids[|ids| - 1] == draw(|ids| - 1);
      }
    }
  }

  lemma PrefixOfPart(ids: seq<Id>, more: seq<Id>, draw: Generator)
    requires Prefix(ids + more, draw)
    ensures Prefix(ids, draw)
  {
    forall k | 0 <= k < |ids|
      ensures ids[k] == draw(k)
    {
      assert (ids + more)[k] == ids[k];
    }
  }

  // ----- any other generator can be made to break it

  /** A run from the generator with an idle wallet, whose calls are numbered by their draws. */
  ghost predicate Stage(cfg: Settings, run: seq<Action>, draw: Generator, n: nat) {
    && IsRun(cfg, run) && |DrawnIds(cfg, run)| == n && DrawsFrom(cfg, run, draw)
    && Idle(End(cfg, run)) && forall c :: c in End(cfg, run).calls ==> c < n
  }

  lemma PrefixGrows(ids: seq<Id>, draw: Generator)
    requires Prefix(ids, draw)
    ensures Prefix(ids + [draw(|ids|)], draw)
  {
  }

  /** One draw is burnt: nothing else changes. */
  lemma BurnsOne(cfg: Settings, run: seq<Action>, draw: Generator, n: nat) returns (next: seq<Action>)
    requires Stage(cfg, run, draw, n)
    ensures Stage(cfg, next, draw, n + 1)
    ensures End(cfg, next).wallets == End(cfg, run).wallets && End(cfg, next).ledger == End(cfg, run).ledger
  {
    next := DrawsAndDies(cfg, run, n, draw(n));
    PrefixGrows(DrawnIds(cfg, run), draw);
  }

  lemma {:induction false} Burns(cfg: Settings, run: seq<Action>, draw: Generator, n: nat, target: nat)
    returns (next: seq<Action>)
    requires Stage(cfg, run, draw, n) && n <= target
    ensures Stage(cfg, next, draw, target)
    ensures End(cfg, next).wallets == End(cfg, run).wallets && End(cfg, next).ledger == End(cfg, run).ledger
    decreases target - n
  {
    if n == target {
      next := run;
    } else {
      var r := BurnsOne(cfg, run, draw, n);
      next := Burns(cfg, r, draw, n + 1, target);
    }
  }

  /** One draw is posted. */
  lemma PostsOne(cfg: Settings, run: seq<Action>, draw: Generator, n: nat) returns (next: seq<Action>)
    requires Stage(cfg, run, draw, n) && Unposted(End(cfg, run).ledger, draw(n)) && End(cfg, run).wallets[0].cents <= 1
    ensures Stage(cfg, next, draw, n + 1)
    ensures var (s, t) := (End(cfg, run), End(cfg, next));
            && t.wallets == s.wallets[0 := Paid(s.wallets[0])]
            && t.ledger == s.ledger + [Posting(PaidEntry(s.wallets[0], draw(n)), n)]
  {
    next := OneMore(cfg, run, n, None, draw(n));
    PrefixGrows(DrawnIds(cfg, run), draw);
  }

  /** The i-th and the j-th draw are posted to one wallet, in this order. */
  lemma PostsTwo(cfg: Settings, draw: Generator, i: nat, j: nat) returns (run: seq<Action>)
    requires i < j && draw(i) != draw(j)
    ensures IsRun(cfg, run) && DrawsFrom(cfg, run, draw) && 0 in End(cfg, run).wallets
    ensures var es := EntriesOf(End(cfg, run).ledger, 0); |es| == 2 && es[0].id == draw(i) && es[1].id == draw(j)
  {
    run := OpensWallet(cfg);
    run := Burns(cfg, run, draw, 0, i);
    run := PostsOne(cfg, run, draw, i);
    var first := End(cfg, run).ledger;
    run := Burns(cfg, run, draw, i + 1, j);
    run := PostsOne(cfg, run, draw, j);
    EntriesExtend([], first[0], 0);
    EntriesExtend(first, End(cfg, run).ledger[1], 0);
    assert [] + [first[0]] == first;
  }

  /** In all runs that draw from the generator, every wallet's entries are in the order of their ids. */
  ghost predicate KeepsOrder(cfg: Settings, draw: Generator) {
    forall run, w ::
      IsRun(cfg, run) && DrawsFrom(cfg, run, draw) && w in End(cfg, run).wallets ==>
        Ascending(EntriesOf(End(cfg, run).ledger, w))
  }

  lemma TwoAscend(es: seq<Entry>)
    requires |es| == 2
    ensures Ascending(es) <==> es[0].id < es[1].id
  {
    assert es[..1] == [es[0]] && [es[0]][..0] == [];
    assert LastId([es[0]]) == es[0].id && Ascending([es[0]]);
  }

  /** Id order is version order in all runs if and only if the generator never goes down. */
  lemma KeepsOrderIff(cfg: Settings, draw: Generator)
    ensures KeepsOrder(cfg, draw) <==> NeverGoesDown(draw)
  {
    if NeverGoesDown(draw) {
      forall run, w | IsRun(cfg, run) && DrawsFrom(cfg, run, draw) && w in End(cfg, run).wallets
        ensures Ascending(EntriesOf(End(cfg, run).ledger, w))
      {
        RisingDrawsNeverFall(cfg, run, draw);
        RunsKeepOrder(cfg, run);
        assert WalletAscends(End(cfg, run).ledger, End(cfg, run).topId, w);
      }
    } else {
      var i: nat, j: nat :| i < j && draw(i) > draw(j);
      var run := PostsTwo(cfg, draw, i, j);
      TwoAscend(EntriesOf(End(cfg, run).ledger, 0));
    }
  }

  /** An instance: two ids drawn the wrong way round. */
  lemma DecreasingDrawsReverseTheOrder(cfg: Settings, a: Id, b: Id) returns (run: seq<Action>)
    requires a > b
    ensures IsRun(cfg, run) && 0 in End(cfg, run).wallets
    ensures var es := EntriesOf(End(cfg, run).ledger, 0); |es| == 2 && es[0].id == a && es[1].id == b
  {
    run := OpensWallet(cfg);
    run := OneMore(cfg, run, 0, None, a);
    var first := End(cfg, run).ledger;
    run := OneMore(cfg, run, 1, None, b);
    EntriesExtend([], first[0], 0);
    EntriesExtend(first, End(cfg, run).ledger[1], 0);
    assert [] + [first[0]] == first;
  }
}
