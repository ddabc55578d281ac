/**
 * The cross-side exchange of spin_leaf (src/puzzle/spin_puzzle_game.cpp):
 * two iterators, one on each side's marbles, step together and the marbles
 * under them trade places, one pair per step.
 */
module GameExchange {
  import opened Definitions
  import opened Marbles
  import opened SideIterator
  import opened SideWalks

  /**
   * k steps of std::iter_swap(it_a, it_b); ++it_a; ++it_b over the two sides'
   * marbles a and b, in the order the loop makes them.
   */
  function Exchange(a: seq<Marble>, b: seq<Marble>, ia: Iterator, ib: Iterator, k: nat): (r: (seq<Marble>, seq<Marble>))
    requires |a| == NMarbles && |b| == NMarbles && ia.Valid() && ib.Valid()
    ensures |r.0| == NMarbles && |r.1| == NMarbles
    decreases k
  {
    if k == 0 then (a, b)
    else
      var i, j := ia.Slot(), ib.Slot();
      Exchange(a[i := b[j]], b[j := a[i]], ia.Plus(1), ib.Plus(1), k - 1)
  }

  /** Marbles only trade places: together the two sides hold the same marbles as before. */
  lemma {:induction false} ExchangePermutes(a: seq<Marble>, b: seq<Marble>, ia: Iterator, ib: Iterator, k: nat)
    requires |a| == NMarbles && |b| == NMarbles && ia.Valid() && ib.Valid()
    ensures var r := Exchange(a, b, ia, ib, k); multiset(r.0 + r.1) == multiset(a + b)
    decreases k
  {
    if k > 0 {
      var i, j := ia.Slot(), ib.Slot();
      var a1, b1 := a[i := b[j]], b[j := a[i]];
      ExchangePermutes(a1, b1, ia.Plus(1), ib.Plus(1), k - 1);
      assert multiset(a1) == multiset(a) - multiset{a[i]} + multiset{b[j]};
      assert multiset(b1) == multiset(b) - multiset{b[j]} + multiset{a[i]};
    }
  }

  /** The k cells the iterator visits from it onwards do not include slot x. */
  predicate Misses(it: Iterator, k: nat, x: nat)
    requires it.Valid()
    decreases k
  {
    k == 0 || (it.Slot() != x && Misses(it.Plus(1), k - 1, x))
  }

  /** The k cells the iterator visits from it onwards are pairwise different. */
  predicate Distinct(it: Iterator, k: nat)
    requires it.Valid()
    decreases k
  {
    k == 0 || (Misses(it.Plus(1), k - 1, it.Slot()) && Distinct(it.Plus(1), k - 1))
  }

  /** Outside the visited cells nothing changes, and a write there commutes with the exchange. */
  lemma {:induction false} ExchangeFrame(a: seq<Marble>, b: seq<Marble>, ia: Iterator, ib: Iterator, k: nat,
                                         x: nat, u: Marble, y: nat, v: Marble)
    requires |a| == NMarbles && |b| == NMarbles && ia.Valid() && ib.Valid()
    requires x < NMarbles && y < NMarbles && Misses(ia, k, x) && Misses(ib, k, y)
    ensures var r := Exchange(a, b, ia, ib, k); r.0[x] == a[x] && r.1[y] == b[y]
    ensures var r := Exchange(a, b, ia, ib, k); Exchange(a[x := u], b[y := v], ia, ib, k) == (r.0[x := u], r.1[y := v])
    decreases k
  {
    if k > 0 {
      var i, j := ia.Slot(), ib.Slot();
      ExchangeFrame(a[i := b[j]], b[j := a[i]], ia.Plus(1), ib.Plus(1), k - 1, x, u, y, v);
      assert a[x := u][i := b[y := v][j]] == a[i := b[j]][x := u];
      assert b[y := v][j := a[x := u][i]] == b[j := a[i]][y := v];
    }
  }

  /** When neither side's cells repeat, doing the exchange twice gives both sides back. */
  lemma {:induction false} ExchangeTwice(a: seq<Marble>, b: seq<Marble>, ia: Iterator, ib: Iterator, k: nat)
    requires |a| == NMarbles && |b| == NMarbles && ia.Valid() && ib.Valid()
    requires Distinct(ia, k) && Distinct(ib, k)
    ensures var r := Exchange(a, b, ia, ib, k); Exchange(r.0, r.1, ia, ib, k) == (a, b)
    decreases k
  {
    if k > 0 {
      var x, y := ia.Slot(), ib.Slot();
      var na, nb := ia.Plus(1), ib.Plus(1);
      var e := Exchange(a, b, na, nb, k - 1);
      ExchangeFrame(a, b, na, nb, k - 1, x, b[y], y, a[x]);
      var w := Exchange(a[x := b[y]], b[y := a[x]], na, nb, k - 1);
      assert Exchange(a, b, ia, ib, k) == w;
      assert w == (e.0[x := b[y]], e.1[y := a[x]]);
      assert w.0[x := w.1[y]] == e.0 by {
        assert e.0[x] == a[x];
      }
      assert w.1[y := w.0[x]] == e.1 by {
        assert e.1[y] == b[y];
      }
      assert Exchange(w.0, w.1, ia, ib, k) == Exchange(e.0, e.1, na, nb, k - 1);
      ExchangeTwice(a, b, na, nb, k - 1);
    }
  }

  /** Cells visited after d and more increments avoid the cell reached after d' < d increments, within one pass. */
  lemma {:induction false} MissesAhead(it: Iterator, d: nat, e: nat, k: nat)
    requires it.Valid() && it.mode != LeafSpinning && d < e && e + k <= it.len
    ensures Misses(Advance(it, e), k, Advance(it, d).Slot())
    decreases k
  {
    if k > 0 {
      AdvanceDistinct(it, e, d);
      MissesAhead(it, d, e + 1, k - 1);
    }
  }

  /** Within one pass over the range, the cells visited are pairwise different. */
  lemma {:induction false} DistinctAhead(it: Iterator, d: nat, k: nat)
    requires it.Valid() && it.mode != LeafSpinning && d + k <= it.len
    ensures Distinct(Advance(it, d), k)
    decreases k
  {
    if k > 0 {
      MissesAhead(it, d, d + 1, k - 1);
      DistinctAhead(it, d + 1, k - 1);
    }
  }

  /** An iterator that moves visits up to a whole range of different cells. */
  lemma PassDistinct(it: Iterator, k: nat)
    requires it.Valid() && it.mode != LeafSpinning && k <= it.len
    ensures Distinct(it, k)
  {
    DistinctAhead(it, 0, k);
  }
}
