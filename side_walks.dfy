/**
 * Facts about repeated operator++ on a side's iterator, used by the loops of
 * module PuzzleSide that read a leaf or the ring one marble at a time.
 */
module SideWalks {
  import opened Definitions
  import opened Marbles
  import opened SideIterator

  /** Incrementing a times and then b times is incrementing a + b times. */
  lemma {:induction false} AdvanceAdd(it: Iterator, a: nat, b: nat)
    requires it.Valid()
    ensures Advance(Advance(it, a), b) == Advance(it, a + b)
    decreases b
  {
    if b > 0 {
      var c: nat := b - 1;
      AdvanceAdd(it, a, c);
      assert Advance(Advance(it, a), b) == Advance(Advance(it, a), c).Plus(1);
      assert Advance(it, a + b) == Advance(it, a + c).Plus(1);
    }
  }

  /** Within one pass over the range, different numbers of increments land on different marbles. */
  lemma AdvanceDistinct(it: Iterator, i: nat, j: nat)
    requires it.Valid() && it.mode != LeafSpinning && j < i < it.len
    ensures Advance(it, i).Slot() != Advance(it, j).Slot()
  {
    AdvanceCursor(it, i);
    AdvanceCursor(it, j);
    ModWrap(it.cur, i, it.len);
    ModWrap(it.cur, j, it.len);
  }

  /** A walk of a + b marbles is the walk of the first a followed by the walk from there. */
  lemma {:induction false} WalkSplit<T>(s: seq<T>, it: Iterator, a: nat, b: nat)
    requires it.Valid() && |s| == NMarbles
    ensures Walk(s, it, a + b) == Walk(s, it, a) + Walk(s, Advance(it, a), b)
    decreases b
  {
    if b > 0 {
      var c: nat := b - 1;
      WalkSplit(s, it, a, c);
      AdvanceAdd(it, a, c);
      assert Walk(s, it, a + b) == Walk(s, it, a + c) + [s[Advance(it, a + c).Slot()]];
      assert Walk(s, Advance(it, a), b) == Walk(s, Advance(it, a), c) + [s[Advance(Advance(it, a), c).Slot()]];
    }
  }

  /** The middle part of three joined sequences is found at the first one's length. */
  lemma MiddleOfThree<T>(x: seq<T>, y: seq<T>, z: seq<T>)
    ensures (x + y + z)[|x|..|x| + |y|] == y
  {
    assert x + y + z == x + (y + z);
  }

  /** A walk of c marbles cut after its first a. */
  lemma WalkCut<T>(s: seq<T>, it: Iterator, a: nat, c: nat)
    requires it.Valid() && |s| == NMarbles && a <= c
    ensures Walk(s, it, c) == Walk(s, it, a) + Walk(s, Advance(it, a), c - a)
  {
    WalkSplit(s, it, a, c - a);
  }

  /** A stretch of a walk is the walk from the iterator advanced to the stretch's start. */
  lemma WalkSlice<T>(s: seq<T>, it: Iterator, c: nat, a: nat, b: nat)
    requires it.Valid() && |s| == NMarbles && a + b <= c
    ensures Walk(s, it, c)[a..a + b] == Walk(s, Advance(it, a), b)
  {
    var x, y, z := Walk(s, it, a), Walk(s, Advance(it, a), b), Walk(s, Advance(it, a + b), c - (a + b));
    WalkCut(s, it, a + b, c);
    WalkSplit(s, it, a, b);
    MiddleOfThree(x, y, z);
  }

  /**
   * The marbles that the first i increments of three leaf iterators have
   * visited (the slots reset_marbles_for_border_rotation has already moved).
   */
  function Visited(n: Iterator, e: Iterator, w: Iterator, i: nat): (vs: set<int>)
    requires n.Valid() && e.Valid() && w.Valid()
  {
    if i == 0 then {}
    else
      var j: nat := i - 1;
      Visited(n, e, w, j) + {Advance(n, j).Slot(), Advance(e, j).Slot(), Advance(w, j).Slot()}
  }

  /** Three iterators over the three leaves, none of them frozen by a spinning leaf. */
  predicate LeafIterators(n: Iterator, e: Iterator, w: Iterator) {
    n.Valid() && e.Valid() && w.Valid() &&
    n.lo == 0 && e.lo == N && w.lo == 2 * N && n.len == N && e.len == N && w.len == N &&
    n.mode != LeafSpinning && e.mode != LeafSpinning && w.mode != LeafSpinning
  }

  /** After i < N increments, each cursor is still in its own leaf's block of the array. */
  lemma LeafSlots(n: Iterator, e: Iterator, w: Iterator, i: nat)
    requires LeafIterators(n, e, w) && i < N
    ensures 0 <= Advance(n, i).Slot() < N <= Advance(e, i).Slot() < 2 * N <= Advance(w, i).Slot() < 3 * N
  {
    AdvanceCursor(n, i);
    AdvanceCursor(e, i);
    AdvanceCursor(w, i);
  }

  /** The marbles under the three cursors after i increments have not been visited before. */
  lemma {:induction false} NextUnvisited(n: Iterator, e: Iterator, w: Iterator, i: nat, k: nat)
    requires LeafIterators(n, e, w) && k <= i < N
    ensures Advance(n, i).Slot() !in Visited(n, e, w, k)
    ensures Advance(e, i).Slot() !in Visited(n, e, w, k)
    ensures Advance(w, i).Slot() !in Visited(n, e, w, k)
    decreases k
  {
    if k > 0 {
      var j: nat := k - 1;
      NextUnvisited(n, e, w, i, j);
      AdvanceCursor(n, i);
      AdvanceCursor(e, i);
      AdvanceCursor(w, i);
      AdvanceCursor(n, j);
      AdvanceCursor(e, j);
      AdvanceCursor(w, j);
      AdvanceDistinct(n, i, j);
      AdvanceDistinct(e, i, j);
      AdvanceDistinct(w, i, j);
    }
  }

  /** The same for the single ring iterator of reset_marbles_from_border_rotation. */
  function RingVisited(it: Iterator, i: nat): (vs: set<int>)
    requires it.Valid()
  {
    if i == 0 then {} else var j: nat := i - 1; RingVisited(it, j) + {Advance(it, j).Slot()}
  }

  lemma {:induction false} RingNextUnvisited(it: Iterator, i: nat, k: nat)
    requires it.Valid() && it.mode != LeafSpinning && k <= i < it.len
    ensures Advance(it, i).Slot() !in RingVisited(it, k)
    decreases k
  {
    if k > 0 {
      var j: nat := k - 1;
      RingNextUnvisited(it, i, j);
      AdvanceDistinct(it, i, j);
    }
  }
  /** One more read of a walk appends the marble under the cursor. */
  lemma WalkStep<T>(s: seq<T>, it: Iterator, t0: seq<T>, t1: seq<T>, off: nat, i: nat)
    requires it.Valid() && |s| == NMarbles && off + i < |t0| == |t1|
    requires t0[off..off + i] == Walk(s, it, i)
    requires t1[off + i] == s[Advance(it, i).Slot()]
    requires forall k :: off <= k < off + i ==> t1[k] == t0[k]
    ensures t1[off..off + i + 1] == Walk(s, it, i + 1)
  {
    assert t1[off..off + i + 1] == t0[off..off + i] + [t1[off + i]];
  }

  /**
   * One iteration of the loop of reset_marbles_for_border_rotation, given the
   * scratch buffer t and the side's buffer b after each of its three swaps:
   * the three marbles read are appended to the three walks, and every marble
   * not yet visited is still the original one.
   */
  lemma ResetStep<T>(m: seq<T>, n: Iterator, e: Iterator, w: Iterator, i: nat,
                     t0: seq<T>, b0: seq<T>, t1: seq<T>, b1: seq<T>, t2: seq<T>, b2: seq<T>, t3: seq<T>, b3: seq<T>)
    requires LeafIterators(n, e, w) && i < N && |m| == NMarbles && |t0| == NMarbles && |b0| == NMarbles
    requires t0[..i] == Walk(m, n, i) && t0[N..N + i] == Walk(m, e, i) && t0[2 * N..2 * N + i] == Walk(m, w, i)
    requires forall q :: 0 <= q < NMarbles && q !in Visited(n, e, w, i) ==> b0[q] == m[q]
    requires t1 == t0[i := b0[Advance(n, i).Slot()]] && b1 == b0[Advance(n, i).Slot() := t0[i]]
    requires t2 == t1[N + i := b1[Advance(e, i).Slot()]] && b2 == b1[Advance(e, i).Slot() := t1[N + i]]
    requires t3 == t2[2 * N + i := b2[Advance(w, i).Slot()]] && b3 == b2[Advance(w, i).Slot() := t2[2 * N + i]]
    ensures t3[..i + 1] == Walk(m, n, i + 1) && t3[N..N + i + 1] == Walk(m, e, i + 1) && t3[2 * N..2 * N + i + 1] == Walk(m, w, i + 1)
    ensures forall q :: 0 <= q < NMarbles && q !in Visited(n, e, w, i + 1) ==> b3[q] == m[q]
  {
    var sn, se, sw := Advance(n, i).Slot(), Advance(e, i).Slot(), Advance(w, i).Slot();
    LeafSlots(n, e, w, i);
    NextUnvisited(n, e, w, i, i);
    assert b0[sn] == m[sn] && b0[se] == m[se] && b0[sw] == m[sw];
    assert t3 == t0[i := m[sn]][N + i := m[se]][2 * N + i := m[sw]];
    ResetWalks(m, n, e, w, i, t0, t3);
    assert Visited(n, e, w, i + 1) == Visited(n, e, w, i) + {sn, se, sw};
  }

  /** The three marbles read in one iteration extend the three walks in the scratch buffer. */
  lemma ResetWalks<T>(m: seq<T>, n: Iterator, e: Iterator, w: Iterator, i: nat, t0: seq<T>, t3: seq<T>)
    requires LeafIterators(n, e, w) && i < N && |m| == NMarbles && |t0| == NMarbles
    requires t0[..i] == Walk(m, n, i) && t0[N..N + i] == Walk(m, e, i) && t0[2 * N..2 * N + i] == Walk(m, w, i)
    requires t3 == t0[i := m[Advance(n, i).Slot()]][N + i := m[Advance(e, i).Slot()]][2 * N + i := m[Advance(w, i).Slot()]]
    ensures t3[..i + 1] == Walk(m, n, i + 1) && t3[N..N + i + 1] == Walk(m, e, i + 1) && t3[2 * N..2 * N + i + 1] == Walk(m, w, i + 1)
  {
    WalkStep(m, n, t0, t3, 0, i);
    WalkStep(m, e, t0, t3, N, i);
    WalkStep(m, w, t0, t3, 2 * N, i);
  }

}
