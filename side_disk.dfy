/**
 * Where the marbles go when the internal disk turns (rotate_internal_disk in
 * src/puzzle/spin_puzzle_side.h): the coupling marbles of the three leaves
 * move together one leaf on, and a turn one way undoes a turn the other way.
 */
module SideDisk {
  import opened Definitions
  import opened Marbles
  import opened SideIterator
  import opened SideStatus
  import opened SideSpec

  /** Cursors one before each leaf's first marble, as rotate_internal_disk takes them. */
  predicate LeafCursors(n: Iterator, e: Iterator, w: Iterator) {
    n.Valid() && e.Valid() && w.Valid() &&
    n.lo == 0 && e.lo == 10 && w.lo == 20 && n.len == 10 && e.len == 10 && w.len == 10 &&
    n.mode != LeafSpinning && e.mode != LeafSpinning && w.mode != LeafSpinning
  }

  /** The slot a leaf cursor reaches after d decrements. */
  function At(it: Iterator, d: int): (q: int)
    requires it.Valid() && it.len == 10
    ensures it.lo <= q < it.lo + 10
  {
    it.lo + (it.cur - d) % 10
  }

  lemma {:induction false} RetreatAt(it: Iterator, d: nat)
    requires it.Valid() && it.len == 10 && it.mode != LeafSpinning
    ensures Retreat(it, d).Slot() == At(it, d)
  {
    RetreatCursor(it, d);
  }

  /** How many decrements take a leaf cursor to slot q. */
  function Depth(it: Iterator, q: int): (d: int)
    requires it.len == 10
    ensures 0 <= d < 10
  {
    (it.cur - (q - it.lo)) % 10
  }

  /** Slot q is one of the first k slots the cursor meets going backwards. */
  predicate Reached(it: Iterator, q: int, k: nat)
    requires it.len == 10
  {
    it.lo <= q < it.lo + 10 && Depth(it, q) < k
  }

  lemma DepthAt(it: Iterator, d: int)
    requires it.Valid() && it.len == 10 && 0 <= d < 10
    ensures Depth(it, At(it, d)) == d
  {
  }

  lemma AtDepth(it: Iterator, q: int)
    requires it.Valid() && it.len == 10 && it.lo <= q < it.lo + 10
    ensures At(it, Depth(it, q)) == q
  {
  }

  /**
   * The slot whose marble ends at q after k iterations of the turn: a forward
   * turn brings WEST's marble to NORTH, NORTH's to EAST and EAST's to WEST.
   */
  function TurnSource(n: Iterator, e: Iterator, w: Iterator, forward: bool, k: nat, q: int): (src: int)
    requires LeafCursors(n, e, w) && 0 <= q < NMarbles
    ensures 0 <= src < NMarbles
  {
    if Reached(n, q, k) then At(if forward then w else e, Depth(n, q))
    else if Reached(e, q, k) then At(if forward then n else w, Depth(e, q))
    else if Reached(w, q, k) then At(if forward then e else n, Depth(w, q))
    else q
  }

  /** Every marble after the turn's swaps comes from the slot TurnSource names. */
  lemma {:induction false} DiskCycleAt(m: seq<Marble>, n: Iterator, e: Iterator, w: Iterator, forward: bool, k: nat, q: int)
    requires |m| == NMarbles && LeafCursors(n, e, w) && k <= 10 && 0 <= q < NMarbles
    ensures DiskCycle(m, n, e, w, forward, k)[q] == m[TurnSource(n, e, w, forward, k, q)]
    decreases k
  {
    if k > 0 {
      var j: nat := k - 1;
      StepBack(n);
      StepBack(e);
      StepBack(w);
      DiskCycleAt(CycleSwaps(m, n, e, w, forward), n.Plus(-1), e.Plus(-1), w.Plus(-1), forward, j, q);
      CycleStep(m, n, e, w, forward, k, j, q);
    }
  }

  /** The induction step of DiskCycleAt: the first iteration followed by the k - 1 others. */
  lemma {:induction false} CycleStep(m: seq<Marble>, n: Iterator, e: Iterator, w: Iterator, forward: bool, k: nat, j: nat, q: int)
    requires |m| == NMarbles && LeafCursors(n, e, w) && 0 < k <= 10 && j == k - 1 && 0 <= q < NMarbles
    requires LeafCursors(n.Plus(-1), e.Plus(-1), w.Plus(-1))
    requires var p := CycleSwaps(m, n, e, w, forward);
      DiskCycle(p, n.Plus(-1), e.Plus(-1), w.Plus(-1), forward, j)[q] == p[TurnSource(n.Plus(-1), e.Plus(-1), w.Plus(-1), forward, j, q)]
    ensures DiskCycle(m, n, e, w, forward, k)[q] == m[TurnSource(n, e, w, forward, k, q)]
  {
    CycleUnfold(m, n, e, w, forward, k, j);
    ShiftSource(n, e, w, forward, k, j, q);
    ThreeSwaps(m, n.Slot(), e.Slot(), w.Slot(), forward, TurnSource(n.Plus(-1), e.Plus(-1), w.Plus(-1), forward, j, q));
  }

  lemma {:induction false} CycleUnfold(m: seq<Marble>, n: Iterator, e: Iterator, w: Iterator, forward: bool, k: nat, j: nat)
    requires |m| == NMarbles && n.Valid() && e.Valid() && w.Valid() && 0 < k && j == k - 1
    ensures DiskCycle(m, n, e, w, forward, k) == DiskCycle(CycleSwaps(m, n, e, w, forward), n.Plus(-1), e.Plus(-1), w.Plus(-1), forward, j)
  {
  }

  /** Stepping a leaf cursor back by one keeps its range and moves every depth by one. */
  lemma {:induction false} StepBack(it: Iterator)
    requires it.Valid() && it.len == 10 && it.mode != LeafSpinning
    ensures it.Plus(-1).Valid() && it.Plus(-1).len == 10 && it.Plus(-1).lo == it.lo && it.Plus(-1).mode == it.mode
    ensures it.Slot() == At(it, 0)
  {
  }

  /** A slot reached from the stepped-back cursor is one reached from the cursor, one deeper. */
  lemma {:induction false} ReachStep(it: Iterator, q: int, k: nat, j: nat)
    requires it.Valid() && it.len == 10 && it.mode != LeafSpinning && 0 < k <= 10 && j == k - 1
    ensures Reached(it.Plus(-1), q, j) <==> Reached(it, q, k) && q != it.Slot()
    ensures Reached(it.Plus(-1), q, j) ==> Depth(it.Plus(-1), q) + 1 == Depth(it, q)
    ensures Reached(it, q, k) ==> (q == it.Slot() <==> Depth(it, q) == 0)
  {
  }

  /** The slot d - 1 places behind the stepped-back cursor is d places behind the cursor, and not under it. */
  lemma {:induction false} AtStep(it: Iterator, d: int)
    requires it.Valid() && it.len == 10 && it.mode != LeafSpinning && 0 < d < 10
    ensures At(it.Plus(-1), d - 1) == At(it, d)
    ensures At(it, d) != it.Slot()
  {
  }

  /**
   * The turn's sources before and after its first iteration: the first
   * iteration settles the three slots under the cursors, and the remaining
   * iterations, from the stepped-back cursors, settle every other slot.
   */
  lemma {:induction false} ShiftSource(n: Iterator, e: Iterator, w: Iterator, forward: bool, k: nat, j: nat, q: int)
    requires LeafCursors(n, e, w) && 0 < k <= 10 && j == k - 1 && 0 <= q < NMarbles
    ensures LeafCursors(n.Plus(-1), e.Plus(-1), w.Plus(-1))
    ensures var a, b, c := n.Slot(), e.Slot(), w.Slot();
      var q1 := TurnSource(n.Plus(-1), e.Plus(-1), w.Plus(-1), forward, j, q);
      (q == a ==> q1 == a && TurnSource(n, e, w, forward, k, q) == (if forward then c else b)) &&
      (q == b ==> q1 == b && TurnSource(n, e, w, forward, k, q) == (if forward then a else c)) &&
      (q == c ==> q1 == c && TurnSource(n, e, w, forward, k, q) == (if forward then b else a)) &&
      (q != a && q != b && q != c ==> q1 != a && q1 != b && q1 != c && q1 == TurnSource(n, e, w, forward, k, q))
  {
    StepBack(n);
    StepBack(e);
    StepBack(w);
    ReachStep(n, q, k, j);
    ReachStep(e, q, k, j);
    ReachStep(w, q, k, j);
    if Reached(n, q, k) && Depth(n, q) > 0 {
      AtStep(e, Depth(n, q));
      AtStep(w, Depth(n, q));
    } else if Reached(e, q, k) && Depth(e, q) > 0 {
      AtStep(n, Depth(e, q));
      AtStep(w, Depth(e, q));
    } else if Reached(w, q, k) && Depth(w, q) > 0 {
      AtStep(n, Depth(w, q));
      AtStep(e, Depth(w, q));
    }
  }

  /** The two swaps of one iteration rotate three distinct slots, one way or the other. */
  lemma {:induction false} ThreeSwaps(p: seq<Marble>, a: int, b: int, c: int, forward: bool, q: int)
    requires 0 <= a < |p| && 0 <= b < |p| && 0 <= c < |p| && 0 <= q < |p|
    requires a != b && b != c && a != c
    ensures var r := if forward then Swap(Swap(p, a, c), b, c) else Swap(Swap(p, a, b), b, c);
            (q != a && q != b && q != c ==> r[q] == p[q]) &&
            r[a] == (if forward then p[c] else p[b]) &&
            r[b] == (if forward then p[a] else p[c]) &&
            r[c] == (if forward then p[b] else p[a])
  {
  }

  /** A backward turn's source composed with a forward turn's source is the identity. */
  lemma TurnSourcesCancel(n: Iterator, e: Iterator, w: Iterator, k: nat, q: int)
    requires LeafCursors(n, e, w) && k <= 10 && 0 <= q < NMarbles
    ensures TurnSource(n, e, w, true, k, TurnSource(n, e, w, false, k, q)) == q
    ensures TurnSource(n, e, w, false, k, TurnSource(n, e, w, true, k, q)) == q
  {
    if n.lo <= q < n.lo + 10 { AtDepth(n, q); DepthAt(e, Depth(n, q)); DepthAt(w, Depth(n, q)); }
    if e.lo <= q < e.lo + 10 { AtDepth(e, q); DepthAt(n, Depth(e, q)); DepthAt(w, Depth(e, q)); }
    if w.lo <= q < w.lo + 10 { AtDepth(w, q); DepthAt(n, Depth(w, q)); DepthAt(e, Depth(w, q)); }
  }

  /** Three forward sources in a row lead back to the start. */
  lemma TurnSourceThrice(n: Iterator, e: Iterator, w: Iterator, k: nat, q: int)
    requires LeafCursors(n, e, w) && k <= 10 && 0 <= q < NMarbles
    ensures var q1 := TurnSource(n, e, w, true, k, q);
            var q2 := TurnSource(n, e, w, true, k, q1);
            TurnSource(n, e, w, true, k, q2) == q
  {
    if n.lo <= q < n.lo + 10 { AtDepth(n, q); DepthAt(e, Depth(n, q)); DepthAt(w, Depth(n, q)); }
    if e.lo <= q < e.lo + 10 { AtDepth(e, q); DepthAt(n, Depth(e, q)); DepthAt(w, Depth(e, q)); }
    if w.lo <= q < w.lo + 10 { AtDepth(w, q); DepthAt(n, Depth(w, q)); DepthAt(e, Depth(w, q)); }
  }

  /** A backward turn undoes a forward turn, and a forward turn undoes a backward one. */
  lemma {:induction false} DiskCycleInverse(m: seq<Marble>, n: Iterator, e: Iterator, w: Iterator, forward: bool, k: nat)
    requires |m| == NMarbles && LeafCursors(n, e, w) && k <= 10
    ensures DiskCycle(DiskCycle(m, n, e, w, forward, k), n, e, w, !forward, k) == m
  {
    var r := DiskCycle(m, n, e, w, forward, k);
    var y := DiskCycle(r, n, e, w, !forward, k);
    forall q | 0 <= q < NMarbles
      ensures y[q] == m[q]
    {
      DiskCycleAt(r, n, e, w, !forward, k, q);
      DiskCycleAt(m, n, e, w, forward, k, TurnSource(n, e, w, !forward, k, q));
      TurnSourcesCancel(n, e, w, k, q);
    }
  }

  /** Three forward turns bring every coupling marble back to its leaf. */
  lemma {:induction false} DiskCycleThrice(m: seq<Marble>, n: Iterator, e: Iterator, w: Iterator, k: nat)
    requires |m| == NMarbles && LeafCursors(n, e, w) && k <= 10
    ensures DiskCycle(DiskCycle(DiskCycle(m, n, e, w, true, k), n, e, w, true, k), n, e, w, true, k) == m
  {
    var r1 := DiskCycle(m, n, e, w, true, k);
    var r2 := DiskCycle(r1, n, e, w, true, k);
    var r3 := DiskCycle(r2, n, e, w, true, k);
    forall q | 0 <= q < NMarbles
      ensures r3[q] == m[q]
    {
      TurnSourceThrice(n, e, w, k, q);
      var q1 := TurnSource(n, e, w, true, k, q);
      var q2 := TurnSource(n, e, w, true, k, q1);
      DiskCycleAt(r2, n, e, w, true, k, q);
      DiskCycleAt(r1, n, e, w, true, k, q1);
      DiskCycleAt(m, n, e, w, true, k, q2);
    }
  }
}
