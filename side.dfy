/**
 * SpinPuzzleSide<10, 3> (src/puzzle/spin_puzzle_side.h) as an object: the
 * thirty marbles live in a buffer that every operation rearranges in place by
 * swaps, and the Status object keeps the phases, flags and mode history.
 * Each method is proved to leave the side in the state the matching function
 * of module SideSpec describes.
 */
module PuzzleSide {
  import opened Wrappers
  import opened Definitions
  import opened Angles
  import opened Marbles
  import opened SideIterator
  import opened SideStatus
  import opened SideSpec
  import opened SideWalks
  import opened Cells

  /** SpinPuzzleSide::Status: the small arrays are sequences the setters reassign. */
  class Status {
    var shifts: seq<real>
    var disk: real
    var history: seq<TrefoilStatus>
    var rotation: seq<Rotation>

    function State(): StatusState
      reads this
    {
      StatusState(shifts, disk, history, rotation)
    }

    predicate Valid()
      reads this
    {
      State().Valid()
    }

    /** The default member initialisers. */
    constructor()
      ensures State() == InitialStatus()
    {
      shifts := [0.0, 0.0, 0.0];
      disk := 0.0;
      history := [TrefoilInvalid, LeafRotation];
      rotation := [RotationOk, RotationOk, RotationOk, RotationInvalid];
    }

    /** update_shift_for_leaf: returns the new phase. */
    method UpdateShiftForLeaf(leaf: Leaf, angle: real) returns (r: real)
      requires Valid() && leaf.IsSection()
      modifies this
      ensures State() == UpdateShift(old(State()), leaf, angle)
      ensures r == State().Shift(leaf)
    {
      var alpha := shifts[leaf.Code()];
      shifts := shifts[leaf.Code() := FMod(alpha + angle + 360.0, 360.0)];
      r := shifts[leaf.Code()];
    }

    /** set_shift_for_leaf: returns the new phase. */
    method SetShiftForLeaf(leaf: Leaf, angle: real) returns (r: real)
      requires Valid() && leaf.IsSection()
      modifies this
      ensures State() == SetShift(old(State()), leaf, angle)
      ensures r == State().Shift(leaf)
    {
      shifts := shifts[leaf.Code() := FMod(angle + 360.0, 360.0)];
      r := shifts[leaf.Code()];
    }

    /** set_rotation_status: always succeeds. */
    method SetRotationStatus(leaf: Leaf, flag: Rotation) returns (ok: bool)
      requires Valid() && (leaf.IsSection() || leaf == Trefoil)
      modifies this
      ensures ok && State() == SetFlag(old(State()), leaf, flag)
    {
      rotation := rotation[leaf.Code() := flag];
      ok := true;
    }

    /** set_central_disk_shift. */
    method SetCentralDiskShift(angle: real)
      requires Valid()
      modifies this
      ensures State() == old(State()).(disk := angle)
    {
      disk := angle;
    }

    /** set_trefoil_status: the current state moves to PREVIOUS. */
    method SetTrefoilStatus(mode: TrefoilStatus)
      requires Valid()
      modifies this
      ensures State() == PushMode(old(State()), mode)
    {
      history := [history[Current.Code()], mode];
    }
  }

  /**
   * The loop of reset_marbles_for_border_rotation: a scratch buffer of
   * default marbles receives, by iter_swap, the marbles read from each leaf's
   * first marble, leaf after leaf.
   */
  method MoveLeavesOut(src: array<Marble>, n: Iterator, e: Iterator, w: Iterator) returns (tmp: array<Marble>)
    requires src.Length == NMarbles && LeafIterators(n, e, w)
    modifies src
    ensures fresh(tmp) && tmp.Length == NMarbles
    ensures tmp[..] == Walk(old(src[..]), n, n.len) + Walk(old(src[..]), e, e.len) + Walk(old(src[..]), w, w.len)
  {
    ghost var m := src[..];
    tmp := new Marble[NMarbles](_ => Default());
    var itN, itE, itW := n, e, w;
    var i := 0;
    while i < N
      invariant 0 <= i <= N && tmp.Length == NMarbles && fresh(tmp)
      invariant itN == Advance(n, i) && itE == Advance(e, i) && itW == Advance(w, i)
      invariant tmp[..i] == Walk(m, n, i) && tmp[N..N + i] == Walk(m, e, i) && tmp[2 * N..2 * N + i] == Walk(m, w, i)
      invariant forall q :: 0 <= q < NMarbles && q !in Visited(n, e, w, i) ==> src[q] == m[q]
    {
      MoveLeavesPass(src, tmp, m, n, e, w, i, itN, itE, itW);
      itN, itE, itW := itN.Plus(1), itE.Plus(1), itW.Plus(1);
      i := i + 1;
    }
    assert tmp[..] == tmp[..N] + tmp[N..2 * N] + tmp[2 * N..];
  }

  /** One pass of the loop of reset_marbles_for_border_rotation: the three iter_swap calls. */
  method MoveLeavesPass(src: array<Marble>, tmp: array<Marble>, ghost m: seq<Marble>, n: Iterator, e: Iterator, w: Iterator,
                        i: nat, itN: Iterator, itE: Iterator, itW: Iterator)
    requires src.Length == NMarbles && tmp.Length == NMarbles && src != tmp && |m| == NMarbles
    requires LeafIterators(n, e, w) && i < N
    requires itN == Advance(n, i) && itE == Advance(e, i) && itW == Advance(w, i)
    requires tmp[..i] == Walk(m, n, i) && tmp[N..N + i] == Walk(m, e, i) && tmp[2 * N..2 * N + i] == Walk(m, w, i)
    requires forall q :: 0 <= q < NMarbles && q !in Visited(n, e, w, i) ==> src[q] == m[q]
    modifies src, tmp
    ensures tmp[..i + 1] == Walk(m, n, i + 1) && tmp[N..N + i + 1] == Walk(m, e, i + 1) && tmp[2 * N..2 * N + i + 1] == Walk(m, w, i + 1)
    ensures forall q :: 0 <= q < NMarbles && q !in Visited(n, e, w, i + 1) ==> src[q] == m[q]
  {
    LeafSlots(n, e, w, i);
    ghost var t0, b0 := tmp[..], src[..];
    IterSwap(tmp, i, src, itN.Slot());
    ghost var t1, b1 := tmp[..], src[..];
    IterSwap(tmp, N + i, src, itE.Slot());
    ghost var t2, b2 := tmp[..], src[..];
    IterSwap(tmp, 2 * N + i, src, itW.Slot());
    ResetStep(m, n, e, w, i, t0, b0, t1, b1, t2, b2, tmp[..], src[..]);
  }

  /**
   * The loop of reset_marbles_from_border_rotation: a scratch buffer receives
   * the thirty marbles read around the ring from its first marble.
   */
  method MoveRingOut(src: array<Marble>, ring: Iterator) returns (tmp: array<Marble>)
    requires src.Length == NMarbles && ring.Valid() && ring.len == NMarbles && ring.mode != LeafSpinning
    modifies src
    ensures fresh(tmp) && tmp.Length == NMarbles
    ensures tmp[..] == Walk(old(src[..]), ring, ring.len)
  {
    ghost var m := src[..];
    tmp := new Marble[NMarbles](_ => Default());
    var it := ring;
    var i := 0;
    while i < NMarbles
      invariant 0 <= i <= NMarbles && it == Advance(ring, i) && tmp.Length == NMarbles && fresh(tmp)
      invariant tmp[..i] == Walk(m, ring, i)
      invariant forall q :: 0 <= q < NMarbles && q !in RingVisited(ring, i) ==> src[q] == m[q]
    {
      RingNextUnvisited(ring, i, i);
      IterSwap(tmp, i, src, it.Slot());
      assert RingVisited(ring, i + 1) == RingVisited(ring, i) + {it.Slot()};
      assert tmp[..i + 1] == tmp[..i] + [tmp[i]];
      it := it.Plus(1);
      i := i + 1;
    }
    assert tmp[..] == tmp[..NMarbles];
  }

  /**
   * The swaps of reorder_marbles_after_border_reset: at 60 degrees the 7th and
   * 9th marbles of each leaf, otherwise the seven swaps of the last three
   * marbles of the three leaves.
   */
  method BorderSwaps(a: array<Marble>, n: Iterator, e: Iterator, w: Iterator, at60: bool)
    requires a.Length == NMarbles && n.Valid() && e.Valid() && w.Valid()
    modifies a
    ensures a[..] == BorderExchange(old(a[..]), n, e, w, at60)
  {
    if at60 {
      IterSwap(a, FromEnd(n, 3), a, FromEnd(n, 1));
      IterSwap(a, FromEnd(e, 3), a, FromEnd(e, 1));
      IterSwap(a, FromEnd(w, 3), a, FromEnd(w, 1));
    } else {
      IterSwap(a, FromEnd(n, 3), a, FromEnd(e, 1));
      IterSwap(a, FromEnd(n, 2), a, FromEnd(e, 2));
      IterSwap(a, FromEnd(n, 1), a, FromEnd(e, 3));
      IterSwap(a, FromEnd(w, 3), a, FromEnd(e, 1));
      IterSwap(a, FromEnd(w, 2), a, FromEnd(e, 2));
      IterSwap(a, FromEnd(w, 1), a, FromEnd(e, 3));
      IterSwap(a, FromEnd(w, 1), a, FromEnd(w, 3));
    }
  }

  /**
   * The loop of rotate_internal_disk: three times, the cursors one before
   * each leaf's first marble exchange their marbles and step back.
   */
  method CycleMarbles(a: array<Marble>, n: Iterator, e: Iterator, w: Iterator, forward: bool)
    requires a.Length == NMarbles && n.Valid() && e.Valid() && w.Valid()
    modifies a
    ensures a[..] == DiskCycle(old(a[..]), n, e, w, forward, M)
  {
    ghost var m := a[..];
    var cn, ce, cw := n, e, w;
    var i := 1;
    while i <= M
      invariant 1 <= i <= M + 1 && cn.Valid() && ce.Valid() && cw.Valid()
      invariant DiskCycle(a[..], cn, ce, cw, forward, M + 1 - i) == DiskCycle(m, n, e, w, forward, M)
    {
      ghost var before := a[..];
      if forward {
        IterSwap(a, cn.Slot(), a, cw.Slot());
        IterSwap(a, ce.Slot(), a, cw.Slot());
      } else {
        IterSwap(a, cn.Slot(), a, ce.Slot());
        IterSwap(a, ce.Slot(), a, cw.Slot());
      }
      assert a[..] == CycleSwaps(before, cn, ce, cw, forward);
      i, cn, ce, cw := i + 1, cn.Plus(-1), ce.Plus(-1), cw.Plus(-1);
    }
  }

  /**
   * One inner loop of current_time_step: the colours of count marbles, read
   * by repeated operator++ from it, written to out from start.
   */
  method WriteColors(src: array<Marble>, it: Iterator, count: nat, out: array<Color>, start: nat) returns (next: Iterator)
    requires src.Length == NMarbles && it.Valid() && start + count <= out.Length
    modifies out
    ensures next == Advance(it, count)
    ensures out[..] == Overlay(old(out[..]), start, Painted(Walk(src[..], it, count)))
  {
    ghost var o := out[..];
    next := it;
    var i := 0;
    while i < count
      invariant 0 <= i <= count && next == Advance(it, i)
      invariant out[..] == Overlay(o, start, Painted(Walk(src[..], it, i)))
    {
      ghost var w := Walk(src[..], it, i);
      out[start + i] := src[next.Slot()].color;
      PaintedPush(w, src[next.Slot()]);
      OverlayPush(o, start, Painted(w), src[next.Slot()].color);
      next := next.Plus(1);
      i := i + 1;
    }
  }

  /** The k-th leaf of the ring, read in two stretches from the iterator advanced k leaves. */
  lemma LeafOfRing(m: seq<Marble>, ring: Iterator, k: nat)
    requires |m| == NMarbles && ring.Valid() && ring.len == NMarbles && k < NLeaves
    ensures Walk(m, ring, ring.len)[N * k..N * k + (N - M)] == Walk(m, Advance(ring, N * k), N - M)
    ensures Walk(m, ring, ring.len)[N * k + (N - M)..N * (k + 1)] == Walk(m, Advance(Advance(ring, N * k), N - M), M)
    ensures Advance(Advance(Advance(ring, N * k), N - M), M) == Advance(ring, N * (k + 1))
  {
    LeafStretch(m, ring, ring.len, N * k);
    assert N * (k + 1) == N * k + N;
  }

  /** Ten marbles of a walk from lo, read in two stretches of N - M and M. */
  lemma LeafStretch(m: seq<Marble>, ring: Iterator, c: nat, lo: nat)
    requires |m| == NMarbles && ring.Valid() && lo + N <= c
    ensures Walk(m, ring, c)[lo..lo + (N - M)] == Walk(m, Advance(ring, lo), N - M)
    ensures Walk(m, ring, c)[lo + (N - M)..lo + N] == Walk(m, Advance(Advance(ring, lo), N - M), M)
    ensures Advance(Advance(Advance(ring, lo), N - M), M) == Advance(ring, lo + N)
  {
    WalkSlice(m, ring, c, lo, N - M);
    WalkSlice(m, ring, c, lo + (N - M), M);
    AdvanceAdd(ring, lo, N - M);
    AdvanceAdd(Advance(ring, lo), N - M, M);
    AdvanceAdd(ring, lo, N);
  }

  /** RingOverlayStep for the walks current_time_step reads from the iterator advanced k leaves. */
  lemma RingLeafStep(m: seq<Marble>, ring: Iterator, k: nat, it: Iterator, mid: Iterator, next: Iterator,
                     o: seq<Color>, start: nat, before: seq<Color>, between: seq<Color>, after: seq<Color>)
    requires |m| == NMarbles && ring.Valid() && ring.len == NMarbles && k < NLeaves
    requires it == Advance(ring, N * k) && mid == Advance(it, N - M) && next == Advance(mid, M)
    requires before == Overlay(o, start, RingCells(Walk(m, ring, ring.len), k))
    requires between == Overlay(before, start + 13 * k, Painted(Walk(m, it, N - M)))
    requires after == Overlay(between, start + 13 * k + (N - M) + 3, Painted(Walk(m, mid, M)))
    ensures next == Advance(ring, N * (k + 1))
    ensures after == Overlay(o, start, RingCells(Walk(m, ring, ring.len), k + 1))
  {
    LeafOfRing(m, ring, k);
    RingOverlayStep(o, start, Walk(m, ring, ring.len), k, start + 13 * k, N * k, before, between, after);
  }

  /**
   * Writing the k-th leaf of the ring (marbles lo to lo + N of the ring's
   * walk w) at cell at, after the first k leaves, extends the ring's run of cells.
   */
  lemma RingOverlayStep(o: seq<Color>, start: nat, w: seq<Marble>, k: nat, at: nat, lo: nat,
                        before: seq<Color>, between: seq<Color>, after: seq<Color>)
    requires |w| == NMarbles && k < NLeaves && at == start + 13 * k && lo == N * k
    requires before == Overlay(o, start, RingCells(w, k))
    requires between == Overlay(before, at, Painted(w[lo..lo + (N - M)]))
    requires after == Overlay(between, at + (N - M) + 3, Painted(w[lo + (N - M)..lo + N]))
    ensures after == Overlay(o, start, RingCells(w, k + 1))
  {
    assert lo + N <= |w| by { assert k <= 2; }
    var p1, p2 := Painted(w[lo..lo + (N - M)]), Painted(w[lo + (N - M)..lo + N]);
    var r := RingCells(w, k);
    RingCellsNext(w, k, lo);
    assert at == start + |r| && at + (N - M) + 3 == at + |p1| + 3;
    OverlayExtend(o, start, r, p1, p2, at, at + (N - M) + 3, before, between, after, RingCells(w, k + 1));
  }

  /** The ring's cells one leaf further on. */
  lemma RingCellsNext(w: seq<Marble>, k: nat, lo: nat)
    requires |w| == NMarbles && k < NLeaves && lo == N * k
    ensures |RingCells(w, k)| == 13 * k
    ensures RingCells(w, k + 1) == RingCells(w, k) + (Painted(w[lo..lo + (N - M)]) + Gap + Painted(w[lo + (N - M)..lo + N]))
  {
    assert N * (k + 1) == lo + N;
  }

  /** One pass of the leaf loop of current_time_step's border branch: the k-th leaf of the ring. */
  method WriteRingLeaf(src: array<Marble>, ring: Iterator, k: nat, it: Iterator, out: array<Color>, start: nat,
                       ghost o: seq<Color>) returns (next: Iterator)
    requires src.Length == NMarbles && ring.Valid() && ring.len == NMarbles && k < NLeaves && start + 39 <= out.Length
    requires it == Advance(ring, N * k)
    requires out[..] == Overlay(o, start, RingCells(Walk(src[..], ring, ring.len), k))
    modifies out
    ensures next == Advance(ring, N * (k + 1))
    ensures out[..] == Overlay(o, start, RingCells(Walk(src[..], ring, ring.len), k + 1))
  {
    ghost var m, before := src[..], out[..];
    var mid := WriteColors(src, it, N - M, out, start + 13 * k);
    ghost var between := out[..];
    assert between == Overlay(before, start + 13 * k, Painted(Walk(m, it, N - M)));
    next := WriteColors(src, mid, M, out, start + 13 * k + (N - M) + 3);
    assert src[..] == m;
    assert out[..] == Overlay(between, start + 13 * k + (N - M) + 3, Painted(Walk(m, mid, M)));
    RingLeafStep(m, ring, k, it, mid, next, o, start, before, between, out[..]);
  }

  /**
   * The border branch of current_time_step: the ring is read once from its
   * first marble, each leaf as N - M colours, three skipped cells and M colours.
   */
  method WriteRing(src: array<Marble>, ring: Iterator, out: array<Color>, start: nat)
    requires src.Length == NMarbles && ring.Valid() && ring.len == NMarbles && start + 39 <= out.Length
    modifies out
    ensures out[..] == Overlay(old(out[..]), start, RingCells(Walk(src[..], ring, ring.len), NLeaves))
  {
    ghost var o := out[..];
    var it := ring;
    var k := 0;
    while k < NLeaves
      invariant 0 <= k <= NLeaves && it == Advance(ring, N * k)
      invariant out[..] == Overlay(o, start, RingCells(Walk(src[..], ring, ring.len), k))
    {
      it := WriteRingLeaf(src, ring, k, it, out, start, o);
      k := k + 1;
    }
  }

  class SpinPuzzleSide {
    /** m_marbles. */
    const marbles: array<Marble>
    /** m_status. */
    const status: Status

    function State(): SideState
      reads this, marbles, status
    {
      SideState(marbles[..], status.State())
    }

    predicate Valid()
      reads this, marbles, status
    {
      State().Valid()
    }

    /** The constructor from the thirty marbles, taken over in order. */
    constructor(ms: seq<Marble>)
      requires |ms| == NMarbles
      ensures Valid() && State() == NewSide(ms)
      ensures fresh(marbles) && fresh(status)
    {
      marbles := new Marble[NMarbles](i requires 0 <= i < NMarbles => ms[i]);
      status := new Status();
    }

    /**
     * The side assigned from a side newly built on ms (as reset does): the
     * thirty marbles taken over in order and the default status.
     */
    method Assign(ms: seq<Marble>)
      requires Valid() && |ms| == NMarbles
      modifies marbles, status
      ensures Valid() && State() == NewSide(ms)
    {
      forall i | 0 <= i < NMarbles {
        marbles[i] := ms[i];
      }
      status.shifts, status.disk := [0.0, 0.0, 0.0], 0.0;
      status.history := [TrefoilInvalid, LeafRotation];
      status.rotation := [RotationOk, RotationOk, RotationOk, RotationInvalid];
    }

    /** is_rotation_possible and is_leaf_spinning_possible: the leaf's flag is OK. */
    function IsRotationPossible(leaf: Leaf): (b: bool)
      reads this, marbles, status
      requires Valid() && leaf.IsSection()
      ensures b == LeafFree(State(), leaf)
    {
      status.rotation[leaf.Code()] == RotationOk
    }

    /** get_trifoild_status. */
    function Mode(): (m: TrefoilStatus)
      reads this, marbles, status
      requires Valid()
      ensures m == State().Mode()
    {
      status.history[Current.Code()]
    }

    /** update_rotation_status. */
    method UpdateRotationStatus(leaf: Leaf)
      requires Valid() && leaf.IsSection()
      modifies status
      ensures Valid() && State() == SideSpec.UpdateRotationStatus(old(State()), leaf)
    {
      var alpha := FMod(FMod(status.shifts[leaf.Code()] + 360.0, 360.0), DTheta);
      var dtheta := DTheta;
      var tolerance := Tolerance;
      if Mode() == BorderRotation {
        dtheta := dtheta / 12.0;
        tolerance := tolerance / 12.0;
      }
      var flag := if dtheta / 2.0 - tolerance < alpha && alpha < dtheta / 2.0 + tolerance then RotationInvalid else RotationOk;
      var _ := status.SetRotationStatus(leaf, flag);
    }

    /** rotate_leaf. */
    method RotateLeaf(leaf: Leaf, angle: real) returns (ok: bool)
      requires Valid() && leaf.IsSection()
      modifies status
      ensures ok && Valid() && State() == SideSpec.RotateLeaf(old(State()), leaf, angle)
    {
      var _ := status.UpdateShiftForLeaf(leaf, angle);
      UpdateRotationStatus(leaf);
      ok := true;
    }

    /** rotate_border: the leaf argument is not used. */
    method RotateBorder(leaf: Leaf, alpha: real) returns (ok: bool)
      requires Valid()
      modifies status
      ensures ok && Valid() && State() == SideSpec.RotateBorder(old(State()), alpha)
    {
      var _ := status.UpdateShiftForLeaf(North, alpha);
      var _ := status.UpdateShiftForLeaf(East, alpha);
      var _ := status.UpdateShiftForLeaf(West, alpha);
      UpdateRotationStatus(North);
      UpdateRotationStatus(East);
      UpdateRotationStatus(West);
      ok := true;
    }

    /** start_spinning_leaf. */
    method StartSpinningLeaf(leaf: Leaf) returns (ok: bool)
      requires Valid() && leaf.IsSection()
      modifies status
      ensures Valid() && (ok, State()) == SideSpec.StartSpinningLeaf(old(State()), leaf)
    {
      if !IsRotationPossible(leaf) {
        return false;
      }
      status.SetTrefoilStatus(LeafSpinning);
      ok := true;
    }

    /** end_spinning_leaf. */
    method EndSpinningLeaf() returns (ok: bool)
      requires Valid()
      modifies status
      ensures Valid() && (ok, State()) == SideSpec.EndSpinningLeaf(old(State()))
    {
      if Mode() != LeafSpinning {
        return false;
      }
      status.SetTrefoilStatus(status.history[Previous.Code()]);
      ok := true;
    }
  
    /**
     * reset_marbles_for_border_rotation: the three leaves are moved, marble by
     * marble from each leaf's first marble, into a scratch buffer of default
     * marbles, which then takes the place of the side's buffer.
     */
    method ResetForBorder()
      requires Valid() && Mode() != LeafSpinning
      modifies marbles, status
      ensures Valid() && State() == SideSpec.ResetForBorder(old(State()))
    {
      var n, e, w := Begin(State(), North), Begin(State(), East), Begin(State(), West);
      var tmp := MoveLeavesOut(marbles, n, e, w);
      SwapArrays(tmp, marbles);
      var _ := status.SetShiftForLeaf(North, 0.0);
      var _ := status.SetShiftForLeaf(East, 0.0);
      var _ := status.SetShiftForLeaf(West, 0.0);
    }

    /**
     * reset_marbles_from_border_rotation: the ring is moved, marble by marble
     * from its first marble, into a scratch buffer that then takes the place
     * of the side's buffer.
     */
    method ResetFromBorder()
      requires Valid() && Mode() != LeafSpinning
      modifies marbles, status
      ensures Valid() && State() == SideSpec.ResetFromBorder(old(State()))
    {
      var ring := Begin(State(), Trefoil);
      var tmp := MoveRingOut(marbles, ring);
      SwapArrays(tmp, marbles);
      var _ := status.SetShiftForLeaf(North, 0.0);
      var _ := status.SetShiftForLeaf(East, 0.0);
      var _ := status.SetShiftForLeaf(West, 0.0);
    }

    /**
     * reorder_marbles_after_border_reset.  The source's final branch,
     * assert(false), is excluded by the precondition.
     */
    method Reorder()
      requires Valid() && Mode() != LeafSpinning && NearBorderAngle(DiskAngle(State()))
      modifies marbles, status
      ensures Valid() && State() == SideSpec.Reorder(old(State()))
    {
      ReorderExchange();
      var alpha := AngleForOrigin(State(), North);
      var _ := status.SetShiftForLeaf(North, alpha);
      var _ := status.SetShiftForLeaf(East, alpha);
      var _ := status.SetShiftForLeaf(West, alpha);
      UpdateRotationStatus(North);
      UpdateRotationStatus(East);
      UpdateRotationStatus(West);
    }

    /** The swaps of reorder_marbles_after_border_reset, and the disk's further turn away from 60 degrees. */
    method ReorderExchange()
      requires Valid() && Mode() != LeafSpinning && NearBorderAngle(DiskAngle(State()))
      modifies marbles, status
      ensures Valid() && State() == SideSpec.ReorderExchange(old(State()))
    {
      var shift := FMod(status.disk + 360.0, 360.0);
      var n, e, w := Begin(State(), North), Begin(State(), East), Begin(State(), West);
      var at60 := 60.0 - Tolerance <= shift && shift <= 60.0 + Tolerance;
      BorderSwaps(marbles, n, e, w, at60);
      if !at60 {
        var d := status.disk;
        status.SetCentralDiskShift(FMod(d + 120.0, 360.0));
      }
    }

    /** prepare_for_border_rotation. */
    method PrepareForBorder()
      requires Valid() && Mode() != LeafSpinning && NearBorderAngle(DiskAngle(State()))
      modifies marbles, status
      ensures Valid() && State() == SideSpec.PrepareForBorder(old(State()))
    {
      ResetForBorder();
      Reorder();
    }

    /** prepare_from_border_rotation. */
    method PrepareFromBorder()
      requires Valid() && Mode() != LeafSpinning && NearBorderAngle(DiskAngle(State()))
      modifies marbles, status
      ensures Valid() && State() == SideSpec.PrepareFromBorder(old(State()))
    {
      ResetFromBorder();
      Reorder();
    }

    /** The first step of rotate_marbles on a side waiting at 60 or 300 degrees. */
    method EnterBorder()
      requires Valid() && BorderRotationPossible(State())
      modifies marbles, status
      ensures Valid() && State() == SideSpec.EnterBorder(old(State()))
    {
      PrepareForBorder();
      ghost var p := State();
      status.SetTrefoilStatus(BorderRotation);
      assert marbles[..] == p.marbles && status.State() == PushMode(p.status, BorderRotation);
    }

    /**
     * rotate_marbles: a side waiting at 60 or 300 degrees enters border
     * rotation, then the rotation the side's mode allows is made.
     */
    method RotateMarbles(leaf: Leaf, angle: real) returns (ok: bool)
      requires Valid() && leaf.IsSection()
      modifies marbles, status
      ensures Valid() && (ok, State()) == SideSpec.RotateMarbles(old(State()), leaf, angle)
    {
      if BorderRotationPossible(State()) {
        EnterBorder();
      }
      ok := RotateByMode(leaf, angle);
    }

    /** The dispatch of rotate_marbles on the side's mode. */
    method RotateByMode(leaf: Leaf, angle: real) returns (ok: bool)
      requires Valid() && leaf.IsSection()
      modifies status
      ensures Valid() && (ok, State()) == SideSpec.RotateByMode(old(State()), leaf, angle)
    {
      var mode := Mode();
      if mode == TrefoilInvalid || mode == LeafSpinning {
        ok := false;
      } else if mode == LeafRotation {
        ok := RotateLeaf(leaf, angle);
      } else {
        ok := RotateBorder(leaf, angle / 12.0);
      }
    }

    /** The loop of rotate_internal_disk, from the begin cursors stepped back once. */
    method CycleCouplingMarbles(forward: bool)
      requires Valid()
      modifies marbles
      ensures Valid() && State() == TurnDisk(old(State()), forward)
    {
      var n, e, w := Begin(State(), North).Plus(-1), Begin(State(), East).Plus(-1), Begin(State(), West).Plus(-1);
      CycleMarbles(marbles, n, e, w, forward);
    }

    /** The border check of rotate_internal_disk, given the disk's phase alpha. */
    method LeaveBorder(alpha: real)
      requires Valid() && alpha == DiskAngle(State())
      modifies marbles, status
      ensures Valid() && State() == SideSpec.LeaveBorder(old(State()))
    {
      if Mode() == BorderRotation {
        if (300.0 - Tolerance <= alpha && alpha <= 300.0 + Tolerance) || (60.0 - Tolerance <= alpha && alpha <= 60.0 + Tolerance) {
          PrepareFromBorder();
        }
      }
    }

    /** The disk turn of rotate_internal_disk towards the phase newShift. */
    method TurnInternalDisk(newShift: real)
      requires Valid()
      modifies marbles, status
      ensures Valid() && State() == SideSpec.TurnInternalDisk(old(State()), newShift)
    {
      status.SetTrefoilStatus(TrefoilInvalid);
      ShiftDiskTo(newShift);
      if (0.0 <= newShift && newShift <= Tolerance) || (360.0 - Tolerance <= newShift && newShift <= 360.0) ||
         (120.0 - Tolerance <= newShift && newShift <= 120.0 + Tolerance) ||
         (240.0 - Tolerance <= newShift && newShift <= 240.0 + Tolerance) {
        status.SetTrefoilStatus(LeafRotation);
      }
    }

    /** The middle of rotate_internal_disk: the coupling marbles and the disk's phase. */
    method ShiftDiskTo(newShift: real)
      requires Valid()
      modifies marbles, status
      ensures Valid() && State() == ShiftDisk(old(State()), newShift)
    {
      ghost var s0 := State();
      if 120.0 - Tolerance <= newShift && newShift < 240.0 - Tolerance {
        CycleCouplingMarbles(true);
        ghost var t := TurnDisk(s0, true);
        status.SetCentralDiskShift(newShift - 120.0);
        assert marbles[..] == t.marbles && status.State() == t.status.(disk := newShift - 120.0);
      } else if 240.0 - Tolerance <= newShift && newShift <= 240.0 + Tolerance {
        CycleCouplingMarbles(false);
        ghost var t := TurnDisk(s0, false);
        status.SetCentralDiskShift(newShift - 240.0);
        assert marbles[..] == t.marbles && status.State() == t.status.(disk := newShift - 240.0);
      } else {
        status.SetCentralDiskShift(newShift);
      }
    }

    /**
     * rotate_internal_disk: refused unless every leaf is free; leaving border
     * rotation rebuilds the leaves; a turn into [115, 235) or [235, 245]
     * moves the coupling marbles and re-centres the disk's phase.
     */
    method RotateInternalDisk(angle: real) returns (ok: bool)
      requires Valid()
      modifies marbles, status
      ensures Valid() && (ok, State()) == SideSpec.RotateInternalDisk(old(State()), angle)
    {
      ok := status.rotation[North.Code()] == RotationOk && status.rotation[East.Code()] == RotationOk &&
            status.rotation[West.Code()] == RotationOk;
      assert ok == InternalDiskRotationPossible(status.State());
      if ok {
        TurnDiskBy(angle);
      }
    }

    /** rotate_internal_disk once every leaf is known to be free. */
    method TurnDiskBy(angle: real)
      requires Valid()
      modifies marbles, status
      ensures Valid()
      ensures State() == SideSpec.TurnInternalDisk(SideSpec.LeaveBorder(old(State())), FMod(DiskAngle(old(State())) + angle + 360.0, 360.0))
    {
      var alpha := FMod(status.disk + 360.0, 360.0);
      var newShift := FMod(alpha + angle + 360.0, 360.0);
      LeaveBorder(alpha);
      TurnInternalDisk(newShift);
    }

    /**
     * current_time_step(start_index, out): the side's colours written to out
     * from start_index, in border mode around the ring, otherwise leaf by leaf.
     */
    method CurrentTimeStep(start: nat, out: array<Color>)
      requires Valid() && start + |SideCells(State())| <= out.Length
      modifies out
      ensures out[..] == Overlay(old(out[..]), start, SideCells(State()))
    {
      ghost var s0, o := State(), out[..];
      if Mode() == BorderRotation {
        WriteRing(marbles, Begin(State(), Trefoil), out, start);
      } else {
        var n, e, w := Begin(State(), North), Begin(State(), East), Begin(State(), West);
        ghost var pn, pe, pw := Painted(Walk(s0.marbles, n, n.len)), Painted(Walk(s0.marbles, e, e.len)), Painted(Walk(s0.marbles, w, w.len));
        assert SideCells(s0) == pn + Gap + pe + Gap + pw;
        var _ := WriteColors(marbles, n, N, out, start);
        var _ := WriteColors(marbles, e, N, out, start + N + 3);
        OverlayGapped(o, start, pn, pe);
        var _ := WriteColors(marbles, w, N, out, start + 2 * N + 6);
        OverlayGapped(o, start, pn + Gap + pe, pw);
      }
      assert State() == s0;
    }
  }
}
