/**
 * The behaviour of one side of the puzzle (src/puzzle/spin_puzzle_side.h) as
 * functions of its state: thirty marbles, ten per leaf, and the Status.  The
 * class in module PuzzleSide performs each operation in place and is proved to
 * reach the state these functions describe.
 */
module SideSpec {
  import opened Wrappers
  import opened Definitions
  import opened Angles
  import opened Marbles
  import opened SideIterator
  import opened SideStatus
  import opened Cells

  datatype SideState = SideState(marbles: seq<Marble>, status: StatusState) {
    predicate Valid() {
      |marbles| == NMarbles && status.Valid()
    }

    /** get_trifoild_status. */
    function Mode(): TrefoilStatus
      requires Valid()
    {
      status.Mode()
    }
  }

  /** The side built from thirty marbles, given in leaf order from the origin. */
  function NewSide(marbles: seq<Marble>): (s: SideState)
    requires |marbles| == NMarbles
    ensures s.Valid() && s.marbles == marbles && s.status == InitialStatus()
  {
    SideState(marbles, InitialStatus())
  }

  /**
   * begin(leaf) and begin() (leaf TREFOIL, which follows the NORTH phase): the
   * iterator on the first marble after the section's common part, with the
   * marble's local angle.
   */
  function Begin(s: SideState, leaf: Leaf): (it: Iterator)
    requires s.Valid() && (leaf.IsSection() || leaf == Trefoil)
    ensures it.Valid() && it.leaf == leaf && it.mode == s.Mode()
    ensures it.lo == RangeStart(leaf) && it.len == RangeLength(leaf)
  {
    var theta := s.status.Shift(if leaf == Trefoil then North else leaf);
    var step := StepFor(s.Mode());
    MakeIterator(leaf, s.Mode(), BeginPos(theta, step), BeginAngle(theta, step))
  }

  /** The half-sector band around a border, inside which a marble straddles two sections. */
  predicate AcrossBorder(alpha: real, dtheta: real, tolerance: real) {
    dtheta / 2.0 - tolerance < alpha < dtheta / 2.0 + tolerance
  }

  /**
   * The flag update_rotation_status computes for a phase.  The phase is reduced
   * modulo DTHETA in every mode, while the band is DTHETA/12 wide in border mode.
   */
  function RotationFlag(phase: real, mode: TrefoilStatus): (f: Rotation)
  {
    var alpha := FMod(FMod(phase + 360.0, 360.0), DTheta);
    var dtheta := if mode == BorderRotation then DTheta / 12.0 else DTheta;
    var tolerance := if mode == BorderRotation then Tolerance / 12.0 else Tolerance;
    if AcrossBorder(alpha, dtheta, tolerance) then RotationInvalid else RotationOk
  }

  /** update_rotation_status(leaf). */
  function UpdateRotationStatus(s: SideState, leaf: Leaf): (r: SideState)
    requires s.Valid() && leaf.IsSection()
    ensures r.Valid() && r.marbles == s.marbles
    ensures r.status == SetFlag(s.status, leaf, RotationFlag(s.status.Shift(leaf), s.Mode()))
  {
    s.(status := SetFlag(s.status, leaf, RotationFlag(s.status.Shift(leaf), s.Mode())))
  }

  /** rotate_leaf: the leaf's phase moves by angle and its flag is recomputed. */
  function RotateLeaf(s: SideState, leaf: Leaf, angle: real): (r: SideState)
    requires s.Valid() && leaf.IsSection()
    ensures r.Valid() && r.marbles == s.marbles && r.Mode() == s.Mode()
  {
    UpdateRotationStatus(s.(status := UpdateShift(s.status, leaf, angle)), leaf)
  }

  /** rotate_border: every leaf's phase moves by alpha and all three flags are recomputed. */
  function RotateBorder(s: SideState, alpha: real): (r: SideState)
    requires s.Valid()
    ensures r.Valid() && r.marbles == s.marbles && r.Mode() == s.Mode()
  {
    var st := UpdateShift(UpdateShift(UpdateShift(s.status, North, alpha), East, alpha), West, alpha);
    var s1 := s.(status := st);
    UpdateRotationStatus(UpdateRotationStatus(UpdateRotationStatus(s1, North), East), West)
  }

  /** The two internal-disk positions, 60 and 300 degrees within tolerance, that join the ring. */
  predicate NearBorderAngle(d: real) {
    (300.0 - Tolerance <= d <= 300.0 + Tolerance) || (60.0 - Tolerance <= d <= 60.0 + Tolerance)
  }

  /** The internal disk's phase reduced to one turn. */
  function DiskAngle(s: SideState): real
    requires s.Valid()
  {
    FMod(s.status.disk + 360.0, 360.0)
  }

  /** is_border_rotation_possible. */
  predicate BorderRotationPossible(s: SideState)
    requires s.Valid()
  {
    s.Mode() == TrefoilInvalid && NearBorderAngle(DiskAngle(s))
  }

  /** get_angle_for_origin: the local angle of the leaf's first marble on a DTHETA grid. */
  function AngleForOrigin(s: SideState, leaf: Leaf): real
    requires s.Valid() && leaf.IsSection()
  {
    BeginAngle(s.status.Shift(leaf), DTheta)
  }

  /** Every leaf's phase set to the same value (set_shift_for_leaf on the three leaves). */
  function SetAllShifts(st: StatusState, angle: real): (r: StatusState)
    requires st.Valid()
    ensures r.Valid() && r == st.(shifts := r.shifts)
    ensures forall l: Leaf :: l.IsSection() ==> r.Shift(l) == SetShift(st, l, angle).Shift(l)
  {
    SetShift(SetShift(SetShift(st, North, angle), East, angle), West, angle)
  }

  /**
   * reset_marbles_for_border_rotation: each leaf is read from its first marble
   * and stored from its origin, so that the ring can be read in order; the
   * phases become zero.
   */
  function ResetForBorder(s: SideState): (r: SideState)
    requires s.Valid() && s.Mode() != LeafSpinning
    ensures r.Valid() && r.status == SetAllShifts(s.status, 0.0)
    ensures multiset(r.marbles) == multiset(s.marbles)
  {
    var m := s.marbles;
    var n := Begin(s, North);
    var e := Begin(s, East);
    var w := Begin(s, West);
    var r := SideState(Walk(m, n, n.len) + Walk(m, e, e.len) + Walk(m, w, w.len), SetAllShifts(s.status, 0.0));
    LeavesPermute(m, n, e, w);
    r
  }

  /** Reading the three leaves once each rearranges the side's marbles. */
  lemma {:induction false} LeavesPermute(m: seq<Marble>, n: Iterator, e: Iterator, w: Iterator)
    requires |m| == NMarbles
    requires n.Valid() && e.Valid() && w.Valid()
    requires n.mode != LeafSpinning && e.mode != LeafSpinning && w.mode != LeafSpinning
    requires n.lo == 0 && e.lo == 10 && w.lo == 20 && n.len == 10 && e.len == 10 && w.len == 10
    ensures multiset(Walk(m, n, n.len) + Walk(m, e, e.len) + Walk(m, w, w.len)) == multiset(m)
  {
    var a, b, c := Walk(m, n, n.len), Walk(m, e, e.len), Walk(m, w, w.len);
    WalkPermutes(m, n);
    WalkPermutes(m, e);
    WalkPermutes(m, w);
    assert m[n.lo .. n.lo + n.len] == m[0..10] && m[e.lo .. e.lo + e.len] == m[10..20] && m[w.lo .. w.lo + w.len] == m[20..30];
    ThreeLeaves(m);
    assert multiset(a + b + c) == multiset(a) + multiset(b) + multiset(c);
  }

  /** The side's marbles are the three leaves' marbles. */
  lemma ThreeLeaves<T>(m: seq<T>)
    requires |m| == NMarbles
    ensures multiset(m) == multiset(m[0..10]) + multiset(m[10..20]) + multiset(m[20..30])
  {
    assert m == m[0..10] + m[10..20] + m[20..30];
  }

  /**
   * reset_marbles_from_border_rotation: the ring is read from its first marble
   * and stored from the origin; the phases become zero.
   */
  function ResetFromBorder(s: SideState): (r: SideState)
    requires s.Valid() && s.Mode() != LeafSpinning
    ensures r.Valid() && r.status == SetAllShifts(s.status, 0.0)
    ensures multiset(r.marbles) == multiset(s.marbles)
  {
    var it := Begin(s, Trefoil);
    WalkPermutes(s.marbles, it);
    assert s.marbles[0..30] == s.marbles;
    SideState(Walk(s.marbles, it, it.len), SetAllShifts(s.status, 0.0))
  }

  /** it + N - k: the k-th marble counted back from the end of the leaf. */
  function FromEnd(it: Iterator, k: nat): (j: nat)
    requires it.Valid()
    ensures it.lo <= j < it.lo + it.len
  {
    it.Plus(N).Plus(-(k as int)).Slot()
  }

  /**
   * The exchanges reorder_marbles_after_border_reset makes: at 60 degrees each
   * leaf's 7th and 9th marbles trade places; at 300 degrees the last three
   * marbles of the three leaves are exchanged by seven swaps.
   */
  function BorderExchange(m: seq<Marble>, n: Iterator, e: Iterator, w: Iterator, at60: bool): (r: seq<Marble>)
    requires |m| == NMarbles && n.Valid() && e.Valid() && w.Valid()
    ensures |r| == NMarbles
  {
    if at60 then
      Swap(Swap(Swap(m, FromEnd(n, 3), FromEnd(n, 1)), FromEnd(e, 3), FromEnd(e, 1)), FromEnd(w, 3), FromEnd(w, 1))
    else
      var m1 := Swap(m, FromEnd(n, 3), FromEnd(e, 1));
      var m2 := Swap(m1, FromEnd(n, 2), FromEnd(e, 2));
      var m3 := Swap(m2, FromEnd(n, 1), FromEnd(e, 3));
      var m4 := Swap(m3, FromEnd(w, 3), FromEnd(e, 1));
      var m5 := Swap(m4, FromEnd(w, 2), FromEnd(e, 2));
      var m6 := Swap(m5, FromEnd(w, 1), FromEnd(e, 3));
      Swap(m6, FromEnd(w, 1), FromEnd(w, 3))
  }

  /** The exchanges only trade places. */
  lemma BorderExchangePermutes(m: seq<Marble>, n: Iterator, e: Iterator, w: Iterator, at60: bool)
    requires |m| == NMarbles && n.Valid() && e.Valid() && w.Valid()
    ensures multiset(BorderExchange(m, n, e, w, at60)) == multiset(m)
  {
    if at60 {
      var m1 := Swap(m, FromEnd(n, 3), FromEnd(n, 1));
      var m2 := Swap(m1, FromEnd(e, 3), FromEnd(e, 1));
      SwapPermutes(m, FromEnd(n, 3), FromEnd(n, 1));
      SwapPermutes(m1, FromEnd(e, 3), FromEnd(e, 1));
      SwapPermutes(m2, FromEnd(w, 3), FromEnd(w, 1));
    } else {
      var m1 := Swap(m, FromEnd(n, 3), FromEnd(e, 1));
      var m2 := Swap(m1, FromEnd(n, 2), FromEnd(e, 2));
      var m3 := Swap(m2, FromEnd(n, 1), FromEnd(e, 3));
      var m4 := Swap(m3, FromEnd(w, 3), FromEnd(e, 1));
      var m5 := Swap(m4, FromEnd(w, 2), FromEnd(e, 2));
      var m6 := Swap(m5, FromEnd(w, 1), FromEnd(e, 3));
      SwapPermutes(m, FromEnd(n, 3), FromEnd(e, 1));
      SwapPermutes(m1, FromEnd(n, 2), FromEnd(e, 2));
      SwapPermutes(m2, FromEnd(n, 1), FromEnd(e, 3));
      SwapPermutes(m3, FromEnd(w, 3), FromEnd(e, 1));
      SwapPermutes(m4, FromEnd(w, 2), FromEnd(e, 2));
      SwapPermutes(m5, FromEnd(w, 1), FromEnd(e, 3));
      SwapPermutes(m6, FromEnd(w, 1), FromEnd(w, 3));
    }
  }

  /**
   * reorder_marbles_after_border_reset: the coupling marbles are exchanged
   * according to the disk's position (300 degrees also moves the disk by 120),
   * then the three phases are aligned on the north leaf's origin angle and the
   * flags recomputed.  The source asserts that the disk is at one of the two
   * positions.
   */
  function Reorder(s: SideState): (r: SideState)
    requires s.Valid() && s.Mode() != LeafSpinning && NearBorderAngle(DiskAngle(s))
    ensures r.Valid() && r.status.history == s.status.history
    ensures multiset(r.marbles) == multiset(s.marbles)
  {
    var s1 := ReorderExchange(s);
    var alpha := AngleForOrigin(s1, North);
    var s2 := s1.(status := SetAllShifts(s1.status, alpha));
    UpdateRotationStatus(UpdateRotationStatus(UpdateRotationStatus(s2, North), East), West)
  }

  /**
   * The exchanges of reorder_marbles_after_border_reset: at 60 degrees each
   * leaf swaps two of its marbles; at 300 the three leaves exchange their
   * last three marbles and the disk turns a further 120 degrees.
   */
  function ReorderExchange(s: SideState): (r: SideState)
    requires s.Valid() && s.Mode() != LeafSpinning && NearBorderAngle(DiskAngle(s))
    ensures r.Valid() && r.status.history == s.status.history
    ensures multiset(r.marbles) == multiset(s.marbles)
  {
    var shift := DiskAngle(s);
    var at60 := 60.0 - Tolerance <= shift <= 60.0 + Tolerance;
    var m := BorderExchange(s.marbles, Begin(s, North), Begin(s, East), Begin(s, West), at60);
    BorderExchangePermutes(s.marbles, Begin(s, North), Begin(s, East), Begin(s, West), at60);
    var disk := if at60 then s.status.disk else FMod(s.status.disk + 120.0, 360.0);
    SideState(m, s.status.(disk := disk))
  }

  /** prepare_for_border_rotation. */
  function PrepareForBorder(s: SideState): (r: SideState)
    requires s.Valid() && s.Mode() != LeafSpinning && NearBorderAngle(DiskAngle(s))
    ensures r.Valid() && r.Mode() == s.Mode()
    ensures multiset(r.marbles) == multiset(s.marbles)
  {
    Reorder(ResetForBorder(s))
  }

  /** prepare_from_border_rotation. */
  function PrepareFromBorder(s: SideState): (r: SideState)
    requires s.Valid() && s.Mode() != LeafSpinning && NearBorderAngle(DiskAngle(s))
    ensures r.Valid() && r.Mode() == s.Mode()
    ensures multiset(r.marbles) == multiset(s.marbles)
  {
    Reorder(ResetFromBorder(s))
  }

  /**
   * rotate_marbles(leaf, angle): a side waiting at 60 or 300 degrees first
   * enters border rotation; then a leaf rotation turns the leaf, a border
   * rotation turns the ring by angle/12, and any other state refuses.
   * Marbles only move between sections on entering border rotation.
   */
  function RotateMarbles(s: SideState, leaf: Leaf, angle: real): (r: (bool, SideState))
    requires s.Valid() && leaf.IsSection()
    ensures r.1.Valid()
    ensures multiset(r.1.marbles) == multiset(s.marbles)
    ensures !r.0 <==> !BorderRotationPossible(s) && (s.Mode() == TrefoilInvalid || s.Mode() == LeafSpinning)
    ensures !r.0 ==> r.1 == s
    ensures r.1.Mode() == (if BorderRotationPossible(s) then BorderRotation else s.Mode())
  {
    RotateByMode(if BorderRotationPossible(s) then EnterBorder(s) else s, leaf, angle)
  }

  /**
   * The second step of rotate_marbles: a leaf rotation turns the leaf, a
   * border rotation turns the ring by angle/12, and any other state refuses.
   */
  function RotateByMode(s: SideState, leaf: Leaf, angle: real): (r: (bool, SideState))
    requires s.Valid() && leaf.IsSection()
    ensures r.1.Valid() && r.1.marbles == s.marbles && r.1.Mode() == s.Mode()
    ensures r.0 <==> s.Mode() == LeafRotation || s.Mode() == BorderRotation
    ensures !r.0 ==> r.1 == s
  {
    var mode := s.Mode();
    if mode == TrefoilInvalid || mode == LeafSpinning then (false, s)
    else if mode == LeafRotation then (true, RotateLeaf(s, leaf, angle))
    else (true, RotateBorder(s, angle / 12.0))
  }

  /** The transition rotate_marbles makes into border rotation. */
  function EnterBorder(s: SideState): (r: SideState)
    requires s.Valid() && BorderRotationPossible(s)
    ensures r.Valid() && r.Mode() == BorderRotation && r.status.PreviousMode() == TrefoilInvalid
    ensures multiset(r.marbles) == multiset(s.marbles)
  {
    var p := PrepareForBorder(s);
    p.(status := PushMode(p.status, BorderRotation))
  }

  /** In leaf rotation, rotate_marbles turns only the given leaf's phase and moves no marble. */
  lemma RotateMarblesInLeafMode(s: SideState, leaf: Leaf, angle: real)
    requires s.Valid() && leaf.IsSection() && s.Mode() == LeafRotation
    ensures var r := RotateMarbles(s, leaf, angle);
      r.0 && r.1.marbles == s.marbles && r.1.Mode() == LeafRotation &&
      r.1.status.shifts == s.status.shifts[leaf.Code() := FMod(s.status.Shift(leaf) + angle + 360.0, 360.0)] &&
      r.1.status.disk == s.status.disk
  {
  }

  /** In border rotation, rotate_marbles turns all three phases by a twelfth of the angle. */
  lemma RotateMarblesInBorderMode(s: SideState, leaf: Leaf, angle: real)
    requires s.Valid() && leaf.IsSection() && s.Mode() == BorderRotation
    ensures var r := RotateMarbles(s, leaf, angle);
      r.0 && r.1.marbles == s.marbles && r.1.Mode() == BorderRotation && r.1.status.disk == s.status.disk &&
      forall l: Leaf :: l.IsSection() ==> r.1.status.Shift(l) == FMod(s.status.Shift(l) + angle / 12.0 + 360.0, 360.0)
  {
  }

  /** A side waiting at 60 or 300 degrees enters border rotation and turns the ring. */
  lemma RotateMarblesEntersBorder(s: SideState, leaf: Leaf, angle: real)
    requires s.Valid() && leaf.IsSection() && BorderRotationPossible(s)
    ensures var r := RotateMarbles(s, leaf, angle);
      r.0 && r.1 == RotateBorder(EnterBorder(s), angle / 12.0) && r.1.Mode() == BorderRotation
  {
    var s1 := EnterBorder(s);
    assert RotateMarbles(s, leaf, angle) == RotateByMode(s1, leaf, angle);
    assert s1.Mode() == BorderRotation;
    assert RotateByMode(s1, leaf, angle) == (true, RotateBorder(s1, angle / 12.0));
  }

  /**
   * The swaps of the loop in rotate_internal_disk after k iterations: the
   * cursors start one before each leaf's first marble and step backwards; a
   * forward turn moves NORTH to EAST, EAST to WEST and WEST to NORTH, a
   * backward turn the other way round.
   */
  function DiskCycle(m: seq<Marble>, n: Iterator, e: Iterator, w: Iterator, forward: bool, k: nat): (r: seq<Marble>)
    requires |m| == NMarbles && n.Valid() && e.Valid() && w.Valid()
    ensures |r| == NMarbles
    decreases k
  {
    if k == 0 then m
    else DiskCycle(CycleSwaps(m, n, e, w, forward), n.Plus(-1), e.Plus(-1), w.Plus(-1), forward, k - 1)
  }

  /**
   * The two iter_swap calls of one iteration: forward exchanges NORTH with
   * WEST and then EAST with WEST; backward NORTH with EAST and then EAST with WEST.
   */
  function CycleSwaps(m: seq<Marble>, n: Iterator, e: Iterator, w: Iterator, forward: bool): (p: seq<Marble>)
    requires |m| == NMarbles && n.Valid() && e.Valid() && w.Valid()
    ensures |p| == NMarbles
  {
    var a, b, c := n.Slot(), e.Slot(), w.Slot();
    if forward then Swap(Swap(m, a, c), b, c) else Swap(Swap(m, a, b), b, c)
  }

  lemma CycleSwapsPermutes(m: seq<Marble>, n: Iterator, e: Iterator, w: Iterator, forward: bool)
    requires |m| == NMarbles && n.Valid() && e.Valid() && w.Valid()
    ensures multiset(CycleSwaps(m, n, e, w, forward)) == multiset(m)
  {
    var a, b, c := n.Slot(), e.Slot(), w.Slot();
    if forward {
      SwapPermutes(m, a, c);
      SwapPermutes(Swap(m, a, c), b, c);
    } else {
      SwapPermutes(m, a, b);
      SwapPermutes(Swap(m, a, b), b, c);
    }
  }

  /** The swaps of one disk turn, from the begin cursors of the side in its current state. */
  function TurnDisk(s: SideState, forward: bool): (r: SideState)
    requires s.Valid()
    ensures r.Valid() && r.status == s.status
    ensures multiset(r.marbles) == multiset(s.marbles)
  {
    var n := Begin(s, North).Plus(-1);
    var e := Begin(s, East).Plus(-1);
    var w := Begin(s, West).Plus(-1);
    DiskCyclePermutes(s.marbles, n, e, w, forward, M);
    s.(marbles := DiskCycle(s.marbles, n, e, w, forward, M))
  }

  /** The turn only exchanges marbles. */
  lemma {:induction false} DiskCyclePermutes(m: seq<Marble>, n: Iterator, e: Iterator, w: Iterator, forward: bool, k: nat)
    requires |m| == NMarbles && n.Valid() && e.Valid() && w.Valid()
    ensures multiset(DiskCycle(m, n, e, w, forward, k)) == multiset(m)
    decreases k
  {
    if k > 0 {
      var j: nat := k - 1;
      var p := CycleSwaps(m, n, e, w, forward);
      var n1, e1, w1 := n.Plus(-1), e.Plus(-1), w.Plus(-1);
      assert DiskCycle(m, n, e, w, forward, k) == DiskCycle(p, n1, e1, w1, forward, j);
      DiskCyclePermutes(p, n1, e1, w1, forward, j);
      CycleSwapsPermutes(m, n, e, w, forward);
    }
  }

  /** The disk positions at which the leaves line up again: 0, 120, 240 and 360 within tolerance. */
  predicate LeavesAligned(d: real) {
    (0.0 <= d <= Tolerance) || (360.0 - Tolerance <= d <= 360.0) ||
    (120.0 - Tolerance <= d <= 120.0 + Tolerance) || (240.0 - Tolerance <= d <= 240.0 + Tolerance)
  }

  /**
   * rotate_internal_disk(angle): refused unless no leaf has a marble across a
   * border.  Leaving border rotation at 60 or 300 degrees rebuilds the leaves;
   * crossing into [115, 235) moves the coupling marbles one leaf forward and
   * takes 120 off the phase, landing in [235, 245] moves them one leaf back and
   * takes 240 off; the side returns to leaf rotation when the leaves line up.
   */
  function RotateInternalDisk(s: SideState, angle: real): (r: (bool, SideState))
    requires s.Valid()
    ensures r.1.Valid()
    ensures multiset(r.1.marbles) == multiset(s.marbles)
    ensures r.0 <==> InternalDiskRotationPossible(s.status)
    ensures !r.0 ==> r.1 == s
    ensures r.0 ==> r.1.Mode() == (if LeavesAligned(FMod(DiskAngle(s) + angle + 360.0, 360.0)) then LeafRotation else TrefoilInvalid)
  {
    if !InternalDiskRotationPossible(s.status) then (false, s)
    else (true, TurnInternalDisk(LeaveBorder(s), FMod(DiskAngle(s) + angle + 360.0, 360.0)))
  }

  /** The first step of rotate_internal_disk: a ring at 60 or 300 degrees is rebuilt into leaves. */
  function LeaveBorder(s: SideState): (r: SideState)
    requires s.Valid()
    ensures r.Valid() && r.Mode() == s.Mode()
    ensures multiset(r.marbles) == multiset(s.marbles)
  {
    if s.Mode() == BorderRotation && NearBorderAngle(DiskAngle(s)) then PrepareFromBorder(s) else s
  }

  /**
   * The rest of rotate_internal_disk, once the disk's new phase newShift is
   * known: the coupling marbles move one leaf forward in [115, 235) and one
   * leaf back in [235, 245], the phase is re-centred, and the side is in
   * leaf rotation exactly when the leaves line up.
   */
  function TurnInternalDisk(s: SideState, newShift: real): (r: SideState)
    requires s.Valid()
    ensures r.Valid() && r.status.PreviousMode() == (if LeavesAligned(newShift) then TrefoilInvalid else s.Mode())
    ensures multiset(r.marbles) == multiset(s.marbles)
    ensures r.Mode() == (if LeavesAligned(newShift) then LeafRotation else TrefoilInvalid)
  {
    var s3 := ShiftDisk(s.(status := PushMode(s.status, TrefoilInvalid)), newShift);
    if LeavesAligned(newShift) then s3.(status := PushMode(s3.status, LeafRotation)) else s3
  }

  /**
   * The middle of rotate_internal_disk: a new phase in [115, 235) moves the
   * coupling marbles forward and takes 120 off, one in [235, 245] moves them
   * backward and takes 240 off, any other phase is kept as it is.
   */
  function ShiftDisk(s: SideState, newShift: real): (r: SideState)
    requires s.Valid()
    ensures r.Valid() && r.status == s.status.(disk := r.status.disk)
    ensures multiset(r.marbles) == multiset(s.marbles)
  {
    if 120.0 - Tolerance <= newShift < 240.0 - Tolerance then
      var t := TurnDisk(s, true);
      t.(status := t.status.(disk := newShift - 120.0))
    else if 240.0 - Tolerance <= newShift <= 240.0 + Tolerance then
      var t := TurnDisk(s, false);
      t.(status := t.status.(disk := newShift - 240.0))
    else s.(status := s.status.(disk := newShift))
  }

  /** is_leaf_spinning_possible and is_rotation_possible: the leaf has no marble across a border. */
  predicate LeafFree(s: SideState, leaf: Leaf)
    requires s.Valid() && leaf.IsSection()
  {
    s.status.Flag(leaf) == RotationOk
  }

  /** start_spinning_leaf: a free leaf puts the side into LEAF_SPINNING, remembering the state it leaves. */
  function StartSpinningLeaf(s: SideState, leaf: Leaf): (r: (bool, SideState))
    requires s.Valid() && leaf.IsSection()
    ensures r.1.Valid() && r.1.marbles == s.marbles
    ensures r.0 <==> LeafFree(s, leaf)
    ensures !r.0 ==> r.1 == s
    ensures r.0 ==> r.1.Mode() == LeafSpinning && r.1.status.PreviousMode() == s.Mode()
  {
    if !LeafFree(s, leaf) then (false, s)
    else (true, s.(status := PushMode(s.status, LeafSpinning)))
  }

  /** end_spinning_leaf: a spinning side returns to the state it had before spinning. */
  function EndSpinningLeaf(s: SideState): (r: (bool, SideState))
    requires s.Valid()
    ensures r.1.Valid() && r.1.marbles == s.marbles
    ensures r.0 <==> s.Mode() == LeafSpinning
    ensures !r.0 ==> r.1 == s
    ensures r.0 ==> r.1.Mode() == s.status.PreviousMode()
  {
    if s.Mode() != LeafSpinning then (false, s)
    else (true, s.(status := PushMode(s.status, s.status.PreviousMode())))
  }

  /**
   * Spinning a leaf and ending the spin gives back the side's state: the same
   * marbles, phases, disk and flags, and the mode it had before.
   */
  lemma {:induction false} SpinningRoundTrip(s: SideState, leaf: Leaf)
    requires s.Valid() && leaf.IsSection() && LeafFree(s, leaf)
    ensures var (ok1, s1) := StartSpinningLeaf(s, leaf);
            var (ok2, s2) := EndSpinningLeaf(s1);
            ok1 && ok2 && s2.marbles == s.marbles && s2.Mode() == s.Mode() &&
            s2.status == s.status.(history := [LeafSpinning, s.Mode()])
  {
    var (ok1, s1) := StartSpinningLeaf(s, leaf);
    assert s1.Mode() == LeafSpinning;
  }

  /**
   * current_time_step(start, out) of a side, as the run of cells from start:
   * Some(colour) where a colour is written, None where the cell is skipped.
   * In border mode the ring is read from its first marble, each leaf as seven
   * colours, a gap and three colours; otherwise each leaf is read from its
   * first marble, with a gap between leaves.
   */
  function SideCells(s: SideState): (cells: seq<Option<Color>>)
    requires s.Valid()
    ensures |cells| == if s.Mode() == BorderRotation then 39 else 36
  {
    var m := s.marbles;
    if s.Mode() == BorderRotation then
      var ring := Begin(s, Trefoil);
      RingCells(Walk(m, ring, ring.len), NLeaves)
    else
      var n, e, wst := Begin(s, North), Begin(s, East), Begin(s, West);
      Painted(Walk(m, n, n.len)) + Gap + Painted(Walk(m, e, e.len)) + Gap + Painted(Walk(m, wst, wst.len))
  }

  /**
   * The cells of the first k leaves of the ring read in order: each leaf's
   * first N - M marbles, a gap, then its M coupling marbles.
   */
  function RingCells(w: seq<Marble>, k: nat): (cells: seq<Option<Color>>)
    requires |w| == NMarbles && k <= NLeaves
    ensures |cells| == 13 * k
  {
    if k == 0 then []
    else
      var j: nat := k - 1;
      RingCells(w, j) + (Painted(w[N * j..N * j + (N - M)]) + Gap + Painted(w[N * j + (N - M)..N * k]))
  }
}
