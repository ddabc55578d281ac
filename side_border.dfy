/**
 * Entering and leaving border rotation (src/puzzle/spin_puzzle_side.h,
 * reset_marbles_*, reorder_marbles_after_border_reset, rotate_marbles and
 * rotate_internal_disk) on a side whose phases are all zero: the ring is read
 * without moving a marble, and at 60 degrees the re-indexing exchanges each
 * leaf's 7th and 9th marbles, so leaving the ring where it was entered gives
 * back the side it started from.
 */
module SideBorder {
  import opened Definitions
  import opened Angles
  import opened Marbles
  import opened SideIterator
  import opened SideStatus
  import opened SideSpec

  /** Every leaf at phase zero and free, the ring's flag untouched: the phases of a new side. */
  predicate Aligned(s: SideState) {
    s.Valid() && s.status.shifts == [0.0, 0.0, 0.0] && InternalDiskRotationPossible(s.status)
  }

  /** With every phase zero, begin() designates the first marble of its range at local angle zero. */
  lemma BeginAtZero(s: SideState, leaf: Leaf)
    requires Aligned(s) && (leaf.IsSection() || leaf == Trefoil)
    ensures Begin(s, leaf).cur == 0 && Begin(s, leaf).angle == 0.0
  {
    FModOnce(378.0, 360.0);
    FModOnce(361.5, 360.0);
    assert BeginPos(0.0, 36.0) == 0 && BeginPos(0.0, 3.0) == 0;
  }

  /** With every phase zero, both re-indexings leave the side as it is. */
  lemma ResetAtZero(s: SideState)
    requires Aligned(s) && s.Mode() != LeafSpinning
    ensures ResetForBorder(s) == s && ResetFromBorder(s) == s
  {
    assert SetAllShifts(s.status, 0.0) == s.status;
    LeavesAtZero(s);
    RingAtZero(s);
  }

  /** With every phase zero, the three leaves read back the marbles in storage order. */
  lemma LeavesAtZero(s: SideState)
    requires Aligned(s) && s.Mode() != LeafSpinning
    ensures ResetForBorder(s).marbles == s.marbles
  {
    var m := s.marbles;
    var n, e, w := Begin(s, North), Begin(s, East), Begin(s, West);
    BeginAtZero(s, North);
    BeginAtZero(s, East);
    BeginAtZero(s, West);
    WalkFromStart(m, n);
    WalkFromStart(m, e);
    WalkFromStart(m, w);
    assert n.lo == 0 && e.lo == 10 && w.lo == 20 && n.len == 10 && e.len == 10 && w.len == 10;
    assert Walk(m, n, n.len) + Walk(m, e, e.len) + Walk(m, w, w.len) == m[0..10] + m[10..20] + m[20..30];
    assert m[0..10] + m[10..20] + m[20..30] == m;
  }

  /** With every phase zero, the ring reads back the marbles in storage order. */
  lemma RingAtZero(s: SideState)
    requires Aligned(s) && s.Mode() != LeafSpinning
    ensures ResetFromBorder(s).marbles == s.marbles
  {
    BeginAtZero(s, Trefoil);
    WalkFromStart(s.marbles, Begin(s, Trefoil));
    assert s.marbles[0..30] == s.marbles;
  }

  /** The exchanges of reorder_marbles_after_border_reset at 60 degrees with every leaf read from its origin. */
  function Swap60(m: seq<Marble>): (r: seq<Marble>)
    requires |m| == NMarbles
    ensures |r| == NMarbles
  {
    Swap(Swap(Swap(m, 7, 9), 17, 19), 27, 29)
  }

  /** The exchanges at 60 degrees undo themselves. */
  lemma Swap60Twice(m: seq<Marble>)
    requires |m| == NMarbles
    ensures Swap60(Swap60(m)) == m
  {
  }

  /** A leaf at phase zero is free in every mode. */
  lemma ZeroPhaseFree(mode: TrefoilStatus)
    ensures RotationFlag(0.0, mode) == RotationOk
  {
    FModOnce(360.0, 360.0);
  }

  /** Recomputing the three flags of an aligned side changes nothing. */
  lemma FlagsAtZero(s: SideState)
    requires Aligned(s)
    ensures UpdateRotationStatus(UpdateRotationStatus(UpdateRotationStatus(s, North), East), West) == s
  {
    ZeroPhaseFree(s.Mode());
    var s1 := UpdateRotationStatus(s, North);
    assert s1 == s;
    var s2 := UpdateRotationStatus(s1, East);
    assert s2 == s;
  }

  /** Counted back from the end of a leaf read from its origin, the k-th marble is slot lo + 10 - k. */
  lemma FromEndAtOrigin(it: Iterator, k: nat)
    requires it.Valid() && it.cur == 0 && it.len == 10 && it.mode != LeafSpinning && 1 <= k <= 10
    ensures FromEnd(it, k) == it.lo + 10 - k
  {
    var a := it.Plus(N);
    assert a.cur == 0;
    assert a.Plus(-(k as int)).cur == 10 - k;
  }

  /** Three leaf iterators on the first marble of their leaves. */
  predicate AtOrigins(n: Iterator, e: Iterator, w: Iterator) {
    n.Valid() && e.Valid() && w.Valid() && n.cur == 0 && e.cur == 0 && w.cur == 0 &&
    n.lo == 0 && e.lo == N && w.lo == 2 * N && n.len == N && e.len == N && w.len == N &&
    n.mode != LeafSpinning && e.mode != LeafSpinning && w.mode != LeafSpinning
  }

  /** At 60 degrees, the exchanges from the leaves' origins are those of Swap60. */
  lemma ExchangeAtOrigins(m: seq<Marble>, n: Iterator, e: Iterator, w: Iterator)
    requires |m| == NMarbles && AtOrigins(n, e, w)
    ensures BorderExchange(m, n, e, w, true) == Swap60(m)
  {
    FromEndAtOrigin(n, 3);
    FromEndAtOrigin(n, 1);
    FromEndAtOrigin(e, 3);
    FromEndAtOrigin(e, 1);
    FromEndAtOrigin(w, 3);
    FromEndAtOrigin(w, 1);
  }

  /** An aligned side's begin iterators are on the leaves' origins. */
  lemma BeginsAtOrigins(s: SideState)
    requires Aligned(s) && s.Mode() != LeafSpinning
    ensures AtOrigins(Begin(s, North), Begin(s, East), Begin(s, West))
  {
    BeginAtZero(s, North);
    BeginAtZero(s, East);
    BeginAtZero(s, West);
  }

  /** At 60 degrees with every phase zero, the re-indexing only exchanges each leaf's 7th and 9th marbles. */
  lemma ReorderAt60(s: SideState)
    requires Aligned(s) && s.Mode() != LeafSpinning && s.status.disk == 60.0
    ensures NearBorderAngle(DiskAngle(s))
    ensures Reorder(s) == s.(marbles := Swap60(s.marbles))
  {
    ExchangeAt60(s);
    var s1 := s.(marbles := Swap60(s.marbles));
    OriginAtZero(s1);
  }

  /** At 60 degrees with every phase zero, the exchanges are those of Swap60 and the disk stays. */
  lemma ExchangeAt60(s: SideState)
    requires Aligned(s) && s.Mode() != LeafSpinning && s.status.disk == 60.0
    ensures NearBorderAngle(DiskAngle(s))
    ensures ReorderExchange(s) == s.(marbles := Swap60(s.marbles))
  {
    FModOnce(420.0, 360.0);
    assert DiskAngle(s) == 60.0;
    BeginsAtOrigins(s);
    ExchangeAtOrigins(s.marbles, Begin(s, North), Begin(s, East), Begin(s, West));
  }

  /** On an aligned side, aligning the phases on the north leaf's origin and recomputing the flags changes nothing. */
  lemma OriginAtZero(s: SideState)
    requires Aligned(s) && s.Mode() != LeafSpinning
    ensures AngleForOrigin(s, North) == 0.0
    ensures var s2 := s.(status := SetAllShifts(s.status, AngleForOrigin(s, North)));
      UpdateRotationStatus(UpdateRotationStatus(UpdateRotationStatus(s2, North), East), West) == s
  {
    FModOnce(378.0, 360.0);
    assert BeginPos(0.0, 36.0) == 0;
    assert SetAllShifts(s.status, 0.0) == s.status;
    FlagsAtZero(s);
  }

  /** A turn of the disk by 60 degrees from a new side's state moves no marble and leaves the leaves unaligned. */
  lemma DiskTo60(s: SideState)
    requires s.Valid() && s.status == InitialStatus()
    ensures RotateInternalDisk(s, 60.0) == (true, s.(status := s.status.(disk := 60.0, history := [LeafRotation, TrefoilInvalid])))
  {
    assert InternalDiskRotationPossible(s.status) by {
      assert North.IsSection() && East.IsSection() && West.IsSection();
    }
    StartAngles(s);
    TurnTo60(s);
    assert RotateInternalDisk(s, 60.0) == (true, TurnInternalDisk(LeaveBorder(s), FMod(DiskAngle(s) + 60.0 + 360.0, 360.0)));
  }

  /** The phases met on the first disk turn of 60 degrees. */
  lemma StartAngles(s: SideState)
    requires s.Valid() && s.status == InitialStatus()
    ensures DiskAngle(s) == 0.0 && LeaveBorder(s) == s
    ensures FMod(DiskAngle(s) + 60.0 + 360.0, 360.0) == 60.0
  {
    FModOnce(360.0, 360.0);
    FModOnce(420.0, 360.0);
  }

  /** Landing on 60 degrees moves no marble and leaves the leaves unaligned. */
  lemma TurnTo60(s: SideState)
    requires s.Valid() && s.status == InitialStatus()
    ensures TurnInternalDisk(s, 60.0) == s.(status := s.status.(disk := 60.0, history := [LeafRotation, TrefoilInvalid]))
  {
  }

  /** An aligned side waiting at 60 degrees enters border rotation by the exchanges of Swap60. */
  lemma EnterAt60(s: SideState)
    requires Aligned(s) && s.Mode() == TrefoilInvalid && s.status.disk == 60.0
    ensures BorderRotationPossible(s)
    ensures EnterBorder(s) == SideState(Swap60(s.marbles), PushMode(s.status, BorderRotation))
  {
    ReorderAt60(s);
    ResetAtZero(s);
  }

  /** In border rotation, an aligned ring turned by a twelfth of 10 degrees and back is where it was. */
  lemma BorderTurnAndBack(s: SideState)
    requires Aligned(s) && s.Mode() == BorderRotation
    ensures var c := 10.0 / 12.0;
      var t := s.(status := s.status.(shifts := [c, c, c]));
      RotateBorder(s, c) == t && RotateBorder(t, -c) == s
  {
    var c := 10.0 / 12.0;
    FModOnce(360.0 + c, 360.0);
    FModOnce(360.0, 360.0);
    FModOnce(360.0 + c, 360.0);
    assert RotationFlag(c, BorderRotation) == RotationOk by {
      FModOnce(c + 360.0, 360.0);
    }
    ZeroPhaseFree(BorderRotation);
  }

  /** Leaving the ring at 60 degrees by a disk turn of -60 rebuilds the leaves and aligns them at 0. */
  lemma LeaveAt60(s: SideState)
    requires Aligned(s) && s.Mode() == BorderRotation && s.status.disk == 60.0
    ensures RotateInternalDisk(s, -60.0) ==
      (true, SideState(Swap60(s.marbles), s.status.(disk := 0.0, history := [TrefoilInvalid, LeafRotation])))
  {
    FModOnce(420.0, 360.0);
    FModOnce(360.0, 360.0);
    assert DiskAngle(s) == 60.0;
    ResetAtZero(s);
    ReorderAt60(s);
    assert LeaveBorder(s) == s.(marbles := Swap60(s.marbles));
  }

  /**
   * From a new side's state: turn the disk by 60, turn the ring by NORTH 10
   * (which enters border rotation), turn it back by EAST -10 and turn the
   * disk by -60.  The marbles are read in border order with each leaf's 7th
   * and 9th marble exchanged, and in the end the side is exactly as it started.
   */
  lemma BorderRoundTripEast(s: SideState)
    requires s.Valid() && s.status == InitialStatus()
    ensures var (ok1, s1) := RotateInternalDisk(s, 60.0);
            var (ok2, s2) := RotateMarbles(s1, North, 10.0);
            var (ok3, s3) := RotateMarbles(s2, East, -10.0);
            var (ok4, s4) := RotateInternalDisk(s3, -60.0);
            ok1 && ok2 && ok3 && ok4 && s2.marbles == Swap60(s.marbles) && s2.Mode() == BorderRotation && s4 == s
  {
    DiskTo60(s);
    var s1 := s.(status := s.status.(disk := 60.0, history := [LeafRotation, TrefoilInvalid]));
    EnterAt60(s1);
    var e1 := SideState(Swap60(s.marbles), PushMode(s1.status, BorderRotation));
    RotateMarblesEntersBorder(s1, North, 10.0);
    BorderTurnAndBack(e1);
    var c := 10.0 / 12.0;
    var s2 := e1.(status := e1.status.(shifts := [c, c, c]));
    RotateMarblesInBorderMode(s2, East, -10.0);
    assert -10.0 / 12.0 == -c;
    assert RotateMarbles(s2, East, -10.0) == (true, e1);
    LeaveAt60(e1);
    Swap60Twice(s.marbles);
  }
}
