/**
 * Whole turns of the internal disk on one side (rotate_internal_disk in
 * src/puzzle/spin_puzzle_side.h): from rest, a turn by 120 degrees moves the
 * coupling marbles one leaf on and leaves the side at rest again, a turn back
 * restores the marbles, and three turns bring them home.
 */
module SideScenarios {
  import opened Definitions
  import opened Angles
  import opened Marbles
  import opened SideIterator
  import opened SideStatus
  import opened SideSpec
  import opened SideDisk

  /** A side in leaf rotation with the disk at its origin, every leaf free, as a new side is. */
  predicate AtRest(s: SideState) {
    s.Valid() && InternalDiskRotationPossible(s.status) && s.status.disk == 0.0 &&
    s.status.history == [TrefoilInvalid, LeafRotation]
  }

  /** The side as rotate_internal_disk sees it once the mode is INVALID. */
  function Turning(s: SideState): (t: SideState)
    requires s.Valid()
    ensures t.Valid() && t.marbles == s.marbles && t.Mode() == TrefoilInvalid
  {
    s.(status := PushMode(s.status, TrefoilInvalid))
  }

  /** The marbles after one disk turn from s, in the given direction. */
  function Coupled(s: SideState, forward: bool): (m: seq<Marble>)
    requires s.Valid()
    ensures |m| == NMarbles && multiset(m) == multiset(s.marbles)
  {
    TurnDisk(Turning(s), forward).marbles
  }

  /** A new side is at rest. */
  lemma NewSideAtRest(ms: seq<Marble>)
    requires |ms| == NMarbles
    ensures AtRest(NewSide(ms))
  {
  }

  /** The cursors rotate_internal_disk takes are one before each leaf's first marble. */
  lemma TurnCursors(s: SideState)
    requires s.Valid()
    ensures var t := Turning(s);
      LeafCursors(Begin(t, North).Plus(-1), Begin(t, East).Plus(-1), Begin(t, West).Plus(-1))
  {
  }

  /** At rest the disk's phase is 0: a turn by 120 lands on 120, a turn by -120 on 240, and no ring is rebuilt. */
  lemma RestAngles(s: SideState)
    requires AtRest(s)
    ensures DiskAngle(s) == 0.0 && LeaveBorder(s) == s
    ensures FMod(DiskAngle(s) + 120.0 + 360.0, 360.0) == 120.0
    ensures FMod(DiskAngle(s) + -120.0 + 360.0, 360.0) == 240.0
  {
    FModOnce(360.0, 360.0);
    FModOnce(480.0, 360.0);
  }

  /** rotate_internal_disk on a side where a disk turn is possible. */
  lemma RotateUnfolds(s: SideState, angle: real)
    requires s.Valid() && InternalDiskRotationPossible(s.status)
    ensures RotateInternalDisk(s, angle).1 == TurnInternalDisk(LeaveBorder(s), FMod(DiskAngle(s) + angle + 360.0, 360.0))
  {
    assert !(!InternalDiskRotationPossible(s.status));
  }

  /** From rest, a turn by 120 degrees moves the coupling marbles forward and leaves the side at rest. */
  lemma TurnForwardFromRest(s: SideState)
    requires AtRest(s)
    ensures RotateInternalDisk(s, 120.0) == (true, s.(marbles := Coupled(s, true)))
  {
    RestAngles(s);
    TurnFromRest(s, 120.0, true);
    RotateUnfolds(s, 120.0);
  }

  /** From rest, a turn by -120 degrees moves the coupling marbles backward and leaves the side at rest. */
  lemma TurnBackwardFromRest(s: SideState)
    requires AtRest(s)
    ensures RotateInternalDisk(s, -120.0) == (true, s.(marbles := Coupled(s, false)))
  {
    RestAngles(s);
    TurnFromRest(s, 240.0, false);
    RotateUnfolds(s, -120.0);
  }

  /** The disk turn of rotate_internal_disk landing on 120 or 240 degrees from rest. */
  lemma TurnFromRest(s: SideState, newShift: real, forward: bool)
    requires AtRest(s) && newShift == (if forward then 120.0 else 240.0)
    ensures TurnInternalDisk(s, newShift) == s.(marbles := Coupled(s, forward))
  {
    var t := TurnDisk(Turning(s), forward);
    assert TurnInternalDisk(s, newShift) == t.(status := PushMode(t.status.(disk := 0.0), LeafRotation));
    assert PushMode(t.status.(disk := 0.0), LeafRotation) == s.status;
  }

  /** A turn by -120 degrees undoes a turn by 120 degrees. */
  lemma TurnRoundTrip(s: SideState)
    requires AtRest(s)
    ensures var (ok1, s1) := RotateInternalDisk(s, 120.0);
            var (ok2, s2) := RotateInternalDisk(s1, -120.0);
            ok1 && ok2 && s2 == s
  {
    TurnForwardFromRest(s);
    var s1 := s.(marbles := Coupled(s, true));
    TurnBackwardFromRest(s1);
    var t, t1 := Turning(s), Turning(s1);
    assert Begin(t1, North) == Begin(t, North) && Begin(t1, East) == Begin(t, East) && Begin(t1, West) == Begin(t, West);
    TurnCursors(s);
    DiskCycleInverse(s.marbles, Begin(t, North).Plus(-1), Begin(t, East).Plus(-1), Begin(t, West).Plus(-1), true, M);
  }

  /** Three turns by 120 degrees bring every marble back. */
  lemma TurnThrice(s: SideState)
    requires AtRest(s)
    ensures var (ok1, s1) := RotateInternalDisk(s, 120.0);
            var (ok2, s2) := RotateInternalDisk(s1, 120.0);
            var (ok3, s3) := RotateInternalDisk(s2, 120.0);
            ok1 && ok2 && ok3 && s3 == s
  {
    TurnForwardFromRest(s);
    var s1 := s.(marbles := Coupled(s, true));
    TurnForwardFromRest(s1);
    var s2 := s1.(marbles := Coupled(s1, true));
    TurnForwardFromRest(s2);
    var t, t1, t2 := Turning(s), Turning(s1), Turning(s2);
    assert Begin(t1, North) == Begin(t, North) && Begin(t1, East) == Begin(t, East) && Begin(t1, West) == Begin(t, West);
    assert Begin(t2, North) == Begin(t, North) && Begin(t2, East) == Begin(t, East) && Begin(t2, West) == Begin(t, West);
    TurnCursors(s);
    DiskCycleThrice(s.marbles, Begin(t, North).Plus(-1), Begin(t, East).Plus(-1), Begin(t, West).Plus(-1), M);
  }

  /** The start offsets begin() computes for the phases 9, 27 and 36 with a step of 36 degrees. */
  lemma BeginPositions()
    ensures BeginPos(9.0, 36.0) == 0 && BeginPos(27.0, 36.0) == -1 && BeginPos(36.0, 36.0) == -1
  {
    FModOnce(387.0, 360.0);
    FModOnce(405.0, 360.0);
    FModOnce(414.0, 360.0);
    assert FloorSteps(27.0, 36.0) == 0;
    assert FloorSteps(45.0, 36.0) == 1;
    assert FloorSteps(54.0, 36.0) == 1;
  }

  /** The marble begin(NORTH) designates and its local angle, for the phases 9, 27 and 36 in leaf rotation. */
  lemma BeginTable(s: SideState)
    requires s.Valid() && s.Mode() == LeafRotation
    ensures var it := Begin(s, North);
      (s.status.Shift(North) == 9.0 ==> it.Slot() == 0 && it.angle == 9.0) &&
      (s.status.Shift(North) == 27.0 ==> it.Slot() == 9 && it.angle == -9.0) &&
      (s.status.Shift(North) == 36.0 ==> it.Slot() == 9 && it.angle == 0.0)
  {
    BeginPositions();
    var theta := s.status.Shift(North);
    var it := Begin(s, North);
    assert it.cur == Wrap(BeginPos(theta, 36.0), 10) && it.angle == BeginAngle(theta, 36.0);
  }

  /** The middle of the k-th border between two marbles of a leaf. */
  function SectorBorder(k: int): real {
    36.0 * k as real + 18.0
  }

  /**
   * Outside border rotation, a leaf whose phase is in [0, 360) is blocked
   * exactly when the phase lies within 5 degrees of one of the ten borders
   * 18, 54, ..., 342 between two marbles.
   */
  lemma {:induction false} LeafBlockedNearBorder(phase: real, mode: TrefoilStatus)
    requires 0.0 <= phase < 360.0 && mode != BorderRotation
    ensures RotationFlag(phase, mode) == RotationInvalid <==>
            exists k :: 0 <= k < N && SectorBorder(k) - Tolerance < phase < SectorBorder(k) + Tolerance
  {
    FModOnce(phase + 360.0, 360.0);
    var q := (phase / 36.0).Floor;
    assert q as real <= phase / 36.0 < q as real + 1.0;
    assert 0 <= q < 10 && q as real * 36.0 <= phase < (q as real + 1.0) * 36.0 by {
      ScaleLe(q as real, phase / 36.0, 36.0);
      ScaleLt(phase / 36.0, q as real + 1.0, 36.0);
    }
    FModSteps(phase, 36.0, q);
    var alpha := phase - q as real * 36.0;
    assert RotationFlag(phase, mode) == RotationInvalid <==> 13.0 < alpha < 23.0;
    if 13.0 < alpha < 23.0 {
      assert SectorBorder(q) - Tolerance < phase < SectorBorder(q) + Tolerance;
    }
    if k :| 0 <= k < N && SectorBorder(k) - Tolerance < phase < SectorBorder(k) + Tolerance {
      assert k == q;
    }
  }

  /**
   * From rest, turns of the disk by 60 and then 179 degrees land on 239: the
   * coupling marbles move one leaf back and the disk's phase is -1.
   */
  lemma NegativeDiskPhase(s: SideState)
    requires AtRest(s)
    ensures var (ok1, s1) := RotateInternalDisk(s, 60.0);
            var (ok2, s2) := RotateInternalDisk(s1, 179.0);
            ok1 && ok2 && s2.marbles == Coupled(s1, false) && s2.status.disk == -1.0 && s2.Mode() == LeafRotation
  {
    RestAngles(s);
    var s1 := RotateInternalDisk(s, 60.0).1;
    assert FMod(0.0 + 60.0 + 360.0, 360.0) == 60.0 by {
      FModOnce(420.0, 360.0);
    }
    assert s1.marbles == s.marbles && s1.status.disk == 60.0 && s1.Mode() == TrefoilInvalid;
    assert FMod(60.0 + 360.0, 360.0) == 60.0 && FMod(60.0 + 179.0 + 360.0, 360.0) == 239.0 by {
      FModOnce(420.0, 360.0);
      FModOnce(599.0, 360.0);
    }
    assert DiskAngle(s1) == 60.0;
    assert LeaveBorder(s1) == s1;
  }
}
