/**
 * SpinPuzzleSide::Status (src/puzzle/spin_puzzle_side.h): the phase of each
 * leaf, the phase of the internal disk, the last two mechanical states of the
 * side and the ROTATION flag of each section.  This module holds the value
 * form of that state and the effect of each of its setters.
 */
module SideStatus {
  import opened Definitions
  import opened Angles

  datatype StatusState = StatusState(
    shifts: seq<real>,              // m_shifts_leaves, indexed by LEAF
    disk: real,                     // m_shift_cdisk
    history: seq<TrefoilStatus>,    // m_trefoil_status, indexed by TIME
    rotation: seq<Rotation>)        // m_rotation_status, indexed by LEAF (TREFOIL included)
  {
    predicate Valid() {
      |shifts| == NLeaves && |history| == 2 && |rotation| == NLeaves + 1
    }

    /** get_trefoil_status(TIME::CURRENT). */
    function Mode(): TrefoilStatus
      requires Valid()
    {
      history[Current.Code()]
    }

    /** get_trefoil_status(TIME::PREVIOUS). */
    function PreviousMode(): TrefoilStatus
      requires Valid()
    {
      history[Previous.Code()]
    }

    /** get_shift_of_leaf. */
    function Shift(leaf: Leaf): real
      requires Valid() && leaf.IsSection()
    {
      shifts[leaf.Code()]
    }

    /** get_rotation_status. */
    function Flag(leaf: Leaf): Rotation
      requires Valid() && (leaf.IsSection() || leaf == Trefoil)
    {
      rotation[leaf.Code()]
    }
  }

  /** The default member initialisers of Status. */
  function InitialStatus(): (st: StatusState)
    ensures st.Valid()
    ensures st.Mode() == LeafRotation && st.PreviousMode() == TrefoilInvalid
    ensures forall l: Leaf :: l.IsSection() ==> st.Shift(l) == 0.0 && st.Flag(l) == RotationOk
    ensures st.Flag(Trefoil) == RotationInvalid && st.disk == 0.0
  {
    StatusState([0.0, 0.0, 0.0], 0.0, [TrefoilInvalid, LeafRotation],
                [RotationOk, RotationOk, RotationOk, RotationInvalid])
  }

  /** update_shift_for_leaf: the leaf's phase advances by angle, reduced by fmod(.., 360). */
  function UpdateShift(st: StatusState, leaf: Leaf, angle: real): (r: StatusState)
    requires st.Valid() && leaf.IsSection()
    ensures r.Valid()
    ensures r == st.(shifts := st.shifts[leaf.Code() := r.Shift(leaf)])
    ensures st.Shift(leaf) + angle + 360.0 >= 0.0 ==> 0.0 <= r.Shift(leaf) < 360.0
  {
    st.(shifts := st.shifts[leaf.Code() := FMod(st.Shift(leaf) + angle + 360.0, 360.0)])
  }

  /** set_shift_for_leaf: the leaf's phase becomes angle, reduced by fmod(.., 360). */
  function SetShift(st: StatusState, leaf: Leaf, angle: real): (r: StatusState)
    requires st.Valid() && leaf.IsSection()
    ensures r.Valid()
    ensures r == st.(shifts := st.shifts[leaf.Code() := r.Shift(leaf)])
    ensures angle + 360.0 >= 0.0 ==> 0.0 <= r.Shift(leaf) < 360.0
    ensures angle == 0.0 ==> r.Shift(leaf) == 0.0
  {
    var v := angle + 360.0;
    if v == 360.0 then FModTurns(v, 1); st.(shifts := st.shifts[leaf.Code() := FMod(v, 360.0)])
    else st.(shifts := st.shifts[leaf.Code() := FMod(v, 360.0)])
  }

  /** set_rotation_status. */
  function SetFlag(st: StatusState, leaf: Leaf, flag: Rotation): (r: StatusState)
    requires st.Valid() && (leaf.IsSection() || leaf == Trefoil)
    ensures r.Valid() && r.Flag(leaf) == flag
    ensures r == st.(rotation := r.rotation)
    ensures forall l: Leaf :: (l.IsSection() || l == Trefoil) && l != leaf ==> r.Flag(l) == st.Flag(l)
  {
    st.(rotation := st.rotation[leaf.Code() := flag])
  }

  /**
   * set_trefoil_status: the current state becomes the previous one and the
   * given state becomes current; nothing else changes.
   */
  function PushMode(st: StatusState, mode: TrefoilStatus): (r: StatusState)
    requires st.Valid()
    ensures r.Valid() && r.Mode() == mode && r.PreviousMode() == st.Mode()
    ensures r.shifts == st.shifts && r.disk == st.disk && r.rotation == st.rotation
  {
    st.(history := [st.Mode(), mode])
  }

  /** is_internal_disk_rotation_possible: no leaf has a marble across a border. */
  predicate InternalDiskRotationPossible(st: StatusState)
    requires st.Valid()
  {
    st.Flag(North) == RotationOk && st.Flag(East) == RotationOk && st.Flag(West) == RotationOk
  }

  /** Two consecutive phase updates of a leaf compose when the sum stays within one turn. */
  lemma {:induction false} UpdateShiftCompose(st: StatusState, leaf: Leaf, a: real, b: real)
    requires st.Valid() && leaf.IsSection()
    requires 0.0 <= st.Shift(leaf) && 0.0 <= st.Shift(leaf) + a < 360.0 && 0.0 <= st.Shift(leaf) + a + b < 360.0
    ensures UpdateShift(UpdateShift(st, leaf, a), leaf, b) == UpdateShift(st, leaf, a + b)
  {
    var p := st.Shift(leaf);
    FModTurns(p + a + 360.0, 1);
    FModTurns(p + a + b + 360.0, 1);
    var s1 := UpdateShift(st, leaf, a);
    assert s1.Shift(leaf) == p + a;
  }
}
