/**
 * The enumerations shared by the whole engine (src/puzzle/spin_puzzle_definitions.h)
 * and the integer-backed QColor stand-in used when Qt is absent.
 */
module Definitions {
  import opened Wrappers

  /** Number of leaves in one side of a trefoil. */
  const NLeaves: nat := 3

  /** LEAF: a section of a trefoil side. */
  datatype Leaf = North | East | West | Trefoil | Center | InvalidLeaf {
    /** The enum's underlying code; the three leaves are exactly the codes below TREFOIL. */
    function Code(): (c: nat)
      ensures c <= 5
      ensures IsSection() <==> c < NLeaves
      ensures this == Trefoil <==> c == NLeaves
    {
      match this
      case North => 0
      case East => 1
      case West => 2
      case Trefoil => 3
      case Center => 4
      case InvalidLeaf => 5
    }

    /** One of the three real leaves (NORTH, EAST, WEST). */
    predicate IsSection() {
      this == North || this == East || this == West
    }
  }

  /** The LEAF value with a given code, if any (what a cast from an integer yields). */
  function LeafFromCode(c: int): (r: Option<Leaf>)
    ensures r.Some? <==> 0 <= c <= 5
    ensures r.Some? ==> r.value.Code() == c
    ensures forall l: Leaf :: l.Code() == c ==> r == Some(l)
  {
    if c == 0 then Some(North)
    else if c == 1 then Some(East)
    else if c == 2 then Some(West)
    else if c == 3 then Some(Trefoil)
    else if c == 4 then Some(Center)
    else if c == 5 then Some(InvalidLeaf)
    else None
  }

  /** ROTATION: whether a leaf's marbles may move (OK) or straddle a border (INVALID). */
  datatype Rotation = RotationOk | RotationInvalid {
    function Code(): (c: nat)
      ensures c <= 1
      ensures c == 0 <==> this == RotationOk
    {
      if this == RotationOk then 0 else 1
    }
  }

  /** TREFOIL: the mechanical state of one side. */
  datatype TrefoilStatus = TrefoilInvalid | LeafRotation | LeafSpinning | BorderRotation {
    function Code(): (c: nat)
      ensures c <= 3
    {
      match this
      case TrefoilInvalid => 0
      case LeafRotation => 1
      case LeafSpinning => 2
      case BorderRotation => 3
    }
  }

  function TrefoilFromCode(c: int): (r: Option<TrefoilStatus>)
    ensures r.Some? <==> 0 <= c <= 3
    ensures r.Some? ==> r.value.Code() == c
    ensures forall t: TrefoilStatus :: t.Code() == c ==> r == Some(t)
  {
    if c == 0 then Some(TrefoilInvalid)
    else if c == 1 then Some(LeafRotation)
    else if c == 2 then Some(LeafSpinning)
    else if c == 3 then Some(BorderRotation)
    else None
  }

  /** TIME: the two indices of a side's mode history. */
  datatype Time = Previous | Current {
    function Code(): (c: nat)
      ensures c <= 1
      ensures c == 1 <==> this == Current
    {
      match this
      case Previous => 0
      case Current => 1
    }
  }

  /** SIDE: the two faces of the trefoil. */
  datatype SideId = Front | Back {
    function Code(): (c: nat)
      ensures c <= 1
      ensures c == 0 <==> this == Front
    {
      if this == Front then 0 else 1
    }

    /** The other face. */
    function Other(): (r: SideId)
      ensures r != this
    {
      if this == Front then Back else Front
    }
  }

  /** The QColor stand-in: an integer wrapper whose equality is integer equality. */
  datatype Color = Color(c: int)

  /** QColor() holds 0; it is the marbles' INVALID_COLOR. */
  const InvalidColor: Color := Color(0)

  // Colour constants, with Qt's global colour codes (black is 2, red 7, green 8).
  const Black: Color := Color(2)
  const Red: Color := Color(7)
  const Green: Color := Color(8)
  const Blue: Color := Color(9)
  const Cyan: Color := Color(10)
  const Magenta: Color := Color(11)
  const Yellow: Color := Color(12)
}
