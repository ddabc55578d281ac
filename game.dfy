/**
 * SpinPuzzleGame (src/puzzle/spin_puzzle_game.h, spin_puzzle_game.cpp): two
 * sides, the active one, the spin progress of each leaf and the keyboard's
 * selected section, changed in place.  Each method is proved to reach the
 * state the functions of module GameSpec give.
 */
module PuzzleGame {
  import opened Definitions
  import opened Angles
  import opened Marbles
  import opened SideIterator
  import opened SideStatus
  import opened SideSpec
  import opened Cells
  import opened PuzzleSide
  import opened GameExchange
  import opened GameSpec

  /**
   * The loop of spin_leaf: k times, iter_swap of the marbles under the two
   * iterators, then both iterators step forward.
   */
  method ExchangeMarbles(a: array<Marble>, b: array<Marble>, ia: Iterator, ib: Iterator, k: nat)
    requires a != b && a.Length == NMarbles && b.Length == NMarbles && ia.Valid() && ib.Valid()
    modifies a, b
    ensures (a[..], b[..]) == Exchange(old(a[..]), old(b[..]), ia, ib, k)
  {
    ghost var a0, b0 := a[..], b[..];
    var ca, cb := ia, ib;
    var n := 1;
    while n <= k
      invariant 1 <= n <= k + 1 && ca.Valid() && cb.Valid()
      invariant Exchange(a[..], b[..], ca, cb, k + 1 - n) == Exchange(a0, b0, ia, ib, k)
    {
      ghost var ab, bb := a[..], b[..];
      IterSwap(a, ca.Slot(), b, cb.Slot());
      assert a[..] == ab[ca.Slot() := bb[cb.Slot()]] && b[..] == bb[cb.Slot() := ab[ca.Slot()]];
      n, ca, cb := n + 1, ca.Plus(1), cb.Plus(1);
    }
  }

  /**
   * is_leaf_complete: the colour under begin(leaf) is compared with the next
   * nine marbles, stopping at the first that differs.
   */
  method IsLeafComplete(side: SpinPuzzleSide, leaf: Leaf) returns (b: bool)
    requires side.Valid() && leaf.IsSection()
    ensures b == LeafComplete(side.State(), leaf)
  {
    ghost var s := side.State();
    ghost var w := Walk(s.marbles, Begin(s, leaf), N);
    var start := Begin(side.State(), leaf);
    var it := start;
    var color := side.marbles[it.Slot()].color;
    WalkAt(s.marbles, start, N, 0);
    var countOk := 1;
    var n := 1;
    while n < N
      invariant 1 <= n <= N && it == Advance(start, n - 1) && countOk == n
      invariant forall j :: 0 <= j < n ==> w[j].color == color
    {
      it := it.Plus(1);
      WalkAt(s.marbles, start, N, n);
      if color == side.marbles[it.Slot()].color {
        countOk := countOk + 1;
      } else {
        return false;
      }
      n := n + 1;
    }
    return countOk == N;
  }

  /**
   * One pass of check_consistency_side's inner loop: thirty increments of
   * begin(), counting the marbles with a bad id and those carrying id.
   */
  method ScanForId(side: SpinPuzzleSide, id: int) returns (bad: nat, count: nat)
    requires side.Valid()
    ensures bad == 0 <==> forall j :: 0 <= j < NMarbles ==> !BadId(ConsistencyWalk(side.State())[j])
    ensures count == CountId(ConsistencyWalk(side.State()), id)
  {
    ghost var s := side.State();
    ghost var w := ConsistencyWalk(s);
    var start := Begin(side.State(), Trefoil);
    var it := start;
    bad, count := 0, 0;
    var n := 0;
    while n < NMarbles
      invariant 0 <= n <= NMarbles && it == Advance(start, n)
      invariant count == CountId(w[..n], id)
      invariant bad == 0 <==> forall j :: 0 <= j < n ==> !BadId(w[j])
    {
      var m := side.marbles[it.Slot()];
      WalkAt(s.marbles, start, NMarbles, n);
      assert m == w[n];
      if m.id == InvalidId || m.id < 0 || m.id > MaxId {
        bad := bad + 1;
      }
      if m.id == id {
        count := count + 1;
      }
      assert w[..n + 1][..n] == w[..n];
      n, it := n + 1, it.Plus(1);
    }
    assert w[..NMarbles] == w;
    assert ConsistencyWalk(side.State()) == w;
  }

  /**
   * check_consistency_side without its verbose output: for each candidate id
   * below 60, one pass over the side's marbles adds its bad ids to the errors,
   * and one more error when the candidate is met twice.
   */
  method CheckConsistencySide(side: SpinPuzzleSide) returns (ok: bool)
    requires side.Valid()
    ensures ok == ConsistentSide(side.State())
  {
    ghost var w := ConsistencyWalk(side.State());
    var errors := 0;
    var i := 0;
    while i < MaxId
      invariant 0 <= i <= MaxId && errors >= 0
      invariant errors == 0 <==>
        ((i == 0 || forall j :: 0 <= j < NMarbles ==> !BadId(w[j])) &&
         (forall id :: 0 <= id < i ==> CountId(w, id) <= 1))
    {
      var bad, count := ScanForId(side, i);
      errors := errors + bad;
      if count > 1 {
        errors := errors + 1;
      }
      i := i + 1;
    }
    ghost var noBad := forall j :: 0 <= j < NMarbles ==> !BadId(w[j]);
    ghost var once := forall id :: 0 <= id < MaxId ==> CountId(w, id) <= 1;
    assert ConsistentSide(side.State()) ==> noBad && once;
    assert noBad && once ==> ConsistentSide(side.State());
    if errors == 0 {
      forall id | 0 <= id < MaxId
        ensures CountId(w, id) <= 1
      {
        assert id < i;
      }
    }
    ok := errors == 0;
  }

  class SpinPuzzleGame {
    /** m_sides[FRONT] and m_sides[BACK]. */
    const front: SpinPuzzleSide
    const back: SpinPuzzleSide
    /** m_active_side. */
    var active: SideId
    /** m_spin_rotation. */
    const spin: array<real>
    /** keyboard.section. */
    var section: Leaf

    function State(): GameState
      reads this, front, front.marbles, front.status, back, back.marbles, back.status, spin
    {
      GameState(front.State(), back.State(), active, spin[..], section)
    }

    predicate Valid()
      reads this, front, front.marbles, front.status, back, back.marbles, back.status, spin
    {
      front.Valid() && back.Valid() && spin.Length == NLeaves &&
      front != back && front.marbles != back.marbles && front.status != back.status
    }

    /** The constructor from the two sides' marbles. */
    constructor(frontMarbles: seq<Marble>, backMarbles: seq<Marble>)
      requires |frontMarbles| == NMarbles && |backMarbles| == NMarbles
      ensures Valid() && State() == NewGame(frontMarbles, backMarbles)
    {
      front := new SpinPuzzleSide(frontMarbles);
      back := new SpinPuzzleSide(backMarbles);
      active := Front;
      spin := new real[NLeaves](_ => 0.0);
      section := InvalidLeaf;
      new;
      assert spin[..] == [0.0, 0.0, 0.0];
    }

    /** The default constructor: createFrontMarbles and createBackMarbles. */
    constructor Default()
      ensures Valid() && State() == DefaultGame()
    {
      front := new SpinPuzzleSide(FrontMarbles());
      back := new SpinPuzzleSide(BackMarbles());
      active := Front;
      spin := new real[NLeaves](_ => 0.0);
      section := InvalidLeaf;
      new;
      assert spin[..] == [0.0, 0.0, 0.0];
    }

    /** get_side. */
    function GetSide(id: SideId): (s: SpinPuzzleSide)
      ensures s == if id == Front then front else back
    {
      if id == Front then front else back
    }

    /** get_active_side. */
    function GetActiveSide(): (side: SideId)
      reads this
      ensures side == active
    {
      active
    }

    /** set_active_side: the side is assigned directly; the spin progress is not folded. */
    method SetActiveSide(side: SideId)
      requires Valid()
      modifies this
      ensures Valid() && State() == old(State()).(active := side)
    {
      active := side;
    }

    /** get_keybord_state. */
    function GetKeyboardState(): (l: Leaf)
      reads this
      ensures l == section
    {
      section
    }

    /** rotate_marbles: the active side's rotate_marbles. */
    method RotateMarbles(leaf: Leaf, angle: real) returns (ok: bool)
      requires Valid() && leaf.IsSection()
      modifies front.marbles, front.status, back.marbles, back.status
      ensures Valid() && (ok, State()) == GameSpec.RotateMarbles(old(State()), leaf, angle)
    {
      ok := GetSide(active).RotateMarbles(leaf, angle);
    }

    /** rotate_internal_disk: the active side's rotate_internal_disk. */
    method RotateInternalDisk(angle: real) returns (ok: bool)
      requires Valid()
      modifies front.marbles, front.status, back.marbles, back.status
      ensures Valid() && (ok, State()) == GameSpec.RotateInternalDisk(old(State()), angle)
    {
      ok := GetSide(active).RotateInternalDisk(angle);
    }

    /** update_spin_rotation_angle(leaf, angle): the leaf's progress becomes the fold of angle. */
    method UpdateSpinRotationAngle(leaf: Leaf, angle: real)
      requires Valid() && leaf.IsSection()
      modifies spin
      ensures Valid() && State() == old(State()).(spin := old(spin[..])[leaf.Code() := Fold(angle)])
    {
      var a := angle;
      if a > 90.0 {
        a := a - 180.0;
      } else {
        a := 180.0 + a;
      }
      spin[leaf.Code()] := a;
    }

    /** The exchange loop of spin_leaf between the active side's leaf and the opposite leaf of the other side. */
    method ExchangeWindows(leaf: Leaf)
      requires Valid() && leaf.IsSection()
      modifies front.marbles, back.marbles
      ensures Valid() && State() == SpinExchange(old(State()), leaf)
    {
      var oppositeLeaf := OppositeLeaf(leaf);
      if active == Front {
        ExchangeMarbles(front.marbles, back.marbles, SpinWindow(front.State(), leaf), SpinWindow(back.State(), oppositeLeaf), SpinCount);
      } else {
        ExchangeMarbles(back.marbles, front.marbles, SpinWindow(back.State(), leaf), SpinWindow(front.State(), oppositeLeaf), SpinCount);
      }
    }

    /** spin_leaf(leaf, angle). */
    method SpinLeaf(leaf: Leaf, angle: real) returns (ok: bool)
      requires Valid() && leaf.IsSection()
      modifies spin, front.marbles, back.marbles
      ensures Valid() && (ok, State()) == GameSpec.SpinLeaf(old(State()), leaf, angle)
    {
      ghost var g0 := State();
      if !GetSide(active).IsRotationPossible(leaf) {
        return false;
      }
      var a := FMod(angle, 360.0);
      var n := leaf.Code();
      var currentSpinAngle := spin[n];
      var updatedSpinAngle := currentSpinAngle + a;
      if -90.0 <= updatedSpinAngle && updatedSpinAngle < 90.0 {
        spin[n] := updatedSpinAngle;
        assert spin[..] == g0.spin[n := updatedSpinAngle];
        SpinShortCase(g0, leaf, angle, updatedSpinAngle);
        return false;
      }
      ExchangeWindows(leaf);
      ghost var g1 := SpinExchange(g0, leaf);
      UpdateSpinRotationAngle(leaf, updatedSpinAngle);
      ok := true;
      SpinOverCase(g0, leaf, angle, updatedSpinAngle);
      assert State() == g1.(spin := g0.spin[n := Fold(updatedSpinAngle)]);
    }

    /** spin_leaf(leaf): the default spin of 180 degrees. */
    method SpinLeafDefault(leaf: Leaf) returns (ok: bool)
      requires Valid() && leaf.IsSection()
      modifies spin, front.marbles, back.marbles
      ensures Valid() && (ok, State()) == GameSpec.SpinLeaf(old(State()), leaf, 180.0)
    {
      ok := SpinLeaf(leaf, 180.0);
    }

    /** swap_side. */
    method SwapSide()
      requires Valid()
      modifies this, spin
      ensures Valid() && State() == GameSpec.SwapSide(old(State()))
    {
      active := active.Other();
      UpdateSpinRotationAngle(North, spin[North.Code()]);
      UpdateSpinRotationAngle(East, spin[East.Code()]);
      UpdateSpinRotationAngle(West, spin[West.Code()]);
    }

    /** is_game_solved. */
    method IsGameSolved() returns (b: bool)
      requires Valid()
      ensures b == GameSolved(State())
    {
      var f, k := GetSide(Front), GetSide(Back);
      if !(k.Mode() == LeafRotation) || !(f.Mode() == LeafRotation) {
        return false;
      }
      b := IsLeafComplete(f, North);
      if b { b := IsLeafComplete(f, East); }
      if b { b := IsLeafComplete(f, West); }
      if b { b := IsLeafComplete(k, North); }
      if b { b := IsLeafComplete(k, East); }
      if b { b := IsLeafComplete(k, West); }
    }

    /** check_consistency: FRONT, then BACK. */
    method CheckConsistency() returns (b: bool)
      requires Valid()
      ensures b == Consistent(State())
    {
      b := CheckConsistencySide(front);
      if b {
        b := CheckConsistencySide(back);
      }
    }

    /** reset. */
    method Reset()
      requires Valid()
      modifies this, front.marbles, front.status, back.marbles, back.status
      ensures Valid() && State() == GameSpec.Reset(old(State()))
    {
      active := Front;
      front.Assign(FrontMarbles());
      back.Assign(BackMarbles());
    }

    /** process_key(key, fraction_angle). */
    method ProcessKey(key: Key, fraction: real) returns (ok: bool)
      requires Valid()
      modifies this, spin, front.marbles, front.status, back.marbles, back.status
      ensures Valid() && (ok, State()) == GameSpec.ProcessKey(old(State()), key, fraction)
    {
      match key
      case KeyN => section := North; ok := true;
      case KeyE => section := East; ok := true;
      case KeyW => section := West; ok := true;
      case KeyI => section := Center; ok := true;
      case KeyLeft => TurnSelected(-1.0, fraction); ok := true;
      case KeyRight => TurnSelected(1.0, fraction); ok := true;
      case KeyPageUp => SpinSelected(); ok := true;
      case KeyPageDown => SpinSelected(); ok := true;
      case KeyP => SwapSide(); ok := true;
      case OtherKey => ok := false;
    }

    /** The Left/Right branch of process_key. */
    method TurnSelected(direction: real, fraction: real)
      requires Valid()
      modifies front.marbles, front.status, back.marbles, back.status
      ensures Valid() && State() == GameSpec.TurnSelected(old(State()), direction, fraction)
    {
      ghost var t := GameSpec.TurnSelected(State(), direction, fraction);
      var side := GetSide(GetActiveSide());
      if section == Center {
        var _ := side.RotateInternalDisk(direction * 60.0 * fraction);
      } else if section.Code() < Trefoil.Code() {
        var _ := side.RotateMarbles(section, direction * DTheta * fraction);
      }
      assert State().front == t.front && State().back == t.back && spin[..] == t.spin;
    }

    /** The PageUp/PageDown branch of process_key. */
    method SpinSelected()
      requires Valid()
      modifies spin, front.marbles, back.marbles
      ensures Valid() && State() == GameSpec.SpinSelected(old(State()))
    {
      if section.Code() < Trefoil.Code() {
        var _ := SpinLeafDefault(section);
      }
    }

    /** process_command: a selection key and an action key. */
    method ProcessCommand(c: Command) returns (ok: bool)
      requires Valid()
      modifies this, spin, front.marbles, front.status, back.marbles, back.status
      ensures Valid() && (ok, State()) == GameSpec.ProcessCommand(old(State()), c)
    {
      var select, action, fraction;
      match c {
        case NorthRight => select, action, fraction := KeyN, KeyRight, 1.0;
        case NorthLeft => select, action, fraction := KeyN, KeyLeft, 1.0;
        case NorthSpin => select, action, fraction := KeyN, KeyPageDown, 1.0;
        case EastRight => select, action, fraction := KeyE, KeyRight, 1.0;
        case EastLeft => select, action, fraction := KeyE, KeyLeft, 1.0;
        case EastSpin => select, action, fraction := KeyE, KeyPageDown, 1.0;
        case WestRight => select, action, fraction := KeyW, KeyRight, 1.0;
        case WestLeft => select, action, fraction := KeyW, KeyLeft, 1.0;
        case WestSpin => select, action, fraction := KeyW, KeyPageDown, 1.0;
        case InternalRight => select, action, fraction := KeyI, KeyRight, 0.0;
        case InternalLeft => select, action, fraction := KeyI, KeyLeft, 0.0;
        case SwapSideCommand =>
          var _ := ProcessKey(KeyP, 1.0);
          return true;
        case OtherCommand => return false;
      }
      Keys(select, action, fraction);
      ok := true;
    }

    /** Two process_key calls: a selection with fraction 1, then an action. */
    method Keys(select: Key, action: Key, fraction: real)
      requires Valid()
      modifies this, spin, front.marbles, front.status, back.marbles, back.status
      ensures Valid() && State() == GameSpec.Keys(old(State()), select, action, fraction)
    {
      var _ := ProcessKey(select, 1.0);
      var _ := ProcessKey(action, fraction);
    }

    /**
     * shuffle: the keys, which the source draws from a seeded random
     * generator, are given; each is processed with fraction 1.
     */
    method Shuffle(keys: seq<Key>)
      requires Valid()
      modifies this, spin, front.marbles, front.status, back.marbles, back.status
      ensures Valid() && State() == GameSpec.Shuffle(old(State()), keys)
    {
      var i := 0;
      while i < |keys|
        invariant 0 <= i <= |keys| && Valid()
        invariant GameSpec.Shuffle(State(), keys[i..]) == GameSpec.Shuffle(old(State()), keys)
      {
        var _ := ProcessKey(keys[i], 1.0);
        assert keys[i..][1..] == keys[i + 1..];
        i := i + 1;
      }
    }

    /** current_time_step: the colour snapshot of the whole game. */
    method CurrentTimeStep() returns (out: array<Color>)
      requires Valid()
      ensures fresh(out) && out[..] == GameCells(State())
    {
      out := new Color[StepArraySize](_ => InvalidColor);
      out[0] := Color(GetActiveSide().Code());
      ghost var base := out[..];
      assert base == seq(StepArraySize, k => InvalidColor)[0 := Color(active.Code())];
      front.CurrentTimeStep(1, out);
      back.CurrentTimeStep(BackStart, out);
    }
  }
}
