/**
 * The two-sided game (src/puzzle/spin_puzzle_game.cpp, spin_puzzle_game.h) as
 * functions of its state: the FRONT and BACK sides, the active side, the spin
 * progress of each leaf and the section the keyboard has selected.  The class
 * in module PuzzleGame performs each operation in place and is proved to reach
 * the state these functions describe.
 */
module GameSpec {
  import opened Wrappers
  import opened Definitions
  import opened Angles
  import opened Marbles
  import opened SideIterator
  import opened SideStatus
  import opened SideSpec
  import opened Cells
  import opened GameExchange

  datatype GameState = GameState(
    front: SideState,        // m_sides[FRONT]
    back: SideState,         // m_sides[BACK]
    active: SideId,          // m_active_side
    spin: seq<real>,         // m_spin_rotation, indexed by LEAF
    section: Leaf)           // keyboard.section
  {
    predicate Valid() {
      front.Valid() && back.Valid() && |spin| == NLeaves
    }

    /** get_side. */
    function Side(id: SideId): SideState {
      if id == Front then front else back
    }

    /** The game with one side replaced. */
    function WithSide(id: SideId, s: SideState): (g: GameState)
      ensures g.Side(id) == s && g.Side(id.Other()) == Side(id.Other())
      ensures g.active == active && g.spin == spin && g.section == section
    {
      if id == Front then this.(front := s) else this.(back := s)
    }
  }

  /** The colour of the marbles createFrontMarbles puts in a leaf. */
  function FrontColor(leaf: nat): Color {
    if leaf == 0 then Blue else if leaf == 1 then Green else Magenta
  }

  /** The colour of the marbles createBackMarbles puts in a leaf. */
  function BackColor(leaf: nat): Color {
    if leaf == 0 then Cyan else if leaf == 1 then Red else Yellow
  }

  /** createFrontMarbles: ids 0 to 29, ten blue, ten green, ten magenta. */
  function FrontMarbles(): (ms: seq<Marble>)
    ensures |ms| == NMarbles
  {
    seq(NMarbles, i requires 0 <= i < NMarbles => Marble(i, FrontColor(i / N)))
  }

  /** createBackMarbles: ids 30 to 59, ten cyan, ten red, ten yellow. */
  function BackMarbles(): (ms: seq<Marble>)
    ensures |ms| == NMarbles
  {
    seq(NMarbles, i requires 0 <= i < NMarbles => Marble(NMarbles + i, BackColor(i / N)))
  }

  /** The constructor from the two sides' marbles: FRONT active, no spin progress, no section selected. */
  function NewGame(front: seq<Marble>, back: seq<Marble>): (g: GameState)
    requires |front| == NMarbles && |back| == NMarbles
    ensures g.Valid()
  {
    GameState(NewSide(front), NewSide(back), Front, [0.0, 0.0, 0.0], InvalidLeaf)
  }

  /** The default-constructed game. */
  function DefaultGame(): (g: GameState)
    ensures g.Valid()
  {
    NewGame(FrontMarbles(), BackMarbles())
  }

  /** get_opposite_leaf: the leaf a leaf meets on the other side. */
  function OppositeLeaf(leaf: Leaf): (r: Leaf)
    ensures r.IsSection()
    ensures r == North <==> leaf == North
  {
    match leaf
    case North => North
    case East => West
    case _ => East
  }

  /** Among the three leaves, the opposite of the opposite is the leaf itself. */
  lemma OppositeLeafInvolution(leaf: Leaf)
    requires leaf.IsSection()
    ensures OppositeLeaf(OppositeLeaf(leaf)) == leaf && OppositeLeaf(leaf) != leaf <==> leaf != North
  {
  }

  /**
   * update_spin_rotation_angle: the progress of a leaf as seen from the other
   * side; above 90 it drops by 180, otherwise (90 itself included) it rises by 180.
   */
  function Fold(a: real): real {
    if a > 90.0 then a - 180.0 else 180.0 + a
  }

  /** On (-90, 270] the fold stays in the interval and undoes itself. */
  lemma FoldInvolution(a: real)
    requires -90.0 < a <= 270.0
    ensures -90.0 < Fold(a) <= 270.0 && Fold(Fold(a)) == a
  {
  }

  /** The spin progress of the three leaves lies where the fold undoes itself. */
  predicate FoldRange(spin: seq<real>)
    requires |spin| == NLeaves
  {
    forall i :: 0 <= i < NLeaves ==> -90.0 < spin[i] <= 270.0
  }

  /** swap_side: the other side becomes active and every leaf's progress is folded. */
  function SwapSide(g: GameState): (r: GameState)
    requires g.Valid()
    ensures r.Valid() && r.front == g.front && r.back == g.back && r.section == g.section
    ensures r.active == g.active.Other()
    ensures forall i :: 0 <= i < NLeaves ==> r.spin[i] == Fold(g.spin[i])
  {
    g.(active := g.active.Other(), spin := [Fold(g.spin[0]), Fold(g.spin[1]), Fold(g.spin[2])])
  }

  /** Two swaps of side give the game back when every progress is in the fold's range. */
  lemma {:induction false} SwapSideTwice(g: GameState)
    requires g.Valid() && FoldRange(g.spin)
    ensures SwapSide(SwapSide(g)) == g
  {
    var r := SwapSide(SwapSide(g));
    forall i | 0 <= i < NLeaves
      ensures r.spin[i] == g.spin[i]
    {
      FoldInvolution(g.spin[i]);
    }
  }

  /**
   * Where the five exchanged marbles of a side start: one past begin(leaf), or,
   * in border rotation, one past the leaf's block of the ring read by begin().
   */
  function SpinWindow(s: SideState, leaf: Leaf): (it: Iterator)
    requires s.Valid() && leaf.IsSection()
    ensures it.Valid() && it.mode == s.Mode()
  {
    if s.Mode() == BorderRotation then Begin(s, Trefoil).Plus(leaf.Code() * N + 1)
    else Begin(s, leaf).Plus(1)
  }

  /** The number of marbles one spin moves to the other side. */
  const SpinCount: nat := 5

  /** The sides after the five exchanges of a spin of leaf on the active side. */
  function SpinExchange(g: GameState, leaf: Leaf): (r: GameState)
    requires g.Valid() && leaf.IsSection()
    ensures r.Valid() && r.active == g.active && r.spin == g.spin && r.section == g.section
    ensures r.front.status == g.front.status && r.back.status == g.back.status
  {
    var act, opp := g.Side(g.active), g.Side(g.active.Other());
    var ex := Exchange(act.marbles, opp.marbles, SpinWindow(act, leaf), SpinWindow(opp, OppositeLeaf(leaf)), SpinCount);
    g.WithSide(g.active, act.(marbles := ex.0)).WithSide(g.active.Other(), opp.(marbles := ex.1))
  }

  /** Two sides joined in either order hold the same marbles. */
  lemma ConcatCommutes(x: seq<Marble>, y: seq<Marble>)
    ensures multiset(x + y) == multiset(y + x)
  {
  }

  /** The exchanges of a spin only move marbles between and within the two sides. */
  lemma SpinExchangePermutes(g: GameState, leaf: Leaf)
    requires g.Valid() && leaf.IsSection()
    ensures var r := SpinExchange(g, leaf);
      multiset(r.front.marbles + r.back.marbles) == multiset(g.front.marbles + g.back.marbles)
  {
    var act, opp := g.Side(g.active), g.Side(g.active.Other());
    var ia, ib := SpinWindow(act, leaf), SpinWindow(opp, OppositeLeaf(leaf));
    ExchangePermutes(act.marbles, opp.marbles, ia, ib, SpinCount);
    var ex := Exchange(act.marbles, opp.marbles, ia, ib, SpinCount);
    var r := SpinExchange(g, leaf);
    if g.active == Front {
      assert r.front.marbles == ex.0 && r.back.marbles == ex.1;
    } else {
      assert r.front.marbles == ex.1 && r.back.marbles == ex.0;
      ConcatCommutes(ex.0, ex.1);
      ConcatCommutes(act.marbles, opp.marbles);
    }
  }

  /**
   * spin_leaf(leaf, angle): refused when the active side's leaf is blocked;
   * otherwise the progress grows by fmod(angle, 360), and only when it leaves
   * [-90, 90) are five marbles exchanged with the opposite leaf of the other
   * side and the progress folded.
   */
  function SpinLeaf(g: GameState, leaf: Leaf, angle: real): (r: (bool, GameState))
    requires g.Valid() && leaf.IsSection()
    ensures r.1.Valid() && r.1.active == g.active && r.1.section == g.section
    ensures r.1.front.status == g.front.status && r.1.back.status == g.back.status
    ensures r.0 <==> LeafFree(g.Side(g.active), leaf) && !(-90.0 <= g.spin[leaf.Code()] + FMod(angle, 360.0) < 90.0)
    ensures !r.0 ==> r.1.front == g.front && r.1.back == g.back
    ensures !LeafFree(g.Side(g.active), leaf) ==> r.1 == g
    ensures forall l: Leaf :: l.IsSection() && l != leaf ==> r.1.spin[l.Code()] == g.spin[l.Code()]
    ensures multiset(r.1.front.marbles + r.1.back.marbles) == multiset(g.front.marbles + g.back.marbles)
  {
    SpinExchangePermutes(g, leaf);
    if !LeafFree(g.Side(g.active), leaf) then (false, g)
    else
      var updated := g.spin[leaf.Code()] + FMod(angle, 360.0);
      if -90.0 <= updated < 90.0 then (false, g.(spin := g.spin[leaf.Code() := updated]))
      else (true, SpinExchange(g, leaf).(spin := g.spin[leaf.Code() := Fold(updated)]))
  }

  /** The branch of spin_leaf that only stores the new progress. */
  lemma SpinShortCase(g: GameState, leaf: Leaf, angle: real, u: real)
    requires g.Valid() && leaf.IsSection() && LeafFree(g.Side(g.active), leaf)
    requires u == g.spin[leaf.Code()] + FMod(angle, 360.0) && -90.0 <= u < 90.0
    ensures SpinLeaf(g, leaf, angle) == (false, g.(spin := g.spin[leaf.Code() := u]))
  {
    var r := SpinLeaf(g, leaf, angle);
    assert r.1.front == g.front && r.1.back == g.back && r.1.spin == g.spin[leaf.Code() := u];
  }

  /** The branch of spin_leaf that exchanges the marbles. */
  lemma SpinOverCase(g: GameState, leaf: Leaf, angle: real, u: real)
    requires g.Valid() && leaf.IsSection() && LeafFree(g.Side(g.active), leaf)
    requires u == g.spin[leaf.Code()] + FMod(angle, 360.0) && !(-90.0 <= u < 90.0)
    ensures SpinLeaf(g, leaf, angle) == (true, SpinExchange(g, leaf).(spin := g.spin[leaf.Code() := Fold(u)]))
  {
    var r, x := SpinLeaf(g, leaf, angle), SpinExchange(g, leaf);
    assert r.1.front == x.front && r.1.back == x.back && r.1.spin == g.spin[leaf.Code() := Fold(u)];
  }

  /** rotate_marbles on the game: the active side's rotate_marbles. */
  function RotateMarbles(g: GameState, leaf: Leaf, angle: real): (r: (bool, GameState))
    requires g.Valid() && leaf.IsSection()
    ensures r.1.Valid()
  {
    var (ok, s) := SideSpec.RotateMarbles(g.Side(g.active), leaf, angle);
    (ok, g.WithSide(g.active, s))
  }

  /** rotate_internal_disk on the game: the active side's rotate_internal_disk. */
  function RotateInternalDisk(g: GameState, angle: real): (r: (bool, GameState))
    requires g.Valid()
    ensures r.1.Valid()
  {
    var (ok, s) := SideSpec.RotateInternalDisk(g.Side(g.active), angle);
    (ok, g.WithSide(g.active, s))
  }

  /** is_leaf_complete: the ten marbles read from begin(leaf) all have the first one's colour. */
  predicate LeafComplete(s: SideState, leaf: Leaf)
    requires s.Valid() && leaf.IsSection()
  {
    var w := Walk(s.marbles, Begin(s, leaf), N);
    forall j :: 0 <= j < N ==> w[j].color == w[0].color
  }

  /** is_game_solved: both sides in leaf rotation and all six leaves of one colour. */
  predicate GameSolved(g: GameState)
    requires g.Valid()
  {
    g.front.Mode() == LeafRotation && g.back.Mode() == LeafRotation &&
    LeafComplete(g.front, North) && LeafComplete(g.front, East) && LeafComplete(g.front, West) &&
    LeafComplete(g.back, North) && LeafComplete(g.back, East) && LeafComplete(g.back, West)
  }

  /** The largest id check_consistency_side accepts: twice the marbles of a side. */
  const MaxId: int := 2 * NMarbles

  /** How many marbles of w carry the id. */
  function CountId(w: seq<Marble>, id: int): (c: nat)
    ensures c <= |w|
  {
    if w == [] then 0 else CountId(w[..|w| - 1], id) + (if w[|w| - 1].id == id then 1 else 0)
  }

  /** The error test of check_consistency_side: INVALID_ID, a negative id or one above 60. */
  predicate BadId(m: Marble) {
    m.id == InvalidId || m.id < 0 || m.id > MaxId
  }

  /** The marbles check_consistency_side reads: thirty increments of begin(). */
  function ConsistencyWalk(s: SideState): (w: seq<Marble>)
    requires s.Valid()
    ensures |w| == NMarbles
  {
    Walk(s.marbles, Begin(s, Trefoil), NMarbles)
  }

  /**
   * check_consistency_side: no marble read has a bad id and no id below 60 is
   * read twice (the id 60 itself is accepted and never counted).
   */
  predicate ConsistentSide(s: SideState)
    requires s.Valid()
  {
    var w := ConsistencyWalk(s);
    (forall j :: 0 <= j < NMarbles ==> !BadId(w[j])) &&
    (forall i :: 0 <= i < MaxId ==> CountId(w, i) <= 1)
  }

  /** check_consistency: each side is checked on its own; the two are not compared. */
  predicate Consistent(g: GameState)
    requires g.Valid()
  {
    ConsistentSide(g.front) && ConsistentSide(g.back)
  }

  /** reset: FRONT active and both sides rebuilt from the canonical marbles; the spin progress is kept. */
  function Reset(g: GameState): (r: GameState)
    requires g.Valid()
    ensures r.Valid() && r.spin == g.spin && r.section == g.section && r.active == Front
    ensures r.front == DefaultGame().front && r.back == DefaultGame().back
  {
    g.(active := Front, front := NewSide(FrontMarbles()), back := NewSide(BackMarbles()))
  }

  /** The keys process_key knows; the Qt key codes themselves are not part of this model. */
  datatype Key = KeyN | KeyE | KeyW | KeyI | KeyLeft | KeyRight | KeyPageUp | KeyPageDown | KeyP | OtherKey

  /**
   * process_key(key, fraction): N, E, W and I select a section; Left and Right
   * turn the selected leaf by a STEP fraction or the disk by a fraction of 60
   * degrees; PageUp and PageDown spin the selected leaf; P swaps side.  Every
   * known key is accepted, even when it does nothing.
   */
  function ProcessKey(g: GameState, key: Key, fraction: real): (r: (bool, GameState))
    requires g.Valid()
    ensures r.1.Valid()
    ensures r.0 <==> key != OtherKey
    ensures !r.0 ==> r.1 == g
  {
    match key
    case KeyN => (true, g.(section := North))
    case KeyE => (true, g.(section := East))
    case KeyW => (true, g.(section := West))
    case KeyI => (true, g.(section := Center))
    case KeyLeft => (true, TurnSelected(g, -1.0, fraction))
    case KeyRight => (true, TurnSelected(g, 1.0, fraction))
    case KeyPageUp => (true, SpinSelected(g))
    case KeyPageDown => (true, SpinSelected(g))
    case KeyP => (true, SwapSide(g))
    case OtherKey => (false, g)
  }

  /** Left or Right: the disk when CENTER is selected, a leaf when one is, otherwise nothing. */
  function TurnSelected(g: GameState, direction: real, fraction: real): (r: GameState)
    requires g.Valid()
    ensures r.Valid() && r.active == g.active && r.spin == g.spin && r.section == g.section
    ensures r.Side(g.active.Other()) == g.Side(g.active.Other())
    ensures !(g.section == Center || g.section.IsSection()) ==> r == g
  {
    var s := g.Side(g.active);
    if g.section == Center then g.WithSide(g.active, SideSpec.RotateInternalDisk(s, direction * 60.0 * fraction).1)
    else if g.section.IsSection() then g.WithSide(g.active, SideSpec.RotateMarbles(s, g.section, direction * DTheta * fraction).1)
    else g
  }

  /** PageUp or PageDown: the default spin of the selected leaf, if a leaf is selected. */
  function SpinSelected(g: GameState): (r: GameState)
    requires g.Valid()
    ensures r.Valid() && r.active == g.active && r.section == g.section
    ensures !g.section.IsSection() ==> r == g
  {
    if g.section.IsSection() then SpinLeaf(g, g.section, 180.0).1 else g
  }

  /** The COMMANDS process_command dispatches; their numeric values are not part of this model. */
  datatype Command =
    | NorthRight | NorthLeft | NorthSpin
    | EastRight | EastLeft | EastSpin
    | WestRight | WestLeft | WestSpin
    | InternalRight | InternalLeft
    | SwapSideCommand
    | OtherCommand

  /** process_command: a section key and an action key; the disk commands pass fraction 0. */
  function ProcessCommand(g: GameState, c: Command): (r: (bool, GameState))
    requires g.Valid()
    ensures r.1.Valid()
    ensures r.0 <==> c != OtherCommand
    ensures !r.0 ==> r.1 == g
  {
    match c
    case NorthRight => (true, Keys(g, KeyN, KeyRight, 1.0))
    case NorthLeft => (true, Keys(g, KeyN, KeyLeft, 1.0))
    case NorthSpin => (true, Keys(g, KeyN, KeyPageDown, 1.0))
    case EastRight => (true, Keys(g, KeyE, KeyRight, 1.0))
    case EastLeft => (true, Keys(g, KeyE, KeyLeft, 1.0))
    case EastSpin => (true, Keys(g, KeyE, KeyPageDown, 1.0))
    case WestRight => (true, Keys(g, KeyW, KeyRight, 1.0))
    case WestLeft => (true, Keys(g, KeyW, KeyLeft, 1.0))
    case WestSpin => (true, Keys(g, KeyW, KeyPageDown, 1.0))
    case InternalRight => (true, Keys(g, KeyI, KeyRight, 0.0))
    case InternalLeft => (true, Keys(g, KeyI, KeyLeft, 0.0))
    case SwapSideCommand => (true, ProcessKey(g, KeyP, 1.0).1)
    case OtherCommand => (false, g)
  }

  /** A selection key with fraction 1 followed by an action key with the given fraction. */
  function Keys(g: GameState, select: Key, action: Key, fraction: real): (r: GameState)
    requires g.Valid()
    ensures r.Valid()
  {
    ProcessKey(ProcessKey(g, select, 1.0).1, action, fraction).1
  }

  /** shuffle: process_key with fraction 1 for each key of the sequence, in order. */
  function Shuffle(g: GameState, keys: seq<Key>): (r: GameState)
    requires g.Valid()
    ensures r.Valid()
    decreases |keys|
  {
    if keys == [] then g else Shuffle(ProcessKey(g, keys[0], 1.0).1, keys[1..])
  }

  /** SIZE_STEP_ARRAY: one cell for the active side and two runs of 39 cells. */
  const StepArraySize: nat := 79

  /** Where the BACK side's cells start: (SIZE_STEP_ARRAY - 1) / 2. */
  const BackStart: nat := (StepArraySize - 1) / 2

  /**
   * current_time_step: every cell INVALID_COLOR, cell 0 the active side's code,
   * then the FRONT side written from cell 1 and the BACK side from BackStart.
   */
  function GameCells(g: GameState): (cells: seq<Color>)
    requires g.Valid()
    ensures |cells| == StepArraySize
  {
    var base := seq(StepArraySize, k => InvalidColor)[0 := Color(g.active.Code())];
    Overlay(Overlay(base, 1, SideCells(g.front)), BackStart, SideCells(g.back))
  }
}
