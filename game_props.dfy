/**
 * What the two-sided game promises (src/puzzle/spin_puzzle_game.cpp and its
 * tests): two default spins of a leaf give the game back, two swaps of side
 * give it back, the default and the reset games are solved and consistent,
 * and check_consistency_side is a test for repeated ids.
 */
module GameProps {
  import opened Definitions
  import opened Angles
  import opened Marbles
  import opened SideIterator
  import opened SideStatus
  import opened SideSpec
  import opened SideBorder
  import opened GameExchange
  import opened GameSpec

  /**
   * A default spin of 180 degrees exchanges the five marbles; a second one
   * exchanges them back and leaves the progress where it was, provided the
   * progress is strictly inside (-90, 90) and neither side is spinning.
   */
  lemma SpinTwiceRestores(g: GameState, leaf: Leaf)
    requires g.Valid() && leaf.IsSection() && LeafFree(g.Side(g.active), leaf)
    requires -90.0 < g.spin[leaf.Code()] < 90.0
    requires g.front.Mode() != LeafSpinning && g.back.Mode() != LeafSpinning
    ensures var (ok1, g1) := SpinLeaf(g, leaf, 180.0);
            var (ok2, g2) := SpinLeaf(g1, leaf, 180.0);
            ok1 && ok2 && g1.spin == g.spin && g2 == g
  {
    FModSteps(180.0, 360.0, 0);
    var p := g.spin[leaf.Code()];
    assert Fold(p + 180.0) == p;
    assert g.spin[leaf.Code() := p] == g.spin;
    var g1 := SpinExchange(g, leaf);
    assert SpinLeaf(g, leaf, 180.0) == (true, g1);
    assert g1.Side(g.active) == g.Side(g.active).(marbles := g1.Side(g.active).marbles);
    assert SpinLeaf(g1, leaf, 180.0) == (true, SpinExchange(g1, leaf));
    ExchangeBack(g, leaf);
  }

  /** The second exchange of a spin, with unchanged statuses, undoes the first. */
  lemma ExchangeBack(g: GameState, leaf: Leaf)
    requires g.Valid() && leaf.IsSection()
    requires g.front.Mode() != LeafSpinning && g.back.Mode() != LeafSpinning
    ensures SpinExchange(SpinExchange(g, leaf), leaf) == g
  {
    var g1 := SpinExchange(g, leaf);
    SecondExchange(g, leaf);
    ExchangeSides(g1, leaf, g.Side(g.active).marbles, g.Side(g.active.Other()).marbles);
    var g2 := SpinExchange(g1, leaf);
    assert g2.front == g.front && g2.back == g.back;
  }

  /** On the sides the first exchange leaves, the second exchange gives back both sides' marbles. */
  lemma SecondExchange(g: GameState, leaf: Leaf)
    requires g.Valid() && leaf.IsSection()
    requires g.front.Mode() != LeafSpinning && g.back.Mode() != LeafSpinning
    ensures var g1 := SpinExchange(g, leaf);
      var act1, opp1 := g1.Side(g.active), g1.Side(g.active.Other());
      Exchange(act1.marbles, opp1.marbles, SpinWindow(act1, leaf), SpinWindow(opp1, OppositeLeaf(leaf)), SpinCount)
        == (g.Side(g.active).marbles, g.Side(g.active.Other()).marbles)
  {
    var act, opp := g.Side(g.active), g.Side(g.active.Other());
    var ia, ib := SpinWindow(act, leaf), SpinWindow(opp, OppositeLeaf(leaf));
    var ex := Exchange(act.marbles, opp.marbles, ia, ib, SpinCount);
    var g1 := SpinExchange(g, leaf);
    ExchangeSides(g, leaf, ex.0, ex.1);
    assert g1.Side(g.active) == act.(marbles := ex.0) && g1.Side(g.active.Other()) == opp.(marbles := ex.1);
    WindowOfMarbles(act, ex.0, leaf);
    WindowOfMarbles(opp, ex.1, OppositeLeaf(leaf));
    WindowDistinct(act, leaf);
    WindowDistinct(opp, OppositeLeaf(leaf));
    ExchangeTwice(act.marbles, opp.marbles, ia, ib, SpinCount);
  }

  /** Outside leaf spinning, the five cells a spin exchanges on a side are pairwise different. */
  lemma WindowDistinct(s: SideState, leaf: Leaf)
    requires s.Valid() && leaf.IsSection() && s.Mode() != LeafSpinning
    ensures Distinct(SpinWindow(s, leaf), SpinCount)
  {
    PassDistinct(SpinWindow(s, leaf), SpinCount);
  }

  /** The result of SpinExchange, as the active and the other side with new marbles. */
  lemma ExchangeSides(g: GameState, leaf: Leaf, a: seq<Marble>, b: seq<Marble>)
    requires g.Valid() && leaf.IsSection()
    requires var act, opp := g.Side(g.active), g.Side(g.active.Other());
      (a, b) == Exchange(act.marbles, opp.marbles, SpinWindow(act, leaf), SpinWindow(opp, OppositeLeaf(leaf)), SpinCount)
    ensures g.active == Front ==> SpinExchange(g, leaf) == g.(front := g.front.(marbles := a), back := g.back.(marbles := b))
    ensures g.active == Back ==> SpinExchange(g, leaf) == g.(back := g.back.(marbles := a), front := g.front.(marbles := b))
  {
  }

  /** Where a spin starts depends on the side's status only, not on its marbles. */
  lemma WindowOfMarbles(s: SideState, m: seq<Marble>, leaf: Leaf)
    requires s.Valid() && |m| == NMarbles && leaf.IsSection()
    ensures SpinWindow(s.(marbles := m), leaf) == SpinWindow(s, leaf)
  {
    assert Begin(s.(marbles := m), leaf) == Begin(s, leaf);
    assert Begin(s.(marbles := m), Trefoil) == Begin(s, Trefoil);
  }

  /**
   * The steps of a spin in the tests: from no progress, 45 and then 44 degrees
   * move nothing, a further 90 exchanges the marbles, and 100 more exchanges
   * them back.
   */
  lemma SpinInSteps(g: GameState)
    requires g.Valid() && LeafFree(g.Side(g.active), North) && g.spin[North.Code()] == 0.0
    requires g.front.Mode() != LeafSpinning && g.back.Mode() != LeafSpinning
    ensures var (ok1, g1) := SpinLeaf(g, North, 45.0);
            var (ok2, g2) := SpinLeaf(g1, North, 44.0);
            var (ok3, g3) := SpinLeaf(g2, North, 90.0);
            var (ok4, g4) := SpinLeaf(g3, North, 100.0);
            !ok1 && !ok2 && ok3 && ok4 &&
            g2.front == g.front && g2.back == g.back && g2.spin[North.Code()] == 89.0 &&
            g3.front == SpinExchange(g, North).front && g3.back == SpinExchange(g, North).back &&
            g3.spin[North.Code()] == -1.0 &&
            g4.front == g.front && g4.back == g.back && g4.spin[North.Code()] == -81.0
  {
    var g1 := SpinShort(g, 45.0, 45.0);
    var g2 := SpinShort(g1, 44.0, 89.0);
    var e := SpinExchange(g2, North);
    var g3 := SpinOver(g2, 90.0, -1.0);
    var g4 := SpinOver(g3, 100.0, -81.0);
    assert g3 == e.(spin := g3.spin);
    assert SpinExchange(g3, North) == SpinExchange(e, North).(spin := g3.spin);
    ExchangeBack(g2, North);
  }

  /** A spin of NORTH by an angle in [0, 360) that keeps the progress, now p, in [-90, 90). */
  lemma SpinShort(g: GameState, angle: real, p: real) returns (r: GameState)
    requires g.Valid() && LeafFree(g.Side(g.active), North) && 0.0 <= angle < 360.0
    requires p == g.spin[0] + angle && -90.0 <= p < 90.0
    ensures r == g.(spin := g.spin[0 := p]) && SpinLeaf(g, North, angle) == (false, r)
  {
    FModSteps(angle, 360.0, 0);
    r := g.(spin := g.spin[0 := p]);
  }

  /** A spin of NORTH by an angle in [0, 360) that takes the progress out of [-90, 90) and folds it to p. */
  lemma SpinOver(g: GameState, angle: real, p: real) returns (r: GameState)
    requires g.Valid() && LeafFree(g.Side(g.active), North) && 0.0 <= angle < 360.0
    requires !(-90.0 <= g.spin[0] + angle < 90.0) && p == Fold(g.spin[0] + angle)
    ensures r == SpinExchange(g, North).(spin := g.spin[0 := p]) && SpinLeaf(g, North, angle) == (true, r)
  {
    FModSteps(angle, 360.0, 0);
    var u := g.spin[North.Code()] + FMod(angle, 360.0);
    assert North.Code() == 0 && u == g.spin[0] + angle && Fold(u) == p;
    SpinOverCase(g, North, angle, u);
    r := SpinExchange(g, North).(spin := g.spin[0 := p]);
  }

  /** A new side's leaf, read from begin(leaf), is the leaf's block of the array in order. */
  lemma NewSideLeaf(ms: seq<Marble>, leaf: Leaf)
    requires |ms| == NMarbles && (leaf.IsSection() || leaf == Trefoil)
    ensures var s := NewSide(ms); var it := Begin(s, leaf);
      Walk(ms, it, it.len) == ms[it.lo .. it.lo + it.len]
  {
    var s := NewSide(ms);
    BeginAtZero(s, leaf);
    WalkFromStart(ms, Begin(s, leaf));
  }

  /** A leaf whose ten marbles all have one colour is complete. */
  lemma UniformLeaf(ms: seq<Marble>, leaf: Leaf, c: Color)
    requires |ms| == NMarbles && leaf.IsSection()
    requires forall i :: N * leaf.Code() <= i < N * leaf.Code() + N ==> ms[i].color == c
    ensures LeafComplete(NewSide(ms), leaf)
  {
    NewSideLeaf(ms, leaf);
  }

  /** The default game, as constructed, is solved. */
  lemma DefaultSolved()
    ensures GameSolved(DefaultGame())
  {
    var f, b := FrontMarbles(), BackMarbles();
    UniformLeaf(f, North, Blue);
    UniformLeaf(f, East, Green);
    UniformLeaf(f, West, Magenta);
    UniformLeaf(b, North, Cyan);
    UniformLeaf(b, East, Red);
    UniformLeaf(b, West, Yellow);
  }

  /** After reset the game is solved again, whatever was done to it. */
  lemma ResetSolved(g: GameState)
    requires g.Valid()
    ensures GameSolved(Reset(g)) && Consistent(Reset(g))
  {
    DefaultSolved();
    DefaultConsistent();
  }

  /** At most one marble carries an id exactly when no two positions share it. */
  lemma {:induction false} CountAtMostOne(w: seq<Marble>, id: int)
    ensures CountId(w, id) <= 1 <==> forall i, j :: 0 <= i < j < |w| && w[i].id == id ==> w[j].id != id
  {
    if w != [] {
      var u := w[..|w| - 1];
      CountAtMostOne(u, id);
      CountPresent(u, id);
      forall i, j | 0 <= i < j < |u| ensures u[i] == w[i] && u[j] == w[j] { }
    }
  }

  /** The count is positive exactly when some marble carries the id. */
  lemma {:induction false} CountPresent(w: seq<Marble>, id: int)
    ensures CountId(w, id) > 0 <==> exists i :: 0 <= i < |w| && w[i].id == id
  {
    if w != [] {
      var u := w[..|w| - 1];
      CountPresent(u, id);
      if CountId(u, id) > 0 {
        var i :| 0 <= i < |u| && u[i].id == id;
        assert w[i].id == id;
      }
      forall i | 0 <= i < |u| ensures u[i] == w[i] { }
    }
  }

  /**
   * check_consistency_side accepts a side exactly when every id read lies in
   * [0, 60] and no id below 60 is read at two positions.
   */
  lemma ConsistentSideIff(s: SideState)
    requires s.Valid()
    ensures var w := ConsistencyWalk(s);
      ConsistentSide(s) <==>
        (forall j :: 0 <= j < NMarbles ==> 0 <= w[j].id <= MaxId) &&
        (forall i, j :: 0 <= i < j < NMarbles && w[i].id < MaxId ==> w[i].id != w[j].id)
  {
    var w := ConsistencyWalk(s);
    var inRange := forall j :: 0 <= j < NMarbles ==> 0 <= w[j].id <= MaxId;
    var distinct := forall i, j :: 0 <= i < j < NMarbles && w[i].id < MaxId ==> w[i].id != w[j].id;
    if ConsistentSide(s) {
      forall i, j | 0 <= i < j < NMarbles && w[i].id < MaxId
        ensures w[i].id != w[j].id
      {
        assert !BadId(w[i]);
        CountAtMostOne(w, w[i].id);
      }
    }
    if inRange && distinct {
      forall id | 0 <= id < MaxId
        ensures CountId(w, id) <= 1
      {
        CountAtMostOne(w, id);
      }
    }
  }

  /** Thirty marbles with pairwise different ids, all in [0, 60), pass the consistency check. */
  lemma NewSideConsistent(ms: seq<Marble>)
    requires |ms| == NMarbles
    requires forall i :: 0 <= i < NMarbles ==> 0 <= ms[i].id < MaxId
    requires forall i, j :: 0 <= i < j < NMarbles ==> ms[i].id != ms[j].id
    ensures ConsistentSide(NewSide(ms))
  {
    NewSideLeaf(ms, Trefoil);
    assert ms[0..NMarbles] == ms;
    ConsistentSideIff(NewSide(ms));
  }

  /** The default game passes check_consistency. */
  lemma DefaultConsistent()
    ensures Consistent(DefaultGame())
  {
    NewSideConsistent(FrontMarbles());
    NewSideConsistent(BackMarbles());
  }

  /** Pressing P twice gives the game back when the progress is in the fold's range. */
  lemma SwapKeyTwice(g: GameState, fraction: real)
    requires g.Valid() && FoldRange(g.spin)
    ensures ProcessKey(ProcessKey(g, KeyP, fraction).1, KeyP, fraction) == (true, g)
  {
    SwapSideTwice(g);
  }

  /** The two disk commands pass fraction 0, so they turn the disk by 0 degrees alike. */
  lemma InternalCommandsAgree(g: GameState)
    requires g.Valid()
    ensures ProcessCommand(g, InternalLeft) == ProcessCommand(g, InternalRight)
    ensures var r := ProcessCommand(g, InternalRight).1;
      r == g.(section := Center).WithSide(g.active, SideSpec.RotateInternalDisk(g.Side(g.active), 0.0).1)
  {
    var g1 := g.(section := Center);
    assert ProcessKey(g, KeyI, 1.0).1 == g1;
    assert -1.0 * 60.0 * 0.0 == 0.0 == 1.0 * 60.0 * 0.0;
    var t := g1.WithSide(g.active, SideSpec.RotateInternalDisk(g.Side(g.active), 0.0).1);
    assert TurnSelected(g1, -1.0, 0.0) == t;
    assert TurnSelected(g1, 1.0, 0.0) == t;
  }

  /** Left and Right with no leaf and no disk selected change nothing. */
  lemma TurnWithoutSelection(g: GameState, fraction: real)
    requires g.Valid() && g.section != Center && !g.section.IsSection()
    ensures ProcessKey(g, KeyLeft, fraction) == (true, g) && ProcessKey(g, KeyRight, fraction) == (true, g)
    ensures ProcessKey(g, KeyPageUp, fraction) == (true, g) && ProcessKey(g, KeyPageDown, fraction) == (true, g)
  {
  }
}
