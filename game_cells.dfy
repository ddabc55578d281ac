/**
 * The layout of SpinPuzzleGame::current_time_step (src/puzzle/spin_puzzle_game.cpp)
 * over SpinPuzzleSide::current_time_step (src/puzzle/spin_puzzle_side.h): which
 * cell of the snapshot holds which marble's colour.
 */
module GameLayout {
  import opened Wrappers
  import opened Definitions
  import opened Marbles
  import opened SideIterator
  import opened SideSpec
  import opened Cells
  import opened GameSpec

  /** The colours of the ten marbles read from begin(leaf). */
  function LeafColors(s: SideState, leaf: Leaf): (cs: seq<Color>)
    requires s.Valid() && leaf.IsSection()
    ensures |cs| == N
  {
    var w := Walk(s.marbles, Begin(s, leaf), N);
    seq(N, i requires 0 <= i < N => w[i].color)
  }

  /** Outside border rotation, a side writes leaf l's colours at 13 l .. 13 l + 9 and skips the three cells after them. */
  lemma SideCellsLeaf(s: SideState, leaf: Leaf, i: nat)
    requires s.Valid() && s.Mode() != BorderRotation && leaf.IsSection() && i < 13
    ensures i < N ==> SideCells(s)[13 * leaf.Code() + i] == Some(LeafColors(s, leaf)[i])
    ensures N <= i && 13 * leaf.Code() + i < 36 ==> SideCells(s)[13 * leaf.Code() + i] == None
  {
    var m := s.marbles;
    var n, e, wst := Begin(s, North), Begin(s, East), Begin(s, West);
    var pn, pe, pw := Painted(Walk(m, n, n.len)), Painted(Walk(m, e, e.len)), Painted(Walk(m, wst, wst.len));
    assert SideCells(s) == pn + Gap + pe + Gap + pw;
    var j := leaf.Code();
    if 13 * j + i < 36 {
      GappedCell(pn, pe, pw, j, i);
    }
    if i < N {
      PaintedLeaf(s, leaf, i);
      assert Painted(Walk(m, Begin(s, leaf), N)) == if j == 0 then pn else if j == 1 then pe else pw;
    }
  }

  /** The k-th cell of three ten-cell runs separated by gaps. */
  lemma GappedCell(a: seq<Option<Color>>, b: seq<Option<Color>>, c: seq<Option<Color>>, j: nat, i: nat)
    requires |a| == N && |b| == N && |c| == N && j < 3 && i < 13 && 13 * j + i < 36
    ensures (a + Gap + b + Gap + c)[13 * j + i] == if N <= i then None else if j == 0 then a[i] else if j == 1 then b[i] else c[i]
  {
  }

  /** The i-th cell painted from begin(leaf) holds LeafColors' i-th colour. */
  lemma PaintedLeaf(s: SideState, leaf: Leaf, i: nat)
    requires s.Valid() && leaf.IsSection() && i < N
    ensures Painted(Walk(s.marbles, Begin(s, leaf), N))[i] == Some(LeafColors(s, leaf)[i])
  {
  }

  /** Cell 0 of the snapshot holds the active side's code. */
  lemma ActiveCell(g: GameState)
    requires g.Valid()
    ensures GameCells(g)[0] == Color(g.active.Code())
  {
    var base := seq(StepArraySize, k => InvalidColor)[0 := Color(g.active.Code())];
    OverlayAt(base, 1, SideCells(g.front), 0);
    OverlayAt(Overlay(base, 1, SideCells(g.front)), BackStart, SideCells(g.back), 0);
  }

  /** A cell of the FRONT side's run: its colour when painted, INVALID_COLOR when skipped. */
  lemma FrontRunCell(g: GameState, k: nat)
    requires g.Valid() && 1 <= k < BackStart && k - 1 < |SideCells(g.front)|
    ensures var c := SideCells(g.front)[k - 1]; GameCells(g)[k] == if c.Some? then c.value else InvalidColor
  {
    var base := seq(StepArraySize, k => InvalidColor)[0 := Color(g.active.Code())];
    OverlayAt(base, 1, SideCells(g.front), k);
    OverlayAt(Overlay(base, 1, SideCells(g.front)), BackStart, SideCells(g.back), k);
  }

  /**
   * A cell of the BACK side's run: its colour when painted; when skipped, and
   * past the one cell the FRONT side's ring can reach, INVALID_COLOR.
   */
  lemma BackRunCell(g: GameState, k: nat)
    requires g.Valid() && BackStart <= k < StepArraySize && k - BackStart < |SideCells(g.back)|
    ensures var c := SideCells(g.back)[k - BackStart]; c.Some? ==> GameCells(g)[k] == c.value
    ensures var c := SideCells(g.back)[k - BackStart]; c.None? && k > BackStart ==> GameCells(g)[k] == InvalidColor
  {
    var base := seq(StepArraySize, k => InvalidColor)[0 := Color(g.active.Code())];
    assert k > BackStart ==> k >= 1 + |SideCells(g.front)| && base[k] == InvalidColor;
    OverlayAt(base, 1, SideCells(g.front), k);
    OverlayAt(Overlay(base, 1, SideCells(g.front)), BackStart, SideCells(g.back), k);
  }

  /**
   * Outside border rotation, the FRONT side's leaf l is read at cells
   * 1 + 13 l .. 10 + 13 l, and the three cells after it stay INVALID_COLOR.
   */
  lemma FrontCell(g: GameState, leaf: Leaf, i: nat)
    requires g.Valid() && g.front.Mode() != BorderRotation && leaf.IsSection() && i < 13
    ensures i < N ==> GameCells(g)[1 + 13 * leaf.Code() + i] == LeafColors(g.front, leaf)[i]
    ensures N <= i && 13 * leaf.Code() + i < 36 ==> GameCells(g)[1 + 13 * leaf.Code() + i] == InvalidColor
  {
    SideCellsLeaf(g.front, leaf, i);
    if 13 * leaf.Code() + i < 36 {
      FrontRunCell(g, 1 + 13 * leaf.Code() + i);
    }
  }

  /**
   * Outside border rotation, the BACK side's leaf l is read at cells
   * BackStart + 13 l .. BackStart + 13 l + 9, and the three cells after it stay INVALID_COLOR.
   */
  lemma BackCell(g: GameState, leaf: Leaf, i: nat)
    requires g.Valid() && g.back.Mode() != BorderRotation && leaf.IsSection() && i < 13
    ensures i < N ==> GameCells(g)[BackStart + 13 * leaf.Code() + i] == LeafColors(g.back, leaf)[i]
    ensures N <= i && 13 * leaf.Code() + i < 36 ==> GameCells(g)[BackStart + 13 * leaf.Code() + i] == InvalidColor
  {
    if i < N {
      BackLeafCell(g, leaf, i);
    } else if 13 * leaf.Code() + i < 36 {
      SideCellsLeaf(g.back, leaf, i);
      BackRunCell(g, BackStart + 13 * leaf.Code() + i);
    }
  }

  /** The painted half of BackCell. */
  lemma BackLeafCell(g: GameState, leaf: Leaf, i: nat)
    requires g.Valid() && g.back.Mode() != BorderRotation && leaf.IsSection() && i < N
    ensures GameCells(g)[BackStart + 13 * leaf.Code() + i] == LeafColors(g.back, leaf)[i]
  {
    SideCellsLeaf(g.back, leaf, i);
    BackRunCell(g, BackStart + 13 * leaf.Code() + i);
  }

  /** The last cell is never written, nor are the three before it outside the BACK side's border rotation. */
  lemma TailCells(g: GameState, k: nat)
    requires g.Valid() && BackStart + 36 <= k < StepArraySize
    requires g.back.Mode() != BorderRotation || k == StepArraySize - 1
    ensures GameCells(g)[k] == InvalidColor
  {
    var base := seq(StepArraySize, k => InvalidColor)[0 := Color(g.active.Code())];
    OverlayAt(base, 1, SideCells(g.front), k);
    OverlayAt(Overlay(base, 1, SideCells(g.front)), BackStart, SideCells(g.back), k);
  }

  /** Whatever its mode, a side's run of cells begins with a colour. */
  lemma FirstCellPainted(s: SideState)
    requires s.Valid()
    ensures SideCells(s)[0].Some?
  {
    var m := s.marbles;
    if s.Mode() == BorderRotation {
      var w := Walk(m, Begin(s, Trefoil), NMarbles);
      assert RingCells(w, 1)[0] == Painted(w[0..N - M])[0];
      assert RingCells(w, 3) == RingCells(w, 1) + (RingCells(w, 3)[13..]) by {
        assert RingCells(w, 2)[..13] == RingCells(w, 1);
        assert RingCells(w, 3)[..13] == RingCells(w, 2)[..13];
      }
    }
  }

  /**
   * In border rotation the FRONT side writes 39 cells, the last of them (a
   * coupling marble) at BackStart, where the BACK side's first colour then
   * replaces it.
   */
  lemma BorderFrontOverwritten(g: GameState)
    requires g.Valid() && g.front.Mode() == BorderRotation
    ensures 1 + |SideCells(g.front)| == BackStart + 1
    ensures SideCells(g.front)[BackStart - 1].Some? && SideCells(g.back)[0].Some?
    ensures GameCells(g)[BackStart] == SideCells(g.back)[0].value
  {
    var base := seq(StepArraySize, k => InvalidColor)[0 := Color(g.active.Code())];
    var w := Walk(g.front.marbles, Begin(g.front, Trefoil), NMarbles);
    assert SideCells(g.front) == RingCells(w, 2) + (Painted(w[20..27]) + Gap + Painted(w[27..30]));
    FirstCellPainted(g.back);
    OverlayAt(Overlay(base, 1, SideCells(g.front)), BackStart, SideCells(g.back), BackStart);
  }
}
