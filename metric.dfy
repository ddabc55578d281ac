/**
 * MetricProvider::naive_disorder (src/puzzle/spin_metrics.cpp): six windows
 * of ten cells are read from the game's colour snapshot, the colours of each
 * window are counted, and for each colour the best count over the windows is
 * summed, and the sum is divided by 60.
 */
module Metric {
  import opened Definitions
  import opened Marbles
  import opened SideIterator
  import opened SideSpec
  import opened GameSpec
  import opened GameLayout
  import opened GameProps
  import opened PuzzleGame

  /** The number of windows, one per leaf of the two sides. */
  const NWindows: nat := 6

  /** The number of colour classes: five named colours and everything else. */
  const NClasses: nat := 6

  /** colorToIndex: blue, green, magenta, cyan and red get 0 to 4, every other colour 5. */
  function ColorIndex(c: Color): (i: nat)
    ensures i < NClasses
    ensures i == 5 <==> c != Blue && c != Green && c != Magenta && c != Cyan && c != Red
  {
    if c == Blue then 0
    else if c == Green then 1
    else if c == Magenta then 2
    else if c == Cyan then 3
    else if c == Red then 4
    else 5
  }

  /** Where window t starts: 1 + 13 t, one cell earlier for the BACK side's windows. */
  function WindowStart(t: nat): nat
    requires t < NWindows
  {
    1 + t * 13 - (if t >= 3 then 1 else 0)
  }

  /** Window t holds the ten cells of leaf t mod 3 of the FRONT (t < 3) or BACK side. */
  lemma WindowsOnLeaves(t: nat)
    requires t < NWindows
    ensures t < 3 ==> WindowStart(t) == 1 + 13 * t
    ensures t >= 3 ==> WindowStart(t) == BackStart + 13 * (t - 3)
    ensures WindowStart(t) + N <= StepArraySize
  {
  }

  /** The ten cells of window t. */
  function Window(cells: seq<Color>, t: nat): (w: seq<Color>)
    requires |cells| == StepArraySize && t < NWindows
    ensures |w| == N
  {
    WindowsOnLeaves(t);
    cells[WindowStart(t)..WindowStart(t) + N]
  }

  /** How many cells of w fall in colour class k. */
  function Count(w: seq<Color>, k: nat): (n: nat)
    ensures n <= |w|
  {
    if w == [] then 0 else Count(w[..|w| - 1], k) + (if ColorIndex(w[|w| - 1]) == k then 1 else 0)
  }

  /** The counts of w over the classes below c. */
  function CountSum(w: seq<Color>, c: nat): nat {
    if c == 0 then 0 else CountSum(w, c - 1) + Count(w, c - 1)
  }

  /** The counts of a colour class over c classes: 1 when the class is among them, else 0. */
  lemma {:induction false} CountSumOne(x: Color, c: nat)
    requires c <= NClasses
    ensures CountSum([x], c) == if ColorIndex(x) < c then 1 else 0
  {
    if c > 0 {
      CountSumOne(x, c - 1);
      assert [x][..0] == [];
    }
  }

  /** Every cell is counted in exactly one class: the six counts of w add up to |w|. */
  lemma {:induction false} CountsCover(w: seq<Color>)
    ensures CountSum(w, NClasses) == |w|
  {
    if w == [] {
      CountSumEmpty(NClasses);
    } else {
      var u, x := w[..|w| - 1], w[|w| - 1];
      assert w == u + [x];
      CountsCover(u);
      CountSumSplit(u, x, NClasses);
      CountSumOne(x, NClasses);
    }
  }

  /** Nothing is counted in an empty window. */
  lemma {:induction false} CountSumEmpty(c: nat)
    ensures CountSum([], c) == 0
  {
    if c > 0 {
      CountSumEmpty(c - 1);
    }
  }

  /** Counting w + [x] over c classes is counting w and then x. */
  lemma {:induction false} CountSumSplit(u: seq<Color>, x: Color, c: nat)
    ensures CountSum(u + [x], c) == CountSum(u, c) + CountSum([x], c)
  {
    if c > 0 {
      CountSumSplit(u, x, c - 1);
      assert (u + [x])[..|u|] == u;
      assert [x][..0] == [];
    }
  }

  /** max_colors[k] after the first t windows. */
  function MaxCount(cells: seq<Color>, k: nat, t: nat): (m: nat)
    requires |cells| == StepArraySize && t <= NWindows
  {
    if t == 0 then 0
    else
      var here, before := Count(Window(cells, t - 1), k), MaxCount(cells, k, t - 1);
      if here > before then here else before
  }

  /** The sum of max_colors over the classes below c. */
  function MaxSum(cells: seq<Color>, c: nat): nat
    requires |cells| == StepArraySize
  {
    if c == 0 then 0 else MaxSum(cells, c - 1) + MaxCount(cells, c - 1, NWindows)
  }

  /** naive_disorder times 60: the summed best counts of the six classes. */
  function Numerator(cells: seq<Color>): nat
    requires |cells| == StepArraySize
  {
    MaxSum(cells, NClasses)
  }

  /** The best count of a class is at most ten and at least each window's count. */
  lemma {:induction false} MaxCountBounds(cells: seq<Color>, k: nat, t: nat)
    requires |cells| == StepArraySize && t <= NWindows
    ensures MaxCount(cells, k, t) <= N
    ensures forall u :: 0 <= u < t ==> Count(Window(cells, u), k) <= MaxCount(cells, k, t)
  {
    if t > 0 {
      MaxCountBounds(cells, k, t - 1);
    }
  }

  /** Bounds of the partial sums: at most ten per class, at least the first window's counts. */
  lemma {:induction false} MaxSumBounds(cells: seq<Color>, c: nat)
    requires |cells| == StepArraySize
    ensures CountSum(Window(cells, 0), c) <= MaxSum(cells, c) <= N * c
  {
    if c > 0 {
      MaxSumBounds(cells, c - 1);
      MaxCountBounds(cells, c - 1, NWindows);
    }
  }

  /** The disorder lies in [1/6, 1]: its numerator lies in [10, 60]. */
  lemma NumeratorBounds(cells: seq<Color>)
    requires |cells| == StepArraySize
    ensures N <= Numerator(cells) <= N * NWindows
  {
    MaxSumBounds(cells, NClasses);
    CountsCover(Window(cells, 0));
  }

  /** The counts of a window of one colour: all ten in its class, none elsewhere. */
  lemma {:induction false} CountUniform(w: seq<Color>, x: Color, k: nat)
    requires forall i :: 0 <= i < |w| ==> w[i] == x
    ensures Count(w, k) == if ColorIndex(x) == k then |w| else 0
  {
    if w != [] {
      CountUniform(w[..|w| - 1], x, k);
    }
  }

  /** The colour of the default game's window t. */
  function DefaultWindowColor(t: nat): Color
    requires t < NWindows
  {
    if t < 3 then FrontColor(t) else BackColor(t - 3)
  }

  /** The leaf of a side that window t reads. */
  function WindowLeaf(t: nat): (leaf: Leaf)
    requires t < NWindows
    ensures leaf.IsSection() && leaf.Code() == t % 3
  {
    if t % 3 == 0 then North else if t % 3 == 1 then East else West
  }

  /** Cell i of window t is cell i of its leaf's block in the snapshot. */
  lemma WindowCell(cells: seq<Color>, t: nat, i: nat)
    requires |cells| == StepArraySize && t < NWindows && i < N
    ensures t < 3 ==> Window(cells, t)[i] == cells[1 + 13 * t + i]
    ensures t >= 3 ==> Window(cells, t)[i] == cells[BackStart + 13 * (t - 3) + i]
  {
    WindowsOnLeaves(t);
  }

  /** Outside border rotation, window l (l < 3) reads the FRONT side's leaf l as begin(leaf) finds it. */
  lemma WindowReadsFront(g: GameState, leaf: Leaf, i: nat)
    requires g.Valid() && g.front.Mode() != BorderRotation && leaf.IsSection() && i < N
    ensures Window(GameCells(g), leaf.Code())[i] == LeafColors(g.front, leaf)[i]
  {
    FrontCell(g, leaf, i);
    WindowCell(GameCells(g), leaf.Code(), i);
  }

  /** Outside border rotation, window 3 + l reads the BACK side's leaf l as begin(leaf) finds it. */
  lemma WindowReadsBack(g: GameState, leaf: Leaf, i: nat)
    requires g.Valid() && g.back.Mode() != BorderRotation && leaf.IsSection() && i < N
    ensures Window(GameCells(g), 3 + leaf.Code())[i] == LeafColors(g.back, leaf)[i]
  {
    BackCell(g, leaf, i);
    WindowCell(GameCells(g), 3 + leaf.Code(), i);
  }

  /** begin(leaf) on a new side reads the leaf's block of the array in order. */
  lemma NewSideLeafColors(ms: seq<Marble>, leaf: Leaf, i: nat)
    requires |ms| == NMarbles && leaf.IsSection() && i < N
    ensures LeafColors(NewSide(ms), leaf)[i] == ms[N * leaf.Code() + i].color
  {
    NewSideLeaf(ms, leaf);
  }

  /** The leaf of slot N c + i is c. */
  lemma SlotLeaf(c: nat, i: nat)
    requires i < N
    ensures (N * c + i) / N == c
  {
  }

  /** begin(leaf) on the default FRONT side reads ten marbles of the leaf's colour. */
  lemma DefaultFrontLeaf(leaf: Leaf, i: nat)
    requires leaf.IsSection() && i < N
    ensures LeafColors(NewSide(FrontMarbles()), leaf)[i] == FrontColor(leaf.Code())
  {
    NewSideLeafColors(FrontMarbles(), leaf, i);
    SlotLeaf(leaf.Code(), i);
  }

  /** begin(leaf) on the default BACK side reads ten marbles of the leaf's colour. */
  lemma DefaultBackLeaf(leaf: Leaf, i: nat)
    requires leaf.IsSection() && i < N
    ensures LeafColors(NewSide(BackMarbles()), leaf)[i] == BackColor(leaf.Code())
  {
    NewSideLeafColors(BackMarbles(), leaf, i);
    SlotLeaf(leaf.Code(), i);
  }

  /** The sides of the default game. */
  predicate DefaultSides(g: GameState) {
    g.front == NewSide(FrontMarbles()) && g.back == NewSide(BackMarbles())
  }

  /** With the default FRONT side, window l reads ten marbles of leaf l's colour. */
  lemma DefaultFrontWindow(g: GameState, leaf: Leaf, i: nat)
    requires g.Valid() && g.front == NewSide(FrontMarbles()) && leaf.IsSection() && i < N
    ensures Window(GameCells(g), leaf.Code())[i] == FrontColor(leaf.Code())
  {
    WindowReadsFront(g, leaf, i);
    DefaultFrontLeaf(leaf, i);
  }

  /** With the default BACK side, window 3 + l reads ten marbles of leaf l's colour. */
  lemma DefaultBackWindow(g: GameState, leaf: Leaf, i: nat)
    requires g.Valid() && g.back == NewSide(BackMarbles()) && leaf.IsSection() && i < N
    ensures Window(GameCells(g), 3 + leaf.Code())[i] == BackColor(leaf.Code())
  {
    WindowReadsBack(g, leaf, i);
    DefaultBackLeaf(leaf, i);
  }

  /** In the default game, cell i of window t has the colour of that leaf. */
  lemma DefaultWindowCell(g: GameState, t: nat, i: nat)
    requires g.Valid() && DefaultSides(g) && t < NWindows && i < N
    ensures Window(GameCells(g), t)[i] == DefaultWindowColor(t)
  {
    if t < 3 {
      DefaultFrontWindows(g, t, i);
    } else {
      DefaultBackWindows(g, t, i);
    }
  }

  /** The FRONT half of DefaultWindowCell. */
  lemma DefaultFrontWindows(g: GameState, t: nat, i: nat)
    requires g.Valid() && DefaultSides(g) && t < 3 && i < N
    ensures Window(GameCells(g), t)[i] == DefaultWindowColor(t)
  {
    var leaf := WindowLeaf(t);
    assert leaf.Code() == t;
    DefaultFrontWindow(g, leaf, i);
  }

  /** The BACK half of DefaultWindowCell. */
  lemma DefaultBackWindows(g: GameState, t: nat, i: nat)
    requires g.Valid() && DefaultSides(g) && 3 <= t < NWindows && i < N
    ensures Window(GameCells(g), t)[i] == DefaultWindowColor(t)
  {
    var leaf := WindowLeaf(t);
    assert 3 + leaf.Code() == t;
    DefaultBackWindow(g, leaf, i);
  }

  /** Each default window's colour has its own class: window t is class t. */
  lemma DefaultClasses(t: nat)
    requires t < NWindows
    ensures ColorIndex(DefaultWindowColor(t)) == t
  {
  }

  /** In the default game, window t counts ten in class t and nothing elsewhere. */
  lemma DefaultCount(g: GameState, t: nat, k: nat)
    requires g.Valid() && DefaultSides(g) && t < NWindows
    ensures Count(Window(GameCells(g), t), k) == if k == t then N else 0
  {
    var w := Window(GameCells(g), t);
    forall i | 0 <= i < N
      ensures w[i] == DefaultWindowColor(t)
    {
      DefaultWindowCell(g, t, i);
    }
    CountUniform(w, DefaultWindowColor(t), k);
    DefaultClasses(t);
  }

  /** Six classes that each reach ten in some window give the full numerator. */
  lemma FullScore(cells: seq<Color>)
    requires |cells| == StepArraySize
    requires forall k :: 0 <= k < NClasses ==> MaxCount(cells, k, NWindows) == N
    ensures Numerator(cells) == N * NWindows
  {
    assert MaxSum(cells, 1) == 10;
    assert MaxSum(cells, 2) == 20;
    assert MaxSum(cells, 3) == 30;
    assert MaxSum(cells, 4) == 40;
    assert MaxSum(cells, 5) == 50;
  }

  /** With the default sides, each class reaches ten in its own window. */
  lemma DefaultMax(g: GameState, k: nat)
    requires g.Valid() && DefaultSides(g) && k < NClasses
    ensures MaxCount(GameCells(g), k, NWindows) == N
  {
    MaxCountBounds(GameCells(g), k, NWindows);
    DefaultCount(g, k, k);
  }

  /**
   * A game whose sides are the canonical ones scores exactly 1, whatever its
   * active side and spin progress: the default game and any game after reset.
   */
  lemma DefaultSidesScore(g: GameState)
    requires g.Valid() && DefaultSides(g)
    ensures Numerator(GameCells(g)) == N * NWindows
  {
    forall k | 0 <= k < NClasses
      ensures MaxCount(GameCells(g), k, NWindows) == N
    {
      DefaultMax(g, k);
    }
    FullScore(GameCells(g));
  }

  /** The default game scores exactly 1, and so does every game after reset. */
  lemma DefaultScore(g: GameState)
    requires g.Valid()
    ensures Numerator(GameCells(DefaultGame())) == N * NWindows
    ensures Numerator(GameCells(Reset(g))) == N * NWindows
  {
    DefaultSidesScore(DefaultGame());
    DefaultSidesScore(Reset(g));
  }

  /** The first loop of naive_disorder: the class counts of the six windows. */
  method CountWindows(step: array<Color>) returns (treefoils: array2<nat>)
    requires step.Length == StepArraySize
    ensures treefoils.Length0 == NWindows && treefoils.Length1 == NClasses
    ensures forall t, k :: 0 <= t < NWindows && 0 <= k < NClasses ==> treefoils[t, k] == Count(Window(step[..], t), k)
  {
    treefoils := new nat[NWindows, NClasses]((_, _) => 0);
    var treefoil := 0;
    while treefoil < NWindows
      invariant 0 <= treefoil <= NWindows
      invariant forall t, k :: 0 <= t < treefoil && 0 <= k < NClasses ==> treefoils[t, k] == Count(Window(step[..], t), k)
      invariant forall t, k :: treefoil <= t < NWindows && 0 <= k < NClasses ==> treefoils[t, k] == 0
    {
      CountWindow(step, treefoils, treefoil);
      treefoil := treefoil + 1;
    }
  }

  /** One pass of that loop: the counts of window treefoil, its row starting at zero. */
  method CountWindow(step: array<Color>, treefoils: array2<nat>, treefoil: nat)
    requires step.Length == StepArraySize && treefoil < NWindows
    requires treefoils.Length0 == NWindows && treefoils.Length1 == NClasses
    requires forall k :: 0 <= k < NClasses ==> treefoils[treefoil, k] == 0
    modifies treefoils
    ensures forall t, k :: 0 <= t < NWindows && t != treefoil && 0 <= k < NClasses ==> treefoils[t, k] == old(treefoils[t, k])
    ensures forall k :: 0 <= k < NClasses ==> treefoils[treefoil, k] == Count(Window(step[..], treefoil), k)
  {
    ghost var cells := step[..];
    var start := 1 + treefoil * 13 - (if treefoil >= 3 then 1 else 0);
    WindowsOnLeaves(treefoil);
    var index := 0;
    while index < N
      invariant 0 <= index <= N
      invariant forall t, k :: 0 <= t < NWindows && t != treefoil && 0 <= k < NClasses ==> treefoils[t, k] == old(treefoils[t, k])
      invariant forall k :: 0 <= k < NClasses ==> treefoils[treefoil, k] == Count(cells[start..start + index], k)
    {
      var color := ColorIndex(step[start + index]);
      treefoils[treefoil, color] := treefoils[treefoil, color] + 1;
      assert cells[start..start + index + 1][..index] == cells[start..start + index];
      index := index + 1;
    }
    assert cells[start..start + N] == Window(cells, treefoil);
  }

  /** The second loop of naive_disorder: the best count of each class over the windows. */
  method MaxColors(cells: seq<Color>, treefoils: array2<nat>) returns (maxColors: array<nat>)
    requires |cells| == StepArraySize && treefoils.Length0 == NWindows && treefoils.Length1 == NClasses
    requires forall t, k :: 0 <= t < NWindows && 0 <= k < NClasses ==> treefoils[t, k] == Count(Window(cells, t), k)
    ensures maxColors.Length == NClasses
    ensures forall k :: 0 <= k < NClasses ==> maxColors[k] == MaxCount(cells, k, NWindows)
  {
    maxColors := new nat[NClasses](_ => 0);
    var treefoil := 0;
    while treefoil < NWindows
      invariant 0 <= treefoil <= NWindows
      invariant forall k :: 0 <= k < NClasses ==> maxColors[k] == MaxCount(cells, k, treefoil)
    {
      var colors := 0;
      while colors < NClasses
        invariant 0 <= colors <= NClasses
        invariant forall k :: 0 <= k < colors ==> maxColors[k] == MaxCount(cells, k, treefoil + 1)
        invariant forall k :: colors <= k < NClasses ==> maxColors[k] == MaxCount(cells, k, treefoil)
      {
        maxColors[colors] := if treefoils[treefoil, colors] > maxColors[colors] then treefoils[treefoil, colors] else maxColors[colors];
        colors := colors + 1;
      }
      treefoil := treefoil + 1;
    }
  }

  /** The last loop of naive_disorder: the best counts added up. */
  method SumColors(cells: seq<Color>, maxColors: array<nat>) returns (disorder: nat)
    requires |cells| == StepArraySize && maxColors.Length == NClasses
    requires forall k :: 0 <= k < NClasses ==> maxColors[k] == MaxCount(cells, k, NWindows)
    ensures disorder == Numerator(cells)
  {
    disorder := 0;
    var colors := 0;
    while colors < NClasses
      invariant 0 <= colors <= NClasses && disorder == MaxSum(cells, colors)
    {
      disorder := disorder + maxColors[colors];
      colors := colors + 1;
    }
  }

  /** naive_disorder: the summed best counts over 60; the game is only read. */
  method NaiveDisorder(game: SpinPuzzleGame) returns (disorder: real)
    requires game.Valid()
    ensures disorder == Numerator(GameCells(game.State())) as real / 60.0
    ensures 0.0 < disorder <= 1.0
  {
    var currentStep := game.CurrentTimeStep();
    var treefoils := CountWindows(currentStep);
    var maxColors := MaxColors(currentStep[..], treefoils);
    var sum := SumColors(currentStep[..], maxColors);
    NumeratorBounds(currentStep[..]);
    disorder := sum as real / 60.0;
  }
}
