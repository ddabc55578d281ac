/**
 * The colour snapshot current_time_step writes (src/puzzle/spin_puzzle_side.h,
 * src/puzzle/spin_puzzle_game.cpp): a run of cells, each either a colour to
 * write or a cell to skip, laid over an output buffer from a start index.
 */
module Cells {
  import opened Wrappers
  import opened Definitions
  import opened Marbles

  /** The buffer after writing the run of cells from start: skipped cells keep their colour. */
  function Overlay(base: seq<Color>, start: nat, cells: seq<Option<Color>>): (r: seq<Color>)
    ensures |r| == |base|
    decreases |cells|
  {
    if cells == [] then base
    else
      var next := if start < |base| && cells[0].Some? then base[start := cells[0].value] else base;
      Overlay(next, start + 1, cells[1..])
  }

  /** Outside the run a cell keeps its colour; inside, it takes the run's colour unless the run skips it. */
  lemma {:induction false} OverlayAt(base: seq<Color>, start: nat, cells: seq<Option<Color>>, k: nat)
    requires k < |base|
    ensures k < start || k >= start + |cells| ==> Overlay(base, start, cells)[k] == base[k]
    ensures start <= k < start + |cells| ==>
              Overlay(base, start, cells)[k] == (if cells[k - start].Some? then cells[k - start].value else base[k])
    decreases |cells|
  {
    if cells != [] {
      var next := if start < |base| && cells[0].Some? then base[start := cells[0].value] else base;
      OverlayAt(next, start + 1, cells[1..], k);
      if start < k < start + |cells| {
        assert cells[1..][k - (start + 1)] == cells[k - start];
      }
    }
  }

  /** Writing a run and then the next run is writing their concatenation. */
  lemma OverlayConcat(base: seq<Color>, start: nat, a: seq<Option<Color>>, b: seq<Option<Color>>)
    ensures Overlay(Overlay(base, start, a), start + |a|, b) == Overlay(base, start, a + b)
  {
    var l := Overlay(Overlay(base, start, a), start + |a|, b);
    var r := Overlay(base, start, a + b);
    forall k | 0 <= k < |base|
      ensures l[k] == r[k]
    {
      OverlayAt(base, start, a, k);
      OverlayAt(Overlay(base, start, a), start + |a|, b, k);
      OverlayAt(base, start, a + b, k);
      if start <= k < start + |a| {
        assert (a + b)[k - start] == a[k - start];
      } else if start + |a| <= k < start + |a| + |b| {
        assert (a + b)[k - start] == b[k - start - |a|];
      }
    }
  }

  /** A run of skipped cells changes nothing. */
  lemma OverlaySkip(base: seq<Color>, start: nat, gap: seq<Option<Color>>)
    requires forall i :: 0 <= i < |gap| ==> gap[i].None?
    ensures Overlay(base, start, gap) == base
  {
    forall k | 0 <= k < |base|
      ensures Overlay(base, start, gap)[k] == base[k]
    {
      OverlayAt(base, start, gap, k);
    }
  }

  /** Writing one more colour at the end of a run updates one cell. */
  lemma OverlayPush(base: seq<Color>, start: nat, a: seq<Option<Color>>, c: Color)
    requires start + |a| < |base|
    ensures Overlay(base, start, a + [Some(c)]) == Overlay(base, start, a)[start + |a| := c]
  {
    var l := Overlay(base, start, a + [Some(c)]);
    var r := Overlay(base, start, a)[start + |a| := c];
    forall k | 0 <= k < |base|
      ensures l[k] == r[k]
    {
      OverlayAt(base, start, a + [Some(c)], k);
      OverlayAt(base, start, a, k);
      if start <= k < start + |a| {
        assert (a + [Some(c)])[k - start] == a[k - start];
      }
    }
  }

  /** The colours of a run of marbles, each written to its own cell. */
  function Painted(ms: seq<Marble>): (cells: seq<Option<Color>>)
    ensures |cells| == |ms|
    ensures forall i :: 0 <= i < |ms| ==> cells[i] == Some(ms[i].color)
  {
    if ms == [] then [] else [Some(ms[0].color)] + Painted(ms[1..])
  }

  /** Painting one more marble appends its colour. */
  lemma PaintedPush(ms: seq<Marble>, x: Marble)
    ensures Painted(ms + [x]) == Painted(ms) + [Some(x.color)]
  {
    var l, r := Painted(ms + [x]), Painted(ms) + [Some(x.color)];
    assert |l| == |r|;
    forall i | 0 <= i < |l|
      ensures l[i] == r[i]
    {
      if i < |ms| {
        assert (ms + [x])[i] == ms[i];
      }
    }
  }

  /** The three cells current_time_step skips between two runs. */
  const Gap: seq<Option<Color>> := [None, None, None]

  /** Writing a run, skipping the gap and writing the next run is writing the gapped concatenation. */
  lemma OverlayGapped(base: seq<Color>, start: nat, a: seq<Option<Color>>, b: seq<Option<Color>>)
    ensures Overlay(Overlay(base, start, a), start + |a| + |Gap|, b) == Overlay(base, start, a + Gap + b)
  {
    OverlayConcat(base, start, a, Gap);
    OverlaySkip(Overlay(base, start, a), start + |a|, Gap);
    OverlayConcat(base, start, a + Gap, b);
  }

  /** A gapped pair of runs written after a run, at and at2, extends that run. */
  lemma OverlayExtend(base: seq<Color>, start: nat, r: seq<Option<Color>>, a: seq<Option<Color>>, b: seq<Option<Color>>,
                      at: nat, at2: nat, before: seq<Color>, between: seq<Color>, after: seq<Color>, whole: seq<Option<Color>>)
    requires whole == r + (a + Gap + b)
    requires at == start + |r| && at2 == at + |a| + 3
    requires before == Overlay(base, start, r)
    requires between == Overlay(before, at, a)
    requires after == Overlay(between, at2, b)
    ensures after == Overlay(base, start, whole)
  {
    assert at2 == at + |a| + |Gap|;
    OverlayGapped(before, at, a, b);
    OverlayConcat(base, start, r, a + Gap + b);
    assert after == Overlay(before, at, a + Gap + b);
  }
}
