/**
 * The iterator of a puzzle side (src/puzzle/spin_puzzle_side.h): a cursor that
 * walks circularly inside one leaf of ten marbles, or inside the whole ring of
 * thirty marbles for TREFOIL, and that stands still while a leaf is spinning.
 * It also holds the side's geometric constants and the arithmetic of begin().
 */
module SideIterator {
  import opened Definitions
  import opened Angles

  /** N: marbles in one leaf. */
  const N: nat := 10
  /** M: marbles of a leaf shared with the internal disk. */
  const M: nat := 3
  /** N_MARBLES: marbles on one side. */
  const NMarbles: nat := 30
  /** DTHETA: angle between two consecutive marbles of a leaf. */
  const DTheta: real := 36.0
  /** TOLLERANCE_ANGLE. */
  const Tolerance: real := 5.0

  datatype Iterator = Iterator(leaf: Leaf, lo: nat, len: nat, cur: nat, mode: TrefoilStatus, angle: real) {
    /** The range lies inside the side's marbles and the cursor inside the range. */
    predicate Valid() {
      (len == 10 || len == 30) && lo + len <= NMarbles && cur < len
    }

    /** The index of the marble the iterator designates. */
    function Slot(): (k: nat)
      requires Valid()
      ensures lo <= k < lo + len
    {
      lo + cur
    }

    /**
     * operator+=: a circular move inside the range; an offset of zero, or an
     * iterator made while a leaf spins, does not move.
     */
    function Plus(offset: int): (r: Iterator)
      requires Valid()
      ensures r.Valid()
      ensures r == this.(cur := r.cur)
      ensures r.cur == if offset == 0 || mode == LeafSpinning then cur else Wrap(cur + offset, len)
    {
      if offset == 0 || mode == LeafSpinning then this
      else if len == 10 then this.(cur := StepCursor(cur, offset, 10))
      else this.(cur := StepCursor(cur, offset, 30))
    }
  }

  /** The Euclidean remainder modulo a range length, with the length written as a literal. */
  function Wrap(x: int, n: nat): (r: nat)
    requires n == 10 || n == 30
    ensures r < n
  {
    if n == 10 then x % 10 else x % 30
  }

  /**
   * The steps of operator+= on a range of n marbles: a negative offset is
   * brought into [0, n) with C's truncating %, a large one reduced, and a move
   * past the range's end continues from its start.
   */
  function StepCursor(cur: nat, offset: int, n: nat): (c: nat)
    requires (n == 10 || n == 30) && cur < n
    ensures c == Wrap(cur + offset, n)
  {
    var off1 := if offset < 0 then (CRem(offset, n) + n) % n else offset;
    var off := if off1 >= n then off1 % n else off1;
    var remaining := n - cur;
    PlusOffset(offset, n, cur);
    if off < remaining then cur + off else off - remaining
  }

  /** The reduced offset operator+= computes is the Euclidean remainder, and the wrap lands on it. */
  lemma PlusOffset(offset: int, n: int, cur: int)
    requires (n == 10 || n == 30) && 0 <= cur < n
    ensures var off1 := if offset < 0 then (CRem(offset, n) + n) % n else offset;
            var off := if off1 >= n then off1 % n else off1;
            off == offset % n &&
            (off < n - cur ==> cur + off == (cur + offset) % n) &&
            (off >= n - cur ==> off - (n - cur) == (cur + offset) % n)
  {
    if n == 10 {
      PlusOffset10(offset, cur);
    } else {
      PlusOffset30(offset, cur);
    }
  }

  lemma PlusOffset10(offset: int, cur: int)
    requires 0 <= cur < 10
    ensures var off1 := if offset < 0 then (CRem(offset, 10) + 10) % 10 else offset;
            var off := if off1 >= 10 then off1 % 10 else off1;
            off == offset % 10 &&
            (off < 10 - cur ==> cur + off == (cur + offset) % 10) &&
            (off >= 10 - cur ==> off - (10 - cur) == (cur + offset) % 10)
  {
  }

  lemma PlusOffset30(offset: int, cur: int)
    requires 0 <= cur < 30
    ensures var off1 := if offset < 0 then (CRem(offset, 30) + 30) % 30 else offset;
            var off := if off1 >= 30 then off1 % 30 else off1;
            off == offset % 30 &&
            (off < 30 - cur ==> cur + off == (cur + offset) % 30) &&
            (off >= 30 - cur ==> off - (30 - cur) == (cur + offset) % 30)
  {
  }

  /** Remainder facts for the two range lengths (a literal modulus keeps them linear). */
  lemma ModShift(a: int, d: int, n: nat)
    requires n == 10 || n == 30
    ensures Wrap(Wrap(a, n) + d, n) == Wrap(a + d, n)
  {
    if n == 10 {
      ModShift10(a, d);
    } else {
      ModShift30(a, d);
    }
  }

  lemma ModShift10(a: int, d: int)
    ensures (a % 10 + d) % 10 == (a + d) % 10
  {
  }

  lemma ModShift30(a: int, d: int)
    ensures (a % 30 + d) % 30 == (a + d) % 30
  {
  }

  lemma ModWrap(cur: int, j: int, n: nat)
    requires n == 10 || n == 30
    requires 0 <= cur < n && 0 <= j < n
    ensures Wrap(cur + j, n) == if j < n - cur then cur + j else cur + j - n
  {
    if n == 10 {
      assert (cur + j) % 10 == if j < 10 - cur then cur + j else cur + j - 10;
    } else {
      assert (cur + j) % 30 == if j < 30 - cur then cur + j else cur + j - 30;
    }
  }

  /** The range of a section: ten marbles per leaf, the whole ring for TREFOIL. */
  function RangeStart(leaf: Leaf): (lo: nat)
    requires leaf.IsSection() || leaf == Trefoil
    ensures leaf == Trefoil ==> lo == 0
    ensures leaf.IsSection() ==> lo == leaf.Code() * N
  {
    if leaf == Trefoil then 0 else leaf.Code() * N
  }

  function RangeLength(leaf: Leaf): (n: nat)
    requires leaf.IsSection() || leaf == Trefoil
    ensures leaf == Trefoil ==> n == NMarbles
    ensures leaf.IsSection() ==> n == N
  {
    if leaf == Trefoil then NMarbles else N
  }

  /**
   * iterator(leaf, marbles, status, pos, angle): the cursor starts at the
   * range's first marble and is then moved by pos.
   */
  function MakeIterator(leaf: Leaf, mode: TrefoilStatus, pos: int, angle: real): (it: Iterator)
    requires leaf.IsSection() || leaf == Trefoil
    ensures it.Valid() && it.leaf == leaf && it.mode == mode && it.angle == angle
    ensures it.lo == RangeStart(leaf) && it.len == RangeLength(leaf)
    ensures it.cur == if mode == LeafSpinning then 0 else Wrap(pos, it.len)
  {
    Iterator(leaf, RangeStart(leaf), RangeLength(leaf), 0, mode, angle).Plus(pos)
  }

  /** The iterator after k applications of operator++. */
  function Advance(it: Iterator, k: nat): (r: Iterator)
    requires it.Valid()
    ensures r.Valid()
  {
    if k == 0 then it else Advance(it, k - 1).Plus(1)
  }

  /** The iterator after k applications of operator--. */
  function Retreat(it: Iterator, k: nat): (r: Iterator)
    requires it.Valid()
    ensures r.Valid()
  {
    if k == 0 then it else Retreat(it, k - 1).Plus(-1)
  }

  /** k increments move the cursor k places round the range, except while spinning. */
  lemma {:induction false} AdvanceCursor(it: Iterator, k: nat)
    requires it.Valid()
    ensures Advance(it, k) == it.(cur := Advance(it, k).cur)
    ensures Advance(it, k).cur == if it.mode == LeafSpinning then it.cur else Wrap(it.cur + k, it.len)
  {
    if k > 0 {
      AdvanceCursor(it, k - 1);
      ModShift(it.cur + k - 1, 1, it.len);
    }
  }

  /** k decrements move the cursor k places back round the range, except while spinning. */
  lemma {:induction false} RetreatCursor(it: Iterator, k: nat)
    requires it.Valid()
    ensures Retreat(it, k) == it.(cur := Retreat(it, k).cur)
    ensures Retreat(it, k).cur == if it.mode == LeafSpinning then it.cur else Wrap(it.cur - k, it.len)
  {
    if k > 0 {
      RetreatCursor(it, k - 1);
      ModShift(it.cur - (k - 1), -1, it.len);
    }
  }

  /** The values met by reading from it and incrementing, count times. */
  function Walk<T>(s: seq<T>, it: Iterator, count: nat): (r: seq<T>)
    requires it.Valid() && |s| == NMarbles
    ensures |r| == count
  {
    if count == 0 then [] else Walk(s, it, count - 1) + [s[Advance(it, count - 1).Slot()]]
  }

  /** The j-th value of a walk is the one under the cursor after j increments. */
  lemma {:induction false} WalkAt<T>(s: seq<T>, it: Iterator, count: nat, j: nat)
    requires it.Valid() && |s| == NMarbles && j < count
    ensures Walk(s, it, count)[j] == s[Advance(it, j).Slot()]
  {
    if j < count - 1 {
      WalkAt(s, it, count - 1, j);
    }
  }

  /**
   * Reading a whole range once, from any starting cursor, meets every marble of
   * the range exactly once: it is the range rotated to start at the cursor.
   */
  lemma {:induction false} WalkRotates<T>(s: seq<T>, it: Iterator)
    requires it.Valid() && |s| == NMarbles && it.mode != LeafSpinning
    ensures Walk(s, it, it.len) == s[it.lo + it.cur .. it.lo + it.len] + s[it.lo .. it.lo + it.cur]
  {
    var w := Walk(s, it, it.len);
    var a := s[it.lo + it.cur .. it.lo + it.len];
    var b := s[it.lo .. it.lo + it.cur];
    var r := a + b;
    forall j | 0 <= j < it.len
      ensures w[j] == r[j]
    {
      WalkWraps(s, it, j);
    }
    assert w == r;
  }

  lemma {:induction false} WalkWraps<T>(s: seq<T>, it: Iterator, j: nat)
    requires it.Valid() && |s| == NMarbles && it.mode != LeafSpinning && j < it.len
    ensures Walk(s, it, it.len)[j] == if j < it.len - it.cur then s[it.lo + it.cur + j] else s[it.lo + it.cur + j - it.len]
  {
    AdvanceCursor(it, j);
    ModWrap(it.cur, j, it.len);
    WalkAt(s, it, it.len, j);
  }

  lemma {:induction false} WalkPermutes<T>(s: seq<T>, it: Iterator)
    requires it.Valid() && |s| == NMarbles && it.mode != LeafSpinning
    ensures multiset(Walk(s, it, it.len)) == multiset(s[it.lo .. it.lo + it.len])
  {
    var lo, mid, hi := it.lo, it.lo + it.cur, it.lo + it.len;
    var a := s[lo .. mid];
    var b := s[mid .. hi];
    var u := s[lo .. hi];
    assert u[it.cur..] == b;
    assert u[..it.cur] == a;
    WalkRotates(s, it);
    SwapHalves(u, it.cur);
  }

  lemma SwapHalves<T>(u: seq<T>, k: nat)
    requires k <= |u|
    ensures multiset(u[k..] + u[..k]) == multiset(u)
  {
    assert u == u[..k] + u[k..];
    calc {
      multiset(u[k..] + u[..k]);
      multiset(u[k..]) + multiset(u[..k]);
      multiset(u[..k] + u[k..]);
    }
  }

  /** A walk from the range's first marble reads the range in order. */
  lemma {:induction false} WalkFromStart<T>(s: seq<T>, it: Iterator)
    requires it.Valid() && |s| == NMarbles && it.mode != LeafSpinning && it.cur == 0
    ensures Walk(s, it, it.len) == s[it.lo .. it.lo + it.len]
  {
    WalkRotates(s, it);
  }

  /**
   * The cursor position begin() computes: the marble whose sector, of width
   * step and centred on it, holds the phase theta, counted backwards.
   */
  function BeginPos(theta: real, step: real): (pos: int)
    requires step > 0.0
  {
    var t := FMod(theta + step / 2.0 + 360.0, 360.0);
    -FloorSteps(t, step)
  }

  /** The local angle begin() reports: the phase left over after pos whole steps. */
  function BeginAngle(theta: real, step: real): (alpha: real)
    requires step > 0.0
  {
    theta + BeginPos(theta, step) as real * step
  }

  /** The width of one marble's sector: DTHETA, or DTHETA/12 while the ring turns. */
  function StepFor(mode: TrefoilStatus): (step: real)
    ensures step > 0.0
    ensures mode == BorderRotation ==> step * 12.0 == DTheta
    ensures mode != BorderRotation ==> step == DTheta
  {
    if mode == BorderRotation then DTheta / 12.0 else DTheta
  }

  /**
   * For a phase in [0, 360), begin() picks the marble whose sector holds the
   * phase: the local angle lies within half a step of it, except in the last
   * half sector before 360, where the first marble stays and keeps the phase.
   */
  lemma BeginAngleBounds(theta: real, step: real)
    requires step == 36.0 || step == 3.0
    requires 0.0 <= theta < 360.0
    ensures theta < 360.0 - step / 2.0 ==> -step / 2.0 <= BeginAngle(theta, step) < step / 2.0
    ensures theta >= 360.0 - step / 2.0 ==> BeginPos(theta, step) == 0 && BeginAngle(theta, step) == theta
    ensures -(360.0 / step) < BeginPos(theta, step) as real <= 0.0
  {
    var u := theta + step / 2.0 + 360.0;
    var t := FMod(u, 360.0);
    if theta < 360.0 - step / 2.0 {
      FModTurns(u, 1);
      assert t == theta + step / 2.0;
    } else {
      FModTurns(u, 2);
      assert t == theta + step / 2.0 - 360.0;
    }
    var q := FloorSteps(t, step);
    FloorStepsBounds(t, step);
    if step == 36.0 {
      assert q as real * 36.0 <= t < q as real * 36.0 + 36.0;
    } else {
      assert q as real * 3.0 <= t < q as real * 3.0 + 3.0;
    }
  }
}
