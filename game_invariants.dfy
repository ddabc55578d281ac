/**
 * What the game's moves keep (src/puzzle/spin_puzzle_game.cpp): every move
 * only trades marbles between slots and sides, so the sixty marbles of the
 * two sides stay the same; from the default game, check_consistency therefore
 * holds after any sequence of keys, which is what shuffle(seed, n, true)
 * asserts after each key.
 */
module GameInvariants {
  import opened Definitions
  import opened Marbles
  import opened SideIterator
  import opened SideStatus
  import opened SideSpec
  import opened GameSpec
  import opened GameProps

  /** The marbles of both sides together. */
  function AllMarbles(g: GameState): (ms: seq<Marble>)
    requires g.Valid()
    ensures |ms| == 2 * NMarbles
  {
    g.front.marbles + g.back.marbles
  }

  /** A game state in which neither side is in the middle of a leaf spin. */
  predicate NotSpinning(g: GameState)
    requires g.Valid()
  {
    g.front.Mode() != LeafSpinning && g.back.Mode() != LeafSpinning
  }

  /** Replacing one side by a permutation of its marbles keeps the marbles of the game. */
  lemma WithSidePermutes(g: GameState, id: SideId, s: SideState)
    requires g.Valid() && s.Valid() && multiset(s.marbles) == multiset(g.Side(id).marbles)
    ensures multiset(AllMarbles(g.WithSide(id, s))) == multiset(AllMarbles(g))
  {
  }

  /** rotate_marbles and rotate_internal_disk never start a leaf spin. */
  lemma SideMovesNotSpinning(s: SideState, leaf: Leaf, angle: real)
    requires s.Valid() && leaf.IsSection() && s.Mode() != LeafSpinning
    ensures SideSpec.RotateMarbles(s, leaf, angle).1.Mode() != LeafSpinning
    ensures SideSpec.RotateInternalDisk(s, angle).1.Mode() != LeafSpinning
  {
  }

  /**
   * The game's rotate_marbles touches only the active side: a refused turn
   * changes nothing, and any turn keeps the other side, the spin progress,
   * the active side and the selection, keeps the sixty marbles and starts no spin.
   */
  lemma GameRotateMarblesKeeps(g: GameState, leaf: Leaf, angle: real)
    requires g.Valid() && leaf.IsSection()
    ensures var (ok, r) := GameSpec.RotateMarbles(g, leaf, angle);
      (!ok ==> r == g) &&
      r.Side(g.active.Other()) == g.Side(g.active.Other()) &&
      r.active == g.active && r.spin == g.spin && r.section == g.section &&
      multiset(AllMarbles(r)) == multiset(AllMarbles(g)) && (NotSpinning(g) ==> NotSpinning(r))
  {
    var s := g.Side(g.active);
    WithSidePermutes(g, g.active, SideSpec.RotateMarbles(s, leaf, angle).1);
    if NotSpinning(g) {
      SideMovesNotSpinning(s, leaf, angle);
    }
  }

  /** The same for the game's rotate_internal_disk. */
  lemma GameRotateDiskKeeps(g: GameState, angle: real)
    requires g.Valid()
    ensures var (ok, r) := GameSpec.RotateInternalDisk(g, angle);
      (!ok ==> r == g) &&
      r.Side(g.active.Other()) == g.Side(g.active.Other()) &&
      r.active == g.active && r.spin == g.spin && r.section == g.section &&
      multiset(AllMarbles(r)) == multiset(AllMarbles(g)) && (NotSpinning(g) ==> NotSpinning(r))
  {
    var s := g.Side(g.active);
    WithSidePermutes(g, g.active, SideSpec.RotateInternalDisk(s, angle).1);
    if NotSpinning(g) {
      SideMovesNotSpinning(s, North, angle);
    }
  }

  /** Left and Right keep the marbles of the game and start no spin. */
  lemma TurnSelectedKeeps(g: GameState, direction: real, fraction: real)
    requires g.Valid()
    ensures var r := TurnSelected(g, direction, fraction);
      multiset(AllMarbles(r)) == multiset(AllMarbles(g)) && (NotSpinning(g) ==> NotSpinning(r))
  {
    var s := g.Side(g.active);
    if g.section == Center {
      var t := SideSpec.RotateInternalDisk(s, direction * 60.0 * fraction).1;
      WithSidePermutes(g, g.active, t);
      if NotSpinning(g) {
        SideMovesNotSpinning(s, North, direction * 60.0 * fraction);
      }
    } else if g.section.IsSection() {
      var t := SideSpec.RotateMarbles(s, g.section, direction * DTheta * fraction).1;
      WithSidePermutes(g, g.active, t);
      if NotSpinning(g) {
        SideMovesNotSpinning(s, g.section, direction * DTheta * fraction);
      }
    }
  }

  /** Every key keeps the marbles of the game and starts no spin. */
  lemma ProcessKeyKeeps(g: GameState, key: Key, fraction: real)
    requires g.Valid()
    ensures var r := ProcessKey(g, key, fraction).1;
      multiset(AllMarbles(r)) == multiset(AllMarbles(g)) && (NotSpinning(g) ==> NotSpinning(r))
  {
    match key
    case KeyLeft => TurnSelectedKeeps(g, -1.0, fraction);
    case KeyRight => TurnSelectedKeeps(g, 1.0, fraction);
    case _ =>
  }

  /** shuffle keeps the marbles of the game and starts no spin. */
  lemma {:induction false} ShuffleKeeps(g: GameState, keys: seq<Key>)
    requires g.Valid()
    ensures var r := Shuffle(g, keys);
      multiset(AllMarbles(r)) == multiset(AllMarbles(g)) && (NotSpinning(g) ==> NotSpinning(r))
    decreases |keys|
  {
    if keys != [] {
      ProcessKeyKeeps(g, keys[0], 1.0);
      ShuffleKeeps(ProcessKey(g, keys[0], 1.0).1, keys[1..]);
    }
  }

  /** Counting a concatenation counts both parts. */
  lemma {:induction false} CountIdConcat(u: seq<Marble>, v: seq<Marble>, id: int)
    ensures CountId(u + v, id) == CountId(u, id) + CountId(v, id)
    decreases |v|
  {
    if v == [] {
      assert u + v == u;
    } else {
      var v0 := v[..|v| - 1];
      assert (u + v)[..|u + v| - 1] == u + v0;
      assert (u + v)[|u + v| - 1] == v[|v| - 1];
      CountIdConcat(u, v0, id);
    }
  }

  /** Two sequences holding the same marbles count every id alike. */
  lemma {:induction false} CountIdPermutation(a: seq<Marble>, b: seq<Marble>, id: int)
    requires multiset(a) == multiset(b)
    ensures CountId(a, id) == CountId(b, id)
    decreases |a|
  {
    if a != [] {
      var x := a[|a| - 1];
      var a0 := a[..|a| - 1];
      assert a == a0 + [x];
      assert x in multiset(b);
      var p :| 0 <= p < |b| && b[p] == x;
      var b0 := b[..p] + b[p + 1..];
      assert b == b[..p] + [x] + b[p + 1..];
      calc {
        multiset(b);
        multiset(b[..p]) + multiset([x]) + multiset(b[p + 1..]);
        multiset(b0) + multiset{x};
      }
      assert multiset(a) == multiset(a0) + multiset{x};
      assert multiset(a0) == multiset(a) - multiset{x};
      assert multiset(b0) == multiset(b) - multiset{x};
      CountIdPermutation(a0, b0, id);
      CountIdConcat(b[..p] + [x], b[p + 1..], id);
      CountIdConcat(b[..p], [x], id);
      CountIdConcat(b[..p], b[p + 1..], id);
      assert [x][..0] == [];
    }
  }

  /** The default game's sixty marbles carry the ids 0 to 59, each once. */
  lemma DefaultIds(id: int)
    ensures CountId(AllMarbles(DefaultGame()), id) <= 1
    ensures forall m :: m in AllMarbles(DefaultGame()) ==> 0 <= m.id < MaxId
  {
    var w := AllMarbles(DefaultGame());
    assert w == FrontMarbles() + BackMarbles();
    forall i | 0 <= i < |w|
      ensures w[i].id == i
    {
      if i >= NMarbles {
        assert w[i] == BackMarbles()[i - NMarbles];
      }
    }
    CountAtMostOne(w, id);
  }

  /**
   * check_consistency_side holds for a side, not spinning, whose marbles all
   * have ids in [0, 60) and carry no id below 60 twice.
   */
  lemma SideConsistent(s: SideState)
    requires s.Valid() && s.Mode() != LeafSpinning
    requires forall m :: m in s.marbles ==> 0 <= m.id < MaxId
    requires forall id :: 0 <= id < MaxId ==> CountId(s.marbles, id) <= 1
    ensures ConsistentSide(s)
  {
    var w := ConsistencyWalk(s);
    var it := Begin(s, Trefoil);
    WalkPermutes(s.marbles, it);
    assert s.marbles[it.lo..it.lo + it.len] == s.marbles;
    forall j | 0 <= j < NMarbles
      ensures !BadId(w[j])
    {
      assert w[j] in multiset(w);
    }
    forall id | 0 <= id < MaxId
      ensures CountId(w, id) <= 1
    {
      CountIdPermutation(w, s.marbles, id);
    }
  }

  /**
   * A game whose two sides together hold the default game's sixty marbles,
   * with no side in a leaf spin, passes check_consistency.
   */
  lemma PermutedDefaultConsistent(g: GameState)
    requires g.Valid() && NotSpinning(g)
    requires multiset(AllMarbles(g)) == multiset(AllMarbles(DefaultGame()))
    ensures Consistent(g)
  {
    var d := AllMarbles(DefaultGame());
    forall id | 0 <= id < MaxId
      ensures CountId(g.front.marbles, id) <= 1 && CountId(g.back.marbles, id) <= 1
    {
      DefaultIds(id);
      CountIdPermutation(AllMarbles(g), d, id);
      CountIdConcat(g.front.marbles, g.back.marbles, id);
    }
    DefaultIds(0);
    forall m | m in g.front.marbles
      ensures 0 <= m.id < MaxId
    {
      assert m in multiset(AllMarbles(g));
    }
    forall m | m in g.back.marbles
      ensures 0 <= m.id < MaxId
    {
      assert m in multiset(AllMarbles(g));
    }
    SideConsistent(g.front);
    SideConsistent(g.back);
  }

  /** Any sequence of keys from the default game leaves check_consistency true. */
  lemma ShuffleConsistent(keys: seq<Key>)
    ensures Consistent(Shuffle(DefaultGame(), keys))
  {
    ShuffleKeeps(DefaultGame(), keys);
    PermutedDefaultConsistent(Shuffle(DefaultGame(), keys));
  }
}
