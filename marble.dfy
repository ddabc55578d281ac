/**
 * A marble of the puzzle (src/puzzle/spin_marble.h): an identifier and a colour.
 * Marbles cannot be copied, only moved; a moved-from marble is left invalid, so a
 * swap of two marbles never duplicates or loses one.
 */
module Marbles {
  import opened Definitions

  /** INVALID_ID. */
  const InvalidId: int := -1

  datatype Marble = Marble(id: int, color: Color) {
    /** is_valid: a marble with the invalid colour or the invalid id is not valid. */
    predicate IsValid() {
      color != InvalidColor && id != InvalidId
    }
  }

  /** The default-constructed marble: INVALID_ID and INVALID_COLOR. */
  function Default(): (m: Marble)
    ensures !m.IsValid()
  {
    Marble(InvalidId, InvalidColor)
  }

  /**
   * The move constructor applied to a[i]: the new marble takes id and colour,
   * the source is reset to the default marble.
   */
  method MoveOut(a: array<Marble>, i: nat) returns (m: Marble)
    requires i < a.Length
    modifies a
    ensures m == old(a[i])
    ensures a[..] == old(a[..])[i := Default()]
  {
    m := a[i];
    a[i] := Default();
  }

  /** Move assignment dst[i] = std::move(src[j]): dst[i] takes the marble, src[j] is reset. */
  method MoveAssign(dst: array<Marble>, i: nat, src: array<Marble>, j: nat)
    requires i < dst.Length && j < src.Length
    requires dst != src || i != j
    modifies dst, src
    ensures dst[i] == old(src[j])
    ensures src[j] == Default()
    ensures forall k :: 0 <= k < dst.Length && k != i && (dst != src || k != j) ==> dst[k] == old(dst[k])
    ensures forall k :: 0 <= k < src.Length && k != j && (dst != src || k != i) ==> src[k] == old(src[k])
  {
    dst[i] := src[j];
    src[j] := Default();
  }

  /**
   * std::iter_swap on marbles: a move into a temporary and two move assignments.
   * The two marbles are exchanged and no other cell changes.
   */
  method IterSwap(a: array<Marble>, i: nat, b: array<Marble>, j: nat)
    requires i < a.Length && j < b.Length
    modifies a, b
    ensures a == b ==> a[..] == Swap(old(a[..]), i, j)
    ensures a != b ==> a[..] == old(a[..])[i := old(b[j])] && b[..] == old(b[..])[j := old(a[i])]
  {
    if a == b && i == j {
      // a self-move leaves the marble in place
      return;
    }
    var tmp := MoveOut(a, i);
    MoveAssign(a, i, b, j);
    b[j] := tmp;
  }

  /** std::swap of two marble buffers of the same size: a cell-by-cell exchange. */
  method SwapArrays(a: array<Marble>, b: array<Marble>)
    requires a != b && a.Length == b.Length
    modifies a, b
    ensures a[..] == old(b[..]) && b[..] == old(a[..])
  {
    var k := 0;
    while k < a.Length
      invariant 0 <= k <= a.Length
      invariant a[..k] == old(b[..k]) && a[k..] == old(a[k..])
      invariant b[..k] == old(a[..k]) && b[k..] == old(b[k..])
    {
      IterSwap(a, k, b, k);
      k := k + 1;
    }
  }

  /** Exchange of two cells of a sequence: the value form of IterSwap within one array. */
  function Swap<T>(s: seq<T>, i: nat, j: nat): (r: seq<T>)
    requires i < |s| && j < |s|
    ensures |r| == |s| && r[i] == s[j] && r[j] == s[i]
    ensures forall k :: 0 <= k < |s| && k != i && k != j ==> r[k] == s[k]
  {
    s[i := s[j]][j := s[i]]
  }

  /** Swap only trades places: the cells hold the same values as before. */
  lemma SwapPermutes<T>(s: seq<T>, i: nat, j: nat)
    requires i < |s| && j < |s|
    ensures multiset(Swap(s, i, j)) == multiset(s)
  {
    var t := s[i := s[j]];
    assert multiset(t) == multiset(s) - multiset{s[i]} + multiset{s[j]};
    assert multiset(t[j := s[i]]) == multiset(t) - multiset{t[j]} + multiset{s[i]};
  }
}
