/** Day 10, part 2 (10-2/main.go): the same search as 10-1, returning the
    set of height-9 cells reachable by a trail instead of the number of
    trails. Go's nil map is None; a non-nil map is the set of its keys. */
module DistinctPeaks {
  import opened Vectors
  import opened Trails

  datatype Option<T> = None | Some(value: T)

  /** The keys of a possibly nil map. */
  function Elems(m: Option<set<Vector>>): set<Vector>
  {
    if m.None? then {} else m.value
  }

  /** MergeMaps: nil on the right gives the left back unchanged; otherwise
      the right map's keys are copied into the left one (made if nil). */
  function MergeMaps(m1: Option<set<Vector>>, m2: Option<set<Vector>>): (r: Option<set<Vector>>)
  {
    if m2.None? then m1 else Some(Elems(m1) + m2.value)
  }

  /** The peaks reachable from v, given the previous height. */
  function SearchBoard(board: seq<seq<int>>, v: Vector, hPrev: int): Option<set<Vector>>
    requires ValidBoard(board)
    decreases 9 - hPrev
  {
    if IsOutOfBounds(board, v) then None
    else
      var h := Height(board, v);
      if h != hPrev + 1 then None
      else if h == 9 then Some({v})
      else
        var s := Steps(v);
        var ret := MergeMaps(None, SearchBoard(board, s[0], h));
        var ret := MergeMaps(ret, SearchBoard(board, s[1], h));
        var ret := MergeMaps(ret, SearchBoard(board, s[2], h));
        MergeMaps(ret, SearchBoard(board, s[3], h))
  }

  function ScoreTrailhead(board: seq<seq<int>>, v: Vector): nat
    requires ValidBoard(board)
  {
    |Elems(SearchBoard(board, v, -1))|
  }

  /** The last cells of a set of trails. */
  function Ends(s: set<seq<Vector>>): set<Vector>
  {
    set p | p in s && |p| >= 1 :: p[|p| - 1]
  }

  // ---------------------------------------------------------------------
  // Properties

  /** Merging gives the union of the keys, and a nil right-hand side leaves
      the left-hand map as it was. */
  lemma MergeIsUnion(m1: Option<set<Vector>>, m2: Option<set<Vector>>)
    ensures Elems(MergeMaps(m1, m2)) == Elems(m1) + Elems(m2)
    ensures m2.None? ==> MergeMaps(m1, m2) == m1
  {
  }

  lemma EndsOfUnion(a: set<seq<Vector>>, b: set<seq<Vector>>)
    ensures Ends(a + b) == Ends(a) + Ends(b)
  {
  }

  lemma EndsOfPrepend(v: Vector, s: set<seq<Vector>>)
    requires forall p :: p in s ==> |p| >= 1
    ensures Ends(Prepend(v, s)) == Ends(s)
  {
    forall u | u in Ends(s)
      ensures u in Ends(Prepend(v, s))
    {
      var p :| p in s && |p| >= 1 && p[|p| - 1] == u;
      assert ([v] + p)[|[v] + p| - 1] == u;
    }
  }

  /** The peaks found are exactly the ends of the trails from v that 10-1
      counts. */
  lemma {:induction false} PeaksAreTrailEnds(board: seq<seq<int>>, v: Vector, hPrev: int)
    requires ValidBoard(board)
    ensures Elems(SearchBoard(board, v, hPrev)) == Ends(TrailsFrom(board, v, hPrev))
    decreases 9 - hPrev
  {
    if !IsOutOfBounds(board, v) {
      var h := Height(board, v);
      if h == hPrev + 1 && h != 9 {
        var s := Steps(v);
        forall k | 0 <= k < 4
          ensures Elems(SearchBoard(board, s[k], h)) == Ends(Prepend(v, TrailsFrom(board, s[k], h)))
        {
          PeaksAreTrailEnds(board, s[k], h);
          forall p | p in TrailsFrom(board, s[k], h)
            ensures |p| >= 1
          {
            TrailsFromSound(board, s[k], h, p);
          }
          EndsOfPrepend(v, TrailsFrom(board, s[k], h));
        }
        var a0, a1, a2, a3 := Prepend(v, TrailsFrom(board, s[0], h)), Prepend(v, TrailsFrom(board, s[1], h)),
          Prepend(v, TrailsFrom(board, s[2], h)), Prepend(v, TrailsFrom(board, s[3], h));
        EndsOfUnion(a0, a1);
        EndsOfUnion(a0 + a1, a2);
        EndsOfUnion(a0 + a1 + a2, a3);
      }
    }
  }

  /** Each peak found is a height-9 cell on the board. */
  lemma PeaksAreNines(board: seq<seq<int>>, v: Vector, u: Vector)
    requires ValidBoard(board) && u in Elems(SearchBoard(board, v, -1))
    ensures !IsOutOfBounds(board, u) && Height(board, u) == 9
  {
    PeaksAreTrailEnds(board, v, -1);
    var p :| p in TrailsFrom(board, v, -1) && |p| >= 1 && p[|p| - 1] == u;
    TrailsFromSound(board, v, -1, p);
  }

  /** Distinct peaks are never more than trails: the 10-2 score of a
      trailhead is at most its 10-1 score. */
  lemma ScoreAtMostTrailCount(board: seq<seq<int>>, v: Vector)
    requires ValidBoard(board)
    ensures ScoreTrailhead(board, v) <= Trails.ScoreTrailhead(board, v)
  {
    PeaksAreTrailEnds(board, v, -1);
    EndsAtMost(TrailsFrom(board, v, -1));
    SearchCountsTrails(board, v, -1);
  }

  /** A set of trails has no more ends than members. */
  lemma {:induction false} EndsAtMost(s: set<seq<Vector>>)
    ensures |Ends(s)| <= |s|
    decreases |s|
  {
    if s != {} {
      var x :| x in s;
      var s' := s - {x};
      EndsAtMost(s');
      assert s == s' + {x};
      EndsOfUnion(s', {x});
      assert Ends(s) <= Ends(s') + Ends({x});
      assert |Ends({x})| <= 1 by {
        assert Ends({x}) == if |x| >= 1 then {x[|x| - 1]} else {};
      }
    }
  }
}
