/**
 * Greedy non-maximum suppression over detected face boxes. Coordinates, scores and overlaps are exact
 * reals. The ranking is any order of the indices by non-increasing score, since `argsort` leaves the
 * order of equal scores open.
 */
module Nms {

  datatype Box = Box(x1: real, y1: real, x2: real, y2: real, score: real)

  predicate Proper(b: Box) { b.x1 <= b.x2 && b.y1 <= b.y2 }

  function Max(a: real, b: real): real { if a < b then b else a }

  function Min(a: real, b: real): real { if a < b then a else b }

  function Width(b: Box): real { b.x2 - b.x1 + 1.0 }

  function Height(b: Box): real { b.y2 - b.y1 + 1.0 }

  function Area(b: Box): real { Width(b) * Height(b) }

  function SharedWidth(a: Box, b: Box): real { Max(0.0, Min(a.x2, b.x2) - Max(a.x1, b.x1) + 1.0) }

  function SharedHeight(a: Box, b: Box): real { Max(0.0, Min(a.y2, b.y2) - Max(a.y1, b.y1) + 1.0) }

  function Intersection(a: Box, b: Box): real { SharedWidth(a, b) * SharedHeight(a, b) }

  lemma ProductsOrdered(w: real, h: real, w': real, h': real)
    requires 0.0 <= w <= w' && 0.0 <= h <= h'
    ensures 0.0 <= w * h <= w' * h'
  {
  }

  /** The union of two proper boxes is never empty, so the ratio is defined. */
  lemma UnionPositive(a: Box, b: Box)
    requires Proper(a) && Proper(b)
    ensures 0.0 <= Intersection(a, b) && Area(a) + Area(b) - Intersection(a, b) > 0.0
  {
    assert 0.0 <= SharedWidth(a, b) <= Width(a) && 0.0 <= SharedHeight(a, b) <= Height(a);
    assert 1.0 <= Width(b) && 1.0 <= Height(b);
    hide SharedWidth, SharedHeight, Width, Height;
    ProductsOrdered(SharedWidth(a, b), SharedHeight(a, b), Width(a), Height(a));
    ProductsOrdered(1.0, 1.0, Width(b), Height(b));
  }

  function Overlap(a: Box, b: Box): real
    requires Proper(a) && Proper(b)
  {
    UnionPositive(a, b);
    Intersection(a, b) / (Area(a) + Area(b) - Intersection(a, b))
  }

  // ---- What the overlap measures --------------------------------------------------------------

  lemma OverlapSymmetric(a: Box, b: Box)
    requires Proper(a) && Proper(b)
    ensures Overlap(a, b) == Overlap(b, a)
  {
    assert SharedWidth(a, b) == SharedWidth(b, a) && SharedHeight(a, b) == SharedHeight(b, a);
    hide SharedWidth, SharedHeight, Area;
    assert Intersection(a, b) == Intersection(b, a);
  }

  /** A box inside another overlaps it by the ratio of the areas; a box overlaps itself entirely. */
  lemma OverlapOfInner(a: Box, b: Box)
    requires Proper(a) && Proper(b) && b.x1 <= a.x1 && b.y1 <= a.y1 && a.x2 <= b.x2 && a.y2 <= b.y2
    ensures Area(b) > 0.0 && Overlap(a, b) == Area(a) / Area(b)
  {
    assert SharedWidth(a, b) == Width(a) && SharedHeight(a, b) == Height(a);
    ProductsOrdered(1.0, 1.0, Width(b), Height(b));
    hide SharedWidth, SharedHeight, Width, Height;
    assert Intersection(a, b) == Area(a);
  }

  lemma OverlapOfItself(a: Box)
    requires Proper(a)
    ensures Overlap(a, a) == 1.0
  {
    OverlapOfInner(a, a);
  }

  /** Two boxes do not overlap exactly when they share no column or no row of pixels. */
  lemma NoOverlapIff(a: Box, b: Box)
    requires Proper(a) && Proper(b)
    ensures Overlap(a, b) == 0.0 <==>
              a.x2 + 1.0 <= b.x1 || b.x2 + 1.0 <= a.x1 || a.y2 + 1.0 <= b.y1 || b.y2 + 1.0 <= a.y1
  {
    UnionPositive(a, b);
    var w, h, union := SharedWidth(a, b), SharedHeight(a, b), Area(a) + Area(b) - Intersection(a, b);
    assert w == 0.0 <==> a.x2 + 1.0 <= b.x1 || b.x2 + 1.0 <= a.x1;
    assert h == 0.0 <==> a.y2 + 1.0 <= b.y1 || b.y2 + 1.0 <= a.y1;
    assert w >= 0.0 && h >= 0.0;
    hide SharedWidth, SharedHeight, Area;
    ZeroProduct(w, h);
    ZeroQuotient(w * h, union);
  }

  lemma ZeroProduct(w: real, h: real)
    ensures w * h == 0.0 <==> w == 0.0 || h == 0.0
  {
  }

  lemma ZeroQuotient(x: real, y: real)
    requires y != 0.0
    ensures x / y == 0.0 <==> x == 0.0
  {
    assert x / y * y == x;
  }

  /** A box of whole pixels, corners included, and the grid cells it covers. */
  datatype Pixels = Pixels(x1: int, y1: int, x2: int, y2: int)

  function BoxOf(p: Pixels, score: real): Box {
    Box(p.x1 as real, p.y1 as real, p.x2 as real, p.y2 as real, score)
  }

  function Cells(p: Pixels): set<(int, int)> {
    set x, y | p.x1 <= x <= p.x2 && p.y1 <= y <= p.y2 :: (x, y)
  }

  lemma {:induction false} ColumnCount(x: int, y1: int, y2: int)
    requires y1 <= y2 + 1
    ensures |Cells(Pixels(x, y1, x, y2))| == y2 - y1 + 1
    decreases y2 - y1 + 1
  {
    var column := Cells(Pixels(x, y1, x, y2));
    if y1 == y2 + 1 {
      assert column == {};
    } else {
      ColumnCount(x, y1, y2 - 1);
      assert column == Cells(Pixels(x, y1, x, y2 - 1)) + {(x, y2)};
    }
  }

  lemma LastColumn(p: Pixels)
    requires p.x1 <= p.x2
    ensures |Cells(p)| == |Cells(p.(x2 := p.x2 - 1))| + |Cells(Pixels(p.x2, p.y1, p.x2, p.y2))|
  {
    var left, last := Cells(p.(x2 := p.x2 - 1)), Cells(Pixels(p.x2, p.y1, p.x2, p.y2));
    assert Cells(p) == left + last;
    assert left !! last;
  }

  lemma OneColumnMore(w: int, h: int)
    ensures w * h == (w - 1) * h + h
  {
  }

  lemma {:induction false} CellCount(p: Pixels)
    requires p.x1 <= p.x2 + 1 && p.y1 <= p.y2 + 1
    ensures |Cells(p)| == (p.x2 - p.x1 + 1) * (p.y2 - p.y1 + 1)
    decreases p.x2 - p.x1 + 1
  {
    if p.x1 == p.x2 + 1 {
      assert Cells(p) == {};
    } else {
      hide Cells;
      CellCount(p.(x2 := p.x2 - 1));
      ColumnCount(p.x2, p.y1, p.y2);
      LastColumn(p);
      OneColumnMore(p.x2 - p.x1 + 1, p.y2 - p.y1 + 1);
    }
  }

  function Larger(a: int, b: int): int { if a < b then b else a }

  function Smaller(a: int, b: int): int { if a < b then a else b }

  lemma SharedCells(p: Pixels, q: Pixels)
    ensures Cells(p) * Cells(q) == Cells(Pixels(Larger(p.x1, q.x1), Larger(p.y1, q.y1), Smaller(p.x2, q.x2), Smaller(p.y2, q.y2)))
  {
  }

  /** A box has as many square units as its grid cells. */
  lemma AreaCountsCells(p: Pixels, score: real)
    requires p.x1 <= p.x2 && p.y1 <= p.y2
    ensures Area(BoxOf(p, score)) == |Cells(p)| as real
  {
    CellCount(p);
    WholeProduct(p.x2 - p.x1 + 1, p.y2 - p.y1 + 1);
  }

  lemma WholeProduct(a: int, b: int)
    ensures (a * b) as real == a as real * b as real
  {
  }

  /** Any grid, empty ones included. */
  lemma GridCount(r: Pixels)
    ensures |Cells(r)| == Larger(0, r.x2 - r.x1 + 1) * Larger(0, r.y2 - r.y1 + 1)
  {
    if r.x1 <= r.x2 && r.y1 <= r.y2 {
      CellCount(r);
      hide Cells;
    } else {
      assert Cells(r) == {};
      assert Larger(0, r.x2 - r.x1 + 1) == 0 || Larger(0, r.y2 - r.y1 + 1) == 0;
    }
  }

  lemma SharedSides(p: Pixels, q: Pixels, s: real, t: real)
    ensures SharedWidth(BoxOf(p, s), BoxOf(q, t)) == Larger(0, Smaller(p.x2, q.x2) - Larger(p.x1, q.x1) + 1) as real
    ensures SharedHeight(BoxOf(p, s), BoxOf(q, t)) == Larger(0, Smaller(p.y2, q.y2) - Larger(p.y1, q.y1) + 1) as real
  {
  }

  lemma IntersectionCountsCells(p: Pixels, q: Pixels, s: real, t: real)
    ensures Intersection(BoxOf(p, s), BoxOf(q, t)) == |Cells(p) * Cells(q)| as real
  {
    var r := Pixels(Larger(p.x1, q.x1), Larger(p.y1, q.y1), Smaller(p.x2, q.x2), Smaller(p.y2, q.y2));
    SharedCells(p, q);
    SharedSides(p, q, s, t);
    GridCount(r);
    WholeProduct(Larger(0, r.x2 - r.x1 + 1), Larger(0, r.y2 - r.y1 + 1));
    hide SharedWidth, SharedHeight, Cells, Larger, Smaller;
  }

  /** On whole pixels the overlap is the number of shared cells over the number of cells in either box. */
  lemma OverlapCountsCells(p: Pixels, q: Pixels, s: real, t: real)
    requires p.x1 <= p.x2 && p.y1 <= p.y2 && q.x1 <= q.x2 && q.y1 <= q.y2
    ensures |Cells(p) + Cells(q)| > 0
    ensures Proper(BoxOf(p, s)) && Proper(BoxOf(q, t))
    ensures Overlap(BoxOf(p, s), BoxOf(q, t)) == |Cells(p) * Cells(q)| as real / |Cells(p) + Cells(q)| as real
  {
    AreaCountsCells(p, s);
    AreaCountsCells(q, t);
    IntersectionCountsCells(p, q, s, t);
    assert (p.x1, p.y1) in Cells(p) + Cells(q);
    hide Area, Intersection, Cells;
    assert |Cells(p) + Cells(q)| == |Cells(p)| + |Cells(q)| - |Cells(p) * Cells(q)|;
  }

  ghost predicate AllProper(boxes: seq<Box>) { forall b :: b in boxes ==> Proper(b) }

  /** `scores.argsort()[::-1]`, ties in any order. */
  ghost predicate IsRanking(boxes: seq<Box>, order: seq<nat>) {
    && (forall i :: 0 <= i < |order| ==> order[i] < |boxes|)
    && (forall i, j :: 0 <= i < j < |order| ==> order[i] != order[j] && boxes[order[j]].score <= boxes[order[i]].score)
    && (forall b :: 0 <= b < |boxes| ==> b in order)
  }

  function Suppress(boxes: seq<Box>, i: nat, rest: seq<nat>, thresh: real): seq<nat>
    requires AllProper(boxes) && i < |boxes| && forall k :: 0 <= k < |rest| ==> rest[k] < |boxes|
  {
    var n := |rest|;
    if n == 0 then []
    else Suppress(boxes, i, rest[..n - 1], thresh)
         + if Overlap(boxes[i], boxes[rest[n - 1]]) <= thresh then [rest[n - 1]] else []
  }

  // ---- What the survivors are ----------------------------------------------------------------

  ghost predicate Clash(boxes: seq<Box>, thresh: real, a: nat, b: nat)
    requires AllProper(boxes)
  {
    a < |boxes| && b < |boxes| && Overlap(boxes[a], boxes[b]) > thresh
  }

  ghost predicate RankClash(boxes: seq<Box>, order: seq<nat>, thresh: real, i: int, j: int)
    requires AllProper(boxes)
  {
    0 <= i < |order| && 0 <= j < |order| && Clash(boxes, thresh, order[i], order[j])
  }

  /** Some kept box of a better rank overlaps the box at rank `j` too much. */
  ghost predicate Beaten(boxes: seq<Box>, order: seq<nat>, thresh: real, keep: set<nat>, j: nat)
    requires AllProper(boxes) && j < |order|
  {
    exists i :: 0 <= i < j && order[i] in keep && RankClash(boxes, order, thresh, i, j)
  }

  /** The set a greedy suppression keeps: a ranked box is in it exactly when no kept box above beats it. */
  ghost predicate IsGreedySet(boxes: seq<Box>, order: seq<nat>, thresh: real, keep: set<nat>)
    requires AllProper(boxes)
  {
    && (forall b :: b in keep ==> b in order)
    && (forall j :: 0 <= j < |order| ==> (order[j] in keep <==> !Beaten(boxes, order, thresh, keep, j)))
  }

  lemma {:induction false} GreedySetUniqueUpTo(boxes: seq<Box>, order: seq<nat>, thresh: real, k: set<nat>, k': set<nat>, n: nat)
    requires AllProper(boxes) && n <= |order|
    requires IsGreedySet(boxes, order, thresh, k) && IsGreedySet(boxes, order, thresh, k')
    ensures forall i :: 0 <= i < n ==> (order[i] in k <==> order[i] in k')
  {
    hide RankClash;
    if n > 0 {
      GreedySetUniqueUpTo(boxes, order, thresh, k, k', n - 1);
      assert Beaten(boxes, order, thresh, k, n - 1) <==> Beaten(boxes, order, thresh, k', n - 1);
    }
  }

  /** A ranking has only one greedy set, by induction over the ranks. */
  lemma GreedySetUnique(boxes: seq<Box>, order: seq<nat>, thresh: real, k: set<nat>, k': set<nat>)
    requires AllProper(boxes)
    requires IsGreedySet(boxes, order, thresh, k) && IsGreedySet(boxes, order, thresh, k')
    ensures k == k'
  {
    GreedySetUniqueUpTo(boxes, order, thresh, k, k', |order|);
    forall b ensures b in k <==> b in k' {
      if b in k || b in k' {
        var i :| 0 <= i < |order| && order[i] == b;
      }
    }
  }

  // ---- The loop -------------------------------------------------------------------------------

  /** Ranks in `order`, strictly increasing, that spell out `part`. */
  ghost predicate Spells(order: seq<nat>, ranks: seq<nat>, part: seq<nat>) {
    && |ranks| == |part|
    && (forall k :: 0 <= k < |ranks| ==> ranks[k] < |order| && order[ranks[k]] == part[k])
    && (forall k, l :: 0 <= k < l < |ranks| ==> ranks[k] < ranks[l])
  }

  /** The scan of `rest` that keeps what overlaps box `i` at most `thresh`, with the ranks it keeps. */
  lemma {:induction false} SuppressSpells(boxes: seq<Box>, order: seq<nat>, i: nat, rest: seq<nat>, thresh: real, ranks: seq<nat>)
    returns (left: seq<nat>)
    requires AllProper(boxes) && i < |boxes| && forall k :: 0 <= k < |rest| ==> rest[k] < |boxes|
    requires Spells(order, ranks, rest)
    ensures Spells(order, left, Suppress(boxes, i, rest, thresh))
    ensures forall r :: r in left <==> r in ranks && !Clash(boxes, thresh, i, order[r])
  {
    var n := |rest|;
    if n == 0 {
      left := [];
    } else {
      left := SuppressSpells(boxes, order, i, rest[..n - 1], thresh, ranks[..n - 1]);
      assert ranks == ranks[..n - 1] + [ranks[n - 1]];
      if Overlap(boxes[i], boxes[rest[n - 1]]) <= thresh {
        forall k | 0 <= k < |left| ensures left[k] < ranks[n - 1] {
          assert left[k] in ranks[..n - 1];
        }
        left := left + [ranks[n - 1]];
      }
    }
  }

  ghost function AllRanks(n: nat): (r: seq<nat>)
    ensures |r| == n && forall i :: 0 <= i < n ==> r[i] == i
  {
    if n == 0 then [] else AllRanks(n - 1) + [n - 1]
  }

  function Members(s: seq<nat>): (r: set<nat>)
    ensures forall x :: x in r <==> x in s
  {
    set x | x in s
  }

  /** Ranks kept so far and ranks still open: everything else was beaten by a kept rank. */
  ghost predicate Progress(boxes: seq<Box>, order: seq<nat>, thresh: real, kept: set<nat>, open: set<nat>)
    requires AllProper(boxes)
  {
    && (forall r :: r in kept || r in open ==> r < |order|)
    && (forall k, r :: k in kept && r in open ==> k < r && !RankClash(boxes, order, thresh, k, r))
    && (forall k, l :: k in kept && l in kept && k < l ==> !RankClash(boxes, order, thresh, k, l))
    && (forall r :: 0 <= r < |order| && r !in kept && r !in open ==>
          exists k :: k in kept && k < r && RankClash(boxes, order, thresh, k, r))
  }

  lemma ProgressStart(boxes: seq<Box>, order: seq<nat>, thresh: real)
    requires AllProper(boxes)
    ensures Progress(boxes, order, thresh, {}, Members(AllRanks(|order|)))
  {
    forall r: nat | r < |order| ensures r in AllRanks(|order|) {
      assert AllRanks(|order|)[r] == r;
    }
  }

  lemma ProgressStep(boxes: seq<Box>, order: seq<nat>, thresh: real, kept: set<nat>, open: set<nat>, best: nat, left: set<nat>)
    requires AllProper(boxes) && Progress(boxes, order, thresh, kept, open)
    requires best in open && forall r :: r in open ==> best <= r
    requires forall r :: r in left <==> r in open && r != best && !RankClash(boxes, order, thresh, best, r)
    ensures Progress(boxes, order, thresh, kept + {best}, left)
  {
    hide RankClash;
    forall r | 0 <= r < |order| && r !in kept + {best} && r !in left
      ensures exists k :: k in kept + {best} && k < r && RankClash(boxes, order, thresh, k, r)
    {
      if r in open {
        assert best in kept + {best} && best < r && RankClash(boxes, order, thresh, best, r);
      } else {
        var k :| k in kept && k < r && RankClash(boxes, order, thresh, k, r);
        assert k in kept + {best};
      }
    }
  }

  lemma ProgressDone(boxes: seq<Box>, order: seq<nat>, thresh: real, kept: seq<nat>, keep: seq<nat>)
    requires AllProper(boxes) && IsRanking(boxes, order)
    requires Progress(boxes, order, thresh, Members(kept), {}) && Spells(order, kept, keep)
    ensures IsGreedySet(boxes, order, thresh, set b | b in keep)
  {
    hide RankClash;
    var K := set b | b in keep;
    forall j | 0 <= j < |order| ensures (order[j] in K <==> j in kept) {
      if j in kept {
        var k :| 0 <= k < |kept| && kept[k] == j;
        assert keep[k] == order[j];
      }
      if order[j] in K {
        var k :| 0 <= k < |keep| && keep[k] == order[j];
        assert order[kept[k]] == order[j];
      }
    }
    forall b | b in K ensures b in order {
      var k :| 0 <= k < |keep| && keep[k] == b;
      assert order[kept[k]] == b;
    }
  }

  /**
   * Greedy suppression returns the greedy set of the ranking, listed in ranking order: distinct boxes
   * in non-increasing score.
   */
  method NonMaximumSuppression(boxes: seq<Box>, order: seq<nat>, thresh: real) returns (keep: seq<nat>)
    requires AllProper(boxes) && IsRanking(boxes, order)
    ensures IsGreedySet(boxes, order, thresh, set b | b in keep)
    ensures forall k, l :: 0 <= k < l < |keep| ==>
              keep[k] < |boxes| && keep[l] < |boxes| && keep[k] != keep[l] && boxes[keep[l]].score <= boxes[keep[k]].score
  {
    hide Clash, Suppress, Progress, Beaten;
    keep := [];
    var left: seq<nat> := order;
    ghost var kept: seq<nat>, open: seq<nat> := [], AllRanks(|order|);
    ProgressStart(boxes, order, thresh);
    assert Members(kept) == {};
    while left != []
      invariant Spells(order, kept, keep) && Spells(order, open, left)
      invariant forall k :: 0 <= k < |left| ==> left[k] < |boxes|
      invariant Progress(boxes, order, thresh, Members(kept), Members(open))
      decreases |left|
    {
      var i := left[0];
      keep := keep + [i];
      ghost var open' := SuppressSpells(boxes, order, i, left[1..], thresh, open[1..]);
      KeptBelow(boxes, order, thresh, kept, open);
      FirstOfSorted(order, open, left);
      ProgressStep(boxes, order, thresh, Members(kept), Members(open), open[0], Members(open'));
      assert Members(kept + [open[0]]) == Members(kept) + {open[0]};
      SuppressShrinks(boxes, i, left[1..], thresh);
      left := Suppress(boxes, i, left[1..], thresh);
      kept, open := kept + [open[0]], open';
    }
    assert Members(open) == {};
    ProgressDone(boxes, order, thresh, kept, keep);
    RankedScores(boxes, order, kept, keep);
  }

  lemma FirstOfSorted(order: seq<nat>, open: seq<nat>, left: seq<nat>)
    requires Spells(order, open, left) && open != []
    ensures forall r :: r in open <==> r == open[0] || r in open[1..]
    ensures forall r :: r in open[1..] ==> open[0] < r < |order|
  {
  }

  lemma KeptBelow(boxes: seq<Box>, order: seq<nat>, thresh: real, kept: seq<nat>, open: seq<nat>)
    requires AllProper(boxes) && open != [] && Progress(boxes, order, thresh, Members(kept), Members(open))
    ensures forall k :: 0 <= k < |kept| ==> kept[k] < open[0]
  {
    forall k | 0 <= k < |kept| ensures kept[k] < open[0] {
      assert kept[k] in Members(kept) && open[0] in Members(open);
    }
  }

  lemma {:induction false} SuppressShrinks(boxes: seq<Box>, i: nat, rest: seq<nat>, thresh: real)
    requires AllProper(boxes) && i < |boxes| && forall k :: 0 <= k < |rest| ==> rest[k] < |boxes|
    ensures var r := Suppress(boxes, i, rest, thresh);
            |r| <= |rest| && forall k :: 0 <= k < |r| ==> r[k] < |boxes|
  {
    if |rest| > 0 {
      SuppressShrinks(boxes, i, rest[..|rest| - 1], thresh);
    }
  }

  lemma RankedScores(boxes: seq<Box>, order: seq<nat>, kept: seq<nat>, keep: seq<nat>)
    requires IsRanking(boxes, order) && Spells(order, kept, keep)
    ensures forall k, l :: 0 <= k < l < |keep| ==>
              keep[k] < |boxes| && keep[l] < |boxes| && keep[k] != keep[l] && boxes[keep[l]].score <= boxes[keep[k]].score
  {
    forall k, l | 0 <= k < l < |keep|
      ensures keep[k] < |boxes| && keep[l] < |boxes| && keep[k] != keep[l] && boxes[keep[l]].score <= boxes[keep[k]].score
    {
      assert order[kept[k]] == keep[k] && order[kept[l]] == keep[l];
    }
  }

  // ---- What a greedy set means ----------------------------------------------------------------

  /**
   * Kept boxes overlap pairwise at most the threshold, whichever of the two ranks higher; every
   * dropped box overlaps more than that with a kept box of at least its score.
   */
  lemma GreedySetMeaning(boxes: seq<Box>, order: seq<nat>, thresh: real, keep: set<nat>)
    requires AllProper(boxes) && IsRanking(boxes, order) && IsGreedySet(boxes, order, thresh, keep)
    ensures forall a, b :: a in keep && b in keep && a != b ==>
              a < |boxes| && b < |boxes| && Overlap(boxes[a], boxes[b]) <= thresh
    ensures forall b :: 0 <= b < |boxes| && b !in keep ==>
              exists a :: a in keep && a < |boxes| && boxes[b].score <= boxes[a].score && Overlap(boxes[a], boxes[b]) > thresh
  {
    forall a, b | a in keep && b in keep && a != b
      ensures a < |boxes| && b < |boxes| && Overlap(boxes[a], boxes[b]) <= thresh
    {
      var i :| 0 <= i < |order| && order[i] == a;
      var j :| 0 <= j < |order| && order[j] == b;
      OverlapSymmetric(boxes[a], boxes[b]);
      hide Overlap;
      if i < j {
        assert !Beaten(boxes, order, thresh, keep, j);
      } else {
        assert !Beaten(boxes, order, thresh, keep, i);
      }
    }
    forall b | 0 <= b < |boxes| && b !in keep
      ensures exists a :: a in keep && a < |boxes| && boxes[b].score <= boxes[a].score && Overlap(boxes[a], boxes[b]) > thresh
    {
      hide Overlap;
      assert b in order;
      var j :| 0 <= j < |order| && order[j] == b;
      assert Beaten(boxes, order, thresh, keep, j);
      var i :| 0 <= i < j && order[i] in keep && RankClash(boxes, order, thresh, i, j);
      assert order[i] in keep;
    }
  }

  /** Suppressing the survivors again drops nothing: in any ranking of them, the greedy set is all of them. */
  lemma SuppressionIdempotent(boxes: seq<Box>, order: seq<nat>, thresh: real, keep: set<nat>, again: seq<nat>, keep': set<nat>)
    requires AllProper(boxes) && IsRanking(boxes, order) && IsGreedySet(boxes, order, thresh, keep)
    requires forall b :: b in again <==> b in keep
    requires forall i, j :: 0 <= i < j < |again| ==> again[i] != again[j]
    requires IsGreedySet(boxes, again, thresh, keep')
    ensures keep' == keep
  {
    GreedySetMeaning(boxes, order, thresh, keep);
    hide Overlap;
    forall j | 0 <= j < |again| ensures !Beaten(boxes, again, thresh, keep', j) {
      assert again[j] in keep;
      forall i | 0 <= i < j ensures !Clash(boxes, thresh, again[i], again[j]) {
        assert again[i] in keep && again[i] != again[j];
      }
    }
    forall b ensures b in keep' <==> b in keep {
      if b in keep {
        var j :| 0 <= j < |again| && again[j] == b;
        assert again[j] in keep';
      }
    }
  }
}
