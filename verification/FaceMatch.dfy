/**
 * Nearest-neighbour face matching with a margin. A candidate carries its cosine similarity to the
 * target, or `None` when its stored embedding is missing or malformed.
 */
module FaceMatch {
  import opened Options

  datatype Candidate = Candidate(employee: nat, similarity: Option<real>)

  datatype Match = Match(employee: nat, distance: real, score: real)

  const DEFAULT_MATCH_THRESHOLD := 0.40
  const MIN_MATCH_GAP := 0.05

  function Sim(c: Candidate): real
    requires c.similarity.Some?
  {
    c.similarity.value
  }

  function MatchOf(c: Candidate): Match
    requires c.similarity.Some?
  {
    Match(c.employee, if 1.0 - Sim(c) < 0.0 then 0.0 else 1.0 - Sim(c), Sim(c))
  }

  /** Candidate `i` reaches the threshold and beats every other valid candidate by the gap. */
  ghost predicate Clear(cs: seq<Candidate>, threshold: real, gap: real, i: int) {
    && 0 <= i < |cs| && cs[i].similarity.Some? && threshold <= Sim(cs[i])
    && forall j :: 0 <= j < |cs| && j != i && cs[j].similarity.Some? ==> gap <= Sim(cs[i]) - Sim(cs[j])
  }

  /** Candidate `i` is valid, reaches the threshold and no valid candidate is more similar. */
  ghost predicate Top(cs: seq<Candidate>, threshold: real, i: int) {
    && 0 <= i < |cs| && cs[i].similarity.Some? && threshold <= Sim(cs[i])
    && forall j :: 0 <= j < |cs| && cs[j].similarity.Some? ==> Sim(cs[j]) <= Sim(cs[i])
  }

  /** The most similar valid candidate, the earliest on a tie. */
  ghost predicate First(cs: seq<Candidate>, i: int) {
    && 0 <= i < |cs| && cs[i].similarity.Some?
    && (forall j :: 0 <= j < |cs| && cs[j].similarity.Some? ==> Sim(cs[j]) <= Sim(cs[i]))
    && (forall j :: 0 <= j < i && cs[j].similarity.Some? ==> Sim(cs[j]) < Sim(cs[i]))
  }

  /** Another valid candidate comes within the gap of candidate `i`. */
  ghost predicate Contested(cs: seq<Candidate>, gap: real, i: int)
    requires 0 <= i < |cs| && cs[i].similarity.Some?
  {
    exists j :: 0 <= j < |cs| && j != i && cs[j].similarity.Some? && Sim(cs[i]) - Sim(cs[j]) < gap
  }

  function FirstOf(cs: seq<Candidate>): (b: Option<nat>)
    ensures b.Some? ==> First(cs, b.value)
    ensures b.None? ==> forall j :: 0 <= j < |cs| ==> cs[j].similarity.None?
  {
    var n := |cs|;
    if n == 0 then None
    else
      var rest := cs[..n - 1];
      var b := FirstOf(rest);
      assert forall j :: 0 <= j < n - 1 ==> rest[j] == cs[j];
      if cs[n - 1].similarity.Some? && (b.None? || Sim(cs[b.value]) < Sim(cs[n - 1])) then Some(n - 1) else b
  }

  /** What the service answers, for any gap: the first best candidate, unless too low or contested. */
  ghost function Answer(cs: seq<Candidate>, threshold: real, gap: real): Option<Match> {
    var b := FirstOf(cs);
    if b.None? || Sim(cs[b.value]) < threshold || Contested(cs, gap, b.value) then None
    else Some(MatchOf(cs[b.value]))
  }

  /** After `n` candidates: the first best so far, and the best similarity among the others. */
  ghost predicate Scanned(cs: seq<Candidate>, n: nat, b: Option<nat>, second: Option<real>)
    requires n <= |cs|
  {
    && (b.None? ==> second.None? && forall j :: 0 <= j < n ==> cs[j].similarity.None?)
    && (b.Some? ==> b.value < n && cs[b.value].similarity.Some?
                    && (forall j :: 0 <= j < b.value && cs[j].similarity.Some? ==> Sim(cs[j]) < Sim(cs[b.value]))
                    && forall j :: 0 <= j < n && cs[j].similarity.Some? ==>
                         Sim(cs[j]) <= Sim(cs[b.value])
                         && (j != b.value ==> second.Some? && Sim(cs[j]) <= second.value))
    && (second.Some? ==> b.Some? && exists j :: 0 <= j < n && j != b.value && cs[j].similarity == second)
  }

  /** `validTarget` says whether the target embedding has the right shape. */
  method FindMatch(validTarget: bool, cs: seq<Candidate>, threshold: real := DEFAULT_MATCH_THRESHOLD, gap: real := MIN_MATCH_GAP)
    returns (result: Option<Match>)
    ensures result == if validTarget then Answer(cs, threshold, gap) else None
  {
    if !validTarget {
      return None;
    }
    var best: Option<Match>, second: Option<real> := None, None;
    ghost var b: Option<nat> := None;
    for n := 0 to |cs|
      invariant Scanned(cs, n, b, second)
      invariant best == if b.Some? then Some(MatchOf(cs[b.value])) else None
    {
      var c := cs[n];
      if c.similarity.Some? {
        var sim := c.similarity.value;
        if best.None? || sim > best.value.score {
          if best.Some? {
            second := Some(best.value.score);
            assert cs[b.value].similarity == second;
          }
          best := Some(MatchOf(c));
          b := Some(n);
        } else if second.None? || sim > second.value {
          second := Some(sim);
          assert cs[n].similarity == second;
        }
      }
    }
    ScanIsAnswer(cs, threshold, gap, b, second);
    if best.None? || best.value.score < threshold {
      return None;
    }
    if second.Some? && best.value.score - second.value < gap {
      return None;
    }
    result := best;
  }

  lemma ScanIsAnswer(cs: seq<Candidate>, threshold: real, gap: real, b: Option<nat>, second: Option<real>)
    requires Scanned(cs, |cs|, b, second)
    ensures b == FirstOf(cs)
    ensures b.Some? ==> (Contested(cs, gap, b.value) <==> second.Some? && Sim(cs[b.value]) - second.value < gap)
  {
  }

  /** With a positive gap a match is returned exactly when some candidate is clear, and it is that one. */
  lemma PositiveGapIsClear(cs: seq<Candidate>, threshold: real, gap: real)
    requires gap > 0.0
    ensures Answer(cs, threshold, gap).Some? <==> exists i :: Clear(cs, threshold, gap, i)
    ensures forall i :: Clear(cs, threshold, gap, i) ==> Answer(cs, threshold, gap) == Some(MatchOf(cs[i]))
  {
    var b := FirstOf(cs);
    forall i | Clear(cs, threshold, gap, i) ensures b == Some(i) {
      // A clear candidate is strictly better than every other one, the first best included.
      assert forall j :: 0 <= j < |cs| && cs[j].similarity.Some? && Sim(cs[i]) <= Sim(cs[j]) ==> j == i;
    }
    if b.Some? && threshold <= Sim(cs[b.value]) && !Contested(cs, gap, b.value) {
      assert Clear(cs, threshold, gap, b.value);
    }
  }

  /** Without one nothing is contested: the first of the best candidates wins. */
  lemma NoGapTakesTheFirst(cs: seq<Candidate>, threshold: real, gap: real)
    requires gap <= 0.0
    ensures Answer(cs, threshold, gap).Some? <==> exists i :: Top(cs, threshold, i)
    ensures Answer(cs, threshold, gap).Some? ==>
              exists i :: Top(cs, threshold, i) && First(cs, i) && Answer(cs, threshold, gap) == Some(MatchOf(cs[i]))
  {
    var b := FirstOf(cs);
    if b.Some? && threshold <= Sim(cs[b.value]) {
      assert Top(cs, threshold, b.value);
    }
    if i :| Top(cs, threshold, i) {
      assert Sim(cs[i]) <= Sim(cs[b.value]);
    }
  }

  // ---- Order and malformed candidates do not matter -------------------------------------------

  function Valid(cs: seq<Candidate>): seq<Candidate> {
    var n := |cs|;
    if n == 0 then [] else Valid(cs[..n - 1]) + if cs[n - 1].similarity.Some? then [cs[n - 1]] else []
  }

  /** A candidate is clear, said of the bag of valid candidates: no position is mentioned. */
  ghost predicate ClearIn(bag: multiset<Candidate>, threshold: real, gap: real, c: Candidate) {
    && c in bag && c.similarity.Some? && threshold <= Sim(c)
    && forall d :: d in bag - multiset{c} && d.similarity.Some? ==> gap <= Sim(c) - Sim(d)
  }

  lemma {:induction false} ValidBag(cs: seq<Candidate>, c: Candidate)
    ensures multiset(Valid(cs))[c] == if c.similarity.Some? then multiset(cs)[c] else 0
  {
    var n := |cs|;
    if n > 0 {
      ValidBag(cs[..n - 1], c);
      assert cs == cs[..n - 1] + [cs[n - 1]];
    }
  }

  lemma WithoutOne(cs: seq<Candidate>, i: nat)
    requires i < |cs|
    ensures multiset(cs) - multiset{cs[i]} == multiset(cs[..i] + cs[i + 1..])
  {
    assert cs == cs[..i] + [cs[i]] + cs[i + 1..];
  }

  lemma OthersByPosition(cs: seq<Candidate>, i: int, d: Candidate)
    requires 0 <= i < |cs|
    ensures d in cs[..i] + cs[i + 1..] <==> exists j :: 0 <= j < |cs| && j != i && cs[j] == d
  {
    if d in cs[..i] + cs[i + 1..] {
      if d in cs[..i] {
        var k :| 0 <= k < i && cs[..i][k] == d;
        assert cs[k] == d;
      } else {
        var k :| 0 <= k < |cs[i + 1..]| && cs[i + 1..][k] == d;
        assert cs[i + 1 + k] == d;
      }
    }
    if j :| 0 <= j < |cs| && j != i && cs[j] == d {
      assert if j < i then cs[..i][j] == d else cs[i + 1..][j - i - 1] == d;
    }
  }

  /** The valid candidates other than the one at `i`, as a bag and by position. */
  lemma OthersByBag(cs: seq<Candidate>, i: int, d: Candidate)
    requires 0 <= i < |cs| && d.similarity.Some?
    ensures d in multiset(Valid(cs)) - multiset{cs[i]} <==> exists j :: 0 <= j < |cs| && j != i && cs[j] == d
  {
    var rest := cs[..i] + cs[i + 1..];
    OthersByPosition(cs, i, d);
    WithoutOne(cs, i);
    ValidBag(cs, d);
    hide Valid;
    assert (multiset(Valid(cs)) - multiset{cs[i]})[d] == (multiset(cs) - multiset{cs[i]})[d];
    assert d in rest <==> d in multiset(rest);
  }

  lemma ClearByBag(cs: seq<Candidate>, threshold: real, gap: real, i: int)
    requires 0 <= i < |cs|
    ensures Clear(cs, threshold, gap, i) <==> ClearIn(multiset(Valid(cs)), threshold, gap, cs[i])
  {
    ValidBag(cs, cs[i]);
    assert cs[i] in multiset(cs);
    hide Valid;
    forall d: Candidate | d.similarity.Some?
      ensures d in multiset(Valid(cs)) - multiset{cs[i]} <==> exists j :: 0 <= j < |cs| && j != i && cs[j] == d
    {
      OthersByBag(cs, i, d);
    }
  }

  lemma ClearMoves(cs: seq<Candidate>, cs': seq<Candidate>, threshold: real, gap: real, i: int) returns (j: int)
    requires multiset(Valid(cs)) == multiset(Valid(cs')) && Clear(cs, threshold, gap, i)
    ensures Clear(cs', threshold, gap, j) && cs'[j] == cs[i]
  {
    ClearByBag(cs, threshold, gap, i);
    hide Clear;
    j := Occurs(cs, cs', i);
    ClearByBag(cs', threshold, gap, j);
  }

  /** The decision depends on the bag of valid candidates only. */
  lemma OrderAndMalformedIrrelevant(cs: seq<Candidate>, cs': seq<Candidate>, threshold: real, gap: real)
    requires multiset(Valid(cs)) == multiset(Valid(cs'))
    ensures forall i :: Clear(cs, threshold, gap, i) ==> exists j :: Clear(cs', threshold, gap, j) && cs'[j] == cs[i]
  {
    forall i | Clear(cs, threshold, gap, i) ensures exists j :: Clear(cs', threshold, gap, j) && cs'[j] == cs[i] {
      var j := ClearMoves(cs, cs', threshold, gap, i);
    }
  }

  /** All the best candidates that reach the threshold are records of one employee. */
  ghost predicate OneWinner(cs: seq<Candidate>, threshold: real) {
    forall i, j :: Top(cs, threshold, i) && Top(cs, threshold, j) ==> cs[i].employee == cs[j].employee
  }

  /** The bags of valid candidates agree, so a member of one list occurs in the other. */
  lemma Occurs(cs: seq<Candidate>, cs': seq<Candidate>, i: int) returns (j: int)
    requires multiset(Valid(cs)) == multiset(Valid(cs')) && 0 <= i < |cs| && cs[i].similarity.Some?
    ensures 0 <= j < |cs'| && cs'[j] == cs[i]
  {
    ValidBag(cs, cs[i]);
    ValidBag(cs', cs[i]);
    assert cs[i] in multiset(cs);
    assert cs[i] in multiset(cs');
    j :| 0 <= j < |cs'| && cs'[j] == cs[i];
  }

  lemma TopMoves(cs: seq<Candidate>, cs': seq<Candidate>, threshold: real, i: int) returns (j: int)
    requires multiset(Valid(cs)) == multiset(Valid(cs')) && Top(cs, threshold, i)
    ensures Top(cs', threshold, j) && cs'[j] == cs[i]
  {
    j := Occurs(cs, cs', i);
    forall k | 0 <= k < |cs'| && cs'[k].similarity.Some? ensures Sim(cs'[k]) <= Sim(cs'[j]) {
      var l := Occurs(cs', cs, k);
    }
  }

  /** A positive gap, or a single employee among the best, makes the answer a function of the bag. */
  lemma SameBagSameAnswer(cs: seq<Candidate>, cs': seq<Candidate>, threshold: real, gap: real)
    requires multiset(Valid(cs)) == multiset(Valid(cs'))
    requires gap > 0.0 || OneWinner(cs, threshold)
    ensures Answer(cs, threshold, gap) == Answer(cs', threshold, gap)
  {
    hide Valid, Answer, OneWinner;
    if gap > 0.0 {
      hide Clear;
      OrderAndMalformedIrrelevant(cs, cs', threshold, gap);
      OrderAndMalformedIrrelevant(cs', cs, threshold, gap);
      PositiveGapIsClear(cs, threshold, gap);
      PositiveGapIsClear(cs', threshold, gap);
    } else {
      hide First, Top;
      NoGapTakesTheFirst(cs, threshold, gap);
      NoGapTakesTheFirst(cs', threshold, gap);
      if i :| Top(cs, threshold, i) && Answer(cs, threshold, gap) == Some(MatchOf(cs[i])) {
        var _ := TopMoves(cs, cs', threshold, i);
        var j :| Top(cs', threshold, j) && Answer(cs', threshold, gap) == Some(MatchOf(cs'[j]));
        var k := TopMoves(cs', cs, threshold, j);
        SameMatch(cs, threshold, i, k);
      } else if j :| Top(cs', threshold, j) {
        var _ := TopMoves(cs', cs, threshold, j);
      }
    }
  }

  lemma SameMatch(cs: seq<Candidate>, threshold: real, i: int, j: int)
    requires OneWinner(cs, threshold) && Top(cs, threshold, i) && Top(cs, threshold, j)
    ensures MatchOf(cs[i]) == MatchOf(cs[j])
  {
  }

  /** Without a margin, a best candidate moved to the front is the answer. */
  lemma FrontWins(cs: seq<Candidate>, threshold: real, gap: real, i: int) returns (moved: seq<Candidate>)
    requires gap <= 0.0 && Top(cs, threshold, i)
    ensures multiset(moved) == multiset(cs) && Answer(moved, threshold, gap) == Some(MatchOf(cs[i]))
  {
    moved := [cs[i]] + (cs[..i] + cs[i + 1..]);
    assert cs == cs[..i] + [cs[i]] + cs[i + 1..];
    forall j | 0 <= j < |moved| && moved[j].similarity.Some? ensures Sim(moved[j]) <= Sim(moved[0]) {
      assert moved[j] in multiset(cs);
    }
    assert Top(moved, threshold, 0);
    NoGapTakesTheFirst(moved, threshold, gap);
  }

  /**
   * Reordering the candidates never changes the answer exactly when the gap is positive or all the
   * best candidates belong to one employee.
   */
  lemma OrderFreeIff(cs: seq<Candidate>, threshold: real, gap: real)
    ensures (forall cs' :: multiset(cs') == multiset(cs) ==> Answer(cs', threshold, gap) == Answer(cs, threshold, gap))
            <==> gap > 0.0 || OneWinner(cs, threshold)
  {
    hide Answer;
    if gap > 0.0 || OneWinner(cs, threshold) {
      forall cs' | multiset(cs') == multiset(cs) ensures Answer(cs', threshold, gap) == Answer(cs, threshold, gap) {
        forall c ensures multiset(Valid(cs))[c] == multiset(Valid(cs'))[c] {
          ValidBag(cs, c);
          ValidBag(cs', c);
        }
        assert multiset(Valid(cs)) == multiset(Valid(cs'));
        SameBagSameAnswer(cs, cs', threshold, gap);
      }
    } else {
      var i, j :| Top(cs, threshold, i) && Top(cs, threshold, j) && cs[i].employee != cs[j].employee;
      var first := FrontWins(cs, threshold, gap, i);
      var second := FrontWins(cs, threshold, gap, j);
    }
  }

  /** Run on two lists with the same valid candidates, the service gives the same answer. */
  method SameAnswer(cs: seq<Candidate>, cs': seq<Candidate>, threshold: real, gap: real) returns (a: Option<Match>, b: Option<Match>)
    requires multiset(Valid(cs)) == multiset(Valid(cs'))
    requires gap > 0.0 || OneWinner(cs, threshold)
    ensures a == b
    ensures gap > 0.0 ==> (a.Some? <==> exists i :: Clear(cs, threshold, gap, i))
  {
    a := FindMatch(true, cs, threshold, gap);
    b := FindMatch(true, cs', threshold, gap);
    SameBagSameAnswer(cs, cs', threshold, gap);
    if gap > 0.0 {
      PositiveGapIsClear(cs, threshold, gap);
    }
  }

  /** A failing input: of two equally similar employees the one listed first is recognised. */
  lemma ZeroGapDependsOnOrder(threshold: real, s: real)
    requires threshold <= s
    ensures var a, b := Candidate(1, Some(s)), Candidate(2, Some(s));
            Answer([a, b], threshold, 0.0) == Some(MatchOf(a)) && Answer([b, a], threshold, 0.0) == Some(MatchOf(b))
            && MatchOf(a) != MatchOf(b)
  {
    var a, b := Candidate(1, Some(s)), Candidate(2, Some(s));
    NoGapTakesTheFirst([a, b], threshold, 0.0);
    NoGapTakesTheFirst([b, a], threshold, 0.0);
    assert Top([a, b], threshold, 0) && Top([b, a], threshold, 0);
    assert Sim([a, b][0]) == s && Sim([b, a][0]) == s;
  }

  /** A match carries the candidate's similarity as score, and what is missing to 1 as distance, never negative. */
  lemma MatchFields(c: Candidate)
    requires c.similarity.Some?
    ensures MatchOf(c).employee == c.employee && MatchOf(c).score == Sim(c) && MatchOf(c).distance >= 0.0
    ensures Sim(c) <= 1.0 ==> MatchOf(c).score + MatchOf(c).distance == 1.0
    ensures Sim(c) >= 1.0 ==> MatchOf(c).distance == 0.0
  {
  }
}
