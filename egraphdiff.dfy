/**
 * Branch comparison of egraph/egraphdiff.py: the difference score of two
 * branches (sequences of parts), the pairing of every branch of one container
 * with every branch of another, and diffegraphs.
 */
module EGraphDiff {
  import opened Wrappers
  import opened EGraph

  // ---------------------------------------------------------------------------
  // compare_items

  /** The two parts are of the same kind (Python: the same class). */
  predicate SameClass(a: Part, b: Part) {
    || (a.Text? && b.Text?)
    || (a.Alternative? && b.Alternative?)
    || (a.BorderAssert? && b.BorderAssert?)
    || (a.Subexpression? && b.Subexpression?)
  }

  /** compare_items: false when the classes differ, otherwise whether the items are equal. */
  function CompareItems(a: Part, b: Part): (r: bool)
    ensures r <==> a == b
  {
    if !SameClass(a, b) then false else a == b
  }

  /** Items of different classes never compare equal; otherwise the comparison is plain equality. */
  lemma CompareItemsIsEquality(a: Part, b: Part)
    ensures !SameClass(a, b) ==> !CompareItems(a, b)
    ensures CompareItems(a, b) <==> a == b
  {
  }

  // ---------------------------------------------------------------------------
  // compare_branches

  /**
   * Where the inner `while` of compare_branches stops when it starts at cursor
   * c: the first position from c on whose item compares equal to x, or
   * |branch2| when there is none. The cursor only moves forward and stops on a match.
   */
  function FirstMatch(x: Part, branch2: seq<Part>, c: nat): (m: nat)
    requires c <= |branch2|
    ensures c <= m <= |branch2|
    ensures m < |branch2| ==> CompareItems(x, branch2[m])
    ensures forall k | c <= k < m :: !CompareItems(x, branch2[k])
    decreases |branch2| - c
  {
    if c == |branch2| then c
    else if CompareItems(x, branch2[c]) then c
    else FirstMatch(x, branch2, c + 1)
  }

  /**
   * The count that the `for` loop of compare_branches adds for the items of
   * branch1 when the cursor stands at c: one for every item that finds no
   * match from the cursor on. Each item adds at most one.
   */
  function Misses(branch1: seq<Part>, branch2: seq<Part>, c: nat): (d: nat)
    requires c <= |branch2|
    ensures d <= |branch1|
  {
    if branch1 == [] then 0
    else
      var m := FirstMatch(branch1[0], branch2, c);
      (if m == |branch2| then 1 else 0) + Misses(branch1[1..], branch2, m)
  }

  function Abs(x: int): nat {
    if x < 0 then -x else x
  }

  /**
   * The score compare_branches returns: the misses plus the difference of the
   * lengths. It lies between that difference and |branch1| more.
   */
  function Score(branch1: seq<Part>, branch2: seq<Part>): (s: nat)
    ensures Abs(|branch2| - |branch1|) <= s <= |branch1| + Abs(|branch2| - |branch1|)
  {
    Misses(branch1, branch2, 0) + Abs(|branch2| - |branch1|)
  }

  /** compare_branches, with its forward-only cursor i2 and the `while ... else` of the inner loop. */
  method CompareBranches(branch1: seq<Part>, branch2: seq<Part>) returns (diffIndex: nat)
    ensures diffIndex == Score(branch1, branch2)
  {
    diffIndex := 0;
    var i1, i2 := 0, 0;
    while i1 < |branch1|
      invariant i1 <= |branch1| && i2 <= |branch2|
      invariant diffIndex + Misses(branch1[i1..], branch2, i2) == Misses(branch1, branch2, 0)
    {
      var item1 := branch1[i1];
      ghost var start := i2;
      var found := false;
      while i2 < |branch2|
        invariant start <= i2 <= |branch2|
        invariant FirstMatch(item1, branch2, i2) == FirstMatch(item1, branch2, start)
      {
        if CompareItems(item1, branch2[i2]) {
          found := true;
          break;
        }
        i2 := i2 + 1;
      }
      if !found {
        diffIndex := diffIndex + 1;
      }
      assert branch1[i1..][1..] == branch1[i1 + 1..];
      i1 := i1 + 1;
    }
    diffIndex := diffIndex + Abs(|branch2| - |branch1|);
  }

  /** An empty first branch scores the length of the second. */
  lemma ScoreOfEmpty(branch2: seq<Part>)
    ensures Score([], branch2) == |branch2|
  {
  }

  /** Once the cursor has run off the end, every remaining item of branch1 counts as a miss. */
  lemma {:induction false} ExhaustedCursor(branch1: seq<Part>, branch2: seq<Part>)
    ensures Misses(branch1, branch2, |branch2|) == |branch1|
  {
    if branch1 != [] {
      ExhaustedCursor(branch1[1..], branch2);
    }
  }

  /** An item that finds no match from the cursor on makes every later item a miss too. */
  lemma MissStaysMissed(branch1: seq<Part>, branch2: seq<Part>, c: nat)
    requires c <= |branch2| && branch1 != []
    requires FirstMatch(branch1[0], branch2, c) == |branch2|
    ensures Misses(branch1, branch2, c) == |branch1|
  {
    ExhaustedCursor(branch1[1..], branch2);
  }

  lemma {:induction false} SelfMisses(b: seq<Part>, k: nat, c: nat)
    requires c <= k <= |b|
    ensures Misses(b[k..], b, c) == 0
    decreases |b| - k
  {
    if k < |b| {
      var m := FirstMatch(b[k], b, c);
      assert CompareItems(b[k], b[k]);
      assert m <= k;
      assert b[k..][0] == b[k] && b[k..][1..] == b[k + 1..];
      SelfMisses(b, k + 1, m);
    }
  }

  /** A branch scores 0 against itself: each item finds itself at or before its own position. */
  lemma ScoreReflexive(b: seq<Part>)
    ensures Score(b, b) == 0
  {
    SelfMisses(b, 0, 0);
    assert b[0..] == b;
  }

  /**
   * A score of 0 does not mean equal branches: the cursor stays on a match, so
   * one item of branch2 can match several items of branch1.
   */
  lemma ScoreZeroForDifferentBranches()
    ensures var x, y := NewText("a"), NewText("b");
            [x, x] != [x, y] && Score([x, x], [x, y]) == 0
  {
    var x, y := NewText("a"), NewText("b");
    var b2 := [x, y];
    assert FirstMatch(x, b2, 0) == 0;
    assert [x, x][1..] == [x] && [x][1..] == [];
    assert Misses([x], b2, 0) == 0;
  }

  /** The score is not symmetric. */
  lemma ScoreNotSymmetric()
    ensures var x, y := NewText("a"), NewText("b");
            Score([x], [y, x]) == 1 && Score([y, x], [x]) == 3
  {
    var x, y := NewText("a"), NewText("b");
    assert x != y;
    assert FirstMatch(x, [y, x], 1) == 1;
    assert FirstMatch(x, [y, x], 0) == 1;
    assert [x][1..] == [];
    assert Misses([x], [y, x], 0) == 0;
    assert FirstMatch(y, [x], 1) == 1;
    assert FirstMatch(y, [x], 0) == 1;
    assert [y, x][1..] == [x];
    ExhaustedCursor([x], [x]);
    assert Misses([y, x], [x], 0) == 2;
  }

  // ---------------------------------------------------------------------------
  // find_comprasions

  /** One entry of the result of find_comprasions: the tuple (score, branch1, branch2). */
  datatype Comparison = Comparison(score: nat, branch1: seq<Part>, branch2: seq<Part>)

  datatype DiffError = TypeError

  /** The entries the inner loop appends for branch1 against the branches of cont2, in order. */
  function Row(branch1: seq<Part>, cont2: seq<seq<Part>>): seq<Comparison> {
    if cont2 == [] then []
    else
      var branch2 := cont2[|cont2| - 1];
      Row(branch1, cont2[..|cont2| - 1]) + [Comparison(Score(branch1, branch2), branch1, branch2)]
  }

  /** The list that lines 15-18 of find_comprasions build: cont1 in the outer loop, cont2 in the inner. */
  function AllPairs(cont1: seq<seq<Part>>, cont2: seq<seq<Part>>): seq<Comparison> {
    if cont1 == [] then []
    else AllPairs(cont1[..|cont1| - 1], cont2) + Row(cont1[|cont1| - 1], cont2)
  }

  /** The double loop of find_comprasions, each score computed by compare_branches. */
  method BuildComparisons(cont1: seq<seq<Part>>, cont2: seq<seq<Part>>) returns (result: seq<Comparison>)
    ensures result == AllPairs(cont1, cont2)
  {
    result := [];
    for i := 0 to |cont1|
      invariant result == AllPairs(cont1[..i], cont2)
    {
      var branch1 := cont1[i];
      for j := 0 to |cont2|
        invariant result == AllPairs(cont1[..i], cont2) + Row(branch1, cont2[..j])
      {
        var branch2 := cont2[j];
        var score := CompareBranches(branch1, branch2);
        assert cont2[..j + 1][..j] == cont2[..j];
        result := result + [Comparison(score, branch1, branch2)];
      }
      assert cont2[..|cont2|] == cont2;
      assert cont1[..i + 1][..i] == cont1[..i];
    }
    assert cont1[..|cont1|] == cont1;
  }

  lemma {:induction false} RowAt(branch1: seq<Part>, cont2: seq<seq<Part>>, j: nat)
    requires j < |cont2|
    ensures |Row(branch1, cont2)| == |cont2|
    ensures Row(branch1, cont2)[j] == Comparison(Score(branch1, cont2[j]), branch1, cont2[j])
  {
    var init := cont2[..|cont2| - 1];
    if j < |cont2| - 1 {
      RowAt(branch1, init, j);
    } else if init != [] {
      RowAt(branch1, init, 0);
    }
  }

  /** The position of the first entry of row i when every row holds m entries. */
  function Offset(i: nat, m: nat): nat {
    if i == 0 then 0 else Offset(i - 1, m) + m
  }

  lemma {:induction false} OffsetIsProduct(i: nat, m: nat)
    ensures Offset(i, m) == i * m
  {
    if i > 0 {
      OffsetIsProduct(i - 1, m);
      assert (i - 1) * m + m == i * m;
    }
  }

  lemma {:induction false} AllPairsCount(cont1: seq<seq<Part>>, cont2: seq<seq<Part>>)
    ensures |AllPairs(cont1, cont2)| == Offset(|cont1|, |cont2|)
  {
    if cont1 != [] {
      AllPairsCount(cont1[..|cont1| - 1], cont2);
      if cont2 != [] {
        RowAt(cont1[|cont1| - 1], cont2, 0);
      }
    }
  }

  lemma AllPairsLength(cont1: seq<seq<Part>>, cont2: seq<seq<Part>>)
    ensures |AllPairs(cont1, cont2)| == |cont1| * |cont2|
  {
    AllPairsCount(cont1, cont2);
    OffsetIsProduct(|cont1|, |cont2|);
  }

  /** An entry of the first |cont1| - 1 rows is unchanged by appending the last row. */
  lemma AllPairsPrefix(cont1: seq<seq<Part>>, cont2: seq<seq<Part>>, p: nat)
    requires cont1 != [] && p < |AllPairs(cont1[..|cont1| - 1], cont2)|
    ensures p < |AllPairs(cont1, cont2)|
    ensures AllPairs(cont1, cont2)[p] == AllPairs(cont1[..|cont1| - 1], cont2)[p]
  {
  }

  /** An entry of the last row sits after all entries of the earlier rows. */
  lemma AllPairsLastRow(cont1: seq<seq<Part>>, cont2: seq<seq<Part>>, j: nat)
    requires cont1 != [] && j < |cont2|
    ensures |AllPairs(cont1[..|cont1| - 1], cont2)| + j < |AllPairs(cont1, cont2)|
    ensures AllPairs(cont1, cont2)[|AllPairs(cont1[..|cont1| - 1], cont2)| + j]
            == Comparison(Score(cont1[|cont1| - 1], cont2[j]), cont1[|cont1| - 1], cont2[j])
  {
    RowAt(cont1[|cont1| - 1], cont2, j);
  }

  /** AllPairsAt with the row offsets counted by Offset. */
  lemma {:induction false} AllPairsAtOffset(cont1: seq<seq<Part>>, cont2: seq<seq<Part>>, i: nat, j: nat)
    requires i < |cont1| && j < |cont2|
    ensures Offset(i, |cont2|) + j < |AllPairs(cont1, cont2)|
    ensures AllPairs(cont1, cont2)[Offset(i, |cont2|) + j] == Comparison(Score(cont1[i], cont2[j]), cont1[i], cont2[j])
  {
    var init := cont1[..|cont1| - 1];
    AllPairsCount(init, cont2);
    if i < |init| {
      AllPairsAtOffset(init, cont2, i, j);
      AllPairsPrefix(cont1, cont2, Offset(i, |cont2|) + j);
      assert init[i] == cont1[i];
    } else {
      assert i == |init|;
      AllPairsLastRow(cont1, cont2, j);
    }
  }

  /**
   * find_comprasions pairs every branch of cont1 with every branch of cont2:
   * |cont1| * |cont2| entries, and the pair (i, j) sits at position i * |cont2| + j.
   */
  lemma AllPairsAt(cont1: seq<seq<Part>>, cont2: seq<seq<Part>>, i: nat, j: nat)
    requires i < |cont1| && j < |cont2|
    ensures |AllPairs(cont1, cont2)| == |cont1| * |cont2|
    ensures i * |cont2| + j < |cont1| * |cont2|
    ensures AllPairs(cont1, cont2)[i * |cont2| + j] == Comparison(Score(cont1[i], cont2[j]), cont1[i], cont2[j])
  {
    AllPairsAtOffset(cont1, cont2, i, j);
    AllPairsLength(cont1, cont2);
    OffsetIsProduct(i, |cont2|);
  }

  // ---------------------------------------------------------------------------
  // The sort at the end of find_comprasions

  predicate SortedByScore(s: seq<Comparison>) {
    forall i, j | 0 <= i < j < |s| :: s[i].score <= s[j].score
  }

  /** Puts x before the first entry whose score is not smaller, so equal scores keep their order. */
  function Insert(x: Comparison, s: seq<Comparison>): (r: seq<Comparison>)
    ensures |r| == |s| + 1
  {
    if s == [] || x.score <= s[0].score then [x] + s else [s[0]] + Insert(x, s[1..])
  }

  /** A bound below x and below every entry of s stays below every entry after the insertion. */
  lemma {:induction false} InsertBound(x: Comparison, s: seq<Comparison>, b: int)
    requires b <= x.score && forall k | 0 <= k < |s| :: b <= s[k].score
    ensures |Insert(x, s)| == |s| + 1
    ensures forall k | 0 <= k < |Insert(x, s)| :: b <= Insert(x, s)[k].score
  {
    if s != [] && x.score > s[0].score {
      InsertBound(x, s[1..], b);
    }
  }

  /** Insertion adds exactly the new entry. */
  lemma {:induction false} InsertMultiset(x: Comparison, s: seq<Comparison>)
    ensures multiset(Insert(x, s)) == multiset(s) + multiset{x}
  {
    if s != [] && x.score > s[0].score {
      InsertMultiset(x, s[1..]);
      assert s == [s[0]] + s[1..];
    }
  }

  /** Inserting into a sorted list keeps it sorted and adds exactly the new entry. */
  lemma {:induction false} InsertSorted(x: Comparison, s: seq<Comparison>)
    requires SortedByScore(s)
    ensures SortedByScore(Insert(x, s))
    ensures multiset(Insert(x, s)) == multiset(s) + multiset{x}
  {
    InsertMultiset(x, s);
    if s != [] && x.score > s[0].score {
      var t := Insert(x, s[1..]);
      InsertSorted(x, s[1..]);
      InsertBound(x, s[1..], s[0].score);
      assert Insert(x, s) == [s[0]] + t;
    }
  }

  /** A stable insertion sort by score, the order that `result.sort(key=lambda k: k[0])` would give. */
  function SortByScore(s: seq<Comparison>): (r: seq<Comparison>)
    ensures |r| == |s|
  {
    if s == [] then [] else Insert(s[0], SortByScore(s[1..]))
  }

  /** The sorted list is ordered by score and holds exactly the entries it was given. */
  lemma {:induction false} SortByScoreSpec(s: seq<Comparison>)
    ensures SortedByScore(SortByScore(s))
    ensures multiset(SortByScore(s)) == multiset(s)
  {
    if s != [] {
      SortByScoreSpec(s[1..]);
      InsertSorted(s[0], SortByScore(s[1..]));
      assert s == [s[0]] + s[1..];
    }
  }

  /**
   * find_comprasions as written: the pairs are built, then line 20 passes the
   * key to list.sort positionally, which list.sort rejects with a TypeError
   * whatever the list holds, so the call never returns a list.
   */
  method FindComparisonsAsWritten(cont1: seq<seq<Part>>, cont2: seq<seq<Part>>)
    returns (r: Result<seq<Comparison>, DiffError>)
    ensures r == Failure(TypeError)
  {
    var result := BuildComparisons(cont1, cont2);
    r := Failure(TypeError);
  }

  /**
   * find_comprasions with the sort it evidently means: every pair, ordered by
   * score, and nothing else.
   */
  method FindComparisons(cont1: seq<seq<Part>>, cont2: seq<seq<Part>>) returns (r: seq<Comparison>)
    ensures |r| == |cont1| * |cont2|
    ensures SortedByScore(r)
    ensures multiset(r) == multiset(AllPairs(cont1, cont2))
  {
    var result := BuildComparisons(cont1, cont2);
    AllPairsLength(cont1, cont2);
    r := SortByScore(result);
    SortByScoreSpec(result);
    assert |r| == |multiset(r)| == |multiset(result)| == |result|;
  }

  // ---------------------------------------------------------------------------
  // diffegraphs

  /** A DiffExplainingGraph: only the id it hands to its base class is modelled. */
  datatype DiffExplainingGraph = DiffExplainingGraph(id: string)

  /**
   * diffegraphs as written: the diff graph is created, then the call to
   * find_comprasions raises, so the TypeError reaches the caller and no graph
   * is returned, whatever the two arguments are.
   */
  method DiffEgraphs(egr1: seq<seq<Part>>, egr2: seq<seq<Part>>) returns (r: Result<DiffExplainingGraph, DiffError>)
    ensures r == Failure(TypeError)
  {
    var result := DiffExplainingGraph("diffegraph");
    var comparisons := FindComparisonsAsWritten(egr1, egr2);
    r := if comparisons.Failure? then Failure(comparisons.error) else Success(result);
  }

  /**
   * diffegraphs with the corrected find_comprasions: the comparisons are
   * computed and dropped, and the result is always a fresh, empty diff graph.
   */
  method DiffEgraphsCorrected(egr1: seq<seq<Part>>, egr2: seq<seq<Part>>) returns (result: DiffExplainingGraph)
    ensures result == DiffExplainingGraph("diffegraph")
  {
    result := DiffExplainingGraph("diffegraph");
    var comparisons := FindComparisons(egr1, egr2);
  }
}
