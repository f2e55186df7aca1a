/**
 * score.py: the weighted dictionary score of one text, and the ranked
 * record table that `scores_to_csv` / `scores_to_json` write out.
 */
module Score {
  import opened PyStr
  import PySorted

  // ---------------------------------------------------------------------------
  // weighted_score_calculation
  // ---------------------------------------------------------------------------

  /**
   * One dictionary entry's value: `text.lower().count(term.lower()) * weight`.
   * It vanishes when the weight is 0 or the term does not occur.
   */
  function Contribution(text: string, entry: (string, real)): (r: real)
    ensures entry.1 == 0.0 ==> r == 0.0
    ensures Count(Lower(text), Lower(entry.0)) == 0 ==> r == 0.0
  {
    Count(Lower(text), Lower(entry.0)) as real * entry.1
  }

  /** The value takes the sign of the weight. */
  lemma ContributionSign(text: string, entry: (string, real))
    ensures entry.1 >= 0.0 ==> Contribution(text, entry) >= 0.0
    ensures entry.1 <= 0.0 ==> Contribution(text, entry) <= 0.0
  {
    var c := Count(Lower(text), Lower(entry.0)) as real;
    assert entry.1 >= 0.0 ==> c * entry.1 >= 0.0;
    assert entry.1 <= 0.0 ==> c * entry.1 <= 0.0;
  }

  predicate NoNegativeWeight(matrix: seq<(string, real)>)
  {
    forall k :: 0 <= k < |matrix| ==> matrix[k].1 >= 0.0
  }

  predicate NoPositiveWeight(matrix: seq<(string, real)>)
  {
    forall k :: 0 <= k < |matrix| ==> matrix[k].1 <= 0.0
  }

  /** The total over the entries, in order; never negative when no weight is. */
  function WeightedSum(text: string, matrix: seq<(string, real)>): (r: real)
    ensures NoNegativeWeight(matrix) ==> r >= 0.0
  {
    if |matrix| == 0 then 0.0
    else
      ContributionSign(text, matrix[|matrix| - 1]);
      WeightedSum(text, matrix[..|matrix| - 1]) + Contribution(text, matrix[|matrix| - 1])
  }

  /**
   * The original-case terms whose value is positive, in order, repeats kept:
   * at most one per entry, and none when no weight is positive.
   */
  function FoundTerms(text: string, matrix: seq<(string, real)>): (r: seq<string>)
    ensures |r| <= |matrix|
    ensures NoPositiveWeight(matrix) ==> r == []
  {
    if |matrix| == 0 then []
    else
      var last := matrix[|matrix| - 1];
      ContributionSign(text, last);
      FoundTerms(text, matrix[..|matrix| - 1]) + (if Contribution(text, last) > 0.0 then [last.0] else [])
  }

  lemma SumStep(text: string, matrix: seq<(string, real)>, i: nat)
    requires i < |matrix|
    ensures WeightedSum(text, matrix[..i + 1]) == WeightedSum(text, matrix[..i]) + Contribution(text, matrix[i])
    ensures FoundTerms(text, matrix[..i + 1]) ==
      FoundTerms(text, matrix[..i]) + (if Contribution(text, matrix[i]) > 0.0 then [matrix[i].0] else [])
  {
    assert matrix[..i + 1][..i] == matrix[..i];
  }

  /** `weighted_score_calculation(text, matrix)`. */
  method WeightedScoreCalculation(text: string, matrix: seq<(string, real)>)
    returns (score: real, includedTerms: seq<string>)
    ensures score == WeightedSum(text, matrix)
    ensures includedTerms == FoundTerms(text, matrix)
  {
    score := 0.0;
    includedTerms := [];
    var i := 0;
    while i < |matrix|
      invariant 0 <= i <= |matrix|
      invariant score == WeightedSum(text, matrix[..i])
      invariant includedTerms == FoundTerms(text, matrix[..i])
    {
      var item := matrix[i];
      var value := Contribution(text, item);
      SumStep(text, matrix, i);
      score := score + value;
      if value > 0.0 {
        includedTerms := includedTerms + [item.0];
      }
      i := i + 1;
    }
    assert matrix[..i] == matrix;
  }

  /**
   * A term is found exactly when its weight is positive and it occurs, case
   * aside, in the text; a present term with a zero or negative weight is not.
   */
  lemma ContributionPositiveIff(text: string, entry: (string, real))
    ensures Contribution(text, entry) > 0.0 <==>
      entry.1 > 0.0 && exists k :: OccursAt(Lower(text), Lower(entry.0), k)
  {
    var c := Count(Lower(text), Lower(entry.0)) as real;
    if c > 0.0 && entry.1 > 0.0 {
      assert c * entry.1 > 0.0;
    } else if c == 0.0 {
      assert c * entry.1 == 0.0;
    } else {
      assert c * entry.1 <= 0.0;
    }
  }

  /** Every found term comes from an entry of the matrix with a positive value. */
  lemma {:induction false} FoundTermsFromMatrix(text: string, matrix: seq<(string, real)>)
    ensures forall t :: t in FoundTerms(text, matrix) ==>
      exists i :: 0 <= i < |matrix| && matrix[i].0 == t && Contribution(text, matrix[i]) > 0.0
  {
    if |matrix| > 0 {
      var init := matrix[..|matrix| - 1];
      FoundTermsFromMatrix(text, init);
      forall t | t in FoundTerms(text, matrix)
        ensures exists i :: 0 <= i < |matrix| && matrix[i].0 == t && Contribution(text, matrix[i]) > 0.0
      {
        if t in FoundTerms(text, init) {
          var i :| 0 <= i < |init| && init[i].0 == t && Contribution(text, init[i]) > 0.0;
          assert matrix[i] == init[i];
        } else {
          assert matrix[|matrix| - 1].0 == t;
        }
      }
    }
  }

  /** Scoring against `m1 + m2` adds the scores and concatenates the found terms. */
  lemma {:induction false} ScoreConcat(text: string, m1: seq<(string, real)>, m2: seq<(string, real)>)
    ensures WeightedSum(text, m1 + m2) == WeightedSum(text, m1) + WeightedSum(text, m2)
    ensures FoundTerms(text, m1 + m2) == FoundTerms(text, m1) + FoundTerms(text, m2)
    decreases |m2|
  {
    if |m2| == 0 {
      assert m1 + m2 == m1;
    } else {
      var init := m2[..|m2| - 1];
      var last := m2[|m2| - 1];
      assert (m1 + m2)[..|m1 + m2| - 1] == m1 + init;
      assert (m1 + m2)[|m1 + m2| - 1] == last;
      ScoreConcat(text, m1, init);
      var tail := if Contribution(text, last) > 0.0 then [last.0] else [];
      assert FoundTerms(text, m1 + m2) == FoundTerms(text, m1 + init) + tail;
      assert FoundTerms(text, m2) == FoundTerms(text, init) + tail;
    }
  }

  /** The letter case of the text does not matter. */
  lemma {:induction false} TextCaseIrrelevant(text: string, text': string, matrix: seq<(string, real)>)
    requires Lower(text) == Lower(text')
    ensures WeightedSum(text, matrix) == WeightedSum(text', matrix)
    ensures FoundTerms(text, matrix) == FoundTerms(text', matrix)
  {
    if |matrix| > 0 {
      var last := matrix[|matrix| - 1];
      TextCaseIrrelevant(text, text', matrix[..|matrix| - 1]);
      ContributionTextCase(text, text', last);
    }
  }

  lemma ContributionTextCase(text: string, text': string, entry: (string, real))
    requires Lower(text) == Lower(text')
    ensures Contribution(text, entry) == Contribution(text', entry)
  {
  }

  function LowerTerms(matrix: seq<(string, real)>): (r: seq<(string, real)>)
    ensures |r| == |matrix|
  {
    if |matrix| == 0 then []
    else LowerTerms(matrix[..|matrix| - 1]) + [(Lower(matrix[|matrix| - 1].0), matrix[|matrix| - 1].1)]
  }

  function LowerAll(terms: seq<string>): seq<string>
  {
    if |terms| == 0 then [] else LowerAll(terms[..|terms| - 1]) + [Lower(terms[|terms| - 1])]
  }

  lemma LowerAllAppend(a: seq<string>, b: seq<string>)
    requires |b| <= 1
    ensures LowerAll(a + b) == LowerAll(a) + LowerAll(b)
  {
    if |b| == 1 {
      assert (a + b)[..|a + b| - 1] == a;
      assert b[..0] == [];
    } else {
      assert a + b == a;
    }
  }

  lemma ContributionLowerTerm(text: string, entry: (string, real))
    ensures Contribution(text, (Lower(entry.0), entry.1)) == Contribution(text, entry)
  {
    LowerIdempotent(entry.0);
  }

  lemma LowerTermsSnoc(matrix: seq<(string, real)>)
    requires |matrix| > 0
    ensures LowerTerms(matrix)[..|matrix| - 1] == LowerTerms(matrix[..|matrix| - 1])
    ensures LowerTerms(matrix)[|matrix| - 1] == (Lower(matrix[|matrix| - 1].0), matrix[|matrix| - 1].1)
  {
  }

  /** Lower-casing every term keeps the score: the letter case of the terms does not matter. */
  lemma {:induction false} TermCaseKeepsScore(text: string, matrix: seq<(string, real)>)
    ensures WeightedSum(text, LowerTerms(matrix)) == WeightedSum(text, matrix)
  {
    if |matrix| > 0 {
      TermCaseKeepsScore(text, matrix[..|matrix| - 1]);
      LowerTermsSnoc(matrix);
      ContributionLowerTerm(text, matrix[|matrix| - 1]);
    }
  }

  /** Lower-casing every term finds the same entries, lower-cased. */
  lemma {:induction false} TermCaseKeepsFound(text: string, matrix: seq<(string, real)>)
    ensures FoundTerms(text, LowerTerms(matrix)) == LowerAll(FoundTerms(text, matrix))
  {
    if |matrix| > 0 {
      var init := matrix[..|matrix| - 1];
      var last := matrix[|matrix| - 1];
      TermCaseKeepsFound(text, init);
      LowerTermsSnoc(matrix);
      ContributionLowerTerm(text, last);
      var tail := if Contribution(text, last) > 0.0 then [last.0] else [];
      LowerAllAppend(FoundTerms(text, init), tail);
      if |tail| == 1 {
        assert tail[..0] == [];
        assert LowerAll(tail) == [Lower(last.0)];
      }
    }
  }

  lemma CataclysmCount()
    ensures CountFrom("cataclysm", "cat") == 1
  {
    var tail := "cataclysm";
    assert tail[..3] == "cat";
    assert tail[3..] == "aclysm";
    CountFromMisses("aclysm", "cat");
  }

  /** `str.count` finds "cat" twice in "category cataclysm", left to right. */
  lemma CategoryCount()
    ensures Count("category cataclysm", "cat") == 2
  {
    var text := "category cataclysm";
    assert text[..3] == "cat";
    assert text[3..] == "egory " + "cataclysm";
    CountFromSkip("egory ", "cataclysm", "cat");
    CataclysmCount();
  }

  lemma CategoryContribution()
    ensures Contribution("category cataclysm", ("cat", 2.0)) == 4.0
  {
    LowerOfNoUpper("category cataclysm");
    LowerOfNoUpper("cat");
    CategoryCount();
  }

  /** "category cataclysm" scored with ("cat", 2.0): two occurrences, score 4.0, ["cat"] found. */
  lemma CategoryExample()
    ensures WeightedSum("category cataclysm", [("cat", 2.0)]) == 4.0
    ensures FoundTerms("category cataclysm", [("cat", 2.0)]) == ["cat"]
  {
    CategoryContribution();
    var m := [("cat", 2.0)];
    assert m[..0] == [];
    assert m[0] == ("cat", 2.0);
  }

  /** No position of `s` holds the first two characters of `sub`: no occurrence. */
  lemma {:induction false} CountFromMisses(s: string, sub: string)
    requires |sub| >= 2
    requires forall k :: 0 <= k < |s| - 1 ==> !(s[k] == sub[0] && s[k + 1] == sub[1])
    ensures CountFrom(s, sub) == 0
    decreases |s|
  {
    if |s| >= |sub| {
      assert s[..|sub|][0] == s[0] && s[..|sub|][1] == s[1];
      CountFromMisses(s[1..], sub);
    }
  }

  /** A prefix without the first character of `sub` is skipped over. */
  lemma {:induction false} CountFromSkip(p: string, s: string, sub: string)
    requires |sub| > 0
    requires forall k :: 0 <= k < |p| ==> p[k] != sub[0]
    ensures CountFrom(p + s, sub) == CountFrom(s, sub)
    decreases |p|
  {
    if |p| > 0 {
      var ps := p + s;
      assert ps[1..] == p[1..] + s;
      if |ps| >= |sub| {
        assert ps[..|sub|][0] != sub[0];
      }
      CountFromSkip(p[1..], s, sub);
    } else {
      assert p + s == s;
    }
  }

  /** A present term with a negative weight lowers the score and is not listed. */
  lemma NegativeWeightExample()
    ensures WeightedSum("cat", [("cat", -1.0)]) == -1.0
    ensures FoundTerms("cat", [("cat", -1.0)]) == []
  {
    assert Lower("cat") == "cat";
    assert "cat"[..3] == "cat" && "cat"[3..] == "";
    assert [("cat", -1.0)][..0] == [];
  }

  // ---------------------------------------------------------------------------
  // The ranked record table of scores_to_csv / scores_to_json
  // ---------------------------------------------------------------------------

  /** One output row `[text, score, terms_found]`. */
  datatype Record = Record(text: string, score: real, termsFound: seq<string>)

  /** The sort key `l[-2]`: the score column. */
  function RecordScore(r: Record): real { r.score }

  /** Row i pairs the i-th raw text with the i-th (score, found terms). */
  function Records(x: seq<string>, scored: seq<(real, seq<string>)>): (rows: seq<Record>)
    requires |x| <= |scored|
    ensures |rows| == |x|
    ensures forall i :: 0 <= i < |x| ==>
      rows[i].text == x[i] && rows[i].score == scored[i].0 && rows[i].termsFound == scored[i].1
  {
    seq(|x|, i requires 0 <= i < |x| => Record(x[i], scored[i].0, scored[i].1))
  }

  /** The table assembled by the `append` loop and sorted by `sorted(..., reverse=True)`. */
  method RankRecords(x: seq<string>, scored: seq<(real, seq<string>)>) returns (table: seq<Record>)
    requires |x| <= |scored|
    ensures table == PySorted.SortedDesc(Records(x, scored), RecordScore)
    ensures |table| == |x|
    ensures multiset(table) == multiset(Records(x, scored))
    ensures PySorted.NonIncreasing(table, RecordScore)
    ensures PySorted.Stable(table, Records(x, scored), RecordScore)
  {
    var rows: seq<Record> := [];
    var i := 0;
    while i < |x|
      invariant 0 <= i <= |x|
      invariant rows == Records(x[..i], scored)
    {
      rows := rows + [Record(x[i], scored[i].0, scored[i].1)];
      i := i + 1;
    }
    assert x[..i] == x;
    table := PySorted.SortedDesc(rows, RecordScore);
    PySorted.SortedDescStable(rows, RecordScore);
  }
}
