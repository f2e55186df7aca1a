/**
 * generate.py: n-gram extraction, the 2x2 contingency counts of every n-gram
 * against a relevance label, the four IR scores (CC, RSV, RCV, DRC) with their
 * fall-back to 0 on an arithmetic error, and the ranked term table.
 */
module Generate {
  import opened Wrappers
  import opened PyStr
  import PySorted

  // ---------------------------------------------------------------------------
  // N-gram extraction
  // ---------------------------------------------------------------------------

  /**
   * `nltk.everygrams(doc, min_len = length, max_len = length)`: the windows of
   * exactly `length` tokens, by start position.
   */
  function Everygrams(doc: seq<string>, length: nat): (r: seq<seq<string>>)
    requires length >= 1
    ensures |r| == if |doc| < length then 0 else |doc| - length + 1
    ensures forall k :: 0 <= k < |r| ==> r[k] == doc[k..k + length]
    decreases |doc|
  {
    if |doc| < length then []
    else
      var rest := Everygrams(doc[1..], length);
      assert forall k :: 0 <= k < |rest| ==> rest[k] == doc[k + 1..k + 1 + length];
      [doc[..length]] + rest
  }

  /** The n-grams of one document, each window joined by one space. */
  function NgramsOf(doc: seq<string>, length: nat): (r: seq<string>)
    requires length >= 1
    ensures |r| == if |doc| < length then 0 else |doc| - length + 1
    ensures forall k :: 0 <= k < |r| ==> r[k] == Join(doc[k..k + length], " ")
  {
    var windows := Everygrams(doc, length);
    seq(|windows|, k requires 0 <= k < |windows| => Join(windows[k], " "))
  }

  /** One row of the n-gram matrix: the document's n-grams and its relevance. */
  datatype Row = Row(ngrams: seq<string>, relevance: real)

  /** The `IndexError` of reading `y[i]` past the end of the labels. */
  datatype MatrixError = LabelIndexOutOfRange(index: nat)

  /**
   * `build_ngram_matrix(documents, length, y)`. Rows are built in document
   * order, so with fewer labels than documents the first missing label,
   * `y[len(y)]`, raises.
   */
  function BuildNgramMatrix(documents: seq<seq<string>>, length: nat, y: seq<real>): (r: Result<seq<Row>, MatrixError>)
    requires length >= 1
    ensures r.Err? <==> |documents| > |y|
    ensures r.Err? ==> r.error == LabelIndexOutOfRange(|y|)
    ensures r.Ok? ==> |r.value| == |documents|
    ensures r.Ok? ==> forall i :: 0 <= i < |r.value| ==> r.value[i].relevance == y[i]
    ensures r.Ok? ==> forall i :: 0 <= i < |r.value| ==>
      |r.value[i].ngrams| == (if |documents[i]| < length then 0 else |documents[i]| - length + 1)
    ensures r.Ok? ==> forall i, k :: 0 <= i < |r.value| && 0 <= k < |r.value[i].ngrams| ==>
      r.value[i].ngrams[k] == Join(documents[i][k..k + length], " ")
  {
    if |documents| > |y| then Err(LabelIndexOutOfRange(|y|))
    else Ok(seq(|documents|, i requires 0 <= i < |documents| => Row(NgramsOf(documents[i], length), y[i])))
  }

  /** Two documents and one label: reading the second label raises. */
  lemma MissingLabelExample()
    ensures BuildNgramMatrix([["hello", "world"], ["just", "text"]], 1, [1.0]) == Err(LabelIndexOutOfRange(1))
  {
  }

  /** `get_unique_ngrams(documents, length)`: every joined window of every document, once. */
  method GetUniqueNgrams(documents: seq<seq<string>>, length: nat) returns (u: set<string>)
    requires length >= 1
    ensures forall g :: g in u <==> exists i :: 0 <= i < |documents| && g in NgramsOf(documents[i], length)
  {
    u := {};
    var i := 0;
    while i < |documents|
      invariant 0 <= i <= |documents|
      invariant forall g :: g in u <==> exists i' :: 0 <= i' < i && g in NgramsOf(documents[i'], length)
    {
      var windows := Everygrams(documents[i], length);
      ghost var joined := NgramsOf(documents[i], length);
      var j := 0;
      while j < |windows|
        invariant 0 <= j <= |windows|
        invariant forall g :: g in u <==>
          (exists i' :: 0 <= i' < i && g in NgramsOf(documents[i'], length)) || g in joined[..j]
      {
        var termStr := Join(windows[j], " ");
        assert joined[..j + 1] == joined[..j] + [termStr];
        u := u + {termStr};
        j := j + 1;
      }
      assert joined[..j] == joined;
      i := i + 1;
    }
  }

  /** Every n-gram of every row is in the universe: the matrix rows never miss a key. */
  predicate AllKnown(matrix: seq<Row>, universe: set<string>)
  {
    forall i, k :: 0 <= i < |matrix| && 0 <= k < |matrix[i].ngrams| ==> matrix[i].ngrams[k] in universe
  }

  lemma MatrixWithinUniverse(documents: seq<seq<string>>, length: nat, y: seq<real>, u: set<string>)
    requires length >= 1
    requires forall g :: g in u <==> exists i :: 0 <= i < |documents| && g in NgramsOf(documents[i], length)
    ensures BuildNgramMatrix(documents, length, y).Ok? ==> AllKnown(BuildNgramMatrix(documents, length, y).value, u)
  {
    if |documents| > |y| {
      return;
    }
    var m := BuildNgramMatrix(documents, length, y).value;
    forall i, k | 0 <= i < |m| && 0 <= k < |m[i].ngrams| ensures m[i].ngrams[k] in u {
      assert m[i].ngrams == NgramsOf(documents[i], length);
    }
  }

  // ---------------------------------------------------------------------------
  // Contingency counts
  // ---------------------------------------------------------------------------

  /** `xs.count(g)`. */
  function CountIn(g: string, xs: seq<string>): nat
  {
    if |xs| == 0 then 0 else CountIn(g, xs[..|xs| - 1]) + (if xs[|xs| - 1] == g then 1 else 0)
  }

  /** `y.count(v)` over labels. */
  function CountLabel(y: seq<real>, v: real): nat
  {
    if |y| == 0 then 0 else CountLabel(y[..|y| - 1], v) + (if y[|y| - 1] == v then 1 else 0)
  }

  /** `g` occurs in no row whose label is 1 (when `relevant`) or in no other row. */
  predicate AbsentFrom(rows: seq<Row>, g: string, relevant: bool)
  {
    forall i :: 0 <= i < |rows| && (rows[i].relevance == 1.0) == relevant ==> g !in rows[i].ngrams
  }

  /** Occurrences of `g` over the rows labelled 1 (every repeat in a row counts). */
  function OccA(rows: seq<Row>, g: string): (r: nat)
  {
    if |rows| == 0 then 0
    else
      OccA(rows[..|rows| - 1], g) + (if rows[|rows| - 1].relevance == 1.0 then CountIn(g, rows[|rows| - 1].ngrams) else 0)
  }

  /** Occurrences of `g` over the rows whose label is not 1. */
  function OccB(rows: seq<Row>, g: string): (r: nat)
  {
    if |rows| == 0 then 0
    else
      OccB(rows[..|rows| - 1], g) + (if rows[|rows| - 1].relevance != 1.0 then CountIn(g, rows[|rows| - 1].ngrams) else 0)
  }

  lemma AbsentFromSnoc(rows: seq<Row>, g: string, relevant: bool)
    requires |rows| > 0
    ensures AbsentFrom(rows, g, relevant) <==>
      AbsentFrom(rows[..|rows| - 1], g, relevant) &&
      ((rows[|rows| - 1].relevance == 1.0) == relevant ==> g !in rows[|rows| - 1].ngrams)
  {
    var init := rows[..|rows| - 1];
    assert forall i :: 0 <= i < |init| ==> init[i] == rows[i];
  }

  lemma {:induction false} CountInZeroIff(g: string, xs: seq<string>)
    ensures CountIn(g, xs) == 0 <==> g !in xs
  {
    if |xs| > 0 {
      CountInZeroIff(g, xs[..|xs| - 1]);
      assert xs == xs[..|xs| - 1] + [xs[|xs| - 1]];
    }
  }

  /**
   * An n-gram counts 0 towards a (or b) exactly when it occurs in no row
   * labelled 1 (or in no other row).
   */
  lemma {:induction false} OccZeroIff(rows: seq<Row>, g: string)
    ensures OccA(rows, g) == 0 <==> AbsentFrom(rows, g, true)
    ensures OccB(rows, g) == 0 <==> AbsentFrom(rows, g, false)
  {
    if |rows| > 0 {
      OccZeroIff(rows[..|rows| - 1], g);
      AbsentFromSnoc(rows, g, true);
      AbsentFromSnoc(rows, g, false);
      CountInZeroIff(g, rows[|rows| - 1].ngrams);
    }
  }

  datatype Table = Table(a: int, b: int, c: int, d: int)

  /** The contingency table `ir_score` builds for `g`. */
  function ContingencyTable(matrix: seq<Row>, y: seq<real>, g: string): (t: Table)
    ensures t.a >= 0 && t.b >= 0
    ensures t.a + t.c == CountLabel(y, 1.0)
    ensures t.b + t.d == CountLabel(y, 0.0)
    ensures t.a + t.b + t.c + t.d == CountLabel(y, 1.0) + CountLabel(y, 0.0)
  {
    var a := OccA(matrix, g);
    var b := OccB(matrix, g);
    Table(a, b, CountLabel(y, 1.0) - a, CountLabel(y, 0.0) - b)
  }

  /** Repeats inside one document each count: a can exceed the number of relevant documents. */
  lemma RepeatsCount()
    ensures ContingencyTable([Row(["cat", "cat"], 1.0)], [1.0], "cat") == Table(2, 0, -1, 0)
  {
    assert [Row(["cat", "cat"], 1.0)][..0] == [];
    assert ["cat", "cat"][..1] == ["cat"];
    assert ["cat"][..0] == [];
    assert [1.0][..0] == [];
  }

  /** Unigrams of ["cat", "sat"] (relevant) and ["dog", "ran"]: the table of "cat" is (1, 0, 0, 1). */
  lemma UnigramExample()
    ensures BuildNgramMatrix([["cat", "sat"], ["dog", "ran"]], 1, [1.0, 0.0]).Ok?
    ensures ContingencyTable(BuildNgramMatrix([["cat", "sat"], ["dog", "ran"]], 1, [1.0, 0.0]).value, [1.0, 0.0], "cat")
      == Table(1, 0, 0, 1)
  {
    UnigramMatrix();
    UnigramTable();
  }

  lemma UnigramMatrix()
    ensures BuildNgramMatrix([["cat", "sat"], ["dog", "ran"]], 1, [1.0, 0.0])
      == Ok([Row(["cat", "sat"], 1.0), Row(["dog", "ran"], 0.0)])
  {
    var docs := [["cat", "sat"], ["dog", "ran"]];
    var rows := BuildNgramMatrix(docs, 1, [1.0, 0.0]).value;
    Unigrams(docs[0]);
    Unigrams(docs[1]);
    assert rows[0].ngrams == NgramsOf(docs[0], 1);
    assert rows[1].ngrams == NgramsOf(docs[1], 1);
    assert rows[0] == Row(["cat", "sat"], 1.0) && rows[1] == Row(["dog", "ran"], 0.0);
    assert rows == [Row(["cat", "sat"], 1.0), Row(["dog", "ran"], 0.0)];
  }

  /** Unigrams are the tokens themselves. */
  lemma Unigrams(doc: seq<string>)
    ensures NgramsOf(doc, 1) == doc
  {
    var r := NgramsOf(doc, 1);
    forall k | 0 <= k < |doc| ensures r[k] == doc[k] {
      assert doc[k..k + 1] == [doc[k]];
    }
  }

  lemma UnigramTable()
    ensures ContingencyTable([Row(["cat", "sat"], 1.0), Row(["dog", "ran"], 0.0)], [1.0, 0.0], "cat") == Table(1, 0, 0, 1)
  {
    var rows := [Row(["cat", "sat"], 1.0), Row(["dog", "ran"], 0.0)];
    assert rows[..1] == [Row(["cat", "sat"], 1.0)];
    assert rows[..1][..0] == [];
    assert ["cat", "sat"][..1] == ["cat"];
    assert ["dog", "ran"][..1] == ["dog"];
    assert ["cat"][..0] == [] && ["dog"][..0] == [];
    assert [1.0, 0.0][..1] == [1.0];
    assert [1.0][..0] == [];
    assert CountIn("cat", ["cat", "sat"]) == 1;
    assert CountIn("cat", ["dog", "ran"]) == 0;
    assert OccA(rows, "cat") == 1;
    assert OccB(rows, "cat") == 0;
    assert CountLabel([1.0, 0.0], 1.0) == 1;
    assert CountLabel([1.0, 0.0], 0.0) == 1;
  }

  /** A label that is neither 0 nor 1 counts towards b but not towards count(y, 0), so d < 0. */
  lemma OtherLabelMakesDNegative()
    ensures ContingencyTable([Row(["cat"], 2.0)], [2.0], "cat") == Table(0, 1, 0, -1)
  {
    assert [Row(["cat"], 2.0)][..0] == [];
    assert ["cat"][..0] == [];
    assert [2.0][..0] == [];
  }

  lemma {:induction false} OccABound(rows: seq<Row>, y: seq<real>, g: string)
    requires |rows| == |y|
    requires forall i :: 0 <= i < |rows| ==> rows[i].relevance == y[i] && CountIn(g, rows[i].ngrams) <= 1
    ensures OccA(rows, g) <= CountLabel(y, 1.0)
  {
    if |rows| > 0 {
      OccABound(rows[..|rows| - 1], y[..|y| - 1], g);
    }
  }

  lemma {:induction false} OccBBound(rows: seq<Row>, y: seq<real>, g: string)
    requires |rows| == |y|
    requires forall i :: 0 <= i < |rows| ==> rows[i].relevance == y[i] && CountIn(g, rows[i].ngrams) <= 1
    requires forall i :: 0 <= i < |y| ==> y[i] == 0.0 || y[i] == 1.0
    ensures OccB(rows, g) <= CountLabel(y, 0.0)
  {
    if |rows| > 0 {
      OccBBound(rows[..|rows| - 1], y[..|y| - 1], g);
    }
  }

  /**
   * The tables are non-negative when the matrix carries y's labels, the
   * n-gram occurs at most once per document, and (for d) every label is 0 or 1.
   */
  lemma PresenceTableNonNegative(matrix: seq<Row>, y: seq<real>, g: string)
    requires |matrix| == |y|
    requires forall i :: 0 <= i < |matrix| ==> matrix[i].relevance == y[i] && CountIn(g, matrix[i].ngrams) <= 1
    ensures ContingencyTable(matrix, y, g).c >= 0
    ensures (forall i :: 0 <= i < |y| ==> y[i] == 0.0 || y[i] == 1.0) ==> ContingencyTable(matrix, y, g).d >= 0
  {
    OccABound(matrix, y, g);
    if forall i :: 0 <= i < |y| ==> y[i] == 0.0 || y[i] == 1.0 {
      OccBBound(matrix, y, g);
    }
  }

  predicate Distinct(us: seq<string>)
  {
    forall i, j :: 0 <= i < j < |us| ==> us[i] != us[j]
  }

  /** The sum over `us` of `xs.count(g)`. */
  function SumCount(us: seq<string>, xs: seq<string>): nat
  {
    if |us| == 0 then 0 else SumCount(us[..|us| - 1], xs) + CountIn(us[|us| - 1], xs)
  }

  /** The sum over `us` of `a[g]`. */
  function SumA(us: seq<string>, rows: seq<Row>): nat
  {
    if |us| == 0 then 0 else SumA(us[..|us| - 1], rows) + OccA(rows, us[|us| - 1])
  }

  /** The number of windows in the rows labelled 1. */
  function RelevantWindows(rows: seq<Row>): nat
  {
    if |rows| == 0 then 0
    else RelevantWindows(rows[..|rows| - 1]) + (if rows[|rows| - 1].relevance == 1.0 then |rows[|rows| - 1].ngrams| else 0)
  }

  /** An n-gram occurs at most once in a duplicate-free enumeration. */
  lemma {:induction false} CountInDistinct(us: seq<string>, x: string)
    requires Distinct(us)
    ensures CountIn(x, us) == if x in us then 1 else 0
  {
    if |us| > 0 {
      var init := us[..|us| - 1];
      CountInDistinct(init, x);
      assert us == init + [us[|us| - 1]];
      assert us[|us| - 1] !in init;
    }
  }

  lemma {:induction false} SumCountSnoc(us: seq<string>, xs: seq<string>, x: string)
    ensures SumCount(us, xs + [x]) == SumCount(us, xs) + CountIn(x, us)
  {
    if |us| > 0 {
      SumCountSnoc(us[..|us| - 1], xs, x);
      assert (xs + [x])[..|xs|] == xs;
    }
  }

  lemma {:induction false} SumCountLength(us: seq<string>, xs: seq<string>)
    requires Distinct(us)
    requires forall k :: 0 <= k < |xs| ==> xs[k] in us
    ensures SumCount(us, xs) == |xs|
  {
    if |xs| == 0 {
      SumCountEmpty(us);
    } else {
      var init := xs[..|xs| - 1];
      assert xs == init + [xs[|xs| - 1]];
      SumCountLength(us, init);
      SumCountSnoc(us, init, xs[|xs| - 1]);
      CountInDistinct(us, xs[|xs| - 1]);
    }
  }

  lemma {:induction false} SumCountEmpty(us: seq<string>)
    ensures SumCount(us, []) == 0
  {
    if |us| > 0 {
      SumCountEmpty(us[..|us| - 1]);
    }
  }

  lemma {:induction false} SumASnoc(us: seq<string>, rows: seq<Row>, row: Row)
    ensures SumA(us, rows + [row]) == SumA(us, rows) + (if row.relevance == 1.0 then SumCount(us, row.ngrams) else 0)
  {
    assert (rows + [row])[..|rows|] == rows;
    if |us| > 0 {
      SumASnoc(us[..|us| - 1], rows, row);
    }
  }

  lemma {:induction false} SumAEmpty(us: seq<string>)
    ensures SumA(us, []) == 0
  {
    if |us| > 0 {
      SumAEmpty(us[..|us| - 1]);
    }
  }

  /**
   * Summed over an enumeration of the universe, the a counts add up to the
   * number of windows in the rows labelled 1.
   */
  lemma {:induction false} SumOfA(us: seq<string>, matrix: seq<Row>)
    requires Distinct(us)
    requires forall i, k :: 0 <= i < |matrix| && 0 <= k < |matrix[i].ngrams| ==> matrix[i].ngrams[k] in us
    ensures SumA(us, matrix) == RelevantWindows(matrix)
  {
    if |matrix| == 0 {
      SumAEmpty(us);
    } else {
      var init := matrix[..|matrix| - 1];
      var row := matrix[|matrix| - 1];
      assert matrix == init + [row];
      SumOfA(us, init);
      SumASnoc(us, init, row);
      SumCountLength(us, row.ngrams);
    }
  }

  // ---------------------------------------------------------------------------
  // Score formulas
  // ---------------------------------------------------------------------------

  datatype Mode = CC | RSV | RCV | DRC

  /** The mode strings `ir_score` recognises, compared exactly (case-sensitively). */
  function ParseMode(mode: string): (r: Option<Mode>)
    ensures r.Some? <==> mode in ["CC", "RSV", "RCV", "DRC"]
  {
    if mode == "CC" then Some(CC)
    else if mode == "RSV" then Some(RSV)
    else if mode == "RCV" then Some(RCV)
    else if mode == "DRC" then Some(DRC)
    else None
  }

  /** The values of `math.sqrt` and `math.log10`, left uninterpreted. */
  datatype MathOps = MathOps(sqrt: real -> real, log10: real -> real)

  /** The one fact about square roots the fall-back conditions depend on. */
  ghost predicate SqrtPositive(m: MathOps)
  {
    forall x: real :: x > 0.0 ==> m.sqrt(x) > 0.0
  }

  /** `math.sqrt(x)`: a ValueError below 0; `sqrt(0) == 0.0`. */
  function PySqrt(m: MathOps, x: int): Option<real>
  {
    if x < 0 then None else if x == 0 then Some(0.0) else Some(m.sqrt(x as real))
  }

  /** `x / y`: a ZeroDivisionError when `y` is zero. */
  function PyDiv(x: real, y: real): Option<real>
  {
    if y == 0.0 then None else Some(x / y)
  }

  /** `math.log10(x)`: a ValueError unless `x` is positive. */
  function PyLog10(m: MathOps, x: real): Option<real>
  {
    if x <= 0.0 then None else Some(m.log10(x))
  }

  /**
   * The formula of `mode` on table `t`, evaluated step by step as Python does;
   * None when it raises, which it always does under the conditions of `Fails`.
   */
  function Formula(mode: Mode, t: Table, m: MathOps): (r: Option<real>)
    ensures Fails(mode, t) ==> r.None?
  {
    match mode
    case CC =>
      var n :- PySqrt(m, t.a + t.b + t.c + t.d);
      var den :- PySqrt(m, (t.a + t.b) * (t.c + t.d));
      PyDiv(n * ((t.a * t.d) - (t.c * t.b)) as real, den)
    case RSV =>
      var q :- PyDiv((t.a * t.d) as real, (t.b * t.c) as real);
      QuotientSign(t.a * t.d, t.b * t.c);
      var l :- PyLog10(m, q);
      Some(t.a as real * l)
    case RCV =>
      var s1 :- PySqrt(m, t.a + t.b);
      var s2 :- PySqrt(m, t.a + t.c);
      PyDiv(t.a as real, s1 * s2)
    case DRC =>
      var s :- PySqrt(m, t.a + t.b);
      PyDiv((t.a * t.a) as real, s)
  }

  /**
   * The score stored for a table: the formula's value, or 0 on
   * ZeroDivisionError/ValueError, so 0 under every condition of `Fails`.
   */
  function ScoreValue(mode: Mode, t: Table, m: MathOps): (r: real)
    ensures Fails(mode, t) ==> r == 0.0
    ensures Formula(mode, t, m).Some? ==> r == Formula(mode, t, m).value
    ensures Formula(mode, t, m).None? ==> r == 0.0
  {
    match Formula(mode, t, m)
    case Some(v) => v
    case None => 0.0
  }

  /** When each formula raises, stated in integers. */
  predicate Fails(mode: Mode, t: Table)
  {
    match mode
    case CC => t.a + t.b + t.c + t.d < 0 || (t.a + t.b) * (t.c + t.d) <= 0
    case RSV => t.b * t.c == 0 || (t.a * t.d) * (t.b * t.c) <= 0
    case RCV => t.a + t.b <= 0 || t.a + t.c <= 0
    case DRC => t.a + t.b <= 0
  }

  lemma QuotientSign(x: int, y: int)
    requires y != 0
    ensures (x as real) / (y as real) <= 0.0 <==> x * y <= 0
  {
    var q := (x as real) / (y as real);
    assert q * (y as real) == x as real;
    assert (x * y) as real == q * (y as real) * (y as real);
    assert (y as real) * (y as real) > 0.0;
    if q <= 0.0 {
      assert q * ((y as real) * (y as real)) <= 0.0;
    } else {
      assert q * ((y as real) * (y as real)) > 0.0;
    }
  }

  lemma ProductPositive(x: real, y: real)
    requires x > 0.0 && y > 0.0
    ensures x * y != 0.0
  {
  }

  /** The Python evaluation raises exactly under the integer conditions of `Fails`. */
  lemma {:induction false} FormulaFailsIff(mode: Mode, t: Table, m: MathOps)
    requires SqrtPositive(m)
    ensures Formula(mode, t, m).None? <==> Fails(mode, t)
  {
    match mode
    case CC =>
    case RSV =>
      if t.b * t.c != 0 {
        QuotientSign(t.a * t.d, t.b * t.c);
      }
    case RCV =>
      if t.a + t.b > 0 && t.a + t.c > 0 {
        ProductPositive(m.sqrt((t.a + t.b) as real), m.sqrt((t.a + t.c) as real));
      }
    case DRC =>
  }

  /** Outside the failing conditions nothing raises, and the formula's value is stored. */
  lemma ScoreOnSuccess(mode: Mode, t: Table, m: MathOps)
    requires SqrtPositive(m) && !Fails(mode, t)
    ensures Formula(mode, t, m).Some?
    ensures ScoreValue(mode, t, m) == Formula(mode, t, m).value
  {
    FormulaFailsIff(mode, t, m);
  }

  /**
   * On the tables `ir_score` builds, a + b, a + c and the grand total are
   * never negative, so the fall-back conditions shrink to these.
   */
  lemma {:induction false} DerivedTableFails(matrix: seq<Row>, y: seq<real>, g: string, mode: Mode)
    ensures var t := ContingencyTable(matrix, y, g);
      Fails(mode, t) <==>
        match mode
        case CC => (t.a + t.b) * (t.c + t.d) <= 0
        case RSV => t.b * t.c == 0 || (t.a * t.d) * (t.b * t.c) <= 0
        case RCV => t.a + t.b == 0 || CountLabel(y, 1.0) == 0
        case DRC => t.a + t.b == 0
  {
  }

  /** RSV with `a == 0`: log10 of 0 (or a division by zero) makes the score 0. */
  lemma RsvAbsentFromRelevant(t: Table, m: MathOps)
    requires t.a == 0
    ensures ScoreValue(RSV, t, m) == 0.0
  {
    assert (t.a * t.d) * (t.b * t.c) == 0;
  }

  // ---------------------------------------------------------------------------
  // ir_score
  // ---------------------------------------------------------------------------

  datatype IrError =
    | NgramNotInUniverse(ngram: string)  // KeyError on ir_scores[ngram] in the counting pass
    | NoScoreKey                          // KeyError on ir_scores[ngram]["score"]: unknown mode

  /** The a and b counts after the counting pass over `rows`. */
  function Counted(rows: seq<Row>, g: string): Table
  {
    Table(OccA(rows, g), OccB(rows, g), 0, 0)
  }

  /** The counts of one more n-gram occurrence in a row with `relevance`. */
  function Bump(t: Table, relevance: real): Table
  {
    if relevance == 1.0 then t.(a := t.a + 1) else t.(b := t.b + 1)
  }

  /** The counts for `h` once the first `j` n-grams of `row` have been counted as well. */
  function Partial(rows: seq<Row>, row: Row, j: nat, h: string): Table
    requires j <= |row.ngrams|
  {
    Table(OccA(rows, h) + (if row.relevance == 1.0 then CountIn(h, row.ngrams[..j]) else 0),
          OccB(rows, h) + (if row.relevance != 1.0 then CountIn(h, row.ngrams[..j]) else 0), 0, 0)
  }

  lemma CountedStep(rows: seq<Row>, row: Row, j: nat, h: string)
    requires j < |row.ngrams|
    ensures Partial(rows, row, j + 1, h) ==
      if h == row.ngrams[j] then Bump(Partial(rows, row, j, h), row.relevance) else Partial(rows, row, j, h)
  {
    assert row.ngrams[..j + 1][..j] == row.ngrams[..j];
  }

  lemma CountedRow(rows: seq<Row>, row: Row, g: string)
    ensures Counted(rows + [row], g) ==
      Table(OccA(rows, g) + (if row.relevance == 1.0 then CountIn(g, row.ngrams) else 0),
            OccB(rows, g) + (if row.relevance != 1.0 then CountIn(g, row.ngrams) else 0), 0, 0)
  {
    assert (rows + [row])[..|rows|] == rows;
  }

  /** The inner loop of the counting pass: every occurrence of every n-gram in `row`. */
  method CountRow(irScores: map<string, Table>, ghost rows: seq<Row>, row: Row)
    returns (r: Result<map<string, Table>, IrError>)
    requires forall g :: g in irScores ==> irScores[g] == Counted(rows, g)
    ensures r.Ok? <==> forall k :: 0 <= k < |row.ngrams| ==> row.ngrams[k] in irScores
    ensures r.Err? ==> r.error.NgramNotInUniverse? && r.error.ngram !in irScores && r.error.ngram in row.ngrams
    ensures r.Ok? ==> r.value.Keys == irScores.Keys
    ensures r.Ok? ==> forall g :: g in r.value ==> r.value[g] == Counted(rows + [row], g)
  {
    var scores := irScores;
    var j := 0;
    while j < |row.ngrams|
      invariant 0 <= j <= |row.ngrams|
      invariant scores.Keys == irScores.Keys
      invariant forall k :: 0 <= k < j ==> row.ngrams[k] in irScores
      invariant forall g :: g in scores ==> scores[g] == Partial(rows, row, j, g)
    {
      var ngram := row.ngrams[j];
      if ngram !in scores {
        return Err(NgramNotInUniverse(ngram));
      }
      forall h | h in scores
        ensures (if h == ngram then Bump(scores[h], row.relevance) else scores[h]) == Partial(rows, row, j + 1, h)
      {
        CountedStep(rows, row, j, h);
      }
      scores := scores[ngram := Bump(scores[ngram], row.relevance)];
      j := j + 1;
    }
    assert row.ngrams[..j] == row.ngrams;
    forall g | g in scores ensures scores[g] == Counted(rows + [row], g) {
      assert scores[g] == Partial(rows, row, |row.ngrams|, g);
      CountedRow(rows, row, g);
    }
    return Ok(scores);
  }

  /** The counting pass of `ir_score`: a and b for every n-gram of the universe. */
  method CountPass(ngrams: set<string>, matrix: seq<Row>) returns (r: Result<map<string, Table>, IrError>)
    ensures r.Ok? <==> AllKnown(matrix, ngrams)
    ensures r.Err? ==> r.error.NgramNotInUniverse? && r.error.ngram !in ngrams
    ensures r.Err? ==> exists i :: 0 <= i < |matrix| && r.error.ngram in matrix[i].ngrams
    ensures r.Ok? ==> r.value.Keys == ngrams && forall g :: g in ngrams ==> r.value[g] == Counted(matrix, g)
  {
    var irScores: map<string, Table> := map g | g in ngrams :: Table(0, 0, 0, 0);
    var i := 0;
    while i < |matrix|
      invariant 0 <= i <= |matrix|
      invariant irScores.Keys == ngrams
      invariant AllKnown(matrix[..i], ngrams)
      invariant forall g :: g in irScores ==> irScores[g] == Counted(matrix[..i], g)
    {
      assert matrix[..i + 1] == matrix[..i] + [matrix[i]];
      var counted := CountRow(irScores, matrix[..i], matrix[i]);
      if counted.Err? {
        assert !AllKnown(matrix, ngrams) by {
          var k :| 0 <= k < |matrix[i].ngrams| && matrix[i].ngrams[k] == counted.error.ngram;
        }
        return Err(counted.error);
      }
      irScores := counted.value;
      i := i + 1;
    }
    assert matrix[..i] == matrix;
    return Ok(irScores);
  }

  /**
   * `ir_score(ngrams, ngram_matrix, y, mode = "CC")`. The counting pass raises a
   * KeyError on an n-gram outside `ngrams`; an unrecognised mode never sets a
   * score, which raises a KeyError when the result is read back, unless
   * `ngrams` is empty.
   */
  method IrScore(ngrams: set<string>, matrix: seq<Row>, y: seq<real>, m: MathOps, mode: string := "CC")
    returns (r: Result<map<string, real>, IrError>)
    ensures r.Err? && r.error.NgramNotInUniverse? ==>
      r.error.ngram !in ngrams && exists i :: 0 <= i < |matrix| && r.error.ngram in matrix[i].ngrams
    ensures AllKnown(matrix, ngrams) ==>
      (r.Ok? <==> ParseMode(mode).Some? || ngrams == {}) && (r.Err? ==> r.error == NoScoreKey)
    ensures !AllKnown(matrix, ngrams) ==> r.Err? && r.error.NgramNotInUniverse?
    ensures r.Ok? ==> r.value.Keys == ngrams
    ensures r.Ok? && ParseMode(mode).Some? ==>
      forall g :: g in ngrams ==> r.value[g] == ScoreValue(ParseMode(mode).value, ContingencyTable(matrix, y, g), m)
  {
    var counted := CountPass(ngrams, matrix);
    if counted.Err? {
      return Err(counted.error);
    }
    var irScores := counted.value;

    var count1 := CountLabel(y, 1.0);
    var count0 := CountLabel(y, 0.0);
    var parsed := ParseMode(mode);

    // Complements c and d, then the score.
    var scores: map<string, real> := map[];
    var rest := irScores.Keys;
    while rest != {}
      invariant rest <= ngrams
      invariant irScores.Keys == ngrams
      invariant forall g :: g in rest ==> irScores[g] == Counted(matrix, g)
      invariant forall g :: g in ngrams && g !in rest ==> irScores[g] == ContingencyTable(matrix, y, g)
      invariant scores.Keys == if parsed.Some? then ngrams - rest else {}
      invariant forall g :: g in scores ==> scores[g] == ScoreValue(parsed.value, irScores[g], m)
      decreases rest
    {
      var ngram :| ngram in rest;
      var t := irScores[ngram];
      t := t.(c := count1 - t.a, d := count0 - t.b);
      irScores := irScores[ngram := t];
      if parsed.Some? {
        scores := scores[ngram := ScoreValue(parsed.value, t, m)];
      }
      rest := rest - {ngram};
    }

    if scores.Keys != ngrams {
      return Err(NoScoreKey);
    }
    return Ok(scores);
  }

  // ---------------------------------------------------------------------------
  // make_terms_table
  // ---------------------------------------------------------------------------

  function TermScore(item: (string, real)): real { item.1 }

  /**
   * `make_terms_table(terms_dict, n)`, with `items` the dictionary's items in
   * iteration order: a stable descending sort on the score, then `[:n]` where
   * a missing or zero `n` means the whole table.
   */
  function MakeTermsTable(items: seq<(string, real)>, n: Option<int> := None): (r: seq<(string, real)>)
    ensures r <= PySorted.SortedDesc(items, TermScore)
    ensures PySorted.NonIncreasing(r, TermScore)
    ensures multiset(r) <= multiset(items)
  {
    var sorted := PySorted.SortedDesc(items, TermScore);
    var r := PySorted.Prefix(sorted, StopIndex(n, |items|));
    PySorted.PrefixMultiset(r, sorted);
    PySorted.PrefixNonIncreasing(r, sorted, TermScore);
    r
  }

  lemma TermsTableUnfold(items: seq<(string, real)>, n: Option<int>)
    ensures MakeTermsTable(items, n) == PySorted.Prefix(PySorted.SortedDesc(items, TermScore), StopIndex(n, |items|))
  {
  }

  /** `if not n: n = len(terms_dict)`. */
  function StopIndex(n: Option<int>, size: nat): int
  {
    if n == None || n == Some(0) then size else n.value
  }

  /**
   * No n, or n = 0, keeps every item; n > 0 keeps min(n, len) rows; n < 0
   * drops the last -n rows.
   */
  lemma TermsTableLength(items: seq<(string, real)>, n: Option<int>)
    ensures n == None || n == Some(0) ==>
      MakeTermsTable(items, n) == PySorted.SortedDesc(items, TermScore) &&
      multiset(MakeTermsTable(items, n)) == multiset(items)
    ensures n.Some? && n.value > 0 ==>
      |MakeTermsTable(items, n)| == if n.value < |items| then n.value else |items|
    ensures n.Some? && n.value < 0 ==>
      |MakeTermsTable(items, n)| == if -n.value < |items| then |items| + n.value else 0
  {
  }

  /** Ties keep the dictionary order: the table is a prefix of a stable ranking of all items. */
  lemma TermsTableStable(items: seq<(string, real)>, n: Option<int>)
    ensures exists full ::
      && MakeTermsTable(items, n) <= full
      && multiset(full) == multiset(items)
      && PySorted.NonIncreasing(full, TermScore)
      && PySorted.Stable(full, items, TermScore)
  {
    var full := PySorted.SortedDesc(items, TermScore);
    PySorted.SortedDescStable(items, TermScore);
    assert MakeTermsTable(items, n) <= full;
  }

  /** Top 2 of {a: 5, b: 5, c: 3}: the tie keeps insertion order and c is cut. */
  lemma TermsTableExample()
    ensures MakeTermsTable([("a", 5.0), ("b", 5.0), ("c", 3.0)], Some(2)) == [("a", 5.0), ("b", 5.0)]
  {
    var items := [("a", 5.0), ("b", 5.0), ("c", 3.0)];
    RankingExample();
    TermsTableUnfold(items, Some(2));
    assert PySorted.Prefix(items, 2) == items[..2];
  }

  lemma RankingExample()
    ensures PySorted.SortedDesc([("a", 5.0), ("b", 5.0), ("c", 3.0)], TermScore) == [("a", 5.0), ("b", 5.0), ("c", 3.0)]
  {
    var items := [("a", 5.0), ("b", 5.0), ("c", 3.0)];
    assert items[1..] == [("b", 5.0), ("c", 3.0)];
    RankingTailExample();
  }

  lemma RankingTailExample()
    ensures PySorted.SortedDesc([("b", 5.0), ("c", 3.0)], TermScore) == [("b", 5.0), ("c", 3.0)]
  {
    var items := [("b", 5.0), ("c", 3.0)];
    assert items[1..] == [("c", 3.0)];
    assert PySorted.SortedDesc([("c", 3.0)], TermScore) == [("c", 3.0)];
  }
}
