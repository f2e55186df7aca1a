# fumeus core, modelled in Dafny

fumeus scores text against word n-grams. The discovery pipeline:
- cleans each document into a sequence of lower-case tokens;
- slides a fixed-width window over the tokens to form n-grams;
- counts each n-gram into a 2x2 contingency table (a, b, c, d) against a 0/1 relevance label;
- scores each n-gram with one of four information-retrieval formulas (CC, RSV, RCV, DRC; Fan, Gordon and Pathak 2005);
- ranks the term→score table.

The scoring pipeline multiplies case-insensitive substring counts by dictionary weights, then ranks the scored records.

The model has one module per source file, plus three small support modules:

- `Wrappers` (wrappers.dfy): `Option` and `Result`.
- `PyStr` (pystr.dfy): the Python `str` operations the core uses. These are ASCII `lower`, `" ".join` and `str.count`. `str.count` counts non-overlapping matches left to right, and an empty pattern is found `len + 1` times.
- `PySorted` (pysorted.dfy): `sorted(..., reverse=True)` as a stable insertion sort, and the slice `[:n]`.
- `FumUtils` (fum_utils.dfy) models `check_extension`. POSIX `os.path.splitext` is modelled on `rfind` for it. The module also holds the tokenise-and-filter step of `clean_documents`.
- `Generate` (generate.dfy) models n-gram extraction, `build_ngram_matrix`, `get_unique_ngrams` (a loop), `ir_score` (its two loop passes, as methods) and `make_terms_table`.
- `Score` (score.dfy) models `weighted_score_calculation` (a loop) and the record table of `scores_to_csv`/`scores_to_json`.

Modelling choices:
- Labels are `real`, because the CSV loader produces floats. `relevance == 1` and `y.count(1)` compare with `1.0`, and `y.count(0)` with `0.0`.
- The values of `math.sqrt` and `math.log10` are uninterpreted. They are parameters bundled in `MathOps`. The evaluation of each formula follows the Python expression step by step, returning `None` where Python raises `ZeroDivisionError` or `ValueError`. `sqrt` raises below 0 and returns 0.0 at 0, division raises on a zero divisor, and `log10` raises on a non-positive argument.
- `FormulaFailsIff` proves that this evaluation fails exactly under integer conditions on (a, b, c, d). It assumes only that the square root of a positive number is positive.
- The `IndexError` of `build_ngram_matrix` when there are fewer labels than documents is an error result of `BuildNgramMatrix`.
- Two uncaught `KeyError`s are error results of `IrScore`. One is an n-gram of a row missing from the universe. The other is reading back a score that an unrecognised mode never set.

## Model

| member | source | states |
|---|---|---|
| `Generate.Everygrams` | generate.py:17-18 | `everygrams` with `min_len == max_len == length >= 1` yields `max(0, len - length + 1)` windows, and window k is tokens k..k+length-1 |
| `Generate.Unigrams` | generate.py:17 | with length 1 the n-grams of a document are its tokens |
| `Generate.NgramsOf` | generate.py:17 | a document's n-grams are its windows, in order, each joined with one space, `max(0, len - length + 1)` of them |
| `Generate.BuildNgramMatrix` | generate.py:5-18 | fails with the `IndexError` of `y[len(y)]` exactly when there are more documents than labels; otherwise one row per document, in order; row i carries `y[i]`; row i holds `max(0, len(doc_i) - length + 1)` n-grams, the k-th being tokens k..k+length-1 joined by a space |
| `Generate.MissingLabelExample` | generate.py:17-18 | two documents with one label raise the index error at label 1 |
| `Generate.GetUniqueNgrams` | generate.py:158-174 | the returned set is exactly the joined windows of all documents |
| `Generate.MatrixWithinUniverse` | generate.py:168-174 | when the matrix is built, every n-gram of every row of it is in the unique set of the same documents, so the lookups of the counting pass never miss |
| `PyStr.JoinInjective` | generate.py:17 | for windows of one width whose tokens hold no space, two joined n-grams are equal exactly when their token windows are equal |
| `Generate.CountRow` | generate.py:46-50 | one row's pass adds each occurrence of an n-gram to a (label 1) or b (other labels), or fails with the n-gram missing from the table |
| `Generate.CountPass` | generate.py:42-50 | after the counting pass, a[g] and b[g] are the occurrence counts of g over rows labelled 1 and the other rows; it fails exactly when some row n-gram is outside the universe |
| `Generate.OccZeroIff` | generate.py:45-50 | the count `OccA` (label 1 rows) is 0 exactly when the n-gram occurs in no row labelled 1, and `OccB` is 0 exactly when it occurs in no other row |
| `Generate.ContingencyTable` | generate.py:53-61 | a, b >= 0; a + c = count(y, 1); b + d = count(y, 0); a + b + c + d = count(y, 1) + count(y, 0) |
| `Generate.RepeatsCount` | generate.py:45-50 | repeats inside one document each count: ["cat", "cat"] labelled 1 gives a = 2 and c = -1 |
| `Generate.OtherLabelMakesDNegative` | generate.py:53-61 | a label other than 0 or 1 counts towards b but not count(y, 0), giving d = -1 |
| `Generate.PresenceTableNonNegative` | generate.py:45-61 | c >= 0 when rows carry y's labels and the n-gram occurs at most once per row; d >= 0 as well when every label is 0 or 1 |
| `Generate.SumOfA` | generate.py:45-50 | summed over any duplicate-free enumeration of the universe, the a counts equal the number of windows in rows labelled 1 |
| `Generate.UnigramExample` | generate.py:42-61 | unigrams of ["cat", "sat"] (label 1) and ["dog", "ran"] (label 0) give "cat" the table (1, 0, 0, 1) |
| `Generate.ParseMode` | generate.py:64-74 | a mode is recognised exactly when it is one of "CC", "RSV", "RCV", "DRC", compared case-sensitively |
| `Generate.FormulaFailsIff` | generate.py:63-78 | the Python evaluation raises exactly when: CC, a+b+c+d < 0 or (a+b)(c+d) <= 0; RSV, b·c = 0 or (a·d)(b·c) <= 0; RCV, a+b <= 0 or a+c <= 0; DRC, a+b <= 0 |
| `Generate.Formula` | generate.py:63-76 | each formula, evaluated in Python's order, raises (None) whenever the integer condition of `Fails` holds, for any values of sqrt and log10 |
| `Generate.ScoreValue` | generate.py:63-78 | the stored score is the formula's value when the evaluation succeeds and the fall-back 0 when it raises, so it is exactly 0 under every failing condition |
| `Generate.ScoreOnSuccess` | generate.py:63-76 | outside the failing conditions the evaluation does not raise and its value is the stored score (given a positive sqrt on positive arguments) |
| `Generate.DerivedTableFails` | generate.py:57-78 | on the tables `ir_score` builds: CC is 0-forced iff (a+b)(c+d) <= 0, RCV iff a+b = 0 or count(y, 1) = 0, DRC iff a+b = 0 |
| `Generate.RsvAbsentFromRelevant` | generate.py:70-71 | RSV scores 0 whenever a = 0 |
| `Generate.IrScore` | generate.py:21-80 | the mode defaults to "CC"; fails with an unknown-n-gram error exactly when a row n-gram is outside the universe; otherwise succeeds iff the mode is recognised or the universe is empty (else the missing-score error); on success one entry per universe n-gram, each the mode's score of that n-gram's contingency table |
| `PySorted.SortedDesc` | generate.py:242 | `sorted(..., reverse=True)` returns a permutation of its input with non-increasing keys |
| `PySorted.SortedDescStable` | generate.py:242 | the sort is stable: for every key value, the elements carrying it keep their input order |
| `PySorted.Prefix` | generate.py:242 | `[:n]` is a prefix of length min(n, len) for n >= 0, and drops the last -n elements (or all) for n < 0 |
| `Generate.MakeTermsTable` | generate.py:227-242 | `n` defaults to None; the table is a prefix of the descending ranking of the items, ordered by non-increasing score, and a sub-multiset of the items |
| `Generate.TermsTableLength` | generate.py:239-242 | no n or n = 0 gives the whole ranking, a permutation of the items; n > 0 gives min(n, len) rows; n < 0 drops the last -n rows |
| `Generate.TermsTableStable` | generate.py:239-242 | the table is a prefix of a permutation of the items that is non-increasing and keeps the items' order on ties |
| `Generate.TermsTableExample` | generate.py:239-242 | top 2 of {a: 5, b: 5, c: 3} is [(a, 5), (b, 5)] |
| `FumUtils.LastIndexOf` | fum_utils.py:14 | `rfind`: -1 or the index of the last occurrence |
| `FumUtils.SplitExt` | fum_utils.py:14 | `os.path.splitext` splits the path into root + ext with nothing lost, and a non-empty ext starts with '.' |
| `FumUtils.SplitExtSpec` | fum_utils.py:14 | ext is non-empty iff a non-dot character of the base name is followed later in the base name by a dot; a non-empty ext is '.' followed by neither '.' nor '/' |
| `FumUtils.CheckExtension` | fum_utils.py:4-17 | a name with an extension is returned unchanged; a name without one gets `extension` appended and nothing else changes |
| `FumUtils.CheckExtensionPlainName` | fum_utils.py:14-17 | "data" becomes "data.csv" |
| `FumUtils.CheckExtensionKeepsExtension` | fum_utils.py:14-17 | "data.txt" stays unchanged |
| `FumUtils.CheckExtensionDotFile` | fum_utils.py:14-17 | ".bashrc" becomes ".bashrc.csv" |
| `FumUtils.CheckExtensionDirectory` | fum_utils.py:14-17 | "dir/" becomes "dir/.csv" |
| `FumUtils.CheckExtensionTrailingDot` | fum_utils.py:14-17 | "foo." stays unchanged |
| `FumUtils.CheckExtensionDottedDirectory` | fum_utils.py:14-17 | a dot in a directory name is not an extension: "a.b/c" with ".json" becomes "a.b/c.json" |
| `FumUtils.CheckExtensionIdempotent` | fum_utils.py:14-17 | applying it twice equals applying it once, when the base name holds a non-dot character and the extension is '.' followed by neither '.' nor '/' |
| `FumUtils.Tokenize` | fum_utils.py:29 | every token is at least 3 characters, all of them 'a'..'z' |
| `FumUtils.TokenizeWord` | fum_utils.py:29 | a run of 'a'..'z' is one token if it is 3 or more long and contributes nothing otherwise |
| `FumUtils.TokenizeSplit` | fum_utils.py:29 | a character outside 'a'..'z' separates: tokenize(s1 + c + s2) = tokenize(s1) + tokenize(s2), so runs are never merged or split |
| `FumUtils.RemoveStopWords` | fum_utils.py:28 | every kept token is a token of the input and not a stop word, and every token that is not a stop word is kept as many times as it occurs |
| `FumUtils.CleanDocuments` | fum_utils.py:20-30 | one token sequence per input document, in input order, with no stop words by default |
| `FumUtils.CleanDocument` | fum_utils.py:28-30 | every emitted token has length >= 3, consists of 'a'..'z' and is not a stop word; every other token of the tokenizer output is kept as many times as it occurs |
| `FumUtils.CleanDocumentNoStopWords` | fum_utils.py:20 | with the default empty stop-word list the tokenizer output is returned unchanged |
| `FumUtils.CleanDocumentSubsequence` | fum_utils.py:28-29 | stop-word filtering only deletes: the output is an order-preserving subsequence of the tokenizer output |
| `FumUtils.CleanDocumentExample` | fum_utils.py:28-30 | with stop word "the", "The cat sat" cleans to ["cat", "sat"] |
| `PyStr.CountFromBound` | score.py:159 | non-overlapping matches: count · len(sub) <= len(s) |
| `PyStr.Count` | score.py:159 | an empty `sub` is counted `len(s) + 1` times; `s.count(sub)` is positive exactly when `sub` occurs somewhere in `s` |
| `PyStr.Lower` | score.py:159 | ASCII `lower` keeps the length, maps each of 'A'..'Z' to the letter 32 code points up, and fixes every other character |
| `PyStr.JoinLength` | generate.py:17 | `sep.join(words)` of a non-empty list is as long as the words together plus one separator between each two |
| `PyStr.LowerIdempotent` | score.py:159 | lower-casing twice is lower-casing once |
| `Score.Contribution` | score.py:159 | one entry's value is 0 when its weight is 0 or its lower-cased term does not occur in the lower-cased text |
| `Score.ContributionSign` | score.py:159 | one entry's value has the sign of its weight |
| `Score.WeightedSum` | score.py:158-160 | the total over the entries is never negative when no weight is negative |
| `Score.FoundTerms` | score.py:161-162 | at most one found term per entry, and none when no weight is positive |
| `Score.WeightedScoreCalculation` | score.py:143-164 | the score is the in-order sum of count(lower(text), lower(term)) × weight, and the found list is the original-case terms with a positive product, in order, repeats kept (empty matrix: 0 and []) |
| `Score.ContributionPositiveIff` | score.py:159-162 | a term is found iff its weight is positive and it occurs case-insensitively in the text; a present term with weight <= 0 is not listed |
| `Score.FoundTermsFromMatrix` | score.py:161-162 | every found term is the term of some entry with a positive contribution |
| `Score.ScoreConcat` | score.py:158-162 | result(m1 ++ m2) = (score1 + score2, terms1 ++ terms2) |
| `Score.TextCaseIrrelevant` | score.py:159 | texts equal up to ASCII case get the same score and the same found list |
| `Score.TermCaseKeepsScore` | score.py:159 | lower-casing every term keeps the score |
| `Score.TermCaseKeepsFound` | score.py:159-162 | lower-casing every term finds the same entries, lower-cased |
| `Score.CategoryCount` | score.py:159 | "cat" occurs twice in "category cataclysm" |
| `Score.CategoryExample` | score.py:154-164 | "category cataclysm" with ("cat", 2.0) scores 4.0 and finds ["cat"] |
| `Score.NegativeWeightExample` | score.py:159-162 | "cat" with ("cat", -1.0) scores -1.0 and finds nothing |
| `Score.Records` | score.py:109-111 | one row per text, in order, holding the text, its score and its found terms |
| `Score.RankRecords` | score.py:109-113 | the table is a permutation of the rows [x[i], score_i, terms_i], sorted non-increasing by the score column, stable on ties |

## Behaviour worth noting

- A present term with weight <= 0 is not found: the code tests `count * weight > 0` (`Score.ContributionPositiveIff`, `Score.NegativeWeightExample`).
- `str.count` counts non-overlapping matches, left to right (`PyStr.CountFrom`, `PyStr.CountFromBound`, `Score.CategoryCount`).
- c and d can be negative. Repeated n-grams in a document, or labels other than 0 and 1, cause it (`Generate.RepeatsCount`, `Generate.OtherLabelMakesDNegative`). All four counts are non-negative only under the conditions of `Generate.PresenceTableNonNegative`.
- An unknown mode raises a `KeyError` at generate.py:80 whenever the universe is non-empty (`Generate.IrScore`).
- A row keeps every window of its document, repeats included, and each repeat is counted (`Generate.RepeatsCount`).

## Left out

- File and CSV I/O is not modelled: `csv_to_list` (with its `bad_data` merge), `csv_col_to_list`, `read_terms_csv`, the file writes and JSON conversion in `terms_to_csv`, `terms_to_json`, `scores_to_csv` and `scores_to_json`, and both `main` drivers. The upper-casing of the mode in the driver (generate.py:218) is outside the model too, so `IrScore` receives the string as given.
- `guess_encoding` is not modelled: it is a foreign call (chardet) over file contents.
- HTML stripping is the function parameter `getText` of `CleanDocument`. BeautifulSoup is not modelled.
- `str.lower` is modelled on ASCII only. Unicode case mapping is outside the model.
- The numeric values of `sqrt` and `log10` are parameters (`MathOps`). Floating-point rounding, underflow and the `OverflowError` of `math.sqrt` / int-to-float conversion for integers beyond the float range are not modelled. Weights and scores are `real`.
- Generate.FormulaFailsIff: assumes the `sqrt` parameter is positive on positive arguments, which `math.sqrt` is.
- `nltk.everygrams` is modelled only for `min_len == max_len == length >= 1`. Lengths of 0 or less are outside the model (a precondition).
- Generate.IrScore: on an n-gram outside the universe, the error names some row n-gram missing from the universe; it is not stated to be the first one met in row order.
- Dictionary iteration order: the `ir_score` result is a map without order. `make_terms_table` takes the dictionary's items as a sequence, so their iteration order is an input.
- Score.Records: requires at least as many scores as texts. The `IndexError` of `x_scored[i]` with fewer scores is not modelled, because the driver computes one score per text.
- Path handling covers POSIX only. Windows (`ntpath`) separators are out of scope.
