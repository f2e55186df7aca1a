/**
 * fum_utils.py: file-name extension normalisation over POSIX `os.path.splitext`,
 * and the tokenise-and-filter step of document cleaning.
 */
module FumUtils {
  import opened PyStr

  // ---------------------------------------------------------------------------
  // check_extension
  // ---------------------------------------------------------------------------

  /** `s.rfind(c)`: the last index holding `c`, or -1. */
  function LastIndexOf(s: string, c: char): (r: int)
    ensures -1 <= r < |s|
    ensures 0 <= r ==> s[r] == c
    ensures forall k :: r < k < |s| ==> s[k] != c
  {
    if |s| == 0 then -1
    else if s[|s| - 1] == c then |s| - 1
    else LastIndexOf(s[..|s| - 1], c)
  }

  /**
   * POSIX `os.path.splitext`: the extension starts at the last '.' after the
   * last '/', provided some character other than '.' precedes that dot inside
   * the base name (so leading dots never start an extension).
   */
  function SplitExt(p: string): (r: (string, string))
    ensures r.0 + r.1 == p
    ensures r.1 == "" || r.1[0] == '.'
  {
    var sepIndex := LastIndexOf(p, '/');
    var dotIndex := LastIndexOf(p, '.');
    if dotIndex > sepIndex && exists i :: sepIndex < i < dotIndex && p[i] != '.' then
      (p[..dotIndex], p[dotIndex..])
    else
      (p, "")
  }

  /**
   * Independent reading of "has an extension": some non-dot character of the
   * base name is followed, later in the base name, by a dot.
   */
  ghost predicate HasExtension(p: string)
  {
    exists i, k :: 0 <= i < k < |p| && p[i] != '.' && p[k] == '.' && NoSlashFrom(p, i)
  }

  predicate NoSlashFrom(p: string, i: int)
  {
    forall j :: 0 <= j < |p| && i <= j ==> p[j] != '/'
  }

  lemma SplitExtSpec(p: string)
    ensures SplitExt(p).1 != "" <==> HasExtension(p)
    ensures SplitExt(p).1 != "" ==>
      forall j :: 1 <= j < |SplitExt(p).1| ==> SplitExt(p).1[j] != '.' && SplitExt(p).1[j] != '/'
  {
    var sepIndex := LastIndexOf(p, '/');
    var dotIndex := LastIndexOf(p, '.');
    if SplitExt(p).1 != "" {
      var i :| sepIndex < i < dotIndex && p[i] != '.';
      assert NoSlashFrom(p, i);
    }
    if HasExtension(p) {
      var i, k :| 0 <= i < k < |p| && p[i] != '.' && p[k] == '.' && NoSlashFrom(p, i);
      assert sepIndex < i < dotIndex;
    }
  }

  /** `check_extension(fname, extension=".csv")`. */
  function CheckExtension(fname: string, extension: string := ".csv"): (r: string)
    ensures HasExtension(fname) ==> r == fname
    ensures !HasExtension(fname) ==> r == fname + extension
  {
    SplitExtSpec(fname);
    var (root, ending) := SplitExt(fname);
    if ending == "" then root + extension else root + ending
  }

  lemma CheckExtensionPlainName()
    ensures CheckExtension("data") == "data.csv"
  {
    assert LastIndexOf("data", '.') == -1;
  }

  lemma CheckExtensionKeepsExtension()
    ensures CheckExtension("data.txt") == "data.txt"
  {
    assert "data.txt"[0] != '.' && "data.txt"[4] == '.' && NoSlashFrom("data.txt", 0);
  }

  /** A leading dot does not start an extension. */
  lemma CheckExtensionDotFile()
    ensures CheckExtension(".bashrc") == ".bashrc.csv"
  {
    assert forall k :: 0 < k < 7 ==> ".bashrc"[k] != '.';
  }

  /** An empty base name gets the extension after the slash. */
  lemma CheckExtensionDirectory()
    ensures CheckExtension("dir/") == "dir/.csv"
  {
    assert LastIndexOf("dir/", '.') == -1;
  }

  /** A trailing dot is itself an extension. */
  lemma CheckExtensionTrailingDot()
    ensures CheckExtension("foo.") == "foo."
  {
    assert "foo."[0] != '.' && "foo."[3] == '.' && NoSlashFrom("foo.", 0);
  }

  /** Only the base name after the last '/' is searched for a dot. */
  lemma CheckExtensionDottedDirectory()
    ensures CheckExtension("a.b/c", ".json") == "a.b/c.json"
  {
    assert "a.b/c"[3] == '/' && "a.b/c"[4] != '.';
  }

  /**
   * Normalising twice changes nothing, once the base name holds a non-dot
   * character and the extension is a dot followed by neither '.' nor '/'.
   */
  lemma CheckExtensionIdempotent(fname: string, extension: string)
    requires exists i :: 0 <= i < |fname| && fname[i] != '.' && NoSlashFrom(fname, i)
    requires |extension| > 0 && extension[0] == '.'
    requires forall j :: 1 <= j < |extension| ==> extension[j] != '.' && extension[j] != '/'
    ensures CheckExtension(CheckExtension(fname, extension), extension) == CheckExtension(fname, extension)
  {
    if !HasExtension(fname) {
      var i :| 0 <= i < |fname| && fname[i] != '.' && NoSlashFrom(fname, i);
      var r := fname + extension;
      assert r[i] != '.' && r[|fname|] == '.' && NoSlashFrom(r, i);
      assert HasExtension(r);
    }
  }

  // ---------------------------------------------------------------------------
  // clean_documents
  // ---------------------------------------------------------------------------

  predicate AllLower(w: string) { forall i :: 0 <= i < |w| ==> IsLowerLetter(w[i]) }

  /** A token the tokenizer may emit: `[a-z]{3,}`. */
  predicate IsToken(w: string) { |w| >= 3 && AllLower(w) }

  function Emit(run: string): seq<string>
  {
    if |run| >= 3 then [run] else []
  }

  /** Left-to-right scan; `run` is the current maximal run of 'a'..'z'. */
  function Scan(s: string, run: string): seq<string>
    decreases |s|
  {
    if |s| == 0 then Emit(run)
    else if IsLowerLetter(s[0]) then Scan(s[1..], run + [s[0]])
    else Emit(run) + Scan(s[1..], "")
  }

  /** `nltk.RegexpTokenizer("[a-z]{3,}").tokenize(s)`: every token matches `[a-z]{3,}`. */
  function Tokenize(s: string): (r: seq<string>)
    ensures forall k :: 0 <= k < |r| ==> IsToken(r[k])
  {
    ScanTokens(s, "");
    Scan(s, "")
  }

  lemma {:induction false} ScanTokens(s: string, run: string)
    requires AllLower(run)
    ensures forall k :: 0 <= k < |Scan(s, run)| ==> IsToken(Scan(s, run)[k])
    decreases |s|
  {
    if |s| > 0 {
      if IsLowerLetter(s[0]) {
        ScanTokens(s[1..], run + [s[0]]);
      } else {
        ScanTokens(s[1..], "");
      }
    }
  }

  lemma {:induction false} ScanWord(w: string, run: string)
    requires AllLower(w)
    ensures Scan(w, run) == Emit(run + w)
    decreases |w|
  {
    if |w| == 0 {
      assert run + w == run;
    } else {
      ScanWord(w[1..], run + [w[0]]);
      assert run + [w[0]] + w[1..] == run + w;
    }
  }

  lemma {:induction false} ScanSplit(s1: string, c: char, s2: string, run: string)
    requires !IsLowerLetter(c)
    ensures Scan(s1 + [c] + s2, run) == Scan(s1, run) + Scan(s2, "")
    decreases |s1|
  {
    var s := s1 + [c] + s2;
    if |s1| == 0 {
      assert s[1..] == s2;
    } else {
      assert s[0] == s1[0];
      assert s[1..] == s1[1..] + [c] + s2;
      if IsLowerLetter(s1[0]) {
        ScanSplit(s1[1..], c, s2, run + [s1[0]]);
      } else {
        ScanSplit(s1[1..], c, s2, "");
      }
    }
  }

  /** A run of lower-case letters is one token when it has three or more, else none. */
  lemma TokenizeWord(w: string)
    requires AllLower(w)
    ensures Tokenize(w) == if |w| >= 3 then [w] else []
  {
    ScanWord(w, "");
    assert "" + w == w;
  }

  /** A character outside 'a'..'z' separates: tokens never straddle it. */
  lemma TokenizeSplit(s1: string, c: char, s2: string)
    requires !IsLowerLetter(c)
    ensures Tokenize(s1 + [c] + s2) == Tokenize(s1) + Tokenize(s2)
  {
    ScanSplit(s1, c, s2, "");
  }

  /** `word not in stop_words` over the tokenizer output, in order. */
  function RemoveStopWords(tokens: seq<string>, stopWords: seq<string>): (r: seq<string>)
    ensures forall k :: 0 <= k < |r| ==> r[k] in tokens && r[k] !in stopWords
    ensures forall w :: multiset(r)[w] == if w in stopWords then 0 else multiset(tokens)[w]
  {
    if |tokens| == 0 then []
    else
      assert tokens == [tokens[0]] + tokens[1..];
      (if tokens[0] in stopWords then [] else [tokens[0]]) + RemoveStopWords(tokens[1..], stopWords)
  }

  /** `a` is `b` with some elements deleted, order kept. */
  predicate IsSubsequence(a: seq<string>, b: seq<string>)
    decreases |b|
  {
    if |a| == 0 then true
    else if |b| == 0 then false
    else if a[0] == b[0] then IsSubsequence(a[1..], b[1..])
    else IsSubsequence(a, b[1..])
  }

  lemma {:induction false} RemoveStopWordsSubsequence(tokens: seq<string>, stopWords: seq<string>)
    ensures IsSubsequence(RemoveStopWords(tokens, stopWords), tokens)
  {
    if |tokens| > 0 {
      RemoveStopWordsSubsequence(tokens[1..], stopWords);
      var r := RemoveStopWords(tokens, stopWords);
      if tokens[0] !in stopWords {
        assert r[1..] == RemoveStopWords(tokens[1..], stopWords);
      } else {
        assert r == RemoveStopWords(tokens[1..], stopWords);
        assert |r| > 0 ==> r[0] != tokens[0];
      }
    }
  }

  /**
   * One document of `clean_documents`: lower-case, strip markup (`getText`
   * stands for `BeautifulSoup(..., "html.parser").get_text()`), tokenise,
   * drop stop words. Every emitted token is `[a-z]{3,}` and not a stop word,
   * and every other token is kept as often as the tokenizer produced it.
   */
  function CleanDocument(doc: string, getText: string -> string, stopWords: seq<string> := []): (r: seq<string>)
    ensures forall k :: 0 <= k < |r| ==> IsToken(r[k]) && r[k] !in stopWords
    ensures forall w :: multiset(r)[w] == if w in stopWords then 0 else multiset(Tokenize(getText(Lower(doc))))[w]
  {
    RemoveStopWords(Tokenize(getText(Lower(doc))), stopWords)
  }

  /** `clean_documents(x, stop_words = [])`: one token sequence per document, in order. */
  function CleanDocuments(x: seq<string>, getText: string -> string, stopWords: seq<string> := []): (r: seq<seq<string>>)
    ensures |r| == |x|
    ensures forall i :: 0 <= i < |x| ==> r[i] == CleanDocument(x[i], getText, stopWords)
  {
    seq(|x|, i requires 0 <= i < |x| => CleanDocument(x[i], getText, stopWords))
  }

  /** Stop-word removal only deletes tokens: the result is a subsequence of the tokenizer output. */
  lemma CleanDocumentSubsequence(doc: string, getText: string -> string, stopWords: seq<string>)
    ensures IsSubsequence(CleanDocument(doc, getText, stopWords), Tokenize(getText(Lower(doc))))
  {
    RemoveStopWordsSubsequence(Tokenize(getText(Lower(doc))), stopWords);
  }

  /** With stop word "the" and markup-free text, "The cat sat" cleans to ["cat", "sat"]. */
  lemma CleanDocumentExample()
    ensures CleanDocument("The cat sat", s => s, ["the"]) == ["cat", "sat"]
  {
    TokenizeExample();
    RemoveExample();
    assert (s => s)(Lower("The cat sat")) == Lower("The cat sat");
  }

  lemma RemoveExample()
    ensures RemoveStopWords(["the", "cat", "sat"], ["the"]) == ["cat", "sat"]
  {
    var tokens := ["the", "cat", "sat"];
    assert tokens[0] in ["the"];
    assert tokens[1..] == ["cat", "sat"];
    RemoveKeptPair();
  }

  lemma RemoveKeptPair()
    ensures RemoveStopWords(["cat", "sat"], ["the"]) == ["cat", "sat"]
  {
    var tokens := ["cat", "sat"];
    assert "cat"[0] != "the"[0];
    assert tokens[0] !in ["the"];
    assert tokens[1..] == ["sat"];
    RemoveKeptLast();
  }

  lemma RemoveKeptLast()
    ensures RemoveStopWords(["sat"], ["the"]) == ["sat"]
  {
    var tokens := ["sat"];
    assert "sat"[0] != "the"[0];
    assert tokens[0] !in ["the"];
    assert tokens[1..] == [];
  }

  lemma TokenizeExample()
    ensures Tokenize(Lower("The cat sat")) == ["the", "cat", "sat"]
  {
    assert Lower("The cat sat") == "the" + [' '] + ("cat" + [' '] + "sat");
    TokenizeSplit("the", ' ', "cat" + [' '] + "sat");
    TokenizeSplit("cat", ' ', "sat");
    TokenizeWord("the");
    TokenizeWord("cat");
    TokenizeWord("sat");
  }

  /** Without stop words, the default, every token is kept. */
  lemma CleanDocumentNoStopWords(doc: string, getText: string -> string)
    ensures CleanDocument(doc, getText) == Tokenize(getText(Lower(doc)))
  {
    RemoveNoStopWords(Tokenize(getText(Lower(doc))));
  }

  lemma {:induction false} RemoveNoStopWords(tokens: seq<string>)
    ensures RemoveStopWords(tokens, []) == tokens
  {
    if |tokens| > 0 {
      RemoveNoStopWords(tokens[1..]);
      assert tokens == [tokens[0]] + tokens[1..];
    }
  }
}
