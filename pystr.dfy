/** The few Python `str` built-ins the core relies on, on ASCII text. */
module PyStr {

  predicate IsLowerLetter(c: char) { 'a' <= c <= 'z' }

  predicate IsUpperLetter(c: char) { 'A' <= c <= 'Z' }

  /** `str.lower` restricted to ASCII: only 'A'..'Z' change. */
  function LowerChar(c: char): char
  {
    if IsUpperLetter(c) then (c as int + 32) as char else c
  }

  /** Lowering leaves no ASCII upper-case letter and fixes every other character. */
  function Lower(s: string): (r: string)
    ensures |r| == |s|
    ensures NoUpper(r)
    ensures forall i :: 0 <= i < |s| && !IsUpperLetter(s[i]) ==> r[i] == s[i]
    ensures forall i :: 0 <= i < |s| && IsUpperLetter(s[i]) ==> r[i] as int == s[i] as int + 32
  {
    seq(|s|, i requires 0 <= i < |s| => LowerChar(s[i]))
  }

  lemma LowerIdempotent(s: string)
    ensures Lower(Lower(s)) == Lower(s)
  {
    assert forall i :: 0 <= i < |s| ==> LowerChar(LowerChar(s[i])) == LowerChar(s[i]);
  }

  predicate NoUpper(s: string) { forall i :: 0 <= i < |s| ==> !IsUpperLetter(s[i]) }

  lemma LowerOfNoUpper(s: string)
    requires NoUpper(s)
    ensures Lower(s) == s
  {
  }

  /** `sep.join(words)`: it starts with the first word. */
  function Join(words: seq<string>, sep: string): (r: string)
    ensures |words| > 0 ==> words[0] <= r
  {
    if |words| == 0 then ""
    else if |words| == 1 then words[0]
    else words[0] + sep + Join(words[1..], sep)
  }

  /** The total length of the words. */
  function TotalLength(words: seq<string>): nat
  {
    if |words| == 0 then 0 else |words[0]| + TotalLength(words[1..])
  }

  /** The joined string holds every word and one separator between each two. */
  lemma {:induction false} JoinLength(words: seq<string>, sep: string)
    requires |words| > 0
    ensures |Join(words, sep)| == TotalLength(words) + (|words| - 1) * |sep|
  {
    if |words| > 1 {
      JoinLength(words[1..], sep);
      assert (|words| - 1) * |sep| == (|words| - 2) * |sep| + |sep|;
    }
  }

  predicate NoSpace(w: string) { forall i :: 0 <= i < |w| ==> w[i] != ' ' }

  lemma SpaceAfterWord(w: string, r: string)
    requires NoSpace(w)
    ensures (w + " " + r)[|w|] == ' '
    ensures forall i :: 0 <= i < |w| ==> (w + " " + r)[i] != ' '
  {
  }

  /** The first space of `w + " " + r` sits right after `w` when `w` has none. */
  lemma FirstSpace(w: string, r: string, w': string, r': string)
    requires NoSpace(w) && NoSpace(w')
    requires w + " " + r == w' + " " + r'
    ensures w == w' && r == r'
  {
    var s := w + " " + r;
    SpaceAfterWord(w, r);
    SpaceAfterWord(w', r');
    assert |w| == |w'|;
    assert w == s[..|w|] == w';
    assert r == s[|w| + 1..] == r';
  }

  /**
   * Joining with one space is injective on windows of one width whose words
   * hold no space: two n-grams are equal exactly when their token windows are.
   */
  lemma {:induction false} JoinInjective(ws: seq<string>, ws': seq<string>)
    requires |ws| == |ws'|
    requires forall i :: 0 <= i < |ws| ==> NoSpace(ws[i]) && NoSpace(ws'[i])
    ensures Join(ws, " ") == Join(ws', " ") <==> ws == ws'
  {
    if Join(ws, " ") == Join(ws', " ") && |ws| > 1 {
      FirstSpace(ws[0], Join(ws[1..], " "), ws'[0], Join(ws'[1..], " "));
      JoinInjective(ws[1..], ws'[1..]);
      assert ws == [ws[0]] + ws[1..];
      assert ws' == [ws'[0]] + ws'[1..];
    }
  }

  /** Non-overlapping, left-to-right occurrences of a non-empty `sub` in `s`. */
  function CountFrom(s: string, sub: string): nat
    requires |sub| > 0
    decreases |s|
  {
    if |s| < |sub| then 0
    else if s[..|sub|] == sub then 1 + CountFrom(s[|sub|..], sub)
    else CountFrom(s[1..], sub)
  }

  /** The matches do not overlap: together they take at most the whole string. */
  lemma {:induction false} CountFromBound(s: string, sub: string)
    requires |sub| > 0
    ensures CountFrom(s, sub) * |sub| <= |s|
    decreases |s|
  {
    if |s| >= |sub| {
      if s[..|sub|] == sub {
        CountFromBound(s[|sub|..], sub);
        assert (1 + CountFrom(s[|sub|..], sub)) * |sub| == |sub| + CountFrom(s[|sub|..], sub) * |sub|;
      } else {
        CountFromBound(s[1..], sub);
      }
    }
  }

  /**
   * `s.count(sub)`: an empty `sub` is found `len(s) + 1` times. The count is
   * positive exactly when `sub` occurs, and non-empty matches never overlap.
   */
  function Count(s: string, sub: string): (r: nat)
    ensures |sub| == 0 ==> r == |s| + 1
    ensures r > 0 <==> exists k :: OccursAt(s, sub, k)
    ensures |sub| > 0 ==> r * |sub| <= |s|
  {
    if |sub| == 0 then
      assert OccursAt(s, sub, 0);
      |s| + 1
    else
      CountFromPositiveIff(s, sub);
      CountFromBound(s, sub);
      CountFrom(s, sub)
  }

  predicate OccursAt(s: string, sub: string, k: int)
  {
    0 <= k && k + |sub| <= |s| && s[k..k + |sub|] == sub
  }

  lemma {:induction false} CountFromPositiveIff(s: string, sub: string)
    requires |sub| > 0
    ensures CountFrom(s, sub) > 0 <==> exists k :: OccursAt(s, sub, k)
    decreases |s|
  {
    if |s| < |sub| {
      assert forall k :: !OccursAt(s, sub, k);
    } else if s[..|sub|] == sub {
      assert OccursAt(s, sub, 0);
    } else {
      CountFromPositiveIff(s[1..], sub);
      OccursShift(s, sub);
    }
  }

  /** Past a non-matching first position, occurrences in `s` are those in `s[1..]`, shifted. */
  lemma OccursShift(s: string, sub: string)
    requires |s| > 0 && !OccursAt(s, sub, 0)
    ensures (exists k :: OccursAt(s, sub, k)) <==> (exists k :: OccursAt(s[1..], sub, k))
  {
    if exists k :: OccursAt(s, sub, k) {
      var k :| OccursAt(s, sub, k);
      assert s[1..][k - 1..k - 1 + |sub|] == s[k..k + |sub|];
      assert OccursAt(s[1..], sub, k - 1);
    }
    if exists k :: OccursAt(s[1..], sub, k) {
      var k :| OccursAt(s[1..], sub, k);
      assert s[k + 1..k + 1 + |sub|] == s[1..][k..k + |sub|];
      assert OccursAt(s, sub, k + 1);
    }
  }
}
