/**
 * The fallback search worker: plain string matching over the worker's share of
 * titles, used when the indexed worker cannot be started. Titles and queries are
 * normalised, each title is scored against the query phrase and its words, and
 * the matches are sorted by score and cut to the limit.
 */
module FallbackWorker {
  import opened Wrappers
  import opened Text
  import opened Lists
  import opened Sorting
  import opened WorkerProtocol

  // ---------------------------------------------------------------------------
  // Normalisation
  // ---------------------------------------------------------------------------

  /** A combining diacritical mark, U+0300 to U+036F. */
  predicate IsMark(c: char) {
    0x300 <= c as int <= 0x36F
  }

  /** Removes every combining mark. */
  function StripMarks(s: string): (r: string)
    ensures forall i :: 0 <= i < |r| ==> !IsMark(r[i])
    ensures forall c :: c in r ==> c in s
    ensures (forall i :: 0 <= i < |s| ==> !IsMark(s[i])) ==> r == s
  {
    if s == [] then []
    else if IsMark(s[0]) then StripMarks(s[1..])
    else [s[0]] + StripMarks(s[1..])
  }

  /** A character that is neither a word character nor white space becomes a space. */
  function Unspecial(c: char): char {
    if IsWordChar(c) || IsSpace(c) then c else ' '
  }

  function ReplaceSpecial(s: string): (r: string)
    ensures |r| == |s|
    ensures forall i :: 0 <= i < |s| ==> r[i] == Unspecial(s[i])
  {
    seq(|s|, i requires 0 <= i < |s| => Unspecial(s[i]))
  }

  /** The number of white-space characters at the start. */
  function LeadingSpaces(s: string): (n: nat)
    ensures n <= |s|
    ensures forall i :: 0 <= i < n ==> IsSpace(s[i])
    ensures n == |s| || !IsSpace(s[n])
  {
    if s != [] && IsSpace(s[0]) then 1 + LeadingSpaces(s[1..]) else 0
  }

  /** The number of white-space characters at the end. */
  function TrailingSpaces(s: string): (n: nat)
    ensures n <= |s|
    ensures forall i :: |s| - n <= i < |s| ==> IsSpace(s[i])
    ensures n == |s| || !IsSpace(s[|s| - n - 1])
  {
    if s != [] && IsSpace(s[|s| - 1]) then 1 + TrailingSpaces(s[..|s| - 1]) else 0
  }

  /** Drops the white space at the start (`trimStart`). */
  function TrimStart(s: string): string {
    s[LeadingSpaces(s)..]
  }

  /** Drops the white space at the end (`trimEnd`). */
  function TrimEnd(s: string): string {
    s[..|s| - TrailingSpaces(s)]
  }

  /** `s.trim()`: white space is the `\s` set on both ends. */
  function Trim(s: string): string {
    TrimEnd(TrimStart(s))
  }

  /** The characters of s that are not white space, in order. */
  function WithoutSpace(s: string): string {
    if s == [] then [] else (if IsSpace(s[0]) then [] else [s[0]]) + WithoutSpace(s[1..])
  }

  /** Dropping the leading white space drops no other character. */
  lemma {:induction false} WithoutSpaceTrimStart(t: string)
    ensures WithoutSpace(TrimStart(t)) == WithoutSpace(t)
    decreases |t|
  {
    if t != [] && IsSpace(t[0]) {
      assert TrimStart(t) == TrimStart(t[1..]);
      WithoutSpaceTrimStart(t[1..]);
    }
  }

  /**
   * `s.replace(/\s+/g, ' ')`: every run of white space becomes one space; the
   * other characters are kept, in order.
   */
  function Collapse(s: string): (r: string)
    ensures s == [] <==> r == []
    ensures s != [] && !IsSpace(s[0]) ==> r[0] == s[0]
    ensures s != [] && IsSpace(s[0]) ==> r[0] == ' '
    ensures WithoutSpace(r) == WithoutSpace(s)
    ensures forall i :: 0 <= i < |r| && IsSpace(r[i]) ==> r[i] == ' '
    decreases |s|
  {
    if s == [] then []
    else if IsSpace(s[0]) then
      var rest := Collapse(TrimStart(s[1..]));
      WithoutSpaceTrimStart(s[1..]);
      assert ([' '] + rest)[1..] == rest;
      [' '] + rest
    else
      var rest := Collapse(s[1..]);
      assert ([s[0]] + rest)[1..] == rest;
      [s[0]] + rest
  }

  /** Collapsing leaves no two spaces side by side. */
  lemma {:induction false} CollapseSingleSpaces(s: string)
    ensures SingleSpaced(Collapse(s))
    decreases |s|
  {
    if s != [] {
      if IsSpace(s[0]) {
        var rest := TrimStart(s[1..]);
        CollapseSingleSpaces(rest);
        SingleSpacedCons(' ', Collapse(rest));
      } else {
        CollapseSingleSpaces(s[1..]);
        SingleSpacedCons(s[0], Collapse(s[1..]));
      }
    }
  }

  /** When only normal characters and white space go in, only normal characters come out. */
  lemma {:induction false} CollapseChars(s: string)
    requires forall i :: 0 <= i < |s| ==> NormalChar(s[i]) || IsSpace(s[i])
    ensures AllNormalChars(Collapse(s))
    decreases |s|
  {
    if s != [] {
      var t := s[1..];
      if IsSpace(s[0]) {
        var rest := TrimStart(t);
        assert forall i :: 0 <= i < |rest| ==> rest[i] == t[LeadingSpaces(t) + i];
        CollapseChars(rest);
      } else {
        CollapseChars(t);
      }
    }
  }

  /**
   * `normalizeString`: lower-case, strip combining marks, turn every other
   * non-word character into a space, collapse white space and trim.
   */
  function NormalizeString(s: string): string {
    Trim(Collapse(ReplaceSpecial(StripMarks(Lower(s)))))
  }

  /** A character that can appear in a normalised string. */
  predicate NormalChar(c: char) {
    'a' <= c <= 'z' || '0' <= c <= '9' || c == '_' || c == ' '
  }

  predicate AllNormalChars(t: string) {
    forall i :: 0 <= i < |t| ==> NormalChar(t[i])
  }

  /** Two spaces side by side at index i. */
  predicate DoubleSpaceAt(t: string, i: int) {
    0 <= i < |t| - 1 && t[i] == ' ' && t[i + 1] == ' '
  }

  /** No two spaces side by side. */
  predicate SingleSpaced(t: string) {
    forall i :: 0 <= i < |t| ==> !DoubleSpaceAt(t, i)
  }

  lemma SingleSpacedCons(x: char, t: string)
    requires SingleSpaced(t) && (x != ' ' || t == [] || t[0] != ' ')
    ensures SingleSpaced([x] + t)
  {
    var r := [x] + t;
    forall i | 0 <= i < |r| ensures !DoubleSpaceAt(r, i) {
      if 0 < i < |r| - 1 {
        assert r[i] == t[i - 1] && r[i + 1] == t[i];
        assert !DoubleSpaceAt(t, i - 1);
      }
    }
  }

  /** A piece of a string keeps both properties. */
  lemma SliceKeeps(c: string, k: nat, n: nat)
    requires AllNormalChars(c) && SingleSpaced(c) && k + n <= |c|
    ensures AllNormalChars(c[k..k + n]) && SingleSpaced(c[k..k + n])
  {
    var t := c[k..k + n];
    assert forall i :: 0 <= i < n ==> t[i] == c[k + i];
    forall i | 0 <= i < |t| ensures !DoubleSpaceAt(t, i) {
      assert !DoubleSpaceAt(c, k + i);
    }
  }

  /**
   * What `normalizeString` produces: lower-case word characters separated by
   * single spaces, with no space at either end.
   */
  predicate Normalized(t: string) {
    && AllNormalChars(t)
    && SingleSpaced(t)
    && (t == [] || (t[0] != ' ' && t[|t| - 1] != ' '))
  }

  /**
   * After lower-casing, mark stripping, replacement and collapsing only
   * lower-case word characters and spaces remain.
   */
  lemma ReplacedChars(s: string)
    ensures AllNormalChars(Collapse(ReplaceSpecial(StripMarks(Lower(s)))))
  {
    var m := StripMarks(Lower(s));
    var p := ReplaceSpecial(m);
    forall i | 0 <= i < |p| ensures NormalChar(p[i]) || IsSpace(p[i]) {
      assert m[i] in m;
    }
    CollapseChars(p);
  }

  /** Trimming keeps a contiguous piece of the string. */
  lemma TrimSlice(c: string)
    ensures LeadingSpaces(c) + |Trim(c)| <= |c|
    ensures Trim(c) == c[LeadingSpaces(c)..LeadingSpaces(c) + |Trim(c)|]
  {
    var k := LeadingSpaces(c);
    assert c[k..][..|Trim(c)|] == c[k..k + |Trim(c)|];
  }

  /** A trimmed string has no white space at either end. */
  lemma TrimEnds(c: string)
    ensures Trim(c) == [] || (!IsSpace(Trim(c)[0]) && !IsSpace(Trim(c)[|Trim(c)| - 1]))
  {
    var a := TrimStart(c);
    assert Trim(c) != [] ==> Trim(c)[0] == a[0] && Trim(c)[|Trim(c)| - 1] == a[|a| - TrailingSpaces(a) - 1];
  }

  /** Trimming keeps the characters and single spacing, and leaves no space at either end. */
  lemma TrimKeeps(c: string)
    requires AllNormalChars(c) && SingleSpaced(c)
    ensures Normalized(Trim(c))
  {
    TrimSlice(c);
    TrimEnds(c);
    SliceKeeps(c, LeadingSpaces(c), |Trim(c)|);
  }

  /** Every output of `normalizeString` is normalised. */
  lemma NormalizeNormalized(s: string)
    ensures Normalized(NormalizeString(s))
  {
    ReplacedChars(s);
    CollapseSingleSpaces(ReplaceSpecial(StripMarks(Lower(s))));
    TrimKeeps(Collapse(ReplaceSpecial(StripMarks(Lower(s)))));
  }

  /** A normalised string is left as it is. */
  lemma {:induction false} CollapseNormalized(s: string)
    requires AllNormalChars(s) && SingleSpaced(s)
    ensures Collapse(s) == s
    decreases |s|
  {
    if s != [] {
      SliceKeeps(s, 1, |s| - 1);
      assert s[1..|s|] == s[1..];
      CollapseNormalized(s[1..]);
      if s[0] == ' ' {
        assert !DoubleSpaceAt(s, 0);
        assert LeadingSpaces(s[1..]) == 0;
      }
    }
  }

  lemma LowerNormalized(t: string)
    requires Normalized(t)
    ensures Lower(t) == t
  {
  }

  lemma StripReplaceNormalized(t: string)
    requires Normalized(t)
    ensures ReplaceSpecial(StripMarks(t)) == t
  {
    assert StripMarks(t) == t;
  }

  lemma TrimNormalized(t: string)
    requires Normalized(t)
    ensures Trim(t) == t
  {
  }

  lemma NormalizeFixesNormalized(t: string)
    requires Normalized(t)
    ensures NormalizeString(t) == t
  {
    LowerNormalized(t);
    StripReplaceNormalized(t);
    CollapseNormalized(t);
    TrimNormalized(t);
  }

  /** Normalising twice is normalising once. */
  lemma NormalizeIdempotent(s: string)
    ensures NormalizeString(NormalizeString(s)) == NormalizeString(s)
  {
    NormalizeNormalized(s);
    NormalizeFixesNormalized(NormalizeString(s));
  }

  // ---------------------------------------------------------------------------
  // Query words
  // ---------------------------------------------------------------------------

  function FirstSpace(s: string): (i: nat)
    requires ' ' in s
    ensures i < |s| && s[i] == ' ' && ' ' !in s[..i]
  {
    if s[0] == ' ' then 0 else
      assert ' ' in s[1..] by { var k :| 0 <= k < |s| && s[k] == ' '; assert s[1..][k - 1] == ' '; }
      var j := FirstSpace(s[1..]);
      assert s[..j + 1] == [s[0]] + s[1..][..j];
      j + 1
  }

  /** `s.split(' ')`: the pieces between the spaces, empty ones included. */
  function SplitSpaces(s: string): (r: seq<string>)
    ensures |r| > 0
    ensures forall k :: 0 <= k < |r| ==> ' ' !in r[k] && Contains(s, r[k])
    ensures Join(r, " ") == s
    decreases |s|
  {
    if ' ' !in s then
      assert StartsWith(s, s);
      StartsWithContains(s, s);
      [s]
    else
      var i := FirstSpace(s);
      var rest := SplitSpaces(s[i + 1..]);
      assert StartsWith(s, s[..i]);
      StartsWithContains(s, s[..i]);
      forall k | 0 <= k < |rest| ensures Contains(s, rest[k]) {
        ContainsOfSuffix(s, i + 1, rest[k]);
      }
      JoinCons(s[..i], rest, " ");
      assert s == s[..i] + " " + s[i + 1..];
      [s[..i]] + rest
  }

  /** `.filter(word => word.length > 0)`: every non-empty piece, as often as it occurs. */
  function NonEmpty(ps: seq<string>): (r: seq<string>)
    ensures forall k :: 0 <= k < |r| ==> r[k] != [] && r[k] in ps
    ensures multiset(r) == multiset(ps)[[] := 0]
    ensures (forall k :: 0 <= k < |ps| ==> ps[k] != []) ==> r == ps
  {
    if ps == [] then []
    else
      assert ps == [ps[0]] + ps[1..];
      if ps[0] == [] then NonEmpty(ps[1..])
      else [ps[0]] + NonEmpty(ps[1..])
  }

  /** Filtering keeps the order: it distributes over concatenation. */
  lemma {:induction false} NonEmptyAppend(a: seq<string>, b: seq<string>)
    ensures NonEmpty(a + b) == NonEmpty(a) + NonEmpty(b)
  {
    if a != [] {
      assert (a + b)[0] == a[0] && (a + b)[1..] == a[1..] + b;
      NonEmptyAppend(a[1..], b);
    } else {
      assert a + b == b;
    }
  }

  /** A normalised string has no empty piece between its spaces. */
  lemma {:induction false} NormalizedPieces(s: string)
    requires Normalized(s) && s != []
    ensures forall k :: 0 <= k < |SplitSpaces(s)| ==> SplitSpaces(s)[k] != []
    decreases |s|
  {
    if ' ' in s {
      var i := FirstSpace(s);
      var t := s[i + 1..];
      assert i != 0 && i != |s| - 1;
      assert !DoubleSpaceAt(s, i);
      SliceKeeps(s, i + 1, |s| - i - 1);
      assert s[i + 1..|s|] == t;
      assert t[0] == s[i + 1] && t[|t| - 1] == s[|s| - 1];
      NormalizedPieces(t);
    }
  }

  /**
   * The query words: the non-empty pieces of the normalised query between
   * spaces. Joined with spaces they give back a normalised query, and there
   * are none exactly when it is empty.
   */
  function Words(nq: string): (ws: seq<string>)
    ensures forall k :: 0 <= k < |ws| ==> ws[k] != [] && ' ' !in ws[k] && Contains(nq, ws[k])
    ensures Normalized(nq) ==> (ws == [] <==> nq == [])
    ensures Normalized(nq) ==> Join(ws, " ") == nq
  {
    var ps := SplitSpaces(nq);
    if Normalized(nq) && nq != [] then
      NormalizedPieces(nq);
      NonEmpty(ps)
    else
      assert nq == [] ==> ps == [[]];
      NonEmpty(ps)
  }

  // ---------------------------------------------------------------------------
  // Scoring
  // ---------------------------------------------------------------------------

  /** 10 points for every query word the normalised title contains. */
  function WordScore(nt: string, ws: seq<string>): (r: nat)
    ensures r <= 10 * |ws|
    ensures r > 0 <==> exists k :: 0 <= k < |ws| && Contains(nt, ws[k])
    ensures (forall k :: 0 <= k < |ws| ==> Contains(nt, ws[k])) ==> r == 10 * |ws|
  {
    if ws == [] then 0
    else
      var n := |ws| - 1;
      var prev := WordScore(nt, ws[..n]);
      assert forall k :: 0 <= k < n ==> ws[..n][k] == ws[k];
      prev + (if Contains(nt, ws[n]) then 10 else 0)
  }

  /**
   * The score of a normalised title against the normalised query and its words:
   * 100 for the whole phrase, 10 per word, 50 when the title starts with the phrase.
   */
  function Score(nt: string, nq: string, ws: seq<string>): int {
    (if Contains(nt, nq) then 100 else 0) + WordScore(nt, ws) + (if StartsWith(nt, nq) then 50 else 0)
  }

  /** A title scores at all exactly when it contains one of the query words. */
  lemma ScorePositiveIff(nt: string, nq: string)
    requires Words(nq) != []
    ensures Score(nt, nq, Words(nq)) > 0 <==> exists k :: 0 <= k < |Words(nq)| && Contains(nt, Words(nq)[k])
  {
    var ws := Words(nq);
    if StartsWith(nt, nq) {
      StartsWithContains(nt, nq);
    }
    if Contains(nt, nq) {
      ContainsTransitive(nt, nq, ws[0]);
    }
  }

  /** A title holding the whole phrase scores more than any title that does not. */
  lemma PhraseOutranks(nt1: string, nt2: string, nq: string)
    requires Contains(nt1, nq) && !Contains(nt2, nq)
    ensures Score(nt1, nq, Words(nq)) > Score(nt2, nq, Words(nq))
  {
    var ws := Words(nq);
    forall k | 0 <= k < |ws| ensures Contains(nt1, ws[k]) {
      ContainsTransitive(nt1, nq, ws[k]);
    }
    if StartsWith(nt2, nq) {
      StartsWithContains(nt2, nq);
    }
  }

  // ---------------------------------------------------------------------------
  // Highlighting
  // ---------------------------------------------------------------------------

  /** The word occurs at index i of s, ignoring the case of ASCII letters. */
  predicate MatchesAt(s: string, w: string, i: int) {
    0 <= i && i + |w| <= |s| && Lower(s[i..i + |w|]) == w
  }

  lemma MatchesAtTail(s: string, w: string, i: int)
    requires s != [] && 1 <= i
    ensures MatchesAt(s, w, i) <==> MatchesAt(s[1..], w, i - 1)
  {
    if i + |w| <= |s| {
      assert s[1..][i - 1..i - 1 + |w|] == s[i..i + |w|];
    }
  }

  /** Without a match at the front, the matches of s are those of its tail, shifted by one. */
  lemma MatchesAfterMiss(s: string, w: string)
    requires |s| >= |w| > 0 && !MatchesAt(s, w, 0)
    ensures (exists i :: 0 <= i <= |s| - |w| && MatchesAt(s, w, i)) ==>
      (exists i :: 0 <= i <= |s| - 1 - |w| && MatchesAt(s[1..], w, i))
    ensures (forall i :: 0 <= i <= |s| - |w| ==> !MatchesAt(s, w, i)) ==>
      (forall i :: 0 <= i <= |s| - 1 - |w| ==> !MatchesAt(s[1..], w, i))
  {
    if exists i :: 0 <= i <= |s| - |w| && MatchesAt(s, w, i) {
      var i :| 0 <= i <= |s| - |w| && MatchesAt(s, w, i);
      MatchesAtTail(s, w, i);
    }
    forall i | 0 <= i <= |s| - 1 - |w| && MatchesAt(s[1..], w, i)
      ensures MatchesAt(s, w, i + 1)
    {
      MatchesAtTail(s, w, i + 1);
    }
  }

  /**
   * `s.replace(new RegExp(`(${w})`, 'gi'), '<b>$1</b>')` for a word of lower-case
   * word characters: every occurrence, scanned left to right without overlap,
   * is wrapped in a bold tag.
   */
  function MarkAll(s: string, w: string): (r: string)
    requires w != []
    ensures |r| >= |s|
    ensures (forall i :: 0 <= i <= |s| - |w| ==> !MatchesAt(s, w, i)) ==> r == s
    ensures (exists i :: 0 <= i <= |s| - |w| && MatchesAt(s, w, i)) ==> |r| > |s|
    decreases |s|
  {
    if |s| < |w| then s
    else if Lower(s[..|w|]) == w then
      assert MatchesAt(s, w, 0);
      "<b>" + s[..|w|] + "</b>" + MarkAll(s[|w|..], w)
    else
      MatchesAfterMiss(s, w);
      [s[0]] + MarkAll(s[1..], w)
  }

  /** The title with every contained query word marked, word by word. */
  function Highlight(title: string, nt: string, ws: seq<string>): (r: string)
    requires forall k :: 0 <= k < |ws| ==> ws[k] != []
    ensures |r| >= |title|
    ensures (forall k :: 0 <= k < |ws| ==> !Contains(nt, ws[k])) ==> r == title
  {
    if ws == [] then title
    else
      var n := |ws| - 1;
      var prev := Highlight(title, nt, ws[..n]);
      if Contains(nt, ws[n]) then MarkAll(prev, ws[n]) else prev
  }

  /** A query word: non-empty, with no space, made of lower-case word characters. */
  predicate WordLike(w: string) {
    w != [] && ' ' !in w && AllNormalChars(w)
  }

  /** What a string of normal characters contains is made of normal characters. */
  lemma ContainedNormal(nq: string, w: string)
    requires AllNormalChars(nq) && Contains(nq, w)
    ensures AllNormalChars(w)
  {
    var i :| 0 <= i <= |nq| - |w| && OccursAt(nq, w, i);
    forall j | 0 <= j < |w| ensures NormalChar(w[j]) {
      assert w[j] == nq[i + j];
    }
  }

  /** Every query word of a normalised query is word-like. */
  lemma QueryWordsWordLike(query: string)
    ensures forall k :: 0 <= k < |Words(NormalizeString(query))| ==> WordLike(Words(NormalizeString(query))[k])
  {
    var nq := NormalizeString(query);
    NormalizeNormalized(query);
    var ws := Words(nq);
    forall k | 0 <= k < |ws| ensures WordLike(ws[k]) {
      ContainedNormal(nq, ws[k]);
    }
  }

  /** s starts with a `<b>` tag. */
  predicate OpensTag(s: string) {
    |s| >= 3 && s[0] == '<' && s[1] == 'b' && s[2] == '>'
  }

  /** s starts with a `</b>` tag. */
  predicate ClosesTag(s: string) {
    |s| >= 4 && s[0] == '<' && s[1] == '/' && s[2] == 'b' && s[3] == '>'
  }

  /** The text with every `<b>` and `</b>` tag taken out, read left to right. */
  function Unbold(s: string): string
    decreases |s|
  {
    if s == [] then []
    else if OpensTag(s) then Unbold(s[3..])
    else if ClosesTag(s) then Unbold(s[4..])
    else [s[0]] + Unbold(s[1..])
  }

  /** Text without '<' holds no tag. */
  lemma {:induction false} UnboldPlain(x: string, t: string)
    requires '<' !in x
    ensures Unbold(x + t) == x + Unbold(t)
  {
    if x == [] {
      assert x + t == t;
    } else {
      var xt := x + t;
      assert xt[0] == x[0] && xt[1..] == x[1..] + t;
      UnboldPlain(x[1..], t);
    }
  }

  lemma UnboldTag(tag: string, t: string)
    requires tag == "<b>" || tag == "</b>"
    ensures Unbold(tag + t) == Unbold(t)
  {
    var s := tag + t;
    assert s[..|tag|] == tag && s[|tag|..] == t;
  }

  /** A marked occurrence reads as the occurrence once its tags are removed. */
  lemma UnboldMarked(head: string, rest: string)
    requires '<' !in head
    ensures Unbold("<b>" + head + "</b>" + rest) == head + Unbold(rest)
  {
    assert "<b>" + head + "</b>" + rest == "<b>" + (head + ("</b>" + rest));
    UnboldTag("<b>", head + ("</b>" + rest));
    UnboldPlain(head, "</b>" + rest);
    UnboldTag("</b>", rest);
  }

  /** A '<' that starts no tag is kept, and what follows it is read on its own. */
  lemma UnboldAngle(s: string)
    requires s != [] && s[0] == '<' && !OpensTag(s) && !ClosesTag(s)
    ensures Unbold(s) == ['<'] + Unbold(s[1..])
  {
  }

  /** One of `<`, `>` and `/` at offset j of the window rules out a match there. */
  lemma MissAt(s: string, w: string, j: nat)
    requires WordLike(w) && j < |w| <= |s| && (s[j] == '<' || s[j] == '>' || s[j] == '/')
    ensures Lower(s[..|w|]) != w
  {
    assert Lower(s[..|w|])[j] == s[j];
  }

  /** With "b>" in front, a word other than "b" cannot match. */
  lemma MissB(s: string, w: string)
    requires WordLike(w) && w != "b" && |w| <= |s| && |s| >= 2 && s[0] == 'b' && s[1] == '>'
    ensures Lower(s[..|w|]) != w
  {
    if |w| == 1 {
      assert Lower(s[..1]) == "b";
    } else {
      MissAt(s, w, 1);
    }
  }

  /** A matched window holds no '<'. */
  lemma MatchPlain(s: string, w: string)
    requires WordLike(w) && |w| <= |s| && Lower(s[..|w|]) == w
    ensures '<' !in s[..|w|]
  {
    forall j | 0 <= j < |w| ensures s[..|w|][j] != '<' {
      if s[j] == '<' { MissAt(s, w, j); }
    }
  }

  /** Where no match starts, marking copies the first character. */
  lemma MarkMiss(t: string, w: string)
    requires w != [] && t != [] && (|t| < |w| || Lower(t[..|w|]) != w)
    ensures MarkAll(t, w) == [t[0]] + MarkAll(t[1..], w)
  {
    if |t| < |w| {
      assert t == [t[0]] + t[1..];
    }
  }

  /** A marked string that does not start with '<' starts with the string's own first character. */
  lemma MarkHead(t: string, w: string)
    requires w != []
    ensures MarkAll(t, w) != [] && MarkAll(t, w)[0] != '<' ==>
      t != [] && t[0] == MarkAll(t, w)[0] && MarkAll(t, w)[1..] == MarkAll(t[1..], w)
  {
    if t != [] && |t| < |w| {
      assert t == [t[0]] + t[1..];
    }
  }

  /** A '<' that starts no tag in s starts none once s is marked either. */
  lemma LoneAngle(s: string, w: string)
    requires w != [] && s != [] && s[0] == '<' && !OpensTag(s) && !ClosesTag(s)
    ensures var m := ['<'] + MarkAll(s[1..], w); !OpensTag(m) && !ClosesTag(m)
  {
    var m := ['<'] + MarkAll(s[1..], w);
    MarkHead(s[1..], w);
    if |s| >= 2 {
      MarkHead(s[2..], w);
      assert s[1..][1..] == s[2..];
    }
    if |s| >= 3 {
      MarkHead(s[3..], w);
      assert s[2..][1..] == s[3..];
    }
    assert m[1..] == MarkAll(s[1..], w);
  }

  /** Marking copies a '<', '>' or '/' in front. */
  lemma MarkPastMarkup(t: string, w: string)
    requires WordLike(w) && t != [] && (t[0] == '<' || t[0] == '>' || t[0] == '/')
    ensures MarkAll(t, w) == [t[0]] + MarkAll(t[1..], w)
  {
    if |t| >= |w| { MissAt(t, w, 0); }
    MarkMiss(t, w);
  }

  /** The marking of a word other than "b" passes over "b>" whole. */
  lemma MarkPastB(t: string, w: string)
    requires WordLike(w) && w != "b" && |t| >= 2 && t[0] == 'b' && t[1] == '>'
    ensures MarkAll(t, w) == "b>" + MarkAll(t[2..], w)
  {
    if |t| >= |w| { MissB(t, w); }
    MarkMiss(t, w);
    MarkPastMarkup(t[1..], w);
    assert t[1..][1..] == t[2..];
  }

  /** The marking of a word other than "b" passes over a `<b>` tag whole. */
  lemma MarkPastOpen(s: string, w: string)
    requires WordLike(w) && w != "b" && OpensTag(s)
    ensures MarkAll(s, w) == "<b>" + MarkAll(s[3..], w)
  {
    MarkPastMarkup(s, w);
    MarkPastB(s[1..], w);
    assert s[1..][2..] == s[3..];
  }

  /** The marking of a word other than "b" passes over a `</b>` tag whole. */
  lemma MarkPastClose(s: string, w: string)
    requires WordLike(w) && w != "b" && ClosesTag(s)
    ensures MarkAll(s, w) == "</b>" + MarkAll(s[4..], w)
  {
    MarkPastMarkup(s, w);
    MarkPastMarkup(s[1..], w);
    MarkPastB(s[2..], w);
    assert s[1..][1..] == s[2..] && s[2..][2..] == s[4..];
  }

  // The five cases of `MarkAllUnbold`, each given the claim for the rest of the text.

  /** A marked occurrence followed by text that reads like the rest reads like the whole. */
  lemma UnboldHitShape(s: string, n: nat, m: string)
    requires n <= |s| && '<' !in s[..n] && Unbold(m) == Unbold(s[n..])
    ensures Unbold("<b>" + s[..n] + "</b>" + m) == Unbold(s)
  {
    UnboldMarked(s[..n], m);
    assert s == s[..n] + s[n..];
    UnboldPlain(s[..n], s[n..]);
  }

  /** A first character other than '<' followed by text that reads like the rest reads like the whole. */
  lemma UnboldMissShape(s: string, m: string)
    requires s != [] && s[0] != '<' && Unbold(m) == Unbold(s[1..])
    ensures Unbold([s[0]] + m) == Unbold(s)
  {
    UnboldPlain([s[0]], m);
    UnboldPlain([s[0]], s[1..]);
    assert s == [s[0]] + s[1..];
  }

  /** Where a match starts, marking wraps it in a bold tag. */
  lemma MarkHit(s: string, w: string)
    requires w != [] && |w| <= |s| && Lower(s[..|w|]) == w
    ensures MarkAll(s, w) == "<b>" + s[..|w|] + "</b>" + MarkAll(s[|w|..], w)
  {
  }

  lemma MatchUnbold(s: string, w: string)
    requires WordLike(w) && |w| <= |s| && Lower(s[..|w|]) == w
    requires Unbold(MarkAll(s[|w|..], w)) == Unbold(s[|w|..])
    ensures Unbold(MarkAll(s, w)) == Unbold(s)
  {
    MatchPlain(s, w);
    MarkHit(s, w);
    UnboldHitShape(s, |w|, MarkAll(s[|w|..], w));
  }

  lemma PlainUnbold(s: string, w: string)
    requires w != [] && |w| <= |s| && Lower(s[..|w|]) != w && s[0] != '<'
    requires Unbold(MarkAll(s[1..], w)) == Unbold(s[1..])
    ensures Unbold(MarkAll(s, w)) == Unbold(s)
  {
    MarkMiss(s, w);
    UnboldMissShape(s, MarkAll(s[1..], w));
  }

  lemma OpenUnbold(s: string, w: string)
    requires WordLike(w) && w != "b" && OpensTag(s)
    requires Unbold(MarkAll(s[3..], w)) == Unbold(s[3..])
    ensures Unbold(MarkAll(s, w)) == Unbold(s)
  {
    MarkPastOpen(s, w);
    UnboldTag("<b>", MarkAll(s[3..], w));
  }

  lemma CloseUnbold(s: string, w: string)
    requires WordLike(w) && w != "b" && ClosesTag(s)
    requires Unbold(MarkAll(s[4..], w)) == Unbold(s[4..])
    ensures Unbold(MarkAll(s, w)) == Unbold(s)
  {
    MarkPastClose(s, w);
    UnboldTag("</b>", MarkAll(s[4..], w));
  }

  lemma AngleUnbold(s: string, w: string)
    requires WordLike(w) && s != [] && s[0] == '<' && !OpensTag(s) && !ClosesTag(s)
    requires Unbold(MarkAll(s[1..], w)) == Unbold(s[1..])
    ensures Unbold(MarkAll(s, w)) == Unbold(s)
  {
    var m := ['<'] + MarkAll(s[1..], w);
    MarkPastMarkup(s, w);
    LoneAngle(s, w);
    assert m[0] == '<' && m[1..] == MarkAll(s[1..], w);
    UnboldAngle(m);
    UnboldAngle(s);
  }

  /**
   * Marking a word other than "b" keeps what the text reads once its tags are
   * removed: the tags already present pass through whole.
   */
  lemma {:induction false} MarkAllUnbold(s: string, w: string)
    requires WordLike(w) && w != "b"
    ensures Unbold(MarkAll(s, w)) == Unbold(s)
    decreases |s|
  {
    if |s| < |w| {
    } else if Lower(s[..|w|]) == w {
      MarkAllUnbold(s[|w|..], w);
      MatchUnbold(s, w);
    } else if s[0] != '<' {
      MarkAllUnbold(s[1..], w);
      PlainUnbold(s, w);
    } else if OpensTag(s) {
      MarkAllUnbold(s[3..], w);
      OpenUnbold(s, w);
    } else if ClosesTag(s) {
      MarkAllUnbold(s[4..], w);
      CloseUnbold(s, w);
    } else {
      MarkAllUnbold(s[1..], w);
      AngleUnbold(s, w);
    }
  }

  /**
   * Taking the tags out of the highlighted title gives back the title, when no
   * query word is "b" (and so none can match inside a tag added before it).
   */
  lemma {:induction false} HighlightUnbold(title: string, nt: string, ws: seq<string>)
    requires forall k :: 0 <= k < |ws| ==> ws[k] != [] && WordLike(ws[k]) && ws[k] != "b"
    ensures Unbold(Highlight(title, nt, ws)) == Unbold(title)
    ensures '<' !in title ==> Unbold(Highlight(title, nt, ws)) == title
  {
    if ws != [] {
      var n := |ws| - 1;
      HighlightUnbold(title, nt, ws[..n]);
      if Contains(nt, ws[n]) {
        MarkAllUnbold(Highlight(title, nt, ws[..n]), ws[n]);
      }
    }
    if '<' !in title {
      UnboldPlain(title, []);
      assert title + [] == title;
    }
  }

  /** Query "plan b" on the title "Plan B": the word "plan" is marked first. */
  lemma HighlightPlanFirst()
    ensures Highlight("Plan B", "plan b", ["plan"]) == "<b>Plan</b> B"
  {
    var t := "Plan B";
    assert OccursAt("plan b", "plan", 0);
    assert ["plan"][..0] == [];
    assert Lower(t[..4]) == "plan";
    MarkHit(t, "plan");
    assert t[..4] == "Plan" && t[4..] == " B";
  }

  /** The word "b" is found inside a `<b>` tag: marking it opens a tag within the tag. */
  lemma MarkBInsideTag(h: string)
    requires OpensTag(h)
    ensures StartsWith(MarkAll(h, "b"), "<<b>")
  {
    assert WordLike("b");
    MarkPastMarkup(h, "b");
    assert Lower(h[1..][..1]) == "b";
    MarkHit(h[1..], "b");
  }

  /**
   * Then the word "b" is also found inside the tag just added: the highlight
   * opens a tag within a tag.
   */
  lemma HighlightMarksInsideTags()
    ensures StartsWith(Highlight("Plan B", "plan b", ["plan", "b"]), "<<b>")
  {
    HighlightPlanFirst();
    assert OccursAt("plan b", "b", 5);
    assert ["plan", "b"][..1] == ["plan"];
    assert Highlight("Plan B", "plan b", ["plan", "b"]) == MarkAll("<b>Plan</b> B", "b");
    MarkBInsideTag("<b>Plan</b> B");
  }

  /** Taking the tags out of that highlight does not give back the title. */
  lemma HighlightBreaksTags()
    ensures Unbold(Highlight("Plan B", "plan b", ["plan", "b"])) != "Plan B"
  {
    var r := Highlight("Plan B", "plan b", ["plan", "b"]);
    HighlightMarksInsideTags();
    assert r[0] == r[..4][0] == '<' && r[1] == r[..4][1] == '<';
    UnboldAngle(r);
  }

  /**
   * Marking as evidently intended: like `MarkAll`, but a `<b>` or `</b>` tag
   * put there by an earlier word is passed over whole rather than searched.
   */
  function MarkOutsideTags(s: string, w: string): (r: string)
    requires w != []
    ensures |r| >= |s|
    decreases |s|
  {
    if |s| < |w| then s
    else if OpensTag(s) then "<b>" + MarkOutsideTags(s[3..], w)
    else if ClosesTag(s) then "</b>" + MarkOutsideTags(s[4..], w)
    else if Lower(s[..|w|]) == w then "<b>" + s[..|w|] + "</b>" + MarkOutsideTags(s[|w|..], w)
    else [s[0]] + MarkOutsideTags(s[1..], w)
  }

  lemma OutsideHead(t: string, w: string)
    requires w != []
    ensures MarkOutsideTags(t, w) != [] && MarkOutsideTags(t, w)[0] != '<' ==>
      t != [] && t[0] == MarkOutsideTags(t, w)[0] && MarkOutsideTags(t, w)[1..] == MarkOutsideTags(t[1..], w)
  {
    if t != [] && |t| < |w| {
      assert t == [t[0]] + t[1..];
    }
  }

  lemma OutsideLoneAngle(s: string, w: string)
    requires w != [] && s != [] && s[0] == '<' && !OpensTag(s) && !ClosesTag(s)
    ensures var m := ['<'] + MarkOutsideTags(s[1..], w); !OpensTag(m) && !ClosesTag(m)
  {
    var m := ['<'] + MarkOutsideTags(s[1..], w);
    OutsideHead(s[1..], w);
    if |s| >= 2 {
      OutsideHead(s[2..], w);
      assert s[1..][1..] == s[2..];
    }
    if |s| >= 3 {
      OutsideHead(s[3..], w);
      assert s[2..][1..] == s[3..];
    }
    assert m[1..] == MarkOutsideTags(s[1..], w);
  }

  /** Marking any query word, "b" included, keeps what the text reads once its tags are removed. */
  lemma {:induction false} MarkOutsideTagsUnbold(s: string, w: string)
    requires WordLike(w)
    ensures Unbold(MarkOutsideTags(s, w)) == Unbold(s)
    decreases |s|
  {
    if |s| < |w| {
    } else if OpensTag(s) {
      MarkOutsideTagsUnbold(s[3..], w);
      UnboldTag("<b>", MarkOutsideTags(s[3..], w));
      UnboldTag("<b>", s[3..]);
      assert s == "<b>" + s[3..];
    } else if ClosesTag(s) {
      MarkOutsideTagsUnbold(s[4..], w);
      UnboldTag("</b>", MarkOutsideTags(s[4..], w));
      UnboldTag("</b>", s[4..]);
      assert s == "</b>" + s[4..];
    } else if Lower(s[..|w|]) == w {
      MatchPlain(s, w);
      MarkOutsideTagsUnbold(s[|w|..], w);
      UnboldMarked(s[..|w|], MarkOutsideTags(s[|w|..], w));
      assert s == s[..|w|] + s[|w|..];
      UnboldPlain(s[..|w|], s[|w|..]);
    } else if s[0] != '<' {
      MarkOutsideTagsUnbold(s[1..], w);
      UnboldPlain([s[0]], MarkOutsideTags(s[1..], w));
      UnboldPlain([s[0]], s[1..]);
      assert s == [s[0]] + s[1..];
    } else {
      var m := ['<'] + MarkOutsideTags(s[1..], w);
      MarkOutsideTagsUnbold(s[1..], w);
      OutsideLoneAngle(s, w);
      assert m[0] == '<' && m[1..] == MarkOutsideTags(s[1..], w);
      UnboldAngle(m);
      UnboldAngle(s);
    }
  }

  /** `Highlight` with every word marked outside the tags already placed. */
  function CorrectedHighlight(title: string, nt: string, ws: seq<string>): (r: string)
    requires forall k :: 0 <= k < |ws| ==> ws[k] != []
    ensures |r| >= |title|
    ensures (forall k :: 0 <= k < |ws| ==> !Contains(nt, ws[k])) ==> r == title
  {
    if ws == [] then title
    else
      var n := |ws| - 1;
      var prev := CorrectedHighlight(title, nt, ws[..n]);
      if Contains(nt, ws[n]) then MarkOutsideTags(prev, ws[n]) else prev
  }

  /** Taking the tags out of the corrected highlight gives back the title, for every query. */
  lemma {:induction false} CorrectedHighlightUnbold(title: string, nt: string, ws: seq<string>)
    requires forall k :: 0 <= k < |ws| ==> ws[k] != [] && WordLike(ws[k])
    ensures Unbold(CorrectedHighlight(title, nt, ws)) == Unbold(title)
    ensures '<' !in title ==> Unbold(CorrectedHighlight(title, nt, ws)) == title
  {
    if ws != [] {
      var n := |ws| - 1;
      CorrectedHighlightUnbold(title, nt, ws[..n]);
      if Contains(nt, ws[n]) {
        MarkOutsideTagsUnbold(CorrectedHighlight(title, nt, ws[..n]), ws[n]);
      }
    }
    if '<' !in title {
      UnboldPlain(title, []);
      assert title + [] == title;
    }
  }

  /** The same query on the same title, highlighted as intended, reads as the title. */
  lemma CorrectedHighlightPlanB()
    ensures Unbold(CorrectedHighlight("Plan B", "plan b", ["plan", "b"])) == "Plan B"
  {
    assert WordLike("plan") && WordLike("b");
    CorrectedHighlightUnbold("Plan B", "plan b", ["plan", "b"]);
  }

  // ---------------------------------------------------------------------------
  // Ranking
  // ---------------------------------------------------------------------------

  /** One result of `simpleSearch`; its original title is its title. */
  datatype Match = Match(id: nat, title: string, highlight: string, score: int)

  /** Higher score first, then the shorter title. */
  function ByScore(a: Match, b: Match): int {
    if b.score != a.score then b.score - a.score else |a.title| - |b.title|
  }

  lemma ByScoreConsistent()
    ensures Consistent(ByScore)
  {
  }

  /** The result for item i with the given title, as the scoring loop builds it. */
  function Evaluate(i: nat, title: string, nq: string, ws: seq<string>): (m: Match)
    requires forall k :: 0 <= k < |ws| ==> ws[k] != []
    ensures m.id == i && m.title == title && m.score == Score(NormalizeString(title), nq, ws)
  {
    var nt := NormalizeString(title);
    Match(i, title, Highlight(title, nt, ws), Score(nt, nq, ws))
  }

  /** Every item of the data, evaluated under its own index. */
  function Evaluations(data: seq<Movie>, nq: string, ws: seq<string>): (r: seq<Match>)
    requires forall k :: 0 <= k < |ws| ==> ws[k] != []
    ensures |r| == |data|
    ensures forall i :: 0 <= i < |data| ==> r[i] == Evaluate(i, data[i].title, nq, ws)
  {
    seq(|data|, i requires 0 <= i < |data| => Evaluate(i, data[i].title, nq, ws))
  }

  /** Each match sits at the index it names. */
  predicate Indexed(ms: seq<Match>) {
    forall i :: 0 <= i < |ms| ==> ms[i].id == i
  }

  /** The matches with a positive score, in their order (`if (score > 0) results.push(...)`). */
  function Positive(ms: seq<Match>): (r: seq<Match>)
    ensures forall k :: 0 <= k < |r| ==> r[k].score > 0
    ensures Indexed(ms) ==> forall k :: 0 <= k < |r| ==> r[k].id < |ms| && r[k] == ms[r[k].id]
    ensures Indexed(ms) ==> forall k, l :: 0 <= k < l < |r| ==> r[k].id < r[l].id
  {
    if ms == [] then []
    else
      var n := |ms| - 1;
      assert forall k :: 0 <= k < n ==> ms[..n][k] == ms[k];
      var prev := Positive(ms[..n]);
      if ms[n].score > 0 then prev + [ms[n]] else prev
  }

  lemma PositiveStep(ms: seq<Match>, n: nat)
    requires n < |ms|
    ensures Positive(ms[..n + 1]) == Positive(ms[..n]) + (if ms[n].score > 0 then [ms[n]] else [])
  {
    assert ms[..n + 1][..n] == ms[..n];
  }

  /** Every match with a positive score is kept. */
  lemma {:induction false} PositiveComplete(ms: seq<Match>, i: nat)
    requires i < |ms| && ms[i].score > 0
    ensures exists k :: 0 <= k < |Positive(ms)| && Positive(ms)[k] == ms[i]
  {
    var n := |ms| - 1;
    var prev := Positive(ms[..n]);
    var all := Positive(ms);
    if i < n {
      assert ms[..n][i] == ms[i];
      PositiveComplete(ms[..n], i);
      var k :| 0 <= k < |prev| && prev[k] == ms[i];
      assert all[k] == prev[k];
    } else {
      assert all[|prev|] == ms[n];
    }
  }

  /** Every item of the data that scores, in data order. */
  function Scored(data: seq<Movie>, nq: string, ws: seq<string>): (r: seq<Match>)
    requires forall k :: 0 <= k < |ws| ==> ws[k] != []
    ensures forall k :: 0 <= k < |r| ==>
      r[k].id < |data| && r[k] == Evaluate(r[k].id, data[r[k].id].title, nq, ws) && r[k].score > 0
    ensures forall k, l :: 0 <= k < l < |r| ==> r[k].id < r[l].id
  {
    Positive(Evaluations(data, nq, ws))
  }

  /** Every item that scores is among the scored results. */
  lemma ScoredComplete(data: seq<Movie>, nq: string, ws: seq<string>, i: nat)
    requires forall k :: 0 <= k < |ws| ==> ws[k] != []
    requires i < |data| && Score(NormalizeString(data[i].title), nq, ws) > 0
    ensures exists k :: 0 <= k < |Scored(data, nq, ws)| && Scored(data, nq, ws)[k].id == i
  {
    var ms := Evaluations(data, nq, ws);
    var m := Evaluate(i, data[i].title, nq, ws);
    assert ms[i] == m && m.score > 0 && m.id == i;
    PositiveComplete(ms, i);
    var k :| 0 <= k < |Positive(ms)| && Positive(ms)[k] == ms[i];
    assert Scored(data, nq, ws)[k].id == i;
  }

  /** The answer of `simpleSearch`. */
  function Ranked(query: string, data: seq<Movie>, limit: Option<int>): seq<Match> {
    var nq := NormalizeString(query);
    var ws := Words(nq);
    if ws == [] then [] else JsTake(SortBy(Scored(data, nq, ws), ByScore), EffectiveLimit(limit))
  }

  /** The answer is ordered by score, highest first, and then by title length, shortest first. */
  lemma RankedOrdered(query: string, data: seq<Movie>, limit: Option<int>)
    ensures var r := Ranked(query, data, limit);
      forall i, j :: 0 <= i < j < |r| ==>
        r[i].score > r[j].score || (r[i].score == r[j].score && |r[i].title| <= |r[j].title|)
  {
    var nq := NormalizeString(query);
    var ws := Words(nq);
    if ws != [] {
      var sorted := SortBy(Scored(data, nq, ws), ByScore);
      ByScoreConsistent();
      SortBySorted(Scored(data, nq, ws), ByScore);
      SortedPrefix(sorted, |JsTake(sorted, EffectiveLimit(limit))|, ByScore);
    }
  }

  /**
   * A positive limit bounds the answer, and each result is an item of the data
   * that scores, under its own index and title.
   */
  lemma RankedSound(query: string, data: seq<Movie>, limit: Option<int>)
    ensures EffectiveLimit(limit) > 0 ==> |Ranked(query, data, limit)| <= EffectiveLimit(limit)
    ensures var r := Ranked(query, data, limit);
      forall k :: 0 <= k < |r| ==>
        && r[k].id < |data| && r[k].title == data[r[k].id].title && r[k].score > 0
        && r[k].score == Score(NormalizeString(r[k].title), NormalizeString(query), Words(NormalizeString(query)))
  {
    var nq := NormalizeString(query);
    var ws := Words(nq);
    if ws != [] {
      var all := Scored(data, nq, ws);
      var sorted := SortBy(all, ByScore);
      var r := JsTake(sorted, EffectiveLimit(limit));
      TakeSubMultiset(sorted, EffectiveLimit(limit));
      forall k | 0 <= k < |r|
        ensures r[k].id < |data| && r[k].title == data[r[k].id].title && r[k].score > 0
        ensures r[k].score == Score(NormalizeString(r[k].title), nq, ws)
      {
        assert r[k] in multiset(r);
        assert r[k] in multiset(all);
        var l :| 0 <= l < |all| && all[l] == r[k];
      }
    }
  }

  /** In the answer, an item holding the whole phrase comes before every item that does not. */
  lemma PhraseFirst(query: string, data: seq<Movie>, limit: Option<int>, i: nat, j: nat)
    requires i < j < |Ranked(query, data, limit)|
    requires Contains(NormalizeString(Ranked(query, data, limit)[j].title), NormalizeString(query))
    ensures Contains(NormalizeString(Ranked(query, data, limit)[i].title), NormalizeString(query))
  {
    var r := Ranked(query, data, limit);
    var nq := NormalizeString(query);
    RankedOrdered(query, data, limit);
    RankedSound(query, data, limit);
    if !Contains(NormalizeString(r[i].title), nq) {
      PhraseOutranks(NormalizeString(r[j].title), NormalizeString(r[i].title), nq);
    }
  }

  /**
   * The scoring loop body of `simpleSearch` for one title, given its normalised
   * form: phrase, words, then prefix.
   */
  method ScoreTitle(title: string, nt: string, nq: string, ws: seq<string>)
    returns (score: int, highlighted: string)
    requires forall k :: 0 <= k < |ws| ==> ws[k] != []
    ensures score == Score(nt, nq, ws)
    ensures highlighted == Highlight(title, nt, ws)
  {
    score := 0;
    highlighted := title;
    if Contains(nt, nq) {
      score := score + 100;
    }
    for j := 0 to |ws|
      invariant score == (if Contains(nt, nq) then 100 else 0) + WordScore(nt, ws[..j])
      invariant highlighted == Highlight(title, nt, ws[..j])
    {
      assert ws[..j + 1][..j] == ws[..j];
      if Contains(nt, ws[j]) {
        score := score + 10;
        highlighted := MarkAll(highlighted, ws[j]);
      }
    }
    assert ws[..|ws|] == ws;
    if StartsWith(nt, nq) {
      score := score + 50;
    }
  }

  /** Scores and highlights one item of the data. */
  method EvaluateItem(i: nat, title: string, nq: string, ws: seq<string>) returns (m: Match)
    requires forall k :: 0 <= k < |ws| ==> ws[k] != []
    ensures m == Evaluate(i, title, nq, ws)
  {
    var score, highlighted := ScoreTitle(title, NormalizeString(title), nq, ws);
    m := Match(i, title, highlighted, score);
  }

  /** Every item's title is text, so `normalizeString` can lower-case it. */
  predicate TitlesAreText(data: seq<Movie>) {
    forall i :: 0 <= i < |data| ==> !data[i].ObjectTitled?
  }

  lemma TextPrefixStep(data: seq<Movie>, i: nat)
    requires i < |data| && TitlesAreText(data[..i]) && !data[i].ObjectTitled?
    ensures TitlesAreText(data[..i + 1])
  {
    var upto := data[..i + 1];
    forall k | 0 <= k < |upto| ensures !upto[k].ObjectTitled? {
      if k < i { assert upto[k] == data[..i][k]; }
    }
  }

  /** What `str.toLowerCase()` throws when `str` is an object. */
  const TitleTypeError := "str.toLowerCase is not a function"

  /** `simpleSearch` throws: the query has words and some item's title is not text. */
  predicate SearchThrows(query: string, data: seq<Movie>) {
    Words(NormalizeString(query)) != [] && !TitlesAreText(data)
  }

  /**
   * The scoring loop of `simpleSearch`: every item that scores, in data order,
   * or the error thrown at the first item whose title is not text.
   */
  method ScoreAll(data: seq<Movie>, nq: string, ws: seq<string>) returns (r: Result<seq<Match>, string>)
    requires forall k :: 0 <= k < |ws| ==> ws[k] != []
    ensures TitlesAreText(data) ==> r == Success(Scored(data, nq, ws))
    ensures !TitlesAreText(data) ==> r == Failure(TitleTypeError)
  {
    ghost var evaluated := Evaluations(data, nq, ws);
    var results := [];
    for i := 0 to |data|
      invariant results == Positive(evaluated[..i])
      invariant TitlesAreText(data[..i])
    {
      if data[i].ObjectTitled? {
        assert !TitlesAreText(data) by { assert data[i].ObjectTitled?; }
        return Failure(TitleTypeError);
      }
      TextPrefixStep(data, i);
      var m := EvaluateItem(i, data[i].title, nq, ws);
      PositiveStep(evaluated, i);
      if m.score > 0 {
        results := results + [m];
      }
    }
    assert evaluated[..|data|] == evaluated && data[..|data|] == data;
    r := Success(results);
  }

  /** `simpleSearch(query, data, options)`: the ranked answer, or the error it throws. */
  method SimpleSearch(query: string, data: seq<Movie>, limit: Option<int>) returns (r: Result<seq<Match>, string>)
    ensures !SearchThrows(query, data) ==> r == Success(Ranked(query, data, limit))
    ensures SearchThrows(query, data) ==> r == Failure(TitleTypeError)
  {
    var nq := NormalizeString(query);
    var ws := Words(nq);
    if |ws| == 0 {
      return Success([]);
    }
    var results := ScoreAll(data, nq, ws);
    if results.Failure? {
      return Failure(results.error);
    }
    r := Success(JsTake(SortBy(results.value, ByScore), EffectiveLimit(limit)));
  }

  // ---------------------------------------------------------------------------
  // Worker state and messages
  // ---------------------------------------------------------------------------

  const NotInitialized := "Worker not initialized"

  /** A result as posted back: the match with the worker's id added. */
  function ToPoolHit(m: Match, workerId: Option<string>): PoolHit {
    PoolHit(m.id, Some(m.title), Some(m.score), Some(m.highlight), Some(m.title), workerId)
  }

  function TagAll(ms: seq<Match>, workerId: Option<string>): (r: seq<PoolHit>)
    ensures |r| == |ms|
    ensures forall k :: 0 <= k < |r| ==> r[k] == ToPoolHit(ms[k], workerId)
  {
    seq(|ms|, k requires 0 <= k < |ms| => ToPoolHit(ms[k], workerId))
  }

  /** The worker's module-level state: its share of the data and its id. */
  class FallbackWorkerState {
    var workerData: seq<Movie>
    var workerId: Option<string>

    constructor()
      ensures workerData == [] && workerId == None
    {
      workerData := [];
      workerId := None;
    }

    /** `initializeWorker(data, id)` */
    method InitializeWorker(data: seq<Movie>, id: Option<string>)
      modifies this
      ensures workerData == data && workerId == id
    {
      workerId := id;
      workerData := data;
    }

    /**
     * `searchInWorker(query, options)`: the not-initialised reply, the tagged
     * answer, or, when the search throws, its `catch` reply with no results.
     */
    method SearchInWorker(query: string, limit: Option<int>) returns (reply: Outbound)
      ensures workerData == [] ==>
        reply == SearchResult(Some([]), workerId, None, Some(NotInitialized))
      ensures workerData != [] && !SearchThrows(query, workerData) ==>
        && reply.SearchResult? && reply.error.None?
        && reply.workerId == workerId && reply.dataSize == Some(|workerData|)
        && reply.results.Some?
        && reply.results.value == TagAll(Ranked(query, workerData, limit), workerId)
      ensures workerData != [] && SearchThrows(query, workerData) ==>
        reply == SearchResult(Some([]), workerId, Some(|workerData|), Some(TitleTypeError))
    {
      if |workerData| == 0 {
        return SearchResult(Some([]), workerId, None, Some(NotInitialized));
      }
      var results := SimpleSearch(query, workerData, limit);
      if results.Failure? {
        return SearchResult(Some([]), workerId, Some(|workerData|), Some(results.error));
      }
      reply := SearchResult(Some(TagAll(results.value, workerId)), workerId, Some(|workerData|), None);
    }

    /** The message listener: one reply per message, by message type. */
    method HandleMessage(msg: Inbound) returns (out: Outbound)
      modifies this
      ensures msg.kind == "INIT" ==>
        workerData == msg.data && workerId == msg.id && out == InitComplete(msg.id, "ready")
      ensures msg.kind != "INIT" ==> workerData == old(workerData) && workerId == old(workerId)
      ensures msg.kind == "SEARCH" ==> out.SearchResult? && out.workerId == workerId
      ensures msg.kind == "SEARCH" && workerData == [] ==> out.error == Some(NotInitialized) && out.results == Some([])
      ensures msg.kind == "SEARCH" && workerData != [] && !SearchThrows(msg.query, workerData) ==>
        out.error.None? && out.dataSize == Some(|workerData|)
        && out.results == Some(TagAll(Ranked(msg.query, workerData, msg.limit), workerId))
      ensures msg.kind == "SEARCH" && workerData != [] && SearchThrows(msg.query, workerData) ==>
        out.error == Some(TitleTypeError) && out.results == Some([]) && out.dataSize == Some(|workerData|)
      ensures msg.kind == "HEALTH_CHECK" ==>
        out == HealthResponse(workerId, "healthy", |workerData|, workerData != [])
      ensures msg.kind !in {"INIT", "SEARCH", "HEALTH_CHECK"} ==>
        out == ErrorReply(workerId, "Unknown message type: " + msg.kind)
    {
      if msg.kind == "INIT" {
        InitializeWorker(msg.data, msg.id);
        out := InitComplete(msg.id, "ready");
      } else if msg.kind == "SEARCH" {
        out := SearchInWorker(msg.query, msg.limit);
      } else if msg.kind == "HEALTH_CHECK" {
        out := HealthResponse(workerId, "healthy", |workerData|, |workerData| > 0);
      } else {
        out := ErrorReply(workerId, "Unknown message type: " + msg.kind);
      }
    }
  }
}
