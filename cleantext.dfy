/**
  `clean_text`: the whitespace normalisation applied to every extracted text.
  The model follows the source, a regular-expression substitution of each
  whitespace run by one space followed by `strip`, and proves it equal to a
  reference definition: the whitespace-separated words joined by single spaces.
 */
module CleanText {
  import opened PyStr
  import opened SeqLemmas

  /** The number of leading non-whitespace characters of `s`. */
  function WordLength(s: string): (n: nat)
    ensures n <= |s|
    ensures forall k :: 0 <= k < n ==> !IsSpace(s[k])
    ensures n < |s| ==> IsSpace(s[n])
  {
    if s == [] || IsSpace(s[0]) then 0 else 1 + WordLength(s[1..])
  }

  /** `re.sub(r'\s+', ' ', s)`: each maximal whitespace run becomes one space.
      The result is no longer than the input, and empty only for the empty
      input. */
  function Collapse(s: string): (r: string)
    ensures |r| <= |s|
    ensures r == [] <==> s == []
    decreases |s|
  {
    if s == [] then []
    else if IsSpace(s[0]) then " " + Collapse(s[LeadingSpaces(s)..])
    else [s[0]] + Collapse(s[1..])
  }

  /** `clean_text(s)`: normalised text, empty exactly when `s` is blank. */
  function Clean(s: string): (r: string)
    ensures IsNormalized(r)
    ensures r == [] <==> IsBlank(s)
  {
    CollapseShape(s);
    JoinWordsEnds(Words(s));
    StripFrame(Lead(s), Join(Words(s), " "), Trail(s));
    JoinWordsNormalized(Words(s));
    NoWordsIsBlank(s);
    Strip(Collapse(s))
  }

  /** A word: a non-empty run of non-whitespace characters. */
  predicate IsWord(w: string) {
    w != [] && forall k :: 0 <= k < |w| ==> !IsSpace(w[k])
  }

  /** The maximal non-whitespace runs of `s`, in order (Python's `s.split()`). */
  function Words(s: string): (ws: seq<string>)
    ensures forall i :: 0 <= i < |ws| ==> IsWord(ws[i])
    decreases |s|
  {
    var t := s[LeadingSpaces(s)..];
    if t == [] then []
    else
      var n := WordLength(t);
      [t[..n]] + Words(t[n..])
  }

  /** The non-whitespace characters of `s`, in order. */
  function NonSpaces(s: string): string {
    if s == [] then [] else (if IsSpace(s[0]) then [] else [s[0]]) + NonSpaces(s[1..])
  }

  /** Concatenation of the strings of `ws`. */
  function Concat(ws: seq<string>): string {
    if ws == [] then [] else ws[0] + Concat(ws[1..])
  }

  /** The shape of cleaned text: no whitespace at either end, and the only
      whitespace character is `' '`, never twice in a row. */
  predicate IsNormalized(r: string) {
    && (r == [] || (!IsSpace(r[0]) && !IsSpace(r[|r| - 1])))
    && (forall k :: 0 <= k < |r| && IsSpace(r[k]) ==> r[k] == ' ')
    && (forall k :: 0 <= k < |r| - 1 ==> !(IsSpace(r[k]) && IsSpace(r[k + 1])))
  }

  // ---- Collapse, one run at a time ----

  lemma CollapseSkip(s: string)
    ensures Collapse(s) == (if LeadingSpaces(s) > 0 then " " else "") + Collapse(s[LeadingSpaces(s)..])
  {
    assert s[0..] == s;
  }

  lemma {:induction false} CollapseWord(t: string)
    requires t != [] && !IsSpace(t[0])
    ensures Collapse(t) == t[..WordLength(t)] + Collapse(t[WordLength(t)..])
    decreases |t|
  {
    var n := WordLength(t);
    var t' := t[1..];
    assert Collapse(t) == [t[0]] + Collapse(t');
    if n == 1 {
      assert t' == t[n..];
      assert t[..1] == [t[0]];
    } else {
      assert WordLength(t') == n - 1;
      CollapseWord(t');
      assert t'[n - 1..] == t[n..];
      assert [t[0]] + t'[..n - 1] == t[..n];
      AppendAssoc([t[0]], t'[..n - 1], Collapse(t[n..]));
    }
  }

  lemma WordsSkip(s: string)
    ensures Words(s) == Words(s[LeadingSpaces(s)..])
  {
    var t := s[LeadingSpaces(s)..];
    assert LeadingSpaces(t) == 0;
    assert t[0..] == t;
  }

  lemma WordsOfWordStart(t: string)
    requires t != [] && !IsSpace(t[0])
    ensures Words(t) == [t[..WordLength(t)]] + Words(t[WordLength(t)..])
  {
    assert LeadingSpaces(t) == 0;
    assert t[0..] == t;
  }

  lemma {:induction false} NoWordsIsBlank(s: string)
    ensures Words(s) == [] <==> IsBlank(s)
  {
    var l := LeadingSpaces(s);
    if l < |s| {
      assert !IsSpace(s[l]);
    }
  }

  /** The whitespace character a string begins or ends with, as `Collapse`
      leaves it at the margins. */
  function Lead(s: string): string {
    if s != [] && IsSpace(s[0]) then " " else ""
  }

  function Trail(s: string): string {
    if Words(s) != [] && IsSpace(s[|s| - 1]) then " " else ""
  }

  lemma {:induction false} JoinWordsEnds(ws: seq<string>)
    requires forall i :: 0 <= i < |ws| ==> IsWord(ws[i])
    ensures var j := Join(ws, " ");
            ws != [] ==> j != [] && !IsSpace(j[0]) && !IsSpace(j[|j| - 1])
  {
    if |ws| == 1 {
      assert IsWord(ws[0]);
    } else if |ws| > 1 {
      assert IsWord(ws[0]);
      JoinWordsEnds(ws[1..]);
    }
  }

  /** `Collapse` keeps the words and turns every gap, and each whitespace
      margin, into exactly one space. */
  lemma {:induction false} CollapseShape(s: string)
    ensures Collapse(s) == Lead(s) + Join(Words(s), " ") + Trail(s)
    decreases |s|, 1
  {
    var l := LeadingSpaces(s);
    var t := s[l..];
    CollapseSkip(s);
    WordsSkip(s);
    assert Lead(s) == (if l > 0 then " " else "");
    assert Collapse(s) == Lead(s) + Collapse(t);
    if t != [] {
      CollapseShapeFromWord(t);
      assert t[|t| - 1] == s[|s| - 1];
      assert Trail(t) == Trail(s);
      AppendAssoc(Lead(s), Join(Words(s), " "), Trail(s));
    } else {
      NoWordsIsBlank(s);
      assert Collapse(t) == [] && Join(Words(s), " ") == [] && Trail(s) == [];
      AppendEmpty(Lead(s));
    }
  }

  lemma {:induction false} CollapseShapeFromWord(t: string)
    requires t != [] && !IsSpace(t[0])
    ensures Collapse(t) == Join(Words(t), " ") + Trail(t)
    decreases |t|, 0
  {
    var n := WordLength(t);
    var w := t[..n];
    var u := t[n..];
    CollapseWord(t);
    assert LeadingSpaces(t) == 0 && t[0..] == t;
    assert Words(t) == [w] + Words(u);
    if u == [] {
      assert t[|t| - 1] == w[n - 1];
      assert Trail(t) == "";
      assert Words(u) == [] && Collapse(u) == [];
      assert Collapse(t) == w;
    } else {
      CollapseShape(u);
      assert Lead(u) == " ";
      assert u[|u| - 1] == t[|t| - 1];
      var j := Join(Words(u), " ");
      if Words(u) == [] {
        NoWordsIsBlank(u);
        assert Trail(t) == " ";
        assert Collapse(u) == " ";
        assert Join(Words(t), " ") == w;
      } else {
        assert Trail(t) == Trail(u);
        assert ([w] + Words(u))[1..] == Words(u);
        assert Join(Words(t), " ") == w + " " + j;
        assert Collapse(u) == " " + j + Trail(u);
        Regroup(w, " ", j, Trail(u));
      }
    }
  }

  lemma Regroup(a: string, b: string, c: string, d: string)
    ensures a + (b + c + d) == (a + b + c) + d
  {
  }

  /** Stripping removes exactly whitespace margins around a core that neither
      starts nor ends with whitespace. */
  lemma StripFrame(a: string, j: string, b: string)
    requires IsBlank(a) && IsBlank(b)
    requires j == [] || (!IsSpace(j[0]) && !IsSpace(j[|j| - 1]))
    ensures Strip(a + j + b) == j
  {
    var s := a + j + b;
    if j == [] {
      assert forall k :: 0 <= k < |s| ==> IsSpace(s[k]) by {
        forall k | 0 <= k < |s| ensures IsSpace(s[k]) {
          if k < |a| { assert s[k] == a[k]; } else { assert s[k] == b[k - |a|]; }
        }
      }
    } else {
      var i := LeadingSpaces(s);
      var e := TrailingStart(s);
      assert s[|a|] == j[0];
      assert s[|a| + |j| - 1] == j[|j| - 1];
      assert i == |a|;
      assert e == |a| + |j|;
      assert s[i..e] == j;
    }
  }

  /** `clean_text` agrees with the reference: the words of the input joined by
      single spaces. */
  lemma CleanIsJoinedWords(s: string)
    ensures Clean(s) == Join(Words(s), " ")
  {
    CollapseShape(s);
    JoinWordsEnds(Words(s));
    StripFrame(Lead(s), Join(Words(s), " "), Trail(s));
  }

  lemma WordLengthOfWordThenSpace(w: string, x: string)
    requires IsWord(w) && (x == [] || IsSpace(x[0]))
    ensures WordLength(w + x) == |w|
    ensures (w + x)[|w|..] == x
  {
    var s := w + x;
    var n := WordLength(s);
    assert forall k :: 0 <= k < |w| ==> s[k] == w[k];
    assert |w| < |s| ==> s[|w|] == x[0];
    assert n == |w|;
  }

  /** Joined words split back into the same words. */
  lemma {:induction false} WordsOfJoin(ws: seq<string>)
    requires forall i :: 0 <= i < |ws| ==> IsWord(ws[i])
    ensures Words(Join(ws, " ")) == ws
  {
    if ws == [] {
    } else {
      var w := ws[0];
      assert IsWord(w);
      var s := Join(ws, " ");
      if |ws| == 1 {
        WordLengthOfWordThenSpace(w, []);
        assert w + [] == w;
        assert LeadingSpaces(w) == 0 && w[0..] == w && w[..|w|] == w;
      } else {
        var j := Join(ws[1..], " ");
        JoinWordsEnds(ws[1..]);
        assert s == w + (" " + j);
        WordLengthOfWordThenSpace(w, " " + j);
        assert LeadingSpaces(s) == 0 && s[0..] == s;
        assert s[..|w|] == w;
        assert Words(s) == [w] + Words(" " + j);
        WordsSkip(" " + j);
        assert LeadingSpaces(" " + j) == 1;
        assert (" " + j)[1..] == j;
        WordsOfJoin(ws[1..]);
        ConsTail(ws);
      }
    }
  }

  /** Words joined by single spaces are in normal form. */
  lemma {:induction false} JoinWordsNormalized(ws: seq<string>)
    requires forall i :: 0 <= i < |ws| ==> IsWord(ws[i])
    ensures IsNormalized(Join(ws, " "))
  {
    JoinWordsEnds(ws);
    if |ws| == 1 {
      assert IsWord(ws[0]);
    } else if |ws| > 1 {
      var w := ws[0];
      assert IsWord(w);
      var j := Join(ws[1..], " ");
      JoinWordsNormalized(ws[1..]);
      JoinWordsEnds(ws[1..]);
      var r := Join(ws, " ");
      assert r == w + " " + j;
      forall k | 0 <= k < |r| && IsSpace(r[k]) ensures r[k] == ' ' {
        if k > |w| { assert r[k] == j[k - |w| - 1]; }
      }
      forall k | 0 <= k < |r| - 1 ensures !(IsSpace(r[k]) && IsSpace(r[k + 1])) {
        if k < |w| { assert r[k] == w[k]; }
        else if k == |w| { assert r[k + 1] == j[0]; }
        else { assert r[k] == j[k - |w| - 1] && r[k + 1] == j[k - |w|]; }
      }
    }
  }

  /** Cleaning twice is cleaning once. */
  lemma CleanIdempotent(s: string)
    ensures Clean(Clean(s)) == Clean(s)
  {
    CleanIsJoinedWords(s);
    WordsOfJoin(Words(s));
    CleanIsJoinedWords(Clean(s));
  }

  lemma {:induction false} NonSpacesAppend(a: string, b: string)
    ensures NonSpaces(a + b) == NonSpaces(a) + NonSpaces(b)
  {
    if a != [] {
      assert (a + b)[0] == a[0];
      assert (a + b)[1..] == a[1..] + b;
      NonSpacesAppend(a[1..], b);
    } else {
      assert a + b == b;
    }
  }

  lemma {:induction false} NonSpacesBlank(s: string)
    requires IsBlank(s)
    ensures NonSpaces(s) == []
  {
    if s != [] {
      NonSpacesBlank(s[1..]);
    }
  }

  lemma {:induction false} NonSpacesWord(w: string)
    requires forall k :: 0 <= k < |w| ==> !IsSpace(w[k])
    ensures NonSpaces(w) == w
  {
    if w != [] {
      NonSpacesWord(w[1..]);
      assert w == [w[0]] + w[1..];
    }
  }

  lemma {:induction false} NonSpacesOfJoin(ws: seq<string>)
    requires forall i :: 0 <= i < |ws| ==> IsWord(ws[i])
    ensures NonSpaces(Join(ws, " ")) == Concat(ws)
  {
    if ws != [] {
      var w := ws[0];
      assert IsWord(w);
      NonSpacesWord(w);
      if |ws| == 1 {
        assert Concat(ws[1..]) == [];
        assert Concat(ws) == w + [];
      } else {
        var j := Join(ws[1..], " ");
        NonSpacesOfJoin(ws[1..]);
        assert Join(ws, " ") == w + (" " + j);
        NonSpacesAppend(w, " " + j);
        NonSpacesAppend(" ", j);
        assert NonSpaces(" ") == [];
        assert NonSpaces(" " + j) == Concat(ws[1..]);
        assert Concat(ws) == w + Concat(ws[1..]);
      }
    }
  }

  lemma {:induction false} NonSpacesAreWords(s: string)
    ensures NonSpaces(s) == Concat(Words(s))
    decreases |s|
  {
    var l := LeadingSpaces(s);
    var t := s[l..];
    assert s == s[..l] + t;
    NonSpacesAppend(s[..l], t);
    NonSpacesBlank(s[..l]);
    AppendEmpty(NonSpaces(t));
    assert NonSpaces(s) == NonSpaces(t);
    WordsSkip(s);
    if t != [] {
      var n := WordLength(t);
      var w := t[..n];
      var ws := Words(t[n..]);
      assert t == w + t[n..];
      NonSpacesAppend(w, t[n..]);
      NonSpacesWord(w);
      NonSpacesAreWords(t[n..]);
      assert NonSpaces(t) == w + Concat(ws);
      WordsOfWordStart(t);
      assert ([w] + ws)[1..] == ws;
      assert Concat(Words(t)) == w + Concat(ws);
    }
  }

  /** Cleaning keeps every non-whitespace character, in order. */
  lemma CleanKeepsNonSpaces(s: string)
    ensures NonSpaces(Clean(s)) == NonSpaces(s)
  {
    CleanIsJoinedWords(s);
    NonSpacesOfJoin(Words(s));
    NonSpacesAreWords(s);
  }

  lemma {:induction false} NonSpaceIn(s: string, c: char)
    requires !IsSpace(c)
    ensures c in NonSpaces(s) <==> c in s
  {
    if s != [] {
      NonSpaceIn(s[1..], c);
      assert s == [s[0]] + s[1..];
    }
  }

  /** Cleaning neither adds nor drops a non-whitespace character: one occurs
      in the cleaned text exactly when it occurs in the input. */
  lemma CleanAddsNoCharacter(s: string, c: char)
    requires !IsSpace(c)
    ensures c in Clean(s) <==> c in s
  {
    CleanKeepsNonSpaces(s);
    NonSpaceIn(s, c);
    NonSpaceIn(Clean(s), c);
  }
}
