/**
 * Citation normalisation of the NSW legislation scraper
 * (nsw_legislation.py:46-49), with the Python `str` operations it and the
 * scraper's URL rewrite (line 66) rely on written out: substring search,
 * `split`, `join`, `split(sep)[0]`, the number-suffix substitution and
 * `replace`.
 */
module Citation {

  // ---------------------------------------------------------------------
  // Substrings

  /** `pat` occurs in `s` starting at index `i`. */
  predicate MatchAt(s: string, pat: string, i: int)
  {
    0 <= i && i + |pat| <= |s| && s[i..i + |pat|] == pat
  }

  /** Python's `pat in s`. */
  predicate Contains(s: string, pat: string)
  {
    exists i :: 0 <= i <= |s| - |pat| && MatchAt(s, pat, i)
  }

  lemma SliceOfSlice(s: string, lo: nat, hi: nat, i: nat, j: nat)
    requires lo <= hi <= |s| && i <= j <= hi - lo
    ensures s[lo..hi][i..j] == s[lo + i..lo + j]
  {
    forall k | 0 <= k < j - i
      ensures s[lo..hi][i..j][k] == s[lo + i..lo + j][k]
    {
      assert s[lo..hi][i..j][k] == s[lo..hi][i + k] == s[lo + i + k];
    }
  }

  /** An occurrence in a slice is an occurrence in the whole string. */
  lemma MatchInSlice(s: string, pat: string, lo: nat, hi: nat, i: int)
    requires lo <= hi <= |s| && MatchAt(s[lo..hi], pat, i)
    ensures MatchAt(s, pat, lo + i)
  {
    SliceOfSlice(s, lo, hi, i, i + |pat|);
  }

  /** A string with no occurrence of `pat` has none in any of its slices. */
  lemma NotContainsSlice(s: string, pat: string, lo: nat, hi: nat)
    requires lo <= hi <= |s| && !Contains(s, pat)
    ensures !Contains(s[lo..hi], pat)
  {
    if Contains(s[lo..hi], pat) {
      var i :| 0 <= i <= hi - lo - |pat| && MatchAt(s[lo..hi], pat, i);
      MatchInSlice(s, pat, lo, hi, i);
    }
  }

  const Nsw: string := "(NSW)"

  /** No character of an occurrence of `(NSW)` is a space. */
  lemma NswHasNoSpace(s: string, i: int, j: int)
    requires i <= j < i + 5
    ensures MatchAt(s, Nsw, i) ==> s[j] != ' '
  {
    if MatchAt(s, Nsw, i) {
      assert s[i..i + 5][j - i] == s[j];
      var k := j - i;
      assert k == 0 || k == 1 || k == 2 || k == 3 || k == 4;
    }
  }

  /** Joining two strings free of `(NSW)` with a space creates none: the
      marker has no space in it, so it cannot straddle the separator. */
  lemma NoNswAcrossSpace(a: string, b: string)
    requires !Contains(a, Nsw) && !Contains(b, Nsw)
    ensures !Contains(a + " " + b, Nsw)
  {
    var s := a + " " + b;
    forall i | 0 <= i <= |s| - 5
      ensures !MatchAt(s, Nsw, i)
    {
      if i + 5 <= |a| {
        assert s[0..|a|] == a;
        SliceOfSlice(s, 0, |a|, i, i + 5);
        assert !MatchAt(a, Nsw, i);
      } else if i > |a| {
        assert s[|a| + 1..|s|] == b;
        SliceOfSlice(s, |a| + 1, |s|, i - |a| - 1, i - |a| + 4);
        assert !MatchAt(b, Nsw, i - |a| - 1);
      } else {
        NswHasNoSpace(s, i, |a|);
      }
    }
  }

  // ---------------------------------------------------------------------
  // str.split() and ' '.join()

  /** The characters Python's `str.split()` splits on (`str.isspace`). */
  predicate IsSpace(c: char)
  {
    || c == ' ' || '\t' <= c <= '\r' || '\U{1c}' <= c <= '\U{1f}'
    || c == '\U{85}' || c == '\U{a0}' || c == '\U{1680}' || '\U{2000}' <= c <= '\U{200a}'
    || c == '\U{2028}' || c == '\U{2029}' || c == '\U{202f}' || c == '\U{205f}' || c == '\U{3000}'
  }

  predicate NoSpace(w: string)
  {
    forall i :: 0 <= i < |w| ==> !IsSpace(w[i])
  }

  /** A word list as `str.split()` produces it: non-empty words without whitespace. */
  predicate IsWords(words: seq<string>)
  {
    forall k :: 0 <= k < |words| ==> words[k] != [] && NoSpace(words[k])
  }

  /** `str.split()` with no argument, scanning left to right with the word
      read so far in `word`. */
  function SplitFrom(s: string, word: string): seq<string>
    decreases |s|
  {
    if s == [] then (if word == [] then [] else [word])
    else if IsSpace(s[0]) then (if word == [] then [] else [word]) + SplitFrom(s[1..], [])
    else SplitFrom(s[1..], word + [s[0]])
  }

  function Split(s: string): seq<string>
  {
    SplitFrom(s, [])
  }

  /** `' '.join(words)`. */
  function Join(words: seq<string>): string
    decreases |words|
  {
    if words == [] then []
    else if |words| == 1 then words[0]
    else words[0] + " " + Join(words[1..])
  }

  /** A string in the shape `' '.join(s.split())` leaves: the only whitespace
      is single spaces between words, none at either end. */
  predicate Collapsed(p: string)
  {
    && (forall i :: 0 <= i < |p| && IsSpace(p[i]) ==> p[i] == ' ')
    && (|p| > 0 ==> p[0] != ' ' && p[|p| - 1] != ' ')
    && (forall i :: 0 <= i < |p| - 1 ==> !(p[i] == ' ' && p[i + 1] == ' '))
  }

  lemma {:induction false} SplitIsWords(s: string, word: string)
    requires NoSpace(word)
    ensures IsWords(SplitFrom(s, word))
    decreases |s|
  {
    if s != [] {
      if IsSpace(s[0]) {
        SplitIsWords(s[1..], []);
      } else {
        SplitIsWords(s[1..], word + [s[0]]);
      }
    }
  }

  /** Every word comes from the input, so a marker absent from the input is
      absent from every word. */
  lemma {:induction false} SplitKeepsNoNsw(s: string, word: string)
    requires !Contains(word + s, Nsw)
    ensures forall k :: 0 <= k < |SplitFrom(s, word)| ==> !Contains(SplitFrom(s, word)[k], Nsw)
    decreases |s|
  {
    if s == [] {
      assert word + s == word;
    } else {
      if IsSpace(s[0]) {
        NotContainsSlice(word + s, Nsw, 0, |word|);
        assert (word + s)[0..|word|] == word;
        NotContainsSlice(word + s, Nsw, |word| + 1, |word + s|);
        assert (word + s)[|word| + 1..|word + s|] == s[1..] == [] + s[1..];
        SplitKeepsNoNsw(s[1..], []);
        var head: seq<string> := if word == [] then [] else [word];
        var rest := SplitFrom(s[1..], []);
        assert SplitFrom(s, word) == head + rest;
        forall k | 0 <= k < |head + rest|
          ensures !Contains((head + rest)[k], Nsw)
        {
          if k >= |head| {
            assert (head + rest)[k] == rest[k - |head|];
          }
        }
      } else {
        assert word + s == (word + [s[0]]) + s[1..];
        SplitKeepsNoNsw(s[1..], word + [s[0]]);
      }
    }
  }

  lemma {:induction false} JoinCollapsed(words: seq<string>)
    requires IsWords(words)
    ensures Collapsed(Join(words))
    ensures words != [] ==> Join(words) != [] && Join(words)[0] == words[0][0]
    decreases |words|
  {
    if |words| > 1 {
      JoinCollapsed(words[1..]);
      var w, rest := words[0], Join(words[1..]);
      var p := w + " " + rest;
      assert forall i :: 0 <= i < |w| ==> p[i] == w[i];
      assert p[|w|] == ' ';
      assert forall i :: |w| < i < |p| ==> p[i] == rest[i - |w| - 1];
      assert !IsSpace(w[|w| - 1]) && !IsSpace(rest[0]);
    } else if |words| == 1 {
      assert !IsSpace(words[0][0]) && !IsSpace(words[0][|words[0]| - 1]);
    }
  }

  lemma {:induction false} JoinKeepsNoNsw(words: seq<string>)
    requires forall k :: 0 <= k < |words| ==> !Contains(words[k], Nsw)
    ensures !Contains(Join(words), Nsw)
    decreases |words|
  {
    if |words| > 1 {
      JoinKeepsNoNsw(words[1..]);
      NoNswAcrossSpace(words[0], Join(words[1..]));
    }
  }

  /** A trailing space never changes the words. */
  lemma {:induction false} SplitTrailingSpace(s: string, word: string)
    ensures SplitFrom(s + " ", word) == SplitFrom(s, word)
    decreases |s|
  {
    if s == [] {
      assert SplitFrom(" ", word) == (if word == [] then [] else [word]) + SplitFrom([], []);
    } else {
      assert (s + " ")[0] == s[0] && (s + " ")[1..] == s[1..] + " ";
      if IsSpace(s[0]) {
        SplitTrailingSpace(s[1..], []);
      } else {
        SplitTrailingSpace(s[1..], word + [s[0]]);
      }
    }
  }

  /** Splitting then joining gives back a collapsed string, continuing from
      a partly read word. */
  lemma {:induction false} JoinSplitCollapsed(s: string, word: string)
    requires NoSpace(word)
    requires forall i :: 0 <= i < |s| && IsSpace(s[i]) ==> s[i] == ' '
    requires forall i :: 0 <= i < |s| - 1 ==> !(s[i] == ' ' && s[i + 1] == ' ')
    requires |s| > 0 ==> s[|s| - 1] != ' '
    requires word == [] && |s| > 0 ==> s[0] != ' '
    ensures Join(SplitFrom(s, word)) == word + s
    ensures word + s != [] ==> SplitFrom(s, word) != []
    decreases |s|
  {
    if s == [] {
    } else if IsSpace(s[0]) {
      assert s[0] == ' ' && word != [] && |s| > 1 && s[1] != ' ';
      JoinSplitCollapsed(s[1..], []);
      var rest := SplitFrom(s[1..], []);
      assert SplitFrom(s, word) == [word] + rest;
      assert ([word] + rest)[1..] == rest;
      assert word + s == word + " " + s[1..];
    } else {
      assert word + s == (word + [s[0]]) + s[1..];
      JoinSplitCollapsed(s[1..], word + [s[0]]);
    }
  }

  /** Reading a run free of whitespace only extends the current word. */
  lemma {:induction false} SplitThroughWord(w: string, t: string, word: string)
    requires NoSpace(w)
    ensures SplitFrom(w + t, word) == SplitFrom(t, word + w)
    decreases |w|
  {
    if w == [] {
      assert w + t == t && word + w == word;
    } else {
      assert (w + t)[0] == w[0] && (w + t)[1..] == w[1..] + t;
      assert word + w == (word + [w[0]]) + w[1..];
      SplitThroughWord(w[1..], t, word + [w[0]]);
    }
  }

  /** Splitting joined words, continuing a partly read word, gives the words
      back with the first one extended by what was already read. */
  lemma {:induction false} SplitJoinFrom(words: seq<string>, word: string)
    requires IsWords(words) && words != [] && NoSpace(word)
    ensures SplitFrom(Join(words), word) == [word + words[0]] + words[1..]
    decreases |words|
  {
    if |words| == 1 {
      SplitThroughWord(words[0], [], word);
      assert words[0] + [] == words[0];
    } else {
      var rest := Join(words[1..]);
      assert Join(words) == words[0] + (" " + rest);
      SplitThroughWord(words[0], " " + rest, word);
      assert (" " + rest)[1..] == rest;
      SplitJoinFrom(words[1..], []);
      assert [] + words[1] == words[1];
      assert [words[1]] + words[2..] == words[1..];
    }
  }

  /** Split undoes Join on any list of words. */
  lemma SplitJoin(words: seq<string>)
    requires IsWords(words)
    ensures Split(Join(words)) == words
  {
    if words != [] {
      SplitJoinFrom(words, []);
      assert [] + words[0] == words[0];
    }
  }

  /** `' '.join(s.split())`: a collapsed string with the same words as `s`. */
  function CollapseSpaces(s: string): (r: string)
    ensures Collapsed(r)
    ensures Split(r) == Split(s)
  {
    SplitIsWords(s, []);
    JoinCollapsed(Split(s));
    SplitJoin(Split(s));
    Join(Split(s))
  }

  /** Collapsing an already collapsed string, with or without a trailing
      space, gives it back. */
  lemma CollapseFixes(p: string)
    requires Collapsed(p)
    ensures CollapseSpaces(p + " ") == p
  {
    SplitTrailingSpace(p, []);
    JoinSplitCollapsed(p, []);
    assert [] + p == p;
  }

  // ---------------------------------------------------------------------
  // The four steps of nsw_legislation.py:46-49

  predicate IsDigit(c: char)
  {
    '0' <= c <= '9'
  }

  predicate AllDigits(ds: string)
  {
    forall i :: 0 <= i < |ds| ==> IsDigit(ds[i])
  }

  /** The length of the run of digits that ends `s`. */
  function TrailingDigits(s: string): (n: nat)
    ensures n <= |s|
    decreases |s|
  {
    if |s| > 0 && IsDigit(s[|s| - 1]) then 1 + TrailingDigits(s[..|s| - 1]) else 0
  }

  lemma {:induction false} TrailingDigitsOf(t: string, ds: string)
    requires AllDigits(ds)
    requires |t| > 0 && !IsDigit(t[|t| - 1])
    ensures TrailingDigits(t + ds) == |ds|
    decreases |ds|
  {
    if ds == [] {
      assert t + ds == t;
    } else {
      assert (t + ds)[..|t + ds| - 1] == t + ds[..|ds| - 1];
      TrailingDigitsOf(t, ds[..|ds| - 1]);
    }
  }

  /** The length of a ` No <digits>` match ending exactly at the end of `s`,
      or 0 when there is none. */
  function NumberSuffix(s: string): (n: nat)
    ensures n <= |s|
  {
    var d := TrailingDigits(s);
    if d > 0 && |s| >= d + 4 && s[|s| - d - 4..|s| - d] == " No " then d + 4 else 0
  }

  /** `re.sub(r' No \d+$', '', s)`. Python's `$` also matches just before a
      final newline, which then stays. */
  function StripNumber(s: string): (r: string)
    ensures |r| <= |s|
    ensures r == s[..|r|] || (|r| > 0 && r[|r| - 1] == '\n' && s[|s| - 1] == '\n' && r[..|r| - 1] == s[..|r| - 1])
  {
    if NumberSuffix(s) > 0 then s[..|s| - NumberSuffix(s)]
    else if |s| > 0 && s[|s| - 1] == '\n' && NumberSuffix(s[..|s| - 1]) > 0
    then s[..|s| - 1 - NumberSuffix(s[..|s| - 1])] + "\n"
    else s
  }

  /** A title ending in ` No ` and digits loses exactly that suffix. */
  lemma StripNumberRemoves(t: string, ds: string)
    requires ds != [] && AllDigits(ds)
    ensures StripNumber(t + " No " + ds) == t
  {
    var s := t + " No " + ds;
    TrailingDigitsOf(t + " No ", ds);
    assert s[|s| - |ds| - 4..|s| - |ds|] == " No ";
    assert s[..|s| - (|ds| + 4)] == t;
  }

  /** The trailing run of digits is made of digits. */
  lemma {:induction false} TrailingDigitsAreDigits(s: string)
    ensures forall i :: |s| - TrailingDigits(s) <= i < |s| ==> IsDigit(s[i])
    decreases |s|
  {
    if |s| > 0 && IsDigit(s[|s| - 1]) {
      var init := s[..|s| - 1];
      TrailingDigitsAreDigits(init);
      forall i | |s| - TrailingDigits(s) <= i < |s| - 1
        ensures IsDigit(s[i])
      {
        assert s[i] == init[i];
      }
    }
  }

  /** A ` No <digits>` match at the end of `s` splits it into the text before
      it, the marker and the digits. */
  lemma NumberSuffixShape(s: string)
    requires NumberSuffix(s) > 0
    ensures var n := NumberSuffix(s);
            && s[|s| - n + 4..] != [] && AllDigits(s[|s| - n + 4..])
            && s == s[..|s| - n] + " No " + s[|s| - n + 4..]
  {
    var n := NumberSuffix(s);
    var d := TrailingDigits(s);
    assert n == d + 4 && s[|s| - d - 4..|s| - d] == " No ";
    TrailingDigitsAreDigits(s);
    var ds := s[|s| - d..];
    assert AllDigits(ds) by {
      forall k | 0 <= k < |ds| ensures IsDigit(ds[k]) {
        assert ds[k] == s[|s| - d + k];
      }
    }
    assert s == s[..|s| - n] + s[|s| - d - 4..|s| - d] + ds;
  }

  /** A match at the very end is removed. */
  lemma StripNumberAtEnd(s: string)
    requires NumberSuffix(s) > 0
    ensures exists t, ds :: ds != [] && AllDigits(ds) && s == t + " No " + ds && StripNumber(s) == t
  {
    var n := NumberSuffix(s);
    NumberSuffixShape(s);
    var t, ds := s[..|s| - n], s[|s| - n + 4..];
    assert s == t + " No " + ds;
  }

  /** A match just before a final newline is removed, and the newline stays. */
  lemma StripNumberBeforeNewline(s: string)
    requires NumberSuffix(s) == 0 && |s| > 0 && s[|s| - 1] == '\n' && NumberSuffix(s[..|s| - 1]) > 0
    ensures exists t, ds :: ds != [] && AllDigits(ds) && s == t + " No " + ds + "\n" && StripNumber(s) == t + "\n"
  {
    var init := s[..|s| - 1];
    var n := NumberSuffix(init);
    assert StripNumber(s) == s[..|s| - 1 - n] + "\n";
    NumberSuffixShape(init);
    var t, ds := init[..|init| - n], init[|init| - n + 4..];
    assert s[..|s| - 1 - n] == t;
    assert s == init + "\n";
  }

  /** The substitution changes a title only by removing a final ` No ` and
      digits, before a final newline if there is one. */
  lemma StripNumberChanges(s: string)
    requires StripNumber(s) != s
    ensures exists t, ds :: ds != [] && AllDigits(ds)
              && ((s == t + " No " + ds && StripNumber(s) == t)
                  || (s == t + " No " + ds + "\n" && StripNumber(s) == t + "\n"))
  {
    if NumberSuffix(s) > 0 {
      StripNumberAtEnd(s);
    } else {
      StripNumberBeforeNewline(s);
    }
  }

  /** A title that ends in neither a digit nor a newline is left alone. */
  lemma StripNumberKeeps(s: string)
    requires |s| > 0 && !IsDigit(s[|s| - 1]) && s[|s| - 1] != '\n'
    ensures StripNumber(s) == s
  {
  }

  lemma MatchShift(s: string, pat: string, i: int)
    requires 1 <= i <= |s|
    ensures MatchAt(s, pat, i) == MatchAt(s[1..], pat, i - 1)
  {
    if i + |pat| <= |s| {
      assert s[1..] == s[1..|s|];
      SliceOfSlice(s, 1, |s|, i - 1, i - 1 + |pat|);
    }
  }

  /** `s.split(sep)[0]`: the text before the first occurrence of `sep`, or
      all of `s` when there is none. */
  function BeforeFirst(s: string, sep: string): (r: string)
    requires sep != []
    ensures |r| <= |s| && r == s[..|r|]
    ensures forall i :: 0 <= i < |r| ==> !MatchAt(s, sep, i)
    ensures r != s ==> MatchAt(s, sep, |r|)
    decreases |s|
  {
    if |s| < |sep| then s
    else if s[..|sep|] == sep then []
    else
      var rest := BeforeFirst(s[1..], sep);
      assert forall i :: 1 <= i <= |rest| ==> MatchAt(s, sep, i) == MatchAt(s[1..], sep, i - 1) by {
        forall i | 1 <= i <= |rest| ensures MatchAt(s, sep, i) == MatchAt(s[1..], sep, i - 1) {
          MatchShift(s, sep, i);
        }
      }
      assert !MatchAt(s, sep, 0);
      [s[0]] + rest
  }

  /** Cutting at the first `(NSW)` leaves no `(NSW)`. */
  lemma BeforeFirstNoNsw(s: string)
    ensures !Contains(BeforeFirst(s, Nsw), Nsw)
  {
  }

  /** For a prefix free of `(NSW)`, cutting `p + " (NSW)"` gives `p + " "`. */
  lemma BeforeFirstOfNormalised(p: string)
    requires !Contains(p, Nsw)
    ensures BeforeFirst(p + " " + Nsw, Nsw) == p + " "
  {
    var s := p + " " + Nsw;
    var r := BeforeFirst(s, Nsw);
    assert MatchAt(s, Nsw, |p| + 1);
    if |r| < |p| + 1 {
      assert MatchAt(s, Nsw, |r|);
      if |r| + 5 <= |p| {
        assert s[0..|p|] == p;
        SliceOfSlice(s, 0, |p|, |r|, |r| + 5);
        assert MatchAt(p, Nsw, |r|);
      } else {
        NswHasNoSpace(s, |r|, |p|);
      }
      assert false;
    }
    assert |r| <= |p| + 1 ==> r == s[..|p| + 1];
    assert s[..|p| + 1] == p + " ";
  }

  /** The citation of a document from the text of its title heading
      (nsw_legislation.py:46-49). */
  function NormaliseCitation(title: string): string
  {
    CollapseSpaces(BeforeFirst(StripNumber(title), Nsw)) + " " + Nsw
  }

  /** The shape of every citation: a collapsed prefix free of `(NSW)`, then
      ` (NSW)`. */
  predicate IsCitation(c: string)
  {
    |c| >= 6 && c[|c| - 6..] == " " + Nsw && Collapsed(c[..|c| - 6]) && !Contains(c[..|c| - 6], Nsw)
  }

  lemma NormaliseCitationShape(title: string)
    ensures IsCitation(NormaliseCitation(title))
  {
    var cut := BeforeFirst(StripNumber(title), Nsw);
    var p := CollapseSpaces(cut);
    var c := NormaliseCitation(title);
    BeforeFirstNoNsw(StripNumber(title));
    assert [] + cut == cut;
    SplitKeepsNoNsw(cut, []);
    JoinKeepsNoNsw(Split(cut));
    assert c[..|c| - 6] == p;
  }

  /** Normalising a citation again changes nothing. */
  lemma NormaliseCitationIdempotent(title: string)
    ensures NormaliseCitation(NormaliseCitation(title)) == NormaliseCitation(title)
  {
    var c := NormaliseCitation(title);
    NormaliseCitationShape(title);
    var p := c[..|c| - 6];
    assert c == p + " " + Nsw;
    StripNumberKeeps(c);
    BeforeFirstOfNormalised(p);
    CollapseFixes(p);
  }

  // ---------------------------------------------------------------------
  // str.replace

  /** `s.replace(from, to)`: every non-overlapping occurrence of `from`,
      left to right. */
  function ReplaceAll(s: string, from: string, to: string): string
    requires from != []
    decreases |s|
  {
    if |s| < |from| then s
    else if s[..|from|] == from then to + ReplaceAll(s[|from|..], from, to)
    else [s[0]] + ReplaceAll(s[1..], from, to)
  }

  /** A string without an occurrence is left as it is. */
  lemma {:induction false} ReplaceAllAbsent(s: string, from: string, to: string)
    requires from != [] && !Contains(s, from)
    ensures ReplaceAll(s, from, to) == s
    decreases |s|
  {
    if |s| >= |from| {
      assert !MatchAt(s, from, 0);
      NotContainsSlice(s, from, 1, |s|);
      assert s[1..|s|] == s[1..];
      ReplaceAllAbsent(s[1..], from, to);
    }
  }

  /** An occurrence begins with the pattern's first two characters. */
  lemma MatchAtStart(s: string, pat: string, i: int)
    requires |pat| >= 2
    ensures MatchAt(s, pat, i) ==> s[i] == pat[0] && s[i + 1] == pat[1]
  {
    if MatchAt(s, pat, i) {
      assert s[i..i + |pat|][0] == s[i] && s[i..i + |pat|][1] == s[i + 1];
    }
  }

  /** A prefix in which no occurrence starts is copied through unchanged. */
  lemma {:induction false} ReplaceAllSkip(a: string, r: string, from: string, to: string)
    requires from != []
    requires forall i :: 0 <= i < |a| ==> !MatchAt(a + r, from, i)
    ensures ReplaceAll(a + r, from, to) == a + ReplaceAll(r, from, to)
    decreases |a|
  {
    var s := a + r;
    if a == [] {
      assert s == r;
    } else if |s| >= |from| {
      assert !MatchAt(s, from, 0);
      assert s[1..] == a[1..] + r;
      forall i | 0 <= i < |a| - 1
        ensures !MatchAt(a[1..] + r, from, i)
      {
        MatchShift(s, from, i + 1);
      }
      ReplaceAllSkip(a[1..], r, from, to);
      assert a == [a[0]] + a[1..];
    }
  }
}
