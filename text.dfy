/**
 * Text helpers of the link checker, written as the Python built-ins they stand for:
 * `str.split()` with no argument (split on runs of whitespace), `sep.join(parts)`,
 * and `s.split(", ")` with a literal separator.
 */
module Text {

  /** Python's `str.isspace` for one character: the characters `str.split()` splits on. */
  predicate IsSpace(c: char)
  {
    ('\t' <= c <= '\r') || ('\U{1C}' <= c <= ' ') || c == '\U{85}' || c == '\U{A0}' ||
    c == '\U{1680}' || ('\U{2000}' <= c <= '\U{200A}') || c == '\U{2028}' || c == '\U{2029}' ||
    c == '\U{202F}' || c == '\U{205F}' || c == '\U{3000}'
  }

  /** Text with no non-whitespace character (the empty string included). */
  predicate IsBlank(s: string)
  {
    forall i :: 0 <= i < |s| ==> IsSpace(s[i])
  }

  /** A token `str.split()` can produce: non-empty and free of whitespace. */
  predicate IsWord(w: string)
  {
    w != [] && forall i :: 0 <= i < |w| ==> !IsSpace(w[i])
  }

  /** Length of the run of non-whitespace characters at the start of `s`. */
  function WordLength(s: string): (n: nat)
    ensures n <= |s|
    ensures forall i :: 0 <= i < n ==> !IsSpace(s[i])
    ensures n < |s| ==> IsSpace(s[n])
  {
    if s == [] || IsSpace(s[0]) then 0 else 1 + WordLength(s[1..])
  }

  /** `s.split()`: the maximal runs of non-whitespace characters of `s`, in order. */
  function Split(s: string): (words: seq<string>)
    ensures forall i :: 0 <= i < |words| ==> IsWord(words[i])
    decreases |s|
  {
    if s == [] then []
    else if IsSpace(s[0]) then Split(s[1..])
    else
      var n := WordLength(s);
      [s[..n]] + Split(s[n..])
  }

  /** `sep.join(parts)`. */
  function Join(parts: seq<string>, sep: string): (joined: string)
    ensures parts != [] ==> |joined| >= |parts[0]| && joined[..|parts[0]|] == parts[0]
  {
    if |parts| == 0 then []
    else if |parts| == 1 then parts[0]
    else parts[0] + sep + Join(parts[1..], sep)
  }

  /** `s.split(", ")`: the pieces between the leftmost non-overlapping occurrences of ", ". */
  function SplitOnComma(s: string): (pieces: seq<string>)
    ensures |pieces| >= 1
  {
    if s == [] then [[]]
    else if |s| >= 2 && s[0] == ',' && s[1] == ' ' then [[]] + SplitOnComma(s[2..])
    else
      var rest := SplitOnComma(s[1..]);
      [[s[0]] + rest[0]] + rest[1..]
  }

  /** The characters of `s` that are not whitespace, in order. */
  function Squeeze(s: string): string
  {
    if s == [] then [] else (if IsSpace(s[0]) then [] else [s[0]]) + Squeeze(s[1..])
  }

  /** The concatenation of all the pieces. */
  function Concat(parts: seq<string>): string
  {
    if parts == [] then [] else parts[0] + Concat(parts[1..])
  }

  // ---------------------------------------------------------------------------
  // Properties of Split

  /** `s.split()` is empty exactly when `s` has no non-whitespace character. */
  lemma {:induction false} SplitEmptyIffBlank(s: string)
    ensures Split(s) == [] <==> IsBlank(s)
    decreases |s|
  {
    if s != [] {
      if IsSpace(s[0]) {
        SplitEmptyIffBlank(s[1..]);
        if IsBlank(s[1..]) {
          forall i | 0 <= i < |s| ensures IsSpace(s[i]) {
            if i > 0 { assert s[i] == s[1..][i - 1]; }
          }
        } else {
          var j :| 0 <= j < |s[1..]| && !IsSpace(s[1..][j]);
          assert !IsSpace(s[j + 1]);
        }
      } else {
        assert !IsSpace(s[0]);
      }
    }
  }

  /** Leading whitespace is skipped. */
  lemma {:induction false} SplitSkipsBlank(blank: string, rest: string)
    requires IsBlank(blank)
    ensures Split(blank + rest) == Split(rest)
    decreases |blank|
  {
    if blank == [] {
      assert blank + rest == rest;
    } else {
      assert (blank + rest)[0] == blank[0] && IsSpace(blank[0]);
      assert (blank + rest)[1..] == blank[1..] + rest;
      assert IsBlank(blank[1..]) by {
        forall i | 0 <= i < |blank[1..]| ensures IsSpace(blank[1..][i]) { assert blank[1..][i] == blank[i + 1]; }
      }
      SplitSkipsBlank(blank[1..], rest);
    }
  }

  /** The leading word run of a word followed by whitespace is exactly that word. */
  lemma {:induction false} WordLengthOfWord(w: string, rest: string)
    requires IsWord(w)
    requires rest == [] || IsSpace(rest[0])
    ensures WordLength(w + rest) == |w|
    decreases |w|
  {
    assert (w + rest)[0] == w[0];
    assert (w + rest)[1..] == w[1..] + rest;
    if |w| > 1 {
      WordLengthOfWord(w[1..], rest);
    } else {
      assert w[1..] + rest == rest;
    }
  }

  /** A word followed by at least one whitespace character is split off as one token. */
  lemma SplitWordThenBlank(w: string, blank: string, rest: string)
    requires IsWord(w) && blank != [] && IsBlank(blank)
    ensures Split(w + blank + rest) == [w] + Split(rest)
  {
    var s := w + (blank + rest);
    assert s == w + blank + rest;
    WordLengthOfWord(w, blank + rest);
    assert s[..|w|] == w;
    assert s[|w|..] == blank + rest;
    SplitSkipsBlank(blank, rest);
  }

  /** A single word is one token. */
  lemma SplitOneWord(w: string)
    requires IsWord(w)
    ensures Split(w) == [w]
  {
    WordLengthOfWord(w, []);
    assert w + [] == w;
    assert w[|w|..] == [];
  }

  /** Round trip: splitting words joined by single spaces gives the words back. */
  lemma {:induction false} SplitJoinedWords(words: seq<string>)
    requires forall i :: 0 <= i < |words| ==> IsWord(words[i])
    ensures Split(Join(words, " ")) == words
    decreases |words|
  {
    if |words| == 1 {
      SplitOneWord(words[0]);
    } else if |words| > 1 {
      SplitJoinedWords(words[1..]);
      assert IsBlank(" ");
      SplitWordThenBlank(words[0], " ", Join(words[1..], " "));
      assert [words[0]] + words[1..] == words;
    }
  }

  /**
   * `words` laid out with the whitespace runs `gaps` around them: gaps[0], words[0], gaps[1], ...,
   * words[n-1], gaps[n].
   */
  function Spaced(words: seq<string>, gaps: seq<string>): string
    requires |gaps| == |words| + 1
    decreases |words|
  {
    if words == [] then gaps[0] else gaps[0] + words[0] + Spaced(words[1..], gaps[1..])
  }

  /** Every word a word, every gap whitespace, and the gaps between two words non-empty. */
  predicate WellSpaced(words: seq<string>, gaps: seq<string>)
  {
    |gaps| == |words| + 1 &&
    (forall i :: 0 <= i < |words| ==> IsWord(words[i])) &&
    (forall i :: 0 <= i < |gaps| ==> IsBlank(gaps[i])) &&
    (forall i :: 0 < i < |words| ==> gaps[i] != [])
  }

  /** A spaced text starts with its first gap, and is only that gap when there are no words. */
  lemma SpacedStartsWithGap(words: seq<string>, gaps: seq<string>)
    requires |gaps| == |words| + 1
    ensures |Spaced(words, gaps)| >= |gaps[0]| && Spaced(words, gaps)[..|gaps[0]|] == gaps[0]
    ensures words == [] ==> Spaced(words, gaps) == gaps[0]
  {
  }

  /** Dropping the first word and the first gap keeps a text well spaced. */
  lemma WellSpacedTail(words: seq<string>, gaps: seq<string>)
    requires WellSpaced(words, gaps) && words != []
    ensures WellSpaced(words[1..], gaps[1..])
  {
  }

  /** A word followed by a whitespace run (empty only at the end of the text) is split off whole. */
  lemma SplitWordBeforeGap(w: string, gap: string, after: string)
    requires IsWord(w) && IsBlank(gap) && (gap != [] || after == [])
    ensures Split(w + (gap + after)) == [w] + Split(gap + after)
  {
    if gap == [] {
      assert w + (gap + after) == w && gap + after == [];
      SplitOneWord(w);
    } else {
      SplitWordThenBlank(w, gap, after);
      SplitSkipsBlank(gap, after);
      assert w + (gap + after) == w + gap + after;
    }
  }

  /** Any text of words separated by whitespace runs, with blank ends allowed, splits into exactly those words. */
  lemma {:induction false} SplitSpaced(words: seq<string>, gaps: seq<string>)
    requires WellSpaced(words, gaps)
    ensures Split(Spaced(words, gaps)) == words
    decreases |words|
  {
    if words == [] {
      SplitSkipsBlank(gaps[0], []);
      assert gaps[0] + [] == gaps[0];
    } else {
      var w, rest := words[0], Spaced(words[1..], gaps[1..]);
      assert IsWord(w) && IsBlank(gaps[0]) && IsBlank(gaps[1]);
      assert Spaced(words, gaps) == gaps[0] + (w + rest);
      SplitSkipsBlank(gaps[0], w + rest);
      WellSpacedTail(words, gaps);
      SplitSpaced(words[1..], gaps[1..]);
      SpacedStartsWithGap(words[1..], gaps[1..]);
      var after := rest[|gaps[1]|..];
      assert rest == gaps[1] + after;
      assert |words| == 1 ==> after == [];
      assert |words| > 1 ==> gaps[1] != [];
      SplitWordBeforeGap(w, gaps[1], after);
      assert [w] + words[1..] == words;
    }
  }

  /** Removing whitespace distributes over concatenation. */
  lemma {:induction false} SqueezeAppend(a: string, b: string)
    ensures Squeeze(a + b) == Squeeze(a) + Squeeze(b)
    decreases |a|
  {
    if a == [] {
      assert a + b == b;
    } else {
      assert (a + b)[0] == a[0];
      assert (a + b)[1..] == a[1..] + b;
      SqueezeAppend(a[1..], b);
    }
  }

  /** A run of non-whitespace characters loses nothing when whitespace is removed. */
  lemma {:induction false} SqueezeKeepsRun(s: string)
    requires forall i :: 0 <= i < |s| ==> !IsSpace(s[i])
    ensures Squeeze(s) == s
    decreases |s|
  {
    if s != [] {
      SqueezeKeepsRun(s[1..]);
      assert [s[0]] + s[1..] == s;
    }
  }

  /** No character other than whitespace is lost or reordered by `split()`. */
  lemma {:induction false} SplitKeepsText(s: string)
    ensures Concat(Split(s)) == Squeeze(s)
    decreases |s|
  {
    if s != [] {
      if IsSpace(s[0]) {
        SplitKeepsText(s[1..]);
      } else {
        var n := WordLength(s);
        SplitKeepsText(s[n..]);
        assert s == s[..n] + s[n..];
        SqueezeAppend(s[..n], s[n..]);
        SqueezeKeepsRun(s[..n]);
        var words := Split(s);
        assert words == [s[..n]] + Split(s[n..]);
        assert words[1..] == Split(s[n..]);
      }
    }
  }

  // ---------------------------------------------------------------------------
  // Properties of Join and SplitOnComma

  /** A prefix free of spaces, followed by text that starts a new piece (or nothing), extends the first piece. */
  lemma {:induction false} SplitOnCommaPrefix(x: string, t: string)
    requires forall i :: 0 <= i < |x| ==> x[i] != ' '
    requires t == [] || t[0] == ','
    ensures SplitOnComma(x + t) == [x + SplitOnComma(t)[0]] + SplitOnComma(t)[1..]
    decreases |x|
  {
    if x == [] {
      var pieces := SplitOnComma(t);
      assert x + t == t;
      assert x + pieces[0] == pieces[0];
      assert [pieces[0]] + pieces[1..] == pieces;
    } else {
      var s := x + t;
      assert s[0] == x[0];
      assert s[1..] == x[1..] + t;
      assert |s| >= 2 ==> s[1] != ' ' by {
        if |s| >= 2 { if |x| >= 2 { assert s[1] == x[1]; } else { assert s[1] == t[0]; } }
      }
      SplitOnCommaPrefix(x[1..], t);
      assert [x[0]] + (x[1..] + SplitOnComma(t)[0]) == x + SplitOnComma(t)[0];
    }
  }

  /** Round trip: for a non-empty list of space-free parts, `", ".join` is undone by `split(", ")`. */
  lemma {:induction false} SplitOnCommaJoin(parts: seq<string>)
    requires |parts| >= 1
    requires forall k, i :: 0 <= k < |parts| && 0 <= i < |parts[k]| ==> parts[k][i] != ' '
    ensures SplitOnComma(Join(parts, ", ")) == parts
    decreases |parts|
  {
    if |parts| == 1 {
      SplitOnCommaPrefix(parts[0], []);
      assert parts[0] + [] == parts[0];
    } else {
      var tail := Join(parts[1..], ", ");
      SplitOnCommaJoin(parts[1..]);
      var t := ", " + tail;
      assert t[2..] == tail;
      assert SplitOnComma(t) == [[]] + parts[1..];
      assert parts[0] + ", " + tail == parts[0] + t;
      SplitOnCommaPrefix(parts[0], t);
      assert parts[0] + [] == parts[0];
      assert [parts[0]] + parts[1..] == parts;
    }
  }
}
