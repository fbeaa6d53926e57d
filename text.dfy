/**
 The string operations the extractor relies on: `str.strip()` and `str.split()`
 with no arguments, over one fixed whitespace predicate, and the way body lines
 are accumulated into a document's text (each line followed by one space).
 */
module Text {

  /** The whitespace characters shared by Strip and Split (the ASCII ones). */
  predicate IsSpace(c: char) {
    c == ' ' || c == '\t' || c == '\n' || c == '\r' || c == '\U{0B}' || c == '\U{0C}'
  }

  predicate NoSpace(s: string) {
    forall i :: 0 <= i < |s| ==> !IsSpace(s[i])
  }

  predicate AllSpace(s: string) {
    forall i :: 0 <= i < |s| ==> IsSpace(s[i])
  }

  /** A non-empty string that neither starts nor ends with whitespace: what Strip yields for a non-blank line. */
  predicate Trimmed(s: string) {
    s != [] && !IsSpace(s[0]) && !IsSpace(s[|s| - 1])
  }

  /** `s.lstrip()`: drops the leading whitespace. */
  function TrimStart(s: string): (r: string)
    ensures |r| <= |s|
    ensures r == [] || !IsSpace(r[0])
  {
    if |s| > 0 && IsSpace(s[0]) then TrimStart(s[1..]) else s
  }

  /** What TrimStart drops is a whitespace prefix: the result is the rest of the line. */
  lemma {:induction false} TrimStartSuffix(s: string)
    ensures var r := TrimStart(s);
            r == s[|s| - |r|..] && AllSpace(s[..|s| - |r|])
    decreases |s|
  {
    if |s| > 0 && IsSpace(s[0]) {
      TrimStartSuffix(s[1..]);
    }
  }

  /** `s.rstrip()`: drops the trailing whitespace. */
  function TrimEnd(s: string): (r: string)
    ensures |r| <= |s| && r == s[..|r|]
    ensures AllSpace(s[|r|..])
    ensures r == [] || !IsSpace(r[|r| - 1])
  {
    if |s| > 0 && IsSpace(s[|s| - 1]) then
      var p := s[..|s| - 1];
      var r := TrimEnd(p);
      assert s[|r|..] == p[|r|..] + [s[|s| - 1]];
      r
    else s
  }

  /**
   `s.strip()`: the longest slice of `s` that neither starts nor ends with
   whitespace; everything cut off on either side is whitespace, and the result
   is empty exactly when the whole line is whitespace.
   */
  function Strip(s: string): (r: string)
    ensures r == [] || Trimmed(r)
    ensures r == [] <==> AllSpace(s)
  {
    var t := TrimStart(s);
    var r := TrimEnd(t);
    TrimStartSuffix(s);
    assert r == [] ==> s == s[..|s| - |t|] + t[|r|..];
    r
  }

  /** A line that neither starts nor ends with whitespace is left as it is. */
  lemma StripTrimmed(s: string)
    requires Trimmed(s)
    ensures Strip(s) == s
  {
  }

  /** Strip only cuts whitespace, and only from the two ends: its result is a slice of the line. */
  lemma StripIsSlice(s: string)
    ensures var r := Strip(s);
            exists i :: 0 <= i && i + |r| <= |s| && r == s[i..i + |r|]
                        && AllSpace(s[..i]) && AllSpace(s[i + |r|..])
  {
    var t := TrimStart(s);
    var r := TrimEnd(t);
    TrimStartSuffix(s);
    var i := |s| - |t|;
    assert s[i..i + |r|] == r;
    assert s[i + |r|..] == t[|r|..];
  }

  /** The longest prefix of `s` without whitespace. */
  function Word(s: string): (w: string)
    ensures |w| <= |s| && w == s[..|w|] && NoSpace(w)
    ensures |w| == |s| || IsSpace(s[|w|])
  {
    if |s| > 0 && !IsSpace(s[0]) then [s[0]] + Word(s[1..]) else []
  }

  /** `s.split()`: the maximal runs of non-whitespace characters, in order; none is empty. */
  function Split(s: string): (ws: seq<string>)
    ensures forall k :: 0 <= k < |ws| ==> ws[k] != [] && NoSpace(ws[k])
    decreases |s|
  {
    var t := TrimStart(s);
    if t == [] then []
    else
      var w := Word(t);
      [w] + Split(t[|w|..])
  }

  /** The characters of `s` that are not whitespace, in order. */
  function Unspaced(s: string): string {
    if s == [] then [] else (if IsSpace(s[0]) then [] else [s[0]]) + Unspaced(s[1..])
  }

  function Concat(ws: seq<string>): string {
    if ws == [] then [] else ws[0] + Concat(ws[1..])
  }

  /**
   How extract_collection grows current_text: each body line followed by one
   space, which for at least one line is the lines joined by single spaces plus
   one trailing space.
   */
  function Accumulate(ls: seq<string>): (r: string)
    ensures ls == [] ==> r == []
    ensures ls != [] ==> r == JoinSpace(ls) + " "
    decreases |ls|
  {
    if ls == [] then ""
    else
      var p := ls[..|ls| - 1];
      assert |ls| == 1 ==> p == [];
      Accumulate(p) + ls[|ls| - 1] + " "
  }

  /** `" ".join(ls)`. */
  function JoinSpace(ls: seq<string>): string {
    if ls == [] then ""
    else if |ls| == 1 then ls[0]
    else JoinSpace(ls[..|ls| - 1]) + " " + ls[|ls| - 1]
  }

  lemma {:induction false} UnspacedAppend(a: string, b: string)
    ensures Unspaced(a + b) == Unspaced(a) + Unspaced(b)
    decreases |a|
  {
    if a == [] {
      assert a + b == b;
    } else {
      assert (a + b)[1..] == a[1..] + b;
      UnspacedAppend(a[1..], b);
    }
  }

  lemma {:induction false} UnspacedAllSpace(s: string)
    requires AllSpace(s)
    ensures Unspaced(s) == []
    decreases |s|
  {
    if s != [] {
      UnspacedAllSpace(s[1..]);
    }
  }

  lemma {:induction false} UnspacedNoSpace(s: string)
    requires NoSpace(s)
    ensures Unspaced(s) == s
    decreases |s|
  {
    if s != [] {
      UnspacedNoSpace(s[1..]);
    }
  }

  /** Splitting loses exactly the whitespace: the words, glued back together, are the line without its whitespace. */
  lemma {:induction false} SplitKeepsNonSpace(s: string)
    ensures Concat(Split(s)) == Unspaced(s)
    decreases |s|
  {
    var t := TrimStart(s);
    assert Unspaced(s) == Unspaced(t) by {
      TrimStartSuffix(s);
      var p := s[..|s| - |t|];
      assert s == p + t;
      UnspacedAppend(p, t);
      UnspacedAllSpace(p);
    }
    if t != [] {
      var w := Word(t);
      var rest := t[|w|..];
      assert Unspaced(t) == w + Unspaced(rest) by {
        assert t == w + rest;
        UnspacedAppend(w, rest);
        UnspacedNoSpace(w);
      }
      SplitKeepsNonSpace(rest);
      var ws := Split(rest);
      assert Concat(Split(s)) == w + Concat(ws) by {
        assert Split(s) == [w] + ws;
        assert ([w] + ws)[1..] == ws;
      }
    }
  }

  lemma {:induction false} TrimStartAppend(t: string, x: string)
    ensures TrimStart(t + x) == if TrimStart(t) == [] then TrimStart(x) else TrimStart(t) + x
    decreases |t|
  {
    if t != [] && IsSpace(t[0]) {
      assert (t + x)[1..] == t[1..] + x;
      TrimStartAppend(t[1..], x);
    } else if t == [] {
      assert t + x == x;
    }
  }

  lemma {:induction false} WordAppend(u: string, x: string)
    ensures |Word(u)| < |u| ==> Word(u + x) == Word(u)
    ensures |Word(u)| == |u| ==> Word(u + x) == u + Word(x)
    decreases |u|
  {
    if u == [] {
      assert u + x == x;
    } else if !IsSpace(u[0]) {
      assert (u + x)[1..] == u[1..] + x;
      WordAppend(u[1..], x);
    }
  }

  /** A trailing whitespace character does not change the words of a line. */
  lemma {:induction false} SplitTrailingSpace(t: string, c: char)
    requires IsSpace(c)
    ensures Split(t + [c]) == Split(t)
    decreases |t|
  {
    var u := TrimStart(t);
    TrimStartAppend(t, [c]);
    if u != [] {
      assert TrimStart(t + [c]) == u + [c];
      var w := Word(u);
      WordAppend(u, [c]);
      assert Word([c]) == [];
      assert Word(u + [c]) == w;
      assert (u + [c])[|w|..] == u[|w|..] + [c];
      SplitTrailingSpace(u[|w|..], c);
    }
  }

  lemma {:induction false} SplitTrimEnd(u: string)
    ensures Split(TrimEnd(u)) == Split(u)
    decreases |u|
  {
    if |u| > 0 && IsSpace(u[|u| - 1]) {
      var v := u[..|u| - 1];
      assert u == v + [u[|u| - 1]];
      SplitTrailingSpace(v, u[|u| - 1]);
      SplitTrimEnd(v);
    }
  }

  /** `s.strip().split() == s.split()`: this is why a record's terms are the words of its raw text. */
  lemma SplitIgnoresStrip(s: string)
    ensures Split(Strip(s)) == Split(s)
  {
    var t := TrimStart(s);
    SplitTrimEnd(t);
    assert TrimStart(t) == t;
  }

  lemma {:induction false} JoinSpaceEnds(ls: seq<string>)
    requires ls != []
    requires forall k :: 0 <= k < |ls| ==> Trimmed(ls[k])
    ensures Trimmed(JoinSpace(ls))
    ensures Trimmed(ls[0]) && JoinSpace(ls)[0] == ls[0][0]
    decreases |ls|
  {
    if |ls| > 1 {
      var p := ls[..|ls| - 1];
      JoinSpaceEnds(p);
      assert p[0] == ls[0];
    }
  }

  /**
   `current_text.strip()` after appending stripped, non-blank lines each with a
   trailing space is the same lines joined by single spaces.
   */
  lemma StripAccumulate(ls: seq<string>)
    requires forall k :: 0 <= k < |ls| ==> Trimmed(ls[k])
    ensures Strip(Accumulate(ls)) == JoinSpace(ls)
  {
    if ls != [] {
      JoinSpaceEnds(ls);
      var j := JoinSpace(ls);
      assert TrimStart(j + " ") == j + " " by {
        assert (j + " ")[0] == j[0];
      }
      assert TrimEnd(j + " ") == j by {
        assert (j + " ")[..|j|] == j;
        assert TrimEnd(j) == j;
      }
    }
  }

  /** Split peels off the first word: the run of non-whitespace after the leading whitespace. */
  lemma SplitFirstWord(s: string, w: string, rest: string)
    requires TrimStart(s) == w + rest
    requires w != [] && NoSpace(w) && (rest == [] || IsSpace(rest[0]))
    ensures Split(s) == [w] + Split(rest)
  {
    assert Word(w) == w by { WordOfNoSpace(w); }
    WordAppend(w, rest);
    if rest != [] {
      assert Word(rest) == [];
    }
    assert Word(w + rest) == w;
    assert (w + rest)[|w|..] == rest;
  }

  lemma WordOfNoSpace(w: string)
    requires NoSpace(w)
    ensures Word(w) == w
  {
  }

  lemma {:induction false} TrimStartAllSpace(s: string)
    requires AllSpace(s)
    ensures TrimStart(s) == []
    decreases |s|
  {
    if s != [] {
      TrimStartAllSpace(s[1..]);
    }
  }

  /** A line of whitespace only has no words. */
  lemma SplitAllSpace(s: string)
    requires AllSpace(s)
    ensures Split(s) == []
  {
    TrimStartAllSpace(s);
  }

  /** A non-empty run of non-whitespace is one word. */
  lemma SplitOneWord(w: string)
    requires w != [] && NoSpace(w)
    ensures Split(w) == [w]
  {
    assert w == w + [];
    SplitFirstWord(w, w, []);
    assert Split([]) == [];
  }

  /** Two texts glued with a whitespace character between them split into the words of the first followed by those of the second: words never run across whitespace. */
  lemma SplitAroundSpace(a: string, c: char, b: string)
    requires IsSpace(c)
    ensures Split(a + [c] + b) == Split(a) + Split(b)
  {
    var x := [c] + b;
    assert a + [c] + b == a + x;
    assert x[1..] == b;
    SplitBeforeSpace(a, x);
  }

  lemma {:induction false} SplitBeforeSpace(a: string, x: string)
    requires x != [] && IsSpace(x[0])
    ensures Split(a + x) == Split(a) + Split(x[1..])
    decreases |a|
  {
    var u := TrimStart(a);
    if u == [] {
      assert Split(a + x) == Split(x[1..]) by {
        TrimStartAppend(a, x);
        SplitSameTrimStart(a + x, x[1..]);
      }
      assert Split(a) == [];
      assert Split(a) + Split(x[1..]) == Split(x[1..]);
    } else {
      var w := Word(u);
      var rest := u[|w|..];
      SplitWordBeforeSpace(a, x);
      SplitBeforeSpace(rest, x);
      assert Split(a) == [w] + Split(rest);
      assert [w] + (Split(rest) + Split(x[1..])) == [w] + Split(rest) + Split(x[1..]);
    }
  }

  /** The first word of a text is not lengthened by appending text that starts with whitespace. */
  lemma SplitWordBeforeSpace(a: string, x: string)
    requires TrimStart(a) != [] && x != [] && IsSpace(x[0])
    ensures var u := TrimStart(a);
            Split(a + x) == [Word(u)] + Split(u[|Word(u)|..] + x)
  {
    var u := TrimStart(a);
    var w := Word(u);
    TrimStartAppend(a, x);
    assert TrimStart(a + x) == u + x;
    WordAppend(u, x);
    assert Word(x) == [];
    DropAppend(u, x, |w|);
  }

  lemma DropAppend(u: string, x: string, i: nat)
    requires i <= |u|
    ensures (u + x)[i..] == u[i..] + x
  {
  }

  lemma SplitSameTrimStart(s: string, t: string)
    requires TrimStart(s) == TrimStart(t)
    ensures Split(s) == Split(t)
  {
  }

  /** The words of each line, in order. */
  function SplitLines(ls: seq<string>): (ws: seq<string>)
    ensures forall k :: 0 <= k < |ws| ==> ws[k] != [] && NoSpace(ws[k])
  {
    if ls == [] then [] else SplitLines(ls[..|ls| - 1]) + Split(ls[|ls| - 1])
  }

  /** The words of lines joined by single spaces are the words of each line, in order. */
  lemma {:induction false} SplitJoinSpace(ls: seq<string>)
    ensures Split(JoinSpace(ls)) == SplitLines(ls)
    decreases |ls|
  {
    if |ls| == 1 {
      assert ls[..0] == [];
    } else if |ls| > 1 {
      var p := ls[..|ls| - 1];
      SplitJoinSpace(p);
      SplitAroundSpace(JoinSpace(p), ' ', ls[|ls| - 1]);
    }
  }

  /** Words with no whitespace in them, joined by single spaces, split back into the same words. */
  lemma {:induction false} SplitJoinWords(ws: seq<string>)
    requires forall k :: 0 <= k < |ws| ==> ws[k] != [] && NoSpace(ws[k])
    ensures Split(JoinSpace(ws)) == ws
    decreases |ws|
  {
    SplitJoinSpace(ws);
    SplitLinesOfWords(ws);
  }

  lemma {:induction false} SplitLinesOfWords(ws: seq<string>)
    requires forall k :: 0 <= k < |ws| ==> ws[k] != [] && NoSpace(ws[k])
    ensures SplitLines(ws) == ws
    decreases |ws|
  {
    if ws != [] {
      var p := ws[..|ws| - 1];
      SplitLinesOfWords(p);
      SplitOneWord(ws[|ws| - 1]);
      assert ws == p + [ws[|ws| - 1]];
    }
  }

  /** One stripped body line followed by its space strips back to the line and has the line's words. */
  lemma StripBodyLine(line: string)
    requires Trimmed(line)
    ensures Strip(line + " ") == line
    ensures Split(line + " ") == Split(line)
  {
    assert Accumulate([line]) == line + " " by {
      assert [line][..0] == [];
    }
    StripAccumulate([line]);
    SplitIgnoresStrip(line + " ");
  }
}
