/**
 * The pieces of Python's `str` behaviour the application relies on:
 * whitespace (`str.isspace`), `strip`, `lower` on ASCII letters,
 * `" ".join(s.split())`, and the conversions `int(s)` and `str(n)`
 * between decimal text and integers.
 */
module Text {
  import opened Common

  // ---------------------------------------------------------------------------
  // Whitespace
  // ---------------------------------------------------------------------------

  /** The characters for which Python's `str.isspace()` holds. */
  predicate IsSpace(c: char)
  {
    || ('\t' <= c <= '\r')
    || ('\U{1C}' <= c <= '\U{1F}')
    || c == ' ' || c == '\U{85}' || c == '\U{A0}' || c == '\U{1680}'
    || ('\U{2000}' <= c <= '\U{200A}')
    || c == '\U{2028}' || c == '\U{2029}' || c == '\U{202F}' || c == '\U{205F}' || c == '\U{3000}'
  }

  predicate NoSpace(s: string)
  {
    forall k | 0 <= k < |s| :: !IsSpace(s[k])
  }

  /** The number of whitespace characters `s` starts with. */
  function LeadingSpaces(s: string): (n: nat)
    ensures n <= |s| && (n == |s| || !IsSpace(s[n]))
    ensures forall k | 0 <= k < n :: IsSpace(s[k])
    decreases |s|
  {
    if s != [] && IsSpace(s[0]) then
      var n := 1 + LeadingSpaces(s[1..]);
      assert forall k | 1 <= k < |s| :: s[k] == s[1..][k - 1];
      n
    else 0
  }

  /** The number of whitespace characters `s` ends with. */
  function TrailingSpaces(s: string): (n: nat)
    ensures n <= |s| && (n == |s| || !IsSpace(s[|s| - n - 1]))
    ensures forall k | |s| - n <= k < |s| :: IsSpace(s[k])
    decreases |s|
  {
    if s != [] && IsSpace(s[|s| - 1]) then
      var n := 1 + TrailingSpaces(s[..|s| - 1]);
      assert forall k | 0 <= k < |s| - 1 :: s[k] == s[..|s| - 1][k];
      n
    else 0
  }

  /** `s` without its leading whitespace (Python's `lstrip()`). */
  function TrimLeft(s: string): (r: string)
    ensures |r| <= |s| && r == s[|s| - |r|..]
    ensures r == [] || !IsSpace(r[0])
    ensures forall k | 0 <= k < |s| - |r| :: IsSpace(s[k])
  {
    s[LeadingSpaces(s)..]
  }

  /** Python's `str.strip()`: the longest slice without whitespace at either end. */
  function Strip(s: string): (r: string)
    ensures r == [] || (!IsSpace(r[0]) && !IsSpace(r[|r| - 1]))
    ensures LeadingSpaces(s) + |r| <= |s| && r == s[LeadingSpaces(s)..LeadingSpaces(s) + |r|]
    ensures forall k | LeadingSpaces(s) + |r| <= k < |s| :: IsSpace(s[k])
  {
    var i := LeadingSpaces(s);
    if i == |s| then [] else s[i..|s| - TrailingSpaces(s)]
  }

  /** A text is its leading whitespace, its stripped part, and its trailing whitespace. */
  lemma StripSplit(s: string) returns (a: string, t: string, b: string)
    ensures s == a + t + b && t == Strip(s)
    ensures forall k | 0 <= k < |a| :: IsSpace(a[k])
    ensures forall k | 0 <= k < |b| :: IsSpace(b[k])
  {
    var i := LeadingSpaces(s);
    t := Strip(s);
    a, b := s[..i], s[i + |t|..];
    assert s == a + t + b;
    forall k | 0 <= k < |b| ensures IsSpace(b[k]) {
      assert b[k] == s[i + |t| + k];
    }
  }

  lemma StripOfTrimmed(s: string)
    requires s == [] || (!IsSpace(s[0]) && !IsSpace(s[|s| - 1]))
    ensures Strip(s) == s
  {
  }

  // ---------------------------------------------------------------------------
  // Case
  // ---------------------------------------------------------------------------

  function LowerChar(c: char): char
  {
    if 'A' <= c <= 'Z' then (c as int - 'A' as int + 'a' as int) as char else c
  }

  predicate IsUpper(c: char)
  {
    'A' <= c <= 'Z'
  }

  /** Python's `str.lower()` on ASCII letters; other characters are kept. */
  function Lower(s: string): (r: string)
    ensures |r| == |s|
    ensures forall k | 0 <= k < |s| :: r[k] == LowerChar(s[k])
  {
    seq(|s|, k requires 0 <= k < |s| => LowerChar(s[k]))
  }

  lemma LowerOfLower(s: string)
    requires forall k | 0 <= k < |s| :: !IsUpper(s[k])
    ensures Lower(s) == s
  {
  }

  // ---------------------------------------------------------------------------
  // split() and " ".join(...)
  // ---------------------------------------------------------------------------

  /** The number of non-whitespace characters `s` starts with. */
  function WordLength(s: string): (n: nat)
    ensures n <= |s| && (n == |s| || IsSpace(s[n]))
    ensures forall k | 0 <= k < n :: !IsSpace(s[k])
    decreases |s|
  {
    if s == [] || IsSpace(s[0]) then 0
    else
      var n := 1 + WordLength(s[1..]);
      assert forall k | 1 <= k < |s| :: s[k] == s[1..][k - 1];
      n
  }

  /** The longest prefix of `s` holding no whitespace. */
  function TakeWord(s: string): (w: string)
    ensures |w| <= |s| && w == s[..|w|]
    ensures NoSpace(w)
    ensures |w| == |s| || IsSpace(s[|w|])
  {
    s[..WordLength(s)]
  }

  /** Every element is a non-empty run without whitespace. */
  predicate AllWords(ws: seq<string>)
  {
    forall k | 0 <= k < |ws| :: ws[k] != [] && NoSpace(ws[k])
  }

  /** Python's `s.split()` with no separator: the maximal runs of non-whitespace. */
  function Words(s: string): (ws: seq<string>)
    ensures AllWords(ws)
    decreases |s|
  {
    var t := TrimLeft(s);
    if t == [] then []
    else
      var w := TakeWord(t);
      var rest := Words(t[|w|..]);
      AllWordsCons(w, rest);
      [w] + rest
  }

  lemma AllWordsCons(w: string, rest: seq<string>)
    requires w != [] && NoSpace(w) && AllWords(rest)
    ensures AllWords([w] + rest)
  {
    forall k | 0 <= k < |[w] + rest|
      ensures ([w] + rest)[k] != [] && NoSpace(([w] + rest)[k])
    {
      if k > 0 {
        assert ([w] + rest)[k] == rest[k - 1];
      }
    }
  }

  /** Python's `" ".join(ws)`. */
  function JoinSpace(ws: seq<string>): (r: string)
    ensures ws == [] ==> r == []
    ensures ws != [] && ws[0] != [] ==> r != [] && r[0] == ws[0][0]
  {
    if ws == [] then []
    else if |ws| == 1 then ws[0]
    else ws[0] + " " + JoinSpace(ws[1..])
  }

  /** The joined text starts with the first word, followed by a space when more words come. */
  lemma JoinSpaceStartsWithFirst(ws: seq<string>)
    requires ws != []
    ensures |ws[0]| <= |JoinSpace(ws)| && JoinSpace(ws)[..|ws[0]|] == ws[0]
    ensures |ws| > 1 ==> |ws[0]| < |JoinSpace(ws)| && JoinSpace(ws)[|ws[0]|] == ' '
  {
    if |ws| > 1 {
      var r := JoinSpace(ws);
      assert r == ws[0] + " " + JoinSpace(ws[1..]);
      assert r[..|ws[0]|] == ws[0];
    }
  }

  /**
   * The shape `" ".join(s.split())` produces: every whitespace character is a
   * plain space with a non-whitespace character on each side.  Hence no
   * leading or trailing whitespace and no two whitespace characters in a row.
   */
  predicate Collapsed(s: string)
  {
    && (forall k | 0 <= k < |s| && IsSpace(s[k]) :: s[k] == ' ' && 0 < k < |s| - 1)
    && (forall j, k | 0 <= j < k < |s| && IsSpace(s[j]) && IsSpace(s[k]) :: j + 1 < k)
  }

  /** The non-whitespace characters of `s`, in order. */
  function NonSpace(s: string): (r: string)
    ensures |r| <= |s|
  {
    if s == [] then [] else (if IsSpace(s[0]) then [] else [s[0]]) + NonSpace(s[1..])
  }

  /** A non-whitespace character occurs in `NonSpace(s)` exactly when it occurs in `s`. */
  lemma {:induction false} NonSpaceMembers(s: string)
    ensures forall x :: x in NonSpace(s) <==> x in s && !IsSpace(x)
    decreases |s|
  {
    if s != [] {
      NonSpaceMembers(s[1..]);
      assert s == [s[0]] + s[1..];
    }
  }

  /** A collapsed string neither starts nor ends with whitespace. */
  lemma CollapsedEnds(s: string)
    requires Collapsed(s) && s != []
    ensures !IsSpace(s[0]) && !IsSpace(s[|s| - 1])
  {
  }

  function Concat(ws: seq<string>): string
  {
    if ws == [] then [] else ws[0] + Concat(ws[1..])
  }

  lemma {:induction false} NonSpaceAppend(a: string, b: string)
    ensures NonSpace(a + b) == NonSpace(a) + NonSpace(b)
    decreases |a|
  {
    if a != [] {
      assert (a + b)[0] == a[0];
      assert (a + b)[1..] == a[1..] + b;
      NonSpaceAppend(a[1..], b);
      var h := if IsSpace(a[0]) then [] else [a[0]];
      assert NonSpace(a + b) == h + NonSpace(a[1..] + b);
      assert NonSpace(a) == h + NonSpace(a[1..]);
      assert h + (NonSpace(a[1..]) + NonSpace(b)) == (h + NonSpace(a[1..])) + NonSpace(b);
    } else {
      assert a + b == b;
    }
  }

  lemma {:induction false} NonSpaceOfNoSpace(s: string)
    requires NoSpace(s)
    ensures NonSpace(s) == s
    decreases |s|
  {
    if s != [] {
      NonSpaceOfNoSpace(s[1..]);
    }
  }

  lemma {:induction false} NonSpaceOfSpaces(s: string)
    requires forall k | 0 <= k < |s| :: IsSpace(s[k])
    ensures NonSpace(s) == []
    decreases |s|
  {
    if s != [] {
      NonSpaceOfSpaces(s[1..]);
    }
  }

  lemma {:induction false} JoinSpaceKeepsWords(ws: seq<string>)
    requires forall k | 0 <= k < |ws| :: NoSpace(ws[k])
    ensures NonSpace(JoinSpace(ws)) == Concat(ws)
    decreases |ws|
  {
    if |ws| == 1 {
      NonSpaceOfNoSpace(ws[0]);
      assert Concat(ws[1..]) == [];
    } else if |ws| > 1 {
      var rest := JoinSpace(ws[1..]);
      JoinSpaceKeepsWords(ws[1..]);
      NonSpaceAppend(ws[0] + " ", rest);
      NonSpaceAppend(ws[0], " ");
      NonSpaceOfNoSpace(ws[0]);
      assert NonSpace(" ") == [];
    }
  }

  /** Leading whitespace holds no non-whitespace character. */
  lemma NonSpaceOfTrimLeft(s: string)
    ensures NonSpace(TrimLeft(s)) == NonSpace(s)
  {
    var t := TrimLeft(s);
    var p := s[..|s| - |t|];
    NonSpaceOfSpaces(p);
    assert s == p + t;
    NonSpaceAppend(p, t);
  }

  /** The non-whitespace characters of a text are those of its first word, then those of the rest. */
  lemma NonSpaceOfFirstWord(t: string)
    ensures NonSpace(t) == TakeWord(t) + NonSpace(t[|TakeWord(t)|..])
  {
    var w := TakeWord(t);
    assert t == w + t[|w|..];
    NonSpaceAppend(w, t[|w|..]);
    NonSpaceOfNoSpace(w);
  }

  lemma {:induction false} WordsKeepNonSpace(s: string)
    ensures Concat(Words(s)) == NonSpace(s)
    decreases |s|
  {
    var t := TrimLeft(s);
    NonSpaceOfTrimLeft(s);
    if t != [] {
      var w := TakeWord(t);
      var rest := t[|w|..];
      NonSpaceOfFirstWord(t);
      WordsKeepNonSpace(rest);
      assert Words(s) == [w] + Words(rest);
      assert Concat(Words(s)) == w + Concat(Words(rest));
    }
  }

  lemma {:induction false} JoinSpaceCollapsed(ws: seq<string>)
    requires forall k | 0 <= k < |ws| :: ws[k] != [] && NoSpace(ws[k])
    ensures Collapsed(JoinSpace(ws))
    decreases |ws|
  {
    if |ws| > 1 {
      var rest := JoinSpace(ws[1..]);
      JoinSpaceCollapsed(ws[1..]);
      var r := ws[0] + " " + rest;
      assert r == JoinSpace(ws);
      assert forall k | 0 <= k < |ws[0]| :: r[k] == ws[0][k];
      assert forall k | |ws[0]| < k < |r| :: r[k] == rest[k - |ws[0]| - 1];
      assert r[|ws[0]|] == ' ';
      assert Collapsed(r);
    }
  }

  /** Python's `" ".join(s.split())`. */
  function CollapseSpaces(s: string): (r: string)
    ensures Collapsed(r)
    ensures Words(r) == Words(s)
    ensures NonSpace(r) == NonSpace(s)
  {
    var ws := Words(s);
    JoinSpaceCollapsed(ws);
    WordsOfJoinSpace(ws);
    JoinSpaceKeepsWords(ws);
    WordsKeepNonSpace(s);
    JoinSpace(ws)
  }

  lemma WordsStep(s: string)
    requires s != [] && !IsSpace(s[0])
    ensures Words(s) == [TakeWord(s)] + Words(s[|TakeWord(s)|..])
  {
    assert TrimLeft(s) == s;
  }

  lemma WordsAfterSpace(t: string)
    requires |t| > 1 && IsSpace(t[0]) && !IsSpace(t[1])
    ensures Words(t) == Words(t[1..])
  {
    assert TrimLeft(t) == TrimLeft(t[1..]) == t[1..];
  }

  /** A suffix of a collapsed string that starts on a non-whitespace character is collapsed. */
  lemma CollapsedSuffix(s: string, m: int)
    requires Collapsed(s) && 0 <= m < |s| && !IsSpace(s[m])
    ensures Collapsed(s[m..])
  {
    var t := s[m..];
    forall k | 0 <= k < |t| && IsSpace(t[k]) ensures t[k] == ' ' && 0 < k < |t| - 1 {
      assert t[k] == s[m + k];
    }
    forall j, k | 0 <= j < k < |t| && IsSpace(t[j]) && IsSpace(t[k]) ensures j + 1 < k {
      assert t[j] == s[m + j] && t[k] == s[m + k];
    }
  }

  /** A collapsed string that holds a space is a word, one space, and a collapsed rest. */
  lemma CollapsedSplit(s: string)
    requires Collapsed(s) && s != []
    requires |TakeWord(s)| < |s|
    ensures var n := |TakeWord(s)|;
      && n + 1 < |s| && s[n] == ' ' && !IsSpace(s[n + 1])
      && s == TakeWord(s) + " " + s[n + 1..]
      && Collapsed(s[n + 1..])
  {
    var w := TakeWord(s);
    var n := |w|;
    assert IsSpace(s[n]);
    assert n + 1 < |s|;
    assert !IsSpace(s[n + 1]);
    assert s == w + " " + s[n + 1..];
    CollapsedSuffix(s, n + 1);
  }

  lemma JoinSpaceCons(w: string, rest: seq<string>)
    requires rest != []
    ensures JoinSpace([w] + rest) == w + " " + JoinSpace(rest)
  {
    assert ([w] + rest)[1..] == rest;
  }

  /** The words of a collapsed string holding a space: its first word, then the words after that space. */
  lemma WordsOfCollapsedSplit(s: string)
    requires Collapsed(s) && s != []
    requires |TakeWord(s)| < |s|
    ensures var n := |TakeWord(s)|;
      && n + 1 < |s| && Collapsed(s[n + 1..])
      && s == TakeWord(s) + " " + s[n + 1..]
      && Words(s) == [TakeWord(s)] + Words(s[n + 1..])
      && Words(s[n + 1..]) != []
  {
    var w := TakeWord(s);
    WordsStep(s);
    CollapsedSplit(s);
    var s' := s[|w| + 1..];
    assert s[|w|..][1..] == s';
    WordsAfterSpace(s[|w|..]);
    WordsStep(s');
  }

  /** A collapsed text is the space-join of its own words. */
  lemma {:induction false} JoinWordsOfCollapsed(s: string)
    requires Collapsed(s)
    ensures JoinSpace(Words(s)) == s
    decreases |s|
  {
    if s != [] {
      var w := TakeWord(s);
      if |w| < |s| {
        var s' := s[|w| + 1..];
        WordsOfCollapsedSplit(s);
        JoinWordsOfCollapsed(s');
        JoinSpaceCons(w, Words(s'));
        assert JoinSpace(Words(s)) == w + " " + JoinSpace(Words(s'));
      } else {
        WordsStep(s);
        assert s[|w|..] == [];
        assert Words(s) == [w];
      }
    }
  }

  /** Collapsing whitespace leaves an already collapsed string unchanged. */
  lemma CollapseOfCollapsed(s: string)
    requires Collapsed(s)
    ensures CollapseSpaces(s) == s
  {
    JoinWordsOfCollapsed(s);
  }

  /** A collapsed text with the same words as `s` is the collapse of `s`. */
  lemma CollapseSpacesUnique(s: string, r: string)
    requires Collapsed(r) && Words(r) == Words(s)
    ensures r == CollapseSpaces(s)
  {
    JoinWordsOfCollapsed(r);
  }

  /** `LeadingSpaces` is the only count its contract allows. */
  lemma LeadingSpacesUnique(s: string, n: int)
    requires 0 <= n <= |s| && (n == |s| || !IsSpace(s[n]))
    requires forall k | 0 <= k < n :: IsSpace(s[k])
    ensures LeadingSpaces(s) == n
  {
  }

  /** `WordLength` is the only count its contract allows. */
  lemma WordLengthUnique(s: string, n: int)
    requires 0 <= n <= |s| && (n == |s| || IsSpace(s[n]))
    requires forall k | 0 <= k < n :: !IsSpace(s[k])
    ensures WordLength(s) == n
  {
  }

  /** Whitespace in front of a text does not change its words. */
  lemma WordsAfterSpaces(a: string, y: string)
    requires forall k | 0 <= k < |a| :: IsSpace(a[k])
    ensures Words(a + y) == Words(y)
  {
    var i := LeadingSpaces(y);
    var s := a + y;
    assert forall k | 0 <= k < |a| + i :: IsSpace(s[k]) by {
      forall k | 0 <= k < |a| + i ensures IsSpace(s[k]) {
        if k >= |a| {
          assert s[k] == y[k - |a|];
        }
      }
    }
    assert |a| + i == |s| || s[|a| + i] == y[i];
    LeadingSpacesUnique(s, |a| + i);
    assert TrimLeft(s) == TrimLeft(y);
  }

  /** A text of whitespace only has no words. */
  lemma WordsOfSpaces(s: string)
    requires forall k | 0 <= k < |s| :: IsSpace(s[k])
    ensures Words(s) == []
  {
    LeadingSpacesUnique(s, |s|);
  }

  /** A word followed by whitespace ends where the word alone ends. */
  lemma TakeWordBeforeSpaces(t: string, b: string)
    requires forall k | 0 <= k < |b| :: IsSpace(b[k])
    ensures TakeWord(t + b) == TakeWord(t)
    ensures (t + b)[|TakeWord(t)|..] == t[|TakeWord(t)|..] + b
  {
    var s := t + b;
    var m := WordLength(t);
    assert forall k | 0 <= k < m :: s[k] == t[k];
    assert m == |s| || s[m] == (if m < |t| then t[m] else b[0]);
    WordLengthUnique(s, m);
    assert s == t[..m] + (t[m..] + b);
  }

  /** Whitespace after a text does not change its words. */
  lemma {:induction false} WordsBeforeSpaces(x: string, b: string)
    requires forall k | 0 <= k < |b| :: IsSpace(b[k])
    ensures Words(x + b) == Words(x)
    decreases |x|
  {
    var s := x + b;
    var i := LeadingSpaces(x);
    if i == |x| {
      assert forall k | 0 <= k < |s| :: IsSpace(s[k]) by {
        forall k | 0 <= k < |s| ensures IsSpace(s[k]) {
          if k >= |x| {
            assert s[k] == b[k - |x|];
          }
        }
      }
      WordsOfSpaces(s);
      WordsOfSpaces(x);
    } else {
      var a, t := x[..i], x[i..];
      assert x == a + t && s == a + (t + b);
      WordsAfterSpaces(a, t);
      WordsAfterSpaces(a, t + b);
      var w := TakeWord(t);
      TakeWordBeforeSpaces(t, b);
      WordsStep(t);
      WordsStep(t + b);
      WordsBeforeSpaces(t[|w|..], b);
    }
  }

  /** The first word of a word followed by nothing or by whitespace is that word. */
  lemma TakeWordOfWord(w: string, t: string)
    requires NoSpace(w) && (t == [] || IsSpace(t[0]))
    ensures TakeWord(w + t) == w
  {
    var s := w + t;
    assert forall k | 0 <= k < |w| :: s[k] == w[k];
    assert |w| == |s| || s[|w|] == t[0];
    WordLengthUnique(s, |w|);
  }

  /** A single word splits into itself. */
  lemma WordsOfWord(w: string)
    requires w != [] && NoSpace(w)
    ensures Words(w) == [w]
  {
    TakeWordOfWord(w, []);
    assert w + [] == w;
    WordsStep(w);
    assert w[|w|..] == [];
    assert Words([]) == [];
  }

  /** A word, one space, and a text starting on a non-space: the word, then the text's words. */
  lemma WordsOfWordThenSpace(w: string, rest: string)
    requires w != [] && NoSpace(w)
    requires rest != [] && !IsSpace(rest[0])
    ensures Words(w + " " + rest) == [w] + Words(rest)
  {
    var t := " " + rest;
    var s := w + t;
    assert s == w + " " + rest;
    TakeWordOfWord(w, t);
    WordsStep(s);
    assert s[|w|..] == t;
    assert Words(s) == [w] + Words(t);
    WordsAfterSpace(t);
    assert t[1..] == rest;
  }

  /** Whitespace on either side of a text does not change its words. */
  lemma PaddedWords(a: string, x: string, b: string)
    requires forall k | 0 <= k < |a| :: IsSpace(a[k])
    requires forall k | 0 <= k < |b| :: IsSpace(b[k])
    ensures Words(a + x + b) == Words(x)
  {
    assert a + x + b == a + (x + b);
    WordsAfterSpaces(a, x + b);
    WordsBeforeSpaces(x, b);
  }

  /** Splitting space-joined words gives the words back. */
  lemma {:induction false} WordsOfJoinSpace(ws: seq<string>)
    requires AllWords(ws)
    ensures Words(JoinSpace(ws)) == ws
    decreases |ws|
  {
    if |ws| == 1 {
      WordsOfWord(ws[0]);
    } else if |ws| > 1 {
      AllWordsTail(ws);
      WordsOfJoinSpace(ws[1..]);
      WordsOfJoinStep(ws);
    }
  }

  lemma AllWordsTail(ws: seq<string>)
    requires AllWords(ws) && ws != []
    ensures AllWords(ws[1..])
  {
    var tail := ws[1..];
    forall k | 0 <= k < |tail| ensures tail[k] != [] && NoSpace(tail[k]) {
      assert tail[k] == ws[k + 1];
    }
  }

  /** One step of `WordsOfJoinSpace`: a word, a space, then words that split back. */
  lemma WordsOfJoinStep(ws: seq<string>)
    requires AllWords(ws) && |ws| > 1
    requires Words(JoinSpace(ws[1..])) == ws[1..]
    ensures Words(JoinSpace(ws)) == ws
  {
    var w, tail := ws[0], ws[1..];
    assert ws == [w] + tail;
    assert w != [] && NoSpace(w);
    assert tail[0] == ws[1];
    var j := JoinSpace(tail);
    assert j != [] && j[0] == tail[0][0];
    JoinSpaceCons(w, tail);
    WordsOfWordThenSpace(w, j);
    calc {
      Words(JoinSpace(ws));
      Words(w + " " + j);
      [w] + Words(j);
    }
  }

  // ---------------------------------------------------------------------------
  // int(s) and str(n)
  // ---------------------------------------------------------------------------

  predicate IsDigit(c: char)
  {
    '0' <= c <= '9'
  }

  function DigitValue(c: char): (d: nat)
    requires IsDigit(c)
    ensures d < 10
  {
    c as int - '0' as int
  }

  function DigitChar(d: nat): (c: char)
    requires d < 10
    ensures IsDigit(c) && DigitValue(c) == d
  {
    ('0' as int + d) as char
  }

  /**
   * The digit strings Python's `int()` accepts after the sign: ASCII digits, with
   * single underscores allowed between two digits.
   */
  predicate ValidDigits(d: string)
  {
    && d != []
    && IsDigit(d[0])
    && forall k | 0 <= k < |d| :: IsDigit(d[k]) || (d[k] == '_' && k + 1 < |d| && IsDigit(d[k + 1]))
  }

  /** The decimal value of the digits in `d`, underscores ignored. */
  function DecimalValue(d: string): nat
  {
    if d == [] then 0
    else if IsDigit(d[|d| - 1]) then 10 * DecimalValue(d[..|d| - 1]) + DigitValue(d[|d| - 1])
    else DecimalValue(d[..|d| - 1])
  }

  /**
   * The whitespace `int()` skips around a number.  CPython first turns every
   * non-ASCII `isspace()` character into a plain space, then skips only the
   * ASCII space and `\t`..`\r`: the separators U+001C..U+001F, although
   * `isspace()` holds for them, are not skipped.
   */
  predicate IsIntSpace(c: char)
  {
    IsSpace(c) && !('\U{1C}' <= c <= '\U{1F}')
  }

  /** The number of characters `int()` skips at the start of `s`. */
  function IntLeading(s: string): (n: nat)
    ensures n <= |s| && (n == |s| || !IsIntSpace(s[n]))
    ensures forall k | 0 <= k < n :: IsIntSpace(s[k])
    decreases |s|
  {
    if s != [] && IsIntSpace(s[0]) then
      var n := 1 + IntLeading(s[1..]);
      assert forall k | 1 <= k < |s| :: s[k] == s[1..][k - 1];
      n
    else 0
  }

  /** The number of characters `int()` skips at the end of `s`. */
  function IntTrailing(s: string): (n: nat)
    ensures n <= |s| && (n == |s| || !IsIntSpace(s[|s| - n - 1]))
    ensures forall k | |s| - n <= k < |s| :: IsIntSpace(s[k])
    decreases |s|
  {
    if s != [] && IsIntSpace(s[|s| - 1]) then
      var n := 1 + IntTrailing(s[..|s| - 1]);
      assert forall k | 0 <= k < |s| - 1 :: s[k] == s[..|s| - 1][k];
      n
    else 0
  }

  /** `s` without the whitespace `int()` skips at either end. */
  function IntStrip(s: string): (r: string)
    ensures r == [] || (!IsIntSpace(r[0]) && !IsIntSpace(r[|r| - 1]))
    ensures IntLeading(s) + |r| <= |s| && r == s[IntLeading(s)..IntLeading(s) + |r|]
    ensures forall k | IntLeading(s) + |r| <= k < |s| :: IsIntSpace(s[k])
  {
    var i := IntLeading(s);
    if i == |s| then [] else s[i..|s| - IntTrailing(s)]
  }

  lemma IntStripOfTrimmed(s: string)
    requires s == [] || (!IsIntSpace(s[0]) && !IsIntSpace(s[|s| - 1]))
    ensures IntStrip(s) == s
  {
  }

  /**
   * CPython's default limit on the number of digits `int()` and `str()`
   * convert between text and integers (`sys.int_info.default_max_str_digits`);
   * beyond it both raise `ValueError`.
   */
  const MaxStrDigits: nat := 4300

  /** The number of digits in `d`, underscores not counted. */
  function DigitCount(d: string): (n: nat)
    ensures n <= |d|
  {
    if d == [] then 0
    else DigitCount(d[..|d| - 1]) + (if IsDigit(d[|d| - 1]) then 1 else 0)
  }

  /** A digit string `int()` converts: well formed and within the digit limit. */
  predicate Numeral(d: string)
  {
    ValidDigits(d) && DigitCount(d) <= MaxStrDigits
  }

  /** An optional sign followed by a digit string `int()` converts. */
  predicate SignedNumeral(t: string)
  {
    Numeral(t) || (|t| > 0 && (t[0] == '+' || t[0] == '-') && Numeral(t[1..]))
  }

  /**
   * Python's `int(s)` on a string: the whitespace `int()` skips is ignored at
   * both ends, and what remains must be an optional sign and a digit string
   * within the digit limit.  Any other text is the `ValueError` case, here
   * `None`.
   */
  function PyInt(s: string): (r: Option<int>)
    ensures r.Some? <==> SignedNumeral(IntStrip(s))
    ensures Numeral(IntStrip(s)) ==> r == Some(DecimalValue(IntStrip(s)))
    ensures var t := IntStrip(s);
      |t| > 0 && t[0] == '+' && Numeral(t[1..]) ==> r == Some(DecimalValue(t[1..]))
    ensures var t := IntStrip(s);
      |t| > 0 && t[0] == '-' && Numeral(t[1..]) ==> r == Some(-(DecimalValue(t[1..]) as int))
  {
    var t := IntStrip(s);
    if t != [] && (t[0] == '+' || t[0] == '-') then
      var d := t[1..];
      if Numeral(d) then Some(if t[0] == '-' then -(DecimalValue(d) as int) else DecimalValue(d)) else None
    else if Numeral(t) then Some(DecimalValue(t))
    else None
  }

  /** The decimal digits of `n`, most significant first, without leading zeros. */
  function NatDigits(n: nat): (d: string)
    ensures d != [] && forall k | 0 <= k < |d| :: IsDigit(d[k])
    decreases n
  {
    if n < 10 then [DigitChar(n)] else NatDigits(n / 10) + [DigitChar(n % 10)]
  }

  /** Python's `str(n)` on an integer. */
  function PyStr(n: int): (s: string)
    ensures s != [] && (s[0] == '-' || IsDigit(s[0]))
  {
    if n < 0 then "-" + NatDigits(-n) else NatDigits(n)
  }

  /** `str(n)` stays within the digit limit, so that it does not raise. */
  predicate WithinStrLimit(n: int)
  {
    |NatDigits(if n < 0 then -n else n)| <= MaxStrDigits
  }

  lemma {:induction false} DecimalValueOfDigits(n: nat)
    ensures DecimalValue(NatDigits(n)) == n
    decreases n
  {
    var d := NatDigits(n);
    if n >= 10 {
      DecimalValueOfDigits(n / 10);
      assert d[..|d| - 1] == NatDigits(n / 10);
    }
  }

  /** The digits of a natural number are a valid digit string with that value. */
  lemma NatDigitsValid(n: nat)
    ensures ValidDigits(NatDigits(n)) && DecimalValue(NatDigits(n)) == n
  {
    DecimalValueOfDigits(n);
  }

  /** Only digits are counted, so a string of digits counts its length. */
  lemma {:induction false} DigitCountOfDigits(d: string)
    requires forall k | 0 <= k < |d| :: IsDigit(d[k])
    ensures DigitCount(d) == |d|
    decreases |d|
  {
    if d != [] {
      DigitCountOfDigits(d[..|d| - 1]);
    }
  }

  /** `str(n)` has no whitespace for `int()` to skip. */
  lemma PyStrStripped(n: int)
    ensures IntStrip(PyStr(n)) == PyStr(n)
  {
    var s := PyStr(n);
    assert IsDigit(s[|s| - 1]);
    IntStripOfTrimmed(s);
  }

  /** `int()` reads an unsigned digit string within the limit as its value. */
  lemma PyIntOfDigits(d: string)
    requires IntStrip(d) == d && Numeral(d)
    ensures PyInt(d) == Some(DecimalValue(d))
  {
  }

  /** `int()` reads `-` and a digit string within the limit as the value's negation. */
  lemma PyIntOfNegated(s: string, d: string)
    requires IntStrip(s) == s && |s| > 0 && s[0] == '-' && s[1..] == d && Numeral(d)
    ensures PyInt(s) == Some(-(DecimalValue(d) as int))
  {
  }

  /**
   * `int(str(n)) == n`: the integer text round-trips through Python's `int()`,
   * for every `n` whose `str()` does not raise.
   */
  lemma PyIntOfPyStr(n: int)
    requires WithinStrLimit(n)
    ensures PyInt(PyStr(n)) == Some(n)
  {
    var s := PyStr(n);
    var m := if n < 0 then -n else n;
    PyStrStripped(n);
    NatDigitsValid(m);
    DigitCountOfDigits(NatDigits(m));
    if n < 0 {
      assert s[1..] == NatDigits(m);
      PyIntOfNegated(s, NatDigits(m));
    } else {
      PyIntOfDigits(s);
    }
  }

  /** `int()` skips the ASCII whitespace and the non-ASCII spaces around a number. */
  lemma PyIntSkipsSpaces()
    ensures PyInt(" 5\t") == Some(5)
    ensures PyInt("\U{3000}5") == Some(5)
  {
    assert IntStrip(" 5\t") == "5";
    assert IntStrip("\U{3000}5") == "5";
  }

  /**
   * `int()` does not skip the separator U+001C, although `isspace()` holds
   * for it and `strip()` removes it.
   */
  lemma PyIntRejectsSeparator()
    ensures PyInt("\U{1C}5") == None
    ensures Strip("\U{1C}5") == "5"
  {
    assert IntStrip("\U{1C}5") == "\U{1C}5";
  }
}
