/**
 * The pure helpers of the spreadsheet import (routes/import_excel_routes.py):
 * the text normalisation used on both sides of every comparison, the guard of
 * the fuzzy comparison, the detection of three-row project blocks, and the
 * choice of the business value (`valeur_metier` row) a column is linked to.
 *
 * `difflib.SequenceMatcher(None, a, b).ratio()` is a parameter `ratio`.
 */
module ImportExcel {
  import opened Common
  import opened Text

  // ---------------------------------------------------------------------------
  // normalize_text
  // ---------------------------------------------------------------------------

  /** Python's `s.replace(c, with)` for a one-character pattern: every `c` becomes `with`. */
  function Replace(s: string, c: char, with: string): (r: string)
    ensures |s| == 1 ==> r == if s[0] == c then with else s
    ensures forall x :: x in r <==> (x in s && x != c) || (c in s && x in with)
  {
    if s == [] then []
    else
      assert s == [s[0]] + s[1..];
      (if s[0] == c then with else [s[0]]) + Replace(s[1..], c, with)
  }

  /** Replacing a character that does not occur leaves the text unchanged. */
  lemma {:induction false} ReplaceAbsent(s: string, c: char, with: string)
    requires c !in s
    ensures Replace(s, c, with) == s
  {
    if s != [] {
      assert s == [s[0]] + s[1..];
      ReplaceAbsent(s[1..], c, with);
    }
  }

  /** Replacing in two joined texts is replacing in each and joining the results. */
  lemma {:induction false} ReplaceAppend(a: string, b: string, c: char, with: string)
    ensures Replace(a + b, c, with) == Replace(a, c, with) + Replace(b, c, with)
    decreases |a|
  {
    if a == [] {
      assert a + b == b;
    } else {
      assert (a + b)[0] == a[0] && (a + b)[1..] == a[1..] + b;
      ReplaceAppend(a[1..], b, c, with);
      var h := if a[0] == c then with else [a[0]];
      assert Replace(a + b, c, with) == h + (Replace(a[1..], c, with) + Replace(b, c, with));
    }
  }

  /** Replacing in a one-character text that does not hold `c` changes nothing. */
  lemma ReplaceOther(s: string, c: char, with: string)
    requires |s| == 1 && s[0] != c
    ensures Replace(s, c, with) == s
  {
  }

  /** The replacement chain on one character. */
  lemma ChainOfOne(s: string)
    ensures var r := Replace(Replace(Replace(Replace(s, '_', " "), '-', " "), '’', "'"), 'œ', "oe");
      |s| == 1 ==>
      && ((s[0] == '_' || s[0] == '-') ==> r == " ")
      && (s[0] == '’' ==> r == "'")
      && (s[0] == 'œ' ==> r == "oe")
      && (s[0] !in "_-’œ" ==> r == s)
  {
    if |s| != 1 {
      return;
    }
    var a := Replace(s, '_', " ");
    var b := Replace(a, '-', " ");
    var c := Replace(b, '’', "'");
    if s[0] == '_' || s[0] == '-' {
      assert b == " ";
      ReplaceOther(b, '’', "'");
      ReplaceOther(c, 'œ', "oe");
    } else if s[0] == '’' {
      ReplaceOther(s, '_', " ");
      ReplaceOther(a, '-', " ");
      assert c == "'";
      ReplaceOther(c, 'œ', "oe");
    } else if s[0] == 'œ' {
      ReplaceOther(s, '_', " ");
      ReplaceOther(a, '-', " ");
      ReplaceOther(b, '’', "'");
    } else {
      ReplaceOther(s, '_', " ");
      ReplaceOther(a, '-', " ");
      ReplaceOther(b, '’', "'");
      ReplaceOther(c, 'œ', "oe");
    }
  }

  /** The replacement chain leaves none of the four characters. */
  lemma ChainDropsSpecial(s: string)
    ensures var r := Replace(Replace(Replace(Replace(s, '_', " "), '-', " "), '’', "'"), 'œ', "oe");
      '_' !in r && '-' !in r && '’' !in r && 'œ' !in r
  {
    var a := Replace(s, '_', " ");
    assert '_' !in a;
    var b := Replace(a, '-', " ");
    assert '_' !in b && '-' !in b;
    var c := Replace(b, '’', "'");
    assert '_' !in c && '-' !in c && '’' !in c;
    var d := Replace(c, 'œ', "oe");
    assert '_' !in d && '-' !in d && '’' !in d && 'œ' !in d;
  }

  /**
   * The four replacements, in the order the source applies them.  On one
   * character they act as a table; with `ReplacementsAppend` this fixes the
   * result character by character.
   */
  function Replacements(s: string): (r: string)
    ensures |s| == 1 && (s[0] == '_' || s[0] == '-') ==> r == " "
    ensures |s| == 1 && s[0] == '’' ==> r == "'"
    ensures |s| == 1 && s[0] == 'œ' ==> r == "oe"
    ensures |s| == 1 && s[0] !in "_-’œ" ==> r == s
    ensures '_' !in r && '-' !in r && '’' !in r && 'œ' !in r
  {
    ChainOfOne(s);
    ChainDropsSpecial(s);
    Replace(Replace(Replace(Replace(s, '_', " "), '-', " "), '’', "'"), 'œ', "oe")
  }

  /** The four replacements also work piece by piece. */
  lemma ReplacementsAppend(a: string, b: string)
    ensures Replacements(a + b) == Replacements(a) + Replacements(b)
  {
    var a1, b1 := Replace(a, '_', " "), Replace(b, '_', " ");
    var a2, b2 := Replace(a1, '-', " "), Replace(b1, '-', " ");
    var a3, b3 := Replace(a2, '’', "'"), Replace(b2, '’', "'");
    ReplaceAppend(a, b, '_', " ");
    ReplaceAppend(a1, b1, '-', " ");
    ReplaceAppend(a2, b2, '’', "'");
    ReplaceAppend(a3, b3, 'œ', "oe");
  }

  /** The characters the replacements remove or may introduce. */
  const Special: string := "_-’œ'oe"

  /** After the replacements every other character is kept or dropped as it was. */
  lemma ReplacementsMembers(s: string)
    ensures forall x | x !in Special && x != ' ' :: x in Replacements(s) <==> x in s
    ensures forall x | x in Replacements(s) :: x in s || x in Special || x == ' '
  {
  }

  /** Text holding none of the replaced characters is left as it is. */
  lemma ReplacementsOfClean(s: string)
    requires '_' !in s && '-' !in s && '’' !in s && 'œ' !in s
    ensures Replacements(s) == s
  {
    ReplaceAbsent(s, '_', " ");
    ReplaceAbsent(s, '-', " ");
    ReplaceAbsent(s, '’', "'");
    ReplaceAbsent(s, 'œ', "oe");
  }

  /** No ASCII capital letter occurs in `s`. */
  predicate NoUpper(s: string)
  {
    forall x | x in s :: !IsUpper(x)
  }

  /**
   * `normalize_text`: `None` and the text `nan` in any case become empty;
   * otherwise the stripped text is lower-cased, `_` and `-` become spaces,
   * `’` becomes `'`, `œ` becomes `oe`, and runs of whitespace collapse to
   * single spaces.  Accent stripping (NFD, then dropping combining marks) is
   * the identity here, which it is on ASCII text.
   */
  function NormalizeText(text: Option<string>): (r: string)
    ensures text.None? ==> r == ""
    ensures text.Some? && Lower(Strip(text.value)) == "nan" ==> r == ""
    ensures '_' !in r && '-' !in r && '’' !in r && 'œ' !in r
    ensures Collapsed(r) && NoUpper(r)
    ensures text.Some? && Lower(Strip(text.value)) != "nan" ==>
              forall x | !IsSpace(x) && x !in Special :: x in r <==> x in Lower(text.value)
    ensures text.Some? && Lower(Strip(text.value)) != "nan" ==>
              Words(r) == Words(Replacements(Lower(text.value)))
  {
    match text
    case None => ""
    case Some(s) =>
      var t := Strip(s);
      if Lower(t) == "nan" then ""
      else
        var u := Replacements(Lower(t));
        var r := CollapseSpaces(u);
        NormalizedShape(s, u, r);
        NormalizedWords(s);
        r
  }

  /** Lower-casing commutes with slicing. */
  lemma LowerSlice(s: string, a: int, b: int)
    requires 0 <= a <= b <= |s|
    ensures Lower(s[a..b]) == Lower(s)[a..b]
  {
  }

  /** A slice that leaves out only whitespace holds every other character of the whole. */
  lemma SliceMembers(s: string, a: int, b: int)
    requires 0 <= a <= b <= |s|
    requires forall k | 0 <= k < a || b <= k < |s| :: IsSpace(s[k])
    ensures forall x | !IsSpace(x) :: x in s[a..b] <==> x in s
  {
    forall x | !IsSpace(x) && x in s ensures x in s[a..b] {
      var j :| 0 <= j < |s| && s[j] == x;
      assert s[a..b][j - a] == x;
    }
  }

  lemma LowerOfSpaces(s: string, a: int, b: int)
    requires 0 <= a <= b <= |s|
    requires forall k | 0 <= k < a || b <= k < |s| :: IsSpace(s[k])
    ensures forall x | !IsSpace(x) :: x in Lower(s[a..b]) <==> x in Lower(s)
  {
    LowerSlice(s, a, b);
    var ls := Lower(s);
    forall k | 0 <= k < a || b <= k < |s| ensures IsSpace(ls[k]) {
      assert IsSpace(s[k]);
    }
    SliceMembers(ls, a, b);
  }

  /** Stripping drops only whitespace, so it keeps every other character of the lowered text. */
  lemma LowerStripMembers(s: string)
    ensures forall x | !IsSpace(x) :: x in Lower(Strip(s)) <==> x in Lower(s)
  {
    var t, a := Strip(s), LeadingSpaces(s);
    var b := a + |t|;
    assert t == s[a..b];
    assert forall k | 0 <= k < a || b <= k < |s| :: IsSpace(s[k]);
    LowerOfSpaces(s, a, b);
  }

  /** Lower-cased text holds no capital letter. */
  lemma LowerNoUpper(t: string)
    ensures NoUpper(Lower(t))
  {
    forall x | x in Lower(t) ensures !IsUpper(x) {
      var j :| 0 <= j < |t| && Lower(t)[j] == x;
    }
  }

  /** Collapsing whitespace keeps the other characters and introduces no new ones. */
  lemma CollapseMembers(u: string)
    ensures forall x | !IsSpace(x) :: x in CollapseSpaces(u) <==> x in u
    ensures forall x | x in CollapseSpaces(u) :: IsSpace(x) || x in u
  {
    NonSpaceMembers(u);
    NonSpaceMembers(CollapseSpaces(u));
  }

  /** The characters the replacements touch are neither whitespace nor capitals. */
  lemma SpecialChars()
    ensures forall x | x in Special :: !IsSpace(x) && !IsUpper(x)
    ensures Special == ['_', '-', '’', 'œ', '\'', 'o', 'e']
  {
  }

  /** The facts behind `NormalizeText`'s contract, for the non-`nan` branch. */
  lemma NormalizedShape(s: string, u: string, r: string)
    requires u == Replacements(Lower(Strip(s))) && r == CollapseSpaces(u)
    ensures '_' !in r && '-' !in r && '’' !in r && 'œ' !in r
    ensures NoUpper(r)
    ensures forall x | !IsSpace(x) && x !in Special :: x in r <==> x in Lower(s)
  {
    var l := Lower(Strip(s));
    SpecialChars();
    CollapseMembers(u);
    ReplacementsMembers(l);
    LowerNoUpper(Strip(s));
    forall x | x in r ensures !IsUpper(x) {
      assert IsSpace(x) || x in u;
      if x in u {
        assert x in l || x in Special || x == ' ';
      }
    }
    LowerStripMembers(s);
  }

  /** Whitespace is neither a capital nor one of the replaced characters, so both steps keep it. */
  lemma SpacesKept(a: string)
    requires forall k | 0 <= k < |a| :: IsSpace(a[k])
    ensures Replacements(Lower(a)) == a
  {
    LowerOfLower(a);
    assert forall x | x in a :: IsSpace(x);
    ReplacementsOfClean(a);
  }

  /** Lower-casing and the replacements keep whitespace padding in place. */
  lemma NormalizedPadded(a: string, t: string, b: string)
    requires forall k | 0 <= k < |a| :: IsSpace(a[k])
    requires forall k | 0 <= k < |b| :: IsSpace(b[k])
    ensures Replacements(Lower(a + t + b)) == a + Replacements(Lower(t)) + b
  {
    assert Lower(a + t + b) == Lower(a) + Lower(t) + Lower(b);
    ReplacementsAppend(Lower(a) + Lower(t), Lower(b));
    ReplacementsAppend(Lower(a), Lower(t));
    SpacesKept(a);
    SpacesKept(b);
  }

  /**
   * Stripping before lower-casing and replacing does not change the words:
   * the stripped ends are whitespace and stay whitespace.
   */
  lemma NormalizedWords(s: string)
    ensures Words(Replacements(Lower(Strip(s)))) == Words(Replacements(Lower(s)))
  {
    var a, t, b := StripSplit(s);
    NormalizedPadded(a, t, b);
    PaddedWords(a, Replacements(Lower(t)), b);
  }

  /**
   * For text without the four replaced characters, normalising keeps the
   * words of the lower-cased text: the same words in the same order.
   */
  lemma NormalizeKeepsWords(s: string)
    requires '_' !in s && '-' !in s && '’' !in s && 'œ' !in s
    requires Lower(Strip(s)) != "nan"
    ensures Words(NormalizeText(Some(s))) == Words(Lower(s))
  {
    var l := Lower(s);
    assert '_' !in l && '-' !in l && '’' !in l && 'œ' !in l by {
      forall k | 0 <= k < |l| ensures l[k] != '_' && l[k] != '-' && l[k] != '’' && l[k] != 'œ' {
        assert s[k] in s;
      }
    }
    ReplacementsOfClean(l);
  }

  /** Collapsed text has nothing to strip. */
  lemma StripCollapsed(r: string)
    requires Collapsed(r)
    ensures Strip(r) == r
  {
    if r != [] {
      CollapsedEnds(r);
    }
    StripOfTrimmed(r);
  }

  /** Text without capitals is its own lower case. */
  lemma LowerNoCapitals(r: string)
    requires NoUpper(r)
    ensures Lower(r) == r
  {
    assert forall k | 0 <= k < |r| :: r[k] in r;
    LowerOfLower(r);
  }

  /** Text already in normal form normalises to itself, unless it reads `nan`. */
  lemma NormalizeClean(r: string)
    requires Collapsed(r) && NoUpper(r)
    requires '_' !in r && '-' !in r && '’' !in r && 'œ' !in r
    ensures NormalizeText(Some(r)) == if r == "nan" then "" else r
  {
    StripCollapsed(r);
    LowerNoCapitals(r);
    if r != "nan" {
      ReplacementsOfClean(r);
      CollapseOfCollapsed(r);
    }
  }

  /**
   * Normalising a normalised text changes nothing, except that a result
   * reading `nan` is then emptied.
   */
  lemma NormalizeAgain(text: Option<string>)
    ensures var r := NormalizeText(text);
      NormalizeText(Some(r)) == if r == "nan" then "" else r
  {
    NormalizeClean(NormalizeText(text));
  }

  lemma ReplaceUnderscoreOfNan()
    ensures Replace("nan_", '_', " ") == "nan "
  {
    assert Replace("_", '_', " ") == " ";
    assert Replace("n_", '_', " ") == "n ";
    assert Replace("an_", '_', " ") == "an ";
  }

  lemma NanSpaceHasNoSpecial()
    ensures '-' !in "nan " && '’' !in "nan " && 'œ' !in "nan "
  {
  }

  lemma ReplacementsOfNanUnderscore()
    ensures Replacements("nan_") == "nan "
  {
    var u := "nan ";
    ReplaceUnderscoreOfNan();
    NanSpaceHasNoSpecial();
    ReplaceAbsent(u, '-', " ");
    ReplaceAbsent(u, '’', "'");
    ReplaceAbsent(u, 'œ', "oe");
  }

  lemma WordsOfSpace()
    ensures Words(" ") == []
  {
    assert TrimLeft(" ") == [];
  }

  lemma TakeWordOfNanSpace()
    ensures TakeWord("nan ") == "nan"
  {
    assert WordLength(" ") == 0;
    assert WordLength("n ") == 1;
    assert WordLength("an ") == 2;
  }

  lemma WordsOfNanSpace()
    ensures Words("nan ") == ["nan"]
  {
    var u := "nan ";
    assert TrimLeft(u) == u;
    TakeWordOfNanSpace();
    assert u[3..] == " ";
    WordsOfSpace();
  }

  lemma CollapseOfNanSpace()
    ensures CollapseSpaces("nan ") == "nan"
  {
    WordsOfNanSpace();
  }

  /** The text `nan` normalises to the empty text. */
  lemma NanEmptied()
    ensures NormalizeText(Some("nan")) == ""
  {
    StripOfTrimmed("nan");
    LowerOfLower("nan");
  }

  /** Outside the `nan` case, normalising is stripping, lower-casing, replacing and collapsing. */
  lemma NormalizeSteps(s: string)
    requires Lower(Strip(s)) != "nan"
    ensures NormalizeText(Some(s)) == CollapseSpaces(Replacements(Lower(Strip(s))))
  {
  }

  /** `nan_` normalises to `nan`. */
  lemma NanUnderscoreNormalized()
    ensures NormalizeText(Some("nan_")) == "nan"
  {
    StripOfTrimmed("nan_");
    LowerOfLower("nan_");
    assert Lower(Strip("nan_")) == "nan_" != "nan";
    NormalizeSteps("nan_");
    ReplacementsOfNanUnderscore();
    CollapseOfNanSpace();
  }

  /** The exception is reachable: `nan_` normalises to `nan`, which normalises to the empty text. */
  lemma NanSurvivesOnce()
    ensures NormalizeText(Some("nan_")) == "nan"
    ensures NormalizeText(Some("nan")) == ""
  {
    NanUnderscoreNormalized();
    NanEmptied();
  }

  // ---------------------------------------------------------------------------
  // similar
  // ---------------------------------------------------------------------------

  /** The default threshold of `similar`. */
  const Seuil: real := 0.9

  /** `similar(a, b, seuil)`: false when either text is empty, otherwise the ratio reaches the threshold. */
  function Similar(ratio: (string, string) -> real, a: string, b: string, seuil: real): (r: bool)
    ensures a == [] || b == [] ==> !r
    ensures r ==> ratio(a, b) >= seuil
    ensures a != [] && b != [] && ratio(a, b) >= seuil ==> r
  {
    a != [] && b != [] && ratio(a, b) >= seuil
  }

  // ---------------------------------------------------------------------------
  // Project blocks: one project is three rows
  // ---------------------------------------------------------------------------

  /** The rows [lo, hi) of the sheet that make up one project. */
  datatype Block = Block(lo: int, hi: int)

  /** The `ref ogp` cell (its `str`) names a project: not blank and not `nan` in any case. */
  predicate IsRefRow(cell: string)
  {
    var ref := Strip(cell);
    ref != [] && Lower(ref) != "nan"
  }

  /** A cell of whitespace only never names a project, and neither does a padded `nan`. */
  lemma RefRowNeedsText(cell: string)
    ensures (forall k | 0 <= k < |cell| :: IsSpace(cell[k])) ==> !IsRefRow(cell)
    ensures Lower(Strip(cell)) == "nan" ==> !IsRefRow(cell)
  {
  }

  /** For each row of the sheet, whether its `ref ogp` cell names a project. */
  function RefMarks(refs: seq<string>): (marks: seq<bool>)
    ensures |marks| == |refs|
    ensures forall k | 0 <= k < |refs| :: marks[k] == IsRefRow(refs[k])
  {
    seq(|refs|, k requires 0 <= k < |refs| => IsRefRow(refs[k]))
  }

  /** The blocks found scanning from row `i`: a project row opens a block of up to three rows. */
  function BlocksFrom(marks: seq<bool>, i: nat): seq<Block>
    decreases |marks| - i
  {
    if i >= |marks| then []
    else if marks[i] then [Block(i, Min(i + 3, |marks|))] + BlocksFrom(marks, i + 3)
    else BlocksFrom(marks, i + 1)
  }

  /**
   * Every block opens on a project row and spans the three rows from it
   * (fewer at the end of the sheet), and the blocks come in order without
   * overlap.
   */
  predicate WellFormed(marks: seq<bool>, bs: seq<Block>)
  {
    && (forall k | 0 <= k < |bs| ::
          0 <= bs[k].lo < |marks| && marks[bs[k].lo] && bs[k].hi == Min(bs[k].lo + 3, |marks|))
    && (forall a, b | 0 <= a < b < |bs| :: bs[a].hi <= bs[b].lo)
  }

  /** Row `j` opens one of the blocks. */
  predicate IsStart(bs: seq<Block>, j: int)
  {
    exists k | 0 <= k < |bs| :: bs[k].lo == j
  }

  /** Row `j` is the second or third row of one of the blocks. */
  predicate Inside(bs: seq<Block>, j: int)
  {
    exists k | 0 <= k < |bs| :: bs[k].lo < j < bs[k].hi
  }

  /** Row `j` belongs to one of the blocks. */
  predicate Covered(bs: seq<Block>, j: int)
  {
    exists k | 0 <= k < |bs| :: bs[k].lo <= j < bs[k].hi
  }

  /**
   * The detection loop over the row marks: at a project row take it and the
   * next two rows and skip past them, otherwise move on by one row.
   */
  method ScanBlocks(marks: seq<bool>) returns (projects: seq<Block>)
    ensures projects == BlocksFrom(marks, 0)
  {
    projects := [];
    var i := 0;
    while i < |marks|
      invariant projects + BlocksFrom(marks, i) == BlocksFrom(marks, 0)
      decreases |marks| - i
    {
      if marks[i] {
        var b := Block(i, Min(i + 3, |marks|));
        assert BlocksFrom(marks, i) == [b] + BlocksFrom(marks, i + 3);
        assert (projects + [b]) + BlocksFrom(marks, i + 3) == projects + ([b] + BlocksFrom(marks, i + 3));
        projects := projects + [b];
        i := i + 3;
      } else {
        i := i + 1;
      }
    }
  }

  /**
   * The block detection of the import: the row test is pure, so it is taken
   * for every row first (`RefMarks`), then the loop scans the marks.
   */
  method DetectBlocks(refs: seq<string>) returns (projects: seq<Block>)
    ensures projects == BlocksFrom(RefMarks(refs), 0)
    ensures WellFormed(RefMarks(refs), projects)
    ensures var marks := RefMarks(refs);
      forall j | 0 <= j < |marks| :: IsStart(projects, j) <==> marks[j] && !Inside(projects, j)
    ensures var marks := RefMarks(refs);
      forall j | 0 <= j < |marks| && marks[j] :: Covered(projects, j)
  {
    var marks := RefMarks(refs);
    projects := ScanBlocks(marks);
    DetectedBlocks(marks);
  }

  /** The blocks found from the first row are well formed, open exactly on the uncovered project rows, and cover them all. */
  lemma DetectedBlocks(marks: seq<bool>)
    ensures WellFormed(marks, BlocksFrom(marks, 0))
    ensures forall j | 0 <= j < |marks| :: IsStart(BlocksFrom(marks, 0), j) <==> marks[j] && !Inside(BlocksFrom(marks, 0), j)
    ensures forall j | 0 <= j < |marks| && marks[j] :: Covered(BlocksFrom(marks, 0), j)
  {
    BlocksWellFormed(marks, 0);
    BlocksCover(marks, 0);
    StartsAreMarked(marks, BlocksFrom(marks, 0));
  }

  lemma {:induction false} BlocksWellFormed(marks: seq<bool>, i: nat)
    ensures WellFormed(marks, BlocksFrom(marks, i))
    ensures forall k | 0 <= k < |BlocksFrom(marks, i)| :: i <= BlocksFrom(marks, i)[k].lo
    decreases |marks| - i
  {
    if i < |marks| {
      if marks[i] {
        BlocksWellFormed(marks, i + 3);
        ConsBlock(marks, i, BlocksFrom(marks, i + 3));
      } else {
        BlocksWellFormed(marks, i + 1);
      }
    }
  }

  /** A block opened at project row `i` in front of well-formed blocks starting after it stays well formed. */
  lemma ConsBlock(marks: seq<bool>, i: nat, rest: seq<Block>)
    requires i < |marks| && marks[i]
    requires WellFormed(marks, rest)
    requires forall k | 0 <= k < |rest| :: i + 3 <= rest[k].lo
    ensures var bs := [Block(i, Min(i + 3, |marks|))] + rest;
      WellFormed(marks, bs) && forall k | 0 <= k < |bs| :: i <= bs[k].lo
  {
    var bs := [Block(i, Min(i + 3, |marks|))] + rest;
    forall k | 0 <= k < |bs|
      ensures 0 <= bs[k].lo < |marks| && marks[bs[k].lo] && bs[k].hi == Min(bs[k].lo + 3, |marks|)
      ensures i <= bs[k].lo
    {
      if k > 0 {
        assert bs[k] == rest[k - 1];
      }
    }
    forall a, c | 0 <= a < c < |bs| ensures bs[a].hi <= bs[c].lo {
      assert bs[c] == rest[c - 1];
      if a > 0 {
        assert bs[a] == rest[a - 1];
      }
    }
  }

  /** Every project row from row `i` on lies in one of the blocks found from `i`. */
  lemma {:induction false} BlocksCover(marks: seq<bool>, i: nat)
    ensures forall j | i <= j < |marks| && marks[j] :: Covered(BlocksFrom(marks, i), j)
    decreases |marks| - i
  {
    if i < |marks| {
      var bs := BlocksFrom(marks, i);
      if marks[i] {
        BlocksCover(marks, i + 3);
        var rest := BlocksFrom(marks, i + 3);
        assert bs == [Block(i, Min(i + 3, |marks|))] + rest;
        forall j | i <= j < |marks| && marks[j] ensures Covered(bs, j) {
          if j < i + 3 {
            assert bs[0].lo <= j < bs[0].hi;
          } else {
            var k :| 0 <= k < |rest| && rest[k].lo <= j < rest[k].hi;
            assert bs[k + 1] == rest[k];
          }
        }
      } else {
        BlocksCover(marks, i + 1);
      }
    }
  }

  /** A row that opens a block is not inside another: the blocks do not overlap. */
  lemma StartNotInside(marks: seq<bool>, bs: seq<Block>, j: int)
    requires WellFormed(marks, bs) && IsStart(bs, j)
    ensures !Inside(bs, j)
  {
    var k :| 0 <= k < |bs| && bs[k].lo == j;
    forall m | 0 <= m < |bs| ensures !(bs[m].lo < j < bs[m].hi) {
      if m < k {
        assert bs[m].hi <= bs[k].lo;
      } else if k < m {
        assert bs[k].lo < bs[k].hi <= bs[m].lo;
      }
    }
  }

  /**
   * In well-formed blocks covering every project row, a row opens a block
   * exactly when it is a project row not swallowed by an earlier block.
   */
  lemma StartsAreMarked(marks: seq<bool>, bs: seq<Block>)
    requires WellFormed(marks, bs)
    requires forall j | 0 <= j < |marks| && marks[j] :: Covered(bs, j)
    ensures forall j | 0 <= j < |marks| :: IsStart(bs, j) <==> marks[j] && !Inside(bs, j)
  {
    forall j | 0 <= j < |marks| ensures IsStart(bs, j) <==> marks[j] && !Inside(bs, j) {
      if IsStart(bs, j) {
        StartNotInside(marks, bs, j);
      }
      if marks[j] && !Inside(bs, j) {
        var k :| 0 <= k < |bs| && bs[k].lo <= j < bs[k].hi;
        assert bs[k].lo == j;
      }
    }
  }

  // ---------------------------------------------------------------------------
  // Linking a column to a business value
  // ---------------------------------------------------------------------------

  /**
   * A `valeur_metier` row with its text columns already normalised, as the
   * import does right after reading the table.
   */
  datatype ValeurMetier = ValeurMetier(id: int, libelle: string, typeLibelle: string, valeurLibelle: string)

  /** The exact test: the same label, and the same type and value where those are given. */
  predicate ExactMatch(v: ValeurMetier, lib: string, ty: string, val: string)
  {
    v.libelle == lib && (v.typeLibelle == ty || ty == "") && (v.valeurLibelle == val || val == "")
  }

  /** The fuzzy test: a similar label, and similar type and value where those are given. */
  predicate FuzzyMatch(ratio: (string, string) -> real, v: ValeurMetier, lib: string, ty: string, val: string)
  {
    && Similar(ratio, v.libelle, lib, Seuil)
    && (ty == "" || Similar(ratio, v.typeLibelle, ty, Seuil))
    && (val == "" || Similar(ratio, v.valeurLibelle, val, Seuil))
  }

  /** The position of the first element satisfying `p`, if any. */
  function First(vm: seq<ValeurMetier>, p: ValeurMetier -> bool): (r: Option<nat>)
    ensures r.Some? ==> r.value < |vm| && p(vm[r.value]) && forall j | 0 <= j < r.value :: !p(vm[j])
    ensures r.None? ==> forall j | 0 <= j < |vm| :: !p(vm[j])
  {
    if vm == [] then None
    else if p(vm[0]) then Some(0)
    else match First(vm[1..], p)
      case None => None
      case Some(j) => Some(j + 1)
  }

  /**
   * The business value a column is linked to, from its normalised label,
   * type and value: none when type and value are both empty; otherwise the
   * first row that matches exactly, or failing any, the first that matches
   * fuzzily.
   */
  function LinkColumn(ratio: (string, string) -> real, vm: seq<ValeurMetier>, lib: string, ty: string, val: string)
    : (r: Option<int>)
    ensures ty == "" && val == "" ==> r == None
    ensures r.None? <==>
              (ty == "" && val == "")
              || forall k | 0 <= k < |vm| :: !ExactMatch(vm[k], lib, ty, val) && !FuzzyMatch(ratio, vm[k], lib, ty, val)
    ensures (ty != "" || val != "") ==>
              forall k | 0 <= k < |vm| && ExactMatch(vm[k], lib, ty, val) ::
                (forall j | 0 <= j < k :: !ExactMatch(vm[j], lib, ty, val)) ==> r == Some(vm[k].id)
    ensures (ty != "" || val != "") && (forall k | 0 <= k < |vm| :: !ExactMatch(vm[k], lib, ty, val)) ==>
              forall k | 0 <= k < |vm| && FuzzyMatch(ratio, vm[k], lib, ty, val) ::
                (forall j | 0 <= j < k :: !FuzzyMatch(ratio, vm[j], lib, ty, val)) ==> r == Some(vm[k].id)
  {
    if ty == "" && val == "" then None
    else
      match First(vm, v => ExactMatch(v, lib, ty, val))
      case Some(k) => Some(vm[k].id)
      case None =>
        match First(vm, v => FuzzyMatch(ratio, v, lib, ty, val))
        case Some(k) => Some(vm[k].id)
        case None => None
  }

  /** An exact match with a type or value given stays an exact match once that field is left empty. */
  lemma WildcardWidens(v: ValeurMetier, lib: string, ty: string, val: string)
    ensures ExactMatch(v, lib, ty, val) ==> ExactMatch(v, lib, "", val) && ExactMatch(v, lib, ty, "")
    ensures ExactMatch(v, lib, "", "") <==> v.libelle == lib
  {
  }

  /**
   * A column whose label normalises to nothing is never linked by the fuzzy
   * fallback: it is linked only to a row whose label is empty too.
   */
  lemma EmptyLabelLinksExactly(ratio: (string, string) -> real, vm: seq<ValeurMetier>, ty: string, val: string)
    ensures LinkColumn(ratio, vm, "", ty, val).Some? ==>
              exists k | 0 <= k < |vm| :: vm[k].libelle == "" && ExactMatch(vm[k], "", ty, val)
  {
    if LinkColumn(ratio, vm, "", ty, val).Some? {
      assert exists k | 0 <= k < |vm| :: ExactMatch(vm[k], "", ty, val) || FuzzyMatch(ratio, vm[k], "", ty, val);
    }
  }
}
