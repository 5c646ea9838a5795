/**
 * Concrete scenarios of the transform under three small instances of the
 * Unicode tables: an ASCII instance, whose case mappings are one code point
 * each; an instance with the dotted capital I (U+0130), whose lowercase
 * mapping is the two code points i and U+0307 COMBINING DOT ABOVE; and an
 * instance with one caseless letter, U+5C71.
 */
module Scenarios {
  import opened Seqs
  import opened Unicode
  import opened WordReverser

  predicate IsAsciiUpper(c: char) { 'A' <= c <= 'Z' }
  predicate IsAsciiLower(c: char) { 'a' <= c <= 'z' }
  predicate IsAsciiLetter(c: char) { IsAsciiUpper(c) || IsAsciiLower(c) }

  function AsciiUpper(c: char): char
  {
    if IsAsciiLower(c) then (c as int - 32) as char else c
  }

  function AsciiLower(c: char): char
  {
    if IsAsciiUpper(c) then (c as int + 32) as char else c
  }

  function AsciiUpperString(c: char): string { [AsciiUpper(c)] }
  function AsciiLowerString(c: char): string { [AsciiLower(c)] }

  /** Letters are A-Z and a-z; the case mappings move between the two halves. */
  const Ascii: Tables := Tables(IsAsciiLetter, AsciiUpperString, AsciiLowerString)

  /** The ASCII instance has single-code-point mappings. */
  lemma {:induction false} AsciiSingleCodePoint()
    ensures SingleCodePoint(Ascii)
  {
  }

  /** Every ASCII letter is cased: A-Z are uppercase code points, a-z lowercase ones. */
  lemma {:induction false} AsciiCaseOf(c: char)
    ensures IsAsciiUpper(c) ==> IsUpperCodePoint(Ascii, c) && CaseOf(Ascii, [c]) == Upper
    ensures IsAsciiLower(c) ==> IsLowerCodePoint(Ascii, c) && CaseOf(Ascii, [c]) == Lower
  {
    CaseOfCodePoint(Ascii, c);
  }

  /** Character i of the reversed ASCII run: the case of position i applied to the letter at n-1-i. */
  function AsciiRunChar(w: string, i: nat): char
    requires i < |w|
  {
    if IsAsciiUpper(w[i]) then AsciiUpper(w[|w| - 1 - i]) else AsciiLower(w[|w| - 1 - i])
  }

  /** The characters of the reversed ASCII run from position i on. */
  function AsciiRunFrom(w: string, i: nat): (r: string)
    requires i <= |w|
    ensures |r| == |w| - i
    decreases |w| - i
  {
    if i == |w| then [] else [AsciiRunChar(w, i)] + AsciiRunFrom(w, i + 1)
  }

  /** A character-level statement of the run reversal for ASCII letters. */
  function AsciiRunReversed(w: string): (r: string)
  {
    AsciiRunFrom(w, 0)
  }

  /** Position k of the characters from i on is character i + k. */
  lemma {:induction false} AsciiRunFromAt(w: string, i: nat, k: nat)
    requires i + k < |w|
    ensures AsciiRunFrom(w, i)[k] == AsciiRunChar(w, i + k)
    decreases k
  {
    if k > 0 {
      AsciiRunFromAt(w, i + 1, k - 1);
    }
  }

  /** Piece i of an ASCII run is the one character the character-level statement puts at i. */
  lemma {:induction false} AsciiPieceAt(w: string, i: nat)
    requires i < |w| && IsAsciiLetter(w[i])
    ensures RecasedPieces(Ascii, w)[i] == [AsciiRunReversed(w)[i]]
  {
    assert AsciiRunReversed(w)[i] == AsciiRunChar(w, i) by {
      AsciiRunFromAt(w, 0, i);
    }
    if IsAsciiUpper(w[i]) {
      assert RecasedPieces(Ascii, w)[i] == AsciiUpperString(w[|w| - 1 - i]) by {
        AsciiCaseOf(w[i]);
        PieceAt(Ascii, w, i);
      }
    } else {
      assert RecasedPieces(Ascii, w)[i] == AsciiLowerString(w[|w| - 1 - i]) by {
        AsciiCaseOf(w[i]);
        PieceAt(Ascii, w, i);
      }
    }
  }

  /** On ASCII letters the recased reversal is the character-level statement. */
  lemma {:induction false} AsciiRecasedReversal(w: string)
    requires forall i :: 0 <= i < |w| ==> IsAsciiLetter(w[i])
    ensures RecasedReversal(Ascii, w) == AsciiRunReversed(w)
  {
    var r := RecasedReversal(Ascii, w);
    AsciiSingleCodePoint();
    RecasedReversalLength(Ascii, w);
    forall i | 0 <= i < |w|
      ensures r[i] == AsciiRunReversed(w)[i]
    {
      AsciiPieceAt(w, i);
      assert [r[i]] == [AsciiRunReversed(w)[i]];
      assert [r[i]][0] == r[i];
    }
  }

  /** A word of ASCII letters alone is one run. */
  lemma {:induction false} AsciiWord(w: string)
    requires w != [] && forall i :: 0 <= i < |w| ==> IsAsciiLetter(w[i])
    ensures WordReversed(Ascii, w) == AsciiRunReversed(w)
  {
    AsciiRecasedReversal(w);
    LetterRunThen(Ascii, w, []);
    assert w + [] == w;
  }

  lemma {:induction false} CatLetters() ensures AsciiRunReversed("Cat") == "Tac" {}
  lemma {:induction false} HouseLetters() ensures AsciiRunReversed("houSe") == "esuOh" {}
  lemma {:induction false} ThirdLetters() ensures AsciiRunReversed("third") == "driht" {}
  lemma {:induction false} PartLetters() ensures AsciiRunReversed("part") == "trap" {}

  /** tests/WordReverserTest.php:25 */
  lemma {:induction false} CatExample()
    ensures WordReversed(Ascii, "Cat") == "Tac"
  {
    AsciiWord("Cat");
    CatLetters();
  }

  /** The case pattern stays with the positions (tests/WordReverserTest.php:27). */
  lemma {:induction false} HouseExample()
    ensures WordReversed(Ascii, "houSe") == "esuOh"
  {
    AsciiWord("houSe");
    HouseLetters();
  }

  /** Two letter runs joined by one separator are reversed independently. */
  lemma {:induction false} TwoWords(u: Tables, a: string, c: char, b: string)
    requires a != [] && Uniform(u, a, true) && b != [] && Uniform(u, b, true)
    requires !u.isLetter(c)
    ensures WordReversed(u, a + ([c] + b)) == RecasedReversal(u, a) + ([c] + RecasedReversal(u, b))
  {
    LetterRunThen(u, a, [c] + b);
    assert WordReversed(u, [c] + b) == [c] + WordReversed(u, b) by {
      CopyNonLetter(u, c, b);
    }
    assert WordReversed(u, b) == RecasedReversal(u, b) by {
      LetterRunThen(u, b, []);
      assert b + [] == b;
    }
  }

  /** A hyphen separates two words that are reversed on their own (tests/WordReverserTest.php:44). */
  lemma {:induction false} HyphenExample()
    ensures WordReversed(Ascii, "third" + ("-" + "part")) == "driht" + ("-" + "trap")
  {
    assert RecasedReversal(Ascii, "third") == "driht" by {
      AsciiRecasedReversal("third");
      ThirdLetters();
    }
    assert RecasedReversal(Ascii, "part") == "trap" by {
      AsciiRecasedReversal("part");
      PartLetters();
    }
    TwoWords(Ascii, "third", '-', "part");
  }

  /** Digits and punctuation without letters are returned unchanged (tests/WordReverserTest.php:355). */
  lemma {:induction false} NoLettersExample()
    ensures WordReversed(Ascii, "123!@#456") == "123!@#456"
  {
    NoLettersUnchanged(Ascii, "123!@#456");
  }

  // -------------------------------------------------------------------
  // An expanding lowercase mapping: U+0130 LATIN CAPITAL LETTER I WITH DOT ABOVE
  // -------------------------------------------------------------------

  predicate IsDottedLetter(c: char) { IsAsciiLetter(c) || c == '\U{130}' }

  function DottedUpper(c: char): string
  {
    if c == '\U{130}' then [c] else [AsciiUpper(c)]
  }

  function DottedLower(c: char): string
  {
    if c == '\U{130}' then "i\U{307}" else [AsciiLower(c)]
  }

  /** ASCII, plus U+0130 as an uppercase letter whose lowercase form is i followed by U+0307. */
  const Dotted: Tables := Tables(IsDottedLetter, DottedUpper, DottedLower)

  /** Lowercase ASCII letters are Lower; uppercase ones and U+0130 are Upper. */
  lemma {:induction false} DottedCaseOf(c: char)
    ensures IsAsciiLower(c) ==> IsLowerCodePoint(Dotted, c)
    ensures IsAsciiUpper(c) || c == '\U{130}' ==> IsUpperCodePoint(Dotted, c)
  {
  }

  /** Piece i of a run under these tables: the case of position i applied to the letter at n-1-i. */
  function DottedPiece(w: string, i: nat): string
    requires i < |w|
  {
    if IsAsciiLower(w[i]) then DottedLower(w[|w| - 1 - i]) else DottedUpper(w[|w| - 1 - i])
  }

  /** The pieces of a run under these tables from position i on. */
  function DottedPiecesFrom(w: string, i: nat): (p: seq<string>)
    requires i <= |w|
    ensures |p| == |w| - i
    decreases |w| - i
  {
    if i == |w| then [] else [DottedPiece(w, i)] + DottedPiecesFrom(w, i + 1)
  }

  /** The pieces of a run under these tables, stated character by character. */
  function DottedPieces(w: string): seq<string>
  {
    DottedPiecesFrom(w, 0)
  }

  /** Position k of the pieces from i on is piece i + k. */
  lemma {:induction false} DottedPiecesFromAt(w: string, i: nat, k: nat)
    requires i + k < |w|
    ensures DottedPiecesFrom(w, i)[k] == DottedPiece(w, i + k)
    decreases k
  {
    if k > 0 {
      DottedPiecesFromAt(w, i + 1, k - 1);
    }
  }

  /** Piece i of a run under these tables is piece i of the character-level statement. */
  lemma {:induction false} DottedPieceAt(w: string, i: nat)
    requires i < |w| && IsDottedLetter(w[i])
    ensures RecasedPieces(Dotted, w)[i] == DottedPieces(w)[i]
  {
    assert DottedPieces(w)[i] == DottedPiece(w, i) by {
      DottedPiecesFromAt(w, 0, i);
    }
    if IsAsciiLower(w[i]) {
      assert RecasedPieces(Dotted, w)[i] == DottedLower(w[|w| - 1 - i]) by {
        DottedCaseOf(w[i]);
        PieceAt(Dotted, w, i);
      }
    } else {
      assert RecasedPieces(Dotted, w)[i] == DottedUpper(w[|w| - 1 - i]) by {
        DottedCaseOf(w[i]);
        PieceAt(Dotted, w, i);
      }
    }
  }

  /** A word of these letters alone is one run, made of the pieces above. */
  lemma {:induction false} DottedWord(w: string)
    requires w != [] && forall i :: 0 <= i < |w| ==> IsDottedLetter(w[i])
    ensures WordReversed(Dotted, w) == RecasedReversal(Dotted, w) == Flatten(DottedPieces(w))
  {
    forall i | 0 <= i < |w|
      ensures RecasedPieces(Dotted, w)[i] == DottedPieces(w)[i]
    {
      DottedPieceAt(w, i);
    }
    assert RecasedPieces(Dotted, w) == DottedPieces(w);
    LetterRunThen(Dotted, w, []);
    assert w + [] == w;
  }

  lemma {:induction false} IstanbulPieces()
    ensures DottedPieces("lubnats\U{130}") == ["i\U{307}", "s", "t", "a", "n", "b", "u", "L"]
  {}
  lemma {:induction false} IstanbulFlatten()
    ensures Flatten(["i\U{307}", "s", "t", "a", "n", "b", "u", "L"]) == "i\U{307}stanbuL"
  {
    var p := ["i\U{307}", "s", "t", "a", "n", "b", "u", "L"];
    var tail := p[1..];
    assert tail == ["s", "t", "a", "n", "b", "u", "L"];
    FlattenUnits(tail);
    assert Flatten(tail) == "stanbuL";
    assert Flatten(p) == p[0] + Flatten(tail);
  }

  /** The capital dotted I lowercases to two code points (tests/WordReverserTest.php:294). */
  lemma {:induction false} IstanbulExample()
    ensures WordReversed(Dotted, "lubnats\U{130}") == "i\U{307}stanbuL"
  {
    DottedWord("lubnats\U{130}");
    IstanbulPieces();
    IstanbulFlatten();
  }

  lemma {:induction false} ShortPieces()
    ensures DottedPieces("a\U{130}") == ["i\U{307}", "A"]
  {}
  lemma {:induction false} ShortFlatten()
    ensures Flatten(["i\U{307}", "A"]) == "i\U{307}A"
  {}

  /** The smallest run that shows the expansion: a lowercase letter, then U+0130. */
  lemma {:induction false} ShortExample()
    ensures WordReversed(Dotted, "a\U{130}") == "i\U{307}A"
  {
    DottedWord("a\U{130}");
    ShortPieces();
    ShortFlatten();
  }

  /** The output of the short example, transformed again: U+0307 is not a letter, so it splits two runs. */
  lemma {:induction false} ShortSecondPass()
    ensures WordReversed(Dotted, "i\U{307}A") == "i\U{307}A"
  {
    SingleLetterUnchanged(Dotted, 'i');
    SingleLetterUnchanged(Dotted, 'A');
    TwoWords(Dotted, "i", '\U{307}', "A");
    assert "i\U{307}A" == "i" + (['\U{307}'] + "A");
  }

  /**
   * With an expanding mapping the output is longer than the input, and
   * transforming the output again does not give the input back.
   */
  lemma {:induction false} ExpandingMappingCounterexample()
    ensures |WordReversed(Dotted, "a\U{130}")| == |"a\U{130}"| + 1
    ensures WordReversed(Dotted, WordReversed(Dotted, "a\U{130}")) != "a\U{130}"
  {
    ShortExample();
    ShortSecondPass();
  }

  // -------------------------------------------------------------------
  // A caseless letter: U+5C71 (a CJK ideograph), a letter with no case
  // -------------------------------------------------------------------

  /** The ASCII letters and one caseless letter. */
  const Mixed: Tables := Tables(
    c => IsAsciiLetter(c) || c == '\U{5C71}', AsciiUpperString, AsciiLowerString)

  /**
   * The case class travels with the position, not with the letter that lands
   * there: the uppercase A at position 0 receives the caseless letter, which
   * no case mapping changes, so position 0 of the output is caseless.
   */
  lemma {:induction false} CaselessMirrorExample()
    ensures CaseOf(Mixed, "A") == Upper && CaseOf(Mixed, "\U{5C71}") == Caseless
    ensures WordReversed(Mixed, "A\U{5C71}") == "\U{5C71}A"
  {
    var w := "A\U{5C71}";
    CaseOfCodePoint(Mixed, 'A');
    CaseOfCodePoint(Mixed, '\U{5C71}');
    var p := RecasedPieces(Mixed, w);
    assert p == ["\U{5C71}", "A"] by {
      PieceAt(Mixed, w, 0);
      PieceAt(Mixed, w, 1);
    }
    assert RecasedReversal(Mixed, w) == "\U{5C71}A" by {
      assert p[1..] == ["A"];
      assert Flatten(p[1..]) == "A" + Flatten([]);
    }
    assert WordReversed(Mixed, w) == RecasedReversal(Mixed, w) by {
      LetterRunThen(Mixed, w, []);
      assert w + [] == w;
    }
  }
}
