/**
 * The letter-reversal transform: the input is cut into alternating runs of
 * non-letters and maximal runs of letters, the code points of every letter
 * run are reversed while the case pattern stays with the positions, and the
 * runs are joined again in their original order.
 *
 * All Unicode knowledge comes from a `Tables` value `u`.
 */
module WordReverser {
  import opened Seqs
  import opened Unicode

  // ---------------------------------------------------------------------
  // Case classification
  // ---------------------------------------------------------------------

  /** The three answers of caseOf: 'upper', 'lower' and 'none'. */
  datatype CaseClass = Upper | Lower | Caseless

  /**
   * caseOf: a string is 'upper' when it equals its uppercase form and differs
   * from its lowercase form, 'lower' in the mirrored situation, else 'none'.
   */
  function CaseOf(u: Tables, ch: string): CaseClass
  {
    var up := ToUpper(u, ch);
    var lo := ToLower(u, ch);
    if ch == up && ch != lo then Upper
    else if ch == lo && ch != up then Lower
    else Caseless
  }

  /** A code point that is its own uppercase mapping and not its own lowercase mapping. */
  predicate IsUpperCodePoint(u: Tables, c: char)
  {
    [c] == u.upper(c) && [c] != u.lower(c)
  }

  /** A code point that is its own lowercase mapping and not its own uppercase mapping. */
  predicate IsLowerCodePoint(u: Tables, c: char)
  {
    [c] == u.lower(c) && [c] != u.upper(c)
  }

  /** The classification of one code point, in terms of the tables; the two cased classes exclude each other. */
  lemma {:induction false} CaseOfCodePoint(u: Tables, c: char)
    ensures CaseOf(u, [c]) == Upper <==> IsUpperCodePoint(u, c)
    ensures CaseOf(u, [c]) == Lower <==> IsLowerCodePoint(u, c)
    ensures CaseOf(u, [c]) == Caseless <==> !IsUpperCodePoint(u, c) && !IsLowerCodePoint(u, c)
    ensures !(IsUpperCodePoint(u, c) && IsLowerCodePoint(u, c))
  {
    MappingsOfCodePoint(u, c);
  }

  /** Applies a recorded case class to a piece, as the re-casing loop does. */
  function Recase(u: Tables, k: CaseClass, piece: string): string
  {
    match k
    case Upper => ToUpper(u, piece)
    case Lower => ToLower(u, piece)
    case Caseless => piece
  }

  /** A code point re-cased into its own class is left as it is. */
  lemma {:induction false} RecaseOwnClass(u: Tables, c: char)
    ensures Recase(u, CaseOf(u, [c]), [c]) == [c]
  {
    CaseOfCodePoint(u, c);
    MappingsOfCodePoint(u, c);
  }

  // ---------------------------------------------------------------------
  // Reversal of one letter run
  // ---------------------------------------------------------------------

  /** mbStrToArray: the string as a list of one-code-point strings. */
  function MbStrToArray(s: string): (r: seq<string>)
    ensures |r| == |s|
    ensures forall i :: 0 <= i < |s| ==> r[i] == [s[i]]
  {
    if s == [] then [] else [[s[0]]] + MbStrToArray(s[1..])
  }

  /** The code points of mbStrToArray join back to the string. */
  lemma {:induction false} MbStrToArrayJoins(s: string)
    ensures Flatten(MbStrToArray(s)) == s
  {
    FlattenUnits(MbStrToArray(s));
  }

  /** array_map(caseOf, ...): the case class of every piece, position by position. */
  function CaseMask(u: Tables, chars: seq<string>): (m: seq<CaseClass>)
    ensures |m| == |chars|
  {
    if chars == [] then [] else [CaseOf(u, chars[0])] + CaseMask(u, chars[1..])
  }

  /** Entry i of the mask is the class of piece i. */
  lemma {:induction false} CaseMaskAt(u: Tables, chars: seq<string>, i: nat)
    requires i < |chars|
    ensures CaseMask(u, chars)[i] == CaseOf(u, chars[i])
  {
    if i > 0 {
      CaseMaskAt(u, chars[1..], i - 1);
    }
  }

  /**
   * Each code point of `back` put into the case class of the code point at
   * the same position of `front`, one piece per position.
   */
  function ZipRecase(u: Tables, front: string, back: string): (p: seq<string>)
    requires |front| == |back|
    ensures |p| == |front|
  {
    if front == [] then []
    else [Recase(u, CaseOf(u, [front[0]]), [back[0]])] + ZipRecase(u, front[1..], back[1..])
  }

  /** Entry i of the zip is code point i of `back` in the class of code point i of `front`. */
  lemma {:induction false} ZipRecaseAt(u: Tables, front: string, back: string, i: nat)
    requires |front| == |back| && i < |front|
    ensures ZipRecase(u, front, back)[i] == Recase(u, CaseOf(u, [front[i]]), [back[i]])
  {
    if i > 0 {
      var p := ZipRecase(u, front, back);
      var rest := ZipRecase(u, front[1..], back[1..]);
      assert p == [p[0]] + rest;
      assert p[i] == rest[i - 1];
      ZipRecaseAt(u, front[1..], back[1..], i - 1);
      assert front[1..][i - 1] == front[i] && back[1..][i - 1] == back[i];
    }
  }

  /**
   * The pieces of a reversed run: the case pattern of the run, position by
   * position, applied to its reversed code points.
   */
  function RecasedPieces(u: Tables, w: string): (p: seq<string>)
    ensures |p| == |w|
  {
    ZipRecase(u, w, Reverse(w))
  }

  /** The result of reverseLettersPreservingCase on the run w. */
  function RecasedReversal(u: Tables, w: string): string
  {
    Flatten(RecasedPieces(u, w))
  }

  /**
   * Piece i in the tables' own terms: its case comes from the code point at
   * i, and it is the code point at position n-1-i mapped into that case.
   */
  lemma {:induction false} PieceAt(u: Tables, w: string, i: nat)
    requires i < |w|
    ensures IsUpperCodePoint(u, w[i]) ==> RecasedPieces(u, w)[i] == u.upper(w[|w| - 1 - i])
    ensures IsLowerCodePoint(u, w[i]) ==> RecasedPieces(u, w)[i] == u.lower(w[|w| - 1 - i])
    ensures !IsUpperCodePoint(u, w[i]) && !IsLowerCodePoint(u, w[i]) ==>
              RecasedPieces(u, w)[i] == [w[|w| - 1 - i]]
  {
    CaseOfCodePoint(u, w[i]);
    ReverseAt(w, i);
    ZipRecaseAt(u, w, Reverse(w), i);
    MappingsOfCodePoint(u, w[|w| - 1 - i]);
  }

  /** The empty run is its own recased reversal. */
  lemma {:induction false} EmptyRunUnchanged(u: Tables)
    ensures RecasedReversal(u, []) == []
  {
    assert MbStrToArray([]) == [];
  }

  /** Slot k of the method's lists, re-cased by the mask, is piece k of the run. */
  lemma {:induction false} SlotAt(u: Tables, word: string, k: nat)
    requires k < |word|
    ensures Recase(u, CaseMask(u, MbStrToArray(word))[k], Reverse(MbStrToArray(word))[k])
            == RecasedPieces(u, word)[k]
  {
    var chars := MbStrToArray(word);
    var n := |word|;
    CaseMaskAt(u, chars, k);
    assert chars[k] == [word[k]];
    ReverseAt(chars, k);
    assert chars[n - 1 - k] == [word[n - 1 - k]];
    ReverseAt(word, k);
    ZipRecaseAt(u, word, Reverse(word), k);
  }

  /**
   * reverseLettersPreservingCase: records the case mask, reverses the
   * code points, then re-cases each slot of the reversed list by the mask.
   */
  method ReverseLettersPreservingCase(u: Tables, word: string) returns (r: string)
    ensures r == RecasedReversal(u, word)
  {
    var chars := MbStrToArray(word);
    var caseMask := CaseMask(u, chars);
    var reversed := Reverse(chars);
    for i := 0 to |chars|
      invariant |reversed| == |chars|
      invariant forall k :: 0 <= k < i ==> reversed[k] == Recase(u, caseMask[k], Reverse(chars)[k])
      invariant forall k :: i <= k < |chars| ==> reversed[k] == Reverse(chars)[k]
    {
      if caseMask[i] == Upper {
        reversed := reversed[i := ToUpper(u, reversed[i])];
      } else if caseMask[i] == Lower {
        reversed := reversed[i := ToLower(u, reversed[i])];
      }
    }
    forall k | 0 <= k < |chars|
      ensures reversed[k] == RecasedPieces(u, word)[k]
    {
      SlotAt(u, word, k);
    }
    assert reversed == RecasedPieces(u, word);
    r := Flatten(reversed);
  }

  /** With single-code-point mappings, a run keeps its length and position i holds piece i. */
  lemma {:induction false} RecasedReversalLength(u: Tables, w: string)
    requires SingleCodePoint(u)
    ensures |RecasedReversal(u, w)| == |w|
    ensures forall i :: 0 <= i < |w| ==> [RecasedReversal(u, w)[i]] == RecasedPieces(u, w)[i]
  {
    var p := RecasedPieces(u, w);
    forall i | 0 <= i < |w|
      ensures |p[i]| == 1
    {
      PieceAt(u, w, i);
    }
    FlattenUnits(p);
  }

  /** A run in which no position has a case is simply reversed. */
  lemma {:induction false} CaselessRunReversed(u: Tables, w: string)
    requires forall i :: 0 <= i < |w| ==> !IsUpperCodePoint(u, w[i]) && !IsLowerCodePoint(u, w[i])
    ensures RecasedReversal(u, w) == Reverse(w)
  {
    var p := RecasedPieces(u, w);
    forall i | 0 <= i < |w|
      ensures p[i] == [w[|w| - 1 - i]]
    {
      PieceAt(u, w, i);
    }
    FlattenReversedUnits(p, w);
  }

  /** A one-letter run is returned unchanged. */
  lemma {:induction false} SingleLetterUnchanged(u: Tables, c: char)
    ensures RecasedReversal(u, [c]) == [c]
  {
    RecaseOwnClass(u, c);
    assert RecasedPieces(u, [c]) == [[c]];
    assert Flatten([[c]]) == [c] + Flatten([]);
  }

  // ---------------------------------------------------------------------
  // Segmentation: preg_split('/(\p{L}+)/u', ..., PREG_SPLIT_DELIM_CAPTURE)
  // ---------------------------------------------------------------------

  /** Every code point of w is a letter (letters) or every one is not (!letters). */
  predicate Uniform(u: Tables, w: string, letters: bool)
  {
    forall i :: 0 <= i < |w| ==> u.isLetter(w[i]) == letters
  }

  /** Length of the longest prefix of s that is Uniform with respect to letters. */
  function RunLength(u: Tables, s: string, letters: bool): (k: nat)
    ensures k <= |s|
    ensures forall i :: 0 <= i < k ==> u.isLetter(s[i]) == letters
    ensures k < |s| ==> u.isLetter(s[k]) != letters
  {
    if s == [] || u.isLetter(s[0]) != letters then 0
    else 1 + RunLength(u, s[1..], letters)
  }

  /**
   * The token shape of the capturing split: a letter-free run, then pairs of
   * a non-empty letter run and a letter-free run. A letter-free run may be
   * empty only at the front (when `first` holds) or at the end, so every
   * letter run is maximal.
   */
  predicate Alternating(u: Tables, t: seq<string>, first: bool)
    decreases |t|
  {
    if |t| == 1 then Uniform(u, t[0], false)
    else
      && |t| >= 3
      && Uniform(u, t[0], false) && (first || t[0] != [])
      && t[1] != [] && Uniform(u, t[1], true)
      && Alternating(u, t[2..], false)
  }

  /** t is a segmentation of s: tokens of the split's shape that join to s. */
  predicate Segmentation(u: Tables, s: string, t: seq<string>)
  {
    Flatten(t) == s && Alternating(u, t, true)
  }

  /**
   * The same shape by position: an odd number of tokens, non-empty letter
   * runs at odd indices, letter-free runs at even indices, and only the
   * first and the last of those may be empty.
   */
  lemma {:induction false} AlternatingShape(u: Tables, t: seq<string>, first: bool)
    requires Alternating(u, t, first)
    ensures |t| % 2 == 1
    ensures forall i :: 0 <= i < |t| && i % 2 == 1 ==> t[i] != [] && Uniform(u, t[i], true)
    ensures forall i :: 0 <= i < |t| && i % 2 == 0 ==> Uniform(u, t[i], false)
    ensures forall i :: 0 < i < |t| - 1 && i % 2 == 0 ==> t[i] != []
    ensures !first && |t| > 1 ==> t[0] != []
    decreases |t|
  {
    if |t| > 1 {
      var r := t[2..];
      AlternatingShape(u, r, false);
      forall i | 2 <= i < |t|
        ensures t[i] == r[i - 2] && i % 2 == (i - 2) % 2
      {
      }
    }
  }

  /** The token list of the capturing split. */
  function Split(u: Tables, s: string): seq<string>
    decreases |s|
  {
    var k := RunLength(u, s, false);
    if k == |s| then [s]
    else
      var j := k + RunLength(u, s[k..], true);
      [s[..k], s[k..j]] + Split(u, s[j..])
  }

  /**
   * The split has the segmentation shape; on the empty string it is one empty
   * token, and on a string that starts with a non-letter its first token is
   * not empty.
   */
  lemma {:induction false} SplitSegmentation(u: Tables, s: string)
    ensures Segmentation(u, s, Split(u, s))
    ensures s == [] ==> Split(u, s) == [[]]
    ensures s != [] && !u.isLetter(s[0]) ==> Split(u, s)[0] != []
    decreases |s|
  {
    var k := RunLength(u, s, false);
    if k == |s| {
      WholeRunSegmentation(u, s);
    } else {
      var j := k + RunLength(u, s[k..], true);
      SplitParts(u, s, k, j);
      SplitSegmentation(u, s[j..]);
      ConsSegmentation(u, s[..k], s[k..j], s[j..], Split(u, s[j..]));
      SplitStep(u, s, k, j);
    }
  }

  /** A string without letters is segmented as a single token. */
  lemma {:induction false} WholeRunSegmentation(u: Tables, s: string)
    requires RunLength(u, s, false) == |s|
    ensures Segmentation(u, s, [s])
  {
    assert Flatten([s]) == s + Flatten([]);
  }

  /** The three parts one round of the split cuts s into, and what is known of each. */
  lemma {:induction false} SplitParts(u: Tables, s: string, k: nat, j: nat)
    requires k == RunLength(u, s, false) < |s|
    requires j == k + RunLength(u, s[k..], true)
    ensures s == s[..k] + s[k..j] + s[j..]
    ensures Uniform(u, s[..k], false) && !u.isLetter(s[0]) ==> s[..k] != []
    ensures s[k..j] != [] && Uniform(u, s[k..j], true)
    ensures s[j..] != [] ==> !u.isLetter(s[j..][0])
  {
    assert s[k] == s[k..][0];
    assert s[k..][..j - k] == s[k..j];
    if j < |s| {
      assert s[j..][0] == s[k..][j - k];
    }
  }

  /** Putting a letter-free run and a non-empty letter run in front of the segmentation of a rest. */
  lemma {:induction false} ConsSegmentation(u: Tables, a: string, b: string, r: string, rest: seq<string>)
    requires Uniform(u, a, false) && b != [] && Uniform(u, b, true)
    requires Segmentation(u, r, rest)
    requires r == [] ==> rest == [[]]
    requires r != [] ==> !u.isLetter(r[0]) && rest[0] != []
    ensures Segmentation(u, a + b + r, [a, b] + rest)
  {
    FlattenCons2(a, b, rest);
    assert ([a, b] + rest)[2..] == rest;
  }

  /** Joining the first two tokens off the front of a token list. */
  lemma {:induction false} FlattenTwo(t: seq<string>)
    requires |t| >= 2
    ensures Flatten(t) == t[0] + t[1] + Flatten(t[2..])
  {
    assert t[1..][1..] == t[2..];
  }

  /** Joining two tokens put in front of a token list. */
  lemma {:induction false} FlattenCons2(a: string, b: string, rest: seq<string>)
    ensures Flatten([a, b] + rest) == a + b + Flatten(rest)
  {
    FlattenTwo([a, b] + rest);
    assert ([a, b] + rest)[2..] == rest;
  }

  /** A Uniform prefix followed by a code point of the other kind fixes RunLength. */
  lemma {:induction false} RunLengthOf(u: Tables, s: string, letters: bool, k: nat)
    requires k <= |s|
    requires forall i :: 0 <= i < k ==> u.isLetter(s[i]) == letters
    requires k < |s| ==> u.isLetter(s[k]) != letters
    ensures RunLength(u, s, letters) == k
    decreases k
  {
    if k > 0 {
      RunLengthOf(u, s[1..], letters, k - 1);
    }
  }

  /** A tail of the shape also has the shape when taken as a token list of its own. */
  lemma {:induction false} AlternatingRelax(u: Tables, t: seq<string>)
    requires Alternating(u, t, false)
    ensures Alternating(u, t, true)
  {
  }

  /** The first code point after a letter run, if any, is not a letter. */
  lemma {:induction false} FirstOfRest(u: Tables, t: seq<string>)
    requires Alternating(u, t, false) && Flatten(t) != []
    ensures !u.isLetter(Flatten(t)[0])
  {
    if |t| == 1 {
      assert Flatten(t) == t[0] + Flatten([]);
    } else {
      FlattenTwo(t);
    }
  }

  /**
   * Splitting a letter-free run a, a non-empty letter run b and a rest r
   * that does not start with a letter yields a, b and the split of r.
   */
  lemma {:induction false} SplitOfConcat(u: Tables, a: string, b: string, r: string)
    requires Uniform(u, a, false) && b != [] && Uniform(u, b, true)
    requires r != [] ==> !u.isLetter(r[0])
    ensures Split(u, a + b + r) == [a, b] + Split(u, r)
  {
    var s := a + b + r;
    var k, j := |a|, |a| + |b|;
    ConcatParts(a, b, r);
    RunLengthOf(u, s, false, k);
    RunLengthOf(u, s[k..], true, |b|);
    SplitStep(u, s, k, j);
  }

  /** The slices of a three-part concatenation that the split takes. */
  lemma {:induction false} ConcatParts(a: string, b: string, r: string)
    requires b != []
    ensures (a + b + r)[..|a|] == a && (a + b + r)[|a|] == b[0]
    ensures (a + b + r)[|a|..] == b + r && (b + r)[..|b|] == b
    ensures r != [] ==> (b + r)[|b|] == r[0]
    ensures (a + b + r)[|a|..|a| + |b|] == b && (a + b + r)[|a| + |b|..] == r
  {
  }

  /** The capturing split is the only token list with the Segmentation shape. */
  lemma {:induction false} SplitUnique(u: Tables, s: string, t: seq<string>)
    requires Segmentation(u, s, t)
    ensures t == Split(u, s)
    decreases |t|
  {
    if |t| == 1 {
      SingleTokenSplit(u, s, t);
    } else {
      var r := Flatten(t[2..]);
      FlattenTwo(t);
      AlternatingRelax(u, t[2..]);
      SplitUnique(u, r, t[2..]);
      if r != [] {
        FirstOfRest(u, t[2..]);
      }
      SplitOfConcat(u, t[0], t[1], r);
      FrontTwo(t);
    }
  }

  /** A segmentation with one token is the split of a string without letters. */
  lemma {:induction false} SingleTokenSplit(u: Tables, s: string, t: seq<string>)
    requires |t| == 1 && Segmentation(u, s, t)
    ensures t == Split(u, s)
  {
    assert Flatten(t) == t[0] + Flatten([]);
    assert s[..|s|] == s;
    RunLengthOf(u, s, false, |s|);
  }

  /** One round of the split: the letter-free prefix, the letter run after it, and the split of the remainder. */
  lemma {:induction false} SplitStep(u: Tables, s: string, k: nat, j: nat)
    requires k == RunLength(u, s, false) < |s|
    requires j == k + RunLength(u, s[k..], true)
    ensures Split(u, s) == [s[..k], s[k..j]] + Split(u, s[j..])
  {
  }

  // ---------------------------------------------------------------------
  // The whole transform
  // ---------------------------------------------------------------------

  /**
   * Reference definition of the transform as a left-to-right scan: a
   * non-letter is copied, a maximal letter run is replaced by its recased
   * reversal.
   */
  function WordReversed(u: Tables, s: string): string
    decreases |s|
  {
    if s == [] then []
    else if !u.isLetter(s[0]) then [s[0]] + WordReversed(u, s[1..])
    else
      var j := RunLength(u, s, true);
      RecasedReversal(u, s[..j]) + WordReversed(u, s[j..])
  }

  /** The token list after the loop: odd tokens recased and reversed, even tokens as they were. */
  function TransformTokens(u: Tables, t: seq<string>): (r: seq<string>)
    ensures |r| == |t|
    decreases |t|
  {
    if |t| < 2 then t else [t[0], RecasedReversal(u, t[1])] + TransformTokens(u, t[2..])
  }

  /** Token i after the loop: its recased reversal when i is odd, itself when i is even. */
  lemma {:induction false} TransformTokensAt(u: Tables, t: seq<string>, i: nat)
    requires i < |t|
    ensures i % 2 == 1 ==> TransformTokens(u, t)[i] == RecasedReversal(u, t[i])
    ensures i % 2 == 0 ==> TransformTokens(u, t)[i] == t[i]
    decreases |t|
  {
    if i >= 2 {
      var r := t[2..];
      var rest := TransformTokens(u, r);
      assert TransformTokens(u, t)[i] == rest[i - 2] by {
        assert TransformTokens(u, t) == [t[0], RecasedReversal(u, t[1])] + rest;
      }
      assert r[i - 2] == t[i];
      ParityStep(i);
      TransformTokensAt(u, r, i - 2);
    }
  }

  /** Stepping two tokens back keeps the parity of the index. */
  lemma {:induction false} ParityStep(i: nat)
    requires i >= 2
    ensures (i - 2) % 2 == i % 2
  {
  }

  /** A leading non-letter is copied, and the rest of the string is transformed. */
  lemma {:induction false} CopyNonLetter(u: Tables, c: char, r: string)
    requires !u.isLetter(c)
    ensures WordReversed(u, [c] + r) == [c] + WordReversed(u, r)
  {
    assert ([c] + r)[0] == c && ([c] + r)[1..] == r;
  }

  /** A letter-free prefix is copied to the front of the output unchanged. */
  lemma {:induction false} SkipNonLetters(u: Tables, a: string, r: string)
    requires Uniform(u, a, false)
    ensures WordReversed(u, a + r) == a + WordReversed(u, r)
    decreases |a|
  {
    if a == [] {
      assert a + r == r;
    } else {
      var a' := a[1..];
      assert Uniform(u, a', false) by {
        forall i | 0 <= i < |a'|
          ensures u.isLetter(a'[i]) == false
        {
          assert a'[i] == a[i + 1];
        }
      }
      SkipNonLetters(u, a', r);
      CopyNonLetter(u, a[0], a' + r);
      assert a + r == [a[0]] + (a' + r);
    }
  }

  /** A letter run followed by a non-letter (or by nothing) is transformed on its own. */
  lemma {:induction false} LetterRunThen(u: Tables, w: string, rest: string)
    requires w != [] && Uniform(u, w, true)
    requires rest != [] ==> !u.isLetter(rest[0])
    ensures WordReversed(u, w + rest) == RecasedReversal(u, w) + WordReversed(u, rest)
  {
    var s := w + rest;
    assert s[..|w|] == w && s[|w|..] == rest;
    if rest != [] {
      assert s[|w|] == rest[0];
    }
    RunLengthOf(u, s, true, |w|);
  }

  /** An input without letters comes back unchanged. */
  lemma {:induction false} NoLettersUnchanged(u: Tables, s: string)
    requires Uniform(u, s, false)
    ensures WordReversed(u, s) == s
  {
    SkipNonLetters(u, s, []);
    assert s + [] == s;
  }

  /** Transforming a token list that starts with a letter-free token and a letter token. */
  lemma {:induction false} TransformTokensCons(u: Tables, a: string, b: string, rest: seq<string>)
    ensures TransformTokens(u, [a, b] + rest) == [a, RecasedReversal(u, b)] + TransformTokens(u, rest)
  {
    assert ([a, b] + rest)[2..] == rest;
  }

  /** On any segmentation, the scan equals the token view: transform the odd tokens and join. */
  lemma {:induction false} TokenwiseOfSegmentation(u: Tables, s: string, t: seq<string>)
    requires Segmentation(u, s, t)
    ensures WordReversed(u, s) == Flatten(TransformTokens(u, t))
    decreases |t|
  {
    if |t| == 1 {
      assert Flatten(t) == t[0] + Flatten([]);
      NoLettersUnchanged(u, s);
      assert TransformTokens(u, t) == t;
    } else {
      var a, b, r := t[0], t[1], Flatten(t[2..]);
      FlattenTwo(t);
      AlternatingRelax(u, t[2..]);
      TokenwiseOfSegmentation(u, r, t[2..]);
      if r != [] {
        FirstOfRest(u, t[2..]);
      }
      SkipNonLetters(u, a, b + r);
      LetterRunThen(u, b, r);
      assert a + b + r == a + (b + r);
      FrontTwo(t);
      TransformTokensCons(u, a, b, t[2..]);
      FlattenCons2(a, RecasedReversal(u, b), TransformTokens(u, t[2..]));
    }
  }

  /**
   * The scan equals the token view of the capturing split: replace every odd
   * token by its recased reversal, keep every even token, and join in the
   * original order.
   */
  lemma {:induction false} TokenwiseTransform(u: Tables, s: string)
    ensures WordReversed(u, s) == Flatten(TransformTokens(u, Split(u, s)))
  {
    SplitSegmentation(u, s);
    TokenwiseOfSegmentation(u, s, Split(u, s));
  }

  /**
   * transform: splits the input into tokens, replaces each non-empty odd
   * token by its recased reversal in place, and joins the tokens.
   */
  method Transform(u: Tables, input: string) returns (output: string)
    ensures input == [] ==> output == []
    ensures output == WordReversed(u, input)
  {
    if input == [] {
      return [];
    }
    var tokens := Split(u, input);
    ghost var original := tokens;
    ghost var target := TransformTokens(u, original);
    var i := 0;
    while i < |tokens|
      invariant 0 <= i <= |tokens| == |original| == |target|
      invariant forall k :: 0 <= k < i ==> tokens[k] == target[k]
      invariant forall k :: i <= k < |tokens| ==> tokens[k] == original[k]
    {
      TransformTokensAt(u, original, i);
      var token := tokens[i];
      if i % 2 == 1 && tokens[i] != [] {
        token := ReverseLettersPreservingCase(u, tokens[i]);
      } else if i % 2 == 1 {
        EmptyRunUnchanged(u);
      }
      SlotStep(tokens, target, original, i, token);
      tokens := tokens[i := token];
      i := i + 1;
    }
    assert tokens == target;
    TokenwiseTransform(u, input);
    output := Flatten(tokens);
  }

  /**
   * With single-code-point mappings the output has the input's length and
   * every non-letter stays at its position, unchanged.
   */
  lemma {:induction false} SkeletonPreserved(u: Tables, s: string)
    requires SingleCodePoint(u)
    ensures |WordReversed(u, s)| == |s|
    ensures forall i :: 0 <= i < |s| && !u.isLetter(s[i]) ==> WordReversed(u, s)[i] == s[i]
    decreases |s|
  {
    if s == [] {
    } else if !u.isLetter(s[0]) {
      SkeletonPreserved(u, s[1..]);
      var r := WordReversed(u, s);
      forall i | 0 < i < |s| && !u.isLetter(s[i])
        ensures r[i] == s[i]
      {
        assert s[1..][i - 1] == s[i];
      }
    } else {
      var j := RunLength(u, s, true);
      SkeletonPreserved(u, s[j..]);
      RecasedReversalLength(u, s[..j]);
      var r := WordReversed(u, s);
      forall i | 0 <= i < |s| && !u.isLetter(s[i])
        ensures r[i] == s[i]
      {
        if i >= j {
          assert s[j..][i - j] == s[i];
        }
      }
    }
  }
}
