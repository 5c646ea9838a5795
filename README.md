# Word reverser, modelled in Dafny

The modelled component is a PHP service: `WordReverser::transform`, together with its helpers `reverseLettersPreservingCase`, `caseOf` and `mbStrToArray`. `transform` works in three steps:

- It cuts a string into alternating runs of non-letters and maximal runs of letters. A letter is a code point with the Unicode property `\p{L}`; the cut is `preg_split` with a capturing group.
- It reverses the code points of every letter run. Each position keeps its original case class: the letter that lands at position i is upper-cased when the original letter at i was upper case, lower-cased when it was lower case, and left alone otherwise.
- It joins the runs again in their original order.

Non-letters stay where they were: punctuation, digits, whitespace, and the word separators `-`, `'` and `` ` ``.

The project is laid out as follows:

- `seqs.dfy` (module `Seqs`): joining a list of strings without a separator (`implode('', ...)`) and reversal (`array_reverse`).
- `unicode.dfy` (module `Unicode`): the Unicode knowledge the service relies on, as one value of type `Tables`. It holds three fields: the letter property, and the per-code-point full case mappings behind `mb_strtoupper` and `mb_strtolower`. A full case mapping may expand one code point into several, so a mapping returns a string. `ToUpper` and `ToLower` apply the mappings to a string code point by code point.
- `word_reverser.dfy` (module `WordReverser`): the service itself.
  - `CaseOf` is `caseOf`, and `MbStrToArray` is `mbStrToArray`.
  - `ReverseLettersPreservingCase` is a method with the source's re-casing loop over the reversed list. It is proved equal to the specification function `RecasedReversal`.
  - `Split` is the capturing split.
  - `Transform` is a method with the source's loop, which overwrites the odd tokens in place. It is proved equal to `WordReversed`. That function is an independent reference definition: a left-to-right scan that copies each non-letter and replaces each maximal letter run by its recased reversal.
  - `SplitSegmentation` and `SplitUnique` show that the split is the one and only token list of the alternating shape that joins back to the input.
  - `TokenwiseTransform` connects the token view of `transform` with the scan.
- `scenarios.dfy` (module `Scenarios`): concrete cases from the repository's test suite, under three small instances of the tables. The first is ASCII only. The second adds U+0130, whose lowercase mapping is the two code points `i` and U+0307. The third adds a caseless letter, U+5C71.

## Properties the code does not have

Three properties one might expect of the transform do not hold for every input:

- **Length.** The output does not always have the input's code-point length. The code keeps the length only when every case mapping yields one code point: `SkeletonPreserved` and `RecasedReversalLength` assume `SingleCodePoint`. `ExpandingMappingCounterexample` exhibits a run that grows by one code point. The test at tests/WordReverserTest.php:294 expects that growth.
- **Round trip.** `transform(transform(x)) == x` does not hold for all `x`: the same lemma shows a second application that does not restore the input.
- **Case position.** Output position i does not always have the case class of input position i. Position i gets the letter from the mirrored position, mapped into the recorded class. A caseless letter there stays caseless, as `CaselessMirrorExample` shows. The property that does hold, piece by piece, is `PieceAt`.

## Model

| member | source | states |
|---|---|---|
| Unicode.ToUpper | src/Service/WordReverser.php:71 | mb_strtoupper applied code point by code point; with single-code-point tables it keeps the length |
| Unicode.ToLower | src/Service/WordReverser.php:73 | mb_strtolower applied code point by code point; with single-code-point tables it keeps the length |
| Unicode.MappingsOfCodePoint | src/Service/WordReverser.php:88-89 | on one code point, the string mappings are exactly the table's uppercase and lowercase entries |
| WordReverser.CaseOf | src/Service/WordReverser.php:86-98 | defines caseOf by comparing the string with its uppercase and lowercase forms; its meaning on one code point is CaseOfCodePoint |
| WordReverser.CaseOfCodePoint | src/Service/WordReverser.php:86-98 | caseOf is upper iff the code point equals its uppercase mapping and differs from its lowercase one; lower iff the mirror holds; none iff neither; upper and lower exclude each other |
| WordReverser.Recase | src/Service/WordReverser.php:70-74 | defines the if/elseif of the re-casing loop: uppercase for upper, lowercase for lower, unchanged for none; PieceAt gives its effect on each slot |
| WordReverser.RecaseOwnClass | src/Service/WordReverser.php:69-75 | putting a code point into its own case class leaves it unchanged |
| WordReverser.MbStrToArray | src/Service/WordReverser.php:106-110 | one entry per code point, entry i being the one-code-point string of code point i |
| WordReverser.MbStrToArrayJoins | src/Service/WordReverser.php:106-110 | joining the code-point list gives the original string back |
| WordReverser.CaseMask | src/Service/WordReverser.php:65 | the array_map of caseOf over the pieces: one class per piece; CaseMaskAt gives each entry |
| WordReverser.CaseMaskAt | src/Service/WordReverser.php:65 | entry i of the case mask is caseOf of piece i |
| WordReverser.ZipRecaseAt | src/Service/WordReverser.php:69-75 | slot i of the re-cased list is code point i of the reversed run, put into the class recorded for position i |
| WordReverser.PieceAt | src/Service/WordReverser.php:64-77 | piece i of a reversed run is the uppercase mapping of the mirrored code point w[n-1-i] when w[i] is upper; its lowercase mapping when w[i] is lower; the mirrored code point itself otherwise |
| WordReverser.EmptyRunUnchanged | src/Service/WordReverser.php:48 | the empty run is its own recased reversal, so skipping empty odd tokens changes nothing |
| WordReverser.SlotAt | src/Service/WordReverser.php:69-75 | slot k of the method's reversed list, re-cased by the mask entry k, is piece k of the specification |
| WordReverser.ReverseLettersPreservingCase | src/Service/WordReverser.php:62-78 | the method's result, after its in-place re-casing loop, is the join of the pieces described by PieceAt |
| WordReverser.RecasedReversalLength | src/Service/WordReverser.php:69-77 | with single-code-point tables, a run keeps its length and position i holds exactly piece i |
| WordReverser.CaselessRunReversed | src/Service/WordReverser.php:69-75 | a run in which no position is upper or lower comes back simply reversed |
| WordReverser.SingleLetterUnchanged | src/Service/WordReverser.php:62-78 | a one-letter run is returned unchanged |
| WordReverser.RunLength | src/Service/WordReverser.php:41 | the length of the longest prefix of letters (or of non-letters); the code point after it, if any, is of the other kind |
| WordReverser.RunLengthOf | src/Service/WordReverser.php:41 | a uniform prefix followed by a code point of the other kind, or by the end, is exactly the run the split takes |
| WordReverser.AlternatingShape | src/Service/WordReverser.php:41 | a token list of the split's shape has odd length; its odd tokens are non-empty letter runs; its even tokens are letter-free; only the first and last even tokens may be empty |
| WordReverser.Split | src/Service/WordReverser.php:41 | defines the capturing split: a letter-free run, then a maximal letter run, then the split of the rest; SplitSegmentation and SplitUnique give its meaning |
| WordReverser.SplitSegmentation | src/Service/WordReverser.php:41 | the capturing split joins back to the input exactly and has the alternating shape; the empty string gives one empty token |
| WordReverser.SplitOfConcat | src/Service/WordReverser.php:41 | splitting a letter-free run, a letter run and a rest that does not start with a letter gives the two runs and the split of the rest |
| WordReverser.SplitUnique | src/Service/WordReverser.php:41 | any token list of the alternating shape that joins to the input is the capturing split of the input |
| WordReverser.TransformTokens | src/Service/WordReverser.php:47-51 | the token list after the foreach, one token per input token; TransformTokensAt gives each entry |
| WordReverser.TransformTokensAt | src/Service/WordReverser.php:47-51 | after the loop, odd token i is the recased reversal of the original token and even token i is unchanged |
| WordReverser.CopyNonLetter | src/Service/WordReverser.php:47-53 | a leading non-letter is copied to the output and the rest is transformed |
| WordReverser.SkipNonLetters | src/Service/WordReverser.php:47-53 | a letter-free prefix reaches the output unchanged, in front of the transformed rest |
| WordReverser.LetterRunThen | src/Service/WordReverser.php:47-53 | a maximal letter run is replaced by its recased reversal, independently of what follows |
| WordReverser.NoLettersUnchanged | src/Service/WordReverser.php:41-53 | an input without letters is returned unchanged |
| WordReverser.TokenwiseOfSegmentation | src/Service/WordReverser.php:47-53 | on any token list of the split's shape, joining the tokens with the odd ones reversed gives the left-to-right scan |
| WordReverser.TokenwiseTransform | src/Service/WordReverser.php:41-53 | split, reverse the odd tokens, join: the result is the left-to-right scan of the input |
| WordReverser.Transform | src/Service/WordReverser.php:33-54 | the empty input gives the empty output; for every input, the method's in-place loop over the tokens yields the left-to-right scan |
| WordReverser.SkeletonPreserved | src/Service/WordReverser.php:47-53 | with single-code-point tables, the output has the input's length and every non-letter stays at its position |
| Scenarios.TwoWords | tests/WordReverserTest.php:44 | two letter runs around one separator are reversed independently, and the separator stays between them |
| Scenarios.CatExample | tests/WordReverserTest.php:25 | "Cat" becomes "Tac" |
| Scenarios.HouseExample | tests/WordReverserTest.php:27 | "houSe" becomes "esuOh": the case pattern stays with the positions |
| Scenarios.HyphenExample | tests/WordReverserTest.php:44 | "third-part" becomes "driht-trap" |
| Scenarios.NoLettersExample | tests/WordReverserTest.php:355 | "123!@#456" comes back unchanged |
| Scenarios.IstanbulExample | tests/WordReverserTest.php:294 | the run ending in U+0130 becomes "i", U+0307, "stanbuL": the lowercase mapping of U+0130 expands |
| Scenarios.ExpandingMappingCounterexample | tests/WordReverserTest.php:294 | with that expanding mapping, a two-letter run grows by one code point, and transforming the output again does not restore the input |
| Scenarios.CaselessMirrorExample | src/Service/WordReverser.php:69-75 | on a constructed input, "A" followed by a caseless letter becomes the caseless letter followed by "A": position 0 was upper in the input and is caseless in the output |

## Left out

- The `false` result of the capturing split (src/Service/WordReverser.php:42-43) is not modelled. It only occurs on invalid UTF-8, and the model's strings are sequences of code points.
- The `[$str]` fallback of `mbStrToArray` (src/Service/WordReverser.php:109) is not modelled, for the same reason.
- The real Unicode tables behind `\p{L}`, `mb_strtoupper` and `mb_strtolower` are a parameter, not data. The script-specific test cases (Cyrillic, ß, CJK and the others) are therefore not restated. Only the small table instances in `Scenarios` are used.
- Case mappings are applied one code point at a time. Context-sensitive mappings, such as the Greek final sigma, are not modelled. The source applies the mappings only to single code points, so context never arises.
- The `WordReverserInterface` declaration and the `final class` wrapper are not modelled. The class has no state, so its operations are module-level members.
- The `ENCODING` constant is implied: every string is a sequence of code points.
- PHP arrays are modelled as `seq` values. `foreach` iterating over a copy of `$tokens` while the loop writes into it is modelled as one sequence that the loop reassigns. Each slot is read before it is written, so the two behave the same.
- `caseOf` returns the strings `'upper'`, `'lower'` and `'none'`. The model returns the three constructors of `CaseClass` instead.
- A round-trip lemma and an unconditional length lemma are not stated, because the code does not have these properties. See the counterexample in `Scenarios`.
