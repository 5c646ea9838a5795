/**
 * The Unicode collaborators of the word reverser, left uninterpreted: the
 * letter property \p{L} used by the segmenting regular expression, and the
 * per-code-point full case mappings behind mb_strtoupper and mb_strtolower.
 * A full case mapping may expand one code point into several, so the
 * mappings return strings.
 */
module Unicode {
  import opened Seqs

  /** One instance of the tables: which code points are letters, and their case mappings. */
  datatype Tables = Tables(isLetter: char -> bool, upper: char -> string, lower: char -> string)

  /** Every case mapping of the tables yields exactly one code point. */
  predicate SingleCodePoint(u: Tables)
  {
    forall c :: |u.upper(c)| == 1 && |u.lower(c)| == 1
  }

  /** mb_strtoupper: each code point replaced by its uppercase mapping. */
  function ToUpper(u: Tables, s: string): (r: string)
    ensures SingleCodePoint(u) ==> |r| == |s|
  {
    if s == [] then [] else u.upper(s[0]) + ToUpper(u, s[1..])
  }

  /** mb_strtolower: each code point replaced by its lowercase mapping. */
  function ToLower(u: Tables, s: string): (r: string)
    ensures SingleCodePoint(u) ==> |r| == |s|
  {
    if s == [] then [] else u.lower(s[0]) + ToLower(u, s[1..])
  }

  /** On a single code point, the string mappings are the table entries. */
  lemma {:induction false} MappingsOfCodePoint(u: Tables, c: char)
    ensures ToUpper(u, [c]) == u.upper(c)
    ensures ToLower(u, [c]) == u.lower(c)
  {
    assert [c][1..] == [];
  }
}
