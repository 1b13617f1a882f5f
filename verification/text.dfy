/** The text match behind `Question.question.ilike('%term%')`: a
    case-insensitive substring test. Case folding is ASCII only. */
module Text {

  /** Lower-case an ASCII letter; every other character is kept. */
  function LowerChar(c: char): (r: char)
    ensures 'A' <= c <= 'Z' ==> 'a' <= r <= 'z' && r as int - c as int == 'a' as int - 'A' as int
    ensures !('A' <= c <= 'Z') ==> r == c
  {
    if 'A' <= c <= 'Z' then (c as int - 'A' as int + 'a' as int) as char else c
  }

  /** Lower-case every ASCII letter of a string. */
  function Lower(s: string): string
  {
    seq(|s|, i requires 0 <= i < |s| => LowerChar(s[i]))
  }

  /** `term` occurs in `text` at offset `i`, letter case ignored. */
  predicate MatchesAt(text: string, term: string, i: int)
  {
    0 <= i && i + |term| <= |text| && Lower(text[i..i + |term|]) == Lower(term)
  }

  /** `text ILIKE '%' || term || '%'` for a term without pattern
      characters. */
  function Contains(text: string, term: string): (found: bool)
    ensures found ==> |term| <= |text|
    ensures term == "" ==> found
  {
    assert term == "" ==> MatchesAt(text, term, 0);
    exists i | 0 <= i <= |text| - |term| :: MatchesAt(text, term, i)
  }

  /** The characters that ILIKE reads as pattern syntax rather than text. */
  predicate NoWildcards(term: string)
  {
    forall i | 0 <= i < |term| :: term[i] != '%' && term[i] != '_' && term[i] != '\\'
  }

  /** `'%%'` matches every text. */
  lemma EmptyTermMatchesAll(text: string)
    ensures Contains(text, "")
  {
    assert MatchesAt(text, "", 0);
  }

  /** Lower-casing is idempotent. */
  lemma LowerIdempotent(s: string)
    ensures Lower(Lower(s)) == Lower(s)
  {
  }

  /** The match ignores the case of the term: searching for a term and for
      its lower-cased form gives the same answer. */
  lemma TermCaseIgnored(text: string, term: string)
    ensures Contains(text, term) <==> Contains(text, Lower(term))
  {
    LowerIdempotent(term);
    if Contains(text, term) {
      var i :| 0 <= i <= |text| - |term| && MatchesAt(text, term, i);
      assert MatchesAt(text, Lower(term), i);
    }
    if Contains(text, Lower(term)) {
      var i :| 0 <= i <= |text| - |term| && MatchesAt(text, Lower(term), i);
      assert MatchesAt(text, term, i);
    }
  }

  /** A term that literally occurs in a text is found in it. */
  lemma {:induction false} OccurrenceIsFound(before: string, term: string, after: string)
    ensures Contains(before + term + after, term)
  {
    var text := before + term + after;
    assert text[|before|..|before| + |term|] == term;
    assert MatchesAt(text, term, |before|);
  }
}
