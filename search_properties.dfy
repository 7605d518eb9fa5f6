/** Properties of the case-insensitive match behind the details search. */
module DetailsSearchProperties {
  import opened DetailsSearch

  /** `term` stands at offset `i` of `text`. */
  ghost predicate OccursAt(text: string, term: string, i: int) {
    0 <= i <= |text| - |term| && text[i..i + |term|] == term
  }

  /** `Includes` agrees with the positional reading: `term` stands at some offset of `text`. */
  lemma {:induction false} IncludesIffOccursAt(text: string, term: string)
    ensures Includes(text, term) <==> exists i :: OccursAt(text, term, i)
    decreases |text|
  {
    if StartsWith(text, term) {
      assert OccursAt(text, term, 0);
    }
    if text != [] {
      IncludesIffOccursAt(text[1..], term);
      if Includes(text[1..], term) {
        var i :| OccursAt(text[1..], term, i);
        assert text[1..][i..i + |term|] == text[i + 1..i + 1 + |term|];
        assert OccursAt(text, term, i + 1);
      }
    }
    if exists i :: OccursAt(text, term, i) {
      var i :| OccursAt(text, term, i);
      if i > 0 {
        assert text[1..][i - 1..i - 1 + |term|] == text[i..i + |term|];
        assert OccursAt(text[1..], term, i - 1);
      }
    }
  }

  /** The empty query matches every item. */
  /** The capitals `toLowerCase` maps, and the small letters they become, position by position. */
  const LatinCapitals := "ABCDEFGHIJKLMNOPQRSTUVWXYZ"
  const LatinSmall := "abcdefghijklmnopqrstuvwxyz"
  const CyrillicCapitals := "АБВГДЕЁЖЗИЙКЛМНОПРСТУФХЦЧШЩЪЫЬЭЮЯ"
  const CyrillicSmall := "абвгдеёжзийклмнопрстуфхцчшщъыьэюя"

  /** Each Latin capital becomes its own small letter. */
  lemma LowerCharLatinTable()
    ensures |LatinCapitals| == |LatinSmall| == 26
    ensures forall i :: 0 <= i < |LatinCapitals| ==> LowerChar(LatinCapitals[i]) == LatinSmall[i]
  {
  }

  /** Each Cyrillic capital, Ё included, becomes its own small letter. */
  lemma LowerCharCyrillicTable()
    ensures |CyrillicCapitals| == |CyrillicSmall| == 33
    ensures forall i :: 0 <= i < |CyrillicCapitals| ==> LowerChar(CyrillicCapitals[i]) == CyrillicSmall[i]
  {
  }

  lemma EmptyQueryMatchesEverything(text: string)
    ensures Matches(text, "")
  {
  }

  lemma LowerIdempotent(s: string)
    ensures Lower(Lower(s)) == Lower(s)
  {
  }

  /** Matching ignores the case of the query: the query is compared in lower case. */
  lemma MatchIgnoresQueryCase(text: string, query: string)
    ensures Matches(text, query) <==> Matches(text, Lower(query))
  {
    LowerIdempotent(query);
  }

  /** An upper-case query finds lower-case text: "RISK" matches "risk_level: high". */
  lemma UpperCaseQueryMatches()
    ensures Matches("risk_level: high", "RISK")
  {
    assert Lower("RISK") == "risk";
    assert Lower("risk_level: high")[..4] == "risk";
  }
}
