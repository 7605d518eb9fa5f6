/**
 * The live search over the details panel: every rendered object or
 * implementation item stays visible iff its text contains the query, compared
 * in lower case, and a single "nothing found" marker is shown iff the query is
 * non-empty and no item is visible.
 */
module DetailsSearch {

  // ---------------------------------------------------------------------------
  // Case-insensitive substring match
  // ---------------------------------------------------------------------------

  /** The capitals that `LowerChar` maps: Latin A-Z and the Cyrillic А-Я and Ё. */
  predicate IsCapital(c: char) {
    'A' <= c <= 'Z' || 0x410 <= c as int <= 0x42F || c as int == 0x401
  }

  /** `toLowerCase` on one character: a capital becomes its small letter, everything else stays. */
  function LowerChar(c: char): (r: char)
    ensures !IsCapital(r)
    ensures r == c <==> !IsCapital(c)
  {
    if 'A' <= c <= 'Z' then (c as int + 0x20) as char
    else if 0x410 <= c as int <= 0x42F then (c as int + 0x20) as char
    else if c as int == 0x401 then 0x451 as char
    else c
  }

  /** `s.toLowerCase()`, character by character. */
  function Lower(s: string): (r: string)
    ensures |r| == |s|
    ensures forall i :: 0 <= i < |s| ==> !IsCapital(r[i]) && (r[i] == s[i] <==> !IsCapital(s[i]))
  {
    seq(|s|, i requires 0 <= i < |s| => LowerChar(s[i]))
  }

  /** `term` is a prefix of `text`. */
  predicate StartsWith(text: string, term: string) {
    |term| <= |text| && text[..|term|] == term
  }

  /** `text.includes(term)`: `term` occurs somewhere in `text`. */
  predicate Includes(text: string, term: string): (b: bool)
    ensures b ==> |term| <= |text|
    ensures term == [] ==> b
    decreases |text|
  {
    StartsWith(text, term) || (text != [] && Includes(text[1..], term))
  }

  /** An item's text matches the query, ignoring case. */
  predicate Matches(text: string, query: string): (m: bool)
    ensures m ==> |query| <= |text|
    ensures query == [] ==> m
  {
    Includes(Lower(text), Lower(query))
  }

  // ---------------------------------------------------------------------------
  // The details panel
  // ---------------------------------------------------------------------------

  class DetailsView {
    /** The text content of each object and implementation item, in panel order. */
    const texts: seq<string>
    /** Whether each item is displayed (its `style.display` is not "none"). */
    const shown: array<bool>
    /** How many "nothing found" markers the panel holds. */
    var markers: nat

    ghost predicate Valid()
      reads this
    {
      shown.Length == |texts| && markers <= 1
    }

    /** A freshly rendered panel: every item visible, no marker. */
    constructor (texts: seq<string>)
      ensures Valid() && this.texts == texts && fresh(shown) && markers == 0
      ensures forall i :: 0 <= i < shown.Length ==> shown[i]
    {
      this.texts := texts;
      shown := new bool[|texts|](i => true);
      markers := 0;
    }

    /**
     * The `input` handler of the search field. `selectionEmpty` is
     * `state.selectedThreats.size === 0`, in which case nothing changes.
     */
    method Filter(query: string, selectionEmpty: bool)
      requires Valid()
      modifies this, shown
      ensures Valid()
      ensures selectionEmpty ==> shown[..] == old(shown[..]) && markers == old(markers)
      ensures !selectionEmpty ==> forall i :: 0 <= i < |texts| ==> (shown[i] <==> Matches(texts[i], query))
      ensures !selectionEmpty ==> (markers == 1 <==> query != [] && forall i :: 0 <= i < |texts| ==> !shown[i])
      // A second marker is never created; this restates `markers <= 1` from `Valid()`.
      ensures markers <= if old(markers) == 0 then 1 else old(markers)
      ensures !selectionEmpty && query == [] ==> markers == 0 && forall i :: 0 <= i < |texts| ==> shown[i]
    {
      if selectionEmpty {
        return;
      }
      var term := Lower(query);
      var hasVisible := false;
      for i := 0 to |texts|
        invariant forall j :: 0 <= j < i ==> (shown[j] <==> Matches(texts[j], query))
        invariant hasVisible <==> exists j :: 0 <= j < i && shown[j]
        invariant markers == old(markers)
      {
        var isVisible := Includes(Lower(texts[i]), term);
        assert query == [] ==> isVisible;
        shown[i] := isVisible;
        if isVisible {
          hasVisible := true;
        }
      }
      if !hasVisible && term != [] {
        if markers == 0 {
          markers := 1;
        }
      } else if markers > 0 {
        markers := markers - 1;
      }
    }
  }
}
