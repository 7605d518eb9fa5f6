/** Properties of the selection set and the theme switch. */
module SelectionProperties {
  import opened Catalog
  import opened Selection

  /** Toggling keeps the selection free of duplicates. */
  lemma ToggledKeepsNoDuplicates(s: seq<string>, id: string)
    requires NoDuplicates(s)
    ensures NoDuplicates(Toggled(s, id))
  {
  }

  lemma {:induction false} WithoutAppended(s: seq<string>, id: string)
    requires id !in s
    ensures Without(s + [id], id) == s
  {
    if s != [] {
      assert (s + [id])[1..] == s[1..] + [id];
      WithoutAppended(s[1..], id);
    }
  }

  /** Toggling the same identifier twice restores the membership of every identifier. */
  lemma ToggleTwiceRestoresMembership(s: seq<string>, id: string)
    ensures forall x :: x in Toggled(Toggled(s, id), id) <==> x in s
  {
  }

  /**
   * Selecting a new identifier and deselecting it again restores the selection
   * exactly; deselecting a member and selecting it again moves it to the end.
   */
  lemma ToggleTwice(s: seq<string>, id: string)
    ensures id !in s ==> Toggled(Toggled(s, id), id) == s
    ensures id in s && NoDuplicates(s) ==> Toggled(Toggled(s, id), id) == Without(s, id) + [id]
  {
    if id !in s {
      WithoutAppended(s, id);
    }
  }

  /** Switching the theme twice restores it. */
  lemma FlipTwice(t: Theme)
    ensures Flipped(Flipped(t)) == t
  {
  }
}
