/**
 * The session state of the browser page: the insertion-ordered selection set,
 * the "show selected" button, the details panel and the colour theme, with the
 * user actions that change them.
 */
module Selection {
  import opened Wrappers
  import opened Catalog
  import opened Aggregator

  // ---------------------------------------------------------------------------
  // The selection set as a sequence in insertion order
  // ---------------------------------------------------------------------------

  /** The position of the first occurrence of `id` in `s`. */
  function IndexOf(s: seq<string>, id: string): (i: nat)
    requires id in s
    ensures i < |s| && s[i] == id && id !in s[..i]
  {
    if s[0] == id then 0
    else
      assert id in s[1..];
      var i := IndexOf(s[1..], id);
      assert s[..i + 1] == [s[0]] + s[1..][..i];
      i + 1
  }

  /** `set.delete(id)`: the one occurrence of `id` is cut out, every other member stays, in its order. */
  function Without(s: seq<string>, id: string): (r: seq<string>)
    ensures forall x :: x in r <==> x in s && x != id
    ensures NoDuplicates(s) ==> NoDuplicates(r)
    ensures id !in s ==> r == s
    ensures NoDuplicates(s) && id in s ==> r == s[..IndexOf(s, id)] + s[IndexOf(s, id) + 1..]
  {
    if s == [] then []
    else
      var rest := Without(s[1..], id);
      if s[0] == id then
        WithoutHead(s, id, rest);
        rest
      else
        WithoutCons(s, id, rest);
        [s[0]] + rest
  }

  /** `Without` on a list that starts with `id`: the tail's result is the result. */
  lemma WithoutHead(s: seq<string>, id: string, rest: seq<string>)
    requires s != [] && s[0] == id
    requires forall x :: x in rest <==> x in s[1..] && x != id
    requires NoDuplicates(s[1..]) ==> NoDuplicates(rest)
    requires id !in s[1..] ==> rest == s[1..]
    ensures forall x :: x in rest <==> x in s && x != id
    ensures NoDuplicates(s) ==> NoDuplicates(rest)
    ensures id !in s ==> rest == s
    ensures NoDuplicates(s) && id in s ==> rest == s[..IndexOf(s, id)] + s[IndexOf(s, id) + 1..]
  {
    assert s == [s[0]] + s[1..];
    if NoDuplicates(s) {
      TailNoDuplicates(s);
      assert s[..0] + s[1..] == s[1..];
    }
  }

  /** `Without` on a list that starts with another id: that id stays in front of the tail's result. */
  lemma WithoutCons(s: seq<string>, id: string, rest: seq<string>)
    requires s != [] && s[0] != id
    requires forall x :: x in rest <==> x in s[1..] && x != id
    requires NoDuplicates(s[1..]) ==> NoDuplicates(rest)
    requires id !in s[1..] ==> rest == s[1..]
    requires NoDuplicates(s[1..]) && id in s[1..] ==> rest == s[1..][..IndexOf(s[1..], id)] + s[1..][IndexOf(s[1..], id) + 1..]
    ensures forall x :: x in [s[0]] + rest <==> x in s && x != id
    ensures NoDuplicates(s) ==> NoDuplicates([s[0]] + rest)
    ensures id !in s ==> [s[0]] + rest == s
    ensures NoDuplicates(s) && id in s ==> [s[0]] + rest == s[..IndexOf(s, id)] + s[IndexOf(s, id) + 1..]
  {
    assert s == [s[0]] + s[1..];
    if NoDuplicates(s) {
      TailNoDuplicates(s);
      ConsNoDuplicates(s[0], rest);
      if id in s {
        assert id in s[1..];
        ConsSplice(s[0], s[1..], IndexOf(s[1..], id), rest);
      }
    }
  }

  /**
   * If `rest` is `t` with position `k` cut out, then `[x] + rest` is `[x] + t`
   * with position `k + 1` cut out.
   */
  lemma ConsSplice(x: string, t: seq<string>, k: int, rest: seq<string>)
    requires 0 <= k < |t| && rest == t[..k] + t[k + 1..]
    ensures [x] + rest == ([x] + t)[..k + 1] + ([x] + t)[k + 2..]
  {
    assert ([x] + t)[..k + 1] == [x] + t[..k];
    assert ([x] + t)[k + 2..] == t[k + 1..];
  }

  lemma TailNoDuplicates(s: seq<string>)
    requires s != [] && NoDuplicates(s)
    ensures NoDuplicates(s[1..]) && s[0] !in s[1..]
  {
    forall i, j | 0 <= i < j < |s| - 1
      ensures s[1..][i] != s[1..][j]
    {
      assert s[1..][i] == s[i + 1] && s[1..][j] == s[j + 1];
    }
  }

  lemma ConsNoDuplicates(x: string, t: seq<string>)
    requires NoDuplicates(t) && x !in t
    ensures NoDuplicates([x] + t)
  {
    forall i, j | 0 <= i < j < |t| + 1
      ensures ([x] + t)[i] != ([x] + t)[j]
    {
      assert ([x] + t)[j] == t[j - 1];
      if i > 0 {
        assert ([x] + t)[i] == t[i - 1];
      }
    }
  }

  /** The selection after `toggleThreatSelection(id)`: delete a member, append a non-member. */
  function Toggled(s: seq<string>, id: string): (r: seq<string>)
    ensures id in r <==> id !in s
    ensures forall x :: x != id ==> (x in r <==> x in s)
    ensures id !in s ==> r == s + [id]
    ensures NoDuplicates(s) && id in s ==> r == s[..IndexOf(s, id)] + s[IndexOf(s, id) + 1..]
  {
    if id in s then Without(s, id) else s + [id]
  }

  /** `selectedThreats.size === 0`: the rule for disabling the "show selected" button. */
  predicate ShowDisabledFor(s: seq<string>): (d: bool)
    ensures d <==> forall x :: x !in s
  {
    assert |s| > 0 ==> s[0] in s;
    |s| == 0
  }

  // ---------------------------------------------------------------------------
  // Theme and details panel
  // ---------------------------------------------------------------------------

  datatype Theme = Dark | Light

  /** The theme after `toggleTheme`. */
  function Flipped(t: Theme): (r: Theme)
    ensures r != t
  {
    if t == Dark then Light else Dark
  }

  /** Why "show selected" refused to aggregate. */
  datatype ShowError = EmptySelection

  /** What the details panel holds. */
  datatype Details =
    | Prompt                  // the "choose threats from the list" empty state
    | Failed(reason: ShowError)
    | Shown(aggregate: Aggregate)

  // ---------------------------------------------------------------------------
  // The session
  // ---------------------------------------------------------------------------

  class Session {
    /** `state.selectedThreats`, in insertion order. */
    var selected: seq<string>
    /** The `disabled` flag of the "show selected" button. */
    var showDisabled: bool
    /** `state.currentTheme`. */
    var theme: Theme
    /** The content of the details panel. */
    var details: Details
    /** `state.threatsData`: the catalog once loaded, or nothing. */
    const data: Option<Catalog>

    ghost predicate Valid()
      reads this
    {
      NoDuplicates(selected)
    }

    /**
     * The page after start-up: nothing selected, the stored theme or "dark",
     * and the button in whatever state the page's markup gave it.
     */
    constructor (storedTheme: Option<Theme>, data: Option<Catalog>, buttonDisabled: bool)
      ensures Valid()
      ensures selected == [] && theme == storedTheme.GetOr(Dark)
      ensures this.data == data && showDisabled == buttonDisabled && details == Prompt
    {
      selected := [];
      showDisabled := buttonDisabled;
      theme := storedTheme.GetOr(Dark);
      details := Prompt;
      this.data := data;
    }

    /** `updateShowButtonState`. */
    method UpdateShowButton()
      requires Valid()
      modifies this
      ensures Valid()
      ensures showDisabled == ShowDisabledFor(selected)
      ensures selected == old(selected) && theme == old(theme) && details == old(details)
    {
      showDisabled := |selected| == 0;
    }

    /** `toggleThreatSelection(id)`. */
    method ToggleThreat(id: string)
      requires Valid()
      modifies this
      ensures Valid()
      ensures selected == Toggled(old(selected), id)
      ensures showDisabled <==> selected == []
      ensures theme == old(theme) && details == old(details)
    {
      if id in selected {
        selected := Without(selected, id);
      } else {
        selected := selected + [id];
      }
      UpdateShowButton();
    }

    /** `clearSelection`. */
    method ClearSelection()
      requires Valid()
      modifies this
      ensures Valid()
      ensures selected == [] && showDisabled && details == Prompt
      ensures theme == old(theme)
    {
      selected := [];
      details := Prompt;
      UpdateShowButton();
    }

    /**
     * `loadSelectedThreats`: an empty selection is refused with an error
     * message and nothing is aggregated; otherwise the panel shows the
     * aggregate of the selection in insertion order.
     */
    method LoadSelected()
      requires Valid()
      modifies this
      ensures Valid()
      ensures old(selected) == [] ==> details == Failed(EmptySelection)
      ensures old(selected) != [] ==> details == Shown(Combine(old(selected), data))
      ensures selected == old(selected) && showDisabled == old(showDisabled) && theme == old(theme)
    {
      if |selected| == 0 {
        details := Failed(EmptySelection);
        return;
      }
      var agg := CombinedDetails(selected, data);
      details := Shown(agg);
    }

    /** `toggleTheme`. */
    method ToggleTheme()
      requires Valid()
      modifies this
      ensures Valid()
      ensures theme == Flipped(old(theme))
      ensures selected == old(selected) && showDisabled == old(showDisabled) && details == old(details)
    {
      theme := if theme == Dark then Light else Dark;
    }
  }
}
