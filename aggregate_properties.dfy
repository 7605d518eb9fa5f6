/**
 * What the aggregator guarantees: each sub-record id is kept once, every kept
 * record comes from a selected, known entry, every contributed id is covered,
 * and the kept record is the first one met in selection order.
 */
module AggregateProperties {
  import opened Wrappers
  import opened Catalog
  import opened Aggregator

  lemma IdsSnoc(rs: seq<Record>, x: Record)
    ensures Ids(rs + [x]) == Ids(rs) + [x.id]
  {
  }

  lemma IdAt(rs: seq<Record>, i: int)
    requires 0 <= i < |rs|
    ensures rs[i].id in Ids(rs)
  {
    assert Ids(rs)[i] == rs[i].id;
  }

  // ---------------------------------------------------------------------------
  // First-writer-wins de-duplication
  // ---------------------------------------------------------------------------

  /** Every kept record is one of the input records (nothing is merged or invented). */
  lemma {:induction false} DedupFromInput(rs: seq<Record>)
    ensures forall x :: x in Dedup(rs) ==> x in rs
  {
    if rs != [] {
      var p, x := rs[..|rs| - 1], rs[|rs| - 1];
      DedupFromInput(p);
      assert rs == p + [x];
    }
  }

  /** An id is kept iff some input record carries it. */
  lemma {:induction false} DedupCoverage(rs: seq<Record>)
    ensures forall id :: id in Ids(Dedup(rs)) <==> id in Ids(rs)
  {
    if rs != [] {
      var p, x := rs[..|rs| - 1], rs[|rs| - 1];
      DedupCoverage(p);
      assert rs == p + [x];
      IdsSnoc(p, x);
      IdsSnoc(Dedup(p), x);
    }
  }

  /** No two kept records share an id. */
  lemma {:induction false} DedupDistinct(rs: seq<Record>)
    ensures forall i, j :: 0 <= i < j < |Dedup(rs)| ==> Dedup(rs)[i].id != Dedup(rs)[j].id
  {
    if rs != [] {
      var p, x := rs[..|rs| - 1], rs[|rs| - 1];
      DedupDistinct(p);
      var d := Dedup(p);
      if x.id !in Ids(d) {
        forall i | 0 <= i < |d|
          ensures d[i].id != x.id
        {
          IdAt(d, i);
        }
      }
    }
  }

  lemma {:induction false} DedupPrefixIsFirstOccurrences(rs: seq<Record>, n: nat)
    requires n <= |rs|
    ensures Dedup(rs[..n]) == FirstOccurrences(rs, n)
  {
    if n > 0 {
      DedupPrefixIsFirstOccurrences(rs, n - 1);
      var p, x := rs[..n - 1], rs[n - 1];
      assert rs[..n][..n - 1] == p;
      DedupCoverage(p);
      if FirstOfItsId(rs, n - 1) {
        forall i | 0 <= i < |p|
          ensures Ids(p)[i] != x.id
        {
          assert p[i] == rs[i];
        }
        assert x.id !in Ids(Dedup(p));
        assert Dedup(rs[..n]) == Dedup(p) + [x];
      } else {
        var i :| 0 <= i < n - 1 && rs[i].id == x.id;
        IdAt(p, i);
        assert Dedup(rs[..n]) == Dedup(p);
      }
    }
  }

  /**
   * The de-duplicated list is exactly the records standing at the first
   * position of their id, in input order: the earliest record wins and the
   * output keeps first-insertion order.
   */
  lemma DedupIsFirstOccurrences(rs: seq<Record>)
    ensures Dedup(rs) == FirstOccurrences(rs, |rs|)
  {
    DedupPrefixIsFirstOccurrences(rs, |rs|);
    assert rs[..|rs|] == rs;
  }

  lemma {:induction false} FirstOccurrencesHas(rs: seq<Record>, n: nat, j: int)
    requires n <= |rs| && j < n && FirstOfItsId(rs, j)
    ensures rs[j] in FirstOccurrences(rs, n)
  {
    if j < n - 1 {
      FirstOccurrencesHas(rs, n - 1, j);
    }
  }

  /** The first record of each id is kept. */
  lemma DedupKeepsFirst(rs: seq<Record>, j: int)
    requires FirstOfItsId(rs, j)
    ensures rs[j] in Dedup(rs)
  {
    DedupIsFirstOccurrences(rs);
    FirstOccurrencesHas(rs, |rs|, j);
  }

  // ---------------------------------------------------------------------------
  // The contributed stream
  // ---------------------------------------------------------------------------

  lemma {:induction false} ContributedAppend(a: seq<string>, b: seq<string>, e: map<string, Entry>, kind: Kind)
    ensures Contributed(a + b, e, kind) == Contributed(a, e, kind) + Contributed(b, e, kind)
    decreases |b|
  {
    if b == [] {
      assert a + b == a;
    } else {
      ContributedAppend(a, b[..|b| - 1], e, kind);
      assert (a + b)[..|a + b| - 1] == a + b[..|b| - 1];
    }
  }

  lemma {:induction false} ContributedFrom(ids: seq<string>, e: map<string, Entry>, kind: Kind, x: Record)
    requires x in Contributed(ids, e, kind)
    ensures exists k :: 0 <= k < |ids| && ids[k] in e && x in Part(e[ids[k]], kind)
  {
    var p := ids[..|ids| - 1];
    if x in Contributed(p, e, kind) {
      ContributedFrom(p, e, kind, x);
      var k :| 0 <= k < |p| && p[k] in e && x in Part(e[p[k]], kind);
      assert ids[k] == p[k];
    } else {
      assert ids[|ids| - 1] in e && x in Part(e[ids[|ids| - 1]], kind);
    }
  }

  lemma ContributedCovers(ids: seq<string>, e: map<string, Entry>, kind: Kind, k: int)
    requires 0 <= k < |ids| && ids[k] in e
    ensures forall x :: x in Part(e[ids[k]], kind) ==> x in Contributed(ids, e, kind)
  {
    ContributedAppend(ids[..k + 1], ids[k + 1..], e, kind);
    assert ids == ids[..k + 1] + ids[k + 1..];
    assert ids[..k + 1][..k] == ids[..k];
  }

  // ---------------------------------------------------------------------------
  // The aggregate
  // ---------------------------------------------------------------------------

  lemma KeptIsDedup(ids: seq<string>, c: Catalog, kind: Kind)
    ensures Kept(Combine(ids, Some(c)), kind) == Dedup(Contributed(ids, c.entries, kind))
  {
  }

  /** In the aggregate each object id and each implementation id appears at most once. */
  lemma AggregateIdsUnique(ids: seq<string>, c: Catalog, kind: Kind)
    ensures var kept := Kept(Combine(ids, Some(c)), kind);
      forall i, j :: 0 <= i < j < |kept| ==> kept[i].id != kept[j].id
  {
    KeptIsDedup(ids, c, kind);
    DedupDistinct(Contributed(ids, c.entries, kind));
  }

  /** Every kept record was contributed by a selected identifier present in the catalog. */
  lemma AggregateProvenance(ids: seq<string>, c: Catalog, kind: Kind)
    ensures forall x :: x in Kept(Combine(ids, Some(c)), kind) ==>
      exists k :: 0 <= k < |ids| && ids[k] in c.entries && x in Part(c.entries[ids[k]], kind)
  {
    var C := Contributed(ids, c.entries, kind);
    KeptIsDedup(ids, c, kind);
    DedupFromInput(C);
    forall x | x in Dedup(C)
      ensures exists k :: 0 <= k < |ids| && ids[k] in c.entries && x in Part(c.entries[ids[k]], kind)
    {
      ContributedFrom(ids, c.entries, kind, x);
    }
  }

  /** Every id contributed by a selected, known entry appears in the aggregate. */
  lemma AggregateCoverage(ids: seq<string>, c: Catalog, kind: Kind)
    ensures forall k, x :: 0 <= k < |ids| && ids[k] in c.entries && x in Part(c.entries[ids[k]], kind) ==>
      x.id in Ids(Kept(Combine(ids, Some(c)), kind))
  {
    var C := Contributed(ids, c.entries, kind);
    KeptIsDedup(ids, c, kind);
    DedupCoverage(C);
    forall k, x | 0 <= k < |ids| && ids[k] in c.entries && x in Part(c.entries[ids[k]], kind)
      ensures x.id in Ids(Dedup(C))
    {
      ContributedCovers(ids, c.entries, kind, k);
      var i :| 0 <= i < |C| && C[i] == x;
      IdAt(C, i);
    }
  }

  /**
   * Which contributor wins: the record at position `j` of the entry selected at
   * position `k` is the one kept for its id whenever no earlier selected entry,
   * and no earlier record of the same entry, carries that id.
   */
  lemma AggregateFirstContributorWins(ids: seq<string>, c: Catalog, kind: Kind, k: int, j: int)
    requires 0 <= k < |ids| && ids[k] in c.entries
    requires 0 <= j < |Part(c.entries[ids[k]], kind)|
    requires forall k', y :: 0 <= k' < k && ids[k'] in c.entries && y in Part(c.entries[ids[k']], kind) ==>
      y.id != Part(c.entries[ids[k]], kind)[j].id
    requires forall j' :: 0 <= j' < j ==> Part(c.entries[ids[k]], kind)[j'].id != Part(c.entries[ids[k]], kind)[j].id
    ensures var r := Part(c.entries[ids[k]], kind)[j];
      var kept := Kept(Combine(ids, Some(c)), kind);
      r in kept && forall x :: x in kept && x.id == r.id ==> x == r
  {
    var e := c.entries;
    var part := Part(e[ids[k]], kind);
    var r := part[j];
    var pre := Contributed(ids[..k], e, kind);
    var C := Contributed(ids, e, kind);
    ContributedAppend(ids[..k + 1], ids[k + 1..], e, kind);
    assert ids == ids[..k + 1] + ids[k + 1..];
    assert ids[..k + 1][..k] == ids[..k];
    assert C == pre + part + Contributed(ids[k + 1..], e, kind);
    var p := |pre| + j;
    assert C[p] == r;
    forall i | 0 <= i < p
      ensures C[i].id != r.id
    {
      if i < |pre| {
        ContributedFrom(ids[..k], e, kind, pre[i]);
        var k' :| 0 <= k' < k && ids[..k][k'] in e && pre[i] in Part(e[ids[..k][k']], kind);
        assert ids[..k][k'] == ids[k'];
      } else {
        assert C[i] == part[i - |pre|];
      }
    }
    assert FirstOfItsId(C, p);
    DedupKeepsFirst(C, p);
    DedupDistinct(C);
    KeptIsDedup(ids, c, kind);
    var d := Dedup(C);
    forall x | x in d && x.id == r.id
      ensures x == r
    {
      var a :| 0 <= a < |d| && d[a] == x;
      var b :| 0 <= b < |d| && d[b] == r;
      assert a == b;
    }
  }

  /**
   * Which ids appear depends only on which identifiers are selected, not on
   * their order or repetition (the order only decides which record is kept).
   */
  lemma AggregateIdsIgnoreSelectionOrder(ids1: seq<string>, ids2: seq<string>, c: Catalog, kind: Kind)
    requires forall t :: t in ids1 <==> t in ids2
    ensures forall id :: id in Ids(Kept(Combine(ids1, Some(c)), kind)) <==> id in Ids(Kept(Combine(ids2, Some(c)), kind))
  {
    forall id | id in Ids(Kept(Combine(ids1, Some(c)), kind))
      ensures id in Ids(Kept(Combine(ids2, Some(c)), kind))
    {
      OneWay(ids1, ids2, c, kind, id);
    }
    forall id | id in Ids(Kept(Combine(ids2, Some(c)), kind))
      ensures id in Ids(Kept(Combine(ids1, Some(c)), kind))
    {
      OneWay(ids2, ids1, c, kind, id);
    }
  }

  lemma OneWay(ids1: seq<string>, ids2: seq<string>, c: Catalog, kind: Kind, id: string)
    requires forall t :: t in ids1 ==> t in ids2
    requires id in Ids(Kept(Combine(ids1, Some(c)), kind))
    ensures id in Ids(Kept(Combine(ids2, Some(c)), kind))
  {
    var kept := Kept(Combine(ids1, Some(c)), kind);
    var i :| 0 <= i < |kept| && Ids(kept)[i] == id;
    AggregateProvenance(ids1, c, kind);
    assert kept[i] in kept;
    var k1 :| 0 <= k1 < |ids1| && ids1[k1] in c.entries && kept[i] in Part(c.entries[ids1[k1]], kind);
    assert ids1[k1] in ids1;
    var k2 :| 0 <= k2 < |ids2| && ids2[k2] == ids1[k1];
    AggregateCoverage(ids2, c, kind);
    assert kept[i].id == id;
  }

  // The two-entry example: T.1 and T.2 both contribute object "O1", with different names.

  function Server(): Record { Record("O1", map["name" := "Server"]) }
  function ServerDup(): Record { Record("O1", map["name" := "ServerDup"]) }
  function Db(): Record { Record("O2", map["name" := "DB"]) }
  function Phishing(): Record { Record("I1", map["name" := "Phishing"]) }

  function ExampleCatalog(): Catalog {
    Catalog(["T.1", "T.2"],
            map["T.1" := Entry(Some([Server()]), Some([Phishing()])),
                "T.2" := Entry(Some([ServerDup(), Db()]), Some([]))])
  }

  lemma ExampleContributions()
    ensures Contributed(["T.1", "T.2"], ExampleCatalog().entries, Objects) == [Server(), ServerDup(), Db()]
    ensures Contributed(["T.2", "T.1"], ExampleCatalog().entries, Objects) == [ServerDup(), Db(), Server()]
    ensures Contributed(["T.1", "T.2"], ExampleCatalog().entries, Implementations) == [Phishing()]
    ensures Contributed(["T.2", "T.1"], ExampleCatalog().entries, Implementations) == [Phishing()]
  {
    var e := ExampleCatalog().entries;
    var ab, ba := ["T.1", "T.2"], ["T.2", "T.1"];
    assert ab[..1] == ["T.1"] && ba[..1] == ["T.2"];
    assert ["T.1"][..0] == [] && ["T.2"][..0] == [];
  }

  lemma ExampleDedupT1First()
    ensures Dedup([Server(), ServerDup(), Db()]) == [Server(), Db()]
  {
    var s := [Server(), ServerDup(), Db()];
    assert s[..2] == [Server(), ServerDup()] && s[..2][..1] == [Server()];
    assert Dedup([Server()]) == [Server()];
    assert Ids([Server()]) == ["O1"];
    assert Dedup([Server(), ServerDup()]) == [Server()];
  }

  lemma ExampleDedupT2Prefix()
    ensures Dedup([ServerDup(), Db()]) == [ServerDup(), Db()]
  {
    var s := [ServerDup(), Db()];
    assert s[..1] == [ServerDup()];
    assert Dedup([ServerDup()]) == [ServerDup()];
    assert Ids([ServerDup()]) == ["O1"];
  }

  lemma ExampleDedupT2First()
    ensures Dedup([ServerDup(), Db(), Server()]) == [ServerDup(), Db()]
  {
    var s := [ServerDup(), Db(), Server()];
    assert s[..2] == [ServerDup(), Db()];
    ExampleDedupT2Prefix();
    assert Ids([ServerDup(), Db()]) == ["O1", "O2"];
  }

  /**
   * Two entries that both contribute object "O1" with different fields: the
   * entry selected first decides which "O1" is shown.
   */
  lemma SelectionOrderDecidesWinner()
    ensures Combine(["T.1", "T.2"], Some(ExampleCatalog()))
         == Aggregate(["T.1", "T.2"], [Server(), Db()], [Phishing()])
    ensures Combine(["T.2", "T.1"], Some(ExampleCatalog()))
         == Aggregate(["T.2", "T.1"], [ServerDup(), Db()], [Phishing()])
  {
    ExampleContributions();
    ExampleDedupT1First();
    ExampleDedupT2First();
    assert Dedup([Phishing()]) == [Phishing()];
  }
}
