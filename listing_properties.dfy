/**
 * What `getSortedThreats` guarantees: the ordinal of a well-formed identifier
 * is the number written after its first '.', and the listing is a permutation
 * of the catalog's keys, non-decreasing by ordinal when every key is well formed.
 */
module ListingProperties {
  import opened Wrappers
  import opened Catalog
  import opened Listing

  lemma {:induction false} DecimalRoundTrip(n: nat)
    ensures DigitsValue(Decimal(n)) == n
  {
    if n >= 10 {
      DecimalRoundTrip(n / 10);
      var d := Decimal(n);
      assert d[..|d| - 1] == Decimal(n / 10);
    }
  }

  lemma {:induction false} DigitPrefixOfDigits(ds: string)
    requires forall i :: 0 <= i < |ds| ==> IsDigit(ds[i])
    ensures DigitPrefix(ds) == ds
  {
    if ds != [] {
      DigitPrefixOfDigits(ds[1..]);
    }
  }

  lemma {:induction false} UpToDotOfDotless(s: string)
    requires '.' !in s
    ensures UpToDot(s) == s
  {
    if s != [] {
      UpToDotOfDotless(s[1..]);
    }
  }

  lemma {:induction false} SecondSegmentAfterPrefix(prefix: string, rest: string)
    requires '.' !in prefix
    ensures SecondSegment(prefix + ['.'] + rest) == Some(UpToDot(rest))
  {
    if prefix == [] {
      assert prefix + ['.'] + rest == ['.'] + rest;
    } else {
      assert (prefix + ['.'] + rest)[1..] == prefix[1..] + ['.'] + rest;
      SecondSegmentAfterPrefix(prefix[1..], rest);
    }
  }

  /**
   * The ordinal of a well-formed identifier `<prefix>.<n>` (a prefix without
   * '.', then the decimal digits of `n`) is `n`.
   */
  lemma OrdinalOfWellFormedId(prefix: string, n: nat)
    requires '.' !in prefix
    ensures Ordinal(prefix + ['.'] + Decimal(n)) == Some(n)
  {
    var ds := Decimal(n);
    SecondSegmentAfterPrefix(prefix, ds);
    UpToDotOfDotless(ds);
    DigitPrefixOfDigits(ds);
    DecimalRoundTrip(n);
    assert IsDigit(ds[0]);
  }

  /**
   * The comparator `numA - numB < 0` is a strict order on numeric keys, and a
   * NaN key is never ordered before or after anything.
   */
  lemma BeforeIsStrictOrder(a: Option<int>, b: Option<int>, c: Option<int>)
    ensures !Before(a, a)
    ensures Before(a, b) ==> !Before(b, a)
    ensures Before(a, b) && Before(b, c) ==> Before(a, c)
    ensures a.None? ==> !Before(a, b) && !Before(b, a)
    ensures a.Some? && b.Some? ==> (Before(a, b) || Before(b, a) || a == b)
  {
  }

  lemma InSortedTail(x: string, s: seq<string>, key: string -> Option<int>, k: string)
    requires s != []
    requires k in Insert(x, s[1..], key)
    ensures k == x || k in s[1..]
  {
    assert k in multiset(Insert(x, s[1..], key));
  }

  lemma ConsKeepsSorted(a: string, r: seq<string>, key: string -> Option<int>)
    requires key(a).Some? && SortedBy(r, key)
    requires forall j :: 0 <= j < |r| ==> InOrder(key, a, r[j])
    ensures SortedBy([a] + r, key)
  {
    var out := [a] + r;
    forall i, j | 0 <= i < j < |out|
      ensures InOrder(key, out[i], out[j])
    {
      assert out[j] == r[j - 1];
      if i > 0 {
        assert out[i] == r[i - 1];
      }
    }
  }

  lemma SortedAt(s: seq<string>, key: string -> Option<int>, i: int, j: int)
    requires SortedBy(s, key) && 0 <= i < j < |s|
    ensures InOrder(key, s[i], s[j])
  {
  }

  lemma TailSorted(s: seq<string>, key: string -> Option<int>)
    requires s != [] && SortedBy(s, key)
    ensures SortedBy(s[1..], key)
  {
    forall i, j | 0 <= i < j < |s[1..]|
      ensures InOrder(key, s[1..][i], s[1..][j])
    {
      SortedAt(s, key, i + 1, j + 1);
      assert s[1..][i] == s[i + 1] && s[1..][j] == s[j + 1];
    }
  }

  lemma {:induction false} InsertKeepsSorted(x: string, s: seq<string>, key: string -> Option<int>)
    requires key(x).Some? && WellFormedIds(s, key) && SortedBy(s, key)
    ensures SortedBy(Insert(x, s, key), key)
  {
    if s == [] {
    } else if Before(key(x), key(s[0])) {
      assert s[0] in s;
      forall j | 0 <= j < |s|
        ensures InOrder(key, x, s[j])
      {
        assert s[j] in s;
      }
      ConsKeepsSorted(x, s, key);
    } else {
      var t := s[1..];
      assert WellFormedIds(t, key);
      TailSorted(s, key);
      InsertKeepsSorted(x, t, key);
      var r := Insert(x, t, key);
      assert s[0] in s;
      forall j | 0 <= j < |r|
        ensures InOrder(key, s[0], r[j])
      {
        InSortedTail(x, s, key, r[j]);
        if r[j] != x {
          var m :| 0 <= m < |t| && t[m] == r[j];
          assert s[m + 1] == r[j];
        }
      }
      ConsKeepsSorted(s[0], r, key);
    }
  }

  lemma {:induction false} SortIsSorted(keys: seq<string>, key: string -> Option<int>)
    requires WellFormedIds(keys, key)
    ensures SortedBy(SortBy(keys, key), key)
  {
    if keys != [] {
      var p := keys[..|keys| - 1];
      assert WellFormedIds(p, key);
      SortIsSorted(p, key);
      var s := SortBy(p, key);
      forall k | k in s
        ensures key(k).Some?
      {
        assert k in multiset(s);
      }
      assert keys[|keys| - 1] in keys;
      InsertKeepsSorted(keys[|keys| - 1], s, key);
    }
  }

  /** With every key well formed, the listing is non-decreasing by ordinal. */
  lemma SortedThreatsOrdered(c: Catalog)
    requires WellFormedIds(c.keys, Ordinal)
    ensures SortedBy(SortedThreats(Some(c)), Ordinal)
  {
    SortIsSorted(c.keys, Ordinal);
  }

  /** The listing names exactly the catalog's entries. */
  lemma SortedThreatsListsCatalog(c: Catalog)
    requires c.Valid()
    ensures forall k :: k in SortedThreats(Some(c)) <==> k in c.entries
  {
    var r := SortedThreats(Some(c));
    forall k
      ensures k in r <==> k in c.keys
    {
      assert k in r <==> k in multiset(r);
      assert k in c.keys <==> k in multiset(c.keys);
    }
  }

  lemma ExampleOrdinals()
    ensures Ordinal("T.10") == Some(10) && Ordinal("T.2") == Some(2) && Ordinal("T.1") == Some(1)
  {
    OrdinalOfWellFormedId("T", 10);
    OrdinalOfWellFormedId("T", 2);
    OrdinalOfWellFormedId("T", 1);
    assert Decimal(10) == "10" && Decimal(2) == "2" && Decimal(1) == "1";
    assert "T" + ['.'] + "10" == "T.10";
    assert "T" + ['.'] + "2" == "T.2";
    assert "T" + ['.'] + "1" == "T.1";
  }

  lemma SortSingle(a: string, key: string -> Option<int>)
    ensures SortBy([a], key) == [a]
  {
    assert [a][..0] == [];
  }

  lemma InsertAtFront(x: string, s: seq<string>, key: string -> Option<int>)
    requires s != [] && Before(key(x), key(s[0]))
    ensures Insert(x, s, key) == [x] + s
  {
  }

  lemma SortPairSwapped(a: string, b: string, key: string -> Option<int>)
    requires Before(key(b), key(a))
    ensures SortBy([a, b], key) == [b, a]
  {
    assert [a, b][..1] == [a];
    SortSingle(a, key);
    InsertAtFront(b, [a], key);
  }

  lemma ExampleFirstInsertions()
    ensures SortBy(["T.10", "T.2"], Ordinal) == ["T.2", "T.10"]
  {
    ExampleOrdinals();
    SortPairSwapped("T.10", "T.2", Ordinal);
  }

  /** Numeric, not lexicographic: "T.10", "T.2", "T.1" are listed as "T.1", "T.2", "T.10". */
  lemma NumericNotLexicographic(entries: map<string, Entry>)
    ensures SortedThreats(Some(Catalog(["T.10", "T.2", "T.1"], entries))) == ["T.1", "T.2", "T.10"]
  {
    ExampleOrdinals();
    ExampleFirstInsertions();
    assert ["T.10", "T.2", "T.1"][..2] == ["T.10", "T.2"];
    InsertAtFront("T.1", ["T.2", "T.10"], Ordinal);
  }
}
