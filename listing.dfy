/**
 * `getSortedThreats`: the catalog's identifiers ordered by the integer that
 * follows the first '.' ("T.2" before "T.10"), with JavaScript's stable sort
 * keeping the catalog's own key order among equal ordinals.
 */
module Listing {
  import opened Wrappers
  import opened Catalog

  // ---------------------------------------------------------------------------
  // The ordinal: parseInt(id.split(".")[1])
  // ---------------------------------------------------------------------------

  /** The text up to (not including) the first '.', or all of it when there is none. */
  function UpToDot(s: string): (t: string)
    ensures |t| <= |s| && t == s[..|t|] && '.' !in t
    ensures |t| == |s| || s[|t|] == '.'
  {
    if s == [] || s[0] == '.' then [] else [s[0]] + UpToDot(s[1..])
  }

  /** `s.split(".")[1]`: the segment after the first '.', or nothing when `s` has no '.'. */
  function SecondSegment(s: string): (seg: Option<string>)
    ensures seg.None? <==> '.' !in s
  {
    if s == [] then None
    else if s[0] == '.' then Some(UpToDot(s[1..]))
    else SecondSegment(s[1..])
  }

  predicate IsDigit(c: char) {
    '0' <= c <= '9'
  }

  function DigitValue(c: char): nat
    requires IsDigit(c)
  {
    c as int - '0' as int
  }

  function Digit(d: nat): (c: char)
    requires d < 10
    ensures IsDigit(c) && DigitValue(c) == d
  {
    ('0' as int + d) as char
  }

  /** The longest prefix of decimal digits. */
  function DigitPrefix(s: string): (ds: string)
    ensures |ds| <= |s| && ds == s[..|ds|]
    ensures forall i :: 0 <= i < |ds| ==> IsDigit(ds[i])
    ensures |ds| == |s| || !IsDigit(s[|ds|])
  {
    if s == [] || !IsDigit(s[0]) then [] else [s[0]] + DigitPrefix(s[1..])
  }

  /** The value of a string of decimal digits, most significant first. */
  function DigitsValue(ds: string): nat
    requires forall i :: 0 <= i < |ds| ==> IsDigit(ds[i])
  {
    if ds == [] then 0 else DigitsValue(ds[..|ds| - 1]) * 10 + DigitValue(ds[|ds| - 1])
  }

  /**
   * `parseInt(s)` for decimal text: an optional sign, then the leading digits;
   * no digit at all is NaN (`None`).
   */
  function ParseInt(s: string): (r: Option<int>)
    ensures |s| == 0 || !(IsDigit(s[0]) || s[0] == '-' || s[0] == '+') ==> r.None?
    ensures |s| > 0 && IsDigit(s[0]) ==> r.Some? && r.value >= 0
    ensures r.Some? && r.value < 0 ==> s[0] == '-'
  {
    if |s| > 0 && (s[0] == '-' || s[0] == '+') then
      var ds := DigitPrefix(s[1..]);
      if ds == [] then None
      else if s[0] == '-' then Some(0 - DigitsValue(ds) as int)
      else Some(DigitsValue(ds))
    else
      var ds := DigitPrefix(s);
      if ds == [] then None else Some(DigitsValue(ds))
  }

  /** The sort key of an identifier; `None` stands for NaN. */
  function Ordinal(id: string): (r: Option<int>)
    ensures '.' !in id ==> r.None?
  {
    match SecondSegment(id)
    case None => None
    case Some(seg) => ParseInt(seg)
  }

  /** The decimal text of a natural number, the inverse of `DigitsValue`. */
  function Decimal(n: nat): (ds: string)
    ensures ds != [] && forall i :: 0 <= i < |ds| ==> IsDigit(ds[i])
  {
    if n < 10 then [Digit(n)] else Decimal(n / 10) + [Digit(n % 10)]
  }

  // ---------------------------------------------------------------------------
  // The sort
  // ---------------------------------------------------------------------------

  /**
   * `compare(a, b) < 0` for the comparator `numA - numB` on sort keys: a
   * difference that involves NaN (`None`) is NaN, which is never negative.
   */
  predicate Before(ka: Option<int>, kb: Option<int>) {
    ka.Some? && kb.Some? && ka.value < kb.value
  }

  /**
   * Inserts `x` after every element it does not sort before: one step of a
   * stable insertion sort. With a consistent comparator every stable sort gives
   * the same result.
   */
  function Insert(x: string, sorted: seq<string>, key: string -> Option<int>): (r: seq<string>)
    ensures multiset(r) == multiset(sorted) + multiset{x}
  {
    if sorted == [] then [x]
    else if Before(key(x), key(sorted[0])) then [x] + sorted
    else
      assert sorted == [sorted[0]] + sorted[1..];
      [sorted[0]] + Insert(x, sorted[1..], key)
  }

  /** A stable sort of `keys` by the comparator on `key`. */
  function SortBy(keys: seq<string>, key: string -> Option<int>): (r: seq<string>)
    ensures multiset(r) == multiset(keys)
  {
    if keys == [] then []
    else
      assert keys == keys[..|keys| - 1] + [keys[|keys| - 1]];
      Insert(keys[|keys| - 1], SortBy(keys[..|keys| - 1], key), key)
  }

  /** `getSortedThreats()`: the catalog's keys sorted by ordinal; no catalog gives `[]`. */
  function SortedThreats(data: Option<Catalog>): (r: seq<string>)
    ensures data.None? ==> r == []
    ensures data.Some? ==> multiset(r) == multiset(data.value.keys)
  {
    match data
    case None => []
    case Some(c) => SortBy(c.keys, Ordinal)
  }

  /** `a` may stand before `b`: both keys are numbers and `a`'s is not larger. */
  ghost predicate InOrder(key: string -> Option<int>, a: string, b: string) {
    key(a).Some? && key(b).Some? && key(a).value <= key(b).value
  }

  /** Non-decreasing by `key`, every key a number. */
  ghost predicate SortedBy(r: seq<string>, key: string -> Option<int>) {
    forall i, j :: 0 <= i < j < |r| ==> InOrder(key, r[i], r[j])
  }

  /** Every identifier has a numeric key. */
  ghost predicate WellFormedIds(ids: seq<string>, key: string -> Option<int>) {
    forall k :: k in ids ==> key(k).Some?
  }
}
