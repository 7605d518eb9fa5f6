/**
 * The aggregator behind `getCombinedDetails`: for an ordered list of selected
 * threat identifiers it gathers the objects and implementations of every known
 * entry, keeping for each sub-record id only the first record seen
 * (first-writer-wins; a later duplicate is dropped, never merged).
 */
module Aggregator {
  import opened Wrappers
  import opened Catalog

  /** What `getCombinedDetails` returns. */
  datatype Aggregate = Aggregate(selectedThreats: seq<string>, objects: seq<Record>, implementations: seq<Record>)

  /** The de-duplicated list of one kind in an aggregate. */
  function Kept(agg: Aggregate, kind: Kind): (rs: seq<Record>) {
    match kind
    case Objects => agg.objects
    case Implementations => agg.implementations
  }

  /** The ids of a list of records, position by position. */
  function Ids(rs: seq<Record>): (ids: seq<string>)
    ensures |ids| == |rs|
  {
    seq(|rs|, i requires 0 <= i < |rs| => rs[i].id)
  }

  // ---------------------------------------------------------------------------
  // Specification
  // ---------------------------------------------------------------------------

  /**
   * First-writer-wins de-duplication of a stream of records, read left to right:
   * a record is appended unless a record with the same id is already kept.
   */
  function Dedup(rs: seq<Record>): (kept: seq<Record>)
    ensures |kept| <= |rs|
    decreases |rs|
  {
    if rs == [] then []
    else
      var kept := Dedup(rs[..|rs| - 1]);
      if rs[|rs| - 1].id in Ids(kept) then kept else kept + [rs[|rs| - 1]]
  }

  /** The records of one kind that the selected entries contribute, in selection order. */
  function Contributed(ids: seq<string>, entries: map<string, Entry>, kind: Kind): (rs: seq<Record>)
    decreases |ids|
  {
    if ids == [] then []
    else
      var last := ids[|ids| - 1];
      Contributed(ids[..|ids| - 1], entries, kind) + (if last in entries then Part(entries[last], kind) else [])
  }

  /** The aggregate that `getCombinedDetails` computes; no catalog gives three empty lists. */
  function Combine(selectedIds: seq<string>, data: Option<Catalog>): (agg: Aggregate)
    ensures data.None? ==> agg == Aggregate([], [], [])
    ensures data.Some? ==> agg.selectedThreats == selectedIds
    ensures selectedIds == [] ==> agg.objects == [] && agg.implementations == []
  {
    match data
    case None => Aggregate([], [], [])
    case Some(c) =>
      Aggregate(selectedIds,
                Dedup(Contributed(selectedIds, c.entries, Objects)),
                Dedup(Contributed(selectedIds, c.entries, Implementations)))
  }

  /** Position `j` holds the first record of `rs` carrying its id. */
  ghost predicate FirstOfItsId(rs: seq<Record>, j: int) {
    0 <= j < |rs| && forall i :: 0 <= i < j ==> rs[i].id != rs[j].id
  }

  /**
   * Reference definition: the records of `rs[..n]` that stand at the first
   * position of their id, in input order. Each position is judged on the input
   * alone, with no table of ids seen so far.
   */
  ghost function FirstOccurrences(rs: seq<Record>, n: nat): (firsts: seq<Record>)
    requires n <= |rs|
  {
    if n == 0 then []
    else FirstOccurrences(rs, n - 1) + (if FirstOfItsId(rs, n - 1) then [rs[n - 1]] else [])
  }

  // ---------------------------------------------------------------------------
  // The dictionary: a plain JavaScript object keyed by sub-record id
  // ---------------------------------------------------------------------------

  /**
   * `combinedObjects` / `combinedImplementations`: a dictionary from record id to
   * record whose `keys` remember insertion order, as `Object.values` reports it.
   */
  datatype RecordTable = RecordTable(keys: seq<string>, vals: map<string, Record>) {

    ghost predicate Valid() {
      && NoDuplicates(keys)
      && (forall k :: k in vals <==> k in keys)
      && (forall k :: k in vals ==> vals[k].id == k)
    }

    /** `table[id]` is a record (a truthy value): one of `Object.values` carries the id. */
    predicate Has(id: string): (h: bool)
      ensures Valid() ==> (h <==> id in Ids(Values()))
    {
      id in vals
    }

    /** `Object.values(table)`: the stored records in insertion order. */
    function Values(): (vs: seq<Record>)
      requires Valid()
      ensures Ids(vs) == keys
      ensures forall i :: 0 <= i < |keys| ==> vs[i] == vals[keys[i]]
    {
      seq(|keys|, i requires 0 <= i < |keys| => vals[keys[i]])
    }

    /** `table[r.id] = r` for an id not yet present: the record goes to the end. */
    function Put(r: Record): (t: RecordTable)
      requires Valid() && !Has(r.id)
      ensures t.Valid() && t.Has(r.id)
      ensures t.Values() == Values() + [r]
    {
      RecordTable(keys + [r.id], vals[r.id := r])
    }
  }

  /** The empty object literal `{}`. */
  function EmptyTable(): (t: RecordTable)
    ensures t.Valid() && t.Values() == []
  {
    RecordTable([], map[])
  }

  // ---------------------------------------------------------------------------
  // The algorithm
  // ---------------------------------------------------------------------------

  /** One more record read by the de-duplication: it is appended iff its id is new. */
  lemma DedupSnoc(seen: seq<Record>, r: Record)
    ensures Dedup(seen + [r]) == if r.id in Ids(Dedup(seen)) then Dedup(seen) else Dedup(seen) + [r]
  {
    assert (seen + [r])[..|seen|] == seen;
  }

  /**
   * One `forEach` over an entry's list: store each record whose id is not yet in
   * the table. `before` is the stream of records the table has already seen.
   */
  method AddAllAbsent(table: RecordTable, rs: seq<Record>, ghost before: seq<Record>) returns (t: RecordTable)
    requires table.Valid() && table.Values() == Dedup(before)
    ensures t.Valid() && t.Values() == Dedup(before + rs)
  {
    t := table;
    assert before + rs[..0] == before;
    for j := 0 to |rs|
      invariant t.Valid() && t.Values() == Dedup(before + rs[..j])
    {
      var r := rs[j];
      assert before + rs[..j + 1] == (before + rs[..j]) + [r];
      DedupSnoc(before + rs[..j], r);
      if !t.Has(r.id) {
        t := t.Put(r);
      }
    }
    assert rs[..|rs|] == rs;
  }

  /** `getCombinedDetails(selectedIds)` over the loaded catalog `data`. */
  method CombinedDetails(selectedIds: seq<string>, data: Option<Catalog>) returns (agg: Aggregate)
    ensures agg == Combine(selectedIds, data)
  {
    if data.None? {
      return Aggregate([], [], []);
    }
    var entries := data.value.entries;
    var objects := EmptyTable();
    var implementations := EmptyTable();
    for k := 0 to |selectedIds|
      invariant objects.Valid() && objects.Values() == Dedup(Contributed(selectedIds[..k], entries, Objects))
      invariant implementations.Valid()
      invariant implementations.Values() == Dedup(Contributed(selectedIds[..k], entries, Implementations))
    {
      var threatId := selectedIds[k];
      assert selectedIds[..k + 1][..k] == selectedIds[..k];
      assert Contributed(selectedIds[..k + 1], entries, Objects)
          == Contributed(selectedIds[..k], entries, Objects)
             + (if threatId in entries then Part(entries[threatId], Objects) else []);
      assert Contributed(selectedIds[..k + 1], entries, Implementations)
          == Contributed(selectedIds[..k], entries, Implementations)
             + (if threatId in entries then Part(entries[threatId], Implementations) else []);
      if threatId in entries {
        objects := AddAllAbsent(objects, Part(entries[threatId], Objects),
                                Contributed(selectedIds[..k], entries, Objects));
        implementations := AddAllAbsent(implementations, Part(entries[threatId], Implementations),
                                        Contributed(selectedIds[..k], entries, Implementations));
      } else {
        assert Contributed(selectedIds[..k], entries, Objects) + [] == Contributed(selectedIds[..k], entries, Objects);
        assert Contributed(selectedIds[..k], entries, Implementations) + []
            == Contributed(selectedIds[..k], entries, Implementations);
      }
    }
    assert selectedIds[..|selectedIds|] == selectedIds;
    agg := Aggregate(selectedIds, objects.Values(), implementations.Values());
  }
}
