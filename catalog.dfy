/**
 * The threat catalog as it is held in memory once the JSON document has been loaded:
 * a mapping from threat identifier ("T.12") to an entry that lists the objects of
 * impact and the implementation methods contributed by that threat.
 */
module Catalog {
  import opened Wrappers

  /**
   * A sub-record of an entry: an object of impact or an implementation method.
   * Only `id` takes part in any logic; every other field of the JSON record
   * (name, type, category, risk_level) is kept, uninterpreted, in `fields`.
   */
  datatype Record = Record(id: string, fields: map<string, string>)

  /** A catalog entry; either list may be missing from the JSON document. */
  datatype Entry = Entry(objects: Option<seq<Record>>, implementations: Option<seq<Record>>)

  /** No element is listed twice, as in a JavaScript `Set` or the key list of an object. */
  ghost predicate NoDuplicates(s: seq<string>) {
    forall i, j :: 0 <= i < j < |s| ==> s[i] != s[j]
  }

  /** The two kinds of sub-record an entry contributes. */
  datatype Kind = Objects | Implementations

  /**
   * The loaded catalog: `keys` are the entry identifiers in the order in which
   * `Object.keys` lists them, `entries` the lookup from identifier to entry.
   */
  datatype Catalog = Catalog(keys: seq<string>, entries: map<string, Entry>) {

    /** The key listing names every entry exactly once. */
    ghost predicate Valid() {
      && NoDuplicates(keys)
      && (forall k :: k in entries <==> k in keys)
    }
  }

  /** The records of one kind that an entry contributes; a missing list counts as empty. */
  function Part(e: Entry, kind: Kind): (rs: seq<Record>)
    ensures kind == Objects && e.objects.Some? ==> rs == e.objects.value
    ensures kind == Implementations && e.implementations.Some? ==> rs == e.implementations.value
    ensures (kind == Objects && e.objects.None?) || (kind == Implementations && e.implementations.None?) ==> rs == []
  {
    match kind
    case Objects => e.objects.GetOr([])
    case Implementations => e.implementations.GetOr([])
  }
}
