/** An abstract tuple-key backend store: a map from tuple keys to stored bytes with
    their content type and encoding, the order in which keys were first written
    (what the backend lists), whether it can list at all, its URL scheme, and what
    its `set` returns for a key. */
module Backends {
  import opened Outcomes
  import opened Identifiers

  datatype Stored = Stored(body: Bytes, contentType: string, contentEncoding: Option<string>)

  /** The outcome of a backend's `list_keys()`: its tuple keys, or NotImplementedError. */
  datatype Listing = Listed(tuples: seq<TupleKey>) | NotImplemented

  /** A backend's state: every key written, in first-write order, and what it holds. */
  datatype Table = Table(order: seq<TupleKey>, contents: map<TupleKey, Stored>) {
    ghost predicate Valid()
    {
      && (forall i, j :: 0 <= i < j < |order| ==> order[i] != order[j])
      && (forall k :: k in contents <==> k in order)
    }
  }

  const EmptyTable := Table([], map[])

  /** Writes `v` under `k`, overwriting any earlier value; a new key is listed last. */
  function Put(t: Table, k: TupleKey, v: Stored): (r: Table)
    ensures r.contents == t.contents[k := v]
    ensures t.Valid() ==> r.Valid()
    ensures t.Valid() ==> (k in t.order ==> r.order == t.order) && (k !in t.order ==> r.order == t.order + [k])
  {
    Table(if k in t.contents then t.order else t.order + [k], t.contents[k := v])
  }

  /** The in-place backend object the store delegates to. */
  class Backend {
    var table: Table
    const supportsListing: bool
    const urlFor: TupleKey -> string
    const writeResult: TupleKey -> string

    ghost predicate Valid()
      reads this
    {
      table.Valid()
    }

    constructor (supportsListing: bool, urlFor: TupleKey -> string, writeResult: TupleKey -> string)
      ensures Valid() && table == EmptyTable
      ensures this.supportsListing == supportsListing && this.urlFor == urlFor && this.writeResult == writeResult
    {
      table := EmptyTable;
      this.supportsListing := supportsListing;
      this.urlFor := urlFor;
      this.writeResult := writeResult;
    }

    /** `get(key)`: the stored bytes, or None when nothing is stored under `k`. */
    function Get(k: TupleKey): (r: Option<Bytes>)
      reads this
      ensures r.Some? <==> k in table.contents
      ensures r.Some? ==> r.value == table.contents[k].body
    {
      if k in table.contents then Some(table.contents[k].body) else None
    }

    /** `list_keys()`: every key written so far, once each, or NotImplementedError. */
    function ListKeys(): (r: Listing)
      reads this
      requires Valid()
      ensures r.Listed? <==> supportsListing
      ensures r.Listed? ==> forall k :: k in r.tuples <==> k in table.contents
    {
      if supportsListing then Listed(table.order) else NotImplemented
    }

    /** `set(key, value, content_encoding, content_type)`: stores the value and
        returns the backend's implementation-defined result for that key. */
    method Set(k: TupleKey, body: Bytes, contentType: string, contentEncoding: Option<string>)
      returns (w: string)
      requires Valid()
      modifies this
      ensures Valid()
      ensures table == Put(old(table), k, Stored(body, contentType, contentEncoding))
      ensures w == writeResult(k)
    {
      table := Put(table, k, Stored(body, contentType, contentEncoding));
      w := writeResult(k);
    }
  }
}
