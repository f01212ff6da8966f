/** Resource identifiers and site-section keys, as the store sees them.
    How an identifier turns into a tuple key and back lives in another module of
    the system; here those conversions are uninterpreted function values (`Codec`),
    and nothing is assumed about them, in particular no inverse law. */
module Identifiers {

  newtype byte = x: int | 0 <= x < 256

  type Bytes = seq<byte>

  /** A backend key: an ordered sequence of path-safe string segments. */
  type TupleKey = seq<string>

  /** The two resource kinds that have a backend of their own:
      ExpectationSuiteIdentifier and ValidationResultIdentifier. */
  datatype ResourceKind = Suite | Validation

  /** The runtime class of a resource identifier: exactly one of the two kinds,
      a subclass of one of them, or any other class. */
  datatype ResourceType = Exactly(kind: ResourceKind) | SubclassOf(kind: ResourceKind) | OtherType

  /** A resource identifier: its runtime class and the data it carries. */
  datatype Resource = Resource(rtype: ResourceType, fields: seq<string>)

  /** Python's `isinstance(resource, <class of kind k>)`. */
  predicate IsInstance(r: Resource, k: ResourceKind)
  {
    !r.rtype.OtherType? && r.rtype.kind == k
  }

  /** A key handed to the store: a SiteSectionIdentifier (section name and the
      resource it wraps) or any other object. */
  datatype Key = SiteSection(sectionName: string, resource: Resource) | OtherKey(description: string)

  /** What `<kind>.from_tuple(t)` does: builds an identifier of that exact kind with
      the given data, or raises a TypeError, or raises some other exception. */
  datatype FromTuple = Built(fields: seq<string>) | RaisesTypeError | RaisesOther

  /** The identifier classes' conversions, left uninterpreted. */
  datatype Codec = Codec(
    keyTuple: (string, Resource) -> TupleKey,        // SiteSectionIdentifier.to_tuple
    resourceTuple: Resource -> TupleKey,             // resource_identifier.to_tuple
    fromTuple: (ResourceKind, TupleKey) -> FromTuple // ExpectationSuiteIdentifier / ValidationResultIdentifier .from_tuple
  )
}
