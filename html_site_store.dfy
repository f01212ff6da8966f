/** HtmlSiteStore: one logical store for rendered site artifacts that routes every
    request to one of four backends, held in a registry tagged by the two resource
    kinds and the two string tags "index_page" and "static_assets". */
module SiteStore {
  import opened Outcomes
  import opened Identifiers
  import opened Backends
  import opened StaticAssets

  const HtmlContentType := "text/html; charset=utf-8"
  const HtmlEncoding := "utf-8"

  /** A key of the backend registry: a resource class, or one of the two strings. */
  datatype Tag = KindTag(kind: ResourceKind) | IndexPage | StaticAssetsTag

  /** The registry's keys, in the order the dictionary holds them. */
  const RegistryTags: seq<Tag> := [KindTag(Suite), KindTag(Validation), IndexPage, StaticAssetsTag]

  /** `isinstance(resource, tag)` inside `_validate_key`: a class tag matches its
      instances; on a string tag `isinstance` raises TypeError, caught as no match. */
  predicate TagMatches(t: Tag, r: Resource)
  {
    t.KindTag? && IsInstance(r, t.kind)
  }

  /** The keys `_validate_key` lets through: site-section keys whose resource is an
      instance of some registry entry. */
  predicate Accepts(key: Key)
  {
    key.SiteSection? && exists i :: 0 <= i < |RegistryTags| && TagMatches(RegistryTags[i], key.resource)
  }

  /** The TypeError `_validate_key` raises for a key it does not accept. */
  function RejectionOf(key: Key): (e: Error)
  {
    if key.SiteSection? then UnregisteredResource else NotSiteSectionKey
  }

  /** `type(resource)` as a registry key: only an exact resource class is one. */
  function ExactKind(r: Resource): (k: Option<ResourceKind>)
  {
    if r.rtype.Exactly? then Some(r.rtype.kind) else None
  }

  function OtherKind(k: ResourceKind): (other: ResourceKind)
  {
    if k == Suite then Validation else Suite
  }

  /** How `[type_.from_tuple(t) for t in key_tuples]` ends: with every identifier
      built, or at the first tuple whose decoding raises. */
  datatype Decoding = AllBuilt(resources: seq<Resource>) | StopsWithTypeError | StopsWithOther

  /** Tuple `j` is the first of `ts` that `from_tuple` does not decode. */
  predicate FirstFailureAt(kind: ResourceKind, ts: seq<TupleKey>, fromTuple: (ResourceKind, TupleKey) -> FromTuple, j: nat)
  {
    && j < |ts|
    && (forall i :: 0 <= i < j ==> fromTuple(kind, ts[i]).Built?)
    && !fromTuple(kind, ts[j]).Built?
  }

  /** Behind a head that decodes, the first failure of the tail is the first failure. */
  lemma FirstFailureAfterHead(kind: ResourceKind, ts: seq<TupleKey>, fromTuple: (ResourceKind, TupleKey) -> FromTuple)
    requires |ts| > 0 && fromTuple(kind, ts[0]).Built?
    ensures forall j: nat :: FirstFailureAt(kind, ts[1..], fromTuple, j) ==>
              FirstFailureAt(kind, ts, fromTuple, j + 1) && ts[j + 1] == ts[1..][j]
  {
  }

  function DecodeAll(kind: ResourceKind, ts: seq<TupleKey>, fromTuple: (ResourceKind, TupleKey) -> FromTuple): (r: Decoding)
    ensures r.AllBuilt? <==> forall i :: 0 <= i < |ts| ==> fromTuple(kind, ts[i]).Built?
    ensures r.AllBuilt? ==> && |r.resources| == |ts|
                            && forall i :: 0 <= i < |ts| ==>
                                 r.resources[i] == Resource(Exactly(kind), fromTuple(kind, ts[i]).fields)
    ensures !r.AllBuilt? ==> exists j: nat :: && FirstFailureAt(kind, ts, fromTuple, j)
                                        && (r.StopsWithTypeError? <==> fromTuple(kind, ts[j]).RaisesTypeError?)
  {
    if ts == [] then AllBuilt([])
    else
      match fromTuple(kind, ts[0])
      case RaisesTypeError => StopsWithTypeError
      case RaisesOther => StopsWithOther
      case Built(fields) =>
        FirstFailureAfterHead(kind, ts, fromTuple);
        match DecodeAll(kind, ts[1..], fromTuple)
        case AllBuilt(rest) => AllBuilt([Resource(Exactly(kind), fields)] + rest)
        case StopsWithTypeError => StopsWithTypeError
        case StopsWithOther => StopsWithOther
  }

  /** What one type-tagged backend adds to `list_keys`: its decoded identifiers; nothing
      when decoding raised TypeError (swallowed by the inner `except TypeError`);
      a failure when decoding raised anything else. */
  function Contribution(kind: ResourceKind, ts: seq<TupleKey>, fromTuple: (ResourceKind, TupleKey) -> FromTuple)
    : (r: Result<seq<Resource>>)
    ensures r.Failure? ==> r.error == DecodeFailed
    ensures r.Success? ==> && |r.value| <= |ts|
                           && forall i :: 0 <= i < |r.value| ==> r.value[i].rtype == Exactly(kind)
    ensures (forall i :: 0 <= i < |ts| ==> fromTuple(kind, ts[i]).Built?) ==> r.Success? && |r.value| == |ts|
  {
    match DecodeAll(kind, ts, fromTuple)
    case AllBuilt(rs) => Success(rs)
    case StopsWithTypeError => Success([])
    case StopsWithOther => Failure(DecodeFailed)
  }

  /** The tuples `key_tuples` holds when the validation entry is decoded: its own
      listing, or, when that raised NotImplementedError, the suite backend's. */
  function ValidationTuples(suite: Listing, validation: Listing): (r: seq<TupleKey>)
    requires suite.Listed?
    ensures validation.Listed? ==> r == validation.tuples
    ensures validation.NotImplemented? ==> r == suite.tuples
  {
    if validation.Listed? then validation.tuples else suite.tuples
  }

  /** The result of `list_keys`, from the listings of the two type-tagged backends. */
  function ListingOutcome(suite: Listing, validation: Listing, fromTuple: (ResourceKind, TupleKey) -> FromTuple)
    : (r: Result<seq<Resource>>)
    ensures suite.NotImplemented? <==> r == Failure(UnboundKeyTuples)
    ensures r.Failure? ==> r.error == UnboundKeyTuples || r.error == DecodeFailed
    ensures r.Success? ==> suite.Listed? && |r.value| <= |suite.tuples| + |ValidationTuples(suite, validation)|
  {
    match suite
    case NotImplemented => Failure(UnboundKeyTuples)
    case Listed(st) =>
      var a := Contribution(Suite, st, fromTuple);
      var b := Contribution(Validation, ValidationTuples(suite, validation), fromTuple);
      if a.Failure? then a else if b.Failure? then b else Success(a.value + b.value)
  }

  /** The store: four distinct backends fixed at construction, the identifier
      conversions it was built against, and the session set of keys written. */
  class HtmlSiteStore {
    const suites: Backend
    const validations: Backend
    const indexPage: Backend
    const staticAssets: Backend
    const codec: Codec
    var keys: set<Key>

    ghost predicate Valid()
      reads suites, validations, indexPage, staticAssets
    {
      && suites != validations && suites != indexPage && suites != staticAssets
      && validations != indexPage && validations != staticAssets && indexPage != staticAssets
      && suites.Valid() && validations.Valid() && indexPage.Valid() && staticAssets.Valid()
    }

    /** `self.store_backends[tag]`. */
    function BackendFor(t: Tag): (b: Backend)
    {
      match t
      case KindTag(Suite) => suites
      case KindTag(Validation) => validations
      case IndexPage => indexPage
      case StaticAssetsTag => staticAssets
    }

    /** `self.store_backends.items()`, in dictionary order. */
    function Registry(): (r: seq<(Tag, Backend)>)
      ensures |r| == |RegistryTags|
      ensures forall i :: 0 <= i < |r| ==> r[i].0 == RegistryTags[i] && r[i].1 == BackendFor(RegistryTags[i])
    {
      [(KindTag(Suite), suites), (KindTag(Validation), validations), (IndexPage, indexPage),
       (StaticAssetsTag, staticAssets)]
    }

    constructor (suites: Backend, validations: Backend, indexPage: Backend, staticAssets: Backend, codec: Codec)
      requires suites != validations && suites != indexPage && suites != staticAssets
      requires validations != indexPage && validations != staticAssets && indexPage != staticAssets
      requires suites.Valid() && validations.Valid() && indexPage.Valid() && staticAssets.Valid()
      ensures Valid() && keys == {}
      ensures this.suites == suites && this.validations == validations
      ensures this.indexPage == indexPage && this.staticAssets == staticAssets
      ensures this.codec == codec
    {
      this.suites := suites;
      this.validations := validations;
      this.indexPage := indexPage;
      this.staticAssets := staticAssets;
      this.codec := codec;
      keys := {};
    }

    /** `_validate_key`: succeeds exactly on the keys `Accepts`, else fails with the
        TypeError for a non-site-section key or for an unregistered resource. */
    method ValidateKey(key: Key) returns (r: Result<()>)
      ensures r.Success? <==> Accepts(key)
      ensures r.Failure? ==> r.error == RejectionOf(key)
    {
      if !key.SiteSection? {
        return Failure(NotSiteSectionKey);
      }
      var tags := RegistryTags;
      var i := 0;
      while i < |tags|
        invariant 0 <= i <= |tags|
        invariant forall j :: 0 <= j < i ==> !TagMatches(RegistryTags[j], key.resource)
      {
        var t := tags[i];
        if t.KindTag? && IsInstance(key.resource, t.kind) {
          return Success(());
        }
        i := i + 1;
      }
      return Failure(UnregisteredResource);
    }

    /** `get`: validates, then reads the backend of the resource's exact class under
        the site-section key's own tuple. */
    method Get(key: Key) returns (r: Result<Option<Bytes>>)
      ensures !Accepts(key) ==> r == Failure(RejectionOf(key))
      ensures Accepts(key) && ExactKind(key.resource).None? ==> r == Failure(NoBackendForType)
      ensures Accepts(key) && ExactKind(key.resource).Some? ==>
                r == Success(BackendFor(KindTag(ExactKind(key.resource).value))
                               .Get(codec.keyTuple(key.sectionName, key.resource)))
    {
      var v := ValidateKey(key);
      if v.Failure? {
        return Failure(v.error);
      }
      match ExactKind(key.resource)
      case None =>
        return Failure(NoBackendForType);
      case Some(k) =>
        var backend := BackendFor(KindTag(k));
        return Success(backend.Get(codec.keyTuple(key.sectionName, key.resource)));
    }

    /** `set`: validates, records the key, then writes HTML into the backend of the
        resource's exact class under the resource's own tuple, returning what that
        backend's `set` returns. */
    method Set(key: Key, value: Bytes) returns (r: Result<string>)
      requires Valid()
      modifies this`keys, suites, validations
      ensures Valid()
      ensures !Accepts(key) ==> && r == Failure(RejectionOf(key)) && keys == old(keys)
                                && unchanged(suites, validations)
      ensures Accepts(key) ==> keys == old(keys) + {key}
      ensures Accepts(key) && ExactKind(key.resource).None? ==>
                r == Failure(NoBackendForType) && unchanged(suites, validations)
      ensures Accepts(key) && ExactKind(key.resource).Some? ==>
                var b := BackendFor(KindTag(ExactKind(key.resource).value));
                && r == Success(b.writeResult(codec.resourceTuple(key.resource)))
                && b.table == Put(old(b.table), codec.resourceTuple(key.resource),
                                  Stored(value, HtmlContentType, Some(HtmlEncoding)))
                && unchanged(BackendFor(KindTag(OtherKind(ExactKind(key.resource).value))))
    {
      var v := ValidateKey(key);
      if v.Failure? {
        return Failure(v.error);
      }
      keys := keys + {key};
      match ExactKind(key.resource)
      case None =>
        return Failure(NoBackendForType);
      case Some(k) =>
        var backend := BackendFor(KindTag(k));
        var w := backend.Set(codec.resourceTuple(key.resource), value, HtmlContentType, Some(HtmlEncoding));
        return Success(w);
    }

    /** `get_url_for_resource`: the index page's URL for no argument, the URL of an
        instance of either resource kind in that kind's backend, and a ValueError for
        anything else. */
    function GetUrlForResource(resource: Option<Resource>): (r: Result<string>)
      ensures r.Success? <==> resource.None? || !resource.value.rtype.OtherType?
      ensures r.Failure? ==> r.error == UnsupportedResource
      ensures resource.None? ==> r == Success(indexPage.urlFor([]))
      ensures resource.Some? && IsInstance(resource.value, Suite) ==>
                r == Success(suites.urlFor(codec.resourceTuple(resource.value)))
      ensures resource.Some? && IsInstance(resource.value, Validation) ==>
                r == Success(validations.urlFor(codec.resourceTuple(resource.value)))
    {
      match resource
      case None => Success(indexPage.urlFor([]))
      case Some(x) =>
        if IsInstance(x, Suite) then Success(suites.urlFor(codec.resourceTuple(x)))
        else if IsInstance(x, Validation) then Success(validations.urlFor(codec.resourceTuple(x)))
        else Failure(UnsupportedResource)
    }

    /** `list_keys`: visits every registry entry in order, keeping the last listing
        that did not raise NotImplementedError, and decodes it for each type tag. */
    method ListKeys() returns (r: Result<seq<Resource>>)
      requires Valid()
      ensures r == ListingOutcome(suites.ListKeys(), validations.ListKeys(), codec.fromTuple)
    {
      ghost var s := suites.ListKeys();
      ghost var v := validations.ListKeys();
      var entries := Registry();
      var found: seq<Resource> := [];
      var keyTuples: Option<seq<TupleKey>> := None;
      var i := 0;
      while i < |entries|
        invariant 0 <= i <= |entries|
        invariant i == 0 ==> keyTuples.None? && found == []
        invariant i >= 1 ==> s.Listed? && Contribution(Suite, s.tuples, codec.fromTuple).Success?
        invariant i == 1 ==> keyTuples == Some(s.tuples) && found == Contribution(Suite, s.tuples, codec.fromTuple).value
        invariant i >= 2 ==> && keyTuples.Some?
                             && Contribution(Validation, ValidationTuples(s, v), codec.fromTuple).Success?
                             && found == Contribution(Suite, s.tuples, codec.fromTuple).value
                                         + Contribution(Validation, ValidationTuples(s, v), codec.fromTuple).value
      {
        var (tag, backend) := entries[i];
        var listing := backend.ListKeys();
        if listing.Listed? {
          keyTuples := Some(listing.tuples);
        }
        if tag.KindTag? {
          if keyTuples.None? {
            return Failure(UnboundKeyTuples);
          }
          var part := Contribution(tag.kind, keyTuples.value, codec.fromTuple);
          if part.Failure? {
            return part;
          }
          found := found + part.value;
        }
        i := i + 1;
      }
      return Success(found);
    }

    /** `write_index_page`: writes the page as HTML to the index-page backend under
        the empty tuple, returning what that backend's `set` returns. */
    method WriteIndexPage(page: Bytes) returns (w: string)
      requires Valid()
      modifies indexPage
      ensures Valid()
      ensures indexPage.table == Put(old(indexPage.table), [], Stored(page, HtmlContentType, Some(HtmlEncoding)))
      ensures w == indexPage.writeResult([])
    {
      w := indexPage.Set([], page, HtmlContentType, Some(HtmlEncoding));
    }

    /** The directory `copy_static_assets` walks: the one given, or the bundled
        one when none (or the empty path) is given. */
    static function SourceDir(source: Option<Path>, moduleDir: Path): (r: Path)
      ensures source.Some? && source.value != Path(false, []) ==> r == source.value
      ensures source.None? || source.value == Path(false, []) ==> r == DefaultStaticDir(moduleDir)
      ensures r != Path(false, [])
    {
      if source.None? || source.value == Path(false, []) then DefaultStaticDir(moduleDir) else source.value
    }

    /** One file of the walk: skipped when its name is excluded, otherwise written
        under its anchored key, or the walk stops when its path has no anchor. */
    method CopyFile(dir: Path, name: string, body: Bytes, guess: string -> Guess) returns (r: Result<()>)
      requires Valid()
      modifies staticAssets
      ensures Valid()
      ensures staticAssets.table == ApplyWrites(old(staticAssets.table), PlanFile(dir, name, body, guess).writes)
      ensures r.Failure? <==> PlanFile(dir, name, body, guess).aborted
      ensures r.Failure? ==> r.error == NoStaticAnchor
    {
      if name in FileExclusions {
        return Success(());
      }
      var key := StaticKey(NormSegments(Join(dir, [name])));
      if key.Failure? {
        return Failure(key.error);
      }
      var g := guess(name);
      var _ := staticAssets.Set(key.value, body, ContentTypeFor(name, g.contentType), g.encoding);
      return Success(());
    }

    /** One entry of the walk: a directory is walked recursively (no directory name
        is excluded), a file is copied by `CopyFile`. */
    method CopyEntry(dir: Path, moduleDir: Path, item: Entry, guess: string -> Guess) returns (r: Result<()>)
      requires Valid()
      modifies staticAssets
      ensures Valid()
      ensures staticAssets.table == ApplyWrites(old(staticAssets.table), PlanEntry(dir, item, guess).writes)
      ensures r.Failure? <==> PlanEntry(dir, item, guess).aborted
      ensures r.Failure? ==> r.error == NoStaticAnchor
      decreases EntrySize(item), 0
    {
      match item {
      case Directory(n, children) =>
        r := Success(());
        if n !in DirExclusions {
          r := CopyStaticAssets(Some(Join(dir, [n])), moduleDir, children, guess);
        }
      case File(n, body) =>
        r := CopyFile(dir, n, body, guess);
      }
    }

    /** `copy_static_assets`: walks `entries`, the listing of the source directory,
        writing every copied file to the static-assets backend, and stops at the
        first file whose path has no "static" segment, keeping what was written. */
    method CopyStaticAssets(source: Option<Path>, moduleDir: Path, entries: seq<Entry>, guess: string -> Guess)
      returns (r: Result<()>)
      requires Valid()
      modifies staticAssets
      ensures Valid()
      ensures var plan := PlanEntries(SourceDir(source, moduleDir), entries, guess);
              && staticAssets.table == ApplyWrites(old(staticAssets.table), plan.writes)
              && (r.Failure? <==> plan.aborted)
              && (r.Failure? ==> r.error == NoStaticAnchor)
      decreases EntriesSize(entries), 1
    {
      var dir := SourceDir(source, moduleDir);
      ghost var start := staticAssets.table;
      var i := 0;
      while i < |entries|
        invariant 0 <= i <= |entries|
        invariant Valid()
        invariant !PlanEntries(dir, entries[..i], guess).aborted
        invariant staticAssets.table == ApplyWrites(start, PlanEntries(dir, entries[..i], guess).writes)
        decreases |entries| - i
      {
        var item := entries[i];
        ghost var done := PlanEntries(dir, entries[..i], guess);
        ghost var step := PlanEntry(dir, item, guess);
        PlanStep(dir, entries, i, guess);
        ApplyWritesConcat(start, done.writes, step.writes);
        EntrySizeBound(entries, i);
        var copied := CopyEntry(dir, moduleDir, item, guess);
        if copied.Failure? {
          AbortedPrefix(dir, entries, i + 1, guess);
          return copied;
        }
        i := i + 1;
      }
      assert entries[..|entries|] == entries;
      return Success(());
    }
  }

  /** `_validate_key` accepts a site-section key exactly when its resource is an
      instance of one of the two resource classes; the string tags never match. */
  lemma AcceptsIffRegisteredKind(key: Key)
    ensures Accepts(key) <==> key.SiteSection? && !key.resource.rtype.OtherType?
    ensures forall r :: !TagMatches(IndexPage, r) && !TagMatches(StaticAssetsTag, r)
  {
    if key.SiteSection? && !key.resource.rtype.OtherType? {
      var i := if key.resource.rtype.kind == Suite then 0 else 1;
      assert TagMatches(RegistryTags[i], key.resource);
    }
  }

  /** A resource has a URL exactly when a key wrapping it passes validation. */
  lemma UrlIffAccepted(store: HtmlSiteStore, name: string, x: Resource)
    ensures store.GetUrlForResource(Some(x)).Success? <==> Accepts(SiteSection(name, x))
  {
    AcceptsIffRegisteredKind(SiteSection(name, x));
  }

  /** An instance of a subclass of a resource class passes validation and has a URL,
      yet its exact class is no registry key, so `get` and `set` find no backend. */
  lemma SubclassHasUrlButNoBackend(store: HtmlSiteStore, name: string, x: Resource)
    requires x.rtype.SubclassOf?
    ensures Accepts(SiteSection(name, x))
    ensures store.GetUrlForResource(Some(x)).Success?
    ensures ExactKind(x).None?
  {
    AcceptsIffRegisteredKind(SiteSection(name, x));
  }

  /** When both type-tagged backends can list and every tuple decodes, `list_keys`
      is the suite backend's identifiers followed by the validation backend's. */
  lemma ListingWhenAllListable(st: seq<TupleKey>, vt: seq<TupleKey>, fromTuple: (ResourceKind, TupleKey) -> FromTuple)
    requires forall i :: 0 <= i < |st| ==> fromTuple(Suite, st[i]).Built?
    requires forall i :: 0 <= i < |vt| ==> fromTuple(Validation, vt[i]).Built?
    ensures var r := ListingOutcome(Listed(st), Listed(vt), fromTuple);
            && r.Success?
            && |r.value| == |st| + |vt|
            && (forall i :: 0 <= i < |st| ==> r.value[i] == Resource(Exactly(Suite), fromTuple(Suite, st[i]).fields))
            && (forall i :: 0 <= i < |vt| ==>
                  r.value[|st| + i] == Resource(Exactly(Validation), fromTuple(Validation, vt[i]).fields))
  {
    var a := DecodeAll(Suite, st, fromTuple);
    var b := DecodeAll(Validation, vt, fromTuple);
    assert a.AllBuilt? && b.AllBuilt?;
    var r := ListingOutcome(Listed(st), Listed(vt), fromTuple);
    assert r == Success(a.resources + b.resources);
    assert forall i :: 0 <= i < |vt| ==> r.value[|st| + i] == b.resources[i];
  }

  /** When the validation backend raises NotImplementedError, `key_tuples` still holds
      the suite backend's listing, which is decoded a second time, as validation
      identifiers: `list_keys` does not just leave that backend out. */
  lemma ListingWithStaleTuples(st: seq<TupleKey>, fromTuple: (ResourceKind, TupleKey) -> FromTuple)
    requires forall i :: 0 <= i < |st| ==> fromTuple(Suite, st[i]).Built?
    requires forall i :: 0 <= i < |st| ==> fromTuple(Validation, st[i]).Built?
    ensures var r := ListingOutcome(Listed(st), NotImplemented, fromTuple);
            && r.Success?
            && |r.value| == 2 * |st|
            && (forall i :: 0 <= i < |st| ==>
                  r.value[|st| + i] == Resource(Exactly(Validation), fromTuple(Validation, st[i]).fields))
  {
    ListingWhenAllListable(st, st, fromTuple);
  }

  /** A backend's contribution is decided by the first tuple that does not decode:
      a TypeError there empties it, any other exception fails `list_keys`. */
  lemma ContributionAtFirstFailure(kind: ResourceKind, ts: seq<TupleKey>,
                                   fromTuple: (ResourceKind, TupleKey) -> FromTuple, j: nat)
    requires FirstFailureAt(kind, ts, fromTuple, j)
    ensures fromTuple(kind, ts[j]).RaisesTypeError? ==> Contribution(kind, ts, fromTuple) == Success([])
    ensures fromTuple(kind, ts[j]).RaisesOther? ==> Contribution(kind, ts, fromTuple) == Failure(DecodeFailed)
  {
    var d := DecodeAll(kind, ts, fromTuple);
    assert !d.AllBuilt?;
  }

  /** When the suite listing's first undecodable tuple raises TypeError, the suites add
      nothing and `list_keys` is what the validation entry yields; any other first
      failure makes `list_keys` fail. */
  lemma ListingAtSuiteFirstFailure(st: seq<TupleKey>, validation: Listing,
                                   fromTuple: (ResourceKind, TupleKey) -> FromTuple, j: nat)
    requires FirstFailureAt(Suite, st, fromTuple, j)
    ensures fromTuple(Suite, st[j]).RaisesTypeError? ==>
              ListingOutcome(Listed(st), validation, fromTuple)
              == Contribution(Validation, ValidationTuples(Listed(st), validation), fromTuple)
    ensures fromTuple(Suite, st[j]).RaisesOther? ==>
              ListingOutcome(Listed(st), validation, fromTuple) == Failure(DecodeFailed)
  {
    ContributionAtFirstFailure(Suite, st, fromTuple, j);
    var b := Contribution(Validation, ValidationTuples(Listed(st), validation), fromTuple);
    if b.Success? {
      assert [] + b.value == b.value;
    }
  }

  /** Everything `list_keys` returns is an identifier of exactly one of the two resource
      classes: the string-tagged backends contribute nothing. */
  lemma ListingHoldsOnlyResourceIdentifiers(suite: Listing, validation: Listing,
                                            fromTuple: (ResourceKind, TupleKey) -> FromTuple)
    ensures var r := ListingOutcome(suite, validation, fromTuple);
            r.Success? ==> forall i :: 0 <= i < |r.value| ==> r.value[i].rtype.Exactly?
  {
    if suite.Listed? {
      var a := Contribution(Suite, suite.tuples, fromTuple);
      var b := Contribution(Validation, ValidationTuples(suite, validation), fromTuple);
      if a.Success? && b.Success? {
        assert forall i :: 0 <= i < |a.value| ==> a.value[i].rtype.Exactly?;
        assert forall i :: 0 <= i < |b.value| ==> b.value[i].rtype.Exactly?;
        var all := a.value + b.value;
        assert forall i :: 0 <= i < |all| ==> all[i] == (if i < |a.value| then a.value[i] else b.value[i - |a.value|]);
      }
    }
  }

  /** A walk of the bundled directory, from any module directory, over a tree of
      plain names, copies every file and never stops. */
  lemma DefaultCopyNeverAborts(moduleDir: Path, entries: seq<Entry>, guess: string -> Guess)
    requires PlainTree(entries)
    ensures var plan := PlanEntries(HtmlSiteStore.SourceDir(None, moduleDir), entries, guess);
            && !plan.aborted
            && |plan.writes| == CopiedEntries(entries)
            && AllAnchored(plan.writes)
  {
    var dir := HtmlSiteStore.SourceDir(None, moduleDir);
    DefaultStaticDirAnchored(moduleDir);
    PlanEntriesUnderAnchor(dir, entries, guess);
    PlanEntriesCount(dir, entries, guess);
    PlanEntriesAnchored(dir, entries, guess);
  }

  /** Writing a page through `set` and reading it back through `get` meet only when
      the site-section key's tuple and the resource's tuple coincide: `set` writes under
      `resource_identifier.to_tuple()`, `get` reads under `key.to_tuple()`. */
  method SetThenGet(store: HtmlSiteStore, key: Key, value: Bytes) returns (r: Result<Option<Bytes>>)
    requires store.Valid()
    requires key.SiteSection? && key.resource.rtype.Exactly?
    modifies store`keys, store.suites, store.validations
    ensures var b := store.BackendFor(KindTag(key.resource.rtype.kind));
            var readAt := store.codec.keyTuple(key.sectionName, key.resource);
            var writtenAt := store.codec.resourceTuple(key.resource);
            && (readAt == writtenAt ==> r == Success(Some(value)))
            && (readAt != writtenAt ==> r == Success(old(b.Get(readAt))))
  {
    AcceptsIffRegisteredKind(key);
    var w := store.Set(key, value);
    r := store.Get(key);
  }
}
