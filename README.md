# HtmlSiteStore, modelled in Dafny

A model of `HtmlSiteStore` from Great Expectations.
`HtmlSiteStore` is the store that holds rendered data-docs sites.
It looks like one key-value store.
Inside, it routes each request to one of four backend stores, held in a registry whose keys are, in this order:
the class `ExpectationSuiteIdentifier`, the class `ValidationResultIdentifier`, the string `"index_page"` and the string `"static_assets"`.

The model covers:
- key validation (`_validate_key`);
- routed `get` and `set`, with the session set `self.keys`;
- URL resolution (`get_url_for_resource`);
- writing the index page under the empty tuple;
- `list_keys`;
- the recursive static-asset copy, including its exclusions, its key anchored at the first `"static"` segment and its content-type fallback chain.

Files and modules:
- `outcomes.dfy` (`Outcomes`): `Option`, `Result`, and one `Error` per exception the code raises.
- `identifiers.dfy` (`Identifiers`): resource kinds, the runtime class of an identifier, site-section keys, and the uninterpreted conversions (`Codec`).
- `backends.dfy` (`Backends`): an abstract tuple-key backend, written as a class over a `Table` value.
- `static_assets.dfy` (`StaticAssets`): the pure parts of the asset walk (path normalisation, the anchored key, content types) and `PlanEntries`, the sequence of writes a walk performs, with lemmas about it.
- `html_site_store.dfy` (`SiteStore`): the `HtmlSiteStore` class, the specification of `list_keys`, and the lemmas that relate the operations.

Modelling choices:
- A resource identifier's runtime class is `Exactly(kind)`, `SubclassOf(kind)` or `OtherType`.
  `_validate_key` and `get_url_for_resource` use `isinstance`, so they accept subclasses.
  `get` and `set` index the registry by `type(...)`, so for a subclass instance they raise a `KeyError` (`NoBackendForType`).
  `set` has already added the key to `self.keys` at that point.
- `to_tuple` and `from_tuple` are uninterpreted function values in a `Codec` record, with no inverse law.
  `get` reads under the site-section key's own tuple (`key.to_tuple()`).
  `set` writes under the resource's tuple (`key.resource_identifier.to_tuple()`).
  So "set, then get" returns the written page only when the two tuples coincide (`SiteStore.SetThenGet`).
- `list_keys` is modelled as written.
  `key_tuples` is not reset when a backend raises `NotImplementedError`.
  So when the validation backend cannot list, the suite backend's tuples are decoded a second time, as validation identifiers.
  When the suite backend, which comes first, cannot list, `key_tuples` is unbound and the call fails with `UnboundLocalError`.
  A `TypeError` raised while decoding is caught by the inner `except TypeError`, so that backend contributes nothing; any other decoding exception propagates (`DecodeFailed`).
- Paths are `Path(absolute, parts)`: the components of the path string between separators.
  `os.path.normpath(...).split(os.sep)` is written out on those components, following the POSIX algorithm (`NormSegments`).
  A directory tree is an `Entry` datatype, and each listing is a sequence in `os.listdir` order.
- `mimetypes.guess_type` is a function parameter `guess`.
  Each backend's URL scheme is an uninterpreted `urlFor` function.
  What a backend's `set` returns is an uninterpreted `writeResult` function of the key; `set` and `write_index_page` hand it back to their caller.

Three behaviours of the code that a reader might not expect:
- A set-then-get round trip is not guaranteed, because the two operations use different tuples.
- A backend that cannot list is not simply skipped: see the `list_keys` notes above.
- A decoding failure that raises `TypeError` is swallowed, not surfaced.

## Model

| member | source | states |
|---|---|---|
| `SiteStore.HtmlSiteStore.constructor` | great_expectations/data_context/store/html_site_store.py:39-84 | the store holds four distinct backends, one per registry entry, keeps the identifier conversions it was given, and starts with an empty session key set |
| `SiteStore.HtmlSiteStore.ValidateKey` | great_expectations/data_context/store/html_site_store.py:126-146 | succeeds exactly when the key is a site-section key whose resource is an instance of some registry entry; otherwise it fails with the TypeError for a non-site-section key or for an unregistered resource |
| `SiteStore.AcceptsIffRegisteredKind` | great_expectations/data_context/store/html_site_store.py:133-146 | a key is accepted exactly when it is a site-section key and its resource is an instance of either resource class; the string tags never match any resource |
| `SiteStore.HtmlSiteStore.Get` | great_expectations/data_context/store/html_site_store.py:86-90 | an unaccepted key fails with the validation error; an accepted subclass instance fails with a KeyError; otherwise it returns what the backend of the resource's exact class holds under the key's own tuple |
| `SiteStore.HtmlSiteStore.Set` | great_expectations/data_context/store/html_site_store.py:92-99 | an unaccepted key fails and leaves the key set and the backends unchanged; an accepted key is added to the key set; for an exact class, exactly that class's backend gets the value under the resource's tuple, with HTML content type and utf-8 encoding, the other backend is untouched, and the call returns that backend's write result for the resource's tuple |
| `SiteStore.SetThenGet` | great_expectations/data_context/store/html_site_store.py:86-99 | reading a key right after writing it returns the written page when the key's tuple equals the resource's tuple, and otherwise returns whatever was stored under the key's tuple before |
| `SiteStore.HtmlSiteStore.GetUrlForResource` | great_expectations/data_context/store/html_site_store.py:101-124 | no argument gives the index backend's URL for the empty tuple; an instance of either resource class gives that class's backend URL for its tuple; anything else fails with a ValueError |
| `SiteStore.UrlIffAccepted` | great_expectations/data_context/store/html_site_store.py:111-146 | a resource has a URL exactly when a site-section key wrapping it passes validation |
| `SiteStore.SubclassHasUrlButNoBackend` | great_expectations/data_context/store/html_site_store.py:86-124 | an instance of a subclass of a resource class passes validation and has a URL, but its exact class selects no backend for get and set |
| `SiteStore.DecodeAll` | great_expectations/data_context/store/html_site_store.py:158 | decoding succeeds exactly when every tuple decodes; it then yields one identifier of exactly that kind per tuple, in order; otherwise it stops at the first tuple that does not decode, with a TypeError exactly when that tuple's decoding raised one |
| `SiteStore.Contribution` | great_expectations/data_context/store/html_site_store.py:156-160 | a backend's part of the listing is either a failure, always the one for a decoding error other than TypeError, or at most one identifier per tuple, each of exactly that backend's kind; when every tuple decodes there is exactly one per tuple |
| `SiteStore.ContributionAtFirstFailure` | great_expectations/data_context/store/html_site_store.py:156-160 | the first tuple that does not decode decides: a TypeError there makes the backend contribute nothing, any other exception fails the listing |
| `SiteStore.ValidationTuples` | great_expectations/data_context/store/html_site_store.py:150-158 | the tuples decoded for the validation entry are that backend's own listing, or the suite backend's listing left in `key_tuples` when the validation backend cannot list |
| `SiteStore.ListingOutcome` | great_expectations/data_context/store/html_site_store.py:148-162 | the listing fails with UnboundLocalError exactly when the suite backend cannot list; any other failure is a decoding error; a successful listing holds at most one identifier per tuple decoded |
| `SiteStore.ListingAtSuiteFirstFailure` | great_expectations/data_context/store/html_site_store.py:150-161 | when the suite listing's first undecodable tuple raises TypeError, the result is what the validation entry yields alone; any other first failure fails the whole call |
| `SiteStore.HtmlSiteStore.ListKeys` | great_expectations/data_context/store/html_site_store.py:148-162 | the loop over the registry's entries returns exactly `ListingOutcome` of the two type-tagged backends' listings, whatever the string-tagged backends list |
| `SiteStore.ListingWhenAllListable` | great_expectations/data_context/store/html_site_store.py:148-162 | when both type-tagged backends list and every tuple decodes, the result is the suite identifiers followed by the validation identifiers, one per tuple, in order |
| `SiteStore.ListingWithStaleTuples` | great_expectations/data_context/store/html_site_store.py:150-158 | when the validation backend cannot list and every suite tuple decodes both as a suite identifier and as a validation identifier, the suite tuples are decoded again as validation identifiers: twice as many identifiers come back, the second half being the validation decodings of the suite tuples in order |
| `SiteStore.ListingHoldsOnlyResourceIdentifiers` | great_expectations/data_context/store/html_site_store.py:156-161 | every listed identifier is of exactly one of the two resource classes; the string-tagged backends contribute nothing |
| `SiteStore.HtmlSiteStore.WriteIndexPage` | great_expectations/data_context/store/html_site_store.py:164-167 | the page is written only to the index backend, under the empty tuple, with HTML content type and utf-8 encoding, and the call returns that backend's write result for the empty tuple |
| `SiteStore.HtmlSiteStore.CopyStaticAssets` | great_expectations/data_context/store/html_site_store.py:169-214 | only the static-assets backend changes; its new state is the old one with the walk's writes applied in order; the call fails with a ValueError exactly when the walk reaches a copied file without a "static" segment, and the writes made before that remain |
| `SiteStore.HtmlSiteStore.SourceDir` | great_expectations/data_context/store/html_site_store.py:177-178 | a given non-empty directory is walked as given; no directory, or the empty path, selects the bundled one; the walk never starts from the empty path |
| `SiteStore.HtmlSiteStore.CopyFile` | great_expectations/data_context/store/html_site_store.py:189-214 | a file named ".DS_Store" is skipped; any other file is written to the static-assets backend as its planned write, or the walk stops with a ValueError when its path has no "static" segment |
| `SiteStore.HtmlSiteStore.CopyEntry` | great_expectations/data_context/store/html_site_store.py:180-214 | a directory entry is walked recursively and a file entry copied; only the static-assets backend changes, by the entry's planned writes applied in order; it fails with the ValueError exactly when the entry's walk stops |
| `SiteStore.DefaultCopyNeverAborts` | great_expectations/data_context/store/html_site_store.py:177-197 | copying from the bundled directory, wherever the module sits, over a tree of ordinary names never fails, performs one write per copied file, and every key starts with "static" |
| `StaticAssets.DefaultStaticDir` | great_expectations/data_context/store/html_site_store.py:177-178 | the bundled directory is the module directory followed by `..`, `..`, `render`, `view`, `static`: it climbs to the module's grandparent and descends to render/view/static there, on the same side of the root as the module directory |
| `StaticAssets.Join` | great_expectations/data_context/store/html_site_store.py:182-193 | joining names keeps the directory's absoluteness; the result is the directory's components followed by exactly the given names |
| `StaticAssets.NormStep` | great_expectations/data_context/store/html_site_store.py:196 | one normpath step drops an empty or "." component; keeps an ordinary name; lets ".." remove the last kept name unless that is itself ".."; keeps ".." after a leading ".." and at the front of a relative path; drops ".." at the root of an absolute path |
| `StaticAssets.NormComponents` | great_expectations/data_context/store/html_site_store.py:196 | normalising never yields more components than it was given |
| `StaticAssets.NormSegments` | great_expectations/data_context/store/html_site_store.py:196 | the split of a normalised path is the normalised components, preceded by "" for an absolute path, whenever any component remains; it is never empty; an absolute one begins with "" and holds no "." or ".."; a relative one holds no empty component and holds "." only as the whole path |
| `StaticAssets.NormStepNormalised` | great_expectations/data_context/store/html_site_store.py:196 | one normpath step keeps the normal form: no empty or "." component, ".." only in a run at the front, and never in an absolute path |
| `StaticAssets.NormComponentsNormalised` | great_expectations/data_context/store/html_site_store.py:196 | normalising any components yields the normal form |
| `StaticAssets.NormalisedElements` | great_expectations/data_context/store/html_site_store.py:196 | a component list in normal form has no empty or "." component, and no ".." when the path is absolute |
| `StaticAssets.NormCollapse` | great_expectations/data_context/store/html_site_store.py:196 | an ordinary name followed by ".." normalises away |
| `StaticAssets.NormDropsDot` | great_expectations/data_context/store/html_site_store.py:196 | a trailing empty or "." component normalises away |
| `StaticAssets.NormAppendPlains` | great_expectations/data_context/store/html_site_store.py:193-196 | ordinary names appended to a path stay, in order, at the end of its normalised components |
| `StaticAssets.NormUpTwo` | great_expectations/data_context/store/html_site_store.py:177-196 | two ".." after at least two ordinary names remove the last two |
| `StaticAssets.PlanFile` | great_expectations/data_context/store/html_site_store.py:189-214 | a file named ".DS_Store" writes nothing; any other file stops the walk exactly when its normalised path has no "static" segment, and otherwise makes exactly one write, under the key `StaticKey` forms from its normalised path, of its bytes with the content type and encoding chosen for its name |
| `StaticAssets.PlanEntry` | great_expectations/data_context/store/html_site_store.py:180-192 | a directory entry is walked in full below the joined path, since no directory name is excluded; an entry never makes more writes than the files it copies |
| `StaticAssets.PlanEntries` | great_expectations/data_context/store/html_site_store.py:180-214 | a walk over a listing never makes more writes than the files it copies |
| `StaticAssets.FirstIndex` | great_expectations/data_context/store/html_site_store.py:197 | the index of the first occurrence of the value |
| `StaticAssets.StaticKey` | great_expectations/data_context/store/html_site_store.py:196-197 | succeeds exactly when a "static" segment exists; the key begins with "static", is a suffix of the segments, and no "static" occurs before it |
| `StaticAssets.NormPlainIdentity` | great_expectations/data_context/store/html_site_store.py:196 | normalising a path made of ordinary names leaves its components unchanged |
| `StaticAssets.NormAppendPlain` | great_expectations/data_context/store/html_site_store.py:193-196 | joining an ordinary name to a directory and normalising keeps that name as the last component |
| `StaticAssets.FileKeyEndsWithName` | great_expectations/data_context/store/html_site_store.py:193-197 | the key of a file with an ordinary name ends with that name |
| `StaticAssets.AnchoredUnderStaticDir` | great_expectations/data_context/store/html_site_store.py:193-197 | a file under `.../static/<rest>/` is stored under `("static", <rest>..., name)`, however deep the anchor sits, when every component and the name are ordinary names and no earlier component is "static" |
| `StaticAssets.ContentTypeFor` | great_expectations/data_context/store/html_site_store.py:198-207 | the guessed content type when there is one; otherwise "font/opentype" exactly for names ending in ".otf", and "text/html; charset=utf8" exactly for the rest |
| `StaticAssets.PlanEntriesAnchored` | great_expectations/data_context/store/html_site_store.py:180-214 | every key the walk writes begins with "static" |
| `StaticAssets.PlanEntriesCount` | great_expectations/data_context/store/html_site_store.py:174-214 | a walk that does not fail performs exactly one write per file not named ".DS_Store", in every directory (no directory is excluded); two files can share a key, so this counts writes, not keys |
| `StaticAssets.PlanEntriesUnderAnchor` | great_expectations/data_context/store/html_site_store.py:180-197 | below a directory whose normalised path has a "static" segment, a tree of ordinary names never makes the walk fail |
| `StaticAssets.DefaultStaticDirAnchored` | great_expectations/data_context/store/html_site_store.py:177-178 | the bundled directory `../../render/view/static`, reached from any module directory, normalises to a path whose last component is "static" |
| `StaticAssets.DefaultStaticDirNormalised` | great_expectations/data_context/store/html_site_store.py:177-196 | for a module directory of at least two ordinary components, the bundled directory normalises to the module's grandparent followed by render, view, static |
| `StaticAssets.DefaultStaticDirFileKey` | great_expectations/data_context/store/html_site_store.py:177-197 | a file at `<rest>/<name>` (ordinary names) inside the bundled directory is stored under `("static", <rest>..., name)` when the module's grandparent path has no "static" component |
| `StaticAssets.AbortedPrefix` | great_expectations/data_context/store/html_site_store.py:180-197 | once a file without an anchor stops the walk, the remaining entries write nothing |
| `StaticAssets.PlanStep` | great_expectations/data_context/store/html_site_store.py:180-192 | walking one more entry of a listing performs that entry's writes after the earlier ones |

## Left out

- Registry construction (`load_class`, `instantiate_class_from_config`, the `TupleStoreBackend` capability check and the configuration warning, lines 25-73): the constructor takes four ready backends, so the configuration error is not modelled.
- Concrete backend behaviour (path prefix, suffix and template handling, physical URLs): each backend is an in-memory table. Its listing is the order in which keys were first written, its `get` of a missing key gives `None`, and its URL scheme is an uninterpreted function.
- Exceptions raised by a backend itself (write or read failures, a `list_keys` failure other than `NotImplementedError`) are not modelled. So the phantom key that a failing backend write leaves in `self.keys` is not captured; the phantom key left by the `KeyError` of a subclass instance is.
- `to_tuple`, `from_tuple` and the identifier classes live in another module. They are uninterpreted here, and multiple inheritance from both resource classes is not modelled.
- `self.keys` holds keys with structural equality. Python's `set` compares `DataContextKey`s by their tuples.
- Filesystem I/O (`os.listdir`, `os.path.isdir`, `open`, `f.read`): replaced by an in-memory `Entry` tree. Read errors, symbolic links and the module's own location are not modelled; that location is the parameter `moduleDir`.
- `os.path.normpath` is modelled for POSIX without the special case of exactly two leading slashes. Windows separators are not modelled.
- `mimetypes.guess_type` is a foreign library: it is the parameter `guess`.
- StaticAssets.ContentTypeFor: the ".otf" test is made on the file name, while the code tests the joined path. The joined path ends with the name, so the two tests agree.
- SiteStore.HtmlSiteStore.CopyStaticAssets: like the code, it ignores what the static-assets backend's `set` returns.
- Logging (lines 34-35 and 206) has no effect on the model. Error values carry no messages.
