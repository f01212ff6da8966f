/** The pure half of `copy_static_assets`: path normalisation, the key anchored at
    the first "static" segment, the content-type fallback chain, and the sequence of
    backend writes a walk over a directory tree performs. The walk itself, which
    writes into the static-assets backend, is `SiteStore.HtmlSiteStore.CopyStaticAssets`. */
module StaticAssets {
  import opened Outcomes
  import opened Identifiers
  import opened Backends

  const Anchor := "static"
  const FileExclusions: seq<string> := [".DS_Store"]
  const DirExclusions: seq<string> := []
  const OtfSuffix := ".otf"
  const OtfContentType := "font/opentype"
  const FallbackContentType := "text/html; charset=utf8"

  /** A filesystem path: whether it starts with the separator, and the components
      between separators (empty, "." and ".." components included, as written).
      The empty string is Path(false, []); "/" is Path(true, []); any other string
      has at least one component. */
  datatype Path = Path(absolute: bool, parts: seq<string>)

  /** `os.path.join(p, n1, n2, ...)` for names that are not themselves absolute. */
  function Join(p: Path, names: seq<string>): (r: Path)
    ensures r.absolute == p.absolute && |r.parts| == |p.parts| + |names|
    ensures r.parts[..|p.parts|] == p.parts && r.parts[|p.parts|..] == names
  {
    Path(p.absolute, p.parts + names)
  }

  /** A name as `os.listdir` returns it: non-empty, not "." or "..", no separator. */
  predicate PlainName(n: string)
  {
    n != "" && n != "." && n != ".." && '/' !in n
  }

  /** The shape of what `normpath` keeps: no empty or "." component, ".." only at
      the front of a relative path, and never in an absolute one. */
  predicate Normalised(absolute: bool, comps: seq<string>)
  {
    comps == [] ||
    var init, last := comps[..|comps| - 1], comps[|comps| - 1];
    && Normalised(absolute, init)
    && last != "" && last != "."
    && (last == ".." ==> !absolute && (init == [] || init[|init| - 1] == ".."))
  }

  /** One normpath step keeps the normal form. */
  lemma {:induction false} NormStepNormalised(absolute: bool, kept: seq<string>, c: string)
    requires Normalised(absolute, kept)
    ensures Normalised(absolute, NormStep(absolute, kept, c))
  {
    assert (kept + [c])[..|kept|] == kept;
  }

  /** Whatever components are given, normalising yields the normal form. */
  lemma {:induction false} NormComponentsNormalised(absolute: bool, parts: seq<string>)
    ensures Normalised(absolute, NormComponents(absolute, parts))
  {
    if parts != [] {
      NormComponentsNormalised(absolute, parts[..|parts| - 1]);
      NormStepNormalised(absolute, NormComponents(absolute, parts[..|parts| - 1]), parts[|parts| - 1]);
    }
  }

  /** Component by component: no empty or "." component, no ".." in an absolute path. */
  lemma {:induction false} NormalisedElements(absolute: bool, comps: seq<string>)
    requires Normalised(absolute, comps)
    ensures forall i :: 0 <= i < |comps| ==>
              comps[i] != "" && comps[i] != "." && (absolute ==> comps[i] != "..")
  {
    if comps != [] {
      var init := comps[..|comps| - 1];
      NormalisedElements(absolute, init);
      assert forall i :: 0 <= i < |init| ==> comps[i] == init[i];
    }
  }

  /** One step of POSIX `normpath` over the components kept so far: a name is kept,
      "" and "." are dropped, ".." removes the last name kept (and is dropped at the
      root of an absolute path). */
  function NormStep(absolute: bool, kept: seq<string>, c: string): (r: seq<string>)
    ensures c == "" || c == "." ==> r == kept
    ensures c != "" && c != "." && c != ".." ==> r == kept + [c]
    ensures c == ".." && kept != [] && kept[|kept| - 1] != ".." ==> r == kept[..|kept| - 1]
    ensures c == ".." && kept != [] && kept[|kept| - 1] == ".." ==> r == kept + [c]
    ensures c == ".." && kept == [] ==> r == (if absolute then [] else [".."])
    ensures |r| <= |kept| + 1
  {
    if c == "" || c == "." then kept
    else if c != ".." || (!absolute && kept == []) || (kept != [] && kept[|kept| - 1] == "..") then kept + [c]
    else if kept != [] then kept[..|kept| - 1]
    else kept
  }

  /** The components `normpath` keeps, processing `parts` left to right. */
  function NormComponents(absolute: bool, parts: seq<string>): (r: seq<string>)
    ensures |r| <= |parts|
  {
    if parts == [] then []
    else NormStep(absolute, NormComponents(absolute, parts[..|parts| - 1]), parts[|parts| - 1])
  }

  /** `os.path.normpath(p).split(os.sep)` on a POSIX system. */
  function NormSegments(p: Path): (r: seq<string>)
    ensures |r| > 0
    ensures p.absolute ==> r[0] == "" && forall i :: 1 <= i < |r| ==> r[i] != "." && r[i] != ".."
    ensures !p.absolute ==> forall i :: 0 <= i < |r| ==> r[i] != "" && (r[i] == "." ==> r == ["."])
    ensures var comps := NormComponents(p.absolute, p.parts);
            comps != [] ==> r == (if p.absolute then [""] else []) + comps
  {
    var comps := NormComponents(p.absolute, p.parts);
    NormComponentsNormalised(p.absolute, p.parts);
    NormalisedElements(p.absolute, comps);
    if p.absolute then [""] + (if comps == [] then [""] else comps)
    else if comps == [] then ["."] else comps
  }

  /** `s.index(x)`: the first position of `x`. */
  function FirstIndex(s: seq<string>, x: string): (i: nat)
    requires x in s
    ensures i < |s| && s[i] == x && x !in s[..i]
  {
    if s[0] == x then 0
    else
      assert s == [s[0]] + s[1..];
      1 + FirstIndex(s[1..], x)
  }

  /** `store_key[store_key.index('static'):]`: the segments from the first "static"
      on; a ValueError when there is none. */
  function StaticKey(segments: seq<string>): (r: Result<TupleKey>)
    ensures r.Success? <==> Anchor in segments
    ensures r.Failure? ==> r.error == NoStaticAnchor
    ensures r.Success? ==> |r.value| > 0 && r.value[0] == Anchor
    ensures r.Success? ==> && |r.value| <= |segments|
                           && segments[|segments| - |r.value|..] == r.value
                           && Anchor !in segments[..|segments| - |r.value|]
  {
    if Anchor in segments then Success(segments[FirstIndex(segments, Anchor)..]) else Failure(NoStaticAnchor)
  }

  predicate EndsWith(s: string, suffix: string)
  {
    |suffix| <= |s| && s[|s| - |suffix|..] == suffix
  }

  /** What `mimetypes.guess_type(name, strict=False)` returns. */
  datatype Guess = Guess(contentType: Option<string>, encoding: Option<string>)

  /** The content type an asset is stored with: the guessed one when there is one,
      else the font type for ".otf" files, else the fallback type. */
  function ContentTypeFor(name: string, guessed: Option<string>): (r: string)
    ensures guessed.Some? ==> r == guessed.value
    ensures guessed.None? ==> (r == OtfContentType <==> EndsWith(name, OtfSuffix))
    ensures guessed.None? ==> (r == FallbackContentType <==> !EndsWith(name, OtfSuffix))
  {
    match guessed
    case Some(t) => t
    case None => if EndsWith(name, OtfSuffix) then OtfContentType else FallbackContentType
  }

  /** A directory entry as `os.listdir` and `os.path.isdir` reveal it. */
  datatype Entry = File(name: string, body: Bytes) | Directory(name: string, entries: seq<Entry>)

  function EntrySize(e: Entry): (n: nat)
    ensures n > 0
  {
    match e
    case File(_, _) => 1
    case Directory(_, es) => 1 + EntriesSize(es)
  }

  function EntriesSize(es: seq<Entry>): (n: nat)
  {
    if es == [] then 0 else EntriesSize(es[..|es| - 1]) + EntrySize(es[|es| - 1])
  }

  lemma {:induction false} EntrySizeBound(es: seq<Entry>, i: nat)
    requires i < |es|
    ensures EntrySize(es[i]) <= EntriesSize(es)
  {
    if i < |es| - 1 {
      EntrySizeBound(es[..|es| - 1], i);
    }
  }

  /** One backend write of the walk. */
  datatype StaticWrite = StaticWrite(key: TupleKey, stored: Stored)

  /** The writes a walk performs, in order, and whether it stopped on a ValueError. */
  datatype Plan = Plan(writes: seq<StaticWrite>, aborted: bool)

  const NoWrites := Plan([], false)

  /** `a` followed by `b`, unless `a` already stopped the walk. */
  function Then(a: Plan, b: Plan): (r: Plan)
    ensures r.aborted <==> a.aborted || b.aborted
  {
    if a.aborted then a else Plan(a.writes + b.writes, b.aborted)
  }

  /** One write under `key`, or a stop when no key could be formed. */
  function WriteUnder(key: Result<TupleKey>, stored: Stored): (r: Plan)
    ensures r.aborted <==> key.Failure?
    ensures r.aborted ==> r.writes == []
    ensures !r.aborted ==> r.writes == [StaticWrite(key.value, stored)]
  {
    if key.Failure? then Plan([], true) else Plan([StaticWrite(key.value, stored)], false)
  }

  /** The backend write for one non-directory entry of `dir`. */
  function PlanFile(dir: Path, name: string, body: Bytes, guess: string -> Guess): (r: Plan)
    ensures |r.writes| <= 1 && !(r.aborted && r.writes != [])
    ensures name in FileExclusions ==> r == NoWrites
    ensures r.aborted <==> name !in FileExclusions && Anchor !in NormSegments(Join(dir, [name]))
    ensures name !in FileExclusions && !r.aborted ==>
              |r.writes| == 1 && Success(r.writes[0].key) == StaticKey(NormSegments(Join(dir, [name])))
    ensures r.writes != [] ==>
              && |r.writes[0].key| > 0 && r.writes[0].key[0] == Anchor
              && r.writes[0].stored == Stored(body, ContentTypeFor(name, guess(name).contentType), guess(name).encoding)
  {
    if name in FileExclusions then NoWrites
    else WriteUnder(StaticKey(NormSegments(Join(dir, [name]))),
                    Stored(body, ContentTypeFor(name, guess(name).contentType), guess(name).encoding))
  }

  function PlanEntry(dir: Path, e: Entry, guess: string -> Guess): (r: Plan)
    ensures |r.writes| <= CopiedEntry(e)
    ensures e.Directory? ==> r == PlanEntries(Join(dir, [e.name]), e.entries, guess)
    decreases EntrySize(e), 0
  {
    match e
    case File(n, body) => PlanFile(dir, n, body, guess)
    case Directory(n, es) => if n in DirExclusions then NoWrites else PlanEntries(Join(dir, [n]), es, guess)
  }

  /** The writes of a walk over the listing `es` of directory `dir`. */
  function PlanEntries(dir: Path, es: seq<Entry>, guess: string -> Guess): (r: Plan)
    ensures |r.writes| <= CopiedEntries(es)
    decreases EntriesSize(es), 1
  {
    if es == [] then NoWrites
    else Then(PlanEntries(dir, es[..|es| - 1], guess), PlanEntry(dir, es[|es| - 1], guess))
  }

  /** The backend state after the writes `ws`, in order. */
  function ApplyWrites(t: Table, ws: seq<StaticWrite>): (r: Table)
    ensures t.Valid() ==> r.Valid()
  {
    if ws == [] then t
    else Put(ApplyWrites(t, ws[..|ws| - 1]), ws[|ws| - 1].key, ws[|ws| - 1].stored)
  }

  lemma {:induction false} ApplyWritesConcat(t: Table, a: seq<StaticWrite>, b: seq<StaticWrite>)
    ensures ApplyWrites(t, a + b) == ApplyWrites(ApplyWrites(t, a), b)
  {
    if b == [] {
      assert a + b == a;
    } else {
      assert (a + b)[..|a + b| - 1] == a + b[..|b| - 1];
      ApplyWritesConcat(t, a, b[..|b| - 1]);
    }
  }

  /** The bundled asset directory: `file_relative_path(__file__, "../../render/view/static")`
      for the directory `moduleDir` that holds this module. */
  function DefaultStaticDir(moduleDir: Path): (r: Path)
    ensures r.absolute == moduleDir.absolute
    ensures |r.parts| > |moduleDir.parts| && r.parts[..|moduleDir.parts|] == moduleDir.parts
    ensures r.parts[|moduleDir.parts|..] == ["..", "..", "render", "view", Anchor]
    ensures r.parts[|r.parts| - 1] == Anchor
  {
    Join(moduleDir, ["..", "..", "render", "view", "static"])
  }

  predicate PlainParts(parts: seq<string>)
  {
    forall i :: 0 <= i < |parts| ==> PlainName(parts[i])
  }

  /** Every name in the tree is one `os.listdir` can return. */
  predicate PlainTree(es: seq<Entry>)
  {
    forall i :: 0 <= i < |es| ==> PlainEntry(es[i])
  }

  predicate PlainEntry(e: Entry)
  {
    PlainName(e.name) && (e.Directory? ==> PlainTree(e.entries))
  }

  /** The number of files a complete walk copies: every file not excluded by name,
      in every directory (no directory name is excluded). */
  function CopiedEntry(e: Entry): (n: nat)
    decreases EntrySize(e), 0
  {
    match e
    case File(n, _) => if n in FileExclusions then 0 else 1
    case Directory(_, es) => CopiedEntries(es)  // DirExclusions is empty
  }

  function CopiedEntries(es: seq<Entry>): (n: nat)
    decreases EntriesSize(es), 1
  {
    if es == [] then 0 else CopiedEntries(es[..|es| - 1]) + CopiedEntry(es[|es| - 1])
  }

  predicate AllAnchored(ws: seq<StaticWrite>)
  {
    forall i :: 0 <= i < |ws| ==> |ws[i].key| > 0 && ws[i].key[0] == Anchor
  }

  /** Every key the walk writes begins with the "static" segment. */
  lemma {:induction false} PlanEntriesAnchored(dir: Path, es: seq<Entry>, guess: string -> Guess)
    ensures AllAnchored(PlanEntries(dir, es, guess).writes)
    decreases EntriesSize(es), 1
  {
    if es != [] {
      PlanEntriesAnchored(dir, es[..|es| - 1], guess);
      PlanEntryAnchored(dir, es[|es| - 1], guess);
    }
  }

  lemma {:induction false} PlanEntryAnchored(dir: Path, e: Entry, guess: string -> Guess)
    ensures AllAnchored(PlanEntry(dir, e, guess).writes)
    decreases EntrySize(e), 0
  {
    match e
    case File(n, body) =>
    case Directory(n, es) =>
      if n !in DirExclusions {
        PlanEntriesAnchored(Join(dir, [n]), es, guess);
      }
  }

  /** A walk that does not stop performs exactly one write per copied file (two files can share a key). */
  lemma {:induction false} PlanEntriesCount(dir: Path, es: seq<Entry>, guess: string -> Guess)
    ensures !PlanEntries(dir, es, guess).aborted ==> |PlanEntries(dir, es, guess).writes| == CopiedEntries(es)
    decreases EntriesSize(es), 1
  {
    if es != [] {
      PlanEntriesCount(dir, es[..|es| - 1], guess);
      PlanEntryCount(dir, es[|es| - 1], guess);
    }
  }

  lemma {:induction false} PlanEntryCount(dir: Path, e: Entry, guess: string -> Guess)
    ensures !PlanEntry(dir, e, guess).aborted ==> |PlanEntry(dir, e, guess).writes| == CopiedEntry(e)
    decreases EntrySize(e), 0
  {
    match e
    case File(n, body) =>
    case Directory(n, es) =>
      if n !in DirExclusions {
        PlanEntriesCount(Join(dir, [n]), es, guess);
      }
  }

  /** Normalising a path that ends in a plain name keeps that name last. */
  lemma NormAppendPlain(absolute: bool, xs: seq<string>, c: string)
    requires PlainName(c)
    ensures NormComponents(absolute, xs + [c]) == NormComponents(absolute, xs) + [c]
  {
    assert (xs + [c])[..|xs|] == xs;
  }

  /** Normalising a path that ends in plain names keeps those names last. */
  lemma {:induction false} NormAppendPlains(absolute: bool, xs: seq<string>, ys: seq<string>)
    requires PlainParts(ys)
    ensures NormComponents(absolute, xs + ys) == NormComponents(absolute, xs) + ys
  {
    if ys != [] {
      var init, c := ys[..|ys| - 1], ys[|ys| - 1];
      PlainPartsInit(ys);
      calc {
        NormComponents(absolute, xs + ys);
        { assert xs + ys == (xs + init) + [c]; }
        NormComponents(absolute, (xs + init) + [c]);
        { NormAppendPlain(absolute, xs + init, c); }
        NormComponents(absolute, xs + init) + [c];
        { NormAppendPlains(absolute, xs, init); }
        (NormComponents(absolute, xs) + init) + [c];
        { assert init + [c] == ys; }
        NormComponents(absolute, xs) + ys;
      }
    } else {
      assert xs + ys == xs;
    }
  }

  lemma PlainPartsInit(ys: seq<string>)
    requires PlainParts(ys) && ys != []
    ensures PlainParts(ys[..|ys| - 1]) && PlainName(ys[|ys| - 1])
  {
    var init := ys[..|ys| - 1];
    forall i | 0 <= i < |init| ensures PlainName(init[i]) { assert init[i] == ys[i]; }
  }

  /** "name/.." normalises away. */
  lemma NormCollapse(absolute: bool, xs: seq<string>, n: string)
    requires PlainName(n)
    ensures NormComponents(absolute, xs + [n, ".."]) == NormComponents(absolute, xs)
  {
    NormAppendPlain(absolute, xs, n);
    var p := xs + [n, ".."];
    assert p[..|p| - 1] == xs + [n];
  }

  /** A trailing empty or "." component normalises away. */
  lemma NormDropsDot(absolute: bool, xs: seq<string>, c: string)
    requires c == "" || c == "."
    ensures NormComponents(absolute, xs + [c]) == NormComponents(absolute, xs)
  {
    assert (xs + [c])[..|xs|] == xs;
  }

  /** Normalising plain components changes nothing. */
  lemma {:induction false} NormPlainIdentity(absolute: bool, xs: seq<string>)
    requires PlainParts(xs)
    ensures NormComponents(absolute, xs) == xs
  {
    if xs != [] {
      var init := xs[..|xs| - 1];
      assert PlainParts(init) by {
        forall i | 0 <= i < |init| ensures PlainName(init[i]) { assert init[i] == xs[i]; }
      }
      NormPlainIdentity(absolute, init);
      assert PlainName(xs[|xs| - 1]);
      NormAppendPlain(absolute, init, xs[|xs| - 1]);
      assert init + [xs[|xs| - 1]] == xs;
    }
  }

  /** The key of a file with a plain name ends with that name. */
  lemma FileKeyEndsWithName(dir: Path, name: string)
    requires PlainName(name)
    ensures var key := StaticKey(NormSegments(Join(dir, [name])));
            key.Success? ==> key.value[|key.value| - 1] == name
  {
    NormAppendPlain(dir.absolute, dir.parts, name);
    var segs := NormSegments(Join(dir, [name]));
    assert segs[|segs| - 1] == name;
    var key := StaticKey(segs);
    if key.Success? {
      var p := |segs| - |key.value|;
      assert key.value == segs[p..];
      assert key.value[|key.value| - 1] == segs[|segs| - 1];
    }
  }

  lemma PlainConcat(xs: seq<string>, ys: seq<string>)
    requires PlainParts(xs)
    requires forall i :: 0 <= i < |ys| ==> ys[i] == Anchor || PlainName(ys[i])
    ensures PlainParts(xs + ys)
  {
    assert forall i :: 0 <= i < |ys| ==> (xs + ys)[|xs| + i] == ys[i];
  }

  /** The anchored key of segments whose first "static" follows `lead`. */
  lemma StaticKeyAfterLead(lead: seq<string>, tail: seq<string>)
    requires Anchor !in lead
    ensures StaticKey(lead + [Anchor] + tail) == Success([Anchor] + tail)
  {
    var segs := lead + [Anchor] + tail;
    var q := |lead|;
    assert segs[q] == Anchor;
    assert segs[..q] == lead;
    assert segs[q..] == [Anchor] + tail;
  }

  /** The normalised segments of a path of plain components are those components. */
  lemma PlainSegments(absolute: bool, parts: seq<string>)
    requires PlainParts(parts) && parts != []
    ensures NormSegments(Path(absolute, parts)) == (if absolute then [""] else []) + parts
  {
    NormPlainIdentity(absolute, parts);
  }

  /** The normalised segments of `<prefix>/static/<rest>/<name>` when every component is plain. */
  lemma AnchoredPathSegments(absolute: bool, prefix: seq<string>, rest: seq<string>, name: string)
    requires PlainParts(prefix) && PlainParts(rest) && PlainName(name)
    ensures NormSegments(Join(Path(absolute, prefix + [Anchor] + rest), [name]))
            == ((if absolute then [""] else []) + prefix) + [Anchor] + (rest + [name])
  {
    var root: seq<string> := if absolute then [""] else [];
    var after := rest + [name];
    var tail := [Anchor] + after;
    var p := Join(Path(absolute, prefix + [Anchor] + rest), [name]);
    assert p.parts == prefix + tail;
    assert forall i :: 0 <= i < |tail| ==> tail[i] == Anchor || PlainName(tail[i]) by {
      assert forall i :: 0 <= i < |rest| ==> after[i] == rest[i];
    }
    PlainConcat(prefix, tail);
    PlainSegments(absolute, prefix + tail);
    Regroup(root, prefix, Anchor, after);
  }

  lemma Regroup(a: seq<string>, b: seq<string>, x: string, c: seq<string>)
    ensures a + (b + ([x] + c)) == (a + b) + [x] + c
  {
  }

  /** A file under `.../static/<rest>/` is stored under `("static", <rest>..., name)`,
      however deep the anchor directory sits in the path. */
  lemma AnchoredUnderStaticDir(absolute: bool, prefix: seq<string>, rest: seq<string>, name: string)
    requires PlainParts(prefix) && PlainParts(rest) && PlainName(name)
    requires Anchor !in prefix
    ensures StaticKey(NormSegments(Join(Path(absolute, prefix + [Anchor] + rest), [name])))
            == Success([Anchor] + rest + [name])
  {
    var lead: seq<string> := if absolute then [""] else [];
    AnchoredPathSegments(absolute, prefix, rest, name);
    StaticKeyAfterLead(lead + prefix, rest + [name]);
    Assoc([Anchor], rest, [name]);
  }

  /** Below a directory whose normalised path has a "static" segment, a tree of plain
      names never makes the walk stop. */
  lemma {:induction false} PlanEntriesUnderAnchor(dir: Path, es: seq<Entry>, guess: string -> Guess)
    requires Anchor in NormComponents(dir.absolute, dir.parts)
    requires PlainTree(es)
    ensures !PlanEntries(dir, es, guess).aborted
    decreases EntriesSize(es), 1
  {
    if es != [] {
      var init := es[..|es| - 1];
      assert PlainTree(init) by {
        forall i | 0 <= i < |init| ensures PlainEntry(init[i]) { assert init[i] == es[i]; }
      }
      PlanEntriesUnderAnchor(dir, init, guess);
      PlanEntryUnderAnchor(dir, es[|es| - 1], guess);
    }
  }

  lemma {:induction false} PlanEntryUnderAnchor(dir: Path, e: Entry, guess: string -> Guess)
    requires Anchor in NormComponents(dir.absolute, dir.parts)
    requires PlainEntry(e)
    ensures !PlanEntry(dir, e, guess).aborted
    decreases EntrySize(e), 0
  {
    NormAppendPlain(dir.absolute, dir.parts, e.name);
    var comps := NormComponents(dir.absolute, dir.parts + [e.name]);
    assert Anchor in comps;
    match e
    case File(n, body) =>
      assert Anchor in NormSegments(Join(dir, [n]));
    case Directory(n, es) =>
      if n !in DirExclusions {
        PlanEntriesUnderAnchor(Join(dir, [n]), es, guess);
      }
  }

  /** The bundled directory, from any module directory, normalises to a path
      whose last component is "static". */
  lemma DefaultStaticDirAnchored(moduleDir: Path)
    ensures var c := NormComponents(moduleDir.absolute, DefaultStaticDir(moduleDir).parts);
            |c| > 0 && c[|c| - 1] == Anchor && Anchor in c
  {
    var a, xs := moduleDir.absolute, moduleDir.parts;
    var up := xs + [".."] + [".."] + ["render"] + ["view"];
    assert DefaultStaticDir(moduleDir).parts == up + [Anchor];
    NormAppendPlain(a, up, Anchor);
    var c := NormComponents(a, up) + [Anchor];
    assert c[|c| - 1] == Anchor;
  }
  /** A ".." after plain names removes the last of them. */
  lemma NormUpOne(absolute: bool, xs: seq<string>)
    requires PlainParts(xs) && xs != []
    ensures NormComponents(absolute, xs + [".."]) == xs[..|xs| - 1]
  {
    NormPlainIdentity(absolute, xs);
    var p := xs + [".."];
    assert p[..|p| - 1] == xs;
    assert PlainName(xs[|xs| - 1]);
  }

  /** Two ".." after at least two plain names remove the last two. */
  lemma NormUpTwo(absolute: bool, xs: seq<string>)
    requires PlainParts(xs) && |xs| >= 2
    ensures NormComponents(absolute, xs + [".."] + [".."]) == xs[..|xs| - 2]
  {
    NormUpOne(absolute, xs);
    var p := xs + [".."] + [".."];
    assert p[..|p| - 1] == xs + [".."];
    var kept := xs[..|xs| - 1];
    assert kept[|kept| - 1] == xs[|xs| - 2];
    assert PlainName(xs[|xs| - 2]);
    assert kept[..|kept| - 1] == xs[..|xs| - 2];
  }

  /** From a module directory at least two plain levels deep, the bundled directory
      normalises to the module's grandparent followed by render/view/static. */
  lemma DefaultStaticDirNormalised(moduleDir: Path)
    requires PlainParts(moduleDir.parts) && |moduleDir.parts| >= 2
    ensures NormComponents(moduleDir.absolute, DefaultStaticDir(moduleDir).parts)
            == moduleDir.parts[..|moduleDir.parts| - 2] + ["render", "view", Anchor]
  {
    var xs := moduleDir.parts;
    var up2 := xs + [".."] + [".."];
    NormUpTwo(moduleDir.absolute, xs);
    NormAppendPlains(moduleDir.absolute, up2, ["render", "view", Anchor]);
    assert DefaultStaticDir(moduleDir).parts == up2 + ["render", "view", Anchor];
  }

  /** The normalised components of `<bundled directory>/<rest>/<name>` for plain components. */
  lemma DefaultStaticDirFileComponents(moduleDir: Path, rest: seq<string>, name: string)
    requires PlainParts(moduleDir.parts) && |moduleDir.parts| >= 2
    requires PlainParts(rest) && PlainName(name)
    ensures var p := Join(Join(DefaultStaticDir(moduleDir), rest), [name]);
            NormComponents(p.absolute, p.parts)
            == (moduleDir.parts[..|moduleDir.parts| - 2] + ["render", "view"]) + ([Anchor] + (rest + [name]))
  {
    var base := DefaultStaticDir(moduleDir).parts;
    var front := moduleDir.parts[..|moduleDir.parts| - 2] + ["render", "view"];
    var tail := rest + [name];
    assert PlainParts(tail) by {
      assert forall i :: 0 <= i < |rest| ==> tail[i] == rest[i];
    }
    DefaultStaticDirNormalised(moduleDir);
    NormAppendPlains(moduleDir.absolute, base, tail);
    assert Join(Join(DefaultStaticDir(moduleDir), rest), [name]).parts == base + tail;
    assert moduleDir.parts[..|moduleDir.parts| - 2] + ["render", "view", Anchor] == front + [Anchor];
    Assoc(front, [Anchor], tail);
  }

  lemma Assoc(a: seq<string>, b: seq<string>, c: seq<string>)
    ensures (a + b) + c == a + (b + c)
  {
  }

  /** The part of the bundled directory's normalised segments before its "static". */
  function DefaultStaticLead(moduleDir: Path): (lead: seq<string>)
    requires |moduleDir.parts| >= 2
    ensures Anchor !in moduleDir.parts[..|moduleDir.parts| - 2] ==> Anchor !in lead
  {
    var front := moduleDir.parts[..|moduleDir.parts| - 2] + ["render", "view"];
    assert forall i :: 0 <= i < |front| ==> front[i] in moduleDir.parts[..|moduleDir.parts| - 2] + ["render", "view"];
    (if moduleDir.absolute then [""] else []) + front
  }

  /** The normalised segments of `<bundled directory>/<rest>/<name>` for plain components. */
  lemma DefaultStaticDirFileSegments(moduleDir: Path, rest: seq<string>, name: string)
    requires PlainParts(moduleDir.parts) && |moduleDir.parts| >= 2
    requires PlainParts(rest) && PlainName(name)
    ensures NormSegments(Join(Join(DefaultStaticDir(moduleDir), rest), [name]))
            == DefaultStaticLead(moduleDir) + [Anchor] + (rest + [name])
  {
    var p := Join(Join(DefaultStaticDir(moduleDir), rest), [name]);
    var front := moduleDir.parts[..|moduleDir.parts| - 2] + ["render", "view"];
    var tail := rest + [name];
    DefaultStaticDirFileComponents(moduleDir, rest, name);
    var root: seq<string> := if p.absolute then [""] else [];
    var comps := NormComponents(p.absolute, p.parts);
    assert comps == front + ([Anchor] + tail);
    assert NormSegments(p) == root + comps;
    Regroup(root, front, Anchor, tail);
  }

  /** A file at `<rest>/<name>` in the bundled directory is stored under
      `("static", <rest>..., name)`, when the module's grandparent path has no
      "static" component and every component is plain. */
  lemma DefaultStaticDirFileKey(moduleDir: Path, rest: seq<string>, name: string)
    requires PlainParts(moduleDir.parts) && |moduleDir.parts| >= 2
    requires Anchor !in moduleDir.parts[..|moduleDir.parts| - 2]
    requires PlainParts(rest) && PlainName(name)
    ensures StaticKey(NormSegments(Join(Join(DefaultStaticDir(moduleDir), rest), [name])))
            == Success([Anchor] + rest + [name])
  {
    DefaultStaticDirFileSegments(moduleDir, rest, name);
    StaticKeyAfterLead(DefaultStaticLead(moduleDir), rest + [name]);
    Assoc([Anchor], rest, [name]);
  }




  /** The walk over the first `i + 1` entries is the walk over the first `i`, then entry `i`. */
  lemma PlanStep(dir: Path, es: seq<Entry>, i: nat, guess: string -> Guess)
    requires i < |es|
    ensures PlanEntries(dir, es[..i + 1], guess) == Then(PlanEntries(dir, es[..i], guess), PlanEntry(dir, es[i], guess))
  {
    var p := es[..i + 1];
    assert p[..|p| - 1] == es[..i];
    assert p[|p| - 1] == es[i];
  }

  /** Once a prefix of the listing stops the walk, the rest of the listing adds nothing. */
  lemma {:induction false} AbortedPrefix(dir: Path, es: seq<Entry>, k: nat, guess: string -> Guess)
    requires k <= |es|
    requires PlanEntries(dir, es[..k], guess).aborted
    ensures PlanEntries(dir, es, guess) == PlanEntries(dir, es[..k], guess)
    decreases |es| - k
  {
    if k < |es| {
      PlanStep(dir, es, k, guess);
      AbortedPrefix(dir, es, k + 1, guess);
    } else {
      assert es[..k] == es;
    }
  }
}
