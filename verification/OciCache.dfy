/** Resolving image references through a registry, with a content-addressed cache.

    The registry may answer anything, tags may move between calls, and stored objects may be
    lost or damaged at any time.  Contents are only ever trusted through their digest. */
module OciCache {
  import opened Common

  type Bytes = string
  type Digest = string

  datatype Platform = Platform(os: string, architecture: string)

  datatype Descriptor = Descriptor(digest: string, size: nat, platform: Option<Platform>, tocDigest: Option<string>)

  datatype Manifest = Manifest(config: Descriptor, layers: seq<Descriptor>)

  datatype ResolvedImage = ResolvedImage(
    requested: string, pullReference: string, digest: Digest, os: string, architecture: string,
    cacheHit: bool, lazyCompatible: bool)

  datatype OciError = InvalidReference | Request | Metadata | PlatformMissing | DigestMismatch | OfflineMissing

  /** Hashing and the metadata formats: what the bytes of an object mean. */
  datatype Formats = Formats(
    hash: Bytes -> Digest,
    digest: string -> Option<Digest>,
    index: Bytes -> Option<seq<Descriptor>>,
    manifest: Bytes -> Option<Manifest>,
    config: Bytes -> Option<Platform>,
    pullName: string -> Option<string>)

  function Hash(f: Formats, b: Bytes): Digest { f.hash(b) }

  ghost predicate Injective(f: Formats) {
    forall a, b :: Hash(f, a) == Hash(f, b) ==> a == b
  }

  predicate IsLinuxAmd64(p: Platform) {
    p.os == "linux" && (p.architecture == "amd64" || p.architecture == "x86_64")
  }

  /** The first descriptor for the wanted platform. */
  function Select(ds: seq<Descriptor>): Option<Descriptor> {
    if ds == [] then None
    else if ds[0].platform.Some? && IsLinuxAmd64(ds[0].platform.value) then Some(ds[0])
    else Select(ds[1..])
  }

  predicate LazyLayer(d: Descriptor) {
    d.tocDigest.Some? && |d.tocDigest.value| == 71 && d.tocDigest.value[..7] == "sha256:"
  }

  predicate LazyCompatible(m: Manifest) {
    m.layers != [] && forall i :: 0 <= i < |m.layers| ==> LazyLayer(m.layers[i])
  }

  // ----- what a reference resolves to

  /** `selected` holds the platform manifest named by the top object `top`. */
  ghost predicate Selects(f: Formats, top: Bytes, selected: Bytes) {
    && f.index(top).Some?
    && if f.index(top).value == [] then selected == top
       else
         && Select(f.index(top).value).Some?
         && var d := Select(f.index(top).value).value;
            f.digest(d.digest) == Some(Hash(f, selected)) && |selected| == d.size
  }

  /** `config` is the configuration the manifest `selected` names. */
  ghost predicate Configures(f: Formats, selected: Bytes, config: Bytes) {
    && f.manifest(selected).Some?
    && f.digest(f.manifest(selected).value.config.digest) == Some(Hash(f, config))
    && |config| == f.manifest(selected).value.config.size
    && f.config(config).Some? && IsLinuxAmd64(f.config(config).value)
  }

  function ImageOf(f: Formats, reference: string, pullName: string, selected: Digest, m: Manifest, p: Platform,
                   hit: bool): ResolvedImage {
    ResolvedImage(reference, pullName + "@" + selected, selected, p.os, p.architecture, hit, LazyCompatible(m))
  }

  /** A full, verified fetch of `reference` at the top digest `top` yields `image`. */
  ghost predicate Chain(f: Formats, reference: string, top: Digest, image: ResolvedImage, t: Bytes, s: Bytes,
                        c: Bytes) {
    && f.pullName(reference).Some?
    && Hash(f, t) == top
    && Selects(f, t, s)
    && Configures(f, s, c)
    && image == ImageOf(f, reference, f.pullName(reference).value, Hash(f, s), f.manifest(s).value,
                        f.config(c).value, false)
  }

  ghost predicate ResolvesTo(f: Formats, reference: string, top: Digest, image: ResolvedImage) {
    exists t, s, c :: Chain(f, reference, top, image, t, s, c)
  }

  /** The top digest decides the image. */
  lemma ResolutionUnique(f: Formats, reference: string, top: Digest, a: ResolvedImage, b: ResolvedImage)
    requires Injective(f) && ResolvesTo(f, reference, top, a) && ResolvesTo(f, reference, top, b)
    ensures a == b
  {
    var t, s, c :| Chain(f, reference, top, a, t, s, c);
    var t', s', c' :| Chain(f, reference, top, b, t', s', c');
    assert Hash(f, t) == Hash(f, t');
    assert Hash(f, s) == Hash(f, s');
    assert Hash(f, c) == Hash(f, c');
  }

  // ----- said without the code's own tests

  ghost predicate ForLinuxAmd64(d: Descriptor) {
    d.platform in {Some(Platform("linux", "amd64")), Some(Platform("linux", "x86_64"))}
  }

  /** Entry `i` is the first of `ds` for linux/amd64. */
  ghost predicate FirstFor(ds: seq<Descriptor>, i: nat) {
    && i < |ds| && ForLinuxAmd64(ds[i])
    && forall j :: 0 <= j < i ==> !ForLinuxAmd64(ds[j])
  }

  lemma {:induction false} SelectIsFirst(ds: seq<Descriptor>)
    ensures Select(ds).None? <==> forall i :: 0 <= i < |ds| ==> !ForLinuxAmd64(ds[i])
    ensures forall i: nat :: FirstFor(ds, i) ==> Select(ds) == Some(ds[i])
    ensures Select(ds).Some? ==> exists i: nat :: FirstFor(ds, i)
  {
    if ds != [] {
      PlatformIs(ds[0]);
      if ForLinuxAmd64(ds[0]) {
        assert FirstFor(ds, 0);
      } else {
        SelectIsFirst(ds[1..]);
        FirstLater(ds);
      }
    }
  }

  ghost predicate ListsOthersOnly(ds: seq<Descriptor>) {
    ds != [] && forall i :: 0 <= i < |ds| ==> !ForLinuxAmd64(ds[i])
  }

  lemma PlatformIs(d: Descriptor)
    ensures d.platform.Some? && IsLinuxAmd64(d.platform.value) <==> ForLinuxAmd64(d)
  {
  }

  lemma FirstLater(ds: seq<Descriptor>)
    requires ds != [] && !ForLinuxAmd64(ds[0])
    ensures forall i: nat :: FirstFor(ds, i) ==> i > 0 && FirstFor(ds[1..], i - 1)
    ensures forall i: nat :: FirstFor(ds[1..], i) ==> FirstFor(ds, i + 1)
  {
    hide ForLinuxAmd64;
    forall i: nat | FirstFor(ds, i)
      ensures i > 0 && FirstFor(ds[1..], i - 1)
    {
      assert forall j :: 0 <= j < i - 1 ==> ds[1..][j] == ds[j + 1];
    }
    forall i: nat | FirstFor(ds[1..], i)
      ensures FirstFor(ds, i + 1)
    {
      assert forall j :: 1 <= j < i + 1 ==> ds[j] == ds[1..][j - 1];
    }
  }

  /** `digest` names a table of contents: `sha256:` and sixty-four more characters. */
  ghost predicate NamesContents(digest: Option<string>) {
    digest.Some? && "sha256:" <= digest.value && |digest.value| == 7 + 64
  }

  /** The image of the top object `t`: the manifest `s` of its first linux/amd64 entry, or `t` itself
      when it lists none, with the configuration `c`. */
  ghost predicate Describes(f: Formats, reference: string, image: ResolvedImage, t: Bytes, s: Bytes, c: Bytes) {
    && image.requested == reference && f.pullName(reference).Some?
    && image.pullReference == f.pullName(reference).value + "@" + image.digest
    && f.index(t).Some? && Hash(f, s) == image.digest
    && (if f.index(t).value == [] then s == t
        else exists i: nat :: && FirstFor(f.index(t).value, i)
                              && f.digest(f.index(t).value[i].digest) == Some(image.digest)
                              && |s| == f.index(t).value[i].size)
    && f.manifest(s).Some?
    && var m := f.manifest(s).value;
    && f.digest(m.config.digest) == Some(Hash(f, c)) && |c| == m.config.size
    && f.config(c) == Some(Platform(image.os, image.architecture))
    && image.os == "linux" && image.architecture in {"amd64", "x86_64"}
    && (image.lazyCompatible <==> |m.layers| > 0 && forall i :: 0 <= i < |m.layers| ==>
                                                      NamesContents(m.layers[i].tocDigest))
  }

  lemma SelectsFirst(f: Formats, t: Bytes, s: Bytes)
    requires f.index(t).Some?
    ensures Selects(f, t, s) <==>
              if f.index(t).value == [] then s == t
              else exists i: nat :: && FirstFor(f.index(t).value, i)
                                    && f.digest(f.index(t).value[i].digest) == Some(Hash(f, s))
                                    && |s| == f.index(t).value[i].size
  {
    hide Select, FirstFor;
    SelectIsFirst(f.index(t).value);
  }

  lemma LazyIs(m: Manifest)
    ensures LazyCompatible(m) <==>
              |m.layers| > 0 && forall i :: 0 <= i < |m.layers| ==> NamesContents(m.layers[i].tocDigest)
  {
    assert forall i :: 0 <= i < |m.layers| ==> (LazyLayer(m.layers[i]) <==> NamesContents(m.layers[i].tocDigest));
  }

  /** A reference resolves to exactly the image that its objects describe. */
  lemma ChainIsDescribed(f: Formats, reference: string, top: Digest, image: ResolvedImage, t: Bytes, s: Bytes,
                         c: Bytes)
    ensures Chain(f, reference, top, image, t, s, c) <==>
              Hash(f, t) == top && !image.cacheHit && Describes(f, reference, image, t, s, c)
  {
    hide Selects, LazyCompatible, NamesContents, FirstFor;
    if f.index(t).Some? {
      SelectsFirst(f, t, s);
    } else {
      assert !Selects(f, t, s) by {
        NoIndex(f, t, s);
      }
    }
    if f.manifest(s).Some? {
      LazyIs(f.manifest(s).value);
    }
  }

  lemma NoIndex(f: Formats, t: Bytes, s: Bytes)
    ensures Selects(f, t, s) ==> f.index(t).Some?
  {
  }

  /** `image` is what the objects under the top digest `top` describe. */
  ghost predicate Described(f: Formats, reference: string, top: Digest, image: ResolvedImage) {
    exists t, s, c :: Hash(f, t) == top && Describes(f, reference, image, t, s, c)
  }

  lemma ResolvedIsDescribed(f: Formats, reference: string, top: Digest, image: ResolvedImage)
    ensures ResolvesTo(f, reference, top, image.(cacheHit := false)) <==> Described(f, reference, top, image)
    ensures Described(f, reference, top, image) ==>
              && image.os == "linux" && (image.architecture == "amd64" || image.architecture == "x86_64")
              && f.pullName(reference).Some?
              && image.pullReference == f.pullName(reference).value + "@" + image.digest
  {
    var fetched := image.(cacheHit := false);
    hide Chain, Describes;
    forall t, s, c
      ensures Chain(f, reference, top, fetched, t, s, c) <==>
                Hash(f, t) == top && Describes(f, reference, image, t, s, c)
      ensures Describes(f, reference, image, t, s, c) ==>
                && image.os == "linux" && (image.architecture == "amd64" || image.architecture == "x86_64")
                && f.pullName(reference).Some?
                && image.pullReference == f.pullName(reference).value + "@" + image.digest
    {
      ChainIsDescribed(f, reference, top, fetched, t, s, c);
      HitDescribes(f, reference, image, t, s, c);
    }
  }

  lemma HitDescribes(f: Formats, reference: string, image: ResolvedImage, t: Bytes, s: Bytes, c: Bytes)
    ensures Describes(f, reference, image.(cacheHit := false), t, s, c) <==> Describes(f, reference, image, t, s, c)
    ensures Describes(f, reference, image, t, s, c) ==>
              && image.os == "linux" && (image.architecture == "amd64" || image.architecture == "x86_64")
              && f.pullName(reference).Some?
              && image.pullReference == f.pullName(reference).value + "@" + image.digest
  {
    hide FirstFor, NamesContents;
  }

  /** Everything the registry says during one call. */
  datatype Registry = Registry(
    probe: Result<Option<Digest>, OciError>,
    top: Result<Bytes, OciError>,
    advertised: Option<Digest>,
    manifest: Digest -> Result<Bytes, OciError>,
    blob: Digest -> Result<Bytes, OciError>)

  /** The registry delivers the platform manifest `s` that the top object `t` names. */
  ghost predicate Delivers(f: Formats, registry: Registry, t: Bytes, s: Bytes) {
    Selects(f, t, s) && (f.index(t).value == [] || registry.manifest(Hash(f, s)) == Ok(s))
  }

  /** The registry answers consistently: the top object `t`, its platform manifest `s` and its
      configuration `c` are all there, under a digest that nothing it advertises contradicts. */
  ghost predicate Serves(f: Formats, registry: Registry, t: Bytes, s: Bytes, c: Bytes) {
    && registry.probe.Ok? && registry.top == Ok(t)
    && (registry.probe.value.Some? ==> registry.probe.value.value == Hash(f, t))
    && (registry.probe.value.None? && registry.advertised.Some? ==> registry.advertised.value == Hash(f, t))
    && Delivers(f, registry, t, s)
    && Configures(f, s, c) && registry.blob(Hash(f, c)) == Ok(c)
  }

  class RegistryResolver {
    const f: Formats
    var objects: map<Digest, Bytes>
    var topAlias: map<string, Digest>
    var platformAlias: map<string, Digest>

    /** Whatever the aliases say was once established by a verified fetch. */
    ghost predicate Valid()
      reads this
    {
      forall r :: r in topAlias ==> r in platformAlias && Backed(f, r, topAlias[r], platformAlias[r])
    }

    /** The object is stored and undamaged. */
    ghost predicate Intact(d: Digest)
      reads this
    {
      d in objects && Hash(f, objects[d]) == d
    }

    /** The aliases name `top`, and the two objects an image is rebuilt from are still there. */
    ghost predicate Ready(reference: string, top: Digest)
      reads this
    {
      && reference in topAlias && topAlias[reference] == top
      && reference in platformAlias && Intact(platformAlias[reference])
      && var m := f.manifest(objects[platformAlias[reference]]);
      && m.Some? && f.digest(m.value.config.digest).Some?
      && Intact(f.digest(m.value.config.digest).value)
    }

    constructor (f: Formats)
      ensures Valid() && this.f == f && topAlias == map[] && platformAlias == map[]
    {
      this.f, objects, topAlias, platformAlias := f, map[], map[], map[];
    }

    /** Storage faults: an object disappears, or its bytes change. */
    method Lose(d: Digest)
      requires Valid()
      modifies this`objects
      ensures Valid() && objects == old(objects) - {d}
    {
      objects := objects - {d};
    }

    method Damage(d: Digest, garbage: Bytes)
      requires Valid()
      modifies this`objects
      ensures Valid() && objects == old(objects)[d := garbage]
    {
      objects := objects[d := garbage];
    }

    /** Reads an object, treating damage like absence. */
    method ReadCacheObject(d: Digest) returns (bytes: Option<Bytes>)
      ensures bytes.Some? <==> Intact(d)
      ensures bytes.Some? ==> bytes.value == objects[d]
    {
      if d in objects && Hash(f, objects[d]) == d {
        return Some(objects[d]);
      }
      return None;
    }

    /** The cached image for a known top digest, when its objects are still readable. */
    method CachedResolution(pullName: string, requested: string, top: Digest)
      returns (result: Result<Option<ResolvedImage>, OciError>)
      requires Valid() && f.pullName(requested) == Some(pullName)
      ensures Injective(f) ==> result.Ok? && (result.value.Some? <==> Ready(requested, top))
      ensures result.Ok? && result.value.Some? ==>
                && result.value.value.cacheHit
                && requested in topAlias && topAlias[requested] == top
                && (Injective(f) ==> ResolvesTo(f, requested, top, result.value.value.(cacheHit := false)))
    {
      if requested !in topAlias || topAlias[requested] != top || requested !in platformAlias {
        return Ok(None);
      }
      var selected := platformAlias[requested];
      var bytes := ReadCacheObject(selected);
      if bytes.None? {
        return Ok(None);
      }
      if Injective(f) {
        KnownManifest(f, requested, top, selected, bytes.value);
      }
      var manifest := f.manifest(bytes.value);
      if manifest.None? {
        return Err(Metadata);
      }
      var configDigest := f.digest(manifest.value.config.digest);
      if configDigest.None? {
        return Err(Metadata);
      }
      var configBytes := ReadCacheObject(configDigest.value);
      if configBytes.None? {
        return Ok(None);
      }
      if Injective(f) {
        KnownConfig(f, requested, top, selected, bytes.value, configBytes.value);
      }
      var config := f.config(configBytes.value);
      if config.None? {
        return Err(Metadata);
      }
      var image := ImageOf(f, requested, pullName, selected, manifest.value, config.value, true);
      if Injective(f) {
        HitIsTrue(f, requested, top, selected, bytes.value, configBytes.value);
      }
      return Ok(Some(image));
    }

    method Put(bytes: Bytes) returns (d: Digest)
      modifies this`objects
      ensures d == Hash(f, bytes) && objects == old(objects)[d := bytes]
    {
      d := Hash(f, bytes);
      objects := objects[d := bytes];
    }

    /** Online resolution.  With an advertised top digest, a hit and a miss give the same image. */
    method ResolveLinuxAmd64(reference: string, registry: Registry)
      returns (result: Result<ResolvedImage, OciError>, ghost top: Digest)
      requires Valid()
      modifies this
      ensures Valid()
      ensures result.Ok? && Injective(f) ==> ResolvesTo(f, reference, top, result.value.(cacheHit := false))
      ensures result.Ok? && Injective(f) ==> Described(f, reference, top, result.value)
      ensures result.Ok? ==> registry.probe.Ok? && f.pullName(reference).Some?
      ensures result.Ok? && Injective(f) ==>
                && result.value.os == "linux"
                && (result.value.architecture == "amd64" || result.value.architecture == "x86_64")
                && result.value.pullReference == f.pullName(reference).value + "@" + result.value.digest
      ensures result.Ok? && registry.probe.value.Some? ==> top == registry.probe.value.value
      ensures result.Ok? ==> reference in topAlias && topAlias[reference] == top
      ensures result.Ok? && Injective(f) ==> Ready(reference, top)
      ensures result.Ok? && !result.value.cacheHit ==> registry.top.Ok? && top == Hash(f, registry.top.value)
      ensures result.Ok? && registry.probe.value.None? && registry.advertised.Some? ==>
                registry.advertised.value == top
      ensures Injective(f) && result.Ok? ==>
                (result.value.cacheHit <==>
                 registry.probe.value.Some? && old(Ready(reference, registry.probe.value.value)))
      ensures Injective(f) && f.pullName(reference).Some? && (exists t, s, c :: Serves(f, registry, t, s, c)) ==>
                result.Ok?
      ensures result.Err? ==> topAlias == old(topAlias) && platformAlias == old(platformAlias)
    {
      hide Injective, Backed, ResolvesTo, Chain, Selects, Configures, LazyCompatible, Described;
      top := "";
      var pullName := f.pullName(reference);
      if pullName.None? {
        return Err(InvalidReference), top;
      }
      if registry.probe.Err? {
        return Err(registry.probe.error), top;
      }
      var probe := registry.probe.value;
      if probe.Some? {
        var cached := CachedResolution(pullName.value, reference, probe.value);
        if cached.Err? {
          return Err(cached.error), top;
        }
        if cached.value.Some? {
          ResolvedIsDescribed(f, reference, probe.value, cached.value.value);
          return Ok(cached.value.value), probe.value;
        }
      }
      var chain := FetchChain(registry);
      if chain.Err? {
        return Err(chain.error), top;
      }
      var (topBytes, selectedBytes, configBytes) := chain.value;
      var selected := Hash(f, selectedBytes);
      var image := ImageOf(f, reference, pullName.value, selected, f.manifest(selectedBytes).value,
                           f.config(configBytes).value, false);
      Fetched(f, reference, pullName.value, topBytes, selectedBytes, configBytes);
      SameBytes(f, objects[selected], selectedBytes);
      top := Hash(f, topBytes);
      ResolvedIsDescribed(f, reference, top, image);
      topAlias := topAlias[reference := Hash(f, topBytes)];
      platformAlias := platformAlias[reference := selected];
      return Ok(image), top;
    }

    /** The top object, the platform manifest and the configuration, each checked against its
        digest before it is stored or used. */
    method FetchChain(registry: Registry) returns (result: Result<(Bytes, Bytes, Bytes), OciError>)
      requires registry.probe.Ok?
      modifies this`objects
      ensures result.Ok? ==>
                var (t, s, c) := result.value;
                && registry.top == Ok(t) && (registry.probe.value.Some? ==> registry.probe.value.value == Hash(f, t))
                && (registry.probe.value.None? && registry.advertised.Some? ==>
                      registry.advertised.value == Hash(f, t))
                && Selects(f, t, s) && Configures(f, s, c)
                && Intact(Hash(f, s)) && Intact(Hash(f, c))
                && f.manifest(s).Some? && f.digest(f.manifest(s).value.config.digest) == Some(Hash(f, c))
                && f.config(c).Some?
      ensures forall t, s, c :: Serves(f, registry, t, s, c) ==> result == Ok((t, s, c))
    {
      hide Selects, Delivers, Configures;
      var probe := registry.probe.value;
      var fetched := registry.top;
      if fetched.Err? {
        return Err(fetched.error);
      }
      var topBytes := fetched.value;
      var expected := if probe.Some? then probe else registry.advertised;
      if expected.Some? && expected.value != Hash(f, topBytes) {
        return Err(DigestMismatch);
      }
      var topDigest := Put(topBytes);
      var selectedBytes := SelectPlatform(topBytes, registry);
      if selectedBytes.Err? {
        return Err(selectedBytes.error);
      }
      var configBytes := FetchConfig(selectedBytes.value, registry);
      if configBytes.Err? {
        return Err(configBytes.error);
      }
      Configured(f, selectedBytes.value, configBytes.value);
      return Ok((topBytes, selectedBytes.value, configBytes.value));
    }

    method SelectPlatform(topBytes: Bytes, registry: Registry) returns (result: Result<Bytes, OciError>)
      requires Intact(Hash(f, topBytes))
      modifies this`objects
      ensures result.Ok? ==> Selects(f, topBytes, result.value) && Intact(Hash(f, result.value))
      ensures forall s :: Delivers(f, registry, topBytes, s) ==> result == Ok(s)
      ensures f.index(topBytes).Some? && ListsOthersOnly(f.index(topBytes).value) ==> result == Err(PlatformMissing)
    {
      var index := f.index(topBytes);
      if index.None? {
        return Err(Metadata);
      }
      if index.value == [] {
        return Ok(topBytes);
      }
      SelectIsFirst(index.value);
      var descriptor := Select(index.value);
      if descriptor.None? {
        return Err(PlatformMissing);
      }
      var digest := f.digest(descriptor.value.digest);
      if digest.None? {
        return Err(Metadata);
      }
      var child := registry.manifest(digest.value);
      if child.Err? {
        return Err(child.error);
      }
      if |child.value| != descriptor.value.size {
        return Err(Metadata);
      }
      if Hash(f, child.value) != digest.value {
        return Err(DigestMismatch);
      }
      var d := Put(child.value);
      return Ok(child.value);
    }

    method FetchConfig(selectedBytes: Bytes, registry: Registry) returns (result: Result<Bytes, OciError>)
      modifies this`objects
      ensures result.Ok? ==> Configures(f, selectedBytes, result.value) && Intact(Hash(f, result.value))
      ensures forall c :: Configures(f, selectedBytes, c) && registry.blob(Hash(f, c)) == Ok(c) ==> result == Ok(c)
      ensures forall d :: old(Intact(d)) ==> Intact(d)
    {
      var manifest := f.manifest(selectedBytes);
      if manifest.None? {
        return Err(Metadata);
      }
      var digest := f.digest(manifest.value.config.digest);
      if digest.None? {
        return Err(Metadata);
      }
      var blob := registry.blob(digest.value);
      if blob.Err? {
        return Err(blob.error);
      }
      if |blob.value| != manifest.value.config.size {
        return Err(Metadata);
      }
      if Hash(f, blob.value) != digest.value {
        return Err(DigestMismatch);
      }
      var d := Put(blob.value);
      if f.config(blob.value).None? {
        return Err(Metadata);
      }
      if !IsLinuxAmd64(f.config(blob.value).value) {
        return Err(PlatformMissing);
      }
      return Ok(blob.value);
    }

    /** Offline resolution returns only what a full fetch of the recorded top digest would. */
    method ResolveOffline(reference: string) returns (result: Result<ResolvedImage, OciError>)
      requires Valid()
      ensures result.Ok? ==> reference in topAlias && result.value.cacheHit
      ensures Injective(f) && f.pullName(reference).Some? ==>
                (result.Ok? <==> reference in topAlias && Ready(reference, topAlias[reference]))
      ensures result.Ok? && Injective(f) ==>
                && ResolvesTo(f, reference, topAlias[reference], result.value.(cacheHit := false))
                && Described(f, reference, topAlias[reference], result.value)
    {
      hide Described;
      var pullName := f.pullName(reference);
      if pullName.None? {
        return Err(InvalidReference);
      }
      if reference !in topAlias {
        return Err(OfflineMissing);
      }
      var cached := CachedResolution(pullName.value, reference, topAlias[reference]);
      if cached.Err? {
        return Err(cached.error);
      }
      if cached.value.None? {
        return Err(OfflineMissing);
      }
      ResolvedIsDescribed(f, reference, topAlias[reference], cached.value.value);
      return Ok(cached.value.value);
    }

    /** Whatever a resolve returned, an offline resolve right after it returns again. */
    method OnlineThenOffline(reference: string, registry: Registry)
      returns (online: Result<ResolvedImage, OciError>, offline: Result<ResolvedImage, OciError>)
      requires Valid()
      modifies this
      ensures Valid()
      ensures Injective(f) && online.Ok? ==> offline == Ok(online.value.(cacheHit := true))
    {
      ghost var top;
      online, top := ResolveLinuxAmd64(reference, registry);
      offline := ResolveOffline(reference);
      if Injective(f) && online.Ok? {
        HitAgreesWithFetch(f, reference, top, offline.value, online.value.(cacheHit := false));
      }
    }
  }

  lemma Configured(f: Formats, s: Bytes, c: Bytes)
    requires Configures(f, s, c)
    ensures f.manifest(s).Some? && f.digest(f.manifest(s).value.config.digest) == Some(Hash(f, c)) && f.config(c).Some?
  {
  }

  lemma SameBytes(f: Formats, a: Bytes, b: Bytes)
    ensures Injective(f) && Hash(f, a) == Hash(f, b) ==> a == b
  {
  }

  lemma Fetched(f: Formats, reference: string, pullName: string, t: Bytes, s: Bytes, c: Bytes)
    requires f.pullName(reference) == Some(pullName) && Selects(f, t, s) && Configures(f, s, c)
    ensures var image := ImageOf(f, reference, pullName, Hash(f, s), f.manifest(s).value, f.config(c).value, false);
            && ResolvesTo(f, reference, Hash(f, t), image) && !image.cacheHit
            && Backed(f, reference, Hash(f, t), Hash(f, s))
  {
    var image := ImageOf(f, reference, pullName, Hash(f, s), f.manifest(s).value, f.config(c).value, false);
    assert Chain(f, reference, Hash(f, t), image, t, s, c);
  }

  /** Some verified fetch of `top` selected the platform manifest `selected`. */
  ghost predicate Backed(f: Formats, reference: string, top: Digest, selected: Digest) {
    exists image :: ResolvesTo(f, reference, top, image) && image.digest == selected
  }

  /** Readable objects under recorded digests always have the right format. */
  lemma KnownManifest(f: Formats, reference: string, top: Digest, selected: Digest, s: Bytes)
    requires Injective(f) && Backed(f, reference, top, selected) && Hash(f, s) == selected
    ensures f.manifest(s).Some? && f.digest(f.manifest(s).value.config.digest).Some?
  {
    var image :| ResolvesTo(f, reference, top, image) && image.digest == selected;
    var t, s', c' :| Chain(f, reference, top, image, t, s', c');
    assert Hash(f, s) == Hash(f, s');
  }

  lemma KnownConfig(f: Formats, reference: string, top: Digest, selected: Digest, s: Bytes, c: Bytes)
    requires Injective(f) && Backed(f, reference, top, selected) && Hash(f, s) == selected
    requires f.manifest(s).Some? && f.digest(f.manifest(s).value.config.digest) == Some(Hash(f, c))
    ensures f.config(c).Some?
  {
    var image :| ResolvesTo(f, reference, top, image) && image.digest == selected;
    var t, s', c' :| Chain(f, reference, top, image, t, s', c');
    assert Hash(f, s) == Hash(f, s');
    assert Hash(f, c) == Hash(f, c');
  }

  /** Objects found under the recorded digests are the ones that were verified. */
  lemma HitIsTrue(f: Formats, reference: string, top: Digest, selected: Digest, s: Bytes, c: Bytes)
    requires Injective(f) && Backed(f, reference, top, selected)
    requires Hash(f, s) == selected && f.manifest(s).Some?
    requires f.digest(f.manifest(s).value.config.digest) == Some(Hash(f, c))
    requires f.config(c).Some?
    ensures f.pullName(reference).Some?
    ensures ResolvesTo(f, reference, top,
              ImageOf(f, reference, f.pullName(reference).value, selected, f.manifest(s).value,
                      f.config(c).value, false))
  {
    var image :| ResolvesTo(f, reference, top, image) && image.digest == selected;
    var t, s', c' :| Chain(f, reference, top, image, t, s', c');
    assert Hash(f, s) == Hash(f, s');
    assert Hash(f, c) == Hash(f, c');
    assert Chain(f, reference, top, image, t, s, c);
  }

  /** A cache hit agrees with any full fetch of the same top digest, by whomever and whenever. */
  lemma HitAgreesWithFetch(f: Formats, reference: string, top: Digest, hit: ResolvedImage, fetched: ResolvedImage)
    requires Injective(f) && ResolvesTo(f, reference, top, hit.(cacheHit := false))
    requires ResolvesTo(f, reference, top, fetched)
    ensures fetched == hit.(cacheHit := false)
  {
    ResolutionUnique(f, reference, top, hit.(cacheHit := false), fetched);
  }
}
