/** Race-checked capture of a source tree while other programs may be editing it.

    The worktree is an arbitrary history of states.  Every read happens at some moment of
    that history, moments only advance, and nothing else is known about the editors.  A
    file's metadata and its bytes are two separate reads. */
module SourceCapture {
  import opened Digraph
  import opened Names
  import opened Common

  type Path = string
  type Bytes = seq<bv8>

  const MAX_PATHS: nat := 1_000_000
  const MAX_PATH_BYTES: nat := 64 * 1024
  const CAPTURE_ATTEMPTS: nat := 3

  /** What the link-level metadata of a path says; `Denied` is any error but "not found". */
  datatype Meta = Missing | Link | Regular(executable: bool) | Other | Denied

  /** The answers a path gives to the three reads: its metadata, its link target, and the
      bytes obtained by opening it (`None` when that read fails). */
  datatype Node = Node(meta: Meta, link: Option<Bytes>, data: Option<Bytes>)

  /** One state of the repository; `None` when the Git command would fail. */
  datatype World = World(head: Option<string>, listing: Option<seq<Path>>, dirty: Option<bool>, tree: map<Path, Node>)

  function At(w: World, p: Path): Node {
    if p in w.tree then w.tree[p] else Node(Missing, None, None)
  }

  type History = nat -> World

  datatype SourceEntryKind = File | Symlink

  datatype SourceEntry = SourceEntry(path: Path, kind: SourceEntryKind, mode: nat, digest: string, size: nat)

  datatype CaptureError =
    | Git
    | Io(path: Path)
    | UnsupportedType(path: Path)
    | ChangedDuringCapture
    | PathLimit(limit: nat)

  const MODE_LINK: nat := 40960
  const MODE_EXECUTABLE: nat := 33261
  const MODE_PLAIN: nat := 33188

  function Sha(digest: Bytes -> string, b: Bytes): string { digest(b) }

  ghost predicate Injective(digest: Bytes -> string) {
    forall a, b :: Sha(digest, a) == Sha(digest, b) ==> a == b
  }

  /** The manifest entry for a path whose metadata, link target and bytes were as given;
      `None` for a path that does not exist. */
  function Entry(digest: Bytes -> string, p: Path, meta: Meta, link: Option<Bytes>, data: Option<Bytes>)
    : Result<Option<SourceEntry>, CaptureError>
  {
    match meta
    case Missing => Ok(None)
    case Denied => Err(Io(p))
    case Link =>
      if link.None? then Err(Io(p))
      else Ok(Some(SourceEntry(p, Symlink, MODE_LINK, Sha(digest, link.value), |link.value|)))
    case Regular(executable) =>
      if data.None? then Err(Io(p))
      else Ok(Some(SourceEntry(p, File, if executable then MODE_EXECUTABLE else MODE_PLAIN,
                               Sha(digest, data.value), |data.value|)))
    case Other => Err(UnsupportedType(p))
  }

  function EntryAt(digest: Bytes -> string, w: World, p: Path): Result<Option<SourceEntry>, CaptureError> {
    Entry(digest, p, At(w, p).meta, At(w, p).link, At(w, p).data)
  }

  /** The true manifest of one state, when every listed path can be represented. */
  ghost predicate IsManifest(digest: Bytes -> string, w: World, paths: seq<Path>, entries: seq<SourceEntry>) {
    if paths == [] then entries == []
    else
      var last := |paths| - 1;
      match EntryAt(digest, w, paths[last])
      case Err(_) => false
      case Ok(None) => IsManifest(digest, w, paths[..last], entries)
      case Ok(Some(e)) =>
        && entries != []
        && entries[|entries| - 1] == e
        && IsManifest(digest, w, paths[..last], entries[..|entries| - 1])
  }

  // ----- one pass over the listed paths

  /** When the metadata and the contents of a path were read. */
  datatype Sighting = Sighting(metaAt: nat, bodyAt: nat)

  function Seen(digest: Bytes -> string, history: History, p: Path,
                s: Sighting): Result<Option<SourceEntry>, CaptureError> {
    Entry(digest, p, At(history(s.metaAt), p).meta, At(history(s.bodyAt), p).link, At(history(s.bodyAt), p).data)
  }

  /** `entries` is what a pass finds that looks at the listed paths as `seen` says. */
  ghost predicate Collects(digest: Bytes -> string, history: History, paths: seq<Path>, seen: seq<Sighting>,
                           entries: seq<SourceEntry>)
    requires |seen| == |paths|
  {
    if paths == [] then entries == []
    else
      var last := |paths| - 1;
      match Seen(digest, history, paths[last], seen[last])
      case Err(_) => false
      case Ok(None) => Collects(digest, history, paths[..last], seen[..last], entries)
      case Ok(Some(e)) =>
        && entries != []
        && entries[|entries| - 1] == e
        && Collects(digest, history, paths[..last], seen[..last], entries[..|entries| - 1])
  }

  ghost predicate Within(seen: seq<Sighting>, lo: nat, hi: nat) {
    forall i :: 0 <= i < |seen| ==> lo <= seen[i].metaAt <= seen[i].bodyAt <= hi
  }

  // ----- the editors

  /** Between two moments, no value comes back once it has been replaced. */
  ghost predicate Steady<T(!new)>(value: nat -> T, lo: nat, hi: nat) {
    forall i: nat, j: nat, k: nat {:trigger value(i), value(j), value(k)} ::
      lo <= i <= j <= k <= hi && value(i) == value(k) ==> value(j) == value(i)
  }

  ghost predicate NoReturn(history: History, p: Path, lo: nat, hi: nat) {
    && Steady((t: nat) => At(history(t), p).meta, lo, hi)
    && Steady((t: nat) => At(history(t), p).link, lo, hi)
    && Steady((t: nat) => At(history(t), p).data, lo, hi)
  }

  /** Between two moments, neither `HEAD` nor any of the paths goes back to an earlier value. */
  ghost predicate NoReturns(history: History, paths: seq<Path>, lo: nat, hi: nat) {
    && Steady((t: nat) => history(t).head, lo, hi)
    && forall i :: 0 <= i < |paths| ==> NoReturn(history, paths[i], lo, hi)
  }

  lemma NoReturnsBetween(history: History, paths: seq<Path>, lo: nat, hi: nat, from: nat, to: nat)
    requires lo <= from && to <= hi
    ensures NoReturns(history, paths, lo, hi) ==> NoReturns(history, paths, from, to)
  {
  }

  /** Two equal sightings around an instant tell what the path was at that instant. */
  lemma SightingsAgree(digest: Bytes -> string, history: History, p: Path, first: Sighting, second: Sighting,
                       lo: nat, t: nat, hi: nat)
    requires Injective(digest) && NoReturn(history, p, lo, hi)
    requires lo <= first.metaAt <= t && lo <= first.bodyAt <= t
    requires t <= second.metaAt <= hi && t <= second.bodyAt <= hi
    requires Seen(digest, history, p, first) == Seen(digest, history, p, second)
    requires Seen(digest, history, p, first).Ok?
    ensures EntryAt(digest, history(t), p) == Seen(digest, history, p, first)
  {
    var meta := (t: nat) => At(history(t), p).meta;
    var link := (t: nat) => At(history(t), p).link;
    var data := (t: nat) => At(history(t), p).data;
    assert meta(first.metaAt) == meta(second.metaAt);
    assert meta(t) == meta(first.metaAt);
    if meta(t).Link? {
      assert link(first.bodyAt) == link(second.bodyAt);
      assert link(t) == link(first.bodyAt);
    } else if meta(t).Regular? {
      assert data(first.bodyAt) == data(second.bodyAt);
      assert data(t) == data(first.bodyAt);
    }
  }

  ghost predicate PathsIncrease(paths: seq<Path>) {
    forall i, j :: 0 <= i < j < |paths| ==> paths[i] != paths[j]
  }

  /** Entries name listed paths, so a path not listed has no entry. */
  lemma {:induction false} EntryPaths(digest: Bytes -> string, history: History, paths: seq<Path>, seen: seq<Sighting>,
                                      entries: seq<SourceEntry>)
    requires |seen| == |paths| && Collects(digest, history, paths, seen, entries)
    ensures forall k :: 0 <= k < |entries| ==> entries[k].path in paths
    decreases |paths|
  {
    if paths != [] {
      var last := |paths| - 1;
      var here := Seen(digest, history, paths[last], seen[last]);
      EntryPaths(digest, history, paths[..last], seen[..last],
                 if here.value.None? then entries else entries[..|entries| - 1]);
    }
  }

  /** Two passes with equal results saw the same thing at every single path. */
  lemma {:induction false} SameEverywhere(digest: Bytes -> string, history: History, paths: seq<Path>,
                                          first: seq<Sighting>, second: seq<Sighting>, entries: seq<SourceEntry>)
    requires |first| == |second| == |paths| && PathsIncrease(paths)
    requires Collects(digest, history, paths, first, entries) && Collects(digest, history, paths, second, entries)
    ensures forall i :: 0 <= i < |paths| ==>
              Seen(digest, history, paths[i], first[i]) == Seen(digest, history, paths[i], second[i])
    decreases |paths|
  {
    if paths != [] {
      var last := |paths| - 1;
      var a := Seen(digest, history, paths[last], first[last]);
      var b := Seen(digest, history, paths[last], second[last]);
      EntryBelongs(digest, history, paths, first, second, entries);
      SameEverywhere(digest, history, paths[..last], first[..last], second[..last],
                     if a.value.None? then entries else entries[..|entries| - 1]);
      forall i | 0 <= i < last
        ensures Seen(digest, history, paths[i], first[i]) == Seen(digest, history, paths[i], second[i])
      {
        assert paths[..last][i] == paths[i] && first[..last][i] == first[i] && second[..last][i] == second[i];
      }
    }
  }

  /** The last path is present in both passes or in neither. */
  lemma EntryBelongs(digest: Bytes -> string, history: History, paths: seq<Path>,
                     first: seq<Sighting>, second: seq<Sighting>, entries: seq<SourceEntry>)
    requires |first| == |second| == |paths| > 0 && PathsIncrease(paths)
    requires Collects(digest, history, paths, first, entries) && Collects(digest, history, paths, second, entries)
    ensures var last := |paths| - 1;
            Seen(digest, history, paths[last], first[last]) == Seen(digest, history, paths[last], second[last])
  {
    var last := |paths| - 1;
    var a := Seen(digest, history, paths[last], first[last]);
    var b := Seen(digest, history, paths[last], second[last]);
    if a.value.None? {
      EntryPaths(digest, history, paths[..last], first[..last], entries);
    }
    if b.value.None? {
      EntryPaths(digest, history, paths[..last], second[..last], entries);
    }
  }

  /** Any instant between the two passes shows exactly the collected manifest. */
  lemma {:induction false} CollectInstant(digest: Bytes -> string, history: History, paths: seq<Path>,
                                          first: seq<Sighting>, second: seq<Sighting>, entries: seq<SourceEntry>,
                                          lo: nat, t: nat, hi: nat)
    requires Injective(digest) && |first| == |second| == |paths|
    requires forall i :: 0 <= i < |paths| ==> NoReturn(history, paths[i], lo, hi)
    requires Collects(digest, history, paths, first, entries)
    requires forall i :: 0 <= i < |paths| ==>
               Seen(digest, history, paths[i], first[i]) == Seen(digest, history, paths[i], second[i])
    requires Within(first, lo, t) && Within(second, t, hi)
    ensures IsManifest(digest, history(t), paths, entries)
    decreases |paths|
  {
    hide NoReturn, Injective;
    if paths != [] {
      var last := |paths| - 1;
      SightingsAgree(digest, history, paths[last], first[last], second[last], lo, t, hi);
      var here := Seen(digest, history, paths[last], first[last]);
      CollectInstant(digest, history, paths[..last], first[..last], second[..last],
                     if here.value.None? then entries else entries[..|entries| - 1], lo, t, hi);
    }
  }

  /** Two passes with equal manifests, one before and one after an instant, tell the truth about
      that instant. */
  lemma DoubleCollect(digest: Bytes -> string, history: History, paths: seq<Path>,
                      first: seq<Sighting>, second: seq<Sighting>, entries: seq<SourceEntry>,
                      lo: nat, t: nat, hi: nat)
    requires Injective(digest) && PathsIncrease(paths) && |first| == |second| == |paths|
    requires forall i :: 0 <= i < |paths| ==> NoReturn(history, paths[i], lo, hi)
    requires Collects(digest, history, paths, first, entries) && Collects(digest, history, paths, second, entries)
    requires Within(first, lo, t) && Within(second, t, hi)
    ensures IsManifest(digest, history(t), paths, entries)
  {
    hide NoReturn, Injective, Within, Collects;
    SameEverywhere(digest, history, paths, first, second, entries);
    CollectInstant(digest, history, paths, first, second, entries, lo, t, hi);
  }

  /** And only no return makes it so: whatever path leaves the value it had and goes back to it,
      some two passes around its absence agree on a manifest that is not true there. */
  lemma ReturnDeceives(digest: Bytes -> string, history: History, p: Path, i: nat, t: nat, k: nat)
    requires i <= t <= k && EntryAt(digest, history(i), p).Ok?
    requires EntryAt(digest, history(i), p) == EntryAt(digest, history(k), p) != EntryAt(digest, history(t), p)
    ensures exists first: seq<Sighting>, second: seq<Sighting>, entries: seq<SourceEntry> ::
              && |first| == |second| == 1
              && Within(first, i, t) && Within(second, t, k)
              && Collects(digest, history, [p], first, entries) && Collects(digest, history, [p], second, entries)
              && !IsManifest(digest, history(t), [p], entries)
  {
    hide EntryAt;
    var entry := EntryAt(digest, history(i), p).value;
    var entries := if entry.Some? then [entry.value] else [];
    var first, second := [Sighting(i, i)], [Sighting(k, k)];
    AtomicPass(digest, history, p, i, entries);
    AtomicPass(digest, history, p, k, entries);
    AtomicPass(digest, history, p, t, entries);
    assert Within(first, i, t) && Within(second, t, k);
  }

  lemma AtomicPass(digest: Bytes -> string, history: History, p: Path, t: nat, entries: seq<SourceEntry>)
    ensures var entry := EntryAt(digest, history(t), p);
            Collects(digest, history, [p], [Sighting(t, t)], entries) <==>
              entry.Ok? && entries == if entry.value.Some? then [entry.value.value] else []
    ensures IsManifest(digest, history(t), [p], entries) <==> Collects(digest, history, [p], [Sighting(t, t)], entries)
  {
  }

  // ----- the copy

  /** A file or link as materialized in the captured checkout. */
  datatype Copy = FileCopy(bytes: Bytes, permissions: nat) | LinkCopy(target: Bytes)

  type Tree = map<Path, Copy>

  const PERMISSIONS_EXECUTABLE: nat := 493
  const PERMISSIONS_PLAIN: nat := 420

  /** `c` holds exactly the contents that entry `e` identifies. */
  ghost predicate CopyMatches(digest: Bytes -> string, e: SourceEntry, c: Copy) {
    match c
    case FileCopy(bytes, permissions) =>
      && e.kind == File && Sha(digest, bytes) == e.digest && |bytes| == e.size
      && permissions == (if e.mode == MODE_EXECUTABLE then PERMISSIONS_EXECUTABLE else PERMISSIONS_PLAIN)
    case LinkCopy(target) => e.kind == Symlink && Sha(digest, target) == e.digest && |target| == e.size
  }

  ghost predicate Copied(digest: Bytes -> string, entries: seq<SourceEntry>, tree: Tree) {
    && (forall e :: e in entries ==> e.path in tree && CopyMatches(digest, e, tree[e.path]))
    && (forall p :: p in tree ==> exists e :: e in entries && e.path == p)
  }

  /** The checkout holds, for every path, what the worktree `w` held. */
  ghost predicate Materializes(w: World, entries: seq<SourceEntry>, tree: Tree) {
    && (forall p :: p in tree <==> exists e :: e in entries && e.path == p)
    && (forall e :: e in entries ==> e.path in tree && MatchesNode(At(w, e.path), tree[e.path]))
  }

  ghost predicate MatchesNode(n: Node, c: Copy) {
    match n.meta
    case Link => n.link.Some? && c == LinkCopy(n.link.value)
    case Regular(executable) =>
      n.data.Some? && c == FileCopy(n.data.value, if executable then PERMISSIONS_EXECUTABLE else PERMISSIONS_PLAIN)
    case _ => false
  }

  lemma {:induction false} ManifestEntries(digest: Bytes -> string, w: World, paths: seq<Path>,
                                           entries: seq<SourceEntry>)
    requires IsManifest(digest, w, paths, entries)
    ensures forall e :: e in entries ==> e.path in paths && EntryAt(digest, w, e.path) == Ok(Some(e))
    ensures forall p :: p in paths ==> EntryAt(digest, w, p) == Ok(None) || exists e :: e in entries && e.path == p
    decreases |paths|
  {
    if paths != [] {
      var last := |paths| - 1;
      assert paths == paths[..last] + [paths[last]];
      if EntryAt(digest, w, paths[last]) == Ok(None) {
        ManifestEntries(digest, w, paths[..last], entries);
      } else {
        var e := entries[|entries| - 1];
        assert entries == entries[..|entries| - 1] + [e];
        ManifestEntries(digest, w, paths[..last], entries[..|entries| - 1]);
        assert e in entries && e.path == paths[last];
      }
    }
  }

  lemma CopyOne(digest: Bytes -> string, w: World, e: SourceEntry, c: Copy)
    requires Injective(digest) && EntryAt(digest, w, e.path) == Ok(Some(e)) && CopyMatches(digest, e, c)
    ensures MatchesNode(At(w, e.path), c)
  {
  }

  lemma CopyIsTruth(digest: Bytes -> string, w: World, paths: seq<Path>, entries: seq<SourceEntry>, tree: Tree)
    requires Injective(digest) && IsManifest(digest, w, paths, entries) && Copied(digest, entries, tree)
    ensures Materializes(w, entries, tree)
  {
    hide Injective, IsManifest, CopyMatches, MatchesNode;
    ManifestEntries(digest, w, paths, entries);
    forall e | e in entries
      ensures e.path in tree && MatchesNode(At(w, e.path), tree[e.path])
    {
      CopyOne(digest, w, e, tree[e.path]);
    }
  }

  // ----- listing the paths

  predicate IsOwnState(p: Path) {
    p == ".litci" || (|p| >= 7 && p[..7] == ".litci/")
  }

  function Identity(p: Path): string { p }

  /** Drops consecutive repetitions. */
  function Dedup(paths: seq<Path>): (r: seq<Path>)
    ensures forall p :: p in r <==> p in paths
    ensures r == [] <==> paths == []
    ensures r != [] ==> r[0] == paths[0]
  {
    if |paths| < 2 then paths
    else
      var rest := Dedup(paths[1..]);
      assert paths == [paths[0]] + paths[1..];
      if paths[0] == paths[1] then rest else [paths[0]] + rest
  }

  lemma {:induction false} DedupIncreases(paths: seq<Path>)
    requires SortedBy(paths, Identity)
    ensures SortedBy(Dedup(paths), Identity) && PathsIncrease(Dedup(paths))
    decreases |paths|
  {
    if |paths| >= 2 {
      var rest := Dedup(paths[1..]);
      DedupIncreases(paths[1..]);
      if paths[0] != paths[1] {
        var r := [paths[0]] + rest;
        forall j | 1 <= j < |r|
          ensures Leq(r[0], r[j]) && r[0] != r[j]
        {
          assert r[j] in paths[1..];
          var k :| 0 <= k < |paths[1..]| && paths[1..][k] == r[j];
          assert Leq(Identity(paths[0]), Identity(paths[k + 1]));
          assert Leq(Identity(paths[1]), Identity(paths[k + 1])) by {
            if k == 0 {
              LeqReflexive(paths[1]);
            }
          }
          assert Leq(Identity(paths[0]), Identity(paths[1]));
          if r[0] == r[j] {
            LeqAntisymmetric(paths[0], paths[1]);
          }
        }
      }
    }
  }

  /** The listing, without Greenlit's own state, in canonical order and without repetitions. */
  ghost predicate CanonicalPaths(listing: seq<Path>, paths: seq<Path>) {
    && SortedBy(paths, Identity)
    && PathsIncrease(paths)
    && (forall p :: p in paths <==> p in listing && !IsOwnState(p))
  }

  /** A path outside `.litci`. */
  ghost predicate Kept(p: Path) {
    p != ".litci" && !(".litci/" <= p)
  }

  lemma KeptIs(p: Path)
    ensures Kept(p) <==> !IsOwnState(p)
  {
  }

  /** How many of the first `k` listed paths are kept. */
  ghost function KeptAmong(listing: seq<Path>, k: nat): (n: nat)
    requires k <= |listing|
    ensures n <= k
  {
    if k == 0 then 0 else KeptAmong(listing, k - 1) + if Kept(listing[k - 1]) then 1 else 0
  }

  lemma {:induction false} KeptGrows(listing: seq<Path>, j: nat, k: nat)
    requires j <= k <= |listing|
    ensures KeptAmong(listing, j) <= KeptAmong(listing, k)
    decreases k - j
  {
    if j < k {
      KeptGrows(listing, j, k - 1);
    }
  }

  /** Every path before the last leaves room for one more. */
  ghost predicate RoomForAll(listing: seq<Path>) {
    listing != [] ==> KeptAmong(listing, |listing| - 1) < 1_000_000
  }

  method GitPaths(listing: seq<Path>) returns (result: Result<seq<Path>, CaptureError>)
    ensures result.Ok? ==> CanonicalPaths(listing, result.value) && |result.value| <= MAX_PATHS
    ensures result.Ok? ==> forall p :: p in result.value <==> p in listing && p != ".litci" && !(".litci/" <= p)
    ensures result.Ok? <==> RoomForAll(listing) && forall p :: p in listing ==> Utf8Length(p) <= 65_536
    ensures result.Err? ==>
              || (result.error == PathLimit(1_000_000) && !RoomForAll(listing))
              || (result.error.Io? && exists p :: p in listing && Utf8Length(p) > 65_536)
  {
    hide KeptAmong, Utf8Length, Kept, IsOwnState;
    var paths: seq<Path> := [];
    KeptNone(listing);
    for k := 0 to |listing|
      invariant |paths| == KeptAmong(listing, k) <= MAX_PATHS
      invariant k > 0 ==> KeptAmong(listing, k - 1) < MAX_PATHS
      invariant forall p :: p in paths <==> p in listing[..k] && !IsOwnState(p)
      invariant forall i :: 0 <= i < k ==> Utf8Length(listing[i]) <= MAX_PATH_BYTES
    {
      var raw := listing[k];
      KeptOne(listing, k);
      assert listing[..k + 1] == listing[..k] + [raw];
      if |paths| == MAX_PATHS {
        KeptGrows(listing, k, |listing| - 1);
        return Err(PathLimit(MAX_PATHS));
      }
      if Utf8Length(raw) > MAX_PATH_BYTES {
        assert raw in listing;
        return Err(Io(raw));
      }
      if !IsOwnState(raw) {
        paths := paths + [raw];
      }
    }
    assert listing[..|listing|] == listing;
    SortMembers(paths, Identity);
    var sorted := Sort(paths, Identity);
    DedupIncreases(sorted);
    DedupLength(sorted);
    AllKept();
    return Ok(Dedup(sorted));
  }

  lemma KeptNone(listing: seq<Path>)
    ensures KeptAmong(listing, 0) == 0
  {
  }

  lemma KeptOne(listing: seq<Path>, k: nat)
    requires k < |listing|
    ensures KeptAmong(listing, k + 1) == KeptAmong(listing, k) + if IsOwnState(listing[k]) then 0 else 1
  {
    KeptIs(listing[k]);
  }

  lemma AllKept()
    ensures forall p: Path :: !IsOwnState(p) <==> p != ".litci" && !(".litci/" <= p)
  {
    forall p: Path
      ensures !IsOwnState(p) <==> p != ".litci" && !(".litci/" <= p)
    {
      KeptIs(p);
    }
  }

  lemma {:induction false} DedupLength(paths: seq<Path>)
    ensures |Dedup(paths)| <= |paths|
    decreases |paths|
  {
    if |paths| >= 2 {
      DedupLength(paths[1..]);
    }
  }

  // ----- what a manifest and its checkout say

  /** `e` is the manifest line of a link, of an executable file (octal mode 100755), or of any
      other file (100644). */
  ghost predicate LineFor(digest: Bytes -> string, n: Node, e: SourceEntry) {
    || (&& n.meta == Link && n.link.Some?
        && e.kind == Symlink && e.mode == 40960 && e.digest == digest(n.link.value) && e.size == |n.link.value|)
    || (&& n.meta == Regular(true) && n.data.Some?
        && e.kind == File && e.mode == 33261 && e.digest == digest(n.data.value) && e.size == |n.data.value|)
    || (&& n.meta == Regular(false) && n.data.Some?
        && e.kind == File && e.mode == 33188 && e.digest == digest(n.data.value) && e.size == |n.data.value|)
  }

  /** A true manifest has one line for every path that exists, and no others. */
  lemma ManifestSays(digest: Bytes -> string, w: World, paths: seq<Path>, entries: seq<SourceEntry>)
    requires IsManifest(digest, w, paths, entries)
    ensures forall e :: e in entries ==> e.path in paths && LineFor(digest, At(w, e.path), e)
    ensures forall p :: p in paths ==> At(w, p).meta == Missing || exists e :: e in entries && e.path == p
  {
    hide IsManifest, Entry, LineFor;
    ManifestEntries(digest, w, paths, entries);
    forall p
      ensures forall e :: EntryAt(digest, w, p) == Ok(Some(e)) ==> LineFor(digest, At(w, p), e)
      ensures EntryAt(digest, w, p) == Ok(None) ==> At(w, p).meta == Missing
    {
      EntrySays(digest, w, p);
    }
  }

  lemma EntrySays(digest: Bytes -> string, w: World, p: Path)
    ensures forall e :: EntryAt(digest, w, p) == Ok(Some(e)) ==> LineFor(digest, At(w, p), e)
    ensures EntryAt(digest, w, p) == Ok(None) ==> At(w, p).meta == Missing
  {
  }

  /** Its lines are in the order of their paths, each path once. */
  lemma {:induction false} ManifestSorted(digest: Bytes -> string, w: World, paths: seq<Path>,
                                          entries: seq<SourceEntry>)
    requires IsManifest(digest, w, paths, entries) && SortedBy(paths, Identity) && PathsIncrease(paths)
    ensures forall i, j :: 0 <= i < j < |entries| ==>
              Leq(entries[i].path, entries[j].path) && entries[i].path != entries[j].path
    decreases |paths|
  {
    hide Leq;
    if paths != [] {
      var last := |paths| - 1;
      if EntryAt(digest, w, paths[last]) == Ok(None) {
        ManifestSorted(digest, w, paths[..last], entries);
      } else {
        var n := |entries| - 1;
        ManifestSorted(digest, w, paths[..last], entries[..n]);
        ManifestEntries(digest, w, paths[..last], entries[..n]);
        forall i | 0 <= i < n
          ensures Leq(entries[i].path, entries[n].path) && entries[i].path != entries[n].path
        {
          assert entries[..n][i] in entries[..n];
          var k :| 0 <= k < last && paths[..last][k] == entries[i].path;
          assert Leq(Identity(paths[k]), Identity(paths[last]));
        }
      }
    }
  }

  /** The checkout holds links with their targets and files with their bytes, executable (755) or
      not (644), at exactly the paths of the manifest. */
  lemma CheckoutSays(w: World, entries: seq<SourceEntry>, tree: Tree, p: Path)
    requires Materializes(w, entries, tree)
    ensures p in tree <==> exists e :: e in entries && e.path == p
    ensures p in tree ==>
              match At(w, p)
              case Node(Link, Some(target), _) => tree[p] == LinkCopy(target)
              case Node(Regular(true), _, Some(bytes)) => tree[p] == FileCopy(bytes, 493)
              case Node(Regular(false), _, Some(bytes)) => tree[p] == FileCopy(bytes, 420)
              case _ => false
  {
  }

  // ----- capturing

  /** A checkout's place: a run directory, or one of the temporary directories beside it. */
  datatype Place = Run(name: string) | Attempt(name: string, number: nat)

  datatype Snapshot = Snapshot(commit: string, dirty: bool, entries: seq<SourceEntry>, root: Place)

  /** What an accepted capture promises about one instant. */
  ghost predicate TrueAt(digest: Bytes -> string, w: World, paths: seq<Path>, snapshot: Snapshot, tree: Tree) {
    && w.head == Some(snapshot.commit)
    && IsManifest(digest, w, paths, snapshot.entries)
    && Materializes(w, snapshot.entries, tree)
  }

  /** The repository never changes between two moments. */
  ghost predicate Quiet(history: History, from: nat, to: nat) {
    forall t :: from <= t <= to ==> history(t) == history(from)
  }

  /** Git answers, and its listing is within the limits. */
  ghost predicate Listable(w: World) {
    && w.listing.Some? && |w.listing.value| <= MAX_PATHS
    && forall p :: p in w.listing.value ==> Utf8Length(p) <= MAX_PATH_BYTES
  }

  /** Nothing in this state stands in the way of a capture. */
  ghost predicate Readable(digest: Bytes -> string, w: World) {
    && w.head.Some? && w.dirty.Some? && Listable(w)
    && forall p :: p in w.listing.value && !IsOwnState(p) ==> EntryAt(digest, w, p).Ok?
  }

  /** A readable repository that nobody edits. */
  ghost predicate Undisturbed(digest: Bytes -> string, history: History, from: nat, to: nat) {
    Quiet(history, from, to) && Readable(digest, history(from))
  }

  /** Some read of a listed path failed. */
  ghost predicate ReadFails(digest: Bytes -> string, history: History, paths: seq<Path>, from: nat, to: nat) {
    exists p, s: Sighting :: p in paths && from <= s.metaAt <= s.bodyAt <= to && Seen(digest, history, p, s).Err?
  }

  /** A snapshot that describes exactly the state `w`. */
  ghost predicate Describes(digest: Bytes -> string, w: World, snapshot: Snapshot) {
    && w.head == Some(snapshot.commit) && w.dirty == Some(snapshot.dirty)
    && forall paths :: Listed(w, paths) ==> IsManifest(digest, w, paths, snapshot.entries)
  }

  /** Nothing but `place` differs. */
  ghost predicate OnlyAt(before: map<Place, Tree>, after: map<Place, Tree>, place: Place) {
    forall p :: p != place ==> (p in after <==> p in before) && (p in after ==> after[p] == before[p])
  }

  ghost predicate NothingNew(before: map<Place, Tree>, after: map<Place, Tree>) {
    forall p :: p in after ==> p in before
  }

  /** Every directory but the capture's own temporary ones is as before. */
  ghost predicate Preserved(before: map<Place, Tree>, after: map<Place, Tree>, name: string) {
    forall p :: p in before && (p.Run? || p.name != name) ==> p in after && after[p] == before[p]
  }

  /** Removing an attempt's directory, or moving it into place, leaves nothing else behind. */
  lemma AttemptCleans(first: map<Place, Tree>, before: map<Place, Tree>, after: map<Place, Tree>, name: string, k: nat)
    requires NothingNew(first, before) && Preserved(first, before, name)
    requires OnlyAt(before - {Attempt(name, k)}, after, Attempt(name, k))
    ensures NothingNew(first, after - {Attempt(name, k)}) && Preserved(first, after - {Attempt(name, k)}, name)
    ensures Run(name) in after <==> Run(name) in first
    ensures Attempt(name, k) in after && Run(name) !in after ==>
              var moved := after[Run(name) := after[Attempt(name, k)]] - {Attempt(name, k)};
              NothingNew(first, moved - {Run(name)}) && Preserved(first, moved, name)
  {
  }

  lemma WrittenAt(before: map<Place, Tree>, place: Place, made: Tree, tree: Tree)
    ensures OnlyAt(before, before, place) && OnlyAt(before, before[place := made][place := tree], place)
  {
  }

  lemma SamePlaces(places: map<Place, Tree>, name: string)
    ensures NothingNew(places, places) && Preserved(places, places, name)
  {
  }

  class Repository {
    const history: History
    const digest: Bytes -> string
    var now: nat
    var places: map<Place, Tree>

    constructor (history: History, digest: Bytes -> string)
      ensures this.history == history && this.digest == digest && now == 0 && places == map[]
    {
      this.history, this.digest, now, places := history, digest, 0, map[];
    }

    /** The clock moves on by an amount nobody controls. */
    method Wait()
      modifies this`now
      ensures old(now) <= now
    {
      var later: nat :| now <= later;
      now := later;
    }

    method ReadHead() returns (head: Result<string, CaptureError>)
      modifies this`now
      ensures old(now) <= now
      ensures head == if history(now).head.Some? then Ok(history(now).head.value) else Err(Git)
    {
      Wait();
      head := if history(now).head.Some? then Ok(history(now).head.value) else Err(Git);
    }

    method ReadDirty() returns (dirty: Result<bool, CaptureError>)
      modifies this`now
      ensures old(now) <= now
      ensures dirty == if history(now).dirty.Some? then Ok(history(now).dirty.value) else Err(Git)
    {
      Wait();
      dirty := if history(now).dirty.Some? then Ok(history(now).dirty.value) else Err(Git);
    }

    method ListPaths() returns (paths: Result<seq<Path>, CaptureError>)
      modifies this`now
      ensures old(now) <= now
      ensures paths.Ok? ==> history(now).listing.Some? && CanonicalPaths(history(now).listing.value, paths.value)
      ensures paths.Err? ==> paths.error != ChangedDuringCapture && !Listable(history(now))
    {
      Wait();
      if history(now).listing.None? {
        return Err(Git);
      }
      paths := GitPaths(history(now).listing.value);
    }

    /** Reads one path: metadata first, contents later. */
    method Look(p: Path)
        returns (entry: Result<Option<SourceEntry>, CaptureError>, copy: Option<Copy>, ghost s: Sighting)
      modifies this`now
      ensures old(now) <= s.metaAt <= s.bodyAt <= now
      ensures entry == Seen(digest, history, p, s)
      ensures entry.Ok? && entry.value.Some? ==> copy.Some? && CopyMatches(digest, entry.value.value, copy.value)
      ensures entry.Ok? && entry.value.Some? ==> entry.value.value.path == p
      ensures entry.Err? ==> entry.error != ChangedDuringCapture
    {
      Wait();
      var meta := At(history(now), p).meta;
      ghost var metaAt := now;
      Wait();
      s := Sighting(metaAt, now);
      var link, data := At(history(now), p).link, At(history(now), p).data;
      entry := Entry(digest, p, meta, link, data);
      copy := None;
      if meta.Link? && link.Some? {
        copy := Some(LinkCopy(link.value));
      } else if meta.Regular? && data.Some? {
        copy := Some(FileCopy(data.value, if meta.executable then PERMISSIONS_EXECUTABLE else PERMISSIONS_PLAIN));
      }
    }

    /** First pass: read, hash and copy every path. */
    method CopyAndHash(paths: seq<Path>)
      returns (result: Result<seq<SourceEntry>, CaptureError>, tree: Tree, ghost seen: seq<Sighting>)
      requires PathsIncrease(paths)
      modifies this`now
      ensures old(now) <= now
      ensures result.Ok? ==> |seen| == |paths| && Within(seen, old(now), now)
      ensures result.Ok? ==> Collects(digest, history, paths, seen, result.value) && Copied(digest, result.value, tree)
      ensures result.Err? ==> result.error != ChangedDuringCapture && ReadFails(digest, history, paths, old(now), now)
    {
      hide CopyMatches, Collects, Copied, Seen, Within, ReadFails;
      var entries: seq<SourceEntry> := [];
      tree, seen := map[], [];
      NothingSeen(digest, history, paths, now);
      for k := 0 to |paths|
        invariant old(now) <= now
        invariant |seen| == k && Within(seen, old(now), now)
        invariant Collects(digest, history, paths[..k], seen, entries)
        invariant Copied(digest, entries, tree)
        invariant forall e :: e in entries ==> e.path in paths[..k]
      {
        var entry, copy;
        ghost var s;
        entry, copy, s := Look(paths[k]);
        if entry.Err? {
          ReadFailed(digest, history, paths, k, s, old(now), now);
          return Err(entry.error), tree, seen;
        }
        WithinStep(seen, old(now), s, now);
        CollectsStep(digest, history, paths, k, seen, entries, s);
        if entry.value.Some? {
          NotBefore(paths, k);
          CopiedStep(digest, entries, tree, entry.value.value, copy.value);
          entries := entries + [entry.value.value];
          tree := tree[paths[k] := copy.value];
        }
        seen := seen + [s];
        assert paths[..k + 1] == paths[..k] + [paths[k]];
      }
      assert paths[..|paths|] == paths;
      return Ok(entries), tree, seen;
    }

    /** Second pass: read and hash again, copying nothing. */
    method HashLiveEntries(paths: seq<Path>)
      returns (result: Result<seq<SourceEntry>, CaptureError>, ghost seen: seq<Sighting>)
      modifies this`now
      ensures old(now) <= now
      ensures result.Ok? ==> |seen| == |paths| && Within(seen, old(now), now)
      ensures result.Ok? ==> Collects(digest, history, paths, seen, result.value)
      ensures result.Err? ==> result.error != ChangedDuringCapture && ReadFails(digest, history, paths, old(now), now)
    {
      hide Collects, Copied, Seen, Within, ReadFails;
      var entries: seq<SourceEntry> := [];
      seen := [];
      NothingSeen(digest, history, paths, now);
      for k := 0 to |paths|
        invariant old(now) <= now
        invariant |seen| == k && Within(seen, old(now), now)
        invariant Collects(digest, history, paths[..k], seen, entries)
      {
        var entry, copy;
        ghost var s;
        entry, copy, s := Look(paths[k]);
        if entry.Err? {
          ReadFailed(digest, history, paths, k, s, old(now), now);
          return Err(entry.error), seen;
        }
        WithinStep(seen, old(now), s, now);
        CollectsStep(digest, history, paths, k, seen, entries, s);
        if entry.value.Some? {
          entries := entries + [entry.value.value];
        }
        seen := seen + [s];
      }
      assert paths[..|paths|] == paths;
      return Ok(entries), seen;
    }

    /** One attempt: list, copy, read again, and accept only if nothing moved. */
    method CaptureOnce(destination: Place)
      returns (result: Result<Snapshot, CaptureError>, ghost paths: seq<Path>, ghost instant: nat)
      modifies this`now, this`places
      ensures old(now) <= instant <= now
      ensures result.Ok? ==> result.value.root == destination && destination in places
      ensures result.Ok? ==> exists l: nat :: old(now) <= l <= instant && Listed(history(l), paths)
      ensures result.Ok? && Injective(digest) && NoReturns(history, paths, old(now), now) ==>
                TrueAt(digest, history(instant), paths, result.value, places[destination])
      ensures result.Ok? ==> exists d: nat :: instant <= d <= now && history(d).dirty == Some(result.value.dirty)
      ensures result == Err(ChangedDuringCapture) ==> !Quiet(history, old(now), now)
      ensures result.Err? ==> !Undisturbed(digest, history, old(now), now)
      ensures OnlyAt(old(places), places, destination)
    {
      hide Quiet, Undisturbed, OnlyAt, Listable, Listed, ReadFails, Within, Collects, Copied, Injective, NoReturns,
           TrueAt, CanonicalPaths;
      paths, instant := [], now;
      ghost var start := now;
      WrittenAt(places, destination, map[], map[]);
      var before := ReadHead();
      ghost var headAt := now;
      if before.Err? {
        GitFailed(digest, history, start, now, now);
        return Err(before.error), paths, instant;
      }
      var listed := ListPaths();
      ghost var listAt := now;
      if listed.Err? {
        GitFailed(digest, history, start, now, now);
        return Err(listed.error), paths, instant;
      }
      paths := listed.value;
      ListedDistinct(history(listAt), paths);
      places := places[destination := map[]];
      var entries, tree;
      ghost var first;
      entries, tree, first := CopyAndHash(listed.value);
      places := places[destination := tree];
      WrittenAt(old(places), destination, map[], tree);
      instant := now;
      if entries.Err? {
        PassFailed(digest, history, paths, start, listAt, listAt, now, now);
        return Err(entries.error), paths, instant;
      }
      var verified;
      ghost var second;
      verified, second := HashLiveEntries(listed.value);
      ghost var readAt := now;
      if verified.Err? {
        PassFailed(digest, history, paths, start, listAt, instant, now, now);
        return Err(verified.error), paths, instant;
      }
      var after := ReadHead();
      ghost var headAt' := now;
      if after.Err? {
        GitFailed(digest, history, start, now, now);
        return Err(after.error), paths, instant;
      }
      if entries.value != verified.value || before.value != after.value {
        ChangeIsReal(digest, history, paths, first, second, entries.value, verified.value, headAt, listAt, instant,
                     readAt, headAt', start, now);
        ChangeDisturbs(digest, history, start, now, start, now);
        return Err(ChangedDuringCapture), paths, instant;
      }
      var dirty := ReadDirty();
      if dirty.Err? {
        GitFailed(digest, history, start, now, now);
        return Err(dirty.error), paths, instant;
      }
      var snapshot := Snapshot(before.value, dirty.value, entries.value, destination);
      if Injective(digest) && NoReturns(history, paths, start, now) {
        WithinWider(first, listAt, instant, start, instant);
        WithinWider(second, instant, readAt, instant, now);
        AcceptedIsTrue(digest, history, paths, first, second, snapshot, tree, headAt, headAt', start, instant, now);
      }
      return Ok(snapshot), paths, instant;
    }

    /** Up to three attempts; the accepted one is moved into place, nothing else is left. */
    method Capture(name: string)
      returns (result: Result<Snapshot, CaptureError>, ghost paths: seq<Path>, ghost instant: nat)
      modifies this`now, this`places
      ensures old(now) <= instant <= now
      ensures result.Ok? ==> Run(name) !in old(places) && Run(name) in places && result.value.root == Run(name)
      ensures result.Ok? ==> exists l: nat :: old(now) <= l <= instant && Listed(history(l), paths)
      ensures result.Ok? && Injective(digest) && NoReturns(history, paths, old(now), now) ==>
                TrueAt(digest, history(instant), paths, result.value, places[Run(name)])
      ensures result.Ok? ==> exists d: nat :: instant <= d <= now && history(d).dirty == Some(result.value.dirty)
      ensures Undisturbed(digest, history, old(now), now) && Run(name) !in old(places) ==> result.Ok?
      ensures NothingNew(old(places), if result.Ok? then places - {Run(name)} else places)
      ensures Preserved(old(places), places, name)
      ensures result == Err(ChangedDuringCapture) ==>
                exists a: nat, b: nat :: old(now) <= a <= b <= now
                  && !Quiet(history, old(now), a) && !Quiet(history, a, b) && !Quiet(history, b, now)
    {
      hide Quiet, Undisturbed, NothingNew, Preserved, OnlyAt, Listed, Injective, NoReturns, TrueAt;
      paths, instant := [], now;
      ghost var starts := [now];
      SamePlaces(places, name);
      for attempt := 0 to CAPTURE_ATTEMPTS
        invariant |starts| == attempt + 1 && starts[0] == old(now) && starts[attempt] == now
        invariant forall k :: 0 <= k < attempt ==>
                    starts[k] <= starts[k + 1] && !Quiet(history, starts[k], starts[k + 1])
        invariant old(now) <= now && instant == old(now)
        invariant NothingNew(old(places), places) && Preserved(old(places), places, name)
      {
        var temp := Attempt(name, attempt);
        ghost var earlier := places;
        places := places - {temp};
        var once;
        ghost var at;
        ghost var from := now;
        once, paths, at := CaptureOnce(temp);
        AttemptCleans(old(places), earlier, places, name, attempt);
        PartDisturbs(digest, history, from, now, old(now), now);
        match once
        case Ok(snapshot) =>
          instant := at;
          if Run(name) in places {
            places := places - {temp};
            return Err(Io(name)), paths, instant;
          }
          places := places[Run(name) := places[temp]] - {temp};
          NoReturnsBetween(history, paths, old(now), now, from, now);
          TrueAnywhere(digest, history(instant), paths, snapshot, Run(name), places[Run(name)]);
          return Ok(snapshot.(root := Run(name))), paths, instant;
        case Err(ChangedDuringCapture) =>
          places := places - {temp};
          starts := starts + [now];
        case Err(error) =>
          places := places - {temp};
          return Err(error), paths, instant;
      }
      assert starts[0] <= starts[0 + 1] && starts[1] <= starts[1 + 1] && starts[2] <= starts[2 + 1];
      ChangeDisturbs(digest, history, starts[0], starts[0 + 1], old(now), now);
      return Err(ChangedDuringCapture), paths, instant;
    }

    /** Re-checks a snapshot taken earlier with a single pass, and moves it into place when
        nothing differs.  `begin` is the first moment of the check. */
    method VerifyAndAdopt(snapshot: Snapshot, name: string)
      returns (result: Result<Snapshot, CaptureError>, ghost begin: nat)
      modifies this`now, this`places
      ensures old(now) <= begin <= now
      ensures result.Ok? ==> && snapshot.root in old(places) && Run(name) !in old(places)
                             && places == old(places)[Run(name) := old(places)[snapshot.root]] - {snapshot.root}
                             && result.value == snapshot.(root := Run(name))
      ensures result.Ok? ==> Rechecked(digest, history, snapshot, begin, now)
      ensures result.Ok? && Injective(digest) ==>
                forall taken: nat, paths ::
                  (taken <= old(now) && NoReturns(history, paths, taken, now)
                   && TrueAt(digest, history(taken), paths, snapshot, old(places)[snapshot.root])) ==>
                  forall t: nat :: taken <= t <= begin ==>
                    Current(digest, history(t), result.value, places[Run(name)])
      ensures (Undisturbed(digest, history, old(now), now) && Describes(digest, history(old(now)), snapshot)
               && Run(name) !in old(places) && snapshot.root in old(places)) ==> result.Ok?
      ensures result.Err? ==> places == old(places)
    {
      hide Collects, Undisturbed, Listable, ReadFails, Describes, Within, Injective, NoReturns, TrueAt, Current,
           CanonicalPaths, Rechecked;
      begin := now;
      ghost var start := now;
      if Run(name) in places {
        return Err(Io(name)), begin;
      }
      var before := ReadHead();
      begin := now;
      if before.Err? {
        GitFailed(digest, history, start, now, now);
        return Err(before.error), begin;
      }
      var listed := ListPaths();
      ghost var listAt := now;
      if listed.Err? {
        GitFailed(digest, history, start, now, now);
        return Err(listed.error), begin;
      }
      ListedDistinct(history(now), listed.value);
      var entries;
      ghost var seen;
      entries, seen := HashLiveEntries(listed.value);
      ghost var readAt := now;
      if entries.Err? {
        PassFailed(digest, history, listed.value, start, listAt, listAt, now, now);
        return Err(entries.error), begin;
      }
      var after := ReadHead();
      ghost var headAt := now;
      WithinWider(seen, listAt, readAt, begin, headAt);
      if after.Err? {
        GitFailed(digest, history, start, now, now);
        return Err(after.error), begin;
      }
      var dirty := ReadDirty();
      WithinWider(seen, begin, headAt, start, now);
      if dirty.Err? {
        GitFailed(digest, history, start, now, now);
        return Err(dirty.error), begin;
      }
      if before.value != after.value || snapshot.commit != after.value || snapshot.entries != entries.value
         || snapshot.dirty != dirty.value {
        if Undisturbed(digest, history, start, now) && Describes(digest, history(start), snapshot) {
          StillDescribes(digest, history, snapshot, start, now, begin, listAt, headAt, now, listed.value, seen,
                         entries.value);
        }
        return Err(ChangedDuringCapture), begin;
      }
      if snapshot.root !in places {
        return Err(Io(name)), begin;
      }
      WithinWider(seen, begin, headAt, begin, now);
      if Injective(digest) {
        forall taken: nat, paths, t: nat |
            && taken <= old(now) && taken <= t <= begin && NoReturns(history, paths, taken, now)
            && TrueAt(digest, history(taken), paths, snapshot, places[snapshot.root])
          ensures Current(digest, history(t), snapshot.(root := Run(name)), places[snapshot.root])
        {
          AdoptedIsCurrent(digest, history, paths, snapshot, places[snapshot.root], listed.value, seen, taken, begin,
                           now, t);
          CurrentAnywhere(digest, history(t), snapshot, Run(name), places[snapshot.root]);
        }
      }
      assert Rechecked(digest, history, snapshot, begin, now) by {
        RecheckedBy(digest, history, snapshot, begin, now, listed.value, seen, headAt);
      }
      places := places[Run(name) := places[snapshot.root]] - {snapshot.root};
      return Ok(snapshot.(root := Run(name))), begin;
    }
  }

  lemma ReadFailed(digest: Bytes -> string, history: History, paths: seq<Path>, k: nat, s: Sighting, from: nat, to: nat)
    requires k < |paths| && from <= s.metaAt <= s.bodyAt <= to && Seen(digest, history, paths[k], s).Err?
    ensures ReadFails(digest, history, paths, from, to)
  {
    assert paths[k] in paths;
  }

  lemma GitFailed(digest: Bytes -> string, history: History, from: nat, t: nat, to: nat)
    requires from <= t <= to && (history(t).head.None? || history(t).dirty.None? || !Listable(history(t)))
    ensures !Undisturbed(digest, history, from, to)
  {
  }

  lemma PassFailed(digest: Bytes -> string, history: History, paths: seq<Path>, from: nat, l: nat, a: nat, b: nat,
                   to: nat)
    requires from <= l <= to && from <= a <= b <= to && Listed(history(l), paths)
    ensures Undisturbed(digest, history, from, to) ==> !ReadFails(digest, history, paths, a, b)
  {
    if Undisturbed(digest, history, from, to) {
      forall p, s: Sighting | p in paths && a <= s.metaAt <= s.bodyAt <= b
        ensures Seen(digest, history, p, s).Ok?
      {
        assert history(s.metaAt) == history(s.bodyAt) == history(l) == history(from);
      }
    }
  }

  lemma ChangeDisturbs(digest: Bytes -> string, history: History, a: nat, b: nat, from: nat, to: nat)
    requires from <= a <= b <= to
    ensures Undisturbed(digest, history, from, to) ==> Quiet(history, a, b)
  {
    hide Readable;
    if Undisturbed(digest, history, from, to) {
      assert history(a) == history(from);
      assert forall t :: a <= t <= b ==> history(t) == history(from);
    }
  }

  lemma PartDisturbs(digest: Bytes -> string, history: History, a: nat, b: nat, from: nat, to: nat)
    requires from <= a <= b <= to
    ensures !Undisturbed(digest, history, a, b) ==> !Undisturbed(digest, history, from, to)
  {
    hide Readable;
    if Undisturbed(digest, history, from, to) {
      assert history(a) == history(from);
      assert forall t :: a <= t <= b ==> history(t) == history(from);
    }
  }

  /** In an undisturbed repository the check finds what the snapshot describes. */
  lemma StillDescribes(digest: Bytes -> string, history: History, snapshot: Snapshot, from: nat, to: nat,
                       headAt: nat, listAt: nat, headAt': nat, dirtyAt: nat,
                       listed: seq<Path>, seen: seq<Sighting>, entries: seq<SourceEntry>)
    requires Undisturbed(digest, history, from, to) && Describes(digest, history(from), snapshot)
    requires from <= headAt <= to && from <= listAt <= to && from <= headAt' <= to && from <= dirtyAt <= to
    requires Listed(history(listAt), listed) && |seen| == |listed| && Within(seen, from, to)
    requires Collects(digest, history, listed, seen, entries)
    ensures history(headAt).head == history(headAt').head == Some(snapshot.commit)
    ensures history(dirtyAt).dirty == Some(snapshot.dirty) && snapshot.entries == entries
  {
    hide Readable, Collects, IsManifest, Listed;
    assert history(listAt) == history(from);
    forall i | 0 <= i < |listed|
      ensures Seen(digest, history, listed[i], seen[i]) == EntryAt(digest, history(from), listed[i])
    {
      assert history(seen[i].metaAt) == history(seen[i].bodyAt) == history(from);
    }
    CollectsManifest(digest, history, history(from), listed, seen, entries, snapshot.entries);
  }

  lemma {:induction false} CollectsManifest(digest: Bytes -> string, history: History, w: World, paths: seq<Path>,
                                            seen: seq<Sighting>, a: seq<SourceEntry>, b: seq<SourceEntry>)
    requires |seen| == |paths| && Collects(digest, history, paths, seen, a) && IsManifest(digest, w, paths, b)
    requires forall i :: 0 <= i < |paths| ==> Seen(digest, history, paths[i], seen[i]) == EntryAt(digest, w, paths[i])
    ensures a == b
    decreases |paths|
  {
    hide Seen, EntryAt;
    if paths != [] {
      var last := |paths| - 1;
      var some := EntryAt(digest, w, paths[last]).value.Some?;
      var a', b' := if some then a[..|a| - 1] else a, if some then b[..|b| - 1] else b;
      CollectsManifest(digest, history, w, paths[..last], seen[..last], a', b');
      if some {
        assert a == a' + [a[|a| - 1]] && b == b' + [b[|b| - 1]];
      }
    }
  }

  lemma NotBefore(paths: seq<Path>, k: nat)
    requires PathsIncrease(paths) && k < |paths|
    ensures paths[k] !in paths[..k]
  {
  }

  lemma CopiedStep(digest: Bytes -> string, entries: seq<SourceEntry>, tree: Tree, e: SourceEntry, c: Copy)
    requires Copied(digest, entries, tree) && CopyMatches(digest, e, c)
    requires forall d :: d in entries ==> d.path != e.path
    ensures Copied(digest, entries + [e], tree[e.path := c])
  {
    hide CopyMatches;
    var more, grown := entries + [e], tree[e.path := c];
    forall p | p in grown
      ensures exists d :: d in more && d.path == p
    {
      if p == e.path {
        assert e in more;
      } else {
        var d :| d in entries && d.path == p;
        assert d in more;
      }
    }
  }

  lemma NothingSeen(digest: Bytes -> string, history: History, paths: seq<Path>, now: nat)
    ensures Collects(digest, history, paths[..0], [], []) && Copied(digest, [], map[]) && Within([], now, now)
  {
  }

  lemma WithinStep(seen: seq<Sighting>, lo: nat, s: Sighting, hi: nat)
    requires exists mid: nat :: Within(seen, lo, mid) && lo <= mid <= s.metaAt
    requires s.metaAt <= s.bodyAt <= hi
    ensures Within(seen + [s], lo, hi)
  {
  }

  lemma WithinWider(seen: seq<Sighting>, a: nat, b: nat, lo: nat, hi: nat)
    requires Within(seen, a, b) && lo <= a && b <= hi
    ensures Within(seen, lo, hi)
  {
  }

  lemma CollectsStep(digest: Bytes -> string, history: History, paths: seq<Path>, k: nat, seen: seq<Sighting>,
                     entries: seq<SourceEntry>, s: Sighting)
    requires |seen| == k < |paths| && Collects(digest, history, paths[..k], seen, entries)
    requires Seen(digest, history, paths[k], s).Ok?
    ensures var here := Seen(digest, history, paths[k], s).value;
            Collects(digest, history, paths[..k + 1], seen + [s],
                     if here.None? then entries else entries + [here.value])
  {
    assert paths[..k + 1][..k] == paths[..k];
    assert (seen + [s])[..k] == seen;
    var here := Seen(digest, history, paths[k], s).value;
    if here.Some? {
      assert (entries + [here.value])[..|entries|] == entries;
    }
  }

  ghost predicate Listed(w: World, paths: seq<Path>) {
    w.listing.Some? && CanonicalPaths(w.listing.value, paths)
  }

  lemma ListedDistinct(w: World, paths: seq<Path>)
    requires w.listing.Some? && CanonicalPaths(w.listing.value, paths)
    ensures PathsIncrease(paths) && Listed(w, paths)
  {
  }

  /** In a quiet repository both passes and both reads of `HEAD` agree, so a rejection means
      that something really changed. */
  lemma ChangeIsReal(digest: Bytes -> string, history: History, paths: seq<Path>, first: seq<Sighting>,
                     second: seq<Sighting>,
                     entries: seq<SourceEntry>, verified: seq<SourceEntry>,
                     headAt: nat, lo: nat, mid: nat, hi: nat, headAt': nat, from: nat, to: nat)
    requires |first| == |second| == |paths| && Within(first, lo, mid) && Within(second, mid, hi)
    requires from <= lo <= mid <= hi <= to
    requires Collects(digest, history, paths, first, entries) && Collects(digest, history, paths, second, verified)
    requires from <= headAt <= to && from <= headAt' <= to
    requires entries != verified || history(headAt).head != history(headAt').head
    ensures !Quiet(history, from, to)
  {
    if Quiet(history, from, to) {
      forall i | 0 <= i < |paths|
        ensures Seen(digest, history, paths[i], first[i]) == Seen(digest, history, paths[i], second[i])
      {
      }
      CollectsSame(digest, history, paths, first, second, entries, verified);
    }
  }

  lemma {:induction false} CollectsSame(digest: Bytes -> string, history: History, paths: seq<Path>,
                                        first: seq<Sighting>, second: seq<Sighting>,
                                        a: seq<SourceEntry>, b: seq<SourceEntry>)
    requires |first| == |second| == |paths|
    requires Collects(digest, history, paths, first, a) && Collects(digest, history, paths, second, b)
    requires forall i :: 0 <= i < |paths| ==>
               Seen(digest, history, paths[i], first[i]) == Seen(digest, history, paths[i], second[i])
    ensures a == b
    decreases |paths|
  {
    hide Seen;
    if paths != [] {
      var last := |paths| - 1;
      var some := Seen(digest, history, paths[last], first[last]).value.Some?;
      var a', b' := if some then a[..|a| - 1] else a, if some then b[..|b| - 1] else b;
      CollectsSame(digest, history, paths[..last], first[..last], second[..last], a', b');
      if some {
        assert a == a' + [a[|a| - 1]] && b == b' + [b[|b| - 1]];
      }
    }
  }

  lemma AcceptedIsTrue(digest: Bytes -> string, history: History, paths: seq<Path>,
                       first: seq<Sighting>, second: seq<Sighting>, snapshot: Snapshot, tree: Tree,
                       headAt: nat, headAt': nat, lo: nat, t: nat, hi: nat)
    requires Injective(digest) && NoReturns(history, paths, lo, hi) && PathsIncrease(paths)
    requires |first| == |second| == |paths| && Within(first, lo, t) && Within(second, t, hi)
    requires Collects(digest, history, paths, first, snapshot.entries)
    requires Collects(digest, history, paths, second, snapshot.entries)
    requires Copied(digest, snapshot.entries, tree)
    requires lo <= headAt <= t <= headAt' <= hi
    requires history(headAt).head == history(headAt').head == Some(snapshot.commit)
    ensures TrueAt(digest, history(t), paths, snapshot, tree)
  {
    hide NoReturn, Injective, IsManifest, Materializes, Copied, Collects, Within;
    DoubleCollect(digest, history, paths, first, second, snapshot.entries, lo, t, hi);
    CopyIsTruth(digest, history(t), paths, snapshot.entries, tree);
    HeadSteady(history, paths, lo, headAt, t, headAt', hi);
  }

  lemma HeadSteady(history: History, paths: seq<Path>, lo: nat, i: nat, j: nat, k: nat, hi: nat)
    requires NoReturns(history, paths, lo, hi) && lo <= i <= j <= k <= hi && history(i).head == history(k).head
    ensures history(j).head == history(i).head
  {
    var head := (t: nat) => history(t).head;
    assert head(i) == head(k);
    assert head(j) == head(i);
  }

  /** The check itself: one pass over the paths listed now found the snapshot's entries, `HEAD`
      was its commit before and after that pass, and the dirty state was the recorded one. */
  ghost predicate Rechecked(digest: Bytes -> string, history: History, snapshot: Snapshot, begin: nat, end: nat) {
    exists listed, seen, h: nat ::
      && |seen| == |listed| && Collects(digest, history, listed, seen, snapshot.entries)
      && (exists l: nat :: begin <= l <= end && Listed(history(l), listed))
      && Within(seen, begin, h) && begin <= h <= end
      && history(begin).head == history(h).head == Some(snapshot.commit)
      && exists d: nat :: h <= d <= end && history(d).dirty == Some(snapshot.dirty)
  }

  lemma RecheckedBy(digest: Bytes -> string, history: History, snapshot: Snapshot, begin: nat, end: nat,
                    listed: seq<Path>, seen: seq<Sighting>, h: nat)
    requires |seen| == |listed| && Collects(digest, history, listed, seen, snapshot.entries)
    requires exists l: nat :: begin <= l <= end && Listed(history(l), listed)
    requires Within(seen, begin, h) && begin <= h <= end
    requires history(begin).head == history(h).head == Some(snapshot.commit)
    requires exists d: nat :: h <= d <= end && history(d).dirty == Some(snapshot.dirty)
    ensures Rechecked(digest, history, snapshot, begin, end)
  {
  }

  /** Every entry of the snapshot, and the commit, are what the repository holds. */
  ghost predicate Current(digest: Bytes -> string, w: World, snapshot: Snapshot, tree: Tree) {
    && w.head == Some(snapshot.commit)
    && (forall e :: e in snapshot.entries ==> EntryAt(digest, w, e.path) == Ok(Some(e)))
    && Materializes(w, snapshot.entries, tree)
  }

  lemma TrueAnywhere(digest: Bytes -> string, w: World, paths: seq<Path>, snapshot: Snapshot, root: Place, tree: Tree)
    ensures TrueAt(digest, w, paths, snapshot, tree) ==> TrueAt(digest, w, paths, snapshot.(root := root), tree)
  {
  }

  lemma CurrentAnywhere(digest: Bytes -> string, w: World, snapshot: Snapshot, root: Place, tree: Tree)
    ensures Current(digest, w, snapshot, tree) ==> Current(digest, w, snapshot.(root := root), tree)
  {
  }

  lemma {:induction false} CollectsMember(digest: Bytes -> string, history: History, paths: seq<Path>,
                                          seen: seq<Sighting>,
                                          entries: seq<SourceEntry>, e: SourceEntry) returns (i: nat)
    requires |seen| == |paths| && Collects(digest, history, paths, seen, entries) && e in entries
    ensures i < |paths| && paths[i] == e.path && Seen(digest, history, paths[i], seen[i]) == Ok(Some(e))
    decreases |paths|
  {
    var last := |paths| - 1;
    var here := Seen(digest, history, paths[last], seen[last]);
    if here == Ok(Some(e)) {
      i := last;
    } else if here.value.None? {
      i := CollectsMember(digest, history, paths[..last], seen[..last], entries, e);
    } else {
      assert entries == entries[..|entries| - 1] + [entries[|entries| - 1]];
      i := CollectsMember(digest, history, paths[..last], seen[..last], entries[..|entries| - 1], e);
    }
  }

  lemma AdoptedIsCurrent(digest: Bytes -> string, history: History, paths: seq<Path>, snapshot: Snapshot, tree: Tree,
                         listed: seq<Path>, seen: seq<Sighting>, taken: nat, begin: nat, end: nat, t: nat)
    requires Injective(digest) && NoReturns(history, paths, taken, end)
    requires TrueAt(digest, history(taken), paths, snapshot, tree)
    requires |seen| == |listed| && Collects(digest, history, listed, seen, snapshot.entries)
    requires Within(seen, begin, end)
    requires history(begin).head == Some(snapshot.commit) && taken <= t <= begin <= end
    ensures Current(digest, history(t), snapshot, tree)
  {
    hide Injective, Collects, Materializes, MatchesNode, IsManifest, NoReturn, Steady;
    HeadSteady(history, paths, taken, taken, t, begin, end);
    ManifestEntries(digest, history(taken), paths, snapshot.entries);
    forall e | e in snapshot.entries
      ensures EntryAt(digest, history(t), e.path) == Ok(Some(e))
    {
      var i := CollectsMember(digest, history, listed, seen, snapshot.entries, e);
      assert Seen(digest, history, e.path, Sighting(taken, taken)) == Ok(Some(e));
      SightingsAgree(digest, history, e.path, Sighting(taken, taken), seen[i], taken, t, end);
    }
    SameContents(digest, history(taken), history(t), snapshot.entries, tree);
  }

  /** Entries identify contents, so equal entries mean the checkout matches both states. */
  lemma SameContents(digest: Bytes -> string, w: World, w': World, entries: seq<SourceEntry>, tree: Tree)
    requires Injective(digest) && Materializes(w, entries, tree)
    requires forall e :: e in entries ==> EntryAt(digest, w, e.path) == Ok(Some(e)) == EntryAt(digest, w', e.path)
    ensures Materializes(w', entries, tree)
  {
    hide Injective, MatchesNode;
    forall e | e in entries
      ensures MatchesNode(At(w', e.path), tree[e.path])
    {
      SameNode(digest, w, w', e, tree[e.path]);
    }
  }

  lemma SameNode(digest: Bytes -> string, w: World, w': World, e: SourceEntry, c: Copy)
    requires Injective(digest) && MatchesNode(At(w, e.path), c)
    requires EntryAt(digest, w, e.path) == Ok(Some(e)) == EntryAt(digest, w', e.path)
    ensures MatchesNode(At(w', e.path), c)
  {
  }

  // ----- why the promise needs values not to come back

  function Flip(a: string, b: string): World {
    World(Some("c"), Some(["a", "b"]), Some(false),
          map["a" := Node(Regular(false), None, Some(if a == "old" then [0] else [1])),
              "b" := Node(Regular(false), None, Some(if b == "old" then [0] else [1]))])
  }

  /** Two files that take turns holding the value the passes find: both passes agree, yet at
      no instant did the two files hold it together. */
  lemma ReturningValuesBreakIt(digest: Bytes -> string)
    requires Injective(digest)
    ensures exists history: History, first: seq<Sighting>, second: seq<Sighting>, entries: seq<SourceEntry> ::
              && |first| == |second| == 2
              && Within(first, 0, 1) && Within(second, 2, 3)
              && Collects(digest, history, ["a", "b"], first, entries)
              && Collects(digest, history, ["a", "b"], second, entries)
              && forall t: nat :: !IsManifest(digest, history(t), ["a", "b"], entries)
  {
    var history: History := (t: nat) => if t % 2 == 0 then Flip("new", "old") else Flip("old", "new");
    var paths: seq<Path> := ["a", "b"];
    var a := SourceEntry("a", File, MODE_PLAIN, Sha(digest, [1]), 1);
    var b := SourceEntry("b", File, MODE_PLAIN, Sha(digest, [1]), 1);
    var first := [Sighting(0, 0), Sighting(1, 1)];
    var second := [Sighting(2, 2), Sighting(3, 3)];
    assert paths[..1] == ["a"] && ["a"][..0] == [] && [a, b][..1] == [a] && [a][..0] == [];
    assert first[..1] == [Sighting(0, 0)] && second[..1] == [Sighting(2, 2)];
    assert Collects(digest, history, ["a"], [Sighting(0, 0)], [a]);
    assert Collects(digest, history, paths, first, [a, b]);
    assert Collects(digest, history, ["a"], [Sighting(2, 2)], [a]);
    assert Collects(digest, history, paths, second, [a, b]);
    forall t: nat
      ensures !IsManifest(digest, history(t), paths, [a, b])
    {
      assert EntryAt(digest, history(t), "a") == Ok(Some(a)) ==> t % 2 == 0;
      assert EntryAt(digest, history(t), "b") == Ok(Some(b)) ==> t % 2 == 1;
    }
  }
}
