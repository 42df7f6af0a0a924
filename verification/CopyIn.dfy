/** Copying a source tree into a workspace with an explicit work stack and resource limits. */
module CopyIn {
  import opened Common

  /** A directory lists its entries in whatever order the file system returns them. */
  datatype Node = Directory(entries: seq<Entry>) | Symlink(target: string) | File(bytes: string) | Special

  datatype Entry = Entry(name: string, node: Node)

  type Path = seq<string>

  datatype Copy = DirectoryCopy | SymlinkCopy(target: string) | FileCopy(bytes: string)

  datatype CopyError = TooManyFiles | TooManyBytes

  const PROGRESS_EVERY: nat := 512

  // ----- the recursive copy

  /** Everything below `at` that the copy of `entries` consists of. */
  function CopyOf(entries: seq<Entry>, at: Path): set<(Path, Copy)>
    decreases entries
  {
    if entries == [] then {} else CopyOne(entries[0], at) + CopyOf(entries[1..], at)
  }

  function CopyOne(e: Entry, at: Path): set<(Path, Copy)>
    decreases e
  {
    var here := at + [e.name];
    match e.node
    case Directory(inside) => {(here, DirectoryCopy)} + CopyOf(inside, here)
    case Symlink(target) => {(here, SymlinkCopy(target))}
    case File(bytes) => {(here, FileCopy(bytes))}
    case Special => {}
  }

  function FilesIn(entries: seq<Entry>): nat
    decreases entries
  {
    if entries == [] then 0 else FilesOf(entries[0]) + FilesIn(entries[1..])
  }

  function FilesOf(e: Entry): nat
    decreases e
  {
    match e.node
    case Directory(inside) => FilesIn(inside)
    case Symlink(_) => 1
    case File(_) => 1
    case Special => 0
  }

  function BytesIn(entries: seq<Entry>): nat
    decreases entries
  {
    if entries == [] then 0 else BytesOf(entries[0]) + BytesIn(entries[1..])
  }

  function BytesOf(e: Entry): nat
    decreases e
  {
    match e.node
    case Directory(inside) => BytesIn(inside)
    case File(bytes) => |bytes|
    case _ => 0
  }

  /** Entries that are copied: all but the special ones. */
  function EntriesIn(entries: seq<Entry>): nat
    decreases entries
  {
    if entries == [] then 0 else EntriesOf(entries[0]) + EntriesIn(entries[1..])
  }

  function EntriesOf(e: Entry): nat
    decreases e
  {
    match e.node
    case Directory(inside) => 1 + EntriesIn(inside)
    case Special => 0
    case _ => 1
  }

  /** Names are unique within each directory, as in any file system. */
  ghost predicate Named(entries: seq<Entry>)
    decreases entries
  {
    entries == [] ||
    (&& (forall i :: 1 <= i < |entries| ==> entries[i].name != entries[0].name)
     && (entries[0].node.Directory? ==> Named(entries[0].node.entries))
     && Named(entries[1..]))
  }

  // ----- a path is copied at most once

  lemma {:induction false} CopyBelow(entries: seq<Entry>, at: Path, p: Path, c: Copy)
    requires (p, c) in CopyOf(entries, at)
    ensures |at| < |p| && p[..|at|] == at && exists i :: 0 <= i < |entries| && entries[i].name == p[|at|]
    decreases entries
  {
    if (p, c) in CopyOne(entries[0], at) {
      OneBelow(entries[0], at, p, c);
    } else {
      CopyBelow(entries[1..], at, p, c);
      var i :| 0 <= i < |entries[1..]| && entries[1..][i].name == p[|at|];
      assert entries[i + 1].name == p[|at|];
    }
  }

  lemma {:induction false} OneBelow(e: Entry, at: Path, p: Path, c: Copy)
    requires (p, c) in CopyOne(e, at)
    ensures |at| < |p| && p[..|at|] == at && p[|at|] == e.name
    ensures e.node.Directory? && p != at + [e.name] ==> (p, c) in CopyOf(e.node.entries, at + [e.name])
    decreases e
  {
    var here := at + [e.name];
    if e.node.Directory? && p != here {
      CopyBelow(e.node.entries, here, p, c);
      assert p[..|here|] == here;
      assert p[..|at|] == here[..|at|] == at;
    }
  }

  lemma {:induction false} CopyUnique(entries: seq<Entry>, at: Path, p: Path, c: Copy, d: Copy)
    requires Named(entries) && (p, c) in CopyOf(entries, at) && (p, d) in CopyOf(entries, at)
    ensures c == d
    decreases entries
  {
    hide CopyOne;
    var e, rest := entries[0], entries[1..];
    if (p, c) in CopyOne(e, at) && (p, d) in CopyOne(e, at) {
      OneUnique(e, at, p, c, d);
    } else if (p, c) in CopyOf(rest, at) && (p, d) in CopyOf(rest, at) {
      CopyUnique(rest, at, p, c, d);
    } else {
      var x := if (p, c) in CopyOne(e, at) then c else d;
      var y := if (p, c) in CopyOne(e, at) then d else c;
      OneBelow(e, at, p, x);
      CopyBelow(rest, at, p, y);
      assert false;
    }
  }

  lemma {:induction false} OneUnique(e: Entry, at: Path, p: Path, c: Copy, d: Copy)
    requires (e.node.Directory? ==> Named(e.node.entries)) && (p, c) in CopyOne(e, at) && (p, d) in CopyOne(e, at)
    ensures c == d
    decreases e
  {
    var here := at + [e.name];
    if e.node.Directory? {
      if p == here {
        NotBelowItself(e.node.entries, here, c);
        NotBelowItself(e.node.entries, here, d);
      } else {
        OneBelow(e, at, p, c);
        OneBelow(e, at, p, d);
        CopyUnique(e.node.entries, here, p, c, d);
      }
    }
  }

  lemma NotBelowItself(entries: seq<Entry>, at: Path, c: Copy)
    ensures (at, c) !in CopyOf(entries, at)
  {
    if (at, c) in CopyOf(entries, at) {
      CopyBelow(entries, at, at, c);
    }
  }

  // ----- what the copy holds at a path

  /** The node reached by following the names of `p`. */
  function Lookup(entries: seq<Entry>, p: Path): Option<Node>
    decreases entries
  {
    if entries == [] || p == [] then None
    else if entries[0].name != p[0] then Lookup(entries[1..], p)
    else if |p| == 1 then Some(entries[0].node)
    else if entries[0].node.Directory? then Lookup(entries[0].node.entries, p[1..])
    else None
  }

  /** Kind by kind: directories are created, links keep their target, files their bytes, and
      special nodes are left out. */
  ghost predicate CopiedAs(node: Option<Node>, c: Copy) {
    match node
    case Some(Directory(_)) => c == DirectoryCopy
    case Some(Symlink(target)) => c == SymlinkCopy(target)
    case Some(File(bytes)) => c == FileCopy(bytes)
    case Some(Special) => false
    case None => false
  }

  lemma {:induction false} CopyAt(entries: seq<Entry>, at: Path, p: Path, c: Copy)
    requires Named(entries)
    ensures (at + p, c) in CopyOf(entries, at) <==> CopiedAs(Lookup(entries, p), c)
    decreases entries
  {
    if p == [] {
      assert at + p == at;
      NotBelowItself(entries, at, c);
    } else if entries != [] {
      hide CopiedAs, CopyOne;
      var e, rest := entries[0], entries[1..];
      CopyAt(rest, at, p, c);
      if e.name == p[0] {
        OneAt(e, at, p, c);
        ElsewhereBelow(entries, at, p, c);
      } else {
        if (at + p, c) in CopyOne(e, at) {
          OneBelow(e, at, at + p, c);
        }
      }
    } else {
      assert CopyOf(entries, at) == {};
    }
  }

  lemma ElsewhereBelow(entries: seq<Entry>, at: Path, p: Path, c: Copy)
    requires entries != [] && Named(entries) && p != [] && p[0] == entries[0].name
    ensures (at + p, c) !in CopyOf(entries[1..], at)
  {
    if (at + p, c) in CopyOf(entries[1..], at) {
      CopyBelow(entries[1..], at, at + p, c);
    }
  }

  lemma {:induction false} OneAt(e: Entry, at: Path, p: Path, c: Copy)
    requires p != [] && p[0] == e.name && (e.node.Directory? ==> Named(e.node.entries))
    ensures (at + p, c) in CopyOne(e, at) <==>
              CopiedAs(if |p| == 1 then Some(e.node)
                       else if e.node.Directory? then Lookup(e.node.entries, p[1..]) else None, c)
    decreases e
  {
    var here := at + [e.name];
    assert at + p == here + p[1..];
    if |p| == 1 {
      assert at + p == here;
      if e.node.Directory? {
        NotBelowItself(e.node.entries, here, c);
      }
    } else if e.node.Directory? {
      CopyAt(e.node.entries, here, p[1..], c);
      assert at + p != here;
    } else {
      assert at + p != here;
    }
  }

  /** The copy as a list, a directory before what is in it. */
  function Listed(entries: seq<Entry>, at: Path): seq<(Path, Copy)>
    decreases entries
  {
    if entries == [] then [] else ListedOne(entries[0], at) + Listed(entries[1..], at)
  }

  function ListedOne(e: Entry, at: Path): seq<(Path, Copy)>
    decreases e
  {
    var here := at + [e.name];
    match e.node
    case Directory(inside) => [(here, DirectoryCopy)] + Listed(inside, here)
    case Symlink(target) => [(here, SymlinkCopy(target))]
    case File(bytes) => [(here, FileCopy(bytes))]
    case Special => []
  }

  /** Files and links count as files. */
  function CountFiles(list: seq<(Path, Copy)>): nat {
    if list == [] then 0 else (if list[0].1.DirectoryCopy? then 0 else 1) + CountFiles(list[1..])
  }

  function SumBytes(list: seq<(Path, Copy)>): nat {
    if list == [] then 0 else (if list[0].1.FileCopy? then |list[0].1.bytes| else 0) + SumBytes(list[1..])
  }

  lemma {:induction false} TotalsAdd(a: seq<(Path, Copy)>, b: seq<(Path, Copy)>)
    ensures CountFiles(a + b) == CountFiles(a) + CountFiles(b) && SumBytes(a + b) == SumBytes(a) + SumBytes(b)
  {
    if a == [] {
      assert a + b == b;
    } else {
      TotalsAdd(a[1..], b);
      assert (a + b)[1..] == a[1..] + b;
    }
  }

  /** The running totals are those of the list. */
  lemma {:induction false} TotalsOf(entries: seq<Entry>, at: Path)
    ensures EntriesIn(entries) == |Listed(entries, at)|
    ensures FilesIn(entries) == CountFiles(Listed(entries, at))
    ensures BytesIn(entries) == SumBytes(Listed(entries, at))
    decreases entries
  {
    if entries != [] {
      hide CountFiles, SumBytes, ListedOne;
      TotalsOfOne(entries[0], at);
      TotalsOf(entries[1..], at);
      TotalsAdd(ListedOne(entries[0], at), Listed(entries[1..], at));
    }
  }

  lemma {:induction false} TotalsOfOne(e: Entry, at: Path)
    ensures EntriesOf(e) == |ListedOne(e, at)|
    ensures FilesOf(e) == CountFiles(ListedOne(e, at))
    ensures BytesOf(e) == SumBytes(ListedOne(e, at))
    decreases e
  {
    var here := at + [e.name];
    if e.node.Directory? {
      TotalsOf(e.node.entries, here);
      TotalsAdd([(here, DirectoryCopy)], Listed(e.node.entries, here));
      assert CountFiles([(here, DirectoryCopy)]) == 0 && SumBytes([(here, DirectoryCopy)]) == 0;
    }
  }

  lemma {:induction false} ListedIsCopy(entries: seq<Entry>, at: Path)
    ensures forall x :: x in Listed(entries, at) <==> x in CopyOf(entries, at)
    decreases entries
  {
    if entries != [] {
      ListedOneIsCopy(entries[0], at);
      ListedIsCopy(entries[1..], at);
    }
  }

  lemma {:induction false} ListedOneIsCopy(e: Entry, at: Path)
    ensures forall x :: x in ListedOne(e, at) <==> x in CopyOne(e, at)
    decreases e
  {
    if e.node.Directory? {
      ListedIsCopy(e.node.entries, at + [e.name]);
    }
  }

  ghost predicate Once(list: seq<(Path, Copy)>) {
    forall i, j :: 0 <= i < j < |list| ==> list[i].0 != list[j].0
  }

  lemma OnceTogether(a: seq<(Path, Copy)>, b: seq<(Path, Copy)>)
    requires Once(a) && Once(b) && forall x, y :: x in a && y in b ==> x.0 != y.0
    ensures Once(a + b)
  {
    forall i, j | 0 <= i < j < |a + b|
      ensures (a + b)[i].0 != (a + b)[j].0
    {
      if i < |a| <= j {
        assert a[i] in a && b[j - |a|] in b;
      }
    }
  }

  /** No path is listed twice. */
  lemma {:induction false} ListedOnce(entries: seq<Entry>, at: Path)
    requires Named(entries)
    ensures Once(Listed(entries, at))
    decreases entries
  {
    if entries != [] {
      hide ListedOne, CopyOne, Once;
      var e, rest := entries[0], entries[1..];
      OneOnce(e, at);
      ListedOnce(rest, at);
      ListedOneIsCopy(e, at);
      ListedIsCopy(rest, at);
      forall x, y | x in ListedOne(e, at) && y in Listed(rest, at)
        ensures x.0 != y.0
      {
        OneBelow(e, at, x.0, x.1);
        CopyBelow(rest, at, y.0, y.1);
      }
      OnceTogether(ListedOne(e, at), Listed(rest, at));
    } else {
      assert Listed(entries, at) == [];
    }
  }

  lemma {:induction false} OneOnce(e: Entry, at: Path)
    requires e.node.Directory? ==> Named(e.node.entries)
    ensures Once(ListedOne(e, at))
    decreases e
  {
    if e.node.Directory? {
      var here := at + [e.name];
      var inside := Listed(e.node.entries, here);
      ListedOnce(e.node.entries, here);
      ListedIsCopy(e.node.entries, here);
      forall y | y in inside
        ensures y.0 != here
      {
        CopyBelow(e.node.entries, here, y.0, y.1);
      }
      OnceTogether([(here, DirectoryCopy)], inside);
    }
  }

  /** The workspace is the source, looked up path by path. */
  ghost predicate Mirrors(workspace: map<Path, Copy>, root: seq<Entry>) {
    forall p, c :: (p in workspace && workspace[p] == c) <==> CopiedAs(Lookup(root, p), c)
  }

  /** `list` shows every path of the workspace once. */
  ghost predicate Lists(workspace: map<Path, Copy>, list: seq<(Path, Copy)>) {
    && Once(list)
    && forall p, c :: (p, c) in list <==> p in workspace && workspace[p] == c
  }

  lemma HoldsMirrors(root: seq<Entry>, workspace: map<Path, Copy>)
    requires Named(root) && Holds(workspace, CopyOf(root, []))
    ensures Mirrors(workspace, root) && Lists(workspace, Listed(root, []))
  {
    hide CopyOf, CopiedAs, Lookup, Once;
    forall p, c
      ensures (p in workspace && workspace[p] == c) <==> CopiedAs(Lookup(root, p), c)
    {
      CopyAt(root, [], p, c);
      assert [] + p == p;
    }
    ListedOnce(root, []);
    ListedIsCopy(root, []);
  }

  lemma {:induction false} ListSize(workspace: map<Path, Copy>, list: seq<(Path, Copy)>)
    requires Lists(workspace, list)
    ensures |workspace| == |list|
    decreases |list|
  {
    if list == [] {
      assert forall p :: p in workspace ==> (p, workspace[p]) in list;
      assert workspace == map[];
    } else {
      var n := |list| - 1;
      var (p, c) := list[n];
      var front := list[..n];
      assert (p, c) in list;
      var less := workspace - {p};
      forall q, d
        ensures (q, d) in front <==> q in less && less[q] == d
      {
        ListedFront(workspace, list, q, d);
      }
      ListSize(less, front);
      assert workspace == less[p := c];
    }
  }

  lemma ListedFront(workspace: map<Path, Copy>, list: seq<(Path, Copy)>, q: Path, d: Copy)
    requires Lists(workspace, list) && list != []
    ensures var p := list[|list| - 1].0;
            (q, d) in list[..|list| - 1] <==> q in workspace && q != p && workspace[q] == d
  {
    var n := |list| - 1;
    if (q, d) in list[..n] {
      var i :| 0 <= i < n && list[i] == (q, d);
      assert (q, d) in list;
    }
    if (q, d) in list && q != list[n].0 {
      var i :| 0 <= i < |list| && list[i] == (q, d);
      assert list[..n][i] == (q, d);
    }
  }

  // ----- the work stack

  datatype Job = Job(entries: seq<Entry>, at: Path)

  function Waiting(stack: seq<Job>): set<(Path, Copy)> {
    if stack == [] then {}
    else Waiting(stack[..|stack| - 1]) + CopyOf(stack[|stack| - 1].entries, stack[|stack| - 1].at)
  }

  function WaitingFiles(stack: seq<Job>): nat {
    if stack == [] then 0 else WaitingFiles(stack[..|stack| - 1]) + FilesIn(stack[|stack| - 1].entries)
  }

  function WaitingBytes(stack: seq<Job>): nat {
    if stack == [] then 0 else WaitingBytes(stack[..|stack| - 1]) + BytesIn(stack[|stack| - 1].entries)
  }

  function WaitingEntries(stack: seq<Job>): nat {
    if stack == [] then 0 else WaitingEntries(stack[..|stack| - 1]) + EntriesIn(stack[|stack| - 1].entries)
  }

  function SizeOf(entries: seq<Entry>): nat
    decreases entries
  {
    if entries == [] then 0
    else 1 + (if entries[0].node.Directory? then 1 + SizeOf(entries[0].node.entries) else 0) + SizeOf(entries[1..])
  }

  function Work(stack: seq<Job>): nat {
    if stack == [] then 0 else Work(stack[..|stack| - 1]) + 1 + SizeOf(stack[|stack| - 1].entries)
  }

  lemma Push(stack: seq<Job>, job: Job)
    ensures Waiting(stack + [job]) == Waiting(stack) + CopyOf(job.entries, job.at)
    ensures WaitingFiles(stack + [job]) == WaitingFiles(stack) + FilesIn(job.entries)
    ensures WaitingBytes(stack + [job]) == WaitingBytes(stack) + BytesIn(job.entries)
    ensures WaitingEntries(stack + [job]) == WaitingEntries(stack) + EntriesIn(job.entries)
    ensures Work(stack + [job]) == Work(stack) + 1 + SizeOf(job.entries)
  {
    assert (stack + [job])[..|stack|] == stack;
  }

  /** The workspace holds exactly the pairs in `done`. */
  ghost predicate Holds(workspace: map<Path, Copy>, done: set<(Path, Copy)>) {
    forall p, c :: (p, c) in done <==> p in workspace && workspace[p] == c
  }

  lemma Write(root: seq<Entry>, workspace: map<Path, Copy>, done: set<(Path, Copy)>, p: Path, c: Copy)
    requires Named(root) && Holds(workspace, done) && done <= CopyOf(root, []) && (p, c) in CopyOf(root, [])
    ensures Holds(workspace[p := c], done + {(p, c)})
  {
    if p in workspace {
      assert (p, workspace[p]) in done;
      CopyUnique(root, [], p, c, workspace[p]);
    }
  }

  /** The state between two directory entries: what is written, what is left. */
  ghost predicate Copying(root: seq<Entry>, workspace: map<Path, Copy>, done: set<(Path, Copy)>, seen: nat,
                          files: nat, bytes: nat,
                          stack: seq<Job>, entries: seq<Entry>, at: Path) {
    && Holds(workspace, done)
    && done + Waiting(stack) + CopyOf(entries, at) == CopyOf(root, [])
    && seen + WaitingEntries(stack) + EntriesIn(entries) == EntriesIn(root)
    && files + WaitingFiles(stack) + FilesIn(entries) == FilesIn(root)
    && bytes + WaitingBytes(stack) + BytesIn(entries) == BytesIn(root)
  }

  ghost predicate Rising(reports: seq<(nat, nat)>) {
    forall i, j :: 0 <= i < j < |reports| ==> reports[i].0 <= reports[j].0 && reports[i].1 <= reports[j].1
  }

  ghost predicate AtMost(reports: seq<(nat, nat)>, files: nat, bytes: nat) {
    forall i :: 0 <= i < |reports| ==> reports[i].0 <= files && reports[i].1 <= bytes
  }

  /** Handles one entry; a directory is created now and its contents are left for later. */
  method CopyEntry(ghost root: seq<Entry>, workspace: map<Path, Copy>, ghost done: set<(Path, Copy)>,
                   ghost seen: nat, files: nat, bytes: nat,
                   stack: seq<Job>, ghost entries: seq<Entry>, e: Entry, at: Path)
    returns (workspace': map<Path, Copy>, ghost done': set<(Path, Copy)>, files': nat, bytes': nat, stack': seq<Job>)
    requires Named(root) && Copying(root, workspace, done, seen, files, bytes, stack, entries, at)
    requires entries != [] && entries[0] == e
    ensures Copying(root, workspace', done', if e.node.Special? then seen else seen + 1, files', bytes', stack',
                    entries[1..], at)
    ensures files <= files' && bytes <= bytes'
    ensures e.node.Special? ==> files' == files && bytes' == bytes
    ensures Work(stack') + SizeOf(entries[1..]) < Work(stack) + SizeOf(entries)
  {
    hide CopyOf, Named, Holds, Waiting, WaitingEntries, WaitingFiles, WaitingBytes, Work;
    workspace', files', bytes', stack' := workspace, files, bytes, stack;
    var here := at + [e.name];
    Unfold(entries, at);
    match e.node {
      case Directory(inside) =>
        Write(root, workspace, done, here, DirectoryCopy);
        workspace' := workspace[here := DirectoryCopy];
        done' := done + {(here, DirectoryCopy)};
        Push(stack, Job(inside, here));
        stack' := stack + [Job(inside, here)];
      case Symlink(target) =>
        Write(root, workspace, done, here, SymlinkCopy(target));
        workspace' := workspace[here := SymlinkCopy(target)];
        done' := done + {(here, SymlinkCopy(target))};
        files' := files + 1;
      case File(content) =>
        Write(root, workspace, done, here, FileCopy(content));
        workspace' := workspace[here := FileCopy(content)];
        done' := done + {(here, FileCopy(content))};
        bytes' := bytes + |content|;
        files' := files + 1;
      case Special =>
        done' := done;
    }
  }

  lemma Unfold(entries: seq<Entry>, at: Path)
    requires entries != []
    ensures CopyOf(entries, at) == CopyOne(entries[0], at) + CopyOf(entries[1..], at)
    ensures EntriesIn(entries) == EntriesOf(entries[0]) + EntriesIn(entries[1..])
    ensures FilesIn(entries) == FilesOf(entries[0]) + FilesIn(entries[1..])
    ensures BytesIn(entries) == BytesOf(entries[0]) + BytesIn(entries[1..])
  {
  }

  /** The whole copy.  It succeeds exactly when the totals are within the limits; the workspace
      is then the source without its special nodes, and the last report is the exact total. */
  method Populate(root: seq<Entry>, maxFiles: nat, maxBytes: nat)
    returns (result: Result<map<Path, Copy>, CopyError>, reports: seq<(nat, nat)>)
    requires Named(root)
    ensures result.Ok? <==> FilesIn(root) <= maxFiles && BytesIn(root) <= maxBytes
    ensures result == Err(TooManyFiles) ==> FilesIn(root) > maxFiles
    ensures result == Err(TooManyBytes) ==> BytesIn(root) > maxBytes
    ensures result.Ok? ==> Mirrors(result.value, root) && Lists(result.value, Listed(root, []))
    ensures FilesIn(root) == CountFiles(Listed(root, [])) && BytesIn(root) == SumBytes(Listed(root, []))
    ensures Rising(reports)
    ensures result.Ok? ==> |reports| == |result.value| / 512 + 1
    ensures result.Ok? ==> reports[|reports| - 1] == (FilesIn(root), BytesIn(root))
  {
    hide Mirrors, Lists, Listed, CountFiles, SumBytes;
    hide CopyOf, Named, Holds, Copying, EntriesIn, FilesIn, BytesIn, Work, SizeOf;
    var workspace: map<Path, Copy> := map[];
    ghost var done: set<(Path, Copy)> := {};
    var files, bytes, entriesSeen := 0, 0, 0;
    var stack := [Job(root, [])];
    reports := [];
    StartCopying(root);
    TotalsOf(root, []);
    while stack != []
      invariant Copying(root, workspace, done, entriesSeen, files, bytes, stack, [], [])
      invariant files <= maxFiles && bytes <= maxBytes
      invariant Rising(reports) && AtMost(reports, files, bytes) && |reports| == entriesSeen / PROGRESS_EVERY
      decreases Work(stack)
    {
      var job := stack[|stack| - 1];
      PopJob(root, workspace, done, entriesSeen, files, bytes, stack);
      ghost var before := Work(stack);
      stack := stack[..|stack| - 1];
      for i := 0 to |job.entries|
        invariant Copying(root, workspace, done, entriesSeen, files, bytes, stack, job.entries[i..], job.at)
        invariant files <= maxFiles && bytes <= maxBytes
        invariant Rising(reports) && AtMost(reports, files, bytes) && |reports| == entriesSeen / PROGRESS_EVERY
        invariant Work(stack) + SizeOf(job.entries[i..]) < before
      {
        var e := job.entries[i];
        assert job.entries[i..][1..] == job.entries[i + 1..];
        workspace, done, files, bytes, stack :=
          CopyEntry(root, workspace, done, entriesSeen, files, bytes, stack, job.entries[i..], e, job.at);
        Remaining(root, workspace, done, if e.node.Special? then entriesSeen else entriesSeen + 1, files, bytes, stack,
                  job.entries[i + 1..], job.at);
        if e.node.Special? {
          continue;
        }
        if files > maxFiles {
          return Err(TooManyFiles), reports;
        }
        if bytes > maxBytes {
          return Err(TooManyBytes), reports;
        }
        entriesSeen := entriesSeen + 1;
        if entriesSeen % PROGRESS_EVERY == 0 {
          reports := reports + [(files, bytes)];
        }
      }
      EndDirectory(root, workspace, done, entriesSeen, files, bytes, stack, job.entries[|job.entries|..], job.at);
    }
    Finished(root, workspace, done, entriesSeen, files, bytes);
    HoldsMirrors(root, workspace);
    ListSize(workspace, Listed(root, []));
    reports := reports + [(files, bytes)];
    return Ok(workspace), reports;
  }

  lemma StartCopying(root: seq<Entry>)
    ensures Copying(root, map[], {}, 0, 0, 0, [Job(root, [])], [], [])
  {
    var stack := [Job(root, [])];
    assert stack[..0] == [];
  }

  lemma PopJob(root: seq<Entry>, workspace: map<Path, Copy>, done: set<(Path, Copy)>, seen: nat, files: nat,
               bytes: nat, stack: seq<Job>)
    requires stack != [] && Copying(root, workspace, done, seen, files, bytes, stack, [], [])
    ensures var job := stack[|stack| - 1];
            && Copying(root, workspace, done, seen, files, bytes, stack[..|stack| - 1], job.entries[0..], job.at)
            && Work(stack[..|stack| - 1]) + SizeOf(job.entries[0..]) < Work(stack)
  {
    hide Holds, CopyOf, EntriesIn, FilesIn, BytesIn, SizeOf, Waiting, WaitingEntries, WaitingFiles, WaitingBytes, Work;
    var job := stack[|stack| - 1];
    Push(stack[..|stack| - 1], job);
    NothingListed();
    assert stack[..|stack| - 1] + [job] == stack;
    assert job.entries[0..] == job.entries;
  }

  lemma NothingListed()
    ensures CopyOf([], []) == {} && EntriesIn([]) == 0 && FilesIn([]) == 0 && BytesIn([]) == 0
  {
  }

  lemma EndDirectory(root: seq<Entry>, workspace: map<Path, Copy>, done: set<(Path, Copy)>, seen: nat, files: nat,
                     bytes: nat,
                     stack: seq<Job>, entries: seq<Entry>, at: Path)
    requires entries == [] && Copying(root, workspace, done, seen, files, bytes, stack, entries, at)
    ensures Copying(root, workspace, done, seen, files, bytes, stack, [], [])
  {
  }

  lemma Remaining(root: seq<Entry>, workspace: map<Path, Copy>, done: set<(Path, Copy)>, seen: nat, files: nat,
                  bytes: nat,
                  stack: seq<Job>, entries: seq<Entry>, at: Path)
    requires Copying(root, workspace, done, seen, files, bytes, stack, entries, at)
    ensures files <= FilesIn(root) && bytes <= BytesIn(root)
  {
  }

  lemma Finished(root: seq<Entry>, workspace: map<Path, Copy>, done: set<(Path, Copy)>, seen: nat, files: nat,
                 bytes: nat)
    requires Copying(root, workspace, done, seen, files, bytes, [], [], [])
    ensures Holds(workspace, CopyOf(root, [])) && seen == EntriesIn(root) && files == FilesIn(root)
    ensures bytes == BytesIn(root)
  {
    assert done == CopyOf(root, []);
  }
}
