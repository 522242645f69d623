/** Scanning a workspace: a recursive walk over a directory tree that collects indexable files,
    keeps counters, and stops early when a limit is hit or a directory cannot be read. */
module WorkspaceScan {
  import opened Sequences

  /** What reading a directory returns. */
  datatype Listing = Unreadable | Entries(nodes: seq<Node>)

  /** A directory entry. `size` is what `stat` reports, `None` when it fails. Anything that is not a
      directory or a symbolic link counts as a file. */
  datatype Node =
    | File(name: string, size: Option<nat>)
    | Link(name: string, size: Option<nat>)
    | Dir(name: string, listing: Listing)

  type Path = seq<string>

  datatype Tally = Tally(visited: nat, ignored: nat, errors: nat, skipped: nat) {
    function Plus(t: Tally): Tally {
      Tally(visited + t.visited, ignored + t.ignored, errors + t.errors, skipped + t.skipped)
    }
  }

  ghost predicate DirStep(listing: Listing, k: int, name: string) {
    listing.Entries? && 0 <= k < |listing.nodes| && listing.nodes[k].Dir? && listing.nodes[k].name == name
  }

  /** Following the directories `route` from here leads to where `leaf`, not itself a directory, stands. */
  ghost predicate Leads(listing: Listing, route: Path, leaf: Node)
    decreases |route|
  {
    if route == [] then listing.Entries? && leaf in listing.nodes && !leaf.Dir?
    else exists k :: DirStep(listing, k, route[0]) && Leads(listing.nodes[k].listing, route[1..], leaf)
  }

  /** Following `route` leads to a directory with the listing `sub`. */
  ghost predicate LeadsTo(listing: Listing, route: Path, sub: Listing)
    decreases |route|
  {
    if route == [] then sub == listing
    else exists k :: DirStep(listing, k, route[0]) && LeadsTo(listing.nodes[k].listing, route[1..], sub)
  }

  datatype Indexed = Indexed(path: string, extension: string, sizeBytes: nat)

  datatype StopReason = Nothing | MaxDepth | IoError | MaxFileSize | MaxFiles

  datatype Scan = Scan(
    files: seq<Indexed>, visited: nat, indexed: nat, ignored: nat, dirsSkipped: nat, errors: nat, stop: StopReason)

  const START := Scan([], 0, 0, 0, 0, 0, Nothing)

  const INDEXABLE := {".ts", ".tsx", ".js", ".jsx", ".json", ".md", ".go"}

  /** The options, and what is taken from the path library: the extension of a name, whether a path
      lies in the workspace, and its workspace-relative form. */
  datatype Setup = Setup(
    maxFiles: int, maxDepth: int, maxFileSizeBytes: int, followSymlinks: bool,
    includeExtensions: seq<string>, ignoreDirs: seq<string>,
    extensionOf: string -> string, within: Path -> bool, relative: Path -> Option<string>)
  {
    predicate HasLanguage(name: string) {
      extensionOf(name) in includeExtensions && extensionOf(name) in INDEXABLE
    }

    predicate Skipped(n: Node, path: Path) {
      match n
      case File(_, _) => false
      case Link(_, _) => !followSymlinks
      case Dir(name, _) => name in ignoreDirs || !within(path + [name])
    }

    // ---------- the walk ----------

    /** A file, or a followed link. */
    function VisitFile(name: string, size: Option<nat>, path: Path, s: Scan): Scan {
      var seen := s.(visited := s.visited + 1);
      if !HasLanguage(name) then seen.(ignored := s.ignored + 1)
      else if size.None? then seen.(errors := s.errors + 1)
      else if size.value > maxFileSizeBytes then seen.(ignored := s.ignored + 1, stop := MaxFileSize)
      else if relative(path + [name]).None? then seen.(ignored := s.ignored + 1)
      else
        var files := s.files + [Indexed(relative(path + [name]).value, extensionOf(name), size.value)];
        seen.(files := files, indexed := s.indexed + 1, stop := if |files| >= maxFiles then MaxFiles else s.stop)
    }

    function WalkDir(listing: Listing, path: Path, depth: int, s: Scan): Scan
      decreases listing, 1
    {
      if !s.stop.Nothing? then s
      else if depth > maxDepth then s.(stop := MaxDepth, dirsSkipped := s.dirsSkipped + 1)
      else if listing.Unreadable? then s.(errors := s.errors + 1, stop := IoError)
      else WalkNodes(listing.nodes, path, depth, s)
    }

    function WalkNodes(nodes: seq<Node>, path: Path, depth: int, s: Scan): Scan
      decreases nodes, 0
    {
      if nodes == [] || !s.stop.Nothing? then s
      else WalkNodes(nodes[1..], path, depth, WalkNode(nodes[0], path, depth, s))
    }

    function WalkNode(n: Node, path: Path, depth: int, s: Scan): Scan
      decreases n, 0
    {
      if Skipped(n, path) then s.(dirsSkipped := s.dirsSkipped + 1)
      else
        match n
        case Dir(name, listing) => WalkDir(listing, path + [name], depth + 1, s)
        case File(name, size) => VisitFile(name, size, path, s)
        case Link(name, size) => VisitFile(name, size, path, s)
    }

    // ---------- what should be found ----------

    predicate Eligible(name: string, size: Option<nat>, path: Path) {
      HasLanguage(name) && size.Some? && size.value <= maxFileSizeBytes && relative(path + [name]).Some?
    }

    function FileOf(name: string, size: Option<nat>, path: Path): seq<Indexed> {
      if Eligible(name, size, path) then [Indexed(relative(path + [name]).value, extensionOf(name), size.value)] else []
    }

    /** The eligible files below a directory, in the order of the tree. */
    function FilesIn(listing: Listing, path: Path): seq<Indexed>
      decreases listing, 1
    {
      if listing.Unreadable? then [] else FilesOf(listing.nodes, path)
    }

    function FilesOf(nodes: seq<Node>, path: Path): seq<Indexed>
      decreases nodes, 0
    {
      if nodes == [] then [] else FilesAt(nodes[0], path) + FilesOf(nodes[1..], path)
    }

    function FilesAt(n: Node, path: Path): seq<Indexed>
      decreases n, 0
    {
      if Skipped(n, path) then []
      else
        match n
        case Dir(name, listing) => FilesIn(listing, path + [name])
        case File(name, size) => FileOf(name, size, path)
        case Link(name, size) => FileOf(name, size, path)
    }

    /** Nothing below stops a scan: every directory entered is readable and within the depth limit,
        and no file with an indexed extension is too large. */
    predicate Calm(listing: Listing, path: Path, depth: int)
      decreases listing, 1
    {
      depth <= maxDepth && listing.Entries? && CalmNodes(listing.nodes, path, depth)
    }

    predicate CalmNodes(nodes: seq<Node>, path: Path, depth: int)
      decreases nodes, 0
    {
      nodes != [] ==> CalmNode(nodes[0], path, depth) && CalmNodes(nodes[1..], path, depth)
    }

    predicate CalmNode(n: Node, path: Path, depth: int)
      decreases n, 0
    {
      !Skipped(n, path) ==>
        match n
        case Dir(name, listing) => Calm(listing, path + [name], depth + 1)
        case File(name, size) => HasLanguage(name) && size.Some? ==> size.value <= maxFileSizeBytes
        case Link(name, size) => HasLanguage(name) && size.Some? ==> size.value <= maxFileSizeBytes
    }

    // ---------- where files stand in the tree ----------

    /** No directory on the way is to be ignored, and all lie in the workspace. */
    predicate Open(base: Path, route: Path)
      decreases |route|
    {
      route != [] ==>
        route[0] !in ignoreDirs && within(base + [route[0]]) && Open(base + [route[0]], route[1..])
    }

    predicate Followed(leaf: Node) {
      leaf.File? || (leaf.Link? && followSymlinks)
    }

    /** The file is one to index: it may be followed, its extension is asked for and indexable, its size is
        known and within the limit, and it has a path in the workspace. */
    predicate Wanted(leaf: Node, path: Path) {
      && Followed(leaf) && extensionOf(leaf.name) in includeExtensions && extensionOf(leaf.name) in INDEXABLE
      && leaf.size.Some? && leaf.size.value <= maxFileSizeBytes && relative(path + [leaf.name]).Some?
    }

    function Entry(leaf: Node, path: Path): Indexed
      requires Wanted(leaf, path)
    {
      Indexed(relative(path + [leaf.name]).value, extensionOf(leaf.name), leaf.size.value)
    }

    /** A wanted file at the end of an open route is among the files to be found. */
    lemma {:induction false} WantedIsFound(listing: Listing, base: Path, route: Path, leaf: Node)
      requires Leads(listing, route, leaf) && Open(base, route) && Wanted(leaf, base + route)
      ensures Entry(leaf, base + route) in FilesIn(listing, base)
      decreases |route|
    {
      if route == [] {
        var k :| 0 <= k < |listing.nodes| && listing.nodes[k] == leaf;
        assert base + route == base;
        NodeIsFound(listing.nodes, base, k, Entry(leaf, base));
      } else {
        var k :| DirStep(listing, k, route[0]) && Leads(listing.nodes[k].listing, route[1..], leaf);
        var dir := listing.nodes[k];
        HeadTail(route);
        assert base + route == (base + [dir.name]) + route[1..];
        WantedIsFound(dir.listing, base + [dir.name], route[1..], leaf);
        NodeIsFound(listing.nodes, base, k, Entry(leaf, base + route));
      }
    }

    lemma {:induction false} NodeIsFound(nodes: seq<Node>, base: Path, k: nat, f: Indexed)
      requires k < |nodes| && f in FilesAt(nodes[k], base)
      ensures f in FilesOf(nodes, base)
    {
      if k > 0 { NodeIsFound(nodes[1..], base, k - 1, f); }
    }

    /** And only such files are. */
    lemma {:induction false} FoundIsWanted(listing: Listing, base: Path, f: Indexed) returns (route: Path, leaf: Node)
      requires f in FilesIn(listing, base)
      ensures Leads(listing, route, leaf) && Open(base, route) && Wanted(leaf, base + route)
      ensures f == Entry(leaf, base + route)
      decreases listing, 1
    {
      route, leaf := FoundOf(listing.nodes, 0, base, f);
    }

    lemma {:induction false} FoundOf(nodes: seq<Node>, from: nat, base: Path, f: Indexed)
      returns (route: Path, leaf: Node)
      requires from <= |nodes| && f in FilesOf(nodes[from..], base)
      ensures Leads(Entries(nodes), route, leaf) && Open(base, route) && Wanted(leaf, base + route)
      ensures f == Entry(leaf, base + route)
      decreases nodes, 0, |nodes| - from
    {
      assert nodes[from..][1..] == nodes[from + 1..];
      var n := nodes[from];
      if f in FilesAt(n, base) {
        if n.Dir? {
          var rest, found := FoundIsWanted(n.listing, base + [n.name], f);
          route, leaf := [n.name] + rest, found;
          ConsParts(n.name, rest);
          assert DirStep(Entries(nodes), from, n.name) && Leads(n.listing, route[1..], leaf);
          assert base + route == (base + [n.name]) + rest;
        } else {
          route, leaf := [], n;
          assert base + route == base;
        }
      } else {
        route, leaf := FoundOf(nodes, from + 1, base, f);
      }
    }

    // ---------- what stops a scan ----------

    predicate TooLarge(leaf: Node) {
      && Followed(leaf) && extensionOf(leaf.name) in includeExtensions && extensionOf(leaf.name) in INDEXABLE
      && leaf.size.Some? && leaf.size.value > maxFileSizeBytes
    }

    /** In a calm tree every directory on an open route can be read and is not too deep. */
    lemma {:induction false} CalmDirs(listing: Listing, base: Path, depth: int, route: Path, sub: Listing)
      requires Calm(listing, base, depth) && Open(base, route) && LeadsTo(listing, route, sub)
      ensures depth + |route| <= maxDepth && sub.Entries?
      decreases |route|
    {
      if route != [] {
        var k :| DirStep(listing, k, route[0]) && LeadsTo(listing.nodes[k].listing, route[1..], sub);
        CalmAt(listing.nodes, base, depth, k);
        CalmDirs(listing.nodes[k].listing, base + [route[0]], depth + 1, route[1..], sub);
      }
    }

    /** And no file on one is too large. */
    lemma {:induction false} CalmFiles(listing: Listing, base: Path, depth: int, route: Path, leaf: Node)
      requires Calm(listing, base, depth) && Open(base, route) && Leads(listing, route, leaf)
      ensures !TooLarge(leaf)
      decreases |route|
    {
      if route == [] {
        var k :| 0 <= k < |listing.nodes| && listing.nodes[k] == leaf;
        CalmAt(listing.nodes, base, depth, k);
      } else {
        var k :| DirStep(listing, k, route[0]) && Leads(listing.nodes[k].listing, route[1..], leaf);
        CalmAt(listing.nodes, base, depth, k);
        CalmFiles(listing.nodes[k].listing, base + [route[0]], depth + 1, route[1..], leaf);
      }
    }

    lemma {:induction false} CalmAt(nodes: seq<Node>, base: Path, depth: int, k: nat)
      requires k < |nodes| && CalmNodes(nodes, base, depth)
      ensures CalmNode(nodes[k], base, depth)
    {
      if k > 0 { CalmAt(nodes[1..], base, depth, k - 1); }
    }

    /** Something on an open route from here stops a scan: a directory that is too deep or cannot be read,
        or a file that is too large. */
    ghost predicate Disturbs(listing: Listing, base: Path, depth: int, route: Path, sub: Listing, leaf: Node) {
      && Open(base, route)
      && (|| (LeadsTo(listing, route, sub) && (depth + |route| > maxDepth || sub.Unreadable?))
          || (Leads(listing, route, leaf) && TooLarge(leaf)))
    }

    /** A tree that is not calm has such a thing. */
    lemma {:induction false} Disturbance(listing: Listing, base: Path, depth: int)
      returns (route: Path, sub: Listing, leaf: Node)
      requires !Calm(listing, base, depth)
      ensures Disturbs(listing, base, depth, route, sub, leaf)
      decreases listing, 1
    {
      if depth > maxDepth || listing.Unreadable? {
        route, sub, leaf := [], listing, File("", None);
      } else {
        route, sub, leaf := DisturbanceOf(listing.nodes, 0, base, depth);
      }
    }

    lemma {:induction false} DisturbanceOf(nodes: seq<Node>, from: nat, base: Path, depth: int)
      returns (route: Path, sub: Listing, leaf: Node)
      requires from <= |nodes| && !CalmNodes(nodes[from..], base, depth)
      ensures Disturbs(Entries(nodes), base, depth, route, sub, leaf)
      decreases nodes, 0, |nodes| - from
    {
      assert nodes[from..][1..] == nodes[from + 1..];
      var n := nodes[from];
      if !CalmNode(n, base, depth) {
        if n.Dir? {
          var rest;
          rest, sub, leaf := Disturbance(n.listing, base + [n.name], depth + 1);
          route := [n.name] + rest;
          ConsParts(n.name, rest);
          assert DirStep(Entries(nodes), from, n.name);
        } else {
          route, sub, leaf := [], Unreadable, n;
        }
      } else {
        route, sub, leaf := DisturbanceOf(nodes, from + 1, base, depth);
      }
    }

    // ---------- counters ----------

    /** What a walk that is not stopped counts. */
    function TallyIn(listing: Listing, path: Path): Tally
      decreases listing, 1
    {
      if listing.Unreadable? then Tally(0, 0, 0, 0) else TallyOf(listing.nodes, path)
    }

    function TallyOf(nodes: seq<Node>, path: Path): Tally
      decreases nodes, 0
    {
      if nodes == [] then Tally(0, 0, 0, 0) else TallyAt(nodes[0], path).Plus(TallyOf(nodes[1..], path))
    }

    /** An ignored or foreign directory and a link that is not followed are skipped; every other file is
        seen, and ignored without an indexable extension or a path, an error without a size. */
    function TallyAt(n: Node, path: Path): Tally
      decreases n, 0
    {
      match n
      case Dir(name, listing) =>
        if name in ignoreDirs || !within(path + [name]) then Tally(0, 0, 0, 1) else TallyIn(listing, path + [name])
      case _ =>
        if !Followed(n) then Tally(0, 0, 0, 1)
        else if extensionOf(n.name) !in includeExtensions || extensionOf(n.name) !in INDEXABLE then Tally(1, 1, 0, 0)
        else if n.size.None? then Tally(1, 0, 1, 0)
        else if relative(path + [n.name]).None? then Tally(1, 1, 0, 0)
        else Tally(1, 0, 0, 0)
    }

    ghost predicate Counts(s: Scan, t: Scan, tally: Tally) {
      t.stop.Nothing? ==>
        && t.visited == s.visited + tally.visited && t.ignored == s.ignored + tally.ignored
        && t.errors == s.errors + tally.errors && t.dirsSkipped == s.dirsSkipped + tally.skipped
    }

    lemma {:induction false} WalkDirCounts(listing: Listing, path: Path, depth: int, s: Scan)
      ensures Counts(s, WalkDir(listing, path, depth, s), TallyIn(listing, path))
      decreases listing, 1
    {
      if s.stop.Nothing? && depth <= maxDepth && listing.Entries? { WalkNodesCounts(listing.nodes, path, depth, s); }
    }

    lemma {:induction false} WalkNodesCounts(nodes: seq<Node>, path: Path, depth: int, s: Scan)
      ensures Counts(s, WalkNodes(nodes, path, depth, s), TallyOf(nodes, path))
      decreases nodes, 0
    {
      if nodes != [] && s.stop.Nothing? {
        var mid := WalkNode(nodes[0], path, depth, s);
        WalkNodeCounts(nodes[0], path, depth, s);
        WalkNodesCounts(nodes[1..], path, depth, mid);
        CountsCompose(s, mid, WalkNodes(nodes[1..], path, depth, mid),
                      TallyAt(nodes[0], path), TallyOf(nodes[1..], path));
      }
    }

    lemma {:induction false} WalkNodeCounts(n: Node, path: Path, depth: int, s: Scan)
      requires s.stop.Nothing?
      ensures Counts(s, WalkNode(n, path, depth, s), TallyAt(n, path))
      decreases n, 0
    {
      if n.Dir? {
        if !Skipped(n, path) { WalkDirCounts(n.listing, path + [n.name], depth + 1, s); }
      } else if Followed(n) {
        VisitCounts(n, path, s);
      }
    }

    lemma VisitCounts(n: Node, path: Path, s: Scan)
      requires s.stop.Nothing? && Followed(n)
      ensures Counts(s, VisitFile(n.name, n.size, path, s), TallyAt(n, path))
    {
    }

    lemma CountsCompose(s: Scan, mid: Scan, t: Scan, a: Tally, b: Tally)
      requires Counts(s, mid, a) && Counts(mid, t, b) && (!mid.stop.Nothing? ==> t == mid)
      ensures Counts(s, t, a.Plus(b))
    {
    }

    /** A scan that is not stopped has counted every file and everything skipped. */
    lemma ScanCounts(listing: Listing, collation: string -> real)
      ensures var t, tally := Collect(listing, collation), TallyIn(listing, []);
        t.stop.Nothing? ==>
          && t.visited == tally.visited && t.ignored == tally.ignored
          && t.errors == tally.errors && t.dirsSkipped == tally.skipped
    {
      WalkDirCounts(listing, [], 0, START);
    }

    function Cap(): nat {
      if maxFiles > 1 then maxFiles else 1
    }

    /** The books balance, and the file limit holds. */
    ghost predicate Balanced(s: Scan) {
      && s.visited + (if s.stop.IoError? then 1 else 0) == s.indexed + s.ignored + s.errors
      && s.indexed == |s.files| <= Cap()
      && (s.stop.Nothing? ==> s.files == [] || |s.files| < maxFiles)
    }

    lemma {:induction false} WalkDirBalances(listing: Listing, path: Path, depth: int, s: Scan)
      requires Balanced(s)
      ensures Balanced(WalkDir(listing, path, depth, s))
      decreases listing, 1
    {
      if listing.Entries? { WalkNodesBalances(listing.nodes, path, depth, s); }
    }

    lemma {:induction false} WalkNodesBalances(nodes: seq<Node>, path: Path, depth: int, s: Scan)
      requires Balanced(s)
      ensures Balanced(WalkNodes(nodes, path, depth, s))
      decreases nodes, 0
    {
      if nodes != [] && s.stop.Nothing? {
        if !Skipped(nodes[0], path) && nodes[0].Dir? {
          WalkDirBalances(nodes[0].listing, path + [nodes[0].name], depth + 1, s);
        }
        WalkNodesBalances(nodes[1..], path, depth, WalkNode(nodes[0], path, depth, s));
      }
    }

    // ---------- completeness ----------

    /** From a running scan `s` to `t`, over nodes with eligible files `all`: `t` has collected a prefix
        of them, all of them if it still runs; and it still runs exactly when nothing disturbs it and
        the file limit is not reached. */
    ghost predicate Collects(s: Scan, t: Scan, all: seq<Indexed>, calm: bool) {
      && s.files <= t.files && t.files <= s.files + all
      && (t.stop.Nothing? ==> t.files == s.files + all)
      && (t.stop.Nothing? <==> calm && (all == [] || |s.files| + |all| < maxFiles))
    }

    lemma {:induction false} WalkDirCollects(listing: Listing, path: Path, depth: int, s: Scan)
      requires s.stop.Nothing?
      ensures Collects(s, WalkDir(listing, path, depth, s), FilesIn(listing, path), Calm(listing, path, depth))
      decreases listing, 1
    {
      if depth <= maxDepth && listing.Entries? {
        WalkNodesCollects(listing.nodes, path, depth, s);
      }
    }

    lemma {:induction false} WalkNodesCollects(nodes: seq<Node>, path: Path, depth: int, s: Scan)
      requires s.stop.Nothing?
      ensures Collects(s, WalkNodes(nodes, path, depth, s), FilesOf(nodes, path), CalmNodes(nodes, path, depth))
      decreases nodes, 0
    {
      if nodes != [] {
        var mid := WalkNode(nodes[0], path, depth, s);
        WalkNodeCollects(nodes[0], path, depth, s);
        if mid.stop.Nothing? {
          WalkNodesCollects(nodes[1..], path, depth, mid);
        } else {
          assert WalkNodes(nodes[1..], path, depth, mid) == mid;
        }
        CollectsCompose(s, mid, WalkNodes(nodes, path, depth, s), FilesAt(nodes[0], path), FilesOf(nodes[1..], path),
                        CalmNode(nodes[0], path, depth), CalmNodes(nodes[1..], path, depth));
      }
    }

    lemma {:induction false} WalkNodeCollects(n: Node, path: Path, depth: int, s: Scan)
      requires s.stop.Nothing?
      ensures Collects(s, WalkNode(n, path, depth, s), FilesAt(n, path), CalmNode(n, path, depth))
      decreases n, 0
    {
      if !Skipped(n, path) && n.Dir? {
        WalkDirCollects(n.listing, path + [n.name], depth + 1, s);
      }
    }

    lemma CollectsCompose(s: Scan, mid: Scan, t: Scan, first: seq<Indexed>, rest: seq<Indexed>, calm: bool,
                          calmRest: bool)
      requires Collects(s, mid, first, calm)
      requires if mid.stop.Nothing? then Collects(mid, t, rest, calmRest) else t == mid
      ensures Collects(s, t, first + rest, calm && calmRest)
    {
      Assoc(s.files, first, rest);
    }

    // ---------- the whole scan ----------

    /** `collectFiles`: walk the root, then sort by path. */
    function Collect(listing: Listing, collation: string -> real): Scan {
      var s := WalkDir(listing, [], 0, START);
      s.(files := SortBy((f: Indexed) => collation(f.path), s.files))
    }

    /** The sorted files of a scan are some first eligible files of the tree; a scan that was not
        stopped has all of them and only them; and it is not stopped exactly when every directory it
        enters can be read within the depth limit, no indexable file is too large, and the number of
        eligible files is below the limit (or zero). */
    lemma ScanIsComplete(listing: Listing, collation: string -> real)
      ensures var t, all := Collect(listing, collation), FilesIn(listing, []);
        && |t.files| <= |all| && multiset(t.files) == multiset(all[..|t.files|])
        && (forall i, j :: 0 <= i < j < |t.files| ==> collation(t.files[i].path) <= collation(t.files[j].path))
        && (t.stop.Nothing? ==> multiset(t.files) == multiset(all))
        && (t.stop.Nothing? <==> Calm(listing, [], 0) && (all == [] || |all| < maxFiles))
    {
      var s := WalkDir(listing, [], 0, START);
      WalkDirCollects(listing, [], 0, START);
      var key := (f: Indexed) => collation(f.path);
      SortByOk(key, s.files);
      var sorted := Collect(listing, collation).files;
      forall i, j | 0 <= i < j < |sorted| ensures collation(sorted[i].path) <= collation(sorted[j].path) {
        assert key(sorted[i]) <= key(sorted[j]);
      }
      assert |s.files| == |multiset(s.files)|;
      assert |Collect(listing, collation).files| == |multiset(Collect(listing, collation).files)|;
      var all := FilesIn(listing, []);
      assert START.files + all == all;
      assert s.files == all[..|s.files|];
    }

    /** Every visited file is indexed, ignored or an error, except that an unreadable directory adds one
        error; the indexed files are counted exactly and never exceed max(1, maxFiles). */
    lemma ScanBalances(listing: Listing, collation: string -> real)
      ensures var t := Collect(listing, collation);
        && t.visited + (if t.stop.IoError? then 1 else 0) == t.indexed + t.ignored + t.errors
        && t.indexed == |t.files| <= Cap()
    {
      var s := WalkDir(listing, [], 0, START);
      WalkDirBalances(listing, [], 0, START);
      SortByOk((f: Indexed) => collation(f.path), s.files);
      assert |s.files| == |multiset(s.files)|;
      assert |Collect(listing, collation).files| == |multiset(Collect(listing, collation).files)|;
    }
  }

  /** The walking object: shared files and counters, updated by a recursive walk. */
  class Scanner {
    const setup: Setup
    var scan: Scan

    constructor (setup: Setup)
      ensures this.setup == setup && scan == START
    {
      this.setup := setup;
      scan := START;
    }

    method Walk(listing: Listing, path: Path, depth: int)
      modifies this
      ensures scan == setup.WalkDir(listing, path, depth, old(scan))
      decreases listing
    {
      if !scan.stop.Nothing? { return; }
      if depth > setup.maxDepth {
        scan := scan.(stop := MaxDepth, dirsSkipped := scan.dirsSkipped + 1);
        return;
      }
      if listing.Unreadable? {
        scan := scan.(errors := scan.errors + 1, stop := IoError);
        return;
      }
      var nodes := listing.nodes;
      ghost var target := setup.WalkNodes(nodes, path, depth, scan);
      for i := 0 to |nodes|
        invariant setup.WalkNodes(nodes[i..], path, depth, scan) == target
      {
        assert nodes[i..][1..] == nodes[i + 1..];
        if !scan.stop.Nothing? { return; }
        var n := nodes[i];
        if setup.Skipped(n, path) {
          scan := scan.(dirsSkipped := scan.dirsSkipped + 1);
          continue;
        }
        if n.Dir? {
          Walk(n.listing, path + [n.name], depth + 1);
          continue;
        }
        Visit(n.name, n.size, path);
      }
    }

    method Visit(name: string, size: Option<nat>, path: Path)
      modifies this
      ensures scan == setup.VisitFile(name, size, path, old(scan))
    {
      scan := scan.(visited := scan.visited + 1);
      if !setup.HasLanguage(name) {
        scan := scan.(ignored := scan.ignored + 1);
        return;
      }
      if size.None? {
        scan := scan.(errors := scan.errors + 1);
        return;
      }
      if size.value > setup.maxFileSizeBytes {
        scan := scan.(ignored := scan.ignored + 1, stop := MaxFileSize);
        return;
      }
      var relative := setup.relative(path + [name]);
      if relative.None? {
        scan := scan.(ignored := scan.ignored + 1);
        return;
      }
      scan := scan.(files := scan.files + [Indexed(relative.value, setup.extensionOf(name), size.value)],
                    indexed := scan.indexed + 1);
      if |scan.files| >= setup.maxFiles {
        scan := scan.(stop := MaxFiles);
      }
    }
  }
}
