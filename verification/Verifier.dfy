/** The whole verification run, and what its verdict means. */
module Verifier {
  import opened Bytes
  import opened Results
  import opened GitObjects
  import opened Trees
  import opened ArchiveScan
  import opened EolExport
  import opened Reconcile

  // ---------- the pinned commit ----------

  function HexDigit(d: int): byte
    requires 0 <= d < 16
  {
    if d < 10 then 48 + d else 87 + d
  }

  function HexText(s: bytes): bytes {
    if s == [] then [] else [HexDigit(s[0] / 16), HexDigit(s[0] % 16)] + HexText(s[1..])
  }

  function HexValue(c: byte): Option<nat> {
    if 48 <= c <= 57 then Some(c - 48) else if 97 <= c <= 102 then Some(c - 87) else None
  }

  /** Lower-case hex digits back to bytes. */
  function Unhex(s: bytes): Option<bytes> {
    if s == [] then Some([])
    else if |s| == 1 then None
    else
      match (HexValue(s[0]), HexValue(s[1]), Unhex(s[2..]))
      case (Some(a), Some(b), Some(rest)) => Some([16 * a + b] + rest)
      case _ => None
  }

  /** The spelling is read back. */
  lemma {:induction false} UnhexHex(s: bytes)
    ensures Unhex(HexText(s)) == Some(s) && |HexText(s)| == 2 * |s|
  {
    if s != [] {
      UnhexHex(s[1..]);
      assert HexText(s)[2..] == HexText(s[1..]);
      assert s == [s[0]] + s[1..];
    }
  }

  /** Only the lower-case spelling is read at all. */
  lemma {:induction false} HexUnhex(t: bytes)
    requires Unhex(t).Some?
    ensures HexText(Unhex(t).value) == t
  {
    if t != [] {
      HexUnhex(t[2..]);
      var a, b, rest := HexValue(t[0]).value, HexValue(t[1]).value, Unhex(t[2..]).value;
      assert Unhex(t).value == [16 * a + b] + rest;
      assert (16 * a + b) / 16 == a && (16 * a + b) % 16 == b;
      assert t == [t[0], t[1]] + t[2..];
    }
  }

  const TREE_HEADER: bytes := [116, 114, 101, 101, 32]  // "tree "

  function FirstLine(s: bytes): bytes {
    if s == [] || s[0] == LF then [] else [s[0]] + FirstLine(s[1..])
  }

  /** The root tree a commit object names in its first line. */
  function CommitTree(payload: bytes): Option<Oid> {
    var line := FirstLine(payload);
    if |line| == 45 && line[..5] == TREE_HEADER then
      match Unhex(line[5..])
      case Some(oid) => if |oid| == 20 then Some(oid) else None
      case None => None
    else None
  }

  /** The header is read exactly when it is there. */
  lemma CommitTreeExact(payload: bytes, tree: Oid)
    ensures CommitTree(payload) == Some(tree) <==> FirstLine(payload) == TREE_HEADER + HexText(tree)
  {
    var line := FirstLine(payload);
    UnhexHex(tree);
    if line == TREE_HEADER + HexText(tree) {
      assert line[..5] == TREE_HEADER && line[5..] == HexText(tree);
    }
    if CommitTree(payload) == Some(tree) {
      HexUnhex(line[5..]);
      assert line == line[..5] + line[5..];
    }
  }

  /** The commit object, and the commit and tree the JSON document names. */
  datatype CommitRecord = CommitRecord(payload: bytes, jsonCommit: Oid, jsonTree: Oid)

  predicate CommitOk(h: Hash, c: CommitRecord, commit: Oid, pinnedTree: Oid) {
    && ObjectId(h, CommitKind, c.payload) == commit
    && CommitTree(c.payload) == Some(pinnedTree)
    && c.jsonCommit == commit
    && c.jsonTree == pinnedTree
  }

  /** One commit identifier authenticates one root tree, or the commit objects collide. */
  lemma CommitNamesOneTree(h: Hash, c: CommitRecord, d: CommitRecord, commit: Oid, s: Oid, t: Oid)
    requires CommitOk(h, c, commit, s) && CommitOk(h, d, commit, t)
    ensures s == t || Collision(h, {ObjectBytes(CommitKind, c.payload)}, {ObjectBytes(CommitKind, d.payload)})
  {
    if s != t {
      var x, y := ObjectBytes(CommitKind, c.payload), ObjectBytes(CommitKind, d.payload);
      if x == y {
        ObjectBytesInjective(CommitKind, c.payload, CommitKind, d.payload);
      }
      assert x in {x} && y in {y};
    }
  }

  // ---------- reviewed exports ----------

  /** A path whose CRLF export is admitted, and the attribute file and rule that cause it. */
  datatype Reviewed = Reviewed(path: Path, attribute: Path, rule: bytes)

  /** The canonical entry of a path, read through authenticated trees. */
  function CanonicalEntry(oid: Oid, walked: Path, path: Path, lookup: Lookup): Option<Stamp>
    requires path != []
    decreases |path|
  {
    match lookup(walked, oid)
    case None => None
    case Some(entries) =>
      if path[0] !in entries then None
      else if |path| == 1 then Some(entries[path[0]])
      else if entries[path[0]].mode != TreeMode then None
      else CanonicalEntry(entries[path[0]].oid, walked + [path[0]], path[1..], lookup)
  }

  function Replace(t: Node, path: Path, s: Stamp): Node
    requires At(t, path).Holds?
    decreases |path|
  {
    if path == [] then Leaf(s) else Dir(t.children[path[0] := Replace(t.children[path[0]], path[1..], s)])
  }

  function ExportOne(h: Hash, node: Node, captured: map<Path, bytes>, expected: Oid, lookup: Lookup, r: Reviewed): Option<Node>
    requires r.path != [] && r.attribute != []
  {
    if r.path !in captured then Some(node)
    else
      match (CanonicalEntry(expected, [], r.path, lookup), At(node, r.path))
      case (Some(want), Holds(have)) =>
        if have == want then Some(node)
        else if !(want.mode == FileMode || want.mode == ExecMode) || have.mode != want.mode then None
        else if r.attribute !in captured || captured[r.attribute] != r.rule then None
        else
          var rule := Stamp(FileMode, BlobId(h, r.rule));
          if CanonicalEntry(expected, [], r.attribute, lookup) != Some(rule) || At(node, r.attribute) != Holds(rule) then None
          else if !UniformCrlf(captured[r.path]) || BlobId(h, DropCr(captured[r.path])) != want.oid then None
          else Some(Replace(node, r.path, want))
      case _ => None
  }

  predicate PathsGiven(reviewed: seq<Reviewed>) {
    forall r <- reviewed :: r.path != [] && r.attribute != []
  }

  function ExportAll(h: Hash, node: Node, captured: map<Path, bytes>, expected: Oid, lookup: Lookup, reviewed: seq<Reviewed>): Option<Node>
    requires PathsGiven(reviewed)
  {
    if reviewed == [] then Some(node)
    else
      match ExportAll(h, node, captured, expected, lookup, reviewed[..|reviewed| - 1])
      case None => None
      case Some(n) => ExportOne(h, n, captured, expected, lookup, reviewed[|reviewed| - 1])
  }

  function Watched(reviewed: seq<Reviewed>): set<Path> {
    (set r <- reviewed :: r.path) + (set r <- reviewed :: r.attribute)
  }

  // ---------- the run ----------

  /** What a run that ends verified has: the scan and the reconciled tree. */
  datatype Verified = Verified(scan: Scan, exported: Node, final: Visited)

  ghost function RunVerifier(h: Hash, commit: Oid, pinnedTree: Oid, record: CommitRecord, members: seq<Member>,
                     prefix: Option<bytes>, reviewed: seq<Reviewed>, allowExports: bool, lookup: Lookup): Option<Verified>
    requires PathsGiven(reviewed)
  {
    if !CommitOk(h, record, commit, pinnedTree) then None
    else
      match ScanArchive(members, prefix, Watched(reviewed))
      case None => None
      case Some(scan) =>
        match ExportAll(h, Dir(HashDir(h, scan.root)), scan.captured, pinnedTree, lookup, if allowExports then reviewed else [])
        case None => None
        case Some(node) =>
          if !node.Dir? then None
          else
            match Visit(h, node, pinnedTree, [], lookup)
            case None => None
            case Some(v) => if v.node.Dir? && RootId(h, v.node) == pinnedTree then Some(Verified(scan, node, v)) else None
  }

  // ---------- what each stage keeps ----------

  /** An archived tree: acceptable names, files and links only. */
  ghost predicate Archived(t: Contents) {
    match t
    case Leaf(i) => !i.Submodule?
    case Dir(c) => forall n <- c :: ValidName(n) && Archived(c[n])
  }

  lemma {:induction false} PutArchived(dir: map<bytes, Contents>, path: Path, leaf: Option<Item>)
    requires path != [] && Archived(Dir(dir)) && Put(dir, path, leaf).Some?
    requires forall n <- path :: ValidName(n)
    requires leaf.Some? ==> !leaf.value.Submodule?
    ensures Archived(Dir(Put(dir, path, leaf).value))
    decreases |path|
  {
    if |path| > 1 {
      var item := if path[0] in dir then dir[path[0]] else Dir(map[]);
      PutArchived(item.children, path[1..], leaf);
    }
  }

  lemma {:induction false} ScanArchived(ms: seq<Member>, prefix: bytes, watched: set<Path>)
    requires ScanMembers(ms, prefix, watched).Some?
    ensures Archived(Dir(ScanMembers(ms, prefix, watched).value.root))
  {
    if ms != [] {
      ScanArchived(ms[..|ms| - 1], prefix, watched);
      var m := ms[|ms| - 1];
      ParsedNamesValid(m.name, prefix);
      if PathOf(m, prefix) != [] {
        PutArchived(ScanMembers(ms[..|ms| - 1], prefix, watched).value.root, PathOf(m, prefix), LeafOf(m));
      }
    }
  }

  lemma {:induction false} ArchivedHashes(h: Hash, t: Contents)
    requires Archived(t)
    ensures ValidNode(HashTree(h, t)) && HasNoGitlinks(HashTree(h, t))
  {
    if t.Dir? {
      forall n <- t.children ensures ValidNode(HashTree(h, t.children[n])) && HasNoGitlinks(HashTree(h, t.children[n])) {
        ArchivedHashes(h, t.children[n]);
      }
    }
  }

  lemma {:induction false} ReplaceAt(t: Node, path: Path, s: Stamp, q: Path)
    requires At(t, path).Holds?
    ensures At(Replace(t, path, s), q) == if q == path then Holds(s) else At(t, q)
    decreases |path|
  {
    if path != [] && q != [] && q[0] == path[0] {
      ReplaceAt(t.children[path[0]], path[1..], s, q[1..]);
      assert q == path <==> q[1..] == path[1..];
    }
  }

  lemma {:induction false} ReplaceKeeps(t: Node, path: Path, s: Stamp)
    requires At(t, path).Holds? && ValidNode(t) && HasNoGitlinks(t)
    requires s.mode == FileMode || s.mode == ExecMode
    ensures ValidNode(Replace(t, path, s)) && HasNoGitlinks(Replace(t, path, s))
    ensures t.Dir? ==> Replace(t, path, s).Dir?
    decreases |path|
  {
    if path != [] {
      ReplaceKeeps(t.children[path[0]], path[1..], s);
    }
  }

  /** How an admitted export changed the stamp at p. */
  ghost predicate ExportedAt(h: Hash, before: Node, after: Node, captured: map<Path, bytes>, reviewed: seq<Reviewed>, p: Path) {
    exists r :: r in reviewed && r.path == p && p in captured && UniformCrlf(captured[p])
      && At(before, p).Holds? && (At(before, p).value.mode == FileMode || At(before, p).value.mode == ExecMode)
      && At(after, p) == Holds(Stamp(At(before, p).value.mode, BlobId(h, DropCr(captured[p]))))
      && r.attribute in captured && captured[r.attribute] == r.rule
      && At(before, r.attribute) == Holds(Stamp(FileMode, BlobId(h, r.rule)))
  }

  /** The reviewed exports form a dictionary by path, and no attribute file is itself an
      export path. */
  ghost predicate Separate(reviewed: seq<Reviewed>) {
    forall r, s :: r in reviewed && s in reviewed ==> r.attribute != s.path && (r.path == s.path ==> r == s)
  }

  ghost predicate OnlyReviewed(h: Hash, before: Node, after: Node, captured: map<Path, bytes>, reviewed: seq<Reviewed>) {
    && after.Dir? && ValidNode(after) && HasNoGitlinks(after)
    && forall p :: At(after, p) == At(before, p) || ExportedAt(h, before, after, captured, reviewed, p)
  }

  /** Exports change nothing but reviewed paths, each exactly as reviewed. */
  lemma {:induction false} ExportsOnlyReviewed(h: Hash, node: Node, captured: map<Path, bytes>, expected: Oid, lookup: Lookup, reviewed: seq<Reviewed>)
    requires PathsGiven(reviewed) && Separate(reviewed)
    requires node.Dir? && ValidNode(node) && HasNoGitlinks(node)
    requires ExportAll(h, node, captured, expected, lookup, reviewed).Some?
    ensures OnlyReviewed(h, node, ExportAll(h, node, captured, expected, lookup, reviewed).value, captured, reviewed)
  {
    if reviewed != [] {
      var init, r := reviewed[..|reviewed| - 1], reviewed[|reviewed| - 1];
      assert reviewed == init + [r];
      ExportsOnlyReviewed(h, node, captured, expected, lookup, init);
      ExportOneKeeps(h, node, ExportAll(h, node, captured, expected, lookup, init).value, captured, expected, lookup, init, r);
    }
  }

  lemma ExportOneKeeps(h: Hash, node: Node, n: Node, captured: map<Path, bytes>, expected: Oid, lookup: Lookup,
                       init: seq<Reviewed>, r: Reviewed)
    requires PathsGiven(init + [r]) && Separate(init + [r]) && r in init + [r]
    requires OnlyReviewed(h, node, n, captured, init) && ExportOne(h, n, captured, expected, lookup, r).Some?
    ensures OnlyReviewed(h, node, ExportOne(h, n, captured, expected, lookup, r).value, captured, init + [r])
  {
    var m := ExportOne(h, n, captured, expected, lookup, r).value;
    if m == n {
      forall p ensures At(m, p) == At(node, p) || ExportedAt(h, node, m, captured, init + [r], p) {
        if At(m, p) != At(node, p) {
          ExportedMore(h, node, n, m, captured, init, r, p);
        }
      }
    } else {
      ReplaceKeeps(n, r.path, CanonicalEntry(expected, [], r.path, lookup).value);
      forall p ensures At(m, p) == At(node, p) || ExportedAt(h, node, m, captured, init + [r], p) {
        ExportedStep(h, node, n, captured, expected, lookup, init, r, p);
      }
    }
  }

  lemma ExportedStep(h: Hash, node: Node, n: Node, captured: map<Path, bytes>, expected: Oid, lookup: Lookup,
                     init: seq<Reviewed>, r: Reviewed, p: Path)
    requires PathsGiven(init + [r]) && Separate(init + [r]) && r in init + [r]
    requires forall q :: At(n, q) == At(node, q) || ExportedAt(h, node, n, captured, init, q)
    requires ExportOne(h, n, captured, expected, lookup, r).Some? && ExportOne(h, n, captured, expected, lookup, r).value != n
    ensures var m := ExportOne(h, n, captured, expected, lookup, r).value;
            At(m, p) == At(node, p) || ExportedAt(h, node, m, captured, init + [r], p)
  {
    var m, want := ExportOne(h, n, captured, expected, lookup, r).value, CanonicalEntry(expected, [], r.path, lookup).value;
    ReplaceAt(n, r.path, want, p);
    assert At(n, p) == At(node, p) || ExportedAt(h, node, n, captured, init, p);
    if p == r.path {
      AttributeUntouched(h, node, n, captured, init, r);
      assert r in init + [r];
    } else if At(n, p) != At(node, p) {
      ExportedMore(h, node, n, m, captured, init, r, p);
    }
  }

  lemma AttributeUntouched(h: Hash, node: Node, n: Node, captured: map<Path, bytes>, init: seq<Reviewed>, r: Reviewed)
    requires Separate(init + [r])
    requires forall q :: At(n, q) == At(node, q) || ExportedAt(h, node, n, captured, init, q)
    ensures At(n, r.attribute) == At(node, r.attribute)
  {
    assert r in init + [r];
    assert forall s :: s in init ==> s in init + [r];
    assert At(n, r.attribute) == At(node, r.attribute) || ExportedAt(h, node, n, captured, init, r.attribute);
  }

  lemma ExportedMore(h: Hash, node: Node, n: Node, m: Node, captured: map<Path, bytes>, init: seq<Reviewed>, r: Reviewed, p: Path)
    requires ExportedAt(h, node, n, captured, init, p) && At(m, p) == At(n, p)
    ensures ExportedAt(h, node, m, captured, init + [r], p)
  {
    assert forall s :: s in init ==> s in init + [r];
  }

  // ---------- the exports under review ----------

  function Ascii(text: string): (b: bytes)
    ensures |b| == |text|
  {
    if text == [] then [] else [text[0] as int % 256] + Ascii(text[1..])
  }

  function InTemplates(name: string): Path {
    [Ascii("third_party"), Ascii("mako"), Ascii("mako"), Ascii("test"), Ascii("templates"), Ascii(name)]
  }

  const CRLF_TEMPLATE := Reviewed(InTemplates("crlf.html"), InTemplates(".gitattributes"), Ascii("crlf.html text eol=crlf\n"))

  const REVIEWED_EOL_EXPORTS: seq<Reviewed> := [CRLF_TEMPLATE]

  lemma InTemplatesInjective(a: string, b: string)
    requires |a| != |b|
    ensures InTemplates(a) != InTemplates(b)
  {
    assert InTemplates(a)[5] != InTemplates(b)[5];
  }

  /** The list in use satisfies what the theorems ask of one. */
  lemma ReviewedExportsFit()
    ensures PathsGiven(REVIEWED_EOL_EXPORTS) && Separate(REVIEWED_EOL_EXPORTS)
  {
    InTemplatesInjective("crlf.html", ".gitattributes");
    OneFits(CRLF_TEMPLATE);
  }

  lemma OneFits(r: Reviewed)
    requires r.path != [] && r.attribute != [] && r.attribute != r.path
    ensures PathsGiven([r]) && Separate([r])
  {
    assert forall s <- [r] :: s == r;
  }
}
