/** The run of the verifier on its mutable tree: scan, reviewed exports, reconciliation. */
module VerifierRun {
  import opened Bytes
  import opened Results
  import opened GitObjects
  import opened Trees
  import opened ArchiveScan
  import opened EolExport
  import opened Reconcile
  import opened Verifier
  import opened Directories

  // ---------- more answers change nothing that was decided ----------

  lemma {:induction false} CanonicalMonotone(oid: Oid, walked: Path, path: Path, l: Lookup, k: Lookup)
    requires path != [] && Extends(l, k) && CanonicalEntry(oid, walked, path, l).Some?
    ensures CanonicalEntry(oid, walked, path, k) == CanonicalEntry(oid, walked, path, l)
    decreases |path|
  {
    assert k(walked, oid) == l(walked, oid);
    if |path| > 1 {
      CanonicalMonotone(l(walked, oid).value[path[0]].oid, walked + [path[0]], path[1..], l, k);
    }
  }

  lemma ExportMonotone(h: Hash, node: Node, captured: map<Path, bytes>, expected: Oid, l: Lookup, k: Lookup, r: Reviewed)
    requires r.path != [] && r.attribute != [] && Extends(l, k) && ExportOne(h, node, captured, expected, l, r).Some?
    ensures ExportOne(h, node, captured, expected, k, r) == ExportOne(h, node, captured, expected, l, r)
  {
    if r.path in captured {
      CanonicalMonotone(expected, [], r.path, l, k);
      if CanonicalEntry(expected, [], r.attribute, l).Some? {
        CanonicalMonotone(expected, [], r.attribute, l, k);
      }
    }
  }

  lemma {:induction false} ExportAllMonotone(h: Hash, node: Node, captured: map<Path, bytes>, expected: Oid, l: Lookup, k: Lookup, reviewed: seq<Reviewed>)
    requires PathsGiven(reviewed) && Extends(l, k) && ExportAll(h, node, captured, expected, l, reviewed).Some?
    ensures ExportAll(h, node, captured, expected, k, reviewed) == ExportAll(h, node, captured, expected, l, reviewed)
  {
    if reviewed != [] {
      var init, last := reviewed[..|reviewed| - 1], reviewed[|reviewed| - 1];
      ExportAllMonotone(h, node, captured, expected, l, k, init);
      ExportMonotone(h, ExportAll(h, node, captured, expected, l, init).value, captured, expected, l, k, last);
    }
  }

  lemma {:induction false} ExportAllFails(h: Hash, node: Node, captured: map<Path, bytes>, expected: Oid, k: Lookup, reviewed: seq<Reviewed>, i: nat)
    requires PathsGiven(reviewed) && i <= |reviewed| && ExportAll(h, node, captured, expected, k, reviewed[..i]).None?
    ensures ExportAll(h, node, captured, expected, k, reviewed).None?
    decreases |reviewed|
  {
    if i < |reviewed| {
      assert reviewed[..|reviewed| - 1][..i] == reviewed[..i];
      ExportAllFails(h, node, captured, expected, k, reviewed[..|reviewed| - 1], i);
    } else {
      assert reviewed[..i] == reviewed;
    }
  }

  // ---------- reading and writing the mutable tree ----------

  /** The canonical entry of a path; every tree on the way is authenticated and remembered. */
  method CanonicalEntryOf(metadata: Metadata, oid: Oid, walked: Path, path: Path) returns (r: Option<Stamp>)
    requires metadata.Valid() && path != []
    modifies metadata
    ensures metadata.Valid() && CacheGrows(old(metadata.cache), metadata.cache)
    ensures r.Some? ==> CanonicalEntry(oid, walked, path, Remembered(metadata.cache)) == r
    ensures r.None? ==> CanonicalEntry(oid, walked, path, Cached(metadata.h, metadata.fetch, metadata.cache)).None?
    decreases |path|
  {
    var found := metadata.Tree(walked, oid);
    if found.None? {
      return None;
    }
    var entries := EntryMap(found.value);
    if path[0] !in entries {
      return None;
    }
    if |path| == 1 {
      return Some(entries[path[0]]);
    }
    if entries[path[0]].mode != TreeMode {
      return None;
    }
    r := CanonicalEntryOf(metadata, entries[path[0]].oid, walked + [path[0]], path[1..]);
  }

  /** The stamp at a path of the archive's tree, if there is a leaf. */
  method ArchivedEntry(d: Directory, path: Path) returns (r: Option<Stamp>)
    requires d.Valid() && path != []
    ensures d.Valid() && r == match At(Dir(d.node), path) { case Holds(s) => Some(s) case _ => None }
    decreases |path|
  {
    var name := path[0];
    if name !in d.children {
      return None;
    }
    match d.children[name] {
      case Held(s) =>
        r := if |path| == 1 then Some(s) else None;
      case Sub(e) =>
        if |path| == 1 {
          r := None;
        } else {
          r := ArchivedEntry(e, path[1..]);
        }
    }
  }

  /** directory.children[name] = (mode, oid), below a path. */
  method ReplaceEntry(d: Directory, path: Path, s: Stamp)
    requires d.Valid() && path != [] && At(Dir(d.node), path).Holds?
    modifies d.repr
    ensures d.Valid() && d.repr == old(d.repr)
    ensures Dir(d.node) == Replace(Dir(old(d.node)), path, s)
    decreases |path|
  {
    var name := path[0];
    if |path| == 1 {
      d.PutLeaf(name, s);
    } else {
      ReplaceEntry(d.children[name].dir, path[1..], s);
      d.SiblingsStay(name);
      d.Reattach(name);
    }
  }

  /** One reviewed export: what the body of the loop does. */
  method AuthenticateExport(root: Directory, captured: map<Path, bytes>, expected: Oid, metadata: Metadata, r: Reviewed) returns (ok: bool)
    requires root.Valid() && metadata.Valid() && r.path != [] && r.attribute != []
    modifies root.repr, metadata
    ensures root.Valid() && root.repr == old(root.repr) && metadata.Valid() && CacheGrows(old(metadata.cache), metadata.cache)
    ensures ok ==> ExportOne(metadata.h, Dir(old(root.node)), captured, expected, Remembered(metadata.cache), r) == Some(Dir(root.node))
    ensures !ok ==> ExportOne(metadata.h, Dir(old(root.node)), captured, expected, Cached(metadata.h, metadata.fetch, metadata.cache), r).None?
  {
    if r.path !in captured {
      return true;
    }
    var want, have := BothEntries(root, expected, metadata, r.path);
    if want.None? || have.None? {
      return false;
    }
    if have == want {
      return true;
    }
    ok := AdmitExport(root, captured, expected, metadata, r, want.value, have.value);
  }

  /** The checks of an export whose bytes are not the canonical ones. */
  method AdmitExport(root: Directory, captured: map<Path, bytes>, expected: Oid, metadata: Metadata, r: Reviewed, want: Stamp, have: Stamp)
    returns (ok: bool)
    requires root.Valid() && metadata.Valid() && r.path != [] && r.attribute != [] && r.path in captured
    requires CanonicalEntry(expected, [], r.path, Remembered(metadata.cache)) == Some(want)
    requires At(Dir(root.node), r.path) == Holds(have) && have != want
    modifies root.repr, metadata
    ensures root.Valid() && root.repr == old(root.repr) && metadata.Valid() && CacheGrows(old(metadata.cache), metadata.cache)
    ensures ok ==> ExportOne(metadata.h, Dir(old(root.node)), captured, expected, Remembered(metadata.cache), r) == Some(Dir(root.node))
    ensures !ok ==> ExportOne(metadata.h, Dir(old(root.node)), captured, expected, Cached(metadata.h, metadata.fetch, metadata.cache), r).None?
  {
    if !(want.mode == FileMode || want.mode == ExecMode) || have.mode != want.mode
       || r.attribute !in captured || captured[r.attribute] != r.rule {
      EarlyRefusal(metadata.h, metadata.fetch, metadata.cache, Dir(root.node), captured, expected, r, want, have);
      return false;
    }
    ok := RuleHolds(root, captured, expected, metadata, r, want, have);
    if ok {
      ghost var objects: set<object> := root.repr;
      assert metadata !in objects;
      ReplaceEntry(root, r.path, want);
    }
  }

  /** The canonical and the archived entry of a path. */
  method BothEntries(root: Directory, expected: Oid, metadata: Metadata, path: Path) returns (want: Option<Stamp>, have: Option<Stamp>)
    requires root.Valid() && metadata.Valid() && path != []
    modifies metadata
    ensures root.Valid() && unchanged(root) && metadata.Valid() && CacheGrows(old(metadata.cache), metadata.cache)
    ensures want.Some? ==> CanonicalEntry(expected, [], path, Remembered(metadata.cache)) == want
    ensures want.None? ==> CanonicalEntry(expected, [], path, Cached(metadata.h, metadata.fetch, metadata.cache)).None?
    ensures have == match At(Dir(root.node), path) { case Holds(s) => Some(s) case _ => None }
  {
    ghost var objects: set<object> := root.repr;
    assert root in objects && metadata !in objects;
    want := CanonicalEntryOf(metadata, expected, [], path);
    assert unchanged(root);
    have := ArchivedEntry(root, path);
  }

  /** The same once mode and captured rule are right: the rule must be canonical, and the bytes
      the CRLF spelling of the canonical ones. */
  method RuleHolds(root: Directory, captured: map<Path, bytes>, expected: Oid, metadata: Metadata, r: Reviewed, want: Stamp, have: Stamp)
    returns (ok: bool)
    requires root.Valid() && metadata.Valid() && r.path != [] && r.attribute != [] && r.path in captured
    requires CanonicalEntry(expected, [], r.path, Remembered(metadata.cache)) == Some(want)
    requires At(Dir(root.node), r.path) == Holds(have) && have != want
    requires (want.mode == FileMode || want.mode == ExecMode) && have.mode == want.mode
    requires r.attribute in captured && captured[r.attribute] == r.rule
    modifies metadata
    ensures root.Valid() && unchanged(root) && metadata.Valid() && CacheGrows(old(metadata.cache), metadata.cache)
    ensures ok ==> ExportOne(metadata.h, Dir(root.node), captured, expected, Remembered(metadata.cache), r)
                   == Some(Replace(Dir(root.node), r.path, want))
    ensures !ok ==> ExportOne(metadata.h, Dir(root.node), captured, expected, Cached(metadata.h, metadata.fetch, metadata.cache), r).None?
  {
    ghost var remembered := metadata.cache;
    var rule, attribute := BothEntries(root, expected, metadata, r.attribute);
    RuledOutcome(metadata.h, metadata.fetch, remembered, metadata.cache, Dir(root.node), captured, expected, r, want, have, rule, attribute);
    var wanted := Stamp(FileMode, BlobId(metadata.h, r.rule));
    ok := rule == Some(wanted) && attribute == Some(wanted) && Converted(metadata.h, captured[r.path], want.oid);
  }

  /** The exported bytes are the CRLF spelling of the canonical blob. */
  predicate Converted(h: Hash, exported: bytes, blob: Oid) {
    UniformCrlf(exported) && BlobId(h, DropCr(exported)) == blob
  }

  /** An export of the wrong mode, or without its captured rule, is refused. */
  lemma EarlyRefusal(h: Hash, fetch: Fetch, cache: map<Oid, seq<Entry>>, node: Node, captured: map<Path, bytes>, expected: Oid, r: Reviewed,
                     want: Stamp, have: Stamp)
    requires r.path != [] && r.attribute != [] && r.path in captured
    requires CanonicalEntry(expected, [], r.path, Remembered(cache)) == Some(want) && At(node, r.path) == Holds(have) && have != want
    requires !(want.mode == FileMode || want.mode == ExecMode) || have.mode != want.mode
             || r.attribute !in captured || captured[r.attribute] != r.rule
    ensures ExportOne(h, node, captured, expected, Cached(h, fetch, cache), r).None?
  {
    RulesMonotone(h, fetch, cache, cache, expected, r, None);
  }

  /** What becomes of an export once its own stamps and its rule have been checked. */
  lemma ExportOutcome(h: Hash, node: Node, captured: map<Path, bytes>, expected: Oid, lookup: Lookup, r: Reviewed, want: Stamp, have: Stamp)
    requires r.path != [] && r.attribute != [] && r.path in captured && r.attribute in captured && captured[r.attribute] == r.rule
    requires CanonicalEntry(expected, [], r.path, lookup) == Some(want) && At(node, r.path) == Holds(have)
    requires have != want && (want.mode == FileMode || want.mode == ExecMode) && have.mode == want.mode
    ensures var rule := Stamp(FileMode, BlobId(h, r.rule));
            ExportOne(h, node, captured, expected, lookup, r)
            == if CanonicalEntry(expected, [], r.attribute, lookup) == Some(rule) && At(node, r.attribute) == Holds(rule)
                  && Converted(h, captured[r.path], want.oid)
               then Some(Replace(node, r.path, want)) else None
  {
  }

  /** The outcome in terms of what was read of the rule while the memo grew. */
  lemma RuledOutcome(h: Hash, fetch: Fetch, before: map<Oid, seq<Entry>>, after: map<Oid, seq<Entry>>, node: Node, captured: map<Path, bytes>,
                     expected: Oid, r: Reviewed, want: Stamp, have: Stamp, rule: Option<Stamp>, attribute: Option<Stamp>)
    requires r.path != [] && r.attribute != [] && r.path in captured && r.attribute in captured && captured[r.attribute] == r.rule
    requires CanonicalEntry(expected, [], r.path, Remembered(before)) == Some(want) && At(node, r.path) == Holds(have)
    requires have != want && (want.mode == FileMode || want.mode == ExecMode) && have.mode == want.mode && CacheGrows(before, after)
    requires rule.Some? ==> CanonicalEntry(expected, [], r.attribute, Remembered(after)) == rule
    requires rule.None? ==> CanonicalEntry(expected, [], r.attribute, Cached(h, fetch, after)).None?
    requires attribute == match At(node, r.attribute) { case Holds(s) => Some(s) case _ => None }
    ensures var wanted := Stamp(FileMode, BlobId(h, r.rule));
            var ok := rule == Some(wanted) && attribute == Some(wanted) && Converted(h, captured[r.path], want.oid);
            && (ok ==> ExportOne(h, node, captured, expected, Remembered(after), r) == Some(Replace(node, r.path, want)))
            && (!ok ==> ExportOne(h, node, captured, expected, Cached(h, fetch, after), r).None?)
  {
    RulesMonotone(h, fetch, before, after, expected, r, rule);
    ExportOutcome(h, node, captured, expected, Remembered(after), r, want, have);
    ExportOutcome(h, node, captured, expected, Cached(h, fetch, after), r, want, have);
  }

  /** What was read before a memo grew reads the same in it. */
  lemma RulesMonotone(h: Hash, fetch: Fetch, before: map<Oid, seq<Entry>>, after: map<Oid, seq<Entry>>, expected: Oid, r: Reviewed, rule: Option<Stamp>)
    requires r.path != [] && r.attribute != [] && CacheGrows(before, after)
    requires CanonicalEntry(expected, [], r.path, Remembered(before)).Some?
    requires rule.Some? ==> CanonicalEntry(expected, [], r.attribute, Remembered(after)) == rule
    ensures CanonicalEntry(expected, [], r.path, Remembered(after)) == CanonicalEntry(expected, [], r.path, Remembered(before))
    ensures CanonicalEntry(expected, [], r.path, Cached(h, fetch, after)) == CanonicalEntry(expected, [], r.path, Remembered(before))
    ensures rule.Some? ==> CanonicalEntry(expected, [], r.attribute, Cached(h, fetch, after)) == rule
  {
    CanonicalMonotone(expected, [], r.path, Remembered(before), Remembered(after));
    CanonicalMonotone(expected, [], r.path, Remembered(before), Cached(h, fetch, after));
    if rule.Some? {
      CanonicalMonotone(expected, [], r.attribute, Remembered(after), Cached(h, fetch, after));
    }
  }

  /** authenticate_reviewed_exports */
  method AuthenticateExports(root: Directory, captured: map<Path, bytes>, expected: Oid, metadata: Metadata, reviewed: seq<Reviewed>) returns (ok: bool)
    requires root.Valid() && metadata.Valid() && PathsGiven(reviewed)
    modifies root.repr, metadata
    ensures root.Valid() && root.repr == old(root.repr) && metadata.Valid() && CacheGrows(old(metadata.cache), metadata.cache)
    ensures ok ==> ExportAll(metadata.h, Dir(old(root.node)), captured, expected, Remembered(metadata.cache), reviewed) == Some(Dir(root.node))
    ensures !ok ==> ExportAll(metadata.h, Dir(old(root.node)), captured, expected, Cached(metadata.h, metadata.fetch, metadata.cache), reviewed).None?
  {
    ghost var before, cache := Dir(root.node), metadata.cache;
    for i := 0 to |reviewed|
      invariant root.Valid() && root.repr == old(root.repr) && metadata.Valid() && CacheGrows(cache, metadata.cache)
      invariant ExportAll(metadata.h, before, captured, expected, Remembered(metadata.cache), reviewed[..i]) == Some(Dir(root.node))
    {
      ghost var remembered, node := metadata.cache, Dir(root.node);
      assert reviewed[..i + 1][..i] == reviewed[..i];
      ok := AuthenticateExport(root, captured, expected, metadata, reviewed[i]);
      if ok {
        ExportAllMonotone(metadata.h, before, captured, expected, Remembered(remembered), Remembered(metadata.cache), reviewed[..i]);
      } else {
        var k := Cached(metadata.h, metadata.fetch, metadata.cache);
        ExportAllMonotone(metadata.h, before, captured, expected, Remembered(remembered), k, reviewed[..i]);
        ExportAllFails(metadata.h, before, captured, expected, k, reviewed, i + 1);
        return;
      }
    }
    assert reviewed[..|reviewed|] == reviewed;
    ok := true;
  }

  // ---------- the run ----------

  /** main, from the fetched commit record and the archive's members on. It ends verified
      exactly when RunVerifier does, with the same tree and the same gitlinks, whatever the
      memo had to fetch. */
  method Verify(h: Hash, fetch: Fetch, commit: Oid, pinnedTree: Oid, record: CommitRecord, members: seq<Member>,
                prefix: Option<bytes>, reviewed: seq<Reviewed>, allowExports: bool)
    returns (ok: bool, root: Directory, links: seq<Gitlink>, metadata: Metadata)
    requires PathsGiven(reviewed) && Separate(reviewed)
    ensures root.Valid() && metadata.Valid() && metadata.h == h && metadata.fetch == fetch
    ensures Outcome(h, fetch, metadata.cache, commit, pinnedTree, record, members, prefix, reviewed, allowExports, ok, root.node, links)
  {
    metadata := new Metadata(h, fetch);
    links := [];
    if !CommitOk(h, record, commit, pinnedTree) {
      root := new Directory();
      return false, root, [], metadata;
    }
    var captured;
    ok, root, captured := ScanInto(h, members, PrefixFor(members, prefix), Watched(reviewed));
    if !ok {
      return;
    }
    ghost var scan := ScanArchive(members, prefix, Watched(reviewed)).value;
    ScanArchived(members, PrefixFor(members, prefix), Watched(reviewed));
    ArchivedHashes(h, Dir(scan.root));
    assert HashTree(h, Dir(scan.root)) == Dir(root.node);
    ok, links := ExportAndReconcile(root, captured, pinnedTree, metadata, if allowExports then reviewed else []);
    if ok {
      RunReaches(h, commit, pinnedTree, record, members, prefix, reviewed, allowExports, Remembered(metadata.cache));
    }
  }

  /** The last comparison of the run never refuses a tree that was reconciled. */
  lemma RunReaches(h: Hash, commit: Oid, pinnedTree: Oid, record: CommitRecord, members: seq<Member>, prefix: Option<bytes>,
                   reviewed: seq<Reviewed>, allowExports: bool, lookup: Lookup)
    requires PathsGiven(reviewed) && CommitOk(h, record, commit, pinnedTree) && ScanArchive(members, prefix, Watched(reviewed)).Some?
    ensures var scan := ScanArchive(members, prefix, Watched(reviewed)).value;
            var end := Finished(h, Dir(HashDir(h, scan.root)), scan.captured, pinnedTree, lookup, if allowExports then reviewed else []);
            var run := RunVerifier(h, commit, pinnedTree, record, members, prefix, reviewed, allowExports, lookup);
            (end.Some? <==> run.Some?) && (end.Some? ==> run.value.final == end.value)
  {
    var scan := ScanArchive(members, prefix, Watched(reviewed)).value;
    var n := ExportAll(h, Dir(HashDir(h, scan.root)), scan.captured, pinnedTree, lookup, if allowExports then reviewed else []);
    if n.Some? && n.value.Dir? && Visit(h, n.value, pinnedTree, [], lookup).Some? {
      VisitReaches(h, n.value, pinnedTree, [], lookup);
    }
  }

  /** Everything after the scan. */
  method ExportAndReconcile(root: Directory, captured: map<Path, bytes>, expected: Oid, metadata: Metadata, admitted: seq<Reviewed>)
    returns (ok: bool, links: seq<Gitlink>)
    requires root.Valid() && metadata.Valid() && PathsGiven(admitted) && Separate(admitted)
    requires ValidNode(Dir(root.node)) && HasNoGitlinks(Dir(root.node))
    modifies root.repr, metadata
    ensures root.Valid() && metadata.Valid() && CacheGrows(old(metadata.cache), metadata.cache)
    ensures ok ==> Finished(metadata.h, Dir(old(root.node)), captured, expected, Remembered(metadata.cache), admitted)
                   == Some(Visited(Dir(root.node), LinkSet(links)))
    ensures !ok ==> Finished(metadata.h, Dir(old(root.node)), captured, expected, Cached(metadata.h, metadata.fetch, metadata.cache), admitted).None?
  {
    ghost var start := Dir(root.node);
    ok := AuthenticateExports(root, captured, expected, metadata, admitted);
    if !ok {
      return false, [];
    }
    ghost var remembered := metadata.cache;
    ExportsOnlyReviewed(metadata.h, start, captured, expected, Remembered(remembered), admitted);
    ok, links := root.Reconcile(expected, [], metadata);
    ExportAllMonotone(metadata.h, start, captured, expected, Remembered(remembered), Remembered(metadata.cache), admitted);
    ExportAllMonotone(metadata.h, start, captured, expected, Remembered(remembered), Cached(metadata.h, metadata.fetch, metadata.cache), admitted);
  }

  /** The exports and then the reconciliation, as functions. */
  ghost function Finished(h: Hash, node: Node, captured: map<Path, bytes>, expected: Oid, lookup: Lookup, admitted: seq<Reviewed>): Option<Visited>
    requires PathsGiven(admitted)
  {
    match ExportAll(h, node, captured, expected, lookup, admitted)
    case None => None
    case Some(n) => if n.Dir? then Visit(h, n, expected, [], lookup) else None
  }

  /** The run verified, and ended with this tree and these gitlinks. */
  ghost predicate Ran(h: Hash, commit: Oid, pinnedTree: Oid, record: CommitRecord, members: seq<Member>, prefix: Option<bytes>,
                      reviewed: seq<Reviewed>, allowExports: bool, lookup: Lookup, node: map<bytes, Node>, links: seq<Gitlink>)
    requires PathsGiven(reviewed)
  {
    var run := RunVerifier(h, commit, pinnedTree, record, members, prefix, reviewed, allowExports, lookup);
    run.Some? && run.value.final == Visited(Dir(node), LinkSet(links))
  }

  /** A run that leaves this memo behind verified, or not, with this tree and these gitlinks. */
  ghost predicate Outcome(h: Hash, fetch: Fetch, cache: map<Oid, seq<Entry>>, commit: Oid, pinnedTree: Oid, record: CommitRecord,
                          members: seq<Member>, prefix: Option<bytes>, reviewed: seq<Reviewed>, allowExports: bool,
                          ok: bool, node: map<bytes, Node>, links: seq<Gitlink>)
    requires PathsGiven(reviewed)
  {
    if ok then Ran(h, commit, pinnedTree, record, members, prefix, reviewed, allowExports, Remembered(cache), node, links)
    else RunVerifier(h, commit, pinnedTree, record, members, prefix, reviewed, allowExports, Cached(h, fetch, cache)).None?
  }
}
