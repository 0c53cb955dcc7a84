/** End to end: a verified archive has the contents the pinned commit names, and an archive
    that has them is verified. */
module PinnedContents {
  import opened Bytes
  import opened Results
  import opened GitObjects
  import opened Trees
  import opened ArchiveScan
  import opened EolExport
  import opened Reconcile
  import opened Verifier

  // ---------- MinusGitlinks, path by path ----------

  ghost predicate EmptyFolder<L(!new)>(t: Tree<L>, p: Path) {
    At(t, p) == Folder && forall n :: At(t, p + [n]) == Absent
  }

  ghost predicate GapAt<L(!new)>(a: Tree<L>, p: Path) {
    At(a, p) == Absent || EmptyFolder(a, p)
  }

  ghost predicate IsGitlink(s: Spot<Stamp>) {
    s.Holds? && s.value.mode == GitlinkMode
  }

  ghost predicate AgreesAt(a: Node, g: Node, p: Path) {
    At(a, p) == At(g, p) || (IsGitlink(At(g, p)) && GapAt(a, p))
  }

  lemma ChildAt<L(!new)>(t: Tree<L>, n: bytes, q: Path)
    requires t.Dir? && n in t.children
    ensures At(t, [n] + q) == At(t.children[n], q)
    ensures GapAt(t, [n] + q) <==> GapAt(t.children[n], q)
  {
    assert ([n] + q)[1..] == q;
    forall k ensures At(t, [n] + q + [k]) == At(t.children[n], q + [k]) {
      assert ([n] + q + [k])[1..] == q + [k];
    }
  }

  lemma {:induction false} MinusGitlinksAgrees(a: Node, g: Node, p: Path)
    requires a.Dir? && g.Dir? && MinusGitlinks(a, g)
    ensures AgreesAt(a, g, p)
    decreases |p|
  {
    if p != [] && p[0] in g.children {
      var n, q := p[0], p[1..];
      assert p == [n] + q;
      ChildAt(g, n, q);
      if n in a.children {
        ChildAt(a, n, q);
        if g.children[n].Leaf? && g.children[n].value.mode == GitlinkMode {
          assert forall k :: At(a.children[n], [k]) == Absent;
        } else if g.children[n].Dir? {
          MinusGitlinksAgrees(a.children[n], g.children[n], q);
        }
      }
    }
  }

  lemma {:induction false} AgreesMinusGitlinks(a: Node, g: Node)
    requires a.Dir? && g.Dir? && HasNoGitlinks(a)
    requires forall p :: AgreesAt(a, g, p)
    ensures MinusGitlinks(a, g)
    decreases g
  {
    forall n ensures n in a.children ==> n in g.children {
      assert AgreesAt(a, g, [n]);
      OneStep(a, n);
    }
    forall n <- g.children
      ensures if g.children[n].Leaf? && g.children[n].value.mode == GitlinkMode then n !in a.children || a.children[n] == Dir(map[])
              else n in a.children && MinusGitlinks(a.children[n], g.children[n])
    {
      assert AgreesAt(a, g, [n]);
      ChildAt(g, n, []);
      assert [n] + [] == [n];
      if n in a.children {
        ChildAt(a, n, []);
        var c, d := a.children[n], g.children[n];
        if d.Leaf? && d.value.mode == GitlinkMode {
          assert HasNoGitlinks(c);
          assert c.Dir?;
          forall k ensures k !in c.children {
            assert At(c, [] + [k]) == Absent;
            assert [] + [k] == [k];
            OneStep(c, k);
          }
        } else if d.Dir? {
          forall q ensures AgreesAt(c, d, q) {
            assert AgreesAt(a, g, [n] + q);
            ChildAt(a, n, q);
            ChildAt(g, n, q);
          }
          AgreesMinusGitlinks(c, d);
        }
      }
    }
  }

  // ---------- contents and stamps ----------

  function ItemBytes(i: Item): bytes {
    match i
    case Blob(_, content) => ObjectBytes(BlobKind, content)
    case Link(target) => ObjectBytes(BlobKind, target)
    case Submodule(_) => []
  }

  /** The blob objects of a tree. */
  ghost function BlobObjects(t: Contents): set<bytes> {
    match t
    case Leaf(i) => {ItemBytes(i)}
    case Dir(c) => set n, x | n in c && x in BlobObjects(c[n]) :: x
  }

  lemma {:induction false} BlobObjectsHave(t: Contents, p: Path)
    requires At(t, p).Holds?
    ensures ItemBytes(At(t, p).value) in BlobObjects(t)
    decreases |p|
  {
    if p != [] {
      BlobObjectsHave(t.children[p[0]], p[1..]);
    }
  }

  lemma BlobsEqualOrCollide(h: Hash, c: bytes, d: bytes)
    requires BlobId(h, c) == BlobId(h, d)
    ensures c == d || Collision(h, {ObjectBytes(BlobKind, c)}, {ObjectBytes(BlobKind, d)})
  {
    if ObjectBytes(BlobKind, c) == ObjectBytes(BlobKind, d) {
      ObjectBytesInjective(BlobKind, c, BlobKind, d);
    } else {
      assert ObjectBytes(BlobKind, c) in {ObjectBytes(BlobKind, c)} && ObjectBytes(BlobKind, d) in {ObjectBytes(BlobKind, d)};
    }
  }

  lemma ItemsEqualOrCollide(h: Hash, i: Item, j: Item)
    requires StampOf(h, i) == StampOf(h, j)
    ensures i == j || Collision(h, {ItemBytes(i)}, {ItemBytes(j)})
  {
    match i
    case Blob(_, c) => BlobsEqualOrCollide(h, c, j.content);
    case Link(c) => BlobsEqualOrCollide(h, c, j.target);
    case Submodule(_) =>
  }

  // ---------- the two sides of a collision ----------

  /** Every object the run hashed that bears on its verdict: the trees of the completed
      root, the archive's blobs and the texts recovered from captured exports. */
  ghost function RunObjects(h: Hash, v: Verified): set<bytes> {
    TreeObjects(h, v.final.node) + BlobObjects(Dir(v.scan.root))
    + set p <- v.scan.captured :: ObjectBytes(BlobKind, DropCr(v.scan.captured[p]))
  }

  /** Every object of the pinned source tree. */
  ghost function PinnedObjects(h: Hash, g: Contents): set<bytes> {
    TreeObjects(h, HashTree(h, g)) + BlobObjects(g)
  }

  // ---------- the meaning of the verdict ----------

  /** The archive is faithful to the pinned contents at p: it has the same there, or p is a
      submodule and the archive has nothing but perhaps an empty directory, or p is a
      reviewed path, the archive has the CRLF spelling of the pinned text with the same
      executable bit, and both have the reviewed attribute file. */
  ghost predicate Faithful(a: Contents, g: Contents, reviewed: seq<Reviewed>, p: Path) {
    || At(a, p) == At(g, p)
    || (At(g, p).Holds? && At(g, p).value.Submodule? && GapAt(a, p))
    || exists r :: r in reviewed && r.path == p && FaithfulExport(a, g, r)
  }

  ghost predicate FaithfulExport(a: Contents, g: Contents, r: Reviewed) {
    && At(a, r.path).Holds? && At(a, r.path).value.Blob?
    && At(g, r.path).Holds? && At(g, r.path).value.Blob?
    && At(a, r.path).value.executable == At(g, r.path).value.executable
    && Expands(At(g, r.path).value.content, At(a, r.path).value.content)
    && At(a, r.attribute) == Holds(Blob(false, r.rule))
    && At(g, r.attribute) == Holds(Blob(false, r.rule))
  }

  lemma GapTransfers(h: Hash, a: Contents, n: Node, p: Path)
    requires forall q :: At(n, q).Holds? <==> At(a, q).Holds?
    requires forall q :: At(n, q) == Folder <==> At(a, q) == Folder
    ensures GapAt(n, p) <==> GapAt(a, p)
  {
    assert forall q :: At(n, q) == Absent <==> At(a, q) == Absent;
  }

  lemma {:induction false} CapturedHeld(scan: Scan, ms: seq<Member>, prefix: bytes, watched: set<Path>, p: Path)
    requires HoldsExactly(scan.root, ms, prefix) && CapturedExactly(scan.captured, ms, prefix, watched)
    requires p in scan.captured
    ensures At(Dir(scan.root), p).Holds? && At(Dir(scan.root), p).value.Blob?
            && At(Dir(scan.root), p).value.content == scan.captured[p]
  {
    var m :| m in ms && Captures(m, prefix, p, scan.captured[p]);
    assert LeafAt(m, prefix, p);
    assert At(Dir(scan.root), p) == Holds(LeafOf(m).value);
  }

  function Admitted(reviewed: seq<Reviewed>, allowExports: bool): seq<Reviewed> {
    if allowExports then reviewed else []
  }

  /** Soundness of the run. Whatever the metadata source answers, if the run ends verified and g
      is the source tree the pinned identifier names, then the archive is faithful to g at
      every path and the reported gitlinks are exactly g's submodules; or an object the run
      hashed and an object of g are a collision. */
  lemma VerifiedMeansPinned(h: Hash, commit: Oid, record: CommitRecord, members: seq<Member>, prefix: Option<bytes>,
                            reviewed: seq<Reviewed>, allowExports: bool, lookup: Lookup, g: Contents)
    requires PathsGiven(reviewed) && Separate(reviewed) && Authenticated(h, lookup)
    requires g.Dir? && ValidNode(HashTree(h, g))
    requires RunVerifier(h, commit, RootId(h, HashTree(h, g)), record, members, prefix, reviewed, allowExports, lookup).Some?
    ensures var v := RunVerifier(h, commit, RootId(h, HashTree(h, g)), record, members, prefix, reviewed, allowExports, lookup).value;
            || ((forall p :: Faithful(Dir(v.scan.root), g, Admitted(reviewed, allowExports), p))
                && v.final.links == GitlinksOf(HashTree(h, g), []))
            || Collision(h, RunObjects(h, v), PinnedObjects(h, g))
  {
    var root := RootId(h, HashTree(h, g));
    var v := RunVerifier(h, commit, root, record, members, prefix, reviewed, allowExports, lookup).value;
    var admitted := Admitted(reviewed, allowExports);
    var a, n0 := Dir(v.scan.root), Dir(HashDir(h, v.scan.root));
    assert n0.children == HashTree(h, a).children;
    ScanExact(members, PrefixFor(members, prefix), Watched(reviewed));
    ScanArchived(members, PrefixFor(members, prefix), Watched(reviewed));
    ArchivedHashes(h, a);
    ExportsOnlyReviewed(h, n0, v.scan.captured, root, lookup, admitted);
    VisitSound(h, v.exported, HashTree(h, g), [], lookup);
    if Collision(h, TreeObjects(h, v.final.node), TreeObjects(h, HashTree(h, g))) {
      CollisionGrows(h, TreeObjects(h, v.final.node), TreeObjects(h, HashTree(h, g)), RunObjects(h, v), PinnedObjects(h, g));
    } else if !Collision(h, RunObjects(h, v), PinnedObjects(h, g)) {
      forall p ensures Faithful(a, g, admitted, p) {
        forall q ensures At(n0, q) == At(HashTree(h, a), q) {}
        forall q | q in v.scan.captured
          ensures At(a, q).Holds? && At(a, q).value.Blob? && At(a, q).value.content == v.scan.captured[q]
        {
          CapturedHeld(v.scan, members, PrefixFor(members, prefix), Watched(reviewed), q);
        }
        FaithfulAt(h, v, a, n0, g, admitted, p);
      }
    }
  }

  lemma NoBlobCollision(h: Hash, v: Verified, g: Contents, x: bytes, y: bytes)
    requires !Collision(h, RunObjects(h, v), PinnedObjects(h, g))
    requires x in RunObjects(h, v) && y in PinnedObjects(h, g)
    ensures !Collision(h, {x}, {y})
  {
  }

  lemma HeldItemsEqual(h: Hash, v: Verified, g: Contents, p: Path)
    requires !Collision(h, RunObjects(h, v), PinnedObjects(h, g))
    requires At(HashTree(h, Dir(v.scan.root)), p) == At(HashTree(h, g), p)
    ensures At(Dir(v.scan.root), p) == At(g, p)
  {
    var a := Dir(v.scan.root);
    HashAt(h, a, p);
    HashAt(h, g, p);
    if At(a, p).Holds? {
      var i, j := At(a, p).value, At(g, p).value;
      BlobObjectsHave(a, p);
      BlobObjectsHave(g, p);
      ItemsEqualOrCollide(h, i, j);
      NoBlobCollision(h, v, g, ItemBytes(i), ItemBytes(j));
    }
  }

  lemma FaithfulAt(h: Hash, v: Verified, a: Contents, n0: Node, g: Contents, admitted: seq<Reviewed>, p: Path)
    requires a == Dir(v.scan.root) && g.Dir? && v.exported.Dir? && Separate(admitted)
    requires forall q :: At(n0, q) == At(HashTree(h, a), q)
    requires forall q <- v.scan.captured :: At(a, q).Holds? && At(a, q).value.Blob? && At(a, q).value.content == v.scan.captured[q]
    requires forall q :: At(v.exported, q) == At(n0, q) || ExportedAt(h, n0, v.exported, v.scan.captured, admitted, q)
    requires MinusGitlinks(v.exported, HashTree(h, g)) && HasNoGitlinks(v.exported)
    requires !Collision(h, RunObjects(h, v), PinnedObjects(h, g))
    ensures Faithful(a, g, admitted, p)
  {
    var n, hg := v.exported, HashTree(h, g);
    MinusGitlinksAgrees(n, hg, p);
    HashAt(h, g, p);
    HashAt(h, a, p);
    if At(n, p) != At(hg, p) {
      forall q ensures (At(n, q).Holds? <==> At(a, q).Holds?) && (At(n, q) == Folder <==> At(a, q) == Folder) {
        HashAt(h, a, q);
        assert At(n, q) == At(n0, q) || ExportedAt(h, n0, n, v.scan.captured, admitted, q);
      }
      GapTransfers(h, a, n, p);
    } else if At(n, p) == At(n0, p) {
      HeldItemsEqual(h, v, g, p);
    } else {
      ExportFaithful(h, v, a, n0, g, admitted, p);
    }
  }

  /** The text recovered from a capture is the pinned blob with its identifier. */
  lemma RecoveredText(h: Hash, v: Verified, g: Contents, p: Path, x: Stamp)
    requires !Collision(h, RunObjects(h, v), PinnedObjects(h, g))
    requires p in v.scan.captured && UniformCrlf(v.scan.captured[p])
    requires x.mode == FileMode || x.mode == ExecMode
    requires At(HashTree(h, g), p) == Holds(Stamp(x.mode, BlobId(h, DropCr(v.scan.captured[p]))))
    ensures At(g, p) == Holds(Blob(x.mode == ExecMode, DropCr(v.scan.captured[p])))
    ensures Expands(DropCr(v.scan.captured[p]), v.scan.captured[p])
  {
    HashAt(h, g, p);
    var text, want := DropCr(v.scan.captured[p]), At(g, p).value;
    BlobObjectsHave(g, p);
    BlobsEqualOrCollide(h, text, want.content);
    assert ObjectBytes(BlobKind, text) in RunObjects(h, v);
    NoBlobCollision(h, v, g, ObjectBytes(BlobKind, text), ItemBytes(want));
  }

  /** The attribute file behind an export is in the archive and in g. */
  lemma AttributeHeld(h: Hash, v: Verified, a: Contents, n0: Node, g: Contents, admitted: seq<Reviewed>, r: Reviewed)
    requires a == Dir(v.scan.root) && g.Dir? && v.exported.Dir? && Separate(admitted) && r in admitted
    requires forall q :: At(n0, q) == At(HashTree(h, a), q)
    requires forall q :: At(v.exported, q) == At(n0, q) || ExportedAt(h, n0, v.exported, v.scan.captured, admitted, q)
    requires MinusGitlinks(v.exported, HashTree(h, g))
    requires !Collision(h, RunObjects(h, v), PinnedObjects(h, g))
    requires At(a, r.attribute).Holds? && At(a, r.attribute).value.Blob? && At(a, r.attribute).value.content == r.rule
    requires At(n0, r.attribute) == Holds(Stamp(FileMode, BlobId(h, r.rule)))
    ensures At(a, r.attribute) == Holds(Blob(false, r.rule)) == At(g, r.attribute)
  {
    HashAt(h, a, r.attribute);
    assert !ExportedAt(h, n0, v.exported, v.scan.captured, admitted, r.attribute);
    MinusGitlinksAgrees(v.exported, HashTree(h, g), r.attribute);
    assert At(v.exported, r.attribute) == At(n0, r.attribute);
    assert At(v.exported, r.attribute) == At(HashTree(h, g), r.attribute);
    HeldItemsEqual(h, v, g, r.attribute);
  }

  lemma ExportFaithful(h: Hash, v: Verified, a: Contents, n0: Node, g: Contents, admitted: seq<Reviewed>, p: Path)
    requires a == Dir(v.scan.root) && g.Dir? && v.exported.Dir? && Separate(admitted)
    requires forall q :: At(n0, q) == At(HashTree(h, a), q)
    requires forall q <- v.scan.captured :: At(a, q).Holds? && At(a, q).value.Blob? && At(a, q).value.content == v.scan.captured[q]
    requires forall q :: At(v.exported, q) == At(n0, q) || ExportedAt(h, n0, v.exported, v.scan.captured, admitted, q)
    requires MinusGitlinks(v.exported, HashTree(h, g))
    requires !Collision(h, RunObjects(h, v), PinnedObjects(h, g))
    requires ExportedAt(h, n0, v.exported, v.scan.captured, admitted, p) && At(v.exported, p) == At(HashTree(h, g), p)
    ensures Faithful(a, g, admitted, p)
  {
    var r :| r in admitted && r.path == p && p in v.scan.captured && UniformCrlf(v.scan.captured[p])
      && At(n0, p).Holds? && (At(n0, p).value.mode == FileMode || At(n0, p).value.mode == ExecMode)
      && At(v.exported, p) == Holds(Stamp(At(n0, p).value.mode, BlobId(h, DropCr(v.scan.captured[p]))))
      && r.attribute in v.scan.captured && v.scan.captured[r.attribute] == r.rule
      && At(n0, r.attribute) == Holds(Stamp(FileMode, BlobId(h, r.rule)));
    HashAt(h, a, p);
    RecoveredText(h, v, g, p, At(n0, p).value);
    AttributeHeld(h, v, a, n0, g, admitted, r);
    assert FaithfulExport(a, g, r);
  }

  // ---------- the converse ----------

  lemma {:induction false} CanonicalHonest(h: Hash, g: Node, walked: Path, path: Path, lookup: Lookup)
    requires g.Dir? && path != [] && At(g, path).Holds? && Honest(h, g, walked, lookup)
    ensures CanonicalEntry(RootId(h, g), walked, path, lookup) == Some(At(g, path).value)
    decreases |path|
  {
    var c := g.children[path[0]];
    assert NodeEntries(h, g)[path[0]] == NodeStamp(h, c);
    if |path| == 1 {
      assert path[1..] == [];
    } else {
      CanonicalHonest(h, c, walked + [path[0]], path[1..], lookup);
    }
  }

  lemma HeldCaptured(scan: Scan, ms: seq<Member>, prefix: bytes, watched: set<Path>, p: Path)
    requires HoldsExactly(scan.root, ms, prefix) && CapturedExactly(scan.captured, ms, prefix, watched)
    requires p in watched && At(Dir(scan.root), p).Holds? && At(Dir(scan.root), p).value.Blob?
    ensures p in scan.captured && scan.captured[p] == At(Dir(scan.root), p).value.content
  {
    var i := At(Dir(scan.root), p).value;
    assert At(Dir(scan.root), p) == Holds(i);
    var m :| m in ms && LeafAt(m, prefix, p) && LeafOf(m) == Some(i);
  }

  /** A node on its way from the archive's stamps to the pinned ones: the exports in done
      have been replaced, and nothing else. */
  ghost predicate Between(h: Hash, n: Node, a: Contents, g: Contents, done: seq<Reviewed>) {
    && n.Dir? && ValidNode(n) && HasNoGitlinks(n)
    && (forall p :: || At(n, p) == At(HashTree(h, a), p)
                    || (At(n, p) == At(HashTree(h, g), p) && At(a, p).Holds? && At(g, p).Holds?))
    && (forall r <- done :: FaithfulExport(a, g, r) ==> At(n, r.path) == At(HashTree(h, g), r.path))
  }

  /** The scan, the captures and the metadata of an honest run. */
  ghost predicate HonestRun(h: Hash, scan: Scan, a: Contents, g: Contents, reviewed: seq<Reviewed>, lookup: Lookup) {
    && a == Dir(scan.root) && g.Dir? && ValidNode(HashTree(h, g))
    && PathsGiven(reviewed) && Separate(reviewed)
    && Honest(h, HashTree(h, g), [], lookup)
    && (forall r <- reviewed :: Faithful(a, g, reviewed, r.path))
    && (forall p <- scan.captured :: At(a, p).Holds? && At(a, p).value.Blob? && At(a, p).value.content == scan.captured[p])
    && (forall r <- reviewed :: At(a, r.path).Holds? && At(a, r.path).value.Blob? ==> r.path in scan.captured)
    && (forall r <- reviewed :: At(a, r.attribute).Holds? && At(a, r.attribute).value.Blob? ==> r.attribute in scan.captured)
  }

  lemma HashedSpots(h: Hash, t: Contents, p: Path)
    requires At(t, p).Holds?
    ensures At(HashTree(h, t), p) == Holds(StampOf(h, At(t, p).value))
  {
    HashAt(h, t, p);
  }

  lemma ExportStep(h: Hash, scan: Scan, a: Contents, g: Contents, reviewed: seq<Reviewed>, lookup: Lookup, n: Node, done: seq<Reviewed>, r: Reviewed)
    requires HonestRun(h, scan, a, g, reviewed, lookup) && Between(h, n, a, g, done) && r in reviewed
    ensures var m := ExportOne(h, n, scan.captured, RootId(h, HashTree(h, g)), lookup, r);
            m.Some? && Between(h, m.value, a, g, done + [r])
  {
    var hg, root := HashTree(h, g), RootId(h, HashTree(h, g));
    if r.path in scan.captured {
      HashedSpots(h, a, r.path);
      if At(a, r.path) == At(g, r.path) {
        HashedSpots(h, g, r.path);
        CanonicalHonest(h, hg, [], r.path, lookup);
      } else {
        assert !GapAt(a, r.path);
        var r' :| r' in reviewed && r'.path == r.path && FaithfulExport(a, g, r');
        assert r' == r;
        ExportOneSucceeds(h, scan, a, g, reviewed, lookup, n, done, r);
      }
    }
    BetweenSkips(h, scan, a, g, reviewed, lookup, n, done, r);
  }

  /** An export the run leaves alone needs no replacement. */
  lemma BetweenSkips(h: Hash, scan: Scan, a: Contents, g: Contents, reviewed: seq<Reviewed>, lookup: Lookup, n: Node, done: seq<Reviewed>, r: Reviewed)
    requires HonestRun(h, scan, a, g, reviewed, lookup) && Between(h, n, a, g, done) && r in reviewed
    ensures r.path !in scan.captured || At(a, r.path) == At(g, r.path) ==> Between(h, n, a, g, done + [r])
  {
    if At(a, r.path) == At(g, r.path) {
      HashAt(h, a, r.path);
      HashAt(h, g, r.path);
    }
  }

  lemma ExportOneSucceeds(h: Hash, scan: Scan, a: Contents, g: Contents, reviewed: seq<Reviewed>, lookup: Lookup, n: Node, done: seq<Reviewed>, r: Reviewed)
    requires HonestRun(h, scan, a, g, reviewed, lookup) && Between(h, n, a, g, done)
    requires r in reviewed && r.path in scan.captured && FaithfulExport(a, g, r)
    ensures var m := ExportOne(h, n, scan.captured, RootId(h, HashTree(h, g)), lookup, r);
            m.Some? && Between(h, m.value, a, g, done + [r])
  {
    HashedSpots(h, a, r.path);
    HashedSpots(h, g, r.path);
    assert At(n, r.path).Holds?;
    var want := At(HashTree(h, g), r.path).value;
    ExportOneAdmits(h, scan, a, g, reviewed, lookup, n, done, r);
    if At(n, r.path).value != want {
      BetweenReplaced(h, n, a, g, done, r);
    }
  }

  lemma ExportOneAdmits(h: Hash, scan: Scan, a: Contents, g: Contents, reviewed: seq<Reviewed>, lookup: Lookup, n: Node, done: seq<Reviewed>, r: Reviewed)
    requires HonestRun(h, scan, a, g, reviewed, lookup) && Between(h, n, a, g, done)
    requires r in reviewed && r.path in scan.captured && FaithfulExport(a, g, r)
    requires At(n, r.path).Holds? && At(HashTree(h, g), r.path).Holds?
    ensures var want := At(HashTree(h, g), r.path).value;
            ExportOne(h, n, scan.captured, RootId(h, HashTree(h, g)), lookup, r)
            == Some(if At(n, r.path).value == want then n else Replace(n, r.path, want))
  {
    var hg := HashTree(h, g);
    HashedSpots(h, a, r.path);
    HashedSpots(h, g, r.path);
    HashedSpots(h, a, r.attribute);
    HashedSpots(h, g, r.attribute);
    CanonicalHonest(h, hg, [], r.path, lookup);
    CanonicalHonest(h, hg, [], r.attribute, lookup);
    UniformCrlfExact(scan.captured[r.path]);
    assert r.attribute in scan.captured && scan.captured[r.attribute] == r.rule;
  }

  lemma BetweenReplaced(h: Hash, n: Node, a: Contents, g: Contents, done: seq<Reviewed>, r: Reviewed)
    requires Between(h, n, a, g, done) && FaithfulExport(a, g, r)
    requires At(n, r.path).Holds? && At(HashTree(h, g), r.path) == Holds(StampOf(h, At(g, r.path).value))
    ensures Between(h, Replace(n, r.path, At(HashTree(h, g), r.path).value), a, g, done + [r])
  {
    var want := At(HashTree(h, g), r.path).value;
    ReplaceKeeps(n, r.path, want);
    forall p ensures At(Replace(n, r.path, want), p) == if p == r.path then At(HashTree(h, g), p) else At(n, p) {
      ReplaceAt(n, r.path, want, p);
    }
  }

  lemma {:induction false} ExportsComplete(h: Hash, scan: Scan, a: Contents, g: Contents, reviewed: seq<Reviewed>, lookup: Lookup, n0: Node, done: seq<Reviewed>)
    requires HonestRun(h, scan, a, g, reviewed, lookup)
    requires n0 == HashTree(h, a) && ValidNode(n0) && HasNoGitlinks(n0)
    requires done <= reviewed
    ensures PathsGiven(done)
    ensures var m := ExportAll(h, n0, scan.captured, RootId(h, HashTree(h, g)), lookup, done);
            m.Some? && Between(h, m.value, a, g, done)
  {
    assert forall r <- done :: r in reviewed;
    if done != [] {
      var init, r := done[..|done| - 1], done[|done| - 1];
      assert init + [r] == done;
      ExportsComplete(h, scan, a, g, reviewed, lookup, n0, init);
      ExportStep(h, scan, a, g, reviewed, lookup, ExportAll(h, n0, scan.captured, RootId(h, HashTree(h, g)), lookup, init).value, init, r);
    }
  }

  lemma BetweenAgrees(h: Hash, n: Node, a: Contents, g: Contents, reviewed: seq<Reviewed>, p: Path)
    requires Between(h, n, a, g, reviewed) && Faithful(a, g, reviewed, p) && g.Dir?
    ensures AgreesAt(n, HashTree(h, g), p)
  {
    HashAt(h, a, p);
    HashAt(h, g, p);
    if At(a, p) != At(g, p) && At(g, p).Holds? && At(g, p).value.Submodule? && GapAt(a, p) {
      forall q ensures (At(n, q).Holds? <==> At(a, q).Holds?) && (At(n, q) == Folder <==> At(a, q) == Folder) {
        HashAt(h, a, q);
        HashAt(h, g, q);
      }
      GapTransfers(h, a, n, p);
    }
  }

  /** Completeness of the run. With an authentic commit record and honest metadata, an archive
      faithful to g at every path is verified. */
  lemma FaithfulArchiveVerifies(h: Hash, commit: Oid, record: CommitRecord, members: seq<Member>, prefix: Option<bytes>,
                                reviewed: seq<Reviewed>, allowExports: bool, lookup: Lookup, g: Contents)
    requires PathsGiven(reviewed) && Separate(reviewed)
    requires g.Dir? && ValidNode(HashTree(h, g)) && Honest(h, HashTree(h, g), [], lookup)
    requires CommitOk(h, record, commit, RootId(h, HashTree(h, g)))
    requires ScanArchive(members, prefix, Watched(reviewed)).Some?
    requires forall p :: Faithful(Dir(ScanArchive(members, prefix, Watched(reviewed)).value.root), g, Admitted(reviewed, allowExports), p)
    ensures RunVerifier(h, commit, RootId(h, HashTree(h, g)), record, members, prefix, reviewed, allowExports, lookup).Some?
  {
    var scan := ScanArchive(members, prefix, Watched(reviewed)).value;
    var a, pre, admitted := Dir(scan.root), PrefixFor(members, prefix), Admitted(reviewed, allowExports);
    ScanExact(members, pre, Watched(reviewed));
    ScanArchived(members, pre, Watched(reviewed));
    ArchivedHashes(h, a);
    assert HashTree(h, a) == Dir(HashDir(h, scan.root));
    forall p <- scan.captured ensures At(a, p).Holds? && At(a, p).value.Blob? && At(a, p).value.content == scan.captured[p] {
      CapturedHeld(scan, members, pre, Watched(reviewed), p);
    }
    forall p | p in Watched(reviewed) && At(a, p).Holds? && At(a, p).value.Blob? ensures p in scan.captured {
      HeldCaptured(scan, members, pre, Watched(reviewed), p);
    }
    ExportsComplete(h, scan, a, g, admitted, lookup, HashTree(h, a), admitted);
    var n := ExportAll(h, HashTree(h, a), scan.captured, RootId(h, HashTree(h, g)), lookup, admitted).value;
    forall p ensures AgreesAt(n, HashTree(h, g), p) {
      BetweenAgrees(h, n, a, g, admitted, p);
    }
    AgreesMinusGitlinks(n, HashTree(h, g));
    VisitComplete(h, n, HashTree(h, g), [], lookup);
    VisitReaches(h, n, RootId(h, HashTree(h, g)), [], lookup);
  }

  /** With honest metadata the verdict is exact: the run verifies the archive if and only if
      the commit record is authentic, the members are well formed and the archive is
      faithful to the pinned contents; or two named objects collide. */
  lemma VerdictExact(h: Hash, commit: Oid, record: CommitRecord, members: seq<Member>, prefix: Option<bytes>,
                     reviewed: seq<Reviewed>, allowExports: bool, lookup: Lookup, g: Contents)
    requires PathsGiven(reviewed) && Separate(reviewed) && Authenticated(h, lookup)
    requires g.Dir? && ValidNode(HashTree(h, g)) && Honest(h, HashTree(h, g), [], lookup)
    ensures var run := RunVerifier(h, commit, RootId(h, HashTree(h, g)), record, members, prefix, reviewed, allowExports, lookup);
            var scan := ScanArchive(members, prefix, Watched(reviewed));
            var admitted := Admitted(reviewed, allowExports);
            || (run.Some? <==> CommitOk(h, record, commit, RootId(h, HashTree(h, g))) && scan.Some?
                               && forall p :: Faithful(Dir(scan.value.root), g, admitted, p))
            || (run.Some? && Collision(h, RunObjects(h, run.value), PinnedObjects(h, g)))
  {
    var run := RunVerifier(h, commit, RootId(h, HashTree(h, g)), record, members, prefix, reviewed, allowExports, lookup);
    var scan, admitted := ScanArchive(members, prefix, Watched(reviewed)), Admitted(reviewed, allowExports);
    if run.Some? {
      VerifiedMeansPinned(h, commit, record, members, prefix, reviewed, allowExports, lookup, g);
    } else if CommitOk(h, record, commit, RootId(h, HashTree(h, g))) && scan.Some? && forall p :: Faithful(Dir(scan.value.root), g, admitted, p) {
      FaithfulArchiveVerifies(h, commit, record, members, prefix, reviewed, allowExports, lookup, g);
    }
  }
}
