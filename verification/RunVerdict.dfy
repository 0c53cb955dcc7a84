/** What the verdict of the run on its mutable tree and through its own memo means. */
module RunVerdict {
  import opened Bytes
  import opened Results
  import opened GitObjects
  import opened Trees
  import opened ArchiveScan
  import opened Reconcile
  import opened Verifier
  import opened PinnedContents
  import opened Directories
  import opened VerifierRun

  lemma RunMonotone(h: Hash, commit: Oid, pinnedTree: Oid, record: CommitRecord, members: seq<Member>, prefix: Option<bytes>,
                    reviewed: seq<Reviewed>, allowExports: bool, l: Lookup, k: Lookup)
    requires PathsGiven(reviewed) && Extends(l, k)
    requires RunVerifier(h, commit, pinnedTree, record, members, prefix, reviewed, allowExports, l).Some?
    ensures RunVerifier(h, commit, pinnedTree, record, members, prefix, reviewed, allowExports, k)
            == RunVerifier(h, commit, pinnedTree, record, members, prefix, reviewed, allowExports, l)
  {
    var v := RunVerifier(h, commit, pinnedTree, record, members, prefix, reviewed, allowExports, l).value;
    ExportAllMonotone(h, Dir(HashDir(h, v.scan.root)), v.scan.captured, pinnedTree, l, k, if allowExports then reviewed else []);
    VisitMonotone(h, v.exported, pinnedTree, [], l, k);
  }

  /** Filling a memo on the way costs no verdict: where a run that asks the source every time,
      at whatever path, ends verified, so does this one, with the same tree and the same
      gitlinks; or two documents for one identifier collide. */
  lemma MemoCostsNothing(h: Hash, fetch: Fetch, cache: map<Oid, seq<Entry>>, commit: Oid, pinnedTree: Oid, record: CommitRecord,
                         members: seq<Member>, prefix: Option<bytes>, reviewed: seq<Reviewed>, allowExports: bool,
                         ok: bool, node: map<bytes, Node>, links: seq<Gitlink>)
    requires PathsGiven(reviewed) && CacheValid(h, fetch, cache)
    requires Outcome(h, fetch, cache, commit, pinnedTree, record, members, prefix, reviewed, allowExports, ok, node, links)
    ensures var asking := RunVerifier(h, commit, pinnedTree, record, members, prefix, reviewed, allowExports, Uncached(h, fetch));
            || (asking.Some? ==> ok && asking.value.final == Visited(Dir(node), LinkSet(links)))
            || LookupsCollide(h, Uncached(h, fetch), Cached(h, fetch, cache))
  {
    CachedExtends(h, fetch, cache);
    var asking := RunVerifier(h, commit, pinnedTree, record, members, prefix, reviewed, allowExports, Uncached(h, fetch));
    if asking.Some? && Extends(Uncached(h, fetch), Cached(h, fetch, cache)) {
      RunMonotone(h, commit, pinnedTree, record, members, prefix, reviewed, allowExports, Uncached(h, fetch), Cached(h, fetch, cache));
      assert ok;
      RunMonotone(h, commit, pinnedTree, record, members, prefix, reviewed, allowExports, Remembered(cache), Cached(h, fetch, cache));
    }
  }

  /** What the run holds when it has ended verified. */
  ghost function Ended(h: Hash, cache: map<Oid, seq<Entry>>, commit: Oid, pinnedTree: Oid, record: CommitRecord, members: seq<Member>,
                       prefix: Option<bytes>, reviewed: seq<Reviewed>, allowExports: bool): Option<Verified>
    requires PathsGiven(reviewed)
  {
    RunVerifier(h, commit, pinnedTree, record, members, prefix, reviewed, allowExports, Remembered(cache))
  }

  /** Soundness. Whatever the source serves at each path, a run that ends verified had an archive
      faithful to the pinned contents g at every path, and reports exactly g's submodules; or
      an object the run hashed and an object of g are a collision. */
  lemma VerifiedIsPinned(h: Hash, fetch: Fetch, cache: map<Oid, seq<Entry>>, commit: Oid, record: CommitRecord,
                         members: seq<Member>, prefix: Option<bytes>, reviewed: seq<Reviewed>, allowExports: bool,
                         node: map<bytes, Node>, links: seq<Gitlink>, g: Contents)
    requires PathsGiven(reviewed) && Separate(reviewed) && CacheValid(h, fetch, cache)
    requires g.Dir? && ValidNode(HashTree(h, g))
    requires Outcome(h, fetch, cache, commit, RootId(h, HashTree(h, g)), record, members, prefix, reviewed, allowExports, true, node, links)
    ensures var scan := ScanArchive(members, prefix, Watched(reviewed));
            var end := Ended(h, cache, commit, RootId(h, HashTree(h, g)), record, members, prefix, reviewed, allowExports);
            end.Some? && scan.Some?
            && (|| ((forall p :: Faithful(Dir(scan.value.root), g, Admitted(reviewed, allowExports), p))
                    && LinkSet(links) == GitlinksOf(HashTree(h, g), []))
                || Collision(h, RunObjects(h, end.value), PinnedObjects(h, g)))
  {
    CachedAuthenticated(h, fetch, cache);
    VerifiedMeansPinned(h, commit, record, members, prefix, reviewed, allowExports, Remembered(cache), g);
  }

  /** The verdict of the run, exactly. Where the source, asked for a tree at its own path, tells
      the truth about g, the run ends verified if and only if the commit record is authentic,
      the members are well formed and the archive is faithful to g at every path; or two
      named objects, or two documents for one identifier, collide. What the source serves at
      other paths does not matter. */
  lemma OutcomeExact(h: Hash, fetch: Fetch, cache: map<Oid, seq<Entry>>, commit: Oid, record: CommitRecord,
                     members: seq<Member>, prefix: Option<bytes>, reviewed: seq<Reviewed>, allowExports: bool,
                     ok: bool, node: map<bytes, Node>, links: seq<Gitlink>, g: Contents)
    requires PathsGiven(reviewed) && Separate(reviewed) && CacheValid(h, fetch, cache)
    requires g.Dir? && ValidNode(HashTree(h, g)) && Honest(h, HashTree(h, g), [], Uncached(h, fetch))
    requires Outcome(h, fetch, cache, commit, RootId(h, HashTree(h, g)), record, members, prefix, reviewed, allowExports, ok, node, links)
    ensures var scan := ScanArchive(members, prefix, Watched(reviewed));
            var end := Ended(h, cache, commit, RootId(h, HashTree(h, g)), record, members, prefix, reviewed, allowExports);
            || (ok <==> CommitOk(h, record, commit, RootId(h, HashTree(h, g))) && scan.Some?
                        && forall p :: Faithful(Dir(scan.value.root), g, Admitted(reviewed, allowExports), p))
            || (ok && end.Some? && Collision(h, RunObjects(h, end.value), PinnedObjects(h, g)))
            || LookupsCollide(h, Uncached(h, fetch), Cached(h, fetch, cache))
  {
    if ok {
      VerifiedIsPinned(h, fetch, cache, commit, record, members, prefix, reviewed, allowExports, node, links, g);
    } else {
      MemoHonest(h, fetch, cache, HashTree(h, g));
      if Honest(h, HashTree(h, g), [], Cached(h, fetch, cache)) {
        RefusedMeansUnfaithful(h, Cached(h, fetch, cache), commit, record, members, prefix, reviewed, allowExports, g);
      }
    }
  }

  lemma RefusedMeansUnfaithful(h: Hash, lookup: Lookup, commit: Oid, record: CommitRecord, members: seq<Member>, prefix: Option<bytes>,
                               reviewed: seq<Reviewed>, allowExports: bool, g: Contents)
    requires PathsGiven(reviewed) && Separate(reviewed)
    requires g.Dir? && ValidNode(HashTree(h, g)) && Honest(h, HashTree(h, g), [], lookup)
    requires RunVerifier(h, commit, RootId(h, HashTree(h, g)), record, members, prefix, reviewed, allowExports, lookup).None?
    ensures var scan := ScanArchive(members, prefix, Watched(reviewed));
            !(CommitOk(h, record, commit, RootId(h, HashTree(h, g))) && scan.Some?
              && forall p :: Faithful(Dir(scan.value.root), g, Admitted(reviewed, allowExports), p))
  {
    var scan := ScanArchive(members, prefix, Watched(reviewed));
    if CommitOk(h, record, commit, RootId(h, HashTree(h, g))) && scan.Some?
       && forall p :: Faithful(Dir(scan.value.root), g, Admitted(reviewed, allowExports), p) {
      FaithfulArchiveVerifies(h, commit, record, members, prefix, reviewed, allowExports, lookup, g);
    }
  }
}
