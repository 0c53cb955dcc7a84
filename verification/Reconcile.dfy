/** Reconciling the archive's tree with the tree a pinned identifier names: prune where the
    identifiers agree, descend where they do not, and add only gitlinks. */
module Reconcile {
  import opened Bytes
  import opened Results
  import opened GitObjects
  import opened Trees

  // ---------- canonical metadata ----------

  /** The object type a metadata entry claims. */
  datatype ClaimedType = ClaimsTree | ClaimsBlob | ClaimsCommit | ClaimsOther

  /** One decoded entry of a metadata document. oid is None if it is not 40 lower-case hex digits. */
  datatype RawEntry = RawEntry(name: bytes, mode: int, claimed: ClaimedType, oid: Option<Oid>)
  datatype Document = Document(id: Oid, entries: seq<RawEntry>)

  function ModeFromInt(mode: int): Option<Mode> {
    if mode == 16384 then Some(TreeMode)          // 0o40000
    else if mode == 33188 then Some(FileMode)     // 0o100644
    else if mode == 33261 then Some(ExecMode)     // 0o100755
    else if mode == 40960 then Some(LinkMode)     // 0o120000
    else if mode == 57344 then Some(GitlinkMode)  // 0o160000
    else None
  }

  function TypeOfMode(mode: Mode): ClaimedType {
    match mode
    case TreeMode => ClaimsTree
    case GitlinkMode => ClaimsCommit
    case _ => ClaimsBlob
  }

  function ParseEntry(raw: RawEntry): Option<Entry> {
    match (ModeFromInt(raw.mode), raw.oid)
    case (Some(mode), Some(oid)) =>
      if ValidName(raw.name) && raw.claimed == TypeOfMode(mode) then Some(Entry(raw.name, Stamp(mode, oid))) else None
    case _ => None
  }

  /** The dictionary the entries fill, in document order; None for a malformed or repeated entry. */
  function ParseEntries(raw: seq<RawEntry>): Option<seq<Entry>> {
    if raw == [] then Some([])
    else
      match (ParseEntries(raw[..|raw| - 1]), ParseEntry(raw[|raw| - 1]))
      case (Some(done), Some(e)) => if forall d <- done :: d.name != e.name then Some(done + [e]) else None
      case _ => None
  }

  function CanonicalEntries(h: Hash, doc: Document, expected: Oid): Option<seq<Entry>> {
    if doc.id != expected then None
    else
      match ParseEntries(doc.entries)
      case None => None
      case Some(s) => if ObjectId(h, TreeKind, TreePayload(s)) == expected then Some(s) else None
  }

  function EntryMap(s: seq<Entry>): Entries {
    if s == [] then map[] else EntryMap(s[..|s| - 1])[s[|s| - 1].name := s[|s| - 1].stamp]
  }

  lemma {:induction false} ParsedListing(raw: seq<RawEntry>)
    requires ParseEntries(raw).Some?
    ensures var s := ParseEntries(raw).value; Listing(s, EntryMap(s)) && ValidEntries(EntryMap(s))
  {
    if raw != [] {
      ParsedListing(raw[..|raw| - 1]);
      var s := ParseEntries(raw).value;
      var done, e := s[..|s| - 1], s[|s| - 1];
      assert s == done + [e] && done == ParseEntries(raw[..|raw| - 1]).value;
      assert forall d :: d in s <==> d in done || d == e;
    }
  }

  /** What an accepted document is: the listing of a map whose identifier was asked for. */
  lemma CanonicalAuthentic(h: Hash, doc: Document, expected: Oid)
    requires CanonicalEntries(h, doc, expected).Some?
    ensures var s := CanonicalEntries(h, doc, expected).value;
            Listing(s, EntryMap(s)) && ValidEntries(EntryMap(s)) && TreeId(h, EntryMap(s)) == expected
  {
    ParsedListing(doc.entries);
    var s := ParseEntries(doc.entries).value;
    TreeIdOfListing(h, s, EntryMap(s));
  }

  /** The entries of the tree with an identifier, asked for at a path. */
  type Lookup = (Path, Oid) -> Option<Entries>

  ghost predicate Authentic(h: Hash, m: Entries, oid: Oid) {
    ValidEntries(m) && TreeId(h, m) == oid
  }

  ghost predicate Authenticated(h: Hash, lookup: Lookup) {
    forall p, o :: lookup(p, o).Some? ==> Authentic(h, lookup(p, o).value, o)
  }

  // ---------- the walk ----------

  datatype Gitlink = Gitlink(path: Path, commit: Oid)
  datatype Visited = Visited(node: Node, links: set<Gitlink>)

  ghost predicate AllReconciled(results: map<bytes, Option<Visited>>) {
    forall n <- results :: results[n].Some?
  }

  ghost function Rebuilt(results: map<bytes, Option<Visited>>): (r: Node)
    requires AllReconciled(results)
    ensures r.Dir?
  {
    Dir(map n | n in results :: results[n].value.node)
  }

  /** The directory and report that come of reconciling every canonical entry. */
  ghost function Assemble(h: Hash, results: map<bytes, Option<Visited>>, expected: Oid): Option<Visited> {
    if !AllReconciled(results) || RootId(h, Rebuilt(results)) != expected then None
    else Some(Visited(Rebuilt(results), set n, l | n in results && l in results[n].value.links :: l))
  }

  ghost function Visit(h: Hash, node: Node, expected: Oid, path: Path, lookup: Lookup): Option<Visited>
    requires node.Dir?
    decreases node, 1
  {
    if RootId(h, node) == expected then Some(Visited(node, {}))
    else
      match lookup(path, expected)
      case None => None
      case Some(canonical) =>
        if !(node.children.Keys <= canonical.Keys) then None
        else Assemble(h, VisitEntries(h, node, canonical, path, lookup), expected)
  }

  ghost function VisitEntries(h: Hash, node: Node, canonical: Entries, path: Path, lookup: Lookup): map<bytes, Option<Visited>>
    requires node.Dir?
    decreases node, 0, 1
  {
    map n | n in canonical :: VisitEntry(h, node, n, canonical[n], path, lookup)
  }

  ghost function VisitEntry(h: Hash, node: Node, n: bytes, stamp: Stamp, path: Path, lookup: Lookup): Option<Visited>
    requires node.Dir?
    decreases node, 0, 0
  {
    if stamp.mode == GitlinkMode then
      if n !in node.children || node.children[n] == Dir(map[]) then
        Some(Visited(Leaf(stamp), {Gitlink(path + [n], stamp.oid)}))
      else None
    else if stamp.mode == TreeMode then
      if n in node.children && node.children[n].Dir? then Visit(h, node.children[n], stamp.oid, path + [n], lookup)
      else None
    else if n in node.children && node.children[n] == Leaf(stamp) then Some(Visited(Leaf(stamp), {}))
    else None
  }

  lemma VisitReaches(h: Hash, node: Node, expected: Oid, path: Path, lookup: Lookup)
    requires node.Dir? && Visit(h, node, expected, path, lookup).Some?
    ensures var v := Visit(h, node, expected, path, lookup).value; v.node.Dir? && RootId(h, v.node) == expected
  {
  }

  lemma EntryReaches(h: Hash, node: Node, n: bytes, stamp: Stamp, path: Path, lookup: Lookup)
    requires node.Dir? && VisitEntry(h, node, n, stamp, path, lookup).Some?
    ensures NodeStamp(h, VisitEntry(h, node, n, stamp, path, lookup).value.node) == stamp
  {
    if stamp.mode == TreeMode {
      VisitReaches(h, node.children[n], stamp.oid, path + [n], lookup);
    }
  }

  /** The check after the loop can never fail: once every entry is reconciled, the
      directory's entries are the authenticated ones. */
  lemma LastCheckNeverFails(h: Hash, node: Node, expected: Oid, path: Path, lookup: Lookup)
    requires node.Dir? && Authenticated(h, lookup) && lookup(path, expected).Some?
    requires AllReconciled(VisitEntries(h, node, lookup(path, expected).value, path, lookup))
    ensures RootId(h, Rebuilt(VisitEntries(h, node, lookup(path, expected).value, path, lookup))) == expected
  {
    var canonical := lookup(path, expected).value;
    var results := VisitEntries(h, node, canonical, path, lookup);
    var node' := Rebuilt(results);
    assert Authentic(h, canonical, expected);
    forall n <- canonical ensures NodeStamp(h, node'.children[n]) == canonical[n] {
      assert results[n].Some?;
      EntryReaches(h, node, n, canonical[n], path, lookup);
    }
    assert NodeEntries(h, node') == canonical;
  }

  // ---------- what reconciling changes ----------

  ghost predicate HasNoGitlinks(t: Node) {
    match t
    case Leaf(s) => s.mode != GitlinkMode
    case Dir(c) => forall n <- c :: HasNoGitlinks(c[n])
  }

  /** a is g without its gitlinks: at each of them a has nothing, or an empty directory. */
  ghost predicate MinusGitlinks(a: Node, g: Node)
    decreases g
  {
    match g
    case Leaf(s) => a == g && s.mode != GitlinkMode
    case Dir(c) =>
      && a.Dir?
      && a.children.Keys <= c.Keys
      && forall n <- c ::
           if c[n].Leaf? && c[n].value.mode == GitlinkMode then n !in a.children || a.children[n] == Dir(map[])
           else n in a.children && MinusGitlinks(a.children[n], c[n])
  }

  ghost function GitlinksOf(t: Node, path: Path): set<Gitlink> {
    match t
    case Leaf(s) => if s.mode == GitlinkMode then {Gitlink(path, s.oid)} else {}
    case Dir(c) => set n, l | n in c && l in GitlinksOf(c[n], path + [n]) :: l
  }

  lemma {:induction false} NothingMissing(t: Node, path: Path)
    requires HasNoGitlinks(t)
    ensures MinusGitlinks(t, t) && GitlinksOf(t, path) == {}
  {
    if t.Dir? {
      forall n <- t.children ensures MinusGitlinks(t.children[n], t.children[n]) && GitlinksOf(t.children[n], path + [n]) == {} {
        NothingMissing(t.children[n], path + [n]);
      }
    }
  }

  /** A successful walk changes gitlink positions only, and reports exactly the gitlinks of
      the tree it ends with, whose identifier is the expected one. */
  lemma {:induction false} VisitAddsOnlyGitlinks(h: Hash, node: Node, expected: Oid, path: Path, lookup: Lookup)
    requires node.Dir? && HasNoGitlinks(node) && Visit(h, node, expected, path, lookup).Some?
    ensures var v := Visit(h, node, expected, path, lookup).value;
            v.node.Dir? && RootId(h, v.node) == expected
            && MinusGitlinks(node, v.node) && v.links == GitlinksOf(v.node, path)
    decreases node
  {
    var v := Visit(h, node, expected, path, lookup).value;
    if RootId(h, node) == expected {
      NothingMissing(node, path);
    } else {
      var canonical := lookup(path, expected).value;
      var results := VisitEntries(h, node, canonical, path, lookup);
      assert v.node == Rebuilt(results);
      var c := v.node.children;
      forall n <- canonical
        ensures if c[n].Leaf? && c[n].value.mode == GitlinkMode then n !in node.children || node.children[n] == Dir(map[])
                else n in node.children && MinusGitlinks(node.children[n], c[n])
        ensures VisitEntry(h, node, n, canonical[n], path, lookup).value.links == GitlinksOf(c[n], path + [n])
      {
        assert results[n].Some?;
        if canonical[n].mode == TreeMode {
          VisitAddsOnlyGitlinks(h, node.children[n], canonical[n].oid, path + [n], lookup);
        }
      }
      assert v.links == GitlinksOf(v.node, path);
    }
  }

  lemma {:induction false} VisitKeepsValid(h: Hash, node: Node, expected: Oid, path: Path, lookup: Lookup)
    requires node.Dir? && ValidNode(node) && Authenticated(h, lookup)
    requires Visit(h, node, expected, path, lookup).Some?
    ensures ValidNode(Visit(h, node, expected, path, lookup).value.node)
    decreases node
  {
    if RootId(h, node) != expected {
      var canonical := lookup(path, expected).value;
      assert Authentic(h, canonical, expected);
      var results := VisitEntries(h, node, canonical, path, lookup);
      forall n <- canonical ensures results[n].Some? && ValidNode(VisitEntry(h, node, n, canonical[n], path, lookup).value.node) {
        if canonical[n].mode == TreeMode {
          VisitKeepsValid(h, node.children[n], canonical[n].oid, path + [n], lookup);
        }
      }
    }
  }

  // ---------- soundness and completeness ----------

  /** Soundness. If the walk accepts a tree against the identifier of g, the tree is g
      without gitlinks, what it is completed to is g, and the report is g's gitlinks;
      otherwise two of the hashed tree objects collide. */
  lemma VisitSound(h: Hash, node: Node, g: Node, path: Path, lookup: Lookup)
    requires node.Dir? && g.Dir? && ValidNode(node) && ValidNode(g) && HasNoGitlinks(node)
    requires Authenticated(h, lookup) && Visit(h, node, RootId(h, g), path, lookup).Some?
    ensures var v := Visit(h, node, RootId(h, g), path, lookup).value;
            || (v.node == g && MinusGitlinks(node, g) && v.links == GitlinksOf(g, path))
            || Collision(h, TreeObjects(h, v.node), TreeObjects(h, g))
  {
    VisitAddsOnlyGitlinks(h, node, RootId(h, g), path, lookup);
    VisitKeepsValid(h, node, RootId(h, g), path, lookup);
    MerkleInjective(h, Visit(h, node, RootId(h, g), path, lookup).value.node, g);
  }

  /** The metadata tells the truth about every directory of g. */
  ghost predicate Honest(h: Hash, g: Node, path: Path, lookup: Lookup) {
    match g
    case Leaf(_) => true
    case Dir(c) =>
      && lookup(path, RootId(h, g)) == Some(NodeEntries(h, g))
      && forall n <- c :: Honest(h, c[n], path + [n], lookup)
  }

  /** Completeness. With honest metadata the walk accepts every archive of g that lacks
      only gitlinks. */
  lemma {:induction false} VisitComplete(h: Hash, node: Node, g: Node, path: Path, lookup: Lookup)
    requires node.Dir? && g.Dir? && MinusGitlinks(node, g) && Honest(h, g, path, lookup)
    requires ValidNode(g)
    ensures Visit(h, node, RootId(h, g), path, lookup).Some?
    decreases node
  {
    if RootId(h, node) != RootId(h, g) {
      var canonical := NodeEntries(h, g);
      forall n <- canonical
        ensures VisitEntry(h, node, n, canonical[n], path, lookup).Some?
        ensures NodeStamp(h, VisitEntry(h, node, n, canonical[n], path, lookup).value.node) == canonical[n]
      {
        EntryComplete(h, node, g, n, path, lookup);
        EntryReaches(h, node, n, canonical[n], path, lookup);
      }
      assert AllReconciled(VisitEntries(h, node, canonical, path, lookup));
      VisitAssembles(h, node, RootId(h, g), path, lookup, canonical);
    }
  }

  /** Entries that all reach their stamps make up the directory asked for. */
  lemma VisitAssembles(h: Hash, node: Node, expected: Oid, path: Path, lookup: Lookup, canonical: Entries)
    requires node.Dir? && RootId(h, node) != expected && lookup(path, expected) == Some(canonical)
    requires node.children.Keys <= canonical.Keys && TreeId(h, canonical) == expected
    requires AllReconciled(VisitEntries(h, node, canonical, path, lookup))
    requires forall n <- canonical ::
               var v := VisitEntry(h, node, n, canonical[n], path, lookup); v.Some? && NodeStamp(h, v.value.node) == canonical[n]
    ensures Visit(h, node, expected, path, lookup).Some?
  {
    assert NodeEntries(h, Rebuilt(VisitEntries(h, node, canonical, path, lookup))) == canonical;
  }

  lemma EntryComplete(h: Hash, node: Node, g: Node, n: bytes, path: Path, lookup: Lookup)
    requires node.Dir? && g.Dir? && MinusGitlinks(node, g) && Honest(h, g, path, lookup)
    requires ValidNode(g) && n in g.children
    ensures VisitEntry(h, node, n, NodeStamp(h, g.children[n]), path, lookup).Some?
    decreases node, 0
  {
    var c := g.children[n];
    if c.Dir? {
      VisitComplete(h, node.children[n], c, path + [n], lookup);
    } else if c.value.mode != GitlinkMode {
      assert MinusGitlinks(node.children[n], c);
    }
  }

  /** With honest, authenticated metadata, acceptance is exactly the relation MinusGitlinks,
      unless tree objects of the accepted tree and of g collide. */
  lemma VisitExact(h: Hash, node: Node, g: Node, lookup: Lookup)
    requires node.Dir? && g.Dir? && ValidNode(node) && ValidNode(g) && HasNoGitlinks(node)
    requires Authenticated(h, lookup) && Honest(h, g, [], lookup)
    ensures var v := Visit(h, node, RootId(h, g), [], lookup);
            || (v.Some? <==> MinusGitlinks(node, g))
            || (v.Some? && Collision(h, TreeObjects(h, v.value.node), TreeObjects(h, g)))
  {
    if MinusGitlinks(node, g) {
      VisitComplete(h, node, g, [], lookup);
    }
    if Visit(h, node, RootId(h, g), [], lookup).Some? {
      VisitSound(h, node, g, [], lookup);
    }
  }

  // ---------- which document a tree came from does not matter ----------

  /** Two sources answered one request with different trees of one identifier. */
  ghost predicate LookupsCollide(h: Hash, l: Lookup, k: Lookup) {
    exists p, o :: l(p, o).Some? && k(p, o).Some?
      && Collision(h, {TreeBytes(l(p, o).value)}, {TreeBytes(k(p, o).value)})
  }

  lemma AgreeOrCollide(h: Hash, l: Lookup, k: Lookup, p: Path, o: Oid)
    requires Authenticated(h, l) && Authenticated(h, k)
    requires l(p, o).Some? && k(p, o).Some? && !LookupsCollide(h, l, k)
    ensures l(p, o) == k(p, o)
  {
    assert Authentic(h, l(p, o).value, o) && Authentic(h, k(p, o).value, o);
    TreeIdInjective(h, l(p, o).value, k(p, o).value);
  }

  /** Two authenticated sources that both lead to a result lead to the same one, whatever else
      they could or could not have answered. */
  lemma {:induction false} SourceDoesNotMatter(h: Hash, node: Node, expected: Oid, path: Path, l: Lookup, k: Lookup)
    requires node.Dir? && Authenticated(h, l) && Authenticated(h, k)
    requires Visit(h, node, expected, path, l).Some? && Visit(h, node, expected, path, k).Some?
    ensures Visit(h, node, expected, path, l) == Visit(h, node, expected, path, k) || LookupsCollide(h, l, k)
    decreases node
  {
    if !LookupsCollide(h, l, k) && RootId(h, node) != expected {
      AgreeOrCollide(h, l, k, path, expected);
      var canonical := l(path, expected).value;
      forall n <- canonical
        ensures VisitEntry(h, node, n, canonical[n], path, l) == VisitEntry(h, node, n, canonical[n], path, k)
      {
        assert VisitEntries(h, node, canonical, path, l)[n].Some? && VisitEntries(h, node, canonical, path, k)[n].Some?;
        EntrySourceDoesNotMatter(h, node, n, canonical[n], path, l, k);
      }
      assert VisitEntries(h, node, canonical, path, l) == VisitEntries(h, node, canonical, path, k);
    }
  }

  lemma EntrySourceDoesNotMatter(h: Hash, node: Node, n: bytes, stamp: Stamp, path: Path, l: Lookup, k: Lookup)
    requires node.Dir? && Authenticated(h, l) && Authenticated(h, k) && !LookupsCollide(h, l, k)
    requires VisitEntry(h, node, n, stamp, path, l).Some? && VisitEntry(h, node, n, stamp, path, k).Some?
    ensures VisitEntry(h, node, n, stamp, path, l) == VisitEntry(h, node, n, stamp, path, k)
    decreases node, 0
  {
    if stamp.mode == TreeMode {
      SourceDoesNotMatter(h, node.children[n], stamp.oid, path + [n], l, k);
    }
  }
}
