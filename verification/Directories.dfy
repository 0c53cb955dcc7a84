/** The verifier's mutable tree and its metadata memo, proved to compute what the functions
    of ArchiveScan and Reconcile say. */
module Directories {
  import opened Bytes
  import opened Results
  import opened GitObjects
  import opened Trees
  import opened ArchiveScan
  import opened Reconcile

  datatype Child = Sub(dir: Directory) | Held(stamp: Stamp)

  // ---------- the metadata memo ----------

  type Fetch = (Path, Oid) -> Option<Document>

  /** What one document, fetched for a path, authenticates. */
  function FromDocument(h: Hash, fetch: Fetch, p: Path, o: Oid): Option<seq<Entry>> {
    match fetch(p, o)
    case None => None
    case Some(doc) => CanonicalEntries(h, doc, o)
  }

  /** Asking the source every time. */
  function Uncached(h: Hash, fetch: Fetch): Lookup {
    (p: Path, o: Oid) =>
      match FromDocument(h, fetch, p, o)
      case None => None
      case Some(s) => Some(EntryMap(s))
  }

  /** Asking the memo, and the source for what it lacks. */
  function Cached(h: Hash, fetch: Fetch, cache: map<Oid, seq<Entry>>): Lookup {
    (p: Path, o: Oid) => if o in cache then Some(EntryMap(cache[o])) else Uncached(h, fetch)(p, o)
  }

  /** Asking only the memo. */
  function Remembered(cache: map<Oid, seq<Entry>>): Lookup {
    (p: Path, o: Oid) => if o in cache then Some(EntryMap(cache[o])) else None
  }

  /** Every remembered listing came from some document for its identifier. */
  ghost predicate CacheValid(h: Hash, fetch: Fetch, cache: map<Oid, seq<Entry>>) {
    forall o <- cache ::
      && Listing(cache[o], EntryMap(cache[o]))
      && exists q :: FromDocument(h, fetch, q, o) == Some(cache[o])
  }

  lemma CachedAuthenticated(h: Hash, fetch: Fetch, cache: map<Oid, seq<Entry>>)
    requires CacheValid(h, fetch, cache)
    ensures Authenticated(h, Cached(h, fetch, cache))
    ensures Authenticated(h, Uncached(h, fetch))
    ensures Authenticated(h, Remembered(cache))
  {
    forall p, o | FromDocument(h, fetch, p, o).Some?
      ensures Authentic(h, EntryMap(FromDocument(h, fetch, p, o).value), o)
    {
      CanonicalAuthentic(h, fetch(p, o).value, o);
    }
    forall o <- cache ensures Authentic(h, EntryMap(cache[o]), o) {
      var q :| FromDocument(h, fetch, q, o) == Some(cache[o]);
    }
    forall p, o | Cached(h, fetch, cache)(p, o).Some? ensures Authentic(h, Cached(h, fetch, cache)(p, o).value, o) {
      if o !in cache {
        assert Cached(h, fetch, cache)(p, o) == Uncached(h, fetch)(p, o);
      }
    }
  }

  class Metadata {
    const h: Hash
    const fetch: Fetch
    var cache: map<Oid, seq<Entry>>

    ghost predicate Valid()
      reads this
    {
      CacheValid(h, fetch, cache)
    }

    constructor (h: Hash, fetch: Fetch)
      ensures Valid() && cache == map[] && this.h == h && this.fetch == fetch
    {
      this.h, this.fetch, cache := h, fetch, map[];
    }

    /** The authenticated entries of a tree, fetched at most once per identifier. */
    method Tree(path: Path, expected: Oid) returns (entries: Option<seq<Entry>>)
      requires Valid()
      modifies this
      ensures Valid() && CacheGrows(old(cache), cache)
      ensures entries.Some? ==> expected in cache && cache[expected] == entries.value
      ensures entries.None? ==> cache == old(cache) && Cached(h, fetch, cache)(path, expected).None?
    {
      if expected !in cache {
        entries := FromDocument(h, fetch, path, expected);
        if entries.Some? {
          CanonicalAuthentic(h, fetch(path, expected).value, expected);
          cache := cache[expected := entries.value];
        } else {
          assert Uncached(h, fetch)(path, expected).None?;
        }
      } else {
        entries := Some(cache[expected]);
      }
    }
  }

  /** A source that knows more answers alike wherever the other answered. */
  ghost predicate Extends(l: Lookup, k: Lookup) {
    forall p, o :: l(p, o).Some? ==> k(p, o) == l(p, o)
  }

  lemma {:induction false} VisitMonotone(h: Hash, node: Node, expected: Oid, path: Path, l: Lookup, k: Lookup)
    requires node.Dir? && Extends(l, k) && Visit(h, node, expected, path, l).Some?
    ensures Visit(h, node, expected, path, k) == Visit(h, node, expected, path, l)
    decreases node
  {
    if RootId(h, node) != expected {
      var canonical := l(path, expected).value;
      assert k(path, expected) == l(path, expected);
      forall n <- canonical
        ensures VisitEntry(h, node, n, canonical[n], path, k) == VisitEntry(h, node, n, canonical[n], path, l)
      {
        assert VisitEntries(h, node, canonical, path, l)[n].Some?;
        EntryMonotone(h, node, n, canonical[n], path, l, k);
      }
      assert VisitEntries(h, node, canonical, path, k) == VisitEntries(h, node, canonical, path, l);
    }
  }

  lemma EntryMonotone(h: Hash, node: Node, n: bytes, stamp: Stamp, path: Path, l: Lookup, k: Lookup)
    requires node.Dir? && Extends(l, k) && VisitEntry(h, node, n, stamp, path, l).Some?
    ensures VisitEntry(h, node, n, stamp, path, k) == VisitEntry(h, node, n, stamp, path, l)
    decreases node, 0
  {
    if stamp.mode == TreeMode {
      VisitMonotone(h, node.children[n], stamp.oid, path + [n], l, k);
    }
  }

  lemma {:induction false} HonestMonotone(h: Hash, g: Node, path: Path, l: Lookup, k: Lookup)
    requires Extends(l, k) && Honest(h, g, path, l)
    ensures Honest(h, g, path, k)
    decreases g
  {
    if g.Dir? {
      assert k(path, RootId(h, g)) == l(path, RootId(h, g));
      forall n <- g.children ensures Honest(h, g.children[n], path + [n], k) {
        HonestMonotone(h, g.children[n], path + [n], l, k);
      }
    }
  }

  /** Whatever the source answers at a path, the memo answers too, and the same, however it was
      filled; or two documents for one identifier collide. */
  lemma CachedExtends(h: Hash, fetch: Fetch, cache: map<Oid, seq<Entry>>)
    requires CacheValid(h, fetch, cache)
    ensures Extends(Uncached(h, fetch), Cached(h, fetch, cache)) || LookupsCollide(h, Uncached(h, fetch), Cached(h, fetch, cache))
  {
    CachedAuthenticated(h, fetch, cache);
    var l, k := Uncached(h, fetch), Cached(h, fetch, cache);
    if !LookupsCollide(h, l, k) {
      forall p, o | l(p, o).Some? ensures k(p, o) == l(p, o) {
        AgreeOrCollide(h, l, k, p, o);
      }
    }
  }

  /** A remembered tree that the source refuses at some path. */
  ghost predicate PathMatters(h: Hash, fetch: Fetch, cache: map<Oid, seq<Entry>>) {
    exists p, o :: o in cache && Uncached(h, fetch)(p, o).None?
  }

  /** The memo never loses or alters a result of asking every time, at any path and however the
      source's answers depend on the path; and it gives a result where that gives none only if
      the source refuses at one path what it gave at another. Else two documents for one
      identifier collide. */
  lemma MemoTransparent(h: Hash, fetch: Fetch, cache: map<Oid, seq<Entry>>, node: Node, expected: Oid, path: Path)
    requires node.Dir? && CacheValid(h, fetch, cache)
    ensures var asked, remembered := Visit(h, node, expected, path, Uncached(h, fetch)), Visit(h, node, expected, path, Cached(h, fetch, cache));
            || asked == remembered
            || (asked.None? && PathMatters(h, fetch, cache))
            || LookupsCollide(h, Uncached(h, fetch), Cached(h, fetch, cache))
  {
    var l, k := Uncached(h, fetch), Cached(h, fetch, cache);
    CachedExtends(h, fetch, cache);
    if !LookupsCollide(h, l, k) {
      if Visit(h, node, expected, path, l).Some? {
        VisitMonotone(h, node, expected, path, l, k);
      } else if !PathMatters(h, fetch, cache) && Visit(h, node, expected, path, k).Some? {
        assert forall p, o :: k(p, o).Some? ==> l(p, o).Some?;
        VisitMonotone(h, node, expected, path, k, l);
      }
    }
  }

  /** A source that tells the truth at every path still does through a memo. */
  lemma MemoHonest(h: Hash, fetch: Fetch, cache: map<Oid, seq<Entry>>, g: Node)
    requires CacheValid(h, fetch, cache) && Honest(h, g, [], Uncached(h, fetch))
    ensures Honest(h, g, [], Cached(h, fetch, cache)) || LookupsCollide(h, Uncached(h, fetch), Cached(h, fetch, cache))
  {
    CachedExtends(h, fetch, cache);
    if Extends(Uncached(h, fetch), Cached(h, fetch, cache)) {
      HonestMonotone(h, g, [], Uncached(h, fetch), Cached(h, fetch, cache));
    }
  }

  /** Every entry so far is reconciled, with these nodes and these gitlinks. */
  ghost predicate Progress(h: Hash, before: Node, done: seq<Entry>, path: Path, lookup: Lookup, node: map<bytes, Node>, links: set<Gitlink>)
    requires before.Dir?
  {
    && (forall e <- done ::
          var v := VisitEntry(h, before, e.name, e.stamp, path, lookup);
          v.Some? && e.name in node && v.value.node == node[e.name])
    && links == set e, l | e in done && VisitEntry(h, before, e.name, e.stamp, path, lookup).Some?
                           && l in VisitEntry(h, before, e.name, e.stamp, path, lookup).value.links :: l
  }

  /** Nothing else has changed. */
  ghost predicate Elsewhere(before: Node, done: seq<Entry>, node: map<bytes, Node>)
    requires before.Dir?
  {
    && node.Keys == before.children.Keys + (set e <- done :: e.name)
    && forall n <- before.children :: (forall e <- done :: e.name != n) ==> node[n] == before.children[n]
  }

  lemma EntryNames(s: seq<Entry>, m: Entries)
    requires Listing(s, m)
    ensures (set e <- s :: e.name) == m.Keys
  {
    forall n <- m ensures n in set e <- s :: e.name {
      assert Entry(n, m[n]) in s;
    }
  }

  lemma StillThere(before: Node, canonical: seq<Entry>, i: nat, node: map<bytes, Node>)
    requires before.Dir? && i < |canonical| && Listing(canonical, EntryMap(canonical))
    requires Elsewhere(before, canonical[..i], node)
    ensures var n := canonical[i].name;
            (forall d <- canonical[..i] :: d.name != n)
            && (n in node <==> n in before.children) && (n in node ==> node[n] == before.children[n])
  {
    ListingNames(canonical, EntryMap(canonical));
  }

  lemma ElsewhereStep(before: Node, done: seq<Entry>, e: Entry, node: map<bytes, Node>, n: Node)
    requires before.Dir? && Elsewhere(before, done, node)
    ensures Elsewhere(before, done + [e], node[e.name := n])
  {
    assert forall d :: d in done + [e] <==> d in done || d == e;
  }

  lemma LinkSetAdds(a: seq<Gitlink>, b: seq<Gitlink>)
    ensures LinkSet(a + b) == LinkSet(a) + LinkSet(b)
  {
  }

  lemma VisitPruned(h: Hash, node: Node, expected: Oid, path: Path, lookup: Lookup)
    requires node.Dir? && RootId(h, node) == expected
    ensures Visit(h, node, expected, path, lookup) == Some(Visited(node, LinkSet([])))
  {
    assert LinkSet([]) == {};
  }

  lemma VisitUnknown(h: Hash, node: Node, expected: Oid, path: Path, lookup: Lookup)
    requires node.Dir? && RootId(h, node) != expected && lookup(path, expected).None?
    ensures Visit(h, node, expected, path, lookup).None?
  {
  }

  lemma VisitExtra(h: Hash, node: Node, expected: Oid, path: Path, lookup: Lookup)
    requires node.Dir? && RootId(h, node) != expected && lookup(path, expected).Some?
    requires !(node.children.Keys <= lookup(path, expected).value.Keys)
    ensures Visit(h, node, expected, path, lookup).None?
  {
  }

  lemma VisitEntryRefused(h: Hash, node: Node, expected: Oid, path: Path, lookup: Lookup, n: bytes)
    requires node.Dir? && RootId(h, node) != expected && lookup(path, expected).Some?
    requires n in lookup(path, expected).value
    requires VisitEntry(h, node, n, lookup(path, expected).value[n], path, lookup).None?
    ensures Visit(h, node, expected, path, lookup).None?
  {
    assert VisitEntries(h, node, lookup(path, expected).value, path, lookup)[n].None?;
  }

  lemma VisitEntryLocal(h: Hash, node: Node, other: Node, n: bytes, stamp: Stamp, path: Path, lookup: Lookup)
    requires node.Dir? && other.Dir?
    requires n in node.children <==> n in other.children
    requires n in node.children ==> node.children[n] == other.children[n]
    ensures VisitEntry(h, node, n, stamp, path, lookup) == VisitEntry(h, other, n, stamp, path, lookup)
  {
  }

  lemma ProgressStep(h: Hash, before: Node, done: seq<Entry>, e: Entry, path: Path, l: Lookup, k: Lookup,
                     node: map<bytes, Node>, links: set<Gitlink>, v: Visited)
    requires before.Dir? && Extends(l, k) && Progress(h, before, done, path, l, node, links)
    requires forall d <- done :: d.name != e.name
    requires VisitEntry(h, before, e.name, e.stamp, path, k) == Some(v)
    ensures Progress(h, before, done + [e], path, k, node[e.name := v.node], links + v.links)
  {
    forall d | d in done + [e]
      ensures var w := VisitEntry(h, before, d.name, d.stamp, path, k); w.Some? && w.value.node == node[e.name := v.node][d.name]
      ensures d in done ==> VisitEntry(h, before, d.name, d.stamp, path, k) == VisitEntry(h, before, d.name, d.stamp, path, l)
    {
      if d in done {
        EntryMonotone(h, before, d.name, d.stamp, path, l, k);
      }
    }
  }

  lemma ProgressComplete(h: Hash, before: Node, canonical: seq<Entry>, expected: Oid, path: Path, lookup: Lookup,
                         node: map<bytes, Node>, links: set<Gitlink>)
    requires before.Dir? && RootId(h, before) != expected && Authenticated(h, lookup)
    requires lookup(path, expected) == Some(EntryMap(canonical)) && Listing(canonical, EntryMap(canonical))
    requires before.children.Keys <= EntryMap(canonical).Keys
    requires Progress(h, before, canonical, path, lookup, node, links) && Elsewhere(before, canonical, node)
    ensures Visit(h, before, expected, path, lookup) == Some(Visited(Dir(node), links))
    ensures RootId(h, Dir(node)) == expected
  {
    ProgressNodes(h, before, canonical, path, lookup, node, links);
    ProgressLinks(h, before, canonical, path, lookup, node, links);
    LastCheckNeverFails(h, before, expected, path, lookup);
  }

  lemma ProgressNodes(h: Hash, before: Node, canonical: seq<Entry>, path: Path, lookup: Lookup,
                      node: map<bytes, Node>, links: set<Gitlink>)
    requires before.Dir? && Listing(canonical, EntryMap(canonical))
    requires before.children.Keys <= EntryMap(canonical).Keys
    requires Progress(h, before, canonical, path, lookup, node, links) && Elsewhere(before, canonical, node)
    ensures var results := VisitEntries(h, before, EntryMap(canonical), path, lookup);
            AllReconciled(results) && Rebuilt(results) == Dir(node)
  {
    var m := EntryMap(canonical);
    var results := VisitEntries(h, before, m, path, lookup);
    forall n <- m ensures results[n].Some? && n in node && results[n].value.node == node[n] {
      assert Entry(n, m[n]) in canonical;
    }
    assert node.Keys == m.Keys;
    assert Rebuilt(results).children == node;
  }

  lemma ProgressLinks(h: Hash, before: Node, canonical: seq<Entry>, path: Path, lookup: Lookup,
                      node: map<bytes, Node>, links: set<Gitlink>)
    requires before.Dir? && Listing(canonical, EntryMap(canonical))
    requires Progress(h, before, canonical, path, lookup, node, links)
    requires AllReconciled(VisitEntries(h, before, EntryMap(canonical), path, lookup))
    ensures var results := VisitEntries(h, before, EntryMap(canonical), path, lookup);
            links == set n, l | n in results && l in results[n].value.links :: l
  {
    var m := EntryMap(canonical);
    var results := VisitEntries(h, before, m, path, lookup);
    forall n, l | n in results && l in results[n].value.links ensures l in links {
      assert Entry(n, m[n]) in canonical;
    }
    forall l <- links ensures exists n :: n in results && l in results[n].value.links {
      var e :| e in canonical && l in VisitEntry(h, before, e.name, e.stamp, path, lookup).value.links;
      assert e.name in results && l in results[e.name].value.links;
    }
  }

  /** The gitlinks of a report, whatever their order. */
  ghost function LinkSet(links: seq<Gitlink>): set<Gitlink> {
    set l <- links
  }

  /** The state of the loop after the entries in done. */
  ghost function Fold(h: Hash, before: Node, done: seq<Entry>, path: Path, lookup: Lookup): (r: Option<Visited>)
    requires before.Dir?
    ensures r.Some? ==> r.value.node.Dir?
  {
    if done == [] then Some(Visited(before, {}))
    else
      var e := done[|done| - 1];
      match (Fold(h, before, done[..|done| - 1], path, lookup), VisitEntry(h, before, e.name, e.stamp, path, lookup))
      case (Some(v), Some(w)) => Some(Visited(Dir(v.node.children[e.name := w.node]), v.links + w.links))
      case _ => None
  }

  lemma {:induction false} FoldMeans(h: Hash, before: Node, done: seq<Entry>, path: Path, lookup: Lookup)
    requires before.Dir? && Fold(h, before, done, path, lookup).Some?
    requires forall i, j :: 0 <= i < j < |done| ==> done[i].name != done[j].name
    ensures var v := Fold(h, before, done, path, lookup).value;
            Elsewhere(before, done, v.node.children) && Progress(h, before, done, path, lookup, v.node.children, v.links)
  {
    if done != [] {
      var init, e := done[..|done| - 1], done[|done| - 1];
      assert done == init + [e];
      FoldMeans(h, before, init, path, lookup);
      var v := Fold(h, before, init, path, lookup).value;
      var w := VisitEntry(h, before, e.name, e.stamp, path, lookup).value;
      ProgressStep(h, before, init, e, path, lookup, lookup, v.node.children, v.links, w);
      ElsewhereStep(before, init, e, v.node.children, w.node);
    }
  }

  lemma {:induction false} FoldMonotone(h: Hash, before: Node, done: seq<Entry>, path: Path, l: Lookup, k: Lookup)
    requires before.Dir? && Extends(l, k) && Fold(h, before, done, path, l).Some?
    ensures Fold(h, before, done, path, k) == Fold(h, before, done, path, l)
  {
    if done != [] {
      var e := done[|done| - 1];
      FoldMonotone(h, before, done[..|done| - 1], path, l, k);
      EntryMonotone(h, before, e.name, e.stamp, path, l, k);
    }
  }

  /** Entry i is still as it was before the loop. */
  lemma FoldLeaves(h: Hash, before: Node, canonical: seq<Entry>, i: nat, path: Path, lookup: Lookup)
    requires before.Dir? && i < |canonical| && Listing(canonical, EntryMap(canonical))
    requires Fold(h, before, canonical[..i], path, lookup).Some?
    ensures var n, node := canonical[i].name, Fold(h, before, canonical[..i], path, lookup).value.node.children;
            (n in node <==> n in before.children) && (n in node ==> node[n] == before.children[n])
            && (n in node && ValidNode(before) ==> ValidNode(node[n]))
  {
    ListingNames(canonical, EntryMap(canonical));
    FoldMeans(h, before, canonical[..i], path, lookup);
    StillThere(before, canonical, i, Fold(h, before, canonical[..i], path, lookup).value.node.children);
  }

  lemma FoldComplete(h: Hash, before: Node, canonical: seq<Entry>, expected: Oid, path: Path, lookup: Lookup)
    requires before.Dir? && RootId(h, before) != expected && Authenticated(h, lookup)
    requires lookup(path, expected) == Some(EntryMap(canonical)) && Listing(canonical, EntryMap(canonical))
    requires before.children.Keys <= EntryMap(canonical).Keys && Fold(h, before, canonical, path, lookup).Some?
    ensures Visit(h, before, expected, path, lookup) == Fold(h, before, canonical, path, lookup)
    ensures RootId(h, Fold(h, before, canonical, path, lookup).value.node) == expected
  {
    ListingNames(canonical, EntryMap(canonical));
    FoldMeans(h, before, canonical, path, lookup);
    var v := Fold(h, before, canonical, path, lookup).value;
    ProgressComplete(h, before, canonical, expected, path, lookup, v.node.children, v.links);
  }

  /** The loop has been through every entry. */
  lemma LoopDone(h: Hash, fetch: Fetch, cache: map<Oid, seq<Entry>>, before: Node, canonical: seq<Entry>, expected: Oid, path: Path)
    requires before.Dir? && ValidNode(before) && CacheValid(h, fetch, cache) && RootId(h, before) != expected
    requires expected in cache && cache[expected] == canonical && before.children.Keys <= set e <- canonical :: e.name
    requires Fold(h, before, canonical, path, Remembered(cache)).Some?
    ensures var v := Fold(h, before, canonical, path, Remembered(cache));
            Visit(h, before, expected, path, Remembered(cache)) == v && ValidNode(v.value.node) && RootId(h, v.value.node) == expected
  {
    CachedAuthenticated(h, fetch, cache);
    EntryNames(canonical, EntryMap(canonical));
    FoldComplete(h, before, canonical, expected, path, Remembered(cache));
    VisitKeepsValid(h, before, expected, path, Remembered(cache));
  }

  /** The directory has a name the canonical tree lacks. */
  lemma NamesRefused(h: Hash, fetch: Fetch, cache: map<Oid, seq<Entry>>, before: Node, canonical: seq<Entry>, expected: Oid, path: Path)
    requires before.Dir? && CacheValid(h, fetch, cache) && RootId(h, before) != expected
    requires expected in cache && cache[expected] == canonical && !(before.children.Keys <= set e <- canonical :: e.name)
    ensures Visit(h, before, expected, path, Cached(h, fetch, cache)).None?
  {
    EntryNames(canonical, EntryMap(canonical));
    VisitExtra(h, before, expected, path, Cached(h, fetch, cache));
  }

  /** A turn of the loop that reconciled its entry, remembering more than before it. */
  lemma TurnDone(h: Hash, before: Node, canonical: seq<Entry>, i: nat, path: Path, cache: map<Oid, seq<Entry>>, cache': map<Oid, seq<Entry>>,
                 node: map<bytes, Node>, node': map<bytes, Node>, links: seq<Gitlink>, more: seq<Gitlink>)
    requires before.Dir? && i < |canonical| && Listing(canonical, EntryMap(canonical)) && CacheGrows(cache, cache')
    requires Fold(h, before, canonical[..i], path, Remembered(cache)) == Some(Visited(Dir(node), LinkSet(links)))
    requires canonical[i].name in node' && node' == node[canonical[i].name := node'[canonical[i].name]]
    requires VisitEntry(h, Dir(node), canonical[i].name, canonical[i].stamp, path, Remembered(cache'))
             == Some(Visited(node'[canonical[i].name], LinkSet(more)))
    ensures Fold(h, before, canonical[..i + 1], path, Remembered(cache')) == Some(Visited(Dir(node'), LinkSet(links + more)))
  {
    var e, l, k := canonical[i], Remembered(cache), Remembered(cache');
    FoldLeaves(h, before, canonical, i, path, l);
    FoldMonotone(h, before, canonical[..i], path, l, k);
    VisitEntryLocal(h, before, Dir(node), e.name, e.stamp, path, k);
    LinkSetAdds(links, more);
    assert canonical[..i + 1][..i] == canonical[..i];
  }

  /** A turn of the loop that refused its entry. */
  lemma TurnRefused(h: Hash, fetch: Fetch, before: Node, canonical: seq<Entry>, i: nat, expected: Oid, path: Path,
                    cache: map<Oid, seq<Entry>>, cache': map<Oid, seq<Entry>>, node: map<bytes, Node>, links: seq<Gitlink>)
    requires before.Dir? && i < |canonical| && Listing(canonical, EntryMap(canonical))
    requires RootId(h, before) != expected && expected in cache' && cache'[expected] == canonical
    requires Fold(h, before, canonical[..i], path, Remembered(cache)) == Some(Visited(Dir(node), LinkSet(links)))
    requires VisitEntry(h, Dir(node), canonical[i].name, canonical[i].stamp, path, Cached(h, fetch, cache')).None?
    ensures Visit(h, before, expected, path, Cached(h, fetch, cache')).None?
  {
    var e, k := canonical[i], Cached(h, fetch, cache');
    FoldLeaves(h, before, canonical, i, path, Remembered(cache));
    VisitEntryLocal(h, before, Dir(node), e.name, e.stamp, path, k);
    assert e in canonical;
    VisitEntryRefused(h, before, expected, path, k, e.name);
  }

  ghost predicate CacheGrows(c: map<Oid, seq<Entry>>, d: map<Oid, seq<Entry>>) {
    forall o <- c :: o in d && d[o] == c[o]
  }

  /** A put below a name goes on in the directory that is there once it has been defaulted. */
  lemma PutThroughDefault(dir: map<bytes, Node>, path: Path, leaf: Option<Stamp>)
    requires |path| > 1 || (|path| == 1 && leaf.None?)
    ensures var d := if path[0] in dir then dir else dir[path[0] := Dir(map[])];
            Put(dir, path, leaf) == if d[path[0]].Leaf? then None
                                    else if |path| == 1 then Some(d)
                                    else match Put(d[path[0]].children, path[1..], leaf)
                                         case None => None
                                         case Some(sub) => Some(d[path[0] := Dir(sub)])
  {
    if path[0] !in dir && |path| > 1 {
      var sub := Put(map[], path[1..], leaf);
      if sub.Some? {
        assert dir[path[0] := Dir(map[])][path[0] := Dir(sub.value)] == dir[path[0] := Dir(sub.value)];
      }
    }
  }

  class Directory {
    var children: map<bytes, Child>
    ghost var node: map<bytes, Node>
    ghost var repr: set<Directory>

    /** The objects form a tree whose value is node. */
    ghost predicate Valid()
      reads this, repr
      ensures Valid() ==> this in repr
      decreases repr
    {
      && this in repr
      && children.Keys == node.Keys
      && (forall n <- children :: children[n].Held? ==> node[n] == Leaf(children[n].stamp))
      && (forall n <- children :: children[n].Sub? ==>
            var d := children[n].dir;
            d in repr && d.repr <= repr && this !in d.repr && d.Valid() && node[n] == Dir(d.node))
      && (forall m, n :: m in children && n in children && m != n && children[m].Sub? && children[n].Sub? ==>
            children[m].dir.repr !! children[n].dir.repr)
    }

    /** Valid, but for one subdirectory that has just changed on its own. */
    ghost predicate ValidBut(name: bytes)
      requires name in children && children[name].Sub?
      reads this, repr, children[name].dir, children[name].dir.repr
    {
      var d := children[name].dir;
      && this in repr
      && children.Keys == node.Keys
      && d.Valid() && this !in d.repr
      && (forall n <- children :: children[n].Held? ==> node[n] == Leaf(children[n].stamp))
      && (forall n <- children :: n != name && children[n].Sub? ==>
            var e := children[n].dir;
            e in repr && e.repr <= repr && this !in e.repr && e.Valid() && node[n] == Dir(e.node) && e.repr !! d.repr)
      && (forall m, n :: m in children && n in children && m != n && m != name && n != name && children[m].Sub? && children[n].Sub? ==>
            children[m].dir.repr !! children[n].dir.repr)
    }

    /** A change inside one subdirectory leaves the others as they were. */
    twostate lemma SiblingsStay(name: bytes)
      requires old(Valid()) && name in children && children[name].Sub? && unchanged(this)
      requires children[name].dir.Valid() && fresh(children[name].dir.repr - old(children[name].dir.repr))
      requires forall o <- old(repr) :: o !in old(children[name].dir.repr) ==> unchanged(o)
      ensures ValidBut(name)
    {
      var d := children[name].dir;
      forall n | n in children && n != name && children[n].Sub?
        ensures children[n].dir.Valid() && children[n].dir.repr !! d.repr && unchanged(children[n].dir)
      {
        assert old(children[n].dir.repr !! d.repr);
        assert children[n].dir in old(children[n].dir.repr);
      }
    }

    /** Records the new value of a changed subdirectory. */
    ghost method Reattach(name: bytes)
      requires name in children && children[name].Sub? && ValidBut(name)
      modifies this
      ensures Valid() && repr == old(repr) + children[name].dir.repr
      ensures children == old(children) && node == old(node)[name := Dir(children[name].dir.node)]
    {
      var d := children[name].dir;
      node, repr := node[name := Dir(d.node)], repr + d.repr;
      forall n | n in children && children[n].Sub?
        ensures var e := children[n].dir; unchanged(e) && e.Valid() && e in repr && e.repr <= repr && this !in e.repr && node[n] == Dir(e.node)
      {
        assert old(children[n].dir.Valid()) && children[n].dir in old(children[n].dir.repr);
      }
    }

    constructor ()
      ensures Valid() && node == map[] && fresh(repr)
    {
      children, node, repr := map[], map[], {this};
    }

    /** The entry of one child. */
    method ChildStamp(h: Hash, n: bytes) returns (stamp: Stamp)
      requires Valid() && ValidNode(Dir(node)) && n in children
      ensures Valid() && stamp == NodeStamp(h, node[n])
      decreases repr, 0
    {
      match children[n] {
        case Held(s) => stamp := s;
        case Sub(d) => var o := d.Oid(h); stamp := Stamp(TreeMode, o);
      }
    }

    /** oid(): the tree identifier, computed from the entries in whatever order they come. */
    method Oid(h: Hash) returns (oid: Oid)
      requires Valid() && ValidNode(Dir(node))
      ensures Valid() && oid == RootId(h, Dir(node))
      decreases repr, 1
    {
      var names := children.Keys;
      var entries: seq<Entry> := [];
      ghost var all := NodeEntries(h, Dir(node));
      while names != {}
        invariant names <= children.Keys
        invariant Listing(entries, all - names)
        decreases names
      {
        var n :| n in names;
        var stamp := ChildStamp(h, n);
        ListingGrows(entries, all, names, n);
        entries, names := entries + [Entry(n, stamp)], names - {n};
      }
      assert all - names == all;
      TreeIdOfListing(h, entries, all);
      oid := ObjectId(h, TreeKind, TreePayload(entries));
    }

    method PutLeaf(name: bytes, stamp: Stamp)
      requires Valid() && (name in children ==> children[name].Held? || node[name] == Dir(map[]))
      modifies this
      ensures Valid() && repr == old(repr)
      ensures node == old(node)[name := Leaf(stamp)]
      ensures children == old(children)[name := Held(stamp)]
    {
      children, node := children[name := Held(stamp)], node[name := Leaf(stamp)];
    }

    /** dict.setdefault(name, Directory()) */
    method SetDefault(name: bytes)
      requires Valid()
      modifies this
      ensures Valid() && fresh(repr - old(repr)) && old(repr) <= repr
      ensures name in node && node == (if name in old(node) then old(node) else old(node)[name := Dir(map[])])
    {
      if name !in children {
        var d := new Directory();
        children, node, repr := children[name := Sub(d)], node[name := Dir(map[])], repr + d.repr;
      }
    }

    /** Creates the directories above path and puts a leaf, or a directory, there. */
    method Insert(path: Path, leaf: Option<Stamp>) returns (ok: bool)
      requires Valid() && path != []
      modifies repr
      ensures Valid() && fresh(repr - old(repr)) && old(repr) <= repr
      ensures ok <==> Put(old(node), path, leaf).Some?
      ensures ok ==> node == Put(old(node), path, leaf).value
      decreases |path|, 0
    {
      var name := path[0];
      if |path| == 1 && leaf.Some? {
        ok := name !in children;
        if ok {
          PutLeaf(name, leaf.value);
        }
      } else {
        PutThroughDefault(node, path, leaf);
        SetDefault(name);
        ok := children[name].Sub?;
        if ok && |path| > 1 {
          ok := InsertBelow(name, path[1..], leaf);
        }
      }
    }

    method InsertBelow(name: bytes, path: Path, leaf: Option<Stamp>) returns (ok: bool)
      requires Valid() && path != [] && name in children && children[name].Sub?
      modifies repr
      ensures Valid() && fresh(repr - old(repr)) && old(repr) <= repr
      ensures ok <==> Put(old(node[name].children), path, leaf).Some?
      ensures ok ==> node == old(node)[name := Dir(Put(old(node[name].children), path, leaf).value)]
      decreases |path|, 1
    {
      var d := children[name].dir;
      ok := d.Insert(path, leaf);
      SiblingsStay(name);
      Reattach(name);
    }

    // ---------- reconciling ----------

    /** visit(): prune if the identifiers agree, else reconcile every canonical entry.
        It computes Visit, with the metadata it ends up remembering. */
    method Reconcile(expected: Oid, path: Path, metadata: Metadata) returns (ok: bool, links: seq<Gitlink>)
      requires Valid() && ValidNode(Dir(node)) && metadata.Valid()
      modifies repr, metadata
      ensures Valid() && repr == old(repr) && metadata.Valid() && CacheGrows(old(metadata.cache), metadata.cache)
      ensures ok ==> Visit(metadata.h, Dir(old(node)), expected, path, Remembered(metadata.cache))
                     == Some(Visited(Dir(node), LinkSet(links)))
      ensures !ok ==> Visit(metadata.h, Dir(old(node)), expected, path, Cached(metadata.h, metadata.fetch, metadata.cache)).None?
      decreases repr, 1
    {
      var actual := Oid(metadata.h);
      if actual == expected {
        VisitPruned(metadata.h, Dir(node), expected, path, Remembered(metadata.cache));
        return true, [];
      }
      ok, links := ReconcileAgainst(expected, path, metadata);
    }

    /** Fetches the canonical entries and reconciles them. */
    method ReconcileAgainst(expected: Oid, path: Path, metadata: Metadata) returns (ok: bool, links: seq<Gitlink>)
      requires Valid() && ValidNode(Dir(node)) && metadata.Valid() && RootId(metadata.h, Dir(node)) != expected
      modifies repr, metadata
      ensures Valid() && repr == old(repr) && metadata.Valid() && CacheGrows(old(metadata.cache), metadata.cache)
      ensures ok ==> Visit(metadata.h, Dir(old(node)), expected, path, Remembered(metadata.cache))
                     == Some(Visited(Dir(node), LinkSet(links)))
      ensures !ok ==> Visit(metadata.h, Dir(old(node)), expected, path, Cached(metadata.h, metadata.fetch, metadata.cache)).None?
      decreases repr, 0, 7
    {
      var found := metadata.Tree(path, expected);
      if found.None? {
        VisitUnknown(metadata.h, Dir(node), expected, path, Cached(metadata.h, metadata.fetch, metadata.cache));
        return false, [];
      }
      ok, links := ReconcileAll(found.value, expected, path, metadata);
    }

    /** The check for unexpected entries, then the others. */
    method ReconcileAll(canonical: seq<Entry>, expected: Oid, path: Path, metadata: Metadata) returns (ok: bool, links: seq<Gitlink>)
      requires Valid() && ValidNode(Dir(node)) && metadata.Valid()
      requires expected in metadata.cache && metadata.cache[expected] == canonical
      requires RootId(metadata.h, Dir(node)) != expected
      modifies repr, metadata
      ensures Valid() && repr == old(repr) && metadata.Valid() && CacheGrows(old(metadata.cache), metadata.cache)
      ensures ok ==> Visit(metadata.h, Dir(old(node)), expected, path, Remembered(metadata.cache))
                     == Some(Visited(Dir(node), LinkSet(links)))
      ensures !ok ==> Visit(metadata.h, Dir(old(node)), expected, path, Cached(metadata.h, metadata.fetch, metadata.cache)).None?
      decreases repr, 0, 6
    {
      if !(children.Keys <= set e <- canonical :: e.name) {
        NamesRefused(metadata.h, metadata.fetch, metadata.cache, Dir(node), canonical, expected, path);
        return false, [];
      }
      ok, links := ReconcileNamed(canonical, expected, path, metadata);
    }

    /** The loop over the canonical entries, and the check after it. */
    method ReconcileNamed(canonical: seq<Entry>, expected: Oid, path: Path, metadata: Metadata) returns (ok: bool, links: seq<Gitlink>)
      requires Valid() && ValidNode(Dir(node)) && metadata.Valid()
      requires expected in metadata.cache && metadata.cache[expected] == canonical
      requires RootId(metadata.h, Dir(node)) != expected && children.Keys <= set e <- canonical :: e.name
      modifies repr, metadata
      ensures Valid() && repr == old(repr) && metadata.Valid() && CacheGrows(old(metadata.cache), metadata.cache)
      ensures ok ==> Visit(metadata.h, Dir(old(node)), expected, path, Remembered(metadata.cache))
                     == Some(Visited(Dir(node), LinkSet(links)))
      ensures !ok ==> Visit(metadata.h, Dir(old(node)), expected, path, Cached(metadata.h, metadata.fetch, metadata.cache)).None?
      decreases repr, 0, 5
    {
      ok, links := ReconcileEntries(canonical, expected, path, metadata);
      if ok {
        var actual := Oid(metadata.h);
        ok := actual == expected;
      }
    }

    /** The loop alone, after which the comparison cannot fail. */
    method ReconcileEntries(canonical: seq<Entry>, expected: Oid, path: Path, metadata: Metadata) returns (ok: bool, links: seq<Gitlink>)
      requires Valid() && ValidNode(Dir(node)) && metadata.Valid()
      requires expected in metadata.cache && metadata.cache[expected] == canonical
      requires RootId(metadata.h, Dir(node)) != expected && children.Keys <= set e <- canonical :: e.name
      modifies repr, metadata
      ensures Valid() && repr == old(repr) && metadata.Valid() && CacheGrows(old(metadata.cache), metadata.cache)
      ensures ok ==> Visit(metadata.h, Dir(old(node)), expected, path, Remembered(metadata.cache))
                     == Some(Visited(Dir(node), LinkSet(links)))
      ensures ok ==> ValidNode(Dir(node)) && RootId(metadata.h, Dir(node)) == expected
      ensures !ok ==> Visit(metadata.h, Dir(old(node)), expected, path, Cached(metadata.h, metadata.fetch, metadata.cache)).None?
      decreases repr, 0, 4
    {
      ghost var before := Dir(node);
      SameNames();
      ok, links := ReconcileLoop(canonical, expected, path, metadata);
      if ok {
        LoopDone(metadata.h, metadata.fetch, metadata.cache, before, canonical, expected, path);
      }
    }

    method ReconcileLoop(canonical: seq<Entry>, expected: Oid, path: Path, metadata: Metadata) returns (ok: bool, links: seq<Gitlink>)
      requires Valid() && ValidNode(Dir(node)) && metadata.Valid()
      requires expected in metadata.cache && metadata.cache[expected] == canonical
      requires RootId(metadata.h, Dir(node)) != expected && children.Keys <= set e <- canonical :: e.name
      modifies repr, metadata
      ensures Valid() && repr == old(repr) && metadata.Valid() && CacheGrows(old(metadata.cache), metadata.cache)
      ensures ok ==> Fold(metadata.h, Dir(old(node)), canonical, path, Remembered(metadata.cache)) == Some(Visited(Dir(node), LinkSet(links)))
      ensures !ok ==> Visit(metadata.h, Dir(old(node)), expected, path, Cached(metadata.h, metadata.fetch, metadata.cache)).None?
      decreases repr, 0, 3
    {
      ok, links := true, [];
      ghost var before, cache0 := Dir(node), metadata.cache;
      var i := 0;
      assert canonical[..i] == [] && LinkSet([]) == {};
      while i < |canonical|
        invariant 0 <= i <= |canonical|
        invariant Valid() && repr == old(repr) && metadata.Valid()
        invariant CacheGrows(cache0, metadata.cache)
        invariant Fold(metadata.h, before, canonical[..i], path, Remembered(metadata.cache)) == Some(Visited(Dir(node), LinkSet(links)))
      {
        var more;
        ok, more := ReconcileNext(before, canonical, i, links, expected, path, metadata);
        if !ok {
          return;
        }
        links, i := links + more, i + 1;
      }
      assert canonical[..i] == canonical;
    }

    /** One turn of the loop: entry i, with the entries before it reconciled. */
    method ReconcileNext(ghost before: Node, canonical: seq<Entry>, i: nat, ghost links: seq<Gitlink>, expected: Oid, path: Path, metadata: Metadata)
      returns (ok: bool, more: seq<Gitlink>)
      requires Valid() && metadata.Valid() && before.Dir? && ValidNode(before) && i < |canonical|
      requires expected in metadata.cache && metadata.cache[expected] == canonical && RootId(metadata.h, before) != expected
      requires Fold(metadata.h, before, canonical[..i], path, Remembered(metadata.cache)) == Some(Visited(Dir(node), LinkSet(links)))
      modifies repr, metadata
      ensures Valid() && repr == old(repr) && metadata.Valid() && CacheGrows(old(metadata.cache), metadata.cache)
      ensures ok ==> Fold(metadata.h, before, canonical[..i + 1], path, Remembered(metadata.cache)) == Some(Visited(Dir(node), LinkSet(links + more)))
      ensures !ok ==> Visit(metadata.h, before, expected, path, Cached(metadata.h, metadata.fetch, metadata.cache)).None?
      decreases repr, 0, 2
    {
      ghost var cache, node1 := metadata.cache, node;
      FoldLeaves(metadata.h, before, canonical, i, path, Remembered(cache));
      ok, more := ReconcileEntry(canonical[i], path, metadata);
      if ok {
        TurnDone(metadata.h, before, canonical, i, path, cache, metadata.cache, node1, node, links, more);
      } else {
        TurnRefused(metadata.h, metadata.fetch, before, canonical, i, expected, path, cache, metadata.cache, node1, links);
      }
    }

    lemma SameNames()
      requires Valid()
      ensures children.Keys == node.Keys
    {
    }

    lemma EmptyBelow(name: bytes)
      requires Valid() && name in children && children[name].Sub?
      ensures children[name].dir.children == map[] <==> node[name] == Dir(map[])
    {
      var d := children[name].dir;
      d.SameNames();
      assert d.children == map[] <==> d.children.Keys == {};
      assert d.node == map[] <==> d.node.Keys == {};
    }

    /** One canonical entry of the loop. */
    method ReconcileEntry(e: Entry, path: Path, metadata: Metadata) returns (ok: bool, links: seq<Gitlink>)
      requires Valid() && metadata.Valid() && (e.name in node ==> ValidNode(node[e.name]))
      modifies repr, metadata
      ensures Valid() && repr == old(repr) && metadata.Valid() && CacheGrows(old(metadata.cache), metadata.cache)
      ensures ok ==> e.name in node && node == old(node)[e.name := node[e.name]]
      ensures ok ==> VisitEntry(metadata.h, Dir(old(node)), e.name, e.stamp, path, Remembered(metadata.cache))
                     == Some(Visited(node[e.name], LinkSet(links)))
      ensures !ok ==> VisitEntry(metadata.h, Dir(old(node)), e.name, e.stamp, path, Cached(metadata.h, metadata.fetch, metadata.cache)).None?
      decreases repr, 0, 1
    {
      var name, stamp := e.name, e.stamp;
      links := [];
      assert LinkSet([]) == {};
      if stamp.mode == GitlinkMode {
        if name in children && children[name].Sub? {
          EmptyBelow(name);
        }
        ok := name !in children || (children[name].Sub? && children[name].dir.children == map[]);
        if ok {
          PutLeaf(name, stamp);
          links := [Gitlink(path + [name], stamp.oid)];
          assert LinkSet(links) == {links[0]};
        }
      } else if stamp.mode == TreeMode {
        ok := name in children && children[name].Sub?;
        if ok {
          ok, links := ReconcileBelow(name, stamp.oid, path, metadata);
        }
      } else {
        ok := name in children && children[name] == Held(stamp);
      }
    }

    method ReconcileBelow(name: bytes, expected: Oid, path: Path, metadata: Metadata) returns (ok: bool, links: seq<Gitlink>)
      requires Valid() && metadata.Valid() && name in children && children[name].Sub? && ValidNode(node[name])
      modifies repr, metadata
      ensures Valid() && repr == old(repr) && metadata.Valid() && CacheGrows(old(metadata.cache), metadata.cache)
      ensures ok ==> name in node && node == old(node)[name := node[name]]
      ensures ok ==> Visit(metadata.h, old(node[name]), expected, path + [name], Remembered(metadata.cache))
                     == Some(Visited(node[name], LinkSet(links)))
      ensures !ok ==> Visit(metadata.h, old(node[name]), expected, path + [name], Cached(metadata.h, metadata.fetch, metadata.cache)).None?
      decreases repr, 0, 0
    {
      var d := children[name].dir;
      ghost var objects: set<object> := repr;
      assert metadata !in objects;
      ok, links := d.Reconcile(expected, path + [name], metadata);
      SiblingsStay(name);
      Reattach(name);
    }
  }

  // ---------- scanning ----------

  /** The member loop of scan_archive, hashing each blob as it goes by. It accepts exactly
      when ScanMembers does, and its tree is the hashed form of the scanned contents. */
  method ScanInto(h: Hash, ms: seq<Member>, prefix: bytes, watched: set<Path>)
    returns (ok: bool, root: Directory, captured: map<Path, bytes>)
    ensures root.Valid() && fresh(root.repr)
    ensures ok <==> ScanMembers(ms, prefix, watched).Some?
    ensures ok ==> root.node == HashDir(h, ScanMembers(ms, prefix, watched).value.root)
                   && captured == ScanMembers(ms, prefix, watched).value.captured
  {
    root := new Directory();
    captured := map[];
    var seen: set<Path> := {};
    for i := 0 to |ms|
      invariant root.Valid() && fresh(root.repr)
      invariant ScanMembers(ms[..i], prefix, watched).Some?
      invariant var s := ScanMembers(ms[..i], prefix, watched).value;
                root.node == HashDir(h, s.root) && captured == s.captured && seen == s.seen
    {
      assert ms[..i + 1][..i] == ms[..i];
      ghost var s := ScanMembers(ms[..i], prefix, watched).value;
      ok, seen, captured := ScanMember(h, root, seen, captured, ms[i], prefix, watched, s);
      if !ok {
        ScanPrefixFails(ms, i + 1, prefix, watched);
        return;
      }
    }
    assert ms[..|ms|] == ms;
    ok := true;
  }

  /** One member: what the loop's body does to the tree, the seen paths and the captures. */
  method ScanMember(h: Hash, root: Directory, seen: set<Path>, captured: map<Path, bytes>, m: Member, prefix: bytes,
                    watched: set<Path>, ghost s: Scan)
    returns (ok: bool, seen': set<Path>, captured': map<Path, bytes>)
    requires root.Valid() && root.node == HashDir(h, s.root) && captured == s.captured && seen == s.seen
    modifies root.repr
    ensures root.Valid() && fresh(root.repr - old(root.repr))
    ensures ok <==> Step(s, m, prefix, watched).Some?
    ensures ok ==> var t := Step(s, m, prefix, watched).value;
                   root.node == HashDir(h, t.root) && captured' == t.captured && seen' == t.seen
  {
    seen', captured' := seen, captured;
    ok := MemberOk(m, prefix, watched);
    if ok {
      var path := PathOf(m, prefix);
      ok := path !in seen;
      if ok && path != [] {
        PutHash(h, s.root, path, LeafOf(m));
        ok := root.Insert(path, StampLeaf(h, LeafOf(m)));
        if m.kind == RegularMember && path in watched {
          captured' := captured[path := m.data];
        }
      }
      seen' := seen + {path};
    }
  }

  lemma {:induction false} ScanPrefixFails(ms: seq<Member>, i: nat, prefix: bytes, watched: set<Path>)
    requires i <= |ms| && ScanMembers(ms[..i], prefix, watched).None?
    ensures ScanMembers(ms, prefix, watched).None?
    decreases |ms|
  {
    if i < |ms| {
      assert ms[..|ms| - 1][..i] == ms[..i];
      ScanPrefixFails(ms[..|ms| - 1], i, prefix, watched);
    } else {
      assert ms[..i] == ms;
    }
  }

  lemma ListingGrows(entries: seq<Entry>, all: Entries, names: set<bytes>, n: bytes)
    requires n in names && n in all && Listing(entries, all - names)
    ensures Listing(entries + [Entry(n, all[n])], all - (names - {n}))
  {
    var more := entries + [Entry(n, all[n])];
    assert forall e :: e in more <==> e in entries || e == Entry(n, all[n]);
    assert Entry(n, all[n]) !in entries;
  }
}
