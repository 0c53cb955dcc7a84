/** Scanning a tar stream into a tree: the rules each member must meet, the tree that
    results, and why neither depends on the order of the members. */
module ArchiveScan {
  import opened Bytes
  import opened Results
  import opened GitObjects
  import opened Trees

  datatype MemberKind = DirectoryMember | RegularMember | SymlinkMember | OtherMember

  /** One archive member. data is the file content or the link target. */
  datatype Member = Member(name: bytes, kind: MemberKind, mode: nat, data: bytes)

  const BACKSLASH: byte := 92
  const MAX_CAPTURE: nat := 1048576

  // ---------- member paths ----------

  /** Python's split on a slash: never the empty list. */
  function SplitPath(name: bytes): (parts: Path)
    ensures parts != []
  {
    if name == [] then [[]]
    else
      var rest := SplitPath(name[1..]);
      if name[0] == SLASH then [[]] + rest
      else [[name[0]] + rest[0]] + rest[1..]
  }

  predicate GoodComponent(part: bytes) {
    part != [] && part != [46] && part != [46, 46]
  }

  /** The path below the archive's single top-level directory, or None if refused. */
  function ParsePath(name: bytes, prefix: bytes): Option<Path> {
    if name == [] || NUL in name || name[0] == SLASH || BACKSLASH in name then None
    else
      var clean := if name[|name| - 1] == SLASH then name[..|name| - 1] else name;
      var parts := SplitPath(clean);
      if (forall part <- parts :: GoodComponent(part)) && parts[0] == prefix then Some(parts[1..]) else None
  }

  lemma {:induction false} SplitPathParts(name: bytes)
    ensures forall part <- SplitPath(name) :: SLASH !in part && (forall b <- part :: b in name)
  {
    if name != [] {
      SplitPathParts(name[1..]);
      assert name == [name[0]] + name[1..];
    }
  }

  /** Every component of an accepted path is a name Git accepts. */
  lemma ParsedNamesValid(name: bytes, prefix: bytes)
    requires ParsePath(name, prefix).Some?
    ensures forall part <- ParsePath(name, prefix).value :: ValidName(part)
  {
    var clean := if name[|name| - 1] == SLASH then name[..|name| - 1] else name;
    SplitPathParts(clean);
    forall part <- SplitPath(clean)[1..] ensures ValidName(part) {
      assert part in SplitPath(clean);
      assert GoodComponent(part);
    }
  }

  /** A trailing slash does not change the first component. */
  lemma {:induction false} FirstComponent(name: bytes)
    requires name != [] && name[0] != SLASH
    ensures SplitPath(if name[|name| - 1] == SLASH then name[..|name| - 1] else name)[0] == SplitPath(name)[0]
  {
    var clean := if name[|name| - 1] == SLASH then name[..|name| - 1] else name;
    if |name| > 1 {
      if name[1] == SLASH {
        assert SplitPath(name[1..])[0] == [];
        if |clean| > 1 {
          assert clean[1..][0] == SLASH;
        } else {
          assert clean[1..] == [];
        }
      } else {
        FirstComponent(name[1..]);
        if name[|name| - 1] == SLASH {
          assert clean[1..] == name[1..][..|name[1..]| - 1];
        }
      }
    }
  }

  // ---------- one member ----------

  predicate Executable(mode: nat) {
    mode % 2 == 1 || (mode / 8) % 2 == 1 || (mode / 64) % 2 == 1
  }

  predicate SpecialBits(mode: nat) {
    (mode / 512) % 8 != 0
  }

  predicate IsLeaf(m: Member) {
    m.kind == RegularMember || m.kind == SymlinkMember
  }

  function LeafOf(m: Member): Option<Item> {
    match m.kind
    case RegularMember => Some(Blob(Executable(m.mode), m.data))
    case SymlinkMember => Some(Link(m.data))
    case _ => None
  }

  /** The scan's state: the tree, the paths seen, and the contents kept for export review. */
  datatype Scan = Scan(root: map<bytes, Contents>, seen: set<Path>, captured: map<Path, bytes>)

  const EMPTY_SCAN := Scan(map[], {}, map[])

  function Step(s: Scan, m: Member, prefix: bytes, watched: set<Path>): Option<Scan> {
    match ParsePath(m.name, prefix)
    case None => None
    case Some(path) =>
      if path in s.seen || SpecialBits(m.mode) then None
      else if path == [] then
        if m.kind == DirectoryMember then Some(s.(seen := s.seen + {path})) else None
      else if m.kind == OtherMember then None
      else if m.kind == SymlinkMember && NUL in m.data then None
      else if m.kind == RegularMember && path in watched && |m.data| > MAX_CAPTURE then None
      else
        match Put(s.root, path, LeafOf(m))
        case None => None
        case Some(root) =>
          Some(Scan(root, s.seen + {path},
                    if m.kind == RegularMember && path in watched then s.captured[path := m.data] else s.captured))
  }

  function ScanMembers(ms: seq<Member>, prefix: bytes, watched: set<Path>): Option<Scan> {
    if ms == [] then Some(EMPTY_SCAN)
    else
      match ScanMembers(ms[..|ms| - 1], prefix, watched)
      case None => None
      case Some(s) => Step(s, ms[|ms| - 1], prefix, watched)
  }

  /** With no expected prefix, the first member's first component is the prefix. */
  function PrefixFor(ms: seq<Member>, expected: Option<bytes>): bytes {
    match expected
    case Some(p) => p
    case None => if ms == [] then [] else SplitPath(ms[0].name)[0]
  }

  function ScanArchive(ms: seq<Member>, expected: Option<bytes>, watched: set<Path>): Option<Scan> {
    ScanMembers(ms, PrefixFor(ms, expected), watched)
  }

  // ---------- the same, without an order ----------

  predicate MemberOk(m: Member, prefix: bytes, watched: set<Path>) {
    && ParsePath(m.name, prefix).Some?
    && !SpecialBits(m.mode)
    && (ParsePath(m.name, prefix).value == [] ==> m.kind == DirectoryMember)
    && m.kind != OtherMember
    && (m.kind == SymlinkMember ==> NUL !in m.data)
    && (m.kind == RegularMember && ParsePath(m.name, prefix).value in watched ==> |m.data| <= MAX_CAPTURE)
  }

  function PathOf(m: Member, prefix: bytes): Path {
    match ParsePath(m.name, prefix)
    case Some(p) => p
    case None => []
  }

  /** Every member is acceptable, no two have one path, and nothing lies below a leaf. */
  ghost predicate WellFormed(ms: seq<Member>, prefix: bytes, watched: set<Path>) {
    && (forall m <- ms :: MemberOk(m, prefix, watched))
    && (forall i, j :: 0 <= i < j < |ms| ==> PathOf(ms[i], prefix) != PathOf(ms[j], prefix))
    && (forall m, n :: m in ms && n in ms && IsLeaf(m) ==> !ProperPrefix(PathOf(m, prefix), PathOf(n, prefix)))
  }

  /** The tree has this member as a leaf at p. */
  ghost predicate LeafAt(m: Member, prefix: bytes, p: Path) {
    IsLeaf(m) && PathOf(m, prefix) == p
  }

  /** The tree needs a directory at p because of this member. */
  ghost predicate FolderAt(m: Member, prefix: bytes, p: Path) {
    ProperPrefix(p, PathOf(m, prefix)) || (m.kind == DirectoryMember && PathOf(m, prefix) == p)
  }

  /** Leaves are exactly the file and link members; directories exactly the root, the
      directory members and everything above any member. */
  ghost predicate HoldsExactly(root: map<bytes, Contents>, ms: seq<Member>, prefix: bytes) {
    forall p ::
      && (forall i :: At(Dir(root), p) == Holds(i) <==> exists m :: m in ms && LeafAt(m, prefix, p) && LeafOf(m) == Some(i))
      && (At(Dir(root), p) == Folder <==> p == [] || exists m :: m in ms && FolderAt(m, prefix, p))
  }

  ghost predicate CapturedExactly(captured: map<Path, bytes>, ms: seq<Member>, prefix: bytes, watched: set<Path>) {
    && (forall p <- captured :: p in watched && exists m :: m in ms && Captures(m, prefix, p, captured[p]))
    && (forall m <- ms :: m.kind == RegularMember && PathOf(m, prefix) in watched ==>
          PathOf(m, prefix) in captured && captured[PathOf(m, prefix)] == m.data)
  }

  ghost predicate Captures(m: Member, prefix: bytes, p: Path, d: bytes) {
    m.kind == RegularMember && PathOf(m, prefix) == p && m.data == d
  }

  ghost predicate SeenExactly(seen: set<Path>, ms: seq<Member>, prefix: bytes) {
    forall p :: p in seen <==> exists m :: m in ms && PathOf(m, prefix) == p
  }

  /** The scan accepts exactly the well-formed member lists, and builds exactly the tree
      they describe. */
  lemma {:induction false} ScanExact(ms: seq<Member>, prefix: bytes, watched: set<Path>)
    ensures ScanMembers(ms, prefix, watched).Some? <==> WellFormed(ms, prefix, watched)
    ensures ScanMembers(ms, prefix, watched).Some? ==>
              var s := ScanMembers(ms, prefix, watched).value;
              HoldsExactly(s.root, ms, prefix) && SeenExactly(s.seen, ms, prefix)
              && CapturedExactly(s.captured, ms, prefix, watched)
  {
    if ms == [] {
      forall p ensures At(Dir(EMPTY_SCAN.root), p) == (if p == [] then Folder else Absent) {}
    } else {
      var init, m := ms[..|ms| - 1], ms[|ms| - 1];
      assert ms == init + [m];
      ScanExact(init, prefix, watched);
      WellFormedSnoc(init, m, prefix, watched);
      if ScanMembers(init, prefix, watched).Some? {
        var s := ScanMembers(init, prefix, watched).value;
        StepAccepts(s, init, m, prefix, watched);
        if Step(s, m, prefix, watched).Some? {
          StepHolds(s, init, m, prefix, watched);
        }
      }
    }
  }

  ghost predicate Fits(init: seq<Member>, m: Member, prefix: bytes, watched: set<Path>) {
    && MemberOk(m, prefix, watched)
    && (forall n <- init :: PathOf(n, prefix) != PathOf(m, prefix))
    && (forall n <- init :: IsLeaf(n) ==> !ProperPrefix(PathOf(n, prefix), PathOf(m, prefix)))
    && (IsLeaf(m) ==> forall n <- init :: !ProperPrefix(PathOf(m, prefix), PathOf(n, prefix)))
  }

  lemma WellFormedSnoc(init: seq<Member>, m: Member, prefix: bytes, watched: set<Path>)
    ensures WellFormed(init + [m], prefix, watched) <==> WellFormed(init, prefix, watched) && Fits(init, m, prefix, watched)
  {
    var ms := init + [m];
    assert forall n :: n in ms <==> n in init || n == m;
    if WellFormed(ms, prefix, watched) {
      forall i, j | 0 <= i < j < |init| ensures PathOf(init[i], prefix) != PathOf(init[j], prefix) {
        assert ms[i] == init[i] && ms[j] == init[j];
      }
      forall n <- init ensures PathOf(n, prefix) != PathOf(m, prefix) {
        var i :| 0 <= i < |init| && init[i] == n;
        assert ms[i] == n && ms[|init|] == m;
      }
    }
    if WellFormed(init, prefix, watched) && Fits(init, m, prefix, watched) {
      forall i, j | 0 <= i < j < |ms| ensures PathOf(ms[i], prefix) != PathOf(ms[j], prefix) {
        assert ms[i] in init;
      }
    }
  }

  lemma StepAccepts(s: Scan, init: seq<Member>, m: Member, prefix: bytes, watched: set<Path>)
    requires HoldsExactly(s.root, init, prefix) && SeenExactly(s.seen, init, prefix)
    requires WellFormed(init, prefix, watched)
    ensures Step(s, m, prefix, watched).Some? <==> Fits(init, m, prefix, watched)
  {
    if MemberOk(m, prefix, watched) {
      var path := PathOf(m, prefix);
      assert path in s.seen <==> exists n :: n in init && PathOf(n, prefix) == path;
      if path !in s.seen && path != [] {
        PutFailsExactly(s.root, path, LeafOf(m));
        WayIsClear(s, init, m, prefix, watched);
      } else if path == [] {
        assert forall p: Path :: !ProperPrefix(p, []);
      }
    }
  }

  /** In a well-formed scan, something is in the way of a new path exactly when the member
      does not fit. */
  lemma WayIsClear(s: Scan, init: seq<Member>, m: Member, prefix: bytes, watched: set<Path>)
    requires HoldsExactly(s.root, init, prefix) && SeenExactly(s.seen, init, prefix)
    requires WellFormed(init, prefix, watched) && MemberOk(m, prefix, watched)
    requires PathOf(m, prefix) != [] && PathOf(m, prefix) !in s.seen
    ensures !InTheWay(Dir(s.root), PathOf(m, prefix), LeafOf(m)) <==> Fits(init, m, prefix, watched)
  {
    var path, t := PathOf(m, prefix), Dir(s.root);
    forall p ensures At(t, p).Holds? <==> exists n :: n in init && LeafAt(n, prefix, p) {
      HeldByMember(s, init, prefix, watched, p);
    }
    assert At(t, path) == Folder <==> exists n :: n in init && FolderAt(n, prefix, path);
    assert At(t, path) == Absent || At(t, path) == Folder || At(t, path).Holds?;
  }

  lemma HeldByMember(s: Scan, init: seq<Member>, prefix: bytes, watched: set<Path>, p: Path)
    requires HoldsExactly(s.root, init, prefix) && WellFormed(init, prefix, watched)
    ensures At(Dir(s.root), p).Holds? <==> exists n :: n in init && LeafAt(n, prefix, p)
  {
    var t := Dir(s.root);
    if At(t, p).Holds? {
      assert At(t, p) == Holds(At(t, p).value);
    }
    forall n | n in init && LeafAt(n, prefix, p) ensures At(t, p).Holds? {
      assert MemberOk(n, prefix, watched);
      assert At(t, p) == Holds(LeafOf(n).value);
    }
  }

  lemma StepHolds(s: Scan, init: seq<Member>, m: Member, prefix: bytes, watched: set<Path>)
    requires HoldsExactly(s.root, init, prefix) && SeenExactly(s.seen, init, prefix)
    requires CapturedExactly(s.captured, init, prefix, watched)
    requires WellFormed(init, prefix, watched) && Fits(init, m, prefix, watched)
    requires Step(s, m, prefix, watched).Some?
    ensures var s' := Step(s, m, prefix, watched).value;
            HoldsExactly(s'.root, init + [m], prefix) && SeenExactly(s'.seen, init + [m], prefix)
            && CapturedExactly(s'.captured, init + [m], prefix, watched)
  {
    var s', path := Step(s, m, prefix, watched).value, PathOf(m, prefix);
    StepTree(s.root, s'.root, init, m, prefix);
    assert SeenExactly(s'.seen, init + [m], prefix);
    StepCaptured(s.captured, s'.captured, init, m, prefix, watched);
  }

  lemma StepTree(root: map<bytes, Contents>, root': map<bytes, Contents>, init: seq<Member>, m: Member, prefix: bytes)
    requires HoldsExactly(root, init, prefix)
    requires var path := PathOf(m, prefix);
             if path == [] then root' == root && m.kind == DirectoryMember else Put(root, path, LeafOf(m)) == Some(root')
    requires m.kind != OtherMember
    ensures HoldsExactly(root', init + [m], prefix)
  {
    var ms, path := init + [m], PathOf(m, prefix);
    assert forall n :: n in ms <==> n in init || n == m;
    assert forall p: Path :: !ProperPrefix(p, []);
    if path != [] {
      PutFailsExactly(root, path, LeafOf(m));
    }
    assert m in ms;
    forall p
      ensures forall i :: At(Dir(root'), p) == Holds(i) <==> exists n :: n in ms && LeafAt(n, prefix, p) && LeafOf(n) == Some(i)
    {
      if path != [] {
        PutAt(root, path, LeafOf(m), p);
      }
    }
    forall p ensures At(Dir(root'), p) == Folder <==> p == [] || exists n :: n in ms && FolderAt(n, prefix, p) {
      if path != [] {
        PutAt(root, path, LeafOf(m), p);
        assert At(Dir(root), p) == Folder <==> p == [] || exists n :: n in init && FolderAt(n, prefix, p);
        if FolderAt(m, prefix, p) {
          assert At(Dir(root'), p) == Folder;
        } else {
          assert At(Dir(root'), p) == Folder <==> At(Dir(root), p) == Folder;
        }
      }
    }
  }

  lemma StepCaptured(captured: map<Path, bytes>, captured': map<Path, bytes>, init: seq<Member>, m: Member,
                     prefix: bytes, watched: set<Path>)
    requires CapturedExactly(captured, init, prefix, watched)
    requires forall n <- init :: PathOf(n, prefix) != PathOf(m, prefix)
    requires captured' == if m.kind == RegularMember && PathOf(m, prefix) in watched
                          then captured[PathOf(m, prefix) := m.data] else captured
    ensures CapturedExactly(captured', init + [m], prefix, watched)
  {
    var ms := init + [m];
    assert forall n :: n in ms <==> n in init || n == m;
    forall p <- captured' ensures p in watched && exists n :: n in ms && Captures(n, prefix, p, captured'[p]) {
      if p in captured && captured[p] == captured'[p] {
        var n :| n in init && Captures(n, prefix, p, captured[p]);
        assert n in ms && Captures(n, prefix, p, captured'[p]);
      } else {
        assert m in ms && Captures(m, prefix, p, captured'[p]);
      }
    }
  }

  // ---------- the order of the members does not matter ----------

  lemma {:induction false} TwoOccurrences<T>(s: seq<T>, x: T)
    requires multiset(s)[x] >= 2
    ensures exists i, j :: 0 <= i < j < |s| && s[i] == x && s[j] == x
  {
    assert s == [s[0]] + s[1..];
    if s[0] == x {
      assert x in multiset(s[1..]);
      var j :| 0 <= j < |s[1..]| && s[1..][j] == x;
      assert s[j + 1] == x;
    } else {
      TwoOccurrences(s[1..], x);
      var i, j :| 0 <= i < j < |s[1..]| && s[1..][i] == x && s[1..][j] == x;
      assert s[i + 1] == x && s[j + 1] == x;
    }
  }

  lemma {:induction false} Occurrences<T>(s: seq<T>, i: nat, j: nat)
    requires i < j < |s| && s[i] == s[j]
    ensures multiset(s)[s[i]] >= 2
  {
    assert s == s[..j] + s[j..];
    assert s[i] in s[..j] && s[j] in s[j..];
  }

  lemma WellFormedPermutes(ms: seq<Member>, ns: seq<Member>, prefix: bytes, watched: set<Path>)
    requires multiset(ms) == multiset(ns) && WellFormed(ms, prefix, watched)
    ensures WellFormed(ns, prefix, watched)
  {
    forall n ensures n in ns <==> n in ms {
      assert n in multiset(ns) <==> n in multiset(ms);
    }
    forall i, j | 0 <= i < j < |ns| ensures PathOf(ns[i], prefix) != PathOf(ns[j], prefix) {
      if ns[i] == ns[j] {
        Occurrences(ns, i, j);
        TwoOccurrences(ms, ns[i]);
        assert false;
      } else {
        assert ns[i] in ms && ns[j] in ms;
        var k, l :| 0 <= k < |ms| && 0 <= l < |ms| && ms[k] == ns[i] && ms[l] == ns[j];
        assert k < l || l < k;
      }
    }
  }

  /** One root directory member accepted with a prefix fixes the derived prefix. */
  lemma PrefixDerived(ms: seq<Member>, prefix: bytes, watched: set<Path>)
    requires ms != [] && WellFormed(ms, prefix, watched)
    ensures PrefixFor(ms, None) == prefix
  {
    assert MemberOk(ms[0], prefix, watched);
    FirstComponent(ms[0].name);
  }

  /** scan_archive is confluent: members in another order are accepted or refused alike,
      and give the same tree, the same captured contents and the same set of paths. */
  lemma ScanConfluent(ms: seq<Member>, ns: seq<Member>, expected: Option<bytes>, watched: set<Path>)
    requires multiset(ms) == multiset(ns)
    ensures ScanArchive(ms, expected, watched) == ScanArchive(ns, expected, watched)
  {
    if ScanArchive(ms, expected, watched).Some? {
      ScanPermutes(ms, ns, expected, watched);
    } else if ScanArchive(ns, expected, watched).Some? {
      ScanPermutes(ns, ms, expected, watched);
    }
  }

  lemma ScanPermutes(ms: seq<Member>, ns: seq<Member>, expected: Option<bytes>, watched: set<Path>)
    requires multiset(ms) == multiset(ns) && ScanArchive(ms, expected, watched).Some?
    ensures ScanArchive(ms, expected, watched) == ScanArchive(ns, expected, watched)
  {
    var prefix := PrefixFor(ms, expected);
    ScanExact(ms, prefix, watched);
    WellFormedPermutes(ms, ns, prefix, watched);
    assert |ms| == |multiset(ms)| == |multiset(ns)| == |ns|;
    if ns != [] && expected.None? {
      PrefixDerived(ns, prefix, watched);
    }
    assert PrefixFor(ns, expected) == prefix;
    ScanExact(ns, prefix, watched);
    forall n ensures n in ns <==> n in ms {
      assert n in multiset(ns) <==> n in multiset(ms);
    }
    SameScan(ScanMembers(ms, prefix, watched).value, ScanMembers(ns, prefix, watched).value, ms, ns, prefix, watched);
  }

  lemma SameScan(s: Scan, t: Scan, ms: seq<Member>, ns: seq<Member>, prefix: bytes, watched: set<Path>)
    requires forall n :: n in ns <==> n in ms
    requires HoldsExactly(s.root, ms, prefix) && HoldsExactly(t.root, ns, prefix)
    requires SeenExactly(s.seen, ms, prefix) && SeenExactly(t.seen, ns, prefix)
    requires CapturedExactly(s.captured, ms, prefix, watched) && CapturedExactly(t.captured, ns, prefix, watched)
    ensures s == t
  {
    SameTree(s.root, t.root, ms, ns, prefix);
    assert s.seen == t.seen;
    CapturedSubset(s.captured, t.captured, ms, ns, prefix, watched);
    CapturedSubset(t.captured, s.captured, ns, ms, prefix, watched);
    assert s.captured == t.captured;
  }

  lemma CapturedSubset(c: map<Path, bytes>, d: map<Path, bytes>, ms: seq<Member>, ns: seq<Member>, prefix: bytes, watched: set<Path>)
    requires forall n :: n in ns <==> n in ms
    requires CapturedExactly(c, ms, prefix, watched) && CapturedExactly(d, ns, prefix, watched)
    ensures forall p <- c :: p in d && d[p] == c[p]
  {
    forall p <- c ensures p in d && d[p] == c[p] {
      var m :| m in ms && Captures(m, prefix, p, c[p]);
      assert m in ns;
    }
  }

  lemma SameTree(r: map<bytes, Contents>, r': map<bytes, Contents>, ms: seq<Member>, ns: seq<Member>, prefix: bytes)
    requires forall n :: n in ns <==> n in ms
    requires HoldsExactly(r, ms, prefix) && HoldsExactly(r', ns, prefix)
    ensures r == r'
  {
    forall p ensures At(Dir(r), p) == At(Dir(r'), p) {
      SameSpot(r, r', ms, ns, prefix, p);
    }
    TreeExtensional(Dir(r), Dir(r'));
  }

  lemma SameSpot(r: map<bytes, Contents>, r': map<bytes, Contents>, ms: seq<Member>, ns: seq<Member>, prefix: bytes, p: Path)
    requires forall n :: n in ns <==> n in ms
    requires HoldsExactly(r, ms, prefix) && HoldsExactly(r', ns, prefix)
    ensures At(Dir(r), p) == At(Dir(r'), p)
  {
    match At(Dir(r), p)
    case Holds(i) => assert At(Dir(r'), p) == Holds(i);
    case Folder => assert At(Dir(r'), p) == Folder;
    case Absent =>
      assert At(Dir(r), p) != Folder;
      assert forall i :: At(Dir(r'), p) == Holds(i) <==> At(Dir(r), p) == Holds(i);
  }
}
