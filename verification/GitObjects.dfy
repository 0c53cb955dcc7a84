/** Git's object encoding as the archive verifier computes it: blob, tree and commit
    identifiers, and why equal identifiers mean equal objects unless the hash collides.

    The hash is a parameter. It is never assumed to be injective: a 20-byte digest of
    unbounded input cannot be. A theorem that needs two objects to be equal says instead
    that they are equal or that two different byte strings, both taken from a named finite
    set of strings the verifier itself hashes, have the same digest. */
module GitObjects {
  import opened Bytes
  import opened Ordering

  type Oid = s: bytes | |s| == 20 witness seq(20, _ => 0)
  type Hash = bytes -> Oid

  /** Two different strings, one from each set, with one digest. The sets are always
      finite and explicit; over all strings the statement would be trivially true. */
  ghost predicate Collision(h: Hash, s: set<bytes>, t: set<bytes>) {
    exists x, y :: x in s && y in t && x != y && h(x) == h(y)
  }

  // ---------- object framing ----------

  datatype Kind = BlobKind | TreeKind | CommitKind

  function KindName(kind: Kind): bytes {
    match kind
    case BlobKind => [98, 108, 111, 98]              // blob
    case TreeKind => [116, 114, 101, 101]            // tree
    case CommitKind => [99, 111, 109, 109, 105, 116] // commit
  }

  function ObjectBytes(kind: Kind, payload: bytes): bytes {
    KindName(kind) + [SPACE] + Decimal(|payload|) + [NUL] + payload
  }

  function ObjectId(h: Hash, kind: Kind, payload: bytes): Oid {
    h(ObjectBytes(kind, payload))
  }

  /** The framing determines both the kind and the payload. */
  lemma ObjectBytesInjective(k: Kind, p: bytes, l: Kind, q: bytes)
    requires ObjectBytes(k, p) == ObjectBytes(l, q)
    ensures k == l && p == q
  {
    assert KindName(k)[0] == ObjectBytes(k, p)[0] == ObjectBytes(l, q)[0] == KindName(l)[0];
    assert k == l;
    var head, head' := KindName(k) + [SPACE] + Decimal(|p|), KindName(l) + [SPACE] + Decimal(|q|);
    assert ObjectBytes(k, p) == head + [NUL] + p && ObjectBytes(l, q) == head' + [NUL] + q;
    SplitAtFirst(NUL, head, p, head', q);
  }

  // ---------- tree entries ----------

  datatype Mode = TreeMode | FileMode | ExecMode | LinkMode | GitlinkMode

  function ModeText(mode: Mode): bytes {
    match mode
    case TreeMode => [52, 48, 48, 48, 48]         // 40000
    case FileMode => [49, 48, 48, 54, 52, 52]     // 100644
    case ExecMode => [49, 48, 48, 55, 53, 53]     // 100755
    case LinkMode => [49, 50, 48, 48, 48, 48]     // 120000
    case GitlinkMode => [49, 54, 48, 48, 48, 48]  // 160000
  }

  datatype Stamp = Stamp(mode: Mode, oid: Oid)
  datatype Entry = Entry(name: bytes, stamp: Stamp)
  type Entries = map<bytes, Stamp>

  predicate ValidName(name: bytes) {
    name != [] && name != [46] && name != [46, 46] && SLASH !in name && NUL !in name
  }

  predicate ValidEntries(m: Entries) {
    forall n <- m :: ValidName(n)
  }

  function EntryBytes(e: Entry): bytes {
    ModeText(e.stamp.mode) + [SPACE] + e.name + [NUL] + e.stamp.oid
  }

  function EncodeEntries(s: seq<Entry>): bytes {
    if s == [] then [] else EntryBytes(s[0]) + EncodeEntries(s[1..])
  }

  lemma ModeTextInjective(m: Mode, n: Mode)
    requires ModeText(m) == ModeText(n)
    ensures m == n
  {
    assert ModeText(m)[0] == ModeText(n)[0];
    if m != TreeMode {
      assert ModeText(m)[1] == ModeText(n)[1] && ModeText(m)[3] == ModeText(n)[3];
    }
  }

  /** An encoded entry can be cut off the front of a payload in one way only. */
  lemma EntryPrefixUnique(e: Entry, r: bytes, f: Entry, t: bytes)
    requires NUL !in e.name && NUL !in f.name
    requires EntryBytes(e) + r == EntryBytes(f) + t
    ensures e == f && r == t
  {
    var e1, f1 := e.name + [NUL] + e.stamp.oid + r, f.name + [NUL] + f.stamp.oid + t;
    assert EntryBytes(e) + r == ModeText(e.stamp.mode) + [SPACE] + e1;
    assert EntryBytes(f) + t == ModeText(f.stamp.mode) + [SPACE] + f1;
    SplitAtFirst(SPACE, ModeText(e.stamp.mode), e1, ModeText(f.stamp.mode), f1);
    ModeTextInjective(e.stamp.mode, f.stamp.mode);
    var e2, f2 := e.stamp.oid + r, f.stamp.oid + t;
    assert e1 == e.name + [NUL] + e2 && f1 == f.name + [NUL] + f2;
    SplitAtFirst(NUL, e.name, e2, f.name, f2);
    assert e.stamp.oid == e2[..20] && f.stamp.oid == f2[..20];
    assert r == e2[20..] && t == f2[20..];
  }

  /** A tree payload is uniquely decodable. */
  lemma {:induction false} EncodeEntriesInjective(s: seq<Entry>, t: seq<Entry>)
    requires forall e <- s :: NUL !in e.name
    requires forall e <- t :: NUL !in e.name
    requires EncodeEntries(s) == EncodeEntries(t)
    ensures s == t
  {
    if s != [] && t != [] {
      EntryPrefixUnique(s[0], EncodeEntries(s[1..]), t[0], EncodeEntries(t[1..]));
      EncodeEntriesInjective(s[1..], t[1..]);
      assert s == [s[0]] + s[1..] && t == [t[0]] + t[1..];
    } else {
      assert |EncodeEntries(s)| == |EncodeEntries(t)|;
    }
  }

  // ---------- Git's entry order ----------

  /** A directory sorts as if its name ended in a slash. */
  function SortKey(e: Entry): Key {
    if e.stamp.mode == TreeMode then e.name + [SLASH] else e.name
  }

  ghost predicate NoDuplicates<T>(s: seq<T>) {
    forall i, j :: 0 <= i < j < |s| ==> s[i] != s[j]
  }

  /** s enumerates the map m, in any order: the items of a dictionary. */
  ghost predicate Listing(s: seq<Entry>, m: Entries) {
    NoDuplicates(s) && forall e :: e in s <==> e.name in m && m[e.name] == e.stamp
  }

  lemma SortKeyInjective(e: Entry, f: Entry)
    requires SLASH !in e.name && SLASH !in f.name
    requires SortKey(e) == SortKey(f)
    ensures e.name == f.name
  {
    var k := SortKey(e);
    assert SLASH in k ==> k[|k| - 1] == SLASH;
    if SLASH in k {
      assert e.name == k[..|k| - 1] && f.name == k[..|k| - 1];
    }
  }

  lemma SortKeysDistinct(s: seq<Entry>)
    requires forall e <- s :: SLASH !in e.name
    requires forall i, j :: 0 <= i < j < |s| ==> s[i].name != s[j].name
    ensures DistinctBy(SortKey, s)
  {
    forall i, j | 0 <= i < j < |s| ensures SortKey(s[i]) != SortKey(s[j]) {
      if SortKey(s[i]) == SortKey(s[j]) {
        SortKeyInjective(s[i], s[j]);
      }
    }
  }

  function TreePayload(s: seq<Entry>): bytes {
    EncodeEntries(SortBy(SortKey, s))
  }

  lemma ListingNames(s: seq<Entry>, m: Entries)
    requires Listing(s, m)
    ensures forall i, j :: 0 <= i < j < |s| ==> s[i].name != s[j].name
  {
    forall i, j | 0 <= i < j < |s| ensures s[i].name != s[j].name {
      assert s[i] in s && s[j] in s;
    }
  }

  /** The payload depends on the entries only, never on the order in which the
      dictionary yields them. */
  lemma PayloadIgnoresOrder(s: seq<Entry>, t: seq<Entry>, m: Entries)
    requires ValidEntries(m) && Listing(s, m) && Listing(t, m)
    ensures TreePayload(s) == TreePayload(t)
  {
    ListingNames(s, m);
    ListingNames(t, m);
    SortKeysDistinct(s);
    SortKeysDistinct(t);
    SortExactly(SortKey, s, t);
  }

  /** Equal payloads list equal maps. */
  lemma PayloadDeterminesEntries(s: seq<Entry>, m: Entries, t: seq<Entry>, n: Entries)
    requires ValidEntries(m) && ValidEntries(n) && Listing(s, m) && Listing(t, n)
    requires TreePayload(s) == TreePayload(t)
    ensures m == n
  {
    EncodeEntriesInjective(SortBy(SortKey, s), SortBy(SortKey, t));
    forall k | k in m ensures k in n && n[k] == m[k] {
      assert Entry(k, m[k]) in s;
      assert Entry(k, m[k]) in SortBy(SortKey, t);
    }
    forall k | k in n ensures k in m {
      assert Entry(k, n[k]) in t;
      assert Entry(k, n[k]) in SortBy(SortKey, s);
    }
  }

  /** Some enumeration of a map. */
  ghost function AnyListing(m: Entries): (s: seq<Entry>)
    ensures Listing(s, m)
    decreases |m|
  {
    if m == map[] then []
    else
      var k :| k in m;
      var rest := AnyListing(m - {k});
      assert forall e <- rest :: e.name != k;
      [Entry(k, m[k])] + rest
  }

  /** The bytes whose digest names a tree. */
  ghost function TreeBytes(m: Entries): bytes {
    ObjectBytes(TreeKind, TreePayload(AnyListing(m)))
  }

  ghost function TreeId(h: Hash, m: Entries): Oid {
    h(TreeBytes(m))
  }

  /** tree_id of a dictionary, whatever its iteration order. */
  lemma TreeIdOfListing(h: Hash, s: seq<Entry>, m: Entries)
    requires ValidEntries(m) && Listing(s, m)
    ensures ObjectId(h, TreeKind, TreePayload(s)) == TreeId(h, m)
  {
    PayloadIgnoresOrder(s, AnyListing(m), m);
  }

  lemma TreeBytesInjective(m: Entries, n: Entries)
    requires ValidEntries(m) && ValidEntries(n)
    requires TreeBytes(m) == TreeBytes(n)
    ensures m == n
  {
    ObjectBytesInjective(TreeKind, TreePayload(AnyListing(m)), TreeKind, TreePayload(AnyListing(n)));
    PayloadDeterminesEntries(AnyListing(m), m, AnyListing(n), n);
  }

  /** Equal tree identifiers mean equal entries, or the two encodings collide. */
  lemma TreeIdInjective(h: Hash, m: Entries, n: Entries)
    requires ValidEntries(m) && ValidEntries(n)
    requires TreeId(h, m) == TreeId(h, n)
    ensures m == n || Collision(h, {TreeBytes(m)}, {TreeBytes(n)})
  {
    if TreeBytes(m) == TreeBytes(n) {
      TreeBytesInjective(m, n);
    } else {
      assert TreeBytes(m) in {TreeBytes(m)} && TreeBytes(n) in {TreeBytes(n)};
    }
  }
}
