/** Canonical TLS ClientHellos, and the comparison of recorded fingerprints. */
module WireFingerprint {
  import opened Results
  import opened JsonText
  import opened Ordering

  // ---------- GREASE ----------

  datatype WireValue = Grease | Value(n: real)

  /** The low sixteen bits JavaScript's & sees. */
  function Low16(value: real): nat {
    (if value >= 0.0 then value.Floor else -((-value).Floor)) % 65536
  }

  /** The mask 0x0f0f keeps the low nibble of each of two bytes; both must be 0xa. */
  predicate IsTlsGrease(value: real) {
    Low16(value) % 16 == 10 && Low16(value) / 256 % 16 == 10
  }

  predicate IsRfc8701(v: nat) {
    exists k: nat :: k < 16 && v == Rfc8701(k)
  }

  /** The sixteen values of section 2 of RFC 8701. */
  function Rfc8701(k: nat): nat {
    0x0a0a + 0x1010 * k
  }

  /** Every GREASE value of section 2 of RFC 8701 is caught, and 0x0a1a, which is not one, too. */
  lemma GreaseIncludesRfc8701(k: nat)
    requires k < 16
    ensures IsTlsGrease(Rfc8701(k) as real)
    ensures IsTlsGrease(0x0a1a as real) && !IsRfc8701(0x0a1a)
  {
    Bytes8701(k);
    assert (Rfc8701(k) as real).Floor == Rfc8701(k);
  }

  lemma Bytes8701(k: nat)
    requires k < 16
    ensures Rfc8701(k) < 65536 && Rfc8701(k) / 256 == Rfc8701(k) % 256 == 10 + 16 * k && Rfc8701(k) % 16 == 10
  {
    var n := Rfc8701(k);
    assert n == 16 * (160 + 257 * k) + 10 && n == 256 * (10 + 16 * k) + 10 + 16 * k;
  }

  /** A sixteen-bit value is one of RFC 8701 exactly if the mask catches it and its two bytes
      are the same. */
  lemma Rfc8701Exactly(v: nat)
    requires v < 65536
    ensures IsRfc8701(v) <==> IsTlsGrease(v as real) && v / 256 == v % 256
  {
    assert (v as real).Floor == v;
    forall k: nat | k < 16 && v == Rfc8701(k) ensures IsTlsGrease(v as real) && v / 256 == v % 256 {
      Bytes8701(k);
    }
    if IsTlsGrease(v as real) && v / 256 == v % 256 {
      var k := v / 256 / 16;
      assert v == 257 * (v / 256) && v / 256 == 16 * k + 10;
      assert v == Rfc8701(k);
    }
  }

  function NormalizeTlsGrease(values: seq<real>): (r: seq<WireValue>)
    ensures |r| == |values|
    ensures forall i :: 0 <= i < |values| ==> r[i] == if IsTlsGrease(values[i]) then Grease else Value(values[i])
  {
    if values == [] then []
    else [if IsTlsGrease(values[0]) then Grease else Value(values[0])] + NormalizeTlsGrease(values[1..])
  }

  // ---------- sorting ----------

  /** The comparison given to sort. */
  function Compare(left: WireValue, right: WireValue): real {
    if left == right then 0.0
    else if left.Grease? then -1.0
    else if right.Grease? then 1.0
    else left.n - right.n
  }

  predicate Rising(values: seq<WireValue>) {
    forall i, j :: 0 <= i < j < |values| ==> Compare(values[i], values[j]) <= 0.0
  }

  function Insert(x: WireValue, values: seq<WireValue>): seq<WireValue> {
    if values == [] || Compare(x, values[0]) <= 0.0 then [x] + values else [values[0]] + Insert(x, values[1..])
  }

  function SortWireValues(values: seq<WireValue>): seq<WireValue> {
    if values == [] then [] else Insert(values[0], SortWireValues(values[1..]))
  }

  lemma Behead(a: seq<WireValue>)
    requires a != []
    ensures multiset(a) == multiset(a[1..]) + multiset{a[0]} && multiset(a[1..]) == multiset(a) - multiset{a[0]}
  {
    assert a == [a[0]] + a[1..];
  }

  lemma RisingTail(a: seq<WireValue>)
    requires Rising(a) && a != []
    ensures Rising(a[1..])
  {
  }

  lemma {:induction false} InsertContents(x: WireValue, values: seq<WireValue>)
    ensures multiset(Insert(x, values)) == multiset(values) + multiset{x}
  {
    if values != [] {
      Behead(values);
      if Compare(x, values[0]) > 0.0 {
        InsertContents(x, values[1..]);
      }
    }
  }

  lemma {:induction false} InsertAscends(x: WireValue, values: seq<WireValue>)
    requires Rising(values)
    ensures Rising(Insert(x, values))
  {
    if values != [] {
      RisingTail(values);
      if Compare(x, values[0]) <= 0.0 {
        forall j | 0 <= j < |values| ensures Compare(x, values[j]) <= 0.0 {
          CompareTransitive(x, values[0], values[j]);
        }
      } else {
        InsertAscends(x, values[1..]);
        InsertContents(x, values[1..]);
        Prepend(values, x, Insert(x, values[1..]));
      }
    }
  }

  lemma CompareTransitive(x: WireValue, y: WireValue, z: WireValue)
    requires Compare(x, y) <= 0.0 && Compare(y, z) <= 0.0
    ensures Compare(x, z) <= 0.0
  {
  }

  lemma Prepend(values: seq<WireValue>, x: WireValue, rest: seq<WireValue>)
    requires values != [] && Rising(values) && Rising(rest) && Compare(values[0], x) <= 0.0
    requires multiset(rest) == multiset(values[1..]) + multiset{x}
    ensures Rising([values[0]] + rest)
  {
    forall j | 0 <= j < |rest| ensures Compare(values[0], rest[j]) <= 0.0 {
      assert rest[j] in multiset(rest);
      assert rest[j] == x || rest[j] in values[1..];
    }
  }

  lemma {:induction false} SortSorts(values: seq<WireValue>)
    ensures Rising(SortWireValues(values)) && multiset(SortWireValues(values)) == multiset(values)
  {
    if values != [] {
      SortSorts(values[1..]);
      InsertAscends(values[0], SortWireValues(values[1..]));
      InsertContents(values[0], SortWireValues(values[1..]));
      assert values == [values[0]] + values[1..];
    }
  }

  lemma SameLeast(a: seq<WireValue>, b: seq<WireValue>)
    requires Rising(a) && Rising(b) && multiset(a) == multiset(b) && a != [] && b != []
    ensures a[0] == b[0]
  {
    assert a[0] in multiset(b) && b[0] in multiset(a);
    FirstIsLeast(a, b[0]);
    FirstIsLeast(b, a[0]);
  }

  lemma SameTails(a: seq<WireValue>, b: seq<WireValue>)
    requires multiset(a) == multiset(b) && a != [] && b != [] && a[0] == b[0]
    ensures multiset(a[1..]) == multiset(b[1..])
  {
    Behead(a);
    Behead(b);
  }

  /** There is one way only to put given values in order, so any correct sort gives this one. */
  lemma {:induction false} OneSortedOrder(a: seq<WireValue>, b: seq<WireValue>)
    requires Rising(a) && Rising(b) && multiset(a) == multiset(b)
    ensures a == b
  {
    assert |multiset(a)| == |multiset(b)|;
    if a != [] {
      SameLeast(a, b);
      SameTails(a, b);
      RisingTail(a);
      RisingTail(b);
      OneSortedOrder(a[1..], b[1..]);
      assert a == [a[0]] + a[1..] && b == [b[0]] + b[1..];
    }
  }

  lemma FirstIsLeast(a: seq<WireValue>, x: WireValue)
    requires Rising(a) && x in a
    ensures Compare(a[0], x) <= 0.0
  {
  }

  /** Two extension lists have the same canonical form exactly if they are the same multiset
      once GREASE is masked. */
  lemma ExtensionsExactly(a: seq<real>, b: seq<real>)
    ensures SortWireValues(NormalizeTlsGrease(a)) == SortWireValues(NormalizeTlsGrease(b))
            <==> multiset(NormalizeTlsGrease(a)) == multiset(NormalizeTlsGrease(b))
  {
    SortSorts(NormalizeTlsGrease(a));
    SortSorts(NormalizeTlsGrease(b));
    if multiset(NormalizeTlsGrease(a)) == multiset(NormalizeTlsGrease(b)) {
      OneSortedOrder(SortWireValues(NormalizeTlsGrease(a)), SortWireValues(NormalizeTlsGrease(b)));
    }
  }

  /** Permuting the extensions and choosing other GREASE code points leaves the canonical form
      alone: the k-th extension of one handshake is the p[k]-th of the other, up to GREASE. */
  lemma PermutedExtensions(a: seq<real>, b: seq<real>, p: seq<nat>)
    requires |a| == |b| == |p|
    requires forall k :: 0 <= k < |p| ==> p[k] < |p|
    requires forall j, k :: 0 <= j < k < |p| ==> p[j] != p[k]
    requires forall k :: 0 <= k < |p| ==> a[k] == b[p[k]] || (IsTlsGrease(a[k]) && IsTlsGrease(b[p[k]]))
    ensures SortWireValues(NormalizeTlsGrease(a)) == SortWireValues(NormalizeTlsGrease(b))
  {
    var x, y := NormalizeTlsGrease(a), NormalizeTlsGrease(b);
    assert forall k :: 0 <= k < |p| ==> x[k] == y[p[k]];
    Permuted(x, y, p);
    ExtensionsExactly(a, b);
  }

  lemma {:induction false} Permuted(x: seq<WireValue>, y: seq<WireValue>, p: seq<nat>)
    requires |x| == |y| == |p|
    requires forall k :: 0 <= k < |p| ==> p[k] < |p|
    requires forall j, k :: 0 <= j < k < |p| ==> p[j] != p[k]
    requires forall k :: 0 <= k < |p| ==> x[k] == y[p[k]]
    ensures multiset(x) == multiset(y)
  {
    if x != [] {
      var n := |x| - 1;
      var at := p[n];
      var q := seq(n, k requires 0 <= k < n => if p[k] < at then p[k] else (p[k] - 1) as nat);
      Permuted(x[..n], y[..at] + y[at + 1..], q);
      TakenOut(x, n);
      TakenOut(y, at);
      assert x[..n] + x[n + 1..] == x[..n];
    }
  }

  lemma TakenOut(x: seq<WireValue>, at: nat)
    requires at < |x|
    ensures multiset(x) == multiset(x[..at] + x[at + 1..]) + multiset{x[at]}
  {
    assert x == x[..at] + [x[at]] + x[at + 1..];
  }

  // ---------- ClientHellos ----------

  /** Arrays keep their numbers, anything else counts as empty. */
  function Numbers(value: Option<Json>): seq<real> {
    if value.Some? && value.value.Arr? then NumberItems(value.value.items) else []
  }

  function NumberItems(items: Items): seq<real> {
    match items
    case NoItems => []
    case Item(head, tail) => (if head.Number? then [head.n] else []) + NumberItems(tail)
  }

  function Strings(value: Option<Json>): seq<Text> {
    if value.Some? && value.value.Arr? then StringItems(value.value.items) else []
  }

  function StringItems(items: Items): seq<Text> {
    match items
    case NoItems => []
    case Item(head, tail) => (if head.Str? then [head.s] else []) + StringItems(tail)
  }

  function NumberOrZero(value: Option<Json>): real {
    if value.Some? && value.value.Number? then value.value.n else 0.0
  }

  /** What is read of a ClientHello; E is how a list that may hold GREASE is kept. */
  datatype Hello<E> = Hello(
    recordVersion: real, handshakeVersion: real, cipherSuites: seq<E>, compressionMethods: seq<real>,
    extensionMultiset: seq<E>, supportedGroups: seq<E>, ecPointFormats: seq<real>,
    signatureAlgorithms: seq<real>, alpn: seq<Text>, compressCertificate: Option<seq<real>>, recordSizeLimit: seq<real>,
    supportedVersions: seq<E>, pskKeyExchangeModes: seq<real>, keyShare: seq<E>, applicationSettings: Json)

  function ReadHello(h: Members): Hello<real> {
    Hello(
      NumberOrZero(Lookup(h, "tls_record_version")),
      NumberOrZero(Lookup(h, "tls_handshake_version")),
      Numbers(Lookup(h, "cipher_suites")),
      Numbers(Lookup(h, "compression_methods")),
      Numbers(Lookup(h, "extensions")),
      Numbers(Lookup(h, "supported_groups")),
      Numbers(Lookup(h, "ec_point_formats")),
      Numbers(Lookup(h, "signature_algorithms")),
      Strings(Lookup(h, "alpn")),
      if Lookup(h, "compress_certificate") == Some(Null) then None else Some(Numbers(Lookup(h, "compress_certificate"))),
      Numbers(Lookup(h, "record_size_limit")),
      Numbers(Lookup(h, "supported_versions")),
      Numbers(Lookup(h, "psk_key_exchange_modes")),
      Numbers(Lookup(h, "key_share")),
      OrNull(Lookup(h, "application_settings")))
  }

  function Canonical(h: Hello<real>): Hello<WireValue> {
    Hello(
      h.recordVersion, h.handshakeVersion, NormalizeTlsGrease(h.cipherSuites), h.compressionMethods,
      SortWireValues(NormalizeTlsGrease(h.extensionMultiset)), NormalizeTlsGrease(h.supportedGroups), h.ecPointFormats,
      h.signatureAlgorithms, h.alpn, h.compressCertificate, h.recordSizeLimit,
      NormalizeTlsGrease(h.supportedVersions), h.pskKeyExchangeModes, NormalizeTlsGrease(h.keyShare), h.applicationSettings)
  }

  /** canonicalizeClientHello */
  function CanonicalizeClientHello(h: Members): Hello<WireValue> {
    Canonical(ReadHello(h))
  }

  function OrNull(value: Option<Json>): Json {
    if value.Some? then value.value else Null
  }

  /** Lists that differ at most in which GREASE code points they use. */
  predicate AlikeUpToGrease(a: seq<real>, b: seq<real>) {
    |a| == |b| && forall i :: 0 <= i < |a| ==> a[i] == b[i] || (IsTlsGrease(a[i]) && IsTlsGrease(b[i]))
  }

  lemma AlikeExactly(a: seq<real>, b: seq<real>)
    ensures NormalizeTlsGrease(a) == NormalizeTlsGrease(b) <==> AlikeUpToGrease(a, b)
  {
    var x, y := NormalizeTlsGrease(a), NormalizeTlsGrease(b);
    if AlikeUpToGrease(a, b) {
      assert forall i :: 0 <= i < |a| ==> x[i] == y[i];
    }
    if x == y {
      forall i | 0 <= i < |a| ensures a[i] == b[i] || (IsTlsGrease(a[i]) && IsTlsGrease(b[i])) {
        assert x[i] == y[i];
      }
    }
  }

  function WithoutGreaseLists(h: Hello<real>): Hello<real> {
    h.(cipherSuites := [], extensionMultiset := [], supportedGroups := [], supportedVersions := [], keyShare := [])
  }

  /** Two ClientHellos have the same canonical form exactly if they differ at most in the choice
      of GREASE code points and in the order of their extensions. */
  lemma ClientHellosExactly(g: Members, h: Members)
    ensures var x, y := ReadHello(g), ReadHello(h);
            CanonicalizeClientHello(g) == CanonicalizeClientHello(h)
            <==> && WithoutGreaseLists(x) == WithoutGreaseLists(y)
                 && AlikeUpToGrease(x.cipherSuites, y.cipherSuites) && AlikeUpToGrease(x.supportedGroups, y.supportedGroups)
                 && AlikeUpToGrease(x.supportedVersions, y.supportedVersions) && AlikeUpToGrease(x.keyShare, y.keyShare)
                 && multiset(NormalizeTlsGrease(x.extensionMultiset)) == multiset(NormalizeTlsGrease(y.extensionMultiset))
  {
    HellosExactly(ReadHello(g), ReadHello(h));
  }

  lemma HellosExactly(x: Hello<real>, y: Hello<real>)
    ensures Canonical(x) == Canonical(y)
            <==> && WithoutGreaseLists(x) == WithoutGreaseLists(y)
                 && AlikeUpToGrease(x.cipherSuites, y.cipherSuites) && AlikeUpToGrease(x.supportedGroups, y.supportedGroups)
                 && AlikeUpToGrease(x.supportedVersions, y.supportedVersions) && AlikeUpToGrease(x.keyShare, y.keyShare)
                 && multiset(NormalizeTlsGrease(x.extensionMultiset)) == multiset(NormalizeTlsGrease(y.extensionMultiset))
  {
    AlikeExactly(x.cipherSuites, y.cipherSuites);
    AlikeExactly(x.supportedGroups, y.supportedGroups);
    AlikeExactly(x.supportedVersions, y.supportedVersions);
    AlikeExactly(x.keyShare, y.keyShare);
    ExtensionsExactly(x.extensionMultiset, y.extensionMultiset);
  }

  // ---------- differences ----------

  /** What an expression left[key] gives: nothing that has a text (undefined, or a function that
      every object inherits), a value of the record, or Object.prototype. */
  datatype Seen = Undefined | Own(j: Json) | Prototype

  const PROTO: Text := "__proto__"

  predicate IsObject(s: Seen) {
    s.Prototype? || (s.Own? && s.j.Obj?)
  }

  /** The members Object.keys lists. */
  function Listed(s: Seen): Members
    requires IsObject(s)
  {
    if s.Own? then s.j.members else NoMembers
  }

  /** Reading a member. An object without an own __proto__ has Object.prototype there, and
      Object.prototype itself has null. */
  function Get(s: Seen, key: Text): Seen
    requires IsObject(s)
  {
    var own := Lookup(Listed(s), key);
    if own.Some? then Own(own.value)
    else if key != PROTO then Undefined
    else if s.Own? then Prototype
    else Own(Null)
  }

  function Size(s: Seen): nat {
    match s
    case Undefined => 0
    case Own(j) => JsonSize(j)
    case Prototype => 1
  }

  lemma GetSmaller(s: Seen, key: Text)
    requires IsObject(s)
    ensures Lookup(Listed(s), key).Some? <==> key in Keys(Listed(s))
    ensures Size(Get(s, key)) <= Size(s) && (key in Keys(Listed(s)) ==> Size(Get(s, key)) < Size(s))
  {
    LookupKeys(Listed(s), key);
  }

  /** The keys seen so far, and those of m that are new. */
  function AddKeys(seen: seq<Text>, m: Members): (r: seq<Text>)
    ensures forall k :: k in r <==> k in seen || k in Keys(m)
    ensures NoRepeats(seen) ==> NoRepeats(r)
    decreases m
  {
    match m
    case NoMembers => seen
    case Member(k, _, rest) => AddKeys(if k in seen then seen else seen + [k], rest)
  }

  /** The union of the keys of both, each once, in order. */
  function SortedKeys(l: Members, r: Members): (keys: seq<Text>)
    ensures forall k :: k in keys <==> k in Keys(l) || k in Keys(r)
  {
    SortBy(Codes, AddKeys(AddKeys([], l), r))
  }

  lemma SortedKeysSymmetric(l: Members, r: Members)
    ensures SortedKeys(l, r) == SortedKeys(r, l)
  {
    var x, y := AddKeys(AddKeys([], l), r), AddKeys(AddKeys([], r), l);
    CodesDistinct(x);
    CodesDistinct(y);
    SortExactly(Codes, x, y);
  }

  function TextOf(num: Numerals, s: Seen): Option<Text> {
    match s
    case Undefined => None
    case Own(j) => Some(Stringify(num, j))
    case Prototype => Some(['{', '}'])
  }

  function Below(prefix: Text, key: Text): Text {
    if prefix == "" then key else prefix + "." + key
  }

  /** diffNetworkFingerprint */
  function Diff(num: Numerals, expected: Seen, actual: Seen, prefix: Text): seq<Text>
    decreases Size(expected) + Size(actual), 0
  {
    if TextOf(num, expected) == TextOf(num, actual) then []
    else if !IsObject(expected) || !IsObject(actual) then [if prefix == "" then "value" else prefix]
    else DiffKeys(num, expected, actual, SortedKeys(Listed(expected), Listed(actual)), prefix)
  }

  function DiffKeys(num: Numerals, l: Seen, r: Seen, keys: seq<Text>, prefix: Text): seq<Text>
    requires IsObject(l) && IsObject(r) && forall k <- keys :: k in Keys(Listed(l)) || k in Keys(Listed(r))
    decreases Size(l) + Size(r), 0, |keys|
  {
    if keys == [] then []
    else
      GetSmaller(l, keys[0]);
      GetSmaller(r, keys[0]);
      Diff(num, Get(l, keys[0]), Get(r, keys[0]), Below(prefix, keys[0])) + DiffKeys(num, l, r, keys[1..], prefix)
  }

  predicate Agrees(num: Numerals, l: Seen, r: Seen, key: Text, prefix: Text)
    requires IsObject(l) && IsObject(r)
  {
    Diff(num, Get(l, key), Get(r, key), Below(prefix, key)) == []
  }

  predicate AllAgree(num: Numerals, l: Seen, r: Seen, keys: seq<Text>, prefix: Text)
    requires IsObject(l) && IsObject(r)
  {
    forall k <- keys :: Agrees(num, l, r, k, prefix)
  }

  lemma AllAgreeSplit(num: Numerals, l: Seen, r: Seen, keys: seq<Text>, prefix: Text)
    requires IsObject(l) && IsObject(r) && keys != []
    ensures AllAgree(num, l, r, keys, prefix) <==> Agrees(num, l, r, keys[0], prefix) && AllAgree(num, l, r, keys[1..], prefix)
  {
    assert keys == [keys[0]] + keys[1..];
  }

  lemma {:induction false} DiffKeysEmpty(num: Numerals, l: Seen, r: Seen, keys: seq<Text>, prefix: Text)
    requires IsObject(l) && IsObject(r) && forall k <- keys :: k in Keys(Listed(l)) || k in Keys(Listed(r))
    ensures DiffKeys(num, l, r, keys, prefix) == [] <==> AllAgree(num, l, r, keys, prefix)
  {
    if keys != [] {
      DiffKeysEmpty(num, l, r, keys[1..], prefix);
      AllAgreeSplit(num, l, r, keys, prefix);
    }
  }

  /** Comparing the other way round reports the same paths. */
  lemma {:induction false} DiffSymmetric(num: Numerals, a: Seen, b: Seen, prefix: Text)
    ensures Diff(num, a, b, prefix) == Diff(num, b, a, prefix)
    decreases Size(a) + Size(b), 0
  {
    if IsObject(a) && IsObject(b) && TextOf(num, a) != TextOf(num, b) {
      SortedKeysSymmetric(Listed(a), Listed(b));
      DiffKeysSymmetric(num, a, b, SortedKeys(Listed(a), Listed(b)), prefix);
    }
  }

  lemma {:induction false} DiffKeysSymmetric(num: Numerals, l: Seen, r: Seen, keys: seq<Text>, prefix: Text)
    requires IsObject(l) && IsObject(r) && forall k <- keys :: k in Keys(Listed(l)) || k in Keys(Listed(r))
    ensures DiffKeys(num, l, r, keys, prefix) == DiffKeys(num, r, l, keys, prefix)
    decreases Size(l) + Size(r), 0, |keys|
  {
    if keys != [] {
      GetSmaller(l, keys[0]);
      GetSmaller(r, keys[0]);
      DiffSymmetric(num, Get(l, keys[0]), Get(r, keys[0]), Below(prefix, keys[0]));
      DiffKeysSymmetric(num, l, r, keys[1..], prefix);
    }
  }

  // ---------- what goes unreported ----------

  const AnyKey: Text -> bool := (key: Text) => true

  /** No object outside arrays repeats a key. */
  predicate Distinct(v: Json) {
    Keyed(v, AnyKey)
  }

  /** The own members called __proto__ that are not told from having none. */
  predicate Unseen(v: Json) {
    v == Obj(NoMembers) || v == Obj(Member(PROTO, Null, NoMembers))
  }

  /** Equal up to the order of object members outside arrays, except that of two objects one
      may lack a __proto__ that is unseen in the other. */
  ghost predicate Alike(a: Json, b: Json)
    decreases JsonSize(a), 1
  {
    if a.Obj? && b.Obj?
    then forall key <- Keys(a.members) + Keys(b.members) :: AlikeAt(a.members, b.members, key)
    else a == b
  }

  ghost predicate AlikeAt(l: Members, r: Members, key: Text)
    decreases JsonSize(Obj(l)), 0
  {
    LookupKeys(l, key);
    match (Lookup(l, key), Lookup(r, key))
    case (Some(v), Some(w)) => Alike(v, w)
    case (Some(v), None) => key == PROTO && Unseen(v)
    case (None, Some(w)) => key == PROTO && Unseen(w)
    case (None, None) => true
  }

  /** Of two objects met at the same place, both or neither own a __proto__. */
  ghost predicate NoGap(a: Json, b: Json)
    decreases JsonSize(a), 1
  {
    a.Obj? && b.Obj? ==>
      && (PROTO in Keys(a.members) <==> PROTO in Keys(b.members))
      && forall key <- Keys(a.members) + Keys(b.members) :: NoGapAt(a.members, b.members, key)
  }

  ghost predicate NoGapAt(l: Members, r: Members, key: Text)
    decreases JsonSize(Obj(l)), 0
  {
    LookupKeys(l, key);
    Lookup(l, key).Some? && Lookup(r, key).Some? ==> NoGap(Lookup(l, key).value, Lookup(r, key).value)
  }

  /** No difference is reported exactly if the values are alike. */
  lemma {:induction false} DiffEmptyExactly(num: Numerals, a: Json, b: Json, prefix: Text)
    requires Lawful(num) && Distinct(a) && Distinct(b)
    ensures Diff(num, Own(a), Own(b), prefix) == [] <==> Alike(a, b)
    decreases JsonSize(a), 1
  {
    TextsTellApart(num, a, b);
    if a == b {
      AlikeReflexive(a);
    } else if a.Obj? && b.Obj? {
      var l, r := a.members, b.members;
      forall key | key in Keys(l) || key in Keys(r)
        ensures Agrees(num, Own(a), Own(b), key, prefix) <==> AlikeAt(l, r, key)
      {
        AgreesExactly(num, l, r, key, prefix);
      }
      ObjectsAlike(num, l, r, prefix);
    }
  }

  lemma ObjectsAlike(num: Numerals, l: Members, r: Members, prefix: Text)
    requires Stringify(num, Obj(l)) != Stringify(num, Obj(r))
    requires forall key | key in Keys(l) || key in Keys(r) :: Agrees(num, Own(Obj(l)), Own(Obj(r)), key, prefix) <==> AlikeAt(l, r, key)
    ensures Diff(num, Own(Obj(l)), Own(Obj(r)), prefix) == [] <==> Alike(Obj(l), Obj(r))
  {
    DiffKeysEmpty(num, Own(Obj(l)), Own(Obj(r)), SortedKeys(l, r), prefix);
  }

  lemma {:induction false} AgreesExactly(num: Numerals, l: Members, r: Members, key: Text, prefix: Text)
    requires Lawful(num) && Distinct(Obj(l)) && Distinct(Obj(r)) && (key in Keys(l) || key in Keys(r))
    ensures Agrees(num, Own(Obj(l)), Own(Obj(r)), key, prefix) <==> AlikeAt(l, r, key)
    decreases JsonSize(Obj(l)), 0
  {
    LookupKeys(l, key);
    LookupKeys(r, key);
    KeyedLookup(l, key, AnyKey);
    KeyedLookup(r, key, AnyKey);
    match (Lookup(l, key), Lookup(r, key))
    case (Some(v), Some(w)) => DiffEmptyExactly(num, v, w, Below(prefix, key));
    case (Some(v), None) => UnseenExactly(num, v, Below(prefix, key));
    case (None, Some(w)) =>
      UnseenExactly(num, w, Below(prefix, key));
      DiffSymmetric(num, Prototype, Own(w), Below(prefix, key));
  }

  /** Where the other side reads Object.prototype, only an unseen value is not reported. */
  lemma UnseenExactly(num: Numerals, v: Json, prefix: Text)
    requires Lawful(num) && Distinct(v)
    ensures Diff(num, Own(v), Prototype, prefix) == [] <==> Unseen(v)
  {
    TextsTellApart(num, v, Obj(NoMembers));
    EmptyText(num);
    if v.Obj? && v != Obj(NoMembers) {
      forall key | key in Keys(v.members) ensures Agrees(num, Own(v), Prototype, key, prefix) <==> NullProto(v.members, key) {
        NullProtoExactly(num, v.members, key, prefix);
      }
      AgainstPrototype(num, v.members, prefix);
      OnlyProto(v.members);
    }
  }

  predicate NullProto(m: Members, key: Text) {
    key == PROTO && Lookup(m, key) == Some(Null)
  }

  lemma NullProtoExactly(num: Numerals, m: Members, key: Text, prefix: Text)
    requires Lawful(num) && key in Keys(m)
    ensures Agrees(num, Own(Obj(m)), Prototype, key, prefix) <==> NullProto(m, key)
  {
    LookupKeys(m, key);
    TextsTellApart(num, Lookup(m, key).value, Null);
  }

  lemma AgainstPrototype(num: Numerals, m: Members, prefix: Text)
    requires Stringify(num, Obj(m)) != ['{', '}']
    requires forall key <- Keys(m) :: Agrees(num, Own(Obj(m)), Prototype, key, prefix) <==> NullProto(m, key)
    ensures Diff(num, Own(Obj(m)), Prototype, prefix) == [] <==> forall key <- Keys(m) :: NullProto(m, key)
  {
    DiffKeysEmpty(num, Own(Obj(m)), Prototype, SortedKeys(m, NoMembers), prefix);
  }

  lemma EmptyText(num: Numerals)
    ensures Stringify(num, Obj(NoMembers)) == ['{', '}']
  {
  }

  lemma OnlyProto(m: Members)
    requires Distinct(Obj(m)) && m.Member?
    ensures (forall key <- Keys(m) :: NullProto(m, key)) <==> m == Member(PROTO, Null, NoMembers)
  {
    assert KeyedMembers(m, AnyKey) && m.key in Keys(m);
    if m.rest.Member? {
      assert m.rest.key in Keys(m.rest) && m.rest.key in Keys(m) && m.rest.key != m.key;
    }
  }

  lemma {:induction false} AlikeReflexive(a: Json)
    ensures Alike(a, a)
    decreases JsonSize(a)
  {
    if a.Obj? {
      forall key | key in Keys(a.members) ensures AlikeAt(a.members, a.members, key) {
        LookupKeys(a.members, key);
        AlikeReflexive(Lookup(a.members, key).value);
      }
    }
  }

  /** Equality up to the order of members is being alike without a gap. */
  lemma {:induction false} SameExactly(a: Json, b: Json)
    requires Distinct(a)
    ensures Same(a, b) <==> Alike(a, b) && NoGap(a, b)
    decreases JsonSize(a)
  {
    if a.Obj? && b.Obj? {
      var l, r := a.members, b.members;
      SameMembersMeans(l, r, AnyKey);
      forall key ensures SameAt(l, r, key) ==> AlikeAt(l, r, key) && NoGapAt(l, r, key)
                 ensures Lookup(l, key).Some? && Lookup(r, key).Some? && AlikeAt(l, r, key) && NoGapAt(l, r, key) ==> SameAt(l, r, key)
      {
        LookupKeys(l, key);
        KeyedLookup(l, key, AnyKey);
        if Lookup(l, key).Some? && Lookup(r, key).Some? {
          SameExactly(Lookup(l, key).value, Lookup(r, key).value);
        }
      }
      SameOfParts(l, r);
    }
  }

  lemma SameOfParts(l: Members, r: Members)
    requires SameMembers(l, r) <==> forall k <- Keys(l) :: SameAt(l, r, k)
    requires forall key :: SameAt(l, r, key) ==> AlikeAt(l, r, key) && NoGapAt(l, r, key)
    requires forall key :: Lookup(l, key).Some? && Lookup(r, key).Some? && AlikeAt(l, r, key) && NoGapAt(l, r, key) ==> SameAt(l, r, key)
    ensures Same(Obj(l), Obj(r)) <==> Alike(Obj(l), Obj(r)) && NoGap(Obj(l), Obj(r))
  {
    forall key ensures (Lookup(l, key).Some? <==> key in Keys(l)) && (Lookup(r, key).Some? <==> key in Keys(r)) {
      LookupKeys(l, key);
      LookupKeys(r, key);
    }
    if Alike(Obj(l), Obj(r)) && NoGap(Obj(l), Obj(r)) {
      forall key | key in Keys(l) || key in Keys(r) ensures key in Keys(l) && key in Keys(r) && SameAt(l, r, key) {
        assert AlikeAt(l, r, key) && NoGapAt(l, r, key);
      }
    }
  }

  /** That an empty difference means equality up to the order of members holds of all values
      save those that are alike and have a gap. */
  lemma UnreportedExactly(num: Numerals, a: Json, b: Json, prefix: Text)
    requires Lawful(num) && Distinct(a) && Distinct(b)
    ensures (Diff(num, Own(a), Own(b), prefix) == [] <==> Same(a, b)) <==> (Alike(a, b) ==> NoGap(a, b))
  {
    DiffEmptyExactly(num, a, b, prefix);
    SameExactly(a, b);
  }

  /** An own member called __proto__ that is an empty object goes unnoticed where the other
      value has none. */
  lemma ProtoGoesUnnoticed(num: Numerals)
    ensures var a, b := Obj(NoMembers), Obj(Member(PROTO, Obj(NoMembers), NoMembers));
            Diff(num, Own(a), Own(b), "") == [] && !Same(a, b)
  {
    var a, b := Obj(NoMembers), Obj(Member(PROTO, Obj(NoMembers), NoMembers));
    EmptyText(num);
    DiffKeysEmpty(num, Own(a), Own(b), SortedKeys(a.members, b.members), "");
  }
}
