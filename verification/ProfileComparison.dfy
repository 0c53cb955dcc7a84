/** Whether a profile started again shows the identity it showed before. */
module ProfileComparison {
  import opened Results
  import opened Ordering
  import opened JsonText
  import opened FlatPaths
  import Brands
  import S = StructuredFields

  // ---------- lists ----------

  predicate IsText(v: Json) {
    v.Str? && 0 < |v.s| <= 16384
  }

  function Length(items: Items): nat {
    match items
    case NoItems => 0
    case Item(_, tail) => 1 + Length(tail)
  }

  function TextItems(items: Items): Option<seq<Text>> {
    match items
    case NoItems => Some([])
    case Item(head, tail) =>
      match TextItems(tail)
      case None => None
      case Some(rest) => if IsText(head) then Some([head.s] + rest) else None
  }

  function TextsJson(s: seq<Text>): Items {
    if s == [] then NoItems else Item(Str(s[0]), TextsJson(s[1..]))
  }

  function BrandsJson(s: seq<S.Brand>): Items {
    if s == [] then NoItems
    else Item(Obj(Member("brand", Str(s[0].brand), Member("version", Str(s[0].version), NoMembers))), BrandsJson(s[1..]))
  }

  /** The texts of a list, if it is one the comparison accepts. */
  function Stringish(v: Json): (r: Option<seq<Text>>)
    ensures r.Some? ==> NoRepeats(r.value)
  {
    if !v.Arr? || Length(v.items) > 32 then None
    else
      match TextItems(v.items)
      case None => None
      case Some(s) => if NoRepeats(s) then Some(s) else None
  }

  function SortedJson(s: seq<Text>): Json {
    Arr(TextsJson(SortBy(Codes, s)))
  }

  /** stringList */
  function StringList(v: Json): Option<Json> {
    match Stringish(v)
    case None => None
    case Some(s) => Some(SortedJson(s))
  }

  predicate IsHintName(s: Text) {
    |s| > 7 && s[..7] == "sec-ch-" && forall c <- s :: TokenChar(c)
  }

  predicate TokenChar(c: char) {
    'a' <= c <= 'z' || '0' <= c <= '9' || c == '-'
  }

  function Map(f: Text -> Text, s: seq<Text>): seq<Text> {
    if s == [] then [] else [f(s[0])] + Map(f, s[1..])
  }

  /** The lowered hint names of a list, if it is one the comparison accepts. */
  function Hintish(lower: Text -> Text, v: Json): (r: Option<seq<Text>>)
    ensures r.Some? ==> NoRepeats(r.value)
  {
    match Stringish(v)
    case None => None
    case Some(s) => if NoRepeats(Map(lower, s)) && forall n <- Map(lower, s) :: IsHintName(n) then Some(Map(lower, s)) else None
  }

  /** hintNames; the sort before lowering is undone by the one after it. */
  function HintNames(lower: Text -> Text, v: Json): Option<Json> {
    match Hintish(lower, v)
    case None => None
    case Some(s) => Some(SortedJson(s))
  }

  /** The brands of a list, if it is one the comparison accepts. */
  function Brandish(v: Json): Option<seq<S.Brand>> {
    if !v.Arr? || Length(v.items) == 0 || Length(v.items) > 32 then None else AcceptBrands(Brands.ReadBrands(v.items, IsText))
  }

  function AcceptBrands(s: Option<seq<S.Brand>>): (r: Option<seq<S.Brand>>)
    ensures r.Some? ==> Brands.DistinctNames(r.value)
  {
    if s.Some? && Brands.DistinctNames(s.value) && Brands.RealBrands(s.value) != [] then s else None
  }

  function RealJson(s: seq<S.Brand>): Json {
    Arr(BrandsJson(Brands.RealBrands(s)))
  }

  /** brandList */
  function BrandList(v: Json): Option<Json> {
    match Brandish(v)
    case None => None
    case Some(s) => Some(RealJson(s))
  }

  // ---------- the navigator ----------

  const HIGH_ENTROPY: seq<Text> :=
    ["architecture", "bitness", "platform", "platformVersion", "fullVersionList", "uaFullVersion", "model", "wow64", "mobile", "formFactors", "brands"]

  predicate IsBrandField(name: Text) {
    name == "brands" || name == "fullVersionList"
  }

  function HighValue(name: Text, v: Json): Option<Json> {
    if IsBrandField(name) then BrandList(v)
    else if name == "formFactors" then StringList(v)
    else if name == "wow64" || name == "mobile" then
      if v.Boolean? then Some(v) else None
    else if v.Str? then Some(v)
    else None
  }

  /** The fields present, in the fixed order; one that is absent is left out. */
  function HighFields(h: Members, names: seq<Text>): Option<Members> {
    if names == [] then Some(NoMembers)
    else
      match HighFields(h, names[1..])
      case None => None
      case Some(rest) =>
        match Lookup(h, names[0])
        case None => Some(rest)
        case Some(v) => match HighValue(names[0], v) { case None => None case Some(x) => Some(Member(names[0], x, rest)) }
  }

  function HighEntropy(v: Json): Option<Json> {
    if v.Null? then Some(Null)
    else if v.Obj? && forall k <- Keys(v.members) :: k in HIGH_ENTROPY then
      match HighFields(v.members, HIGH_ENTROPY) { case None => None case Some(m) => Some(Obj(m)) }
    else None
  }

  function NullOr(f: Json -> Option<Json>, v: Json): Option<Json> {
    if v.Null? then Some(Null) else f(v)
  }

  /** A member, null where there is none. */
  function At(m: Members, key: Text): Json {
    if Lookup(m, key).Some? then Lookup(m, key).value else Null
  }

  function Record(names: seq<Text>, values: seq<Json>): Members
    requires |names| == |values|
  {
    if names == [] then NoMembers else Member(names[0], values[0], Record(names[1..], values[1..]))
  }

  const NAVIGATOR: seq<Text> := ["userAgent", "platform", "uaPlatform", "mobile", "brands", "highEntropy"]

  /** navigatorValues */
  function NavigatorValues(v: Json): Option<Json> {
    if !v.Obj? then None
    else
      var m := v.members;
      if !IsText(At(m, "userAgent")) || !IsText(At(m, "platform"))
         || !(Lookup(m, "uaPlatform").Some? && (At(m, "uaPlatform").Null? || At(m, "uaPlatform").Str?))
         || !(Lookup(m, "mobile").Some? && (At(m, "mobile").Null? || At(m, "mobile").Boolean?))
         || Lookup(m, "brands").None? || Lookup(m, "highEntropy").None? then None
      else
        var brands, high := NullOr(BrandList, At(m, "brands")), HighEntropy(At(m, "highEntropy"));
        if brands.None? || high.None? then None
        else
          Some(Obj(Record(NAVIGATOR, [At(m, "userAgent"), At(m, "platform"), At(m, "uaPlatform"), At(m, "mobile"), brands.value, high.value])))
  }

  // ---------- the wire ----------

  /** Headers as the server read them, and the raw list of names and values; None is anything
      that is not a string. */
  datatype Wire = Wire(headers: seq<(Text, Option<Text>)>, raw: seq<Option<Text>>)

  const FORBIDDEN: set<Text> := {"cookie", "authorization", "proxy-authorization"}

  predicate IsToken(s: Text) {
    s != "" && forall c <- s :: TokenChar(c)
  }

  predicate ValueOk(v: Option<Text>) {
    v.Some? && |v.value| <= 16384
  }

  predicate HeaderOk(lower: Text -> Text, h: (Text, Option<Text>)) {
    lower(h.0) !in FORBIDDEN && lower(h.0) == h.0 && IsToken(h.0) && ValueOk(h.1)
  }

  predicate HeadersOk(lower: Text -> Text, headers: seq<(Text, Option<Text>)>) {
    |headers| <= 64 && forall h <- headers :: HeaderOk(lower, h)
  }

  predicate RawPairOk(lower: Text -> Text, raw: seq<Option<Text>>, k: nat)
    requires 2 * k + 1 < |raw|
  {
    raw[2 * k].Some? && IsToken(lower(raw[2 * k].value)) && lower(raw[2 * k].value) !in FORBIDDEN && ValueOk(raw[2 * k + 1])
  }

  function RawName(lower: Text -> Text, raw: seq<Option<Text>>, k: nat): Text
    requires 2 * k + 1 < |raw| && RawPairOk(lower, raw, k)
  {
    lower(raw[2 * k].value)
  }

  /** The first k raw pairs are well formed and repeat no name. */
  predicate RawOkTo(lower: Text -> Text, raw: seq<Option<Text>>, k: nat)
    requires 2 * k <= |raw|
  {
    && (forall i :: 0 <= i < k ==> RawPairOk(lower, raw, i))
    && (forall i, j :: 0 <= i < j < k ==> RawName(lower, raw, i) != RawName(lower, raw, j))
  }

  predicate RawOk(lower: Text -> Text, raw: seq<Option<Text>>) {
    |raw| <= 128 && |raw| % 2 == 0 && RawOkTo(lower, raw, |raw| / 2)
  }

  predicate PairIs(lower: Text -> Text, raw: seq<Option<Text>>, i: nat, name: Text, value: Text)
    requires 2 * i + 1 < |raw| && RawPairOk(lower, raw, i)
  {
    RawName(lower, raw, i) == name && raw[2 * i + 1].value == value
  }

  /** One of the first k raw pairs has that name, once lowered, and that value. */
  predicate Listed(lower: Text -> Text, raw: seq<Option<Text>>, k: nat, name: Text, value: Text)
    requires 2 * k <= |raw| && RawOkTo(lower, raw, k)
  {
    exists i :: 0 <= i < k && PairIs(lower, raw, i, name, value)
  }

  predicate Maps(m: map<Text, Text>, name: Text, value: Text) {
    name in m && m[name] == value
  }

  predicate HasHeader(headers: seq<(Text, Option<Text>)>, name: Text, value: Text) {
    (name, Some(value)) in headers
  }

  predicate DistinctHeaders(headers: seq<(Text, Option<Text>)>) {
    forall i, j :: 0 <= i < j < |headers| ==> headers[i].0 != headers[j].0
  }

  /** The wire is one the comparison accepts: its two forms list the same headers. */
  ghost predicate WireOk(lower: Text -> Text, w: Wire) {
    && HeadersOk(lower, w.headers) && RawOk(lower, w.raw)
    && forall n, v :: HasHeader(w.headers, n, v) <==> Listed(lower, w.raw, |w.raw| / 2, n, v)
  }

  /** headerMap: None where the original throws. */
  method HeaderMap(lower: Text -> Text, w: Wire) returns (r: Option<map<Text, Text>>)
    requires DistinctHeaders(w.headers)
    ensures r.Some? <==> WireOk(lower, w)
    ensures r.Some? ==> forall n, v :: Maps(r.value, n, v) <==> HasHeader(w.headers, n, v)
  {
    if |w.headers| > 64 || |w.raw| > 128 || |w.raw| % 2 != 0 {
      return None;
    }
    var headers: map<Text, Text> := map[];
    for i := 0 to |w.headers|
      invariant forall j :: 0 <= j < i ==> HeaderOk(lower, w.headers[j])
      invariant forall n, v :: Maps(headers, n, v) <==> HasHeader(w.headers[..i], n, v)
    {
      var h := w.headers[i];
      if !HeaderOk(lower, h) {
        return None;
      }
      HeaderStep(headers, headers[h.0 := h.1.value], w.headers, i);
      headers := headers[h.0 := h.1.value];
    }
    assert w.headers[..|w.headers|] == w.headers;
    var original := RawMap(lower, w.raw);
    if original.None? {
      return None;
    }
    SameMaps(headers, original.value);
    if original.value != headers {
      return None;
    }
    return Some(headers);
  }

  lemma HeaderStep(headers: map<Text, Text>, next: map<Text, Text>, list: seq<(Text, Option<Text>)>, i: nat)
    requires i < |list| && DistinctHeaders(list) && list[i].1.Some? && next == headers[list[i].0 := list[i].1.value]
    requires forall n, v :: Maps(headers, n, v) <==> HasHeader(list[..i], n, v)
    ensures forall n, v :: Maps(next, n, v) <==> HasHeader(list[..i + 1], n, v)
  {
    var h := list[i];
    assert list[..i + 1] == list[..i] + [h];
    forall n, v ensures Maps(next, n, v) <==> HasHeader(list[..i + 1], n, v) {
      assert HasHeader(list[..i + 1], n, v) <==> HasHeader(list[..i], n, v) || (n, Some(v)) == h;
      assert (n, Some(v)) == h <==> n == h.0 && v == h.1.value;
      if n == h.0 {
        assert !HasHeader(list[..i], n, v);
      } else {
        assert Maps(headers, n, v) <==> Maps(next, n, v);
      }
    }
  }

  /** The raw list as a map, if it is well formed and repeats no name. */
  method RawMap(lower: Text -> Text, raw: seq<Option<Text>>) returns (r: Option<map<Text, Text>>)
    requires |raw| <= 128 && |raw| % 2 == 0
    ensures r.Some? <==> RawOk(lower, raw)
    ensures r.Some? ==> forall n, v :: Maps(r.value, n, v) <==> Listed(lower, raw, |raw| / 2, n, v)
  {
    var original: map<Text, Text> := map[];
    for k := 0 to |raw| / 2
      invariant RawOkTo(lower, raw, k)
      invariant forall n, v :: Maps(original, n, v) <==> Listed(lower, raw, k, n, v)
    {
      if !RawPairOk(lower, raw, k) {
        return None;
      }
      var name := RawName(lower, raw, k);
      if name in original {
        assert Maps(original, name, original[name]);
        return None;
      }
      forall i | 0 <= i < k ensures RawName(lower, raw, i) != name {
        assert RawPairOk(lower, raw, i);
        assert PairIs(lower, raw, i, RawName(lower, raw, i), raw[2 * i + 1].value);
        assert Maps(original, RawName(lower, raw, i), raw[2 * i + 1].value);
      }
      ListedStep(lower, raw, k);
      var next := original[name := raw[2 * k + 1].value];
      forall n, v ensures Maps(next, n, v) <==> Listed(lower, raw, k + 1, n, v) {
        assert Listed(lower, raw, k + 1, n, v) <==> Listed(lower, raw, k, n, v) || PairIs(lower, raw, k, n, v);
        assert Maps(original, n, v) <==> Listed(lower, raw, k, n, v);
      }
      original := next;
    }
    return Some(original);
  }

  lemma ListedStep(lower: Text -> Text, raw: seq<Option<Text>>, k: nat)
    requires 2 * k + 2 <= |raw| && RawOkTo(lower, raw, k + 1)
    ensures forall n, v :: Listed(lower, raw, k + 1, n, v) <==> Listed(lower, raw, k, n, v) || PairIs(lower, raw, k, n, v)
  {
  }

  lemma SameMaps(a: map<Text, Text>, b: map<Text, Text>)
    ensures a == b <==> forall n, v :: Maps(a, n, v) <==> Maps(b, n, v)
  {
    if forall n, v :: Maps(a, n, v) <==> Maps(b, n, v) {
      forall n ensures n in a <==> n in b {
        assert n in a ==> Maps(a, n, a[n]);
        assert n in b ==> Maps(b, n, b[n]);
      }
      forall n | n in a ensures a[n] == b[n] {
        assert Maps(a, n, a[n]);
      }
    }
  }

  /** The raw pairs of b are those of a in another order, their names in another casing. */
  predicate Rearranged(lower: Text -> Text, a: seq<Option<Text>>, b: seq<Option<Text>>, p: seq<nat>) {
    && |a| == |b| && |a| % 2 == 0 && |p| == |a| / 2
    && (forall k :: 0 <= k < |p| ==> p[k] < |p|)
    && (forall k :: 0 <= k < |p| ==> PairsAlike(lower, a, k, b, p[k]))
  }

  predicate PairsAlike(lower: Text -> Text, a: seq<Option<Text>>, i: nat, b: seq<Option<Text>>, j: nat) {
    && 2 * i + 1 < |a| && 2 * j + 1 < |b| && a[2 * i + 1] == b[2 * j + 1]
    && a[2 * i].Some? == b[2 * j].Some? && (a[2 * i].Some? ==> lower(a[2 * i].value) == lower(b[2 * j].value))
  }

  predicate Inverse(p: seq<nat>, q: seq<nat>) {
    |p| == |q| && (forall k :: 0 <= k < |p| ==> p[k] < |p| && q[k] < |p| && p[q[k]] == k && q[p[k]] == k)
  }

  lemma RearrangedOk(lower: Text -> Text, a: seq<Option<Text>>, b: seq<Option<Text>>, p: seq<nat>, q: seq<nat>)
    requires Rearranged(lower, a, b, p) && Inverse(p, q) && RawOk(lower, b)
    ensures RawOk(lower, a)
    ensures forall n, v :: Listed(lower, a, |a| / 2, n, v) ==> Listed(lower, b, |b| / 2, n, v)
  {
    forall i | 0 <= i < |a| / 2 ensures RawPairOk(lower, a, i) && RawName(lower, a, i) == RawName(lower, b, p[i]) {
      assert PairsAlike(lower, a, i, b, p[i]) && RawPairOk(lower, b, p[i]);
    }
    forall i, j | 0 <= i < j < |a| / 2 ensures RawName(lower, a, i) != RawName(lower, a, j) {
      assert p[i] != p[j] by {
        assert q[p[i]] == i && q[p[j]] == j;
      }
    }
    forall n, v | Listed(lower, a, |a| / 2, n, v) ensures Listed(lower, b, |b| / 2, n, v) {
      var i :| 0 <= i < |a| / 2 && PairIs(lower, a, i, n, v);
      assert PairsAlike(lower, a, i, b, p[i]) && PairIs(lower, b, p[i], n, v);
    }
  }

  /** Neither the order nor the casing of the raw headers decides whether a wire is accepted;
      what comes out are the headers themselves. */
  lemma RawOrderIrrelevant(lower: Text -> Text, w: Wire, raw: seq<Option<Text>>, p: seq<nat>, q: seq<nat>)
    requires Rearranged(lower, w.raw, raw, p) && Inverse(p, q)
    ensures WireOk(lower, w) <==> WireOk(lower, w.(raw := raw))
  {
    forall k | 0 <= k < |q| ensures PairsAlike(lower, raw, k, w.raw, q[k]) {
      assert PairsAlike(lower, w.raw, q[k], raw, p[q[k]]);
    }
    assert Rearranged(lower, raw, w.raw, q);
    if RawOk(lower, raw) {
      RearrangedOk(lower, w.raw, raw, p, q);
    }
    if RawOk(lower, w.raw) {
      RearrangedOk(lower, raw, w.raw, q, p);
    }
  }

  const HEADER_FIELDS: seq<Text> := [
    "userAgent", "acceptLanguage", "doNotTrack", "uaBrands", "uaMobile", "uaPlatform", "uaArchitecture", "uaBitness",
    "uaPlatformVersion", "uaFullVersionList", "uaFullVersion", "uaModel", "uaWow64", "uaFormFactors"]

  const HEADER_NAMES: seq<Text> := [
    "user-agent", "accept-language", "dnt", "sec-ch-ua", "sec-ch-ua-mobile", "sec-ch-ua-platform", "sec-ch-ua-arch",
    "sec-ch-ua-bitness", "sec-ch-ua-platform-version", "sec-ch-ua-full-version-list", "sec-ch-ua-full-version",
    "sec-ch-ua-model", "sec-ch-ua-wow64", "sec-ch-ua-form-factors"]

  function HeaderValue(headers: seq<(Text, Option<Text>)>, name: Text): Option<Text> {
    if headers == [] then None else if headers[0].0 == name then headers[0].1 else HeaderValue(headers[1..], name)
  }

  /** The brands a header lists, if it is well formed and the comparison accepts them. */
  function HeaderBrands(text: Text): Option<seq<S.Brand>> {
    match S.ParseList(true, text)
    case None => None
    case Some(values) => AcceptBrands(AsBrands(values))
  }

  function AsBrands(values: seq<S.Value>): Option<seq<S.Brand>> {
    if values == [] then Some([])
    else
      match AsBrands(values[1..])
      case None => None
      case Some(rest) =>
        if values[0].BrandValue? && IsText(Str(values[0].brand.brand)) && IsText(Str(values[0].brand.version)) then Some([values[0].brand] + rest)
        else None
  }

  predicate IsBrandHeader(field: Text) {
    field == "uaBrands" || field == "uaFullVersionList"
  }

  function SelectHeader(headers: seq<(Text, Option<Text>)>, field: Text, name: Text): Option<Json> {
    match HeaderValue(headers, name)
    case None => Some(Null)
    case Some(text) =>
      if IsBrandHeader(field) then
        match HeaderBrands(text) { case None => None case Some(s) => Some(RealJson(s)) }
      else Some(Str(text))
  }

  /** What each field is given, from the header of that name. */
  function SelectHeaders(headers: seq<(Text, Option<Text>)>, fields: seq<Text>, names: seq<Text>): (r: Option<seq<Json>>)
    requires |fields| == |names|
    ensures r.Some? ==> |r.value| == |fields|
  {
    if fields == [] then Some([])
    else
      var rest, value := SelectHeaders(headers, fields[1..], names[1..]), SelectHeader(headers, fields[0], names[0]);
      if rest.None? || value.None? then None else Some([value.value] + rest.value)
  }

  /** headerMap and identityHeaders together. */
  ghost function IdentityHeaders(lower: Text -> Text, w: Wire): Option<Json> {
    if !WireOk(lower, w) || HeaderValue(w.headers, "user-agent").None? || !IsText(Str(HeaderValue(w.headers, "user-agent").value)) then None
    else
      match SelectHeaders(w.headers, HEADER_FIELDS, HEADER_NAMES)
      case None => None
      case Some(values) => Some(Obj(Record(HEADER_FIELDS, values)))
  }

  // ---------- the projection ----------

  datatype Policy = Policy(
    api: Text, allowedHints: Json, crossOriginAllowedHints: Json, acceptCH: Json, delegatedHints: Json,
    optInResponseReceived: bool, postOptInRequest: bool, permissionsPolicyDelegated: bool)

  datatype ContextSample = ContextSample(navigator: Json, optIn: Wire, echo: Wire, policy: Policy)

  datatype Facts = Facts(
    engine: Text, hostId: Text, executableSha256: Text, executableVersion: Text, mode: Text, identityMode: Text, launchPolicyHash: Text)

  /** A sample, its contexts in the order of CONTEXTS; consistent says that it passed every check
      on bindings, versions, receipts and fixture addresses. */
  datatype Sample = Sample(consistent: bool, facts: Facts, executablePath: Text, runId: Text, contexts: seq<ContextSample>)

  datatype Projection = Projection(facts: Facts, executablePath: Text, runId: Text, fields: Json)

  const POLICY: seq<Text> := [
    "secureContext", "api", "allowedHints", "crossOriginAllowedHints", "acceptCH", "delegatedHints",
    "optInResponseReceived", "postOptInRequest", "permissionsPolicyDelegated"]
  const CONTEXT: seq<Text> := ["navigator", "wire", "policy"]
  const WIRE: seq<Text> := ["opt-in", "echo"]
  const CONTEXTS: seq<Text> := ["window", "dedicated", "shared", "service", "same-origin-frame", "cross-origin-frame"]

  function PolicyFields(lower: Text -> Text, p: Policy): Option<Json> {
    var a, c, h, d := HintNames(lower, p.allowedHints), HintNames(lower, p.crossOriginAllowedHints), HintNames(lower, p.acceptCH), HintNames(lower, p.delegatedHints);
    if a.None? || c.None? || h.None? || d.None? then None
    else Some(Obj(Record(POLICY, PolicyValues(p, a.value, c.value, h.value, d.value))))
  }

  function PolicyValues(p: Policy, a: Json, c: Json, h: Json, d: Json): (r: seq<Json>)
    ensures |r| == |POLICY|
  {
    [Boolean(true), Str(p.api), a, c, h, d,
     Boolean(p.optInResponseReceived), Boolean(p.postOptInRequest), Boolean(p.permissionsPolicyDelegated)]
  }

  ghost function ContextFields(lower: Text -> Text, c: ContextSample): Option<Json> {
    var n, o, e, p := NavigatorValues(c.navigator), IdentityHeaders(lower, c.optIn), IdentityHeaders(lower, c.echo), PolicyFields(lower, c.policy);
    if n.None? || o.None? || e.None? || p.None? then None
    else
      Some(Obj(Record(CONTEXT, [n.value, Obj(Record(WIRE, [o.value, e.value])), p.value])))
  }

  /** The fields of every context, if each has them. */
  ghost function AllContexts(lower: Text -> Text, contexts: seq<ContextSample>): (r: Option<seq<Json>>)
    ensures r.Some? ==> |r.value| == |contexts|
  {
    if contexts == [] then Some([])
    else
      var rest, first := AllContexts(lower, contexts[1..]), ContextFields(lower, contexts[0]);
      if rest.None? || first.None? then None else Some([first.value] + rest.value)
  }

  /** project */
  ghost function Project(lower: Text -> Text, s: Sample): Option<Projection> {
    var contexts := AllContexts(lower, s.contexts);
    if !s.consistent || contexts.None? || |s.contexts| != |CONTEXTS| then None
    else Some(Projection(s.facts, s.executablePath, s.runId, Obj(Record(CONTEXTS, contexts.value))))
  }

  // ---------- the comparison ----------

  function InsertMember(key: Text, value: Json, m: Members): Members {
    if m.NoMembers? || LexLess(Codes(key), Codes(m.key)) then Member(key, value, m)
    else Member(m.key, m.value, InsertMember(key, value, m.rest))
  }

  /** ordered: members by key, throughout. */
  function Ordered(v: Json): Json {
    match v
    case Arr(items) => Arr(OrderedItems(items))
    case Obj(members) => Obj(OrderedMembers(members))
    case _ => v
  }

  function OrderedItems(items: Items): Items {
    match items
    case NoItems => NoItems
    case Item(head, tail) => Item(Ordered(head), OrderedItems(tail))
  }

  function OrderedMembers(m: Members): Members {
    match m
    case NoMembers => NoMembers
    case Member(key, value, rest) => InsertMember(key, Ordered(value), OrderedMembers(rest))
  }

  /** same, where None is undefined. */
  predicate SameValue(num: Numerals, a: Option<Json>, b: Option<Json>) {
    match (a, b)
    case (None, None) => true
    case (Some(x), Some(y)) => Stringify(num, Ordered(x)) == Stringify(num, Ordered(y))
    case _ => false
  }

  datatype Difference = Difference(path: Text, before: Option<Json>, after: Option<Json>)

  function PathKey(d: Difference): Key {
    Codes(d.path)
  }

  predicate Differs(num: Numerals, f: map<Text, Json>, g: map<Text, Json>, d: Difference) {
    && (d.path in f || d.path in g) && d.before == Get(f, d.path) && d.after == Get(g, d.path)
    && !SameValue(num, d.before, d.after)
  }

  /** Exactly the paths with different values, in order. */
  ghost predicate AreDifferences(num: Numerals, f: map<Text, Json>, g: map<Text, Json>, ds: seq<Difference>) {
    Ascending(PathKey, ds) && forall d :: d in ds <==> Differs(num, f, g, d)
  }

  datatype Verdict = NotVerifiable | Different | Reverified

  datatype Issue = BeforeUnusable | AfterUnusable | FactDiffers(field: nat) | PathDiffers | SameRun

  datatype Comparison = Comparison(verdict: Verdict, differences: seq<Difference>, issues: seq<Issue>)

  function FactList(f: Facts): seq<Text> {
    [f.engine, f.hostId, f.executableSha256, f.executableVersion, f.mode, f.identityMode, f.launchPolicyHash]
  }

  function FactIssues(a: seq<Text>, b: seq<Text>, i: nat): seq<Issue>
    requires |a| == |b| && i <= |a|
    decreases |a| - i
  {
    if i == |a| then []
    else if a[i] != b[i] then [FactDiffers(i)] + FactIssues(a, b, i + 1)
    else FactIssues(a, b, i + 1)
  }

  function Issues(left: Option<Projection>, right: Option<Projection>): seq<Issue> {
    if left.None? || right.None? then (if left.None? then [BeforeUnusable] else []) + (if right.None? then [AfterUnusable] else [])
    else
      FactIssues(FactList(left.value.facts), FactList(right.value.facts), 0)
      + (if left.value.executablePath != right.value.executablePath then [PathDiffers] else [])
      + (if left.value.runId == right.value.runId then [SameRun] else [])
  }

  /** What the comparison answers: nothing where there are issues, and otherwise the differences
      of the flat fields. */
  ghost predicate Compared(num: Numerals, left: Option<Projection>, right: Option<Projection>, c: Comparison) {
    && c.issues == Issues(left, right)
    && (c.issues != [] ==> c.verdict == NotVerifiable && c.differences == [])
    && (c.issues == [] ==>
          && left.Some? && right.Some?
          && AreDifferences(num, Flatten(left.value.fields, ""), Flatten(right.value.fields, ""), c.differences)
          && c.verdict == if c.differences == [] then Reverified else Different)
  }

  /** compareCapturedProfileIdentity, from the projections on. */
  method Compare(num: Numerals, left: Option<Projection>, right: Option<Projection>) returns (c: Comparison)
    ensures Compared(num, left, right, c)
  {
    var issues := Issues(left, right);
    if issues != [] {
      return Comparison(NotVerifiable, [], issues);
    }
    var f, g := Flatten(left.value.fields, ""), Flatten(right.value.fields, "");
    var differences := [];
    var todo := f.Keys + g.Keys;
    while todo != {}
      invariant todo <= f.Keys + g.Keys
      invariant forall d :: d in differences <==> Differs(num, f, g, d) && d.path !in todo
      invariant DistinctBy(PathKey, differences)
    {
      var path :| path in todo;
      var d := Difference(path, Get(f, path), Get(g, path));
      todo := todo - {path};
      if !SameValue(num, d.before, d.after) {
        forall i | 0 <= i < |differences| ensures PathKey(differences[i]) != PathKey(d) {
          assert differences[i] in differences;
          CodesInjective(differences[i].path, path);
        }
        differences := differences + [d];
      }
    }
    SortAscends(PathKey, differences);
    differences := SortBy(PathKey, differences);
    c := Comparison(if differences == [] then Reverified else Different, differences, []);
  }

  // ---------- values that order themselves ----------

  /** Every record inside has its members in order already, and there are no numbers. */
  predicate Tidy(v: Json) {
    match v
    case Number(_) => false
    case Arr(items) => TidyItems(items)
    case Obj(members) => TidyMembers(members)
    case _ => true
  }

  predicate TidyItems(items: Items) {
    items.Item? ==> Tidy(items.head) && TidyItems(items.tail)
  }

  predicate TidyMembers(m: Members) {
    m.Member? ==> Tidy(m.value) && TidyMembers(m.rest) && (m.rest.Member? ==> LexLess(Codes(m.key), Codes(m.rest.key)))
  }

  lemma {:induction false} OrderedTidy(v: Json)
    requires Tidy(v)
    ensures Ordered(v) == v
    decreases v
  {
    match v
    case Arr(items) => OrderedTidyItems(items);
    case Obj(members) => OrderedTidyMembers(members);
    case _ =>
  }

  lemma {:induction false} OrderedTidyItems(items: Items)
    requires TidyItems(items)
    ensures OrderedItems(items) == items
    decreases items
  {
    if items.Item? {
      OrderedTidy(items.head);
      OrderedTidyItems(items.tail);
    }
  }

  lemma {:induction false} OrderedTidyMembers(m: Members)
    requires TidyMembers(m)
    ensures OrderedMembers(m) == m
    decreases m
  {
    if m.Member? {
      OrderedTidy(m.value);
      OrderedTidyMembers(m.rest);
    }
  }

  lemma {:induction false} TidyNumberless(v: Json)
    requires Tidy(v)
    ensures Within(v, iset{})
    decreases v
  {
    match v
    case Arr(items) => TidyItemsNumberless(items);
    case Obj(members) => TidyMembersNumberless(members);
    case _ =>
  }

  lemma {:induction false} TidyItemsNumberless(items: Items)
    requires TidyItems(items)
    ensures ItemsWithin(items, iset{})
    decreases items
  {
    if items.Item? {
      TidyNumberless(items.head);
      TidyItemsNumberless(items.tail);
    }
  }

  lemma {:induction false} TidyMembersNumberless(m: Members)
    requires TidyMembers(m)
    ensures MembersWithin(m, iset{})
    decreases m
  {
    if m.Member? {
      TidyNumberless(m.value);
      TidyMembersNumberless(m.rest);
    }
  }

  /** The values a record flattens to are tidy. */
  predicate TidyLeaves(v: Json) {
    if v.Obj? && v.members.Member? then TidyLeafMembers(v.members) else Tidy(v)
  }

  predicate TidyLeafMembers(m: Members) {
    m.Member? ==> TidyLeaves(m.value) && TidyLeafMembers(m.rest)
  }

  lemma {:induction false} FlatTidy(v: Json, prefix: Text, text: Text)
    requires TidyLeaves(v) && text in Flatten(v, prefix)
    ensures Tidy(Flatten(v, prefix)[text])
    decreases v
  {
    if v.Obj? && v.members.Member? {
      FlatTidyMembers(v.members, prefix, text);
    }
  }

  lemma {:induction false} FlatTidyMembers(m: Members, prefix: Text, text: Text)
    requires TidyLeafMembers(m) && text in FlattenMembers(m, prefix)
    ensures Tidy(FlattenMembers(m, prefix)[text])
    decreases m
  {
    if text in FlattenMembers(m.rest, prefix) {
      FlatTidyMembers(m.rest, prefix, text);
    } else {
      FlatTidy(m.value, Under(prefix, m.key), text);
    }
  }

  predicate Shaped(v: Json) {
    Keyed(v, DotFree) && TidyLeaves(v)
  }

  lemma SameValueExactly(num: Numerals, f: map<Text, Json>, g: map<Text, Json>, path: Text)
    requires (path in f ==> Tidy(f[path])) && (path in g ==> Tidy(g[path]))
    ensures SameValue(num, Get(f, path), Get(g, path)) <==> Get(f, path) == Get(g, path)
  {
    if path in f && path in g {
      OrderedTidy(f[path]);
      OrderedTidy(g[path]);
      TidyNumberless(f[path]);
      TidyNumberless(g[path]);
      StringifyInjective(num, f[path], g[path], iset{});
    }
  }

  /** A profile is reverified exactly if the two projections hold the same fields. */
  lemma ReverifiedExactly(num: Numerals, before: Json, after: Json, ds: seq<Difference>)
    requires Shaped(before) && Shaped(after) && AreDifferences(num, Flatten(before, ""), Flatten(after, ""), ds)
    ensures ds == [] <==> Same(before, after)
  {
    var f, g := Flatten(before, ""), Flatten(after, "");
    forall path ensures SameValue(num, Get(f, path), Get(g, path)) <==> Get(f, path) == Get(g, path) {
      if path in f {
        FlatTidy(before, "", path);
      }
      if path in g {
        FlatTidy(after, "", path);
      }
      SameValueExactly(num, f, g, path);
    }
    NoDifferences(num, f, g, ds);
    FlattenExactly(before, after);
  }

  lemma NoDifferences(num: Numerals, f: map<Text, Json>, g: map<Text, Json>, ds: seq<Difference>)
    requires AreDifferences(num, f, g, ds)
    requires forall path :: SameValue(num, Get(f, path), Get(g, path)) <==> Get(f, path) == Get(g, path)
    ensures ds == [] <==> f == g
  {
    if ds == [] {
      forall path ensures Get(f, path) == Get(g, path) {
        assert !Differs(num, f, g, Difference(path, Get(f, path), Get(g, path)));
      }
      SameGets(f, g);
    } else {
      assert ds[0] in ds && Differs(num, f, g, ds[0]);
    }
  }

  function Swapped(ds: seq<Difference>): (r: seq<Difference>)
    ensures |r| == |ds| && forall i :: 0 <= i < |ds| ==> r[i] == Difference(ds[i].path, ds[i].after, ds[i].before)
  {
    if ds == [] then [] else [Difference(ds[0].path, ds[0].after, ds[0].before)] + Swapped(ds[1..])
  }

  /** Comparing the other way round finds the same paths with before and after exchanged. */
  lemma SwappedDifferences(num: Numerals, f: map<Text, Json>, g: map<Text, Json>, ds: seq<Difference>, es: seq<Difference>)
    requires AreDifferences(num, f, g, ds) && AreDifferences(num, g, f, es)
    ensures es == Swapped(ds)
  {
    var ss := Swapped(ds);
    forall i, j | 0 <= i < j < |ss| ensures LexLess(PathKey(ss[i]), PathKey(ss[j])) {
      assert LexLess(PathKey(ds[i]), PathKey(ds[j]));
    }
    forall d ensures d in ss <==> d in es {
      var mirrored := Difference(d.path, d.after, d.before);
      assert Differs(num, g, f, d) <==> Differs(num, f, g, mirrored);
      if mirrored in ds {
        var i :| 0 <= i < |ds| && ds[i] == mirrored;
        assert ss[i] == d;
      }
      if d in ss {
        var i :| 0 <= i < |ss| && ss[i] == d;
        assert ds[i] == mirrored;
      }
    }
    OneOrder(PathKey, es, ss);
  }

  lemma {:induction false} FactIssuesSymmetric(a: seq<Text>, b: seq<Text>, i: nat)
    requires |a| == |b| && i <= |a|
    ensures FactIssues(a, b, i) == FactIssues(b, a, i)
    decreases |a| - i
  {
    if i < |a| {
      FactIssuesSymmetric(a, b, i + 1);
    }
  }

  /** Which sample came first has no part in whether the comparison can be made, nor in what is
      held against two usable samples. */
  lemma IssuesSymmetric(left: Option<Projection>, right: Option<Projection>)
    ensures Issues(left, right) == [] <==> Issues(right, left) == []
    ensures left.Some? && right.Some? ==> Issues(left, right) == Issues(right, left)
  {
    if left.Some? && right.Some? {
      FactIssuesSymmetric(FactList(left.value.facts), FactList(right.value.facts), 0);
    }
  }

  /** The comparison the other way round: the same verdict, the same paths with before and after
      exchanged, and of two usable samples the same issues. */
  lemma ComparisonSwapped(num: Numerals, left: Option<Projection>, right: Option<Projection>, c: Comparison, d: Comparison)
    requires Compared(num, left, right, c) && Compared(num, right, left, d)
    ensures d.verdict == c.verdict && d.differences == Swapped(c.differences)
    ensures left.Some? && right.Some? ==> d.issues == c.issues
  {
    IssuesSymmetric(left, right);
    if c.issues == [] {
      SwappedDifferences(num, Flatten(left.value.fields, ""), Flatten(right.value.fields, ""), c.differences, d.differences);
    }
  }

  // ---------- projections are shaped ----------

  predicate GoodNames(names: seq<Text>) {
    (forall n <- names :: DotFree(n)) && NoRepeats(names)
  }

  lemma {:induction false} RecordShaped(names: seq<Text>, values: seq<Json>)
    requires |names| == |values| && GoodNames(names) && forall v <- values :: Shaped(v)
    ensures KeyedMembers(Record(names, values), DotFree) && TidyLeafMembers(Record(names, values))
    ensures forall k <- Keys(Record(names, values)) :: k in names
  {
    if names != [] {
      assert names[0] in names && values[0] in values;
      assert forall v <- values[1..] :: v in values;
      assert forall n <- names[1..] :: n in names;
      RecordShaped(names[1..], values[1..]);
    }
  }

  lemma {:induction false} TextsTidy(s: seq<Text>)
    ensures TidyItems(TextsJson(s))
  {
    if s != [] {
      TextsTidy(s[1..]);
    }
  }

  lemma BrandKeysAscend()
    ensures LexLess(Codes("brand"), Codes("version"))
  {
    assert Codes("brand")[0] < Codes("version")[0];
  }

  lemma {:induction false} BrandsTidy(s: seq<S.Brand>)
    ensures TidyItems(BrandsJson(s))
  {
    if s != [] {
      BrandsTidy(s[1..]);
      BrandKeysAscend();
      var brand, version := Str(s[0].brand), Str(s[0].version);
      assert Tidy(brand) && Tidy(version) && TidyMembers(NoMembers);
      assert TidyMembers(Member("version", version, NoMembers));
      assert Tidy(Obj(Member("brand", brand, Member("version", version, NoMembers))));
    }
  }

  lemma BrandListShaped(v: Json)
    ensures BrandList(v).Some? ==> Shaped(BrandList(v).value)
  {
    if Brandish(v).Some? {
      BrandsTidy(Brands.RealBrands(Brandish(v).value));
    }
  }

  lemma SortedShaped(s: seq<Text>)
    ensures Shaped(SortedJson(s))
  {
    TextsTidy(SortBy(Codes, s));
  }

  lemma ScalarShaped(v: Json)
    ensures v.Boolean? || v.Str? || v.Null? ==> Shaped(v)
  {
  }

  lemma HighValueShaped(name: Text, v: Json)
    ensures HighValue(name, v).Some? ==> Shaped(HighValue(name, v).value)
  {
    BrandListShaped(v);
    if Stringish(v).Some? {
      SortedShaped(Stringish(v).value);
    }
    ScalarShaped(v);
    var isBrands, isList, isFlag := IsBrandField(name), name == "formFactors", name == "wow64" || name == "mobile";
    assert HighValue(name, v) == if isBrands then BrandList(v)
                                 else if isList then StringList(v)
                                 else if isFlag then if v.Boolean? then Some(v) else None
                                 else if v.Str? then Some(v) else None;
  }

  lemma {:induction false} HighFieldsShaped(h: Members, names: seq<Text>)
    requires GoodNames(names) && HighFields(h, names).Some?
    ensures KeyedMembers(HighFields(h, names).value, DotFree) && TidyLeafMembers(HighFields(h, names).value)
    ensures forall k <- Keys(HighFields(h, names).value) :: k in names
  {
    if names != [] {
      HighFieldsShaped(h, names[1..]);
      if Lookup(h, names[0]).Some? {
        HighValueShaped(names[0], Lookup(h, names[0]).value);
      }
    }
  }

  lemma HighDistinct()
    ensures NoRepeats(HIGH_ENTROPY)
  {
  }

  lemma HighDotFree()
    ensures forall n <- HIGH_ENTROPY :: DotFree(n)
  {
    assert HIGH_ENTROPY == HIGH_ENTROPY[..6] + HIGH_ENTROPY[6..];
    assert forall n <- HIGH_ENTROPY[..6] :: DotFree(n);
    assert forall n <- HIGH_ENTROPY[6..] :: DotFree(n);
  }

  lemma HighNames()
    ensures GoodNames(HIGH_ENTROPY)
  {
    HighDotFree();
    HighDistinct();
  }

  lemma NavigatorNames()
    ensures GoodNames(NAVIGATOR)
  {
  }

  lemma HeaderFieldsDistinct()
    ensures NoRepeats(HEADER_FIELDS)
  {
  }

  lemma HeaderFieldNames()
    ensures GoodNames(HEADER_FIELDS)
  {
    HeaderFieldsDistinct();
    forall i | 0 <= i < |HEADER_FIELDS| ensures DotFree(HEADER_FIELDS[i]) {
      if i < 7 {
        assert forall n <- HEADER_FIELDS[..7] :: DotFree(n);
        assert HEADER_FIELDS[i] == HEADER_FIELDS[..7][i];
      }
    }
  }

  lemma PolicyDistinct()
    ensures NoRepeats(POLICY)
  {
  }

  lemma PolicyDotFree()
    ensures forall n <- POLICY :: DotFree(n)
  {
  }

  lemma PolicyNames()
    ensures GoodNames(POLICY)
  {
    PolicyDotFree();
    PolicyDistinct();
  }

  lemma ContextNames()
    ensures GoodNames(CONTEXT) && GoodNames(WIRE) && GoodNames(CONTEXTS)
  {
    SixContexts();
  }

  lemma SixContexts()
    ensures GoodNames(CONTEXTS)
  {
  }

  lemma HighEntropyShaped(v: Json)
    ensures HighEntropy(v).Some? ==> Shaped(HighEntropy(v).value)
  {
    if HighEntropy(v).Some? && v.Obj? {
      HighNames();
      HighFieldsShaped(v.members, HIGH_ENTROPY);
    }
  }

  lemma NavigatorShaped(v: Json)
    ensures NavigatorValues(v).Some? ==> Shaped(NavigatorValues(v).value)
  {
    if NavigatorValues(v).Some? {
      var m := v.members;
      var brands, high := NullOr(BrandList, At(m, "brands")), HighEntropy(At(m, "highEntropy"));
      BrandListShaped(At(m, "brands"));
      HighEntropyShaped(At(m, "highEntropy"));
      NavigatorNames();
      RecordShaped(NAVIGATOR, [At(m, "userAgent"), At(m, "platform"), At(m, "uaPlatform"), At(m, "mobile"), brands.value, high.value]);
    }
  }

  lemma SelectHeaderShaped(headers: seq<(Text, Option<Text>)>, field: Text, name: Text)
    ensures SelectHeader(headers, field, name).Some? ==> Shaped(SelectHeader(headers, field, name).value)
  {
    if HeaderValue(headers, name).Some? && HeaderBrands(HeaderValue(headers, name).value).Some? {
      BrandsTidy(Brands.RealBrands(HeaderBrands(HeaderValue(headers, name).value).value));
    }
  }

  lemma {:induction false} SelectHeadersShaped(headers: seq<(Text, Option<Text>)>, fields: seq<Text>, names: seq<Text>)
    requires |fields| == |names| && SelectHeaders(headers, fields, names).Some?
    ensures forall v <- SelectHeaders(headers, fields, names).value :: Shaped(v)
  {
    if fields != [] {
      SelectHeadersShaped(headers, fields[1..], names[1..]);
      SelectHeaderShaped(headers, fields[0], names[0]);
    }
  }

  lemma HeadersShaped(lower: Text -> Text, w: Wire)
    ensures IdentityHeaders(lower, w).Some? ==> Shaped(IdentityHeaders(lower, w).value)
  {
    if IdentityHeaders(lower, w).Some? {
      HeaderFieldNames();
      SelectHeadersShaped(w.headers, HEADER_FIELDS, HEADER_NAMES);
      RecordShaped(HEADER_FIELDS, SelectHeaders(w.headers, HEADER_FIELDS, HEADER_NAMES).value);
    }
  }

  lemma HintNamesShaped(lower: Text -> Text, v: Json)
    ensures HintNames(lower, v).Some? ==> Shaped(HintNames(lower, v).value)
  {
    if Hintish(lower, v).Some? {
      SortedShaped(Hintish(lower, v).value);
    }
  }

  lemma PolicyShaped(lower: Text -> Text, p: Policy)
    ensures PolicyFields(lower, p).Some? ==> Shaped(PolicyFields(lower, p).value)
  {
    if PolicyFields(lower, p).Some? {
      HintNamesShaped(lower, p.allowedHints);
      HintNamesShaped(lower, p.crossOriginAllowedHints);
      HintNamesShaped(lower, p.acceptCH);
      HintNamesShaped(lower, p.delegatedHints);
      PolicyNames();
      var a, c, h, d := HintNames(lower, p.allowedHints).value, HintNames(lower, p.crossOriginAllowedHints).value,
                        HintNames(lower, p.acceptCH).value, HintNames(lower, p.delegatedHints).value;
      PolicyValuesShaped(p, a, c, h, d);
      RecordShaped(POLICY, PolicyValues(p, a, c, h, d));
    }
  }

  lemma PolicyValuesShaped(p: Policy, a: Json, c: Json, h: Json, d: Json)
    requires Shaped(a) && Shaped(c) && Shaped(h) && Shaped(d)
    ensures forall v <- PolicyValues(p, a, c, h, d) :: Shaped(v)
  {
    forall v: Json ensures v.Boolean? || v.Str? ==> Shaped(v) {
      ScalarShaped(v);
    }
  }

  lemma ContextShaped(lower: Text -> Text, c: ContextSample)
    ensures ContextFields(lower, c).Some? ==> Shaped(ContextFields(lower, c).value)
  {
    if ContextFields(lower, c).Some? {
      NavigatorShaped(c.navigator);
      HeadersShaped(lower, c.optIn);
      HeadersShaped(lower, c.echo);
      PolicyShaped(lower, c.policy);
      ContextNames();
      var wire := [IdentityHeaders(lower, c.optIn).value, IdentityHeaders(lower, c.echo).value];
      RecordShaped(WIRE, wire);
      RecordShaped(CONTEXT, [NavigatorValues(c.navigator).value, Obj(Record(WIRE, wire)), PolicyFields(lower, c.policy).value]);
    }
  }

  lemma AllContextsShaped(lower: Text -> Text, contexts: seq<ContextSample>)
    requires AllContexts(lower, contexts).Some?
    ensures forall v <- AllContexts(lower, contexts).value :: Shaped(v)
  {
    forall i | 0 <= i < |contexts| ensures Shaped(AllContexts(lower, contexts).value[i]) {
      AllContextsAt(lower, contexts, i, contexts[i]);
      ContextShaped(lower, contexts[i]);
    }
  }

  lemma ProjectShaped(lower: Text -> Text, s: Sample)
    ensures Project(lower, s).Some? ==> Shaped(Project(lower, s).value.fields)
  {
    if Project(lower, s).Some? {
      AllContextsShaped(lower, s.contexts);
      ContextNames();
      RecordShaped(CONTEXTS, AllContexts(lower, s.contexts).value);
    }
  }

  lemma {:induction false} FactIssuesNone(a: seq<Text>, b: seq<Text>, i: nat)
    requires |a| == |b| && i <= |a|
    ensures FactIssues(a, b, i) == [] <==> a[i..] == b[i..]
    decreases |a| - i
  {
    if i < |a| {
      FactIssuesNone(a, b, i + 1);
      assert a[i..] == [a[i]] + a[i + 1..] && b[i..] == [b[i]] + b[i + 1..];
    }
  }

  lemma SameFacts(a: Facts, b: Facts)
    ensures FactIssues(FactList(a), FactList(b), 0) == [] <==> a == b
  {
    FactIssuesNone(FactList(a), FactList(b), 0);
    assert FactList(a)[0..] == FactList(a) && FactList(b)[0..] == FactList(b);
    if FactList(a) == FactList(b) {
      assert forall i :: 0 <= i < 7 ==> FactList(a)[i] == FactList(b)[i];
      assert a.engine == FactList(a)[0] && a.hostId == FactList(a)[1] && a.executableSha256 == FactList(a)[2];
      assert a.executableVersion == FactList(a)[3] && a.mode == FactList(a)[4] && a.identityMode == FactList(a)[5];
    }
  }

  // ---------- what equal projections mean ----------

  /** The two lists hold the same texts. */
  ghost predicate TextsAlike(a: Option<seq<Text>>, b: Option<seq<Text>>) {
    a.Some? && b.Some? && forall x :: x in a.value <==> x in b.value
  }

  /** The two lists hold the same real brands and versions. */
  ghost predicate BrandsAlike(a: Option<seq<S.Brand>>, b: Option<seq<S.Brand>>) {
    a.Some? && b.Some? && forall x: S.Brand :: !Brands.IsGrease(x) ==> (x in a.value <==> x in b.value)
  }

  ghost predicate BrandFieldsAlike(v: Json, w: Json) {
    if v.Null? || w.Null? then v == w else BrandsAlike(Brandish(v), Brandish(w))
  }

  lemma {:induction false} TextsJsonInjective(a: seq<Text>, b: seq<Text>)
    ensures TextsJson(a) == TextsJson(b) <==> a == b
  {
    if a != [] && b != [] {
      TextsJsonInjective(a[1..], b[1..]);
      assert a == [a[0]] + a[1..] && b == [b[0]] + b[1..];
    }
  }

  lemma {:induction false} BrandsJsonInjective(a: seq<S.Brand>, b: seq<S.Brand>)
    ensures BrandsJson(a) == BrandsJson(b) <==> a == b
  {
    if a != [] && b != [] {
      BrandsJsonInjective(a[1..], b[1..]);
      assert a == [a[0]] + a[1..] && b == [b[0]] + b[1..];
    }
  }

  lemma SortedExactly(a: seq<Text>, b: seq<Text>)
    requires NoRepeats(a) && NoRepeats(b)
    ensures SortedJson(a) == SortedJson(b) <==> forall x :: x in a <==> x in b
  {
    TextsJsonInjective(SortBy(Codes, a), SortBy(Codes, b));
    CodesDistinct(a);
    CodesDistinct(b);
    SortExactly(Codes, a, b);
  }

  lemma RealExactly(a: seq<S.Brand>, b: seq<S.Brand>)
    requires Brands.DistinctNames(a) && Brands.DistinctNames(b)
    ensures RealJson(a) == RealJson(b) <==> BrandsAlike(Some(a), Some(b))
  {
    BrandsJsonInjective(Brands.RealBrands(a), Brands.RealBrands(b));
    Brands.RealBrandsExactly(a, b);
  }

  lemma BrandFieldsExactly(v: Json, w: Json)
    requires NullOr(BrandList, v).Some? && NullOr(BrandList, w).Some?
    ensures Same(NullOr(BrandList, v).value, NullOr(BrandList, w).value) <==> BrandFieldsAlike(v, w)
  {
    if !v.Null? && !w.Null? {
      RealExactly(Brandish(v).value, Brandish(w).value);
    }
  }

  /** Two values of one high-entropy field: brands and form factors as sets, the others equal. */
  ghost predicate HighValuesAlike(name: Text, v: Json, w: Json) {
    if IsBrandField(name) then BrandsAlike(Brandish(v), Brandish(w))
    else if name == "formFactors" then TextsAlike(Stringish(v), Stringish(w))
    else v == w
  }

  lemma HighValuesExactly(name: Text, v: Json, w: Json)
    requires HighValue(name, v).Some? && HighValue(name, w).Some?
    ensures Same(HighValue(name, v).value, HighValue(name, w).value) <==> HighValuesAlike(name, v, w)
  {
    if IsBrandField(name) {
      RealExactly(Brandish(v).value, Brandish(w).value);
    } else if name == "formFactors" {
      SortedExactly(Stringish(v).value, Stringish(w).value);
    }
  }

  ghost predicate HighFieldAlike(h: Members, g: Members, name: Text) {
    match (Lookup(h, name), Lookup(g, name))
    case (None, None) => true
    case (Some(v), Some(w)) => HighValuesAlike(name, v, w)
    case _ => false
  }

  lemma {:induction false} HighFieldsLookup(h: Members, names: seq<Text>, name: Text)
    requires NoRepeats(names) && HighFields(h, names).Some?
    ensures var m := HighFields(h, names).value;
            && (name in Keys(m) <==> name in names && Lookup(h, name).Some?)
            && (name in Keys(m) ==> HighValue(name, Lookup(h, name).value) == Lookup(m, name) && Lookup(m, name).Some?)
  {
    if names != [] {
      HighFieldsLookup(h, names[1..], name);
      assert forall n :: n in names <==> n == names[0] || n in names[1..];
    }
  }

  lemma HighFieldsExactly(h: Members, g: Members, names: seq<Text>)
    requires GoodNames(names) && HighFields(h, names).Some? && HighFields(g, names).Some?
    ensures Same(Obj(HighFields(h, names).value), Obj(HighFields(g, names).value)) <==> forall n <- names :: HighFieldAlike(h, g, n)
  {
    var l, r := HighFields(h, names).value, HighFields(g, names).value;
    HighFieldsShaped(h, names);
    SameMembersMeans(l, r, DotFree);
    forall n
      ensures n in names && (n in Keys(l) || n in Keys(r)) ==> (HighFieldAlike(h, g, n) <==> SameAt(l, r, n))
      ensures n in Keys(l) || n in Keys(r) ==> n in names
      ensures n in names && n !in Keys(l) && n !in Keys(r) ==> HighFieldAlike(h, g, n)
      ensures SameAt(l, r, n) ==> n in Keys(l) && n in Keys(r)
    {
      HighFieldsLookup(h, names, n);
      HighFieldsLookup(g, names, n);
      LookupKeys(l, n);
      LookupKeys(r, n);
      if n in Keys(l) && n in Keys(r) {
        HighValuesExactly(n, Lookup(h, n).value, Lookup(g, n).value);
      }
    }
  }

  /** Navigators that agree in every value, brands compared as sets of real ones and form
      factors as a set. */
  ghost predicate NavigatorsAlike(v: Json, w: Json) {
    && v.Obj? && w.Obj?
    && At(v.members, "userAgent") == At(w.members, "userAgent") && At(v.members, "platform") == At(w.members, "platform")
    && At(v.members, "uaPlatform") == At(w.members, "uaPlatform") && At(v.members, "mobile") == At(w.members, "mobile")
    && BrandFieldsAlike(At(v.members, "brands"), At(w.members, "brands"))
    && HighEntropiesAlike(At(v.members, "highEntropy"), At(w.members, "highEntropy"))
  }

  ghost predicate HighEntropiesAlike(v: Json, w: Json) {
    if v.Obj? && w.Obj? then forall n <- HIGH_ENTROPY :: HighFieldAlike(v.members, w.members, n) else v == w
  }

  lemma HighEntropiesExactly(v: Json, w: Json)
    requires HighEntropy(v).Some? && HighEntropy(w).Some?
    ensures Same(HighEntropy(v).value, HighEntropy(w).value) <==> HighEntropiesAlike(v, w)
  {
    if v.Obj? && w.Obj? {
      HighNames();
      HighFieldsExactly(v.members, w.members, HIGH_ENTROPY);
    }
  }

  lemma {:induction false} RecordLookup(names: seq<Text>, values: seq<Json>, i: nat)
    requires |names| == |values| && NoRepeats(names) && i < |names|
    ensures Lookup(Record(names, values), names[i]) == Some(values[i])
  {
    if i > 0 {
      RecordLookup(names[1..], values[1..], i - 1);
    }
  }

  lemma {:induction false} RecordKeys(names: seq<Text>, values: seq<Json>)
    requires |names| == |values|
    ensures forall k :: k in Keys(Record(names, values)) <==> k in names
  {
    if names != [] {
      RecordKeys(names[1..], values[1..]);
      assert forall n :: n in names <==> n == names[0] || n in names[1..];
    }
  }

  /** Records of the same names are the same exactly if their values are. */
  lemma RecordsExactly(names: seq<Text>, vs: seq<Json>, ws: seq<Json>)
    requires |names| == |vs| == |ws| && GoodNames(names) && forall v <- vs :: Shaped(v)
    ensures Same(Obj(Record(names, vs)), Obj(Record(names, ws))) <==> forall i :: 0 <= i < |names| ==> Same(vs[i], ws[i])
  {
    var l, r := Record(names, vs), Record(names, ws);
    RecordShaped(names, vs);
    RecordKeys(names, vs);
    RecordKeys(names, ws);
    SameMembersMeans(l, r, DotFree);
    forall i | 0 <= i < |names| ensures names[i] in Keys(l) && (SameAt(l, r, names[i]) <==> Same(vs[i], ws[i])) {
      RecordLookup(names, vs, i);
      RecordLookup(names, ws, i);
    }
    forall k | k in Keys(l) ensures exists i :: 0 <= i < |names| && names[i] == k {
    }
  }

  /** The values navigatorValues records, in the order of their names. */
  function NavigatorList(v: Json): seq<Json>
    requires NavigatorValues(v).Some?
  {
    var m := v.members;
    [At(m, "userAgent"), At(m, "platform"), At(m, "uaPlatform"), At(m, "mobile"),
     NullOr(BrandList, At(m, "brands")).value, HighEntropy(At(m, "highEntropy")).value]
  }

  lemma NavigatorListShaped(v: Json)
    requires NavigatorValues(v).Some?
    ensures NavigatorValues(v) == Some(Obj(Record(NAVIGATOR, NavigatorList(v)))) && forall x <- NavigatorList(v) :: Shaped(x)
  {
    var m := v.members;
    BrandListShaped(At(m, "brands"));
    HighEntropyShaped(At(m, "highEntropy"));
  }

  lemma NavigatorsExactly(v: Json, w: Json)
    requires NavigatorValues(v).Some? && NavigatorValues(w).Some?
    ensures Same(NavigatorValues(v).value, NavigatorValues(w).value) <==> NavigatorsAlike(v, w)
  {
    var vs, ws := NavigatorList(v), NavigatorList(w);
    NavigatorListShaped(v);
    NavigatorListShaped(w);
    NavigatorNames();
    RecordsExactly(NAVIGATOR, vs, ws);
    BrandFieldsExactly(At(v.members, "brands"), At(w.members, "brands"));
    HighEntropiesExactly(At(v.members, "highEntropy"), At(w.members, "highEntropy"));
    SixPairs(vs, ws);
  }

  lemma SixPairs(vs: seq<Json>, ws: seq<Json>)
    requires |vs| == |ws| == 6
    ensures (forall i :: 0 <= i < 6 ==> Same(vs[i], ws[i]))
            <==> Same(vs[0], ws[0]) && Same(vs[1], ws[1]) && Same(vs[2], ws[2]) && Same(vs[3], ws[3]) && Same(vs[4], ws[4]) && Same(vs[5], ws[5])
  {
  }

  /** One header of both: both absent, the same text, or lists of the same real brands. */
  ghost predicate HeaderAlike(x: Option<Text>, y: Option<Text>, field: Text) {
    match (x, y)
    case (None, None) => true
    case (Some(s), Some(t)) => if IsBrandHeader(field) then BrandsAlike(HeaderBrands(s), HeaderBrands(t)) else s == t
    case _ => false
  }

  lemma HeaderExactly(a: seq<(Text, Option<Text>)>, b: seq<(Text, Option<Text>)>, field: Text, name: Text)
    requires SelectHeader(a, field, name).Some? && SelectHeader(b, field, name).Some?
    ensures Same(SelectHeader(a, field, name).value, SelectHeader(b, field, name).value)
            <==> HeaderAlike(HeaderValue(a, name), HeaderValue(b, name), field)
  {
    var x, y := HeaderValue(a, name), HeaderValue(b, name);
    if IsBrandHeader(field) && x.Some? && y.Some? {
      RealExactly(HeaderBrands(x.value).value, HeaderBrands(y.value).value);
    }
  }

  /** Headers that agree in every identity field, brand lists as sets of real brands. */
  ghost predicate HeadersAlike(a: seq<(Text, Option<Text>)>, b: seq<(Text, Option<Text>)>, fields: seq<Text>, names: seq<Text>)
    requires |fields| == |names|
  {
    forall i :: 0 <= i < |fields| ==> HeaderAlike(HeaderValue(a, names[i]), HeaderValue(b, names[i]), fields[i])
  }

  lemma {:induction false} SelectHeadersAt(headers: seq<(Text, Option<Text>)>, fields: seq<Text>, names: seq<Text>, i: nat)
    requires |fields| == |names| && i < |fields| && SelectHeaders(headers, fields, names).Some?
    ensures SelectHeader(headers, fields[i], names[i]) == Some(SelectHeaders(headers, fields, names).value[i])
  {
    if i > 0 {
      SelectHeadersAt(headers, fields[1..], names[1..], i - 1);
    }
  }

  lemma HeadersExactly(lower: Text -> Text, v: Wire, w: Wire)
    requires IdentityHeaders(lower, v).Some? && IdentityHeaders(lower, w).Some?
    ensures Same(IdentityHeaders(lower, v).value, IdentityHeaders(lower, w).value) <==> HeadersAlike(v.headers, w.headers, HEADER_FIELDS, HEADER_NAMES)
  {
    HeaderFieldNames();
    SelectedExactly(v.headers, w.headers, HEADER_FIELDS, HEADER_NAMES);
  }

  lemma SelectedExactly(a: seq<(Text, Option<Text>)>, b: seq<(Text, Option<Text>)>, fields: seq<Text>, names: seq<Text>)
    requires |fields| == |names| && GoodNames(fields) && SelectHeaders(a, fields, names).Some? && SelectHeaders(b, fields, names).Some?
    ensures Same(Obj(Record(fields, SelectHeaders(a, fields, names).value)), Obj(Record(fields, SelectHeaders(b, fields, names).value)))
            <==> HeadersAlike(a, b, fields, names)
  {
    var vs, ws := SelectHeaders(a, fields, names).value, SelectHeaders(b, fields, names).value;
    SelectHeadersShaped(a, fields, names);
    RecordsExactly(fields, vs, ws);
    forall i | 0 <= i < |fields| ensures Same(vs[i], ws[i]) <==> HeaderAlike(HeaderValue(a, names[i]), HeaderValue(b, names[i]), fields[i]) {
      SelectHeadersAt(a, fields, names, i);
      SelectHeadersAt(b, fields, names, i);
      HeaderExactly(a, b, fields[i], names[i]);
    }
  }

  /** Policies that agree in every value, hint lists as sets of lowered names. */
  ghost predicate PoliciesAlike(lower: Text -> Text, p: Policy, q: Policy) {
    && p.api == q.api && p.optInResponseReceived == q.optInResponseReceived && p.postOptInRequest == q.postOptInRequest
    && p.permissionsPolicyDelegated == q.permissionsPolicyDelegated
    && HintsAlike(lower, p.allowedHints, q.allowedHints) && HintsAlike(lower, p.crossOriginAllowedHints, q.crossOriginAllowedHints)
    && HintsAlike(lower, p.acceptCH, q.acceptCH) && HintsAlike(lower, p.delegatedHints, q.delegatedHints)
  }

  ghost predicate HintsAlike(lower: Text -> Text, v: Json, w: Json) {
    TextsAlike(Hintish(lower, v), Hintish(lower, w))
  }

  lemma HintsExactly(lower: Text -> Text, v: Json, w: Json)
    requires HintNames(lower, v).Some? && HintNames(lower, w).Some?
    ensures Same(HintNames(lower, v).value, HintNames(lower, w).value) <==> HintsAlike(lower, v, w)
  {
    SortedExactly(Hintish(lower, v).value, Hintish(lower, w).value);
  }

  /** The values policy fields are given. */
  function PolicyList(lower: Text -> Text, p: Policy): seq<Json>
    requires PolicyFields(lower, p).Some?
  {
    PolicyValues(p, HintNames(lower, p.allowedHints).value, HintNames(lower, p.crossOriginAllowedHints).value,
                 HintNames(lower, p.acceptCH).value, HintNames(lower, p.delegatedHints).value)
  }

  lemma PolicyListShaped(lower: Text -> Text, p: Policy)
    requires PolicyFields(lower, p).Some?
    ensures PolicyFields(lower, p) == Some(Obj(Record(POLICY, PolicyList(lower, p)))) && forall v <- PolicyList(lower, p) :: Shaped(v)
  {
    HintNamesShaped(lower, p.allowedHints);
    HintNamesShaped(lower, p.crossOriginAllowedHints);
    HintNamesShaped(lower, p.acceptCH);
    HintNamesShaped(lower, p.delegatedHints);
    PolicyValuesShaped(p, HintNames(lower, p.allowedHints).value, HintNames(lower, p.crossOriginAllowedHints).value,
                       HintNames(lower, p.acceptCH).value, HintNames(lower, p.delegatedHints).value);
  }

  lemma PolicyValuesExactly(p: Policy, a: Json, c: Json, h: Json, d: Json, q: Policy, a': Json, c': Json, h': Json, d': Json)
    requires forall v <- PolicyValues(p, a, c, h, d) :: Shaped(v)
    ensures Same(Obj(Record(POLICY, PolicyValues(p, a, c, h, d))), Obj(Record(POLICY, PolicyValues(q, a', c', h', d'))))
            <==> && p.api == q.api && p.optInResponseReceived == q.optInResponseReceived && p.postOptInRequest == q.postOptInRequest
                 && p.permissionsPolicyDelegated == q.permissionsPolicyDelegated
                 && Same(a, a') && Same(c, c') && Same(h, h') && Same(d, d')
  {
    PolicyNames();
    NineExactly(POLICY, PolicyValues(p, a, c, h, d), PolicyValues(q, a', c', h', d'));
    FlagsExactly(p, q);
  }

  lemma PoliciesExactly(lower: Text -> Text, p: Policy, q: Policy)
    requires PolicyFields(lower, p).Some? && PolicyFields(lower, q).Some?
    ensures Same(PolicyFields(lower, p).value, PolicyFields(lower, q).value) <==> PoliciesAlike(lower, p, q)
  {
    PolicyListShaped(lower, p);
    PolicyListShaped(lower, q);
    PolicyValuesExactly(
      p, HintNames(lower, p.allowedHints).value, HintNames(lower, p.crossOriginAllowedHints).value,
      HintNames(lower, p.acceptCH).value, HintNames(lower, p.delegatedHints).value,
      q, HintNames(lower, q.allowedHints).value, HintNames(lower, q.crossOriginAllowedHints).value,
      HintNames(lower, q.acceptCH).value, HintNames(lower, q.delegatedHints).value);
    HintsExactly(lower, p.allowedHints, q.allowedHints);
    HintsExactly(lower, p.crossOriginAllowedHints, q.crossOriginAllowedHints);
    HintsExactly(lower, p.acceptCH, q.acceptCH);
    HintsExactly(lower, p.delegatedHints, q.delegatedHints);
  }

  lemma NineExactly(names: seq<Text>, vs: seq<Json>, ws: seq<Json>)
    requires |names| == |vs| == |ws| == 9 && GoodNames(names) && forall v <- vs :: Shaped(v)
    ensures Same(Obj(Record(names, vs)), Obj(Record(names, ws)))
            <==> Same(vs[0], ws[0]) && Same(vs[1], ws[1]) && Same(vs[2], ws[2]) && Same(vs[3], ws[3]) && Same(vs[4], ws[4])
                 && Same(vs[5], ws[5]) && Same(vs[6], ws[6]) && Same(vs[7], ws[7]) && Same(vs[8], ws[8])
  {
    RecordsExactly(names, vs, ws);
    NineSame(vs, ws);
  }

  lemma NineSame(vs: seq<Json>, ws: seq<Json>)
    requires |vs| == |ws| == 9
    ensures (forall i :: 0 <= i < 9 ==> Same(vs[i], ws[i]))
            <==> Same(vs[0], ws[0]) && Same(vs[1], ws[1]) && Same(vs[2], ws[2]) && Same(vs[3], ws[3]) && Same(vs[4], ws[4])
                 && Same(vs[5], ws[5]) && Same(vs[6], ws[6]) && Same(vs[7], ws[7]) && Same(vs[8], ws[8])
  {
  }

  lemma FlagsExactly(p: Policy, q: Policy)
    ensures Same(Boolean(p.optInResponseReceived), Boolean(q.optInResponseReceived)) <==> p.optInResponseReceived == q.optInResponseReceived
    ensures Same(Boolean(p.postOptInRequest), Boolean(q.postOptInRequest)) <==> p.postOptInRequest == q.postOptInRequest
    ensures Same(Boolean(p.permissionsPolicyDelegated), Boolean(q.permissionsPolicyDelegated)) <==> p.permissionsPolicyDelegated == q.permissionsPolicyDelegated
    ensures Same(Str(p.api), Str(q.api)) <==> p.api == q.api
  {
  }

  /** Contexts that agree in everything that is compared. */
  ghost predicate ContextsAlike(lower: Text -> Text, c: ContextSample, d: ContextSample) {
    && NavigatorsAlike(c.navigator, d.navigator) && PoliciesAlike(lower, c.policy, d.policy)
    && HeadersAlike(c.optIn.headers, d.optIn.headers, HEADER_FIELDS, HEADER_NAMES)
    && HeadersAlike(c.echo.headers, d.echo.headers, HEADER_FIELDS, HEADER_NAMES)
  }

  lemma ContextsExactly(lower: Text -> Text, c: ContextSample, d: ContextSample)
    requires ContextFields(lower, c).Some? && ContextFields(lower, d).Some?
    ensures Same(ContextFields(lower, c).value, ContextFields(lower, d).value) <==> ContextsAlike(lower, c, d)
  {
    NavigatorsExactly(c.navigator, d.navigator);
    PoliciesExactly(lower, c.policy, d.policy);
    HeadersExactly(lower, c.optIn, d.optIn);
    HeadersExactly(lower, c.echo, d.echo);
    NavigatorShaped(c.navigator);
    HeadersShaped(lower, c.optIn);
    HeadersShaped(lower, c.echo);
    PolicyShaped(lower, c.policy);
    ContextPartsExactly(
      NavigatorValues(c.navigator).value, IdentityHeaders(lower, c.optIn).value, IdentityHeaders(lower, c.echo).value, PolicyFields(lower, c.policy).value,
      NavigatorValues(d.navigator).value, IdentityHeaders(lower, d.optIn).value, IdentityHeaders(lower, d.echo).value, PolicyFields(lower, d.policy).value);
  }

  lemma PairExactly(names: seq<Text>, v: Json, w: Json, v': Json, w': Json)
    requires |names| == 2 && GoodNames(names) && Shaped(v) && Shaped(w)
    ensures Same(Obj(Record(names, [v, w])), Obj(Record(names, [v', w']))) <==> Same(v, v') && Same(w, w')
  {
    var vs, ws := [v, w], [v', w'];
    RecordsExactly(names, vs, ws);
    assert Same(vs[0], ws[0]) == Same(v, v') && Same(vs[1], ws[1]) == Same(w, w');
  }

  lemma TripleExactly(names: seq<Text>, v: Json, w: Json, x: Json, v': Json, w': Json, x': Json)
    requires |names| == 3 && GoodNames(names) && Shaped(v) && Shaped(w) && Shaped(x)
    ensures Same(Obj(Record(names, [v, w, x])), Obj(Record(names, [v', w', x']))) <==> Same(v, v') && Same(w, w') && Same(x, x')
  {
    var vs, ws := [v, w, x], [v', w', x'];
    RecordsExactly(names, vs, ws);
    assert Same(vs[0], ws[0]) == Same(v, v') && Same(vs[1], ws[1]) == Same(w, w') && Same(vs[2], ws[2]) == Same(x, x');
  }

  lemma ContextPartsExactly(n: Json, o: Json, e: Json, p: Json, n': Json, o': Json, e': Json, p': Json)
    requires Shaped(n) && Shaped(o) && Shaped(e) && Shaped(p)
    ensures Same(Obj(Record(CONTEXT, [n, Obj(Record(WIRE, [o, e])), p])), Obj(Record(CONTEXT, [n', Obj(Record(WIRE, [o', e'])), p'])))
            <==> Same(n, n') && Same(o, o') && Same(e, e') && Same(p, p')
  {
    ContextNames();
    RecordShaped(WIRE, [o, e]);
    PairExactly(WIRE, o, e, o', e');
    TripleExactly(CONTEXT, n, Obj(Record(WIRE, [o, e])), p, n', Obj(Record(WIRE, [o', e'])), p');
  }

  lemma AllContextsHead(lower: Text -> Text, cs: seq<ContextSample>)
    requires cs != [] && AllContexts(lower, cs).Some?
    ensures ContextFields(lower, cs[0]).Some? && AllContexts(lower, cs[1..]).Some?
    ensures AllContexts(lower, cs).value == [ContextFields(lower, cs[0]).value] + AllContexts(lower, cs[1..]).value
  {
  }

  lemma {:induction false} AllContextsAt(lower: Text -> Text, cs: seq<ContextSample>, i: nat, c: ContextSample)
    requires i < |cs| && c == cs[i] && AllContexts(lower, cs).Some?
    ensures ContextFields(lower, c) == Some(AllContexts(lower, cs).value[i])
  {
    AllContextsHead(lower, cs);
    if i > 0 {
      AllContextsAt(lower, cs[1..], i - 1, c);
    }
  }

  /** Two projections are the same exactly if in every context the samples agree in every
      navigator value, identity header and policy value, whatever the order of brands and
      lists, the GREASE members, and the order and casing of the raw headers. */
  lemma ProjectionsExactly(lower: Text -> Text, s: Sample, t: Sample)
    requires Project(lower, s).Some? && Project(lower, t).Some?
    ensures Same(Project(lower, s).value.fields, Project(lower, t).value.fields)
            <==> forall i :: 0 <= i < |CONTEXTS| ==> ContextsAlike(lower, s.contexts[i], t.contexts[i])
  {
    ContextNames();
    AllContextsExactly(lower, CONTEXTS, s.contexts, t.contexts);
  }

  lemma AllContextsExactly(lower: Text -> Text, names: seq<Text>, cs: seq<ContextSample>, ds: seq<ContextSample>)
    requires |names| == |cs| == |ds| && GoodNames(names) && AllContexts(lower, cs).Some? && AllContexts(lower, ds).Some?
    ensures Same(Obj(Record(names, AllContexts(lower, cs).value)), Obj(Record(names, AllContexts(lower, ds).value)))
            <==> forall i :: 0 <= i < |names| ==> ContextsAlike(lower, cs[i], ds[i])
  {
    AllContextsShaped(lower, cs);
    PairwiseContexts(lower, cs, ds);
    RecordsExactly(names, AllContexts(lower, cs).value, AllContexts(lower, ds).value);
  }

  lemma PairwiseContexts(lower: Text -> Text, cs: seq<ContextSample>, ds: seq<ContextSample>)
    requires |cs| == |ds| && AllContexts(lower, cs).Some? && AllContexts(lower, ds).Some?
    ensures var vs, ws := AllContexts(lower, cs).value, AllContexts(lower, ds).value;
            forall i :: 0 <= i < |cs| ==> (Same(vs[i], ws[i]) <==> ContextsAlike(lower, cs[i], ds[i]))
  {
    forall i | 0 <= i < |cs|
      ensures Same(AllContexts(lower, cs).value[i], AllContexts(lower, ds).value[i]) <==> ContextsAlike(lower, cs[i], ds[i])
    {
      OneContextExactly(lower, cs, ds, i);
    }
  }

  lemma OneContextExactly(lower: Text -> Text, cs: seq<ContextSample>, ds: seq<ContextSample>, i: nat)
    requires i < |cs| == |ds| && AllContexts(lower, cs).Some? && AllContexts(lower, ds).Some?
    ensures Same(AllContexts(lower, cs).value[i], AllContexts(lower, ds).value[i]) <==> ContextsAlike(lower, cs[i], ds[i])
  {
    AllContextsAt(lower, cs, i, cs[i]);
    AllContextsAt(lower, ds, i, ds[i]);
    ContextsExactly(lower, cs[i], ds[i]);
  }

  /** A profile is reverified exactly if both samples can be projected, are of the same facts and
      path and of different runs, and agree in every context. */
  lemma SamplesReverified(num: Numerals, lower: Text -> Text, s: Sample, t: Sample, c: Comparison)
    requires Compared(num, Project(lower, s), Project(lower, t), c)
    ensures c.verdict == Reverified
            <==> && Project(lower, s).Some? && Project(lower, t).Some?
                 && s.facts == t.facts && s.executablePath == t.executablePath && s.runId != t.runId
                 && forall i :: 0 <= i < |CONTEXTS| ==> ContextsAlike(lower, s.contexts[i], t.contexts[i])
  {
    var l, r := Project(lower, s), Project(lower, t);
    if l.Some? && r.Some? {
      ProjectShaped(lower, s);
      ProjectShaped(lower, t);
      SameFacts(s.facts, t.facts);
      ProjectionsExactly(lower, s, t);
      if c.issues == [] {
        ReverifiedExactly(num, l.value.fields, r.value.fields, c.differences);
      }
    }
  }
}
