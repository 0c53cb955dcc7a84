/** The six-context identity gate: what it asserts about negotiation, navigators and request
    headers, and what a PASS of all of it means. */
module IdentityGate {
  import opened Contexts
  import opened Results
  import opened Ordering
  import opened JsonText
  import Brands
  import ChromiumVersions
  import Decimals
  import S = StructuredFields

  // ---------- contexts and hints ----------

  const CONTEXTS: seq<Context> := [Window, Dedicated, Shared, Service, SameOriginFrame, CrossOriginFrame]

  predicate IsWorker(c: Context) {
    c == Dedicated || c == Shared || c == Service
  }

  predicate IsFrame(c: Context) {
    c == SameOriginFrame || c == CrossOriginFrame
  }

  datatype Hint =
    | UaBrands | UaMobile | UaPlatform | UaArchitecture | UaBitness | UaPlatformVersion
    | UaFullVersionList | UaModel | UaWow64 | UaFullVersion | UaFormFactors

  const HINTS: seq<Hint> :=
    [UaBrands, UaMobile, UaPlatform, UaArchitecture, UaBitness, UaPlatformVersion, UaFullVersionList, UaModel, UaWow64, UaFullVersion, UaFormFactors]

  function HeaderName(h: Hint): Text {
    match h
    case UaBrands => "sec-ch-ua"
    case UaMobile => "sec-ch-ua-mobile"
    case UaPlatform => "sec-ch-ua-platform"
    case UaArchitecture => "sec-ch-ua-arch"
    case UaBitness => "sec-ch-ua-bitness"
    case UaPlatformVersion => "sec-ch-ua-platform-version"
    case UaFullVersionList => "sec-ch-ua-full-version-list"
    case UaModel => "sec-ch-ua-model"
    case UaWow64 => "sec-ch-ua-wow64"
    case UaFullVersion => "sec-ch-ua-full-version"
    case UaFormFactors => "sec-ch-ua-form-factors"
  }

  // ---------- what is captured; None is a missing member ----------

  datatype CaptureStatus = Captured | Timeout | CaptureError | NotRun | CaptureBlocked | Alien

  datatype HighEntropy = HighEntropy(
    architecture: Option<Json>, bitness: Option<Json>, platformVersion: Option<Json>, fullVersionList: Option<Json>,
    model: Option<Json>, wow64: Option<Json>, uaFullVersion: Option<Json>, formFactors: Option<Json>)

  datatype Navigator = Navigator(
    userAgent: Option<Json>, platform: Option<Json>, uaPlatform: Option<Json>, mobile: Option<Json>, brands: Option<Json>,
    highEntropy: Option<HighEntropy>)

  datatype NavigatorCapture = NavigatorCapture(status: CaptureStatus, identity: Option<Navigator>)

  datatype RawNegotiation = RawNegotiation(
    origin: Option<Json>, topLevelOrigin: Option<Json>, secureContext: Option<Json>, optInResponseReceived: Option<Json>,
    postOptInRequest: Option<Json>, permissionsPolicyDelegated: Option<Json>, acceptCH: Option<Json>, delegatedHints: Option<Json>)

  datatype Evidence = Evidence(status: CaptureStatus, responseStatus: Option<real>, requestUrl: Option<Json>, negotiation: Option<RawNegotiation>)

  /** A hint's header: missing, null, a text or something else. */
  datatype Cell = Missing | NullCell | TextCell(text: Text) | AlienCell

  datatype Headers = Headers(userAgent: Option<Json>, hints: Hint -> Cell)

  datatype Mode = Managed | Off

  datatype Binding = Binding(
    runId: Text, hostId: Text, profileId: Text, pid: nat, executablePath: Text, executableSha256: Text, headless: bool, identityMode: Mode)

  /** A binding is None where it is not valid. */
  datatype Corpus = Corpus(
    binding: Option<Binding>, navigators: Context -> Option<NavigatorCapture>, requestEvidence: Context -> Option<Evidence>,
    requestHeaders: Context -> Option<Headers>)

  datatype Runtime = Runtime(binding: Option<Binding>, verifiedBinding: Option<Binding>, executableFullVersion: Text)

  datatype Contract = Contract(mode: Mode, wantsFullVersion: bool, wantsFormFactors: bool, allowsOmission: bool)

  datatype Run = Run(actual: Corpus, runtime: Runtime)

  // ---------- assertions ----------

  datatype Status = PASS | FAIL | BLOCKED | NOTRUN

  datatype Id =
    | RuntimeBinding | ControlIdentity | ControlBinding
    | Negotiation(context: Context) | Prerequisites(context: Context)
    | NavigatorCaptured(context: Context) | NavigatorShape(context: Context) | NavigatorBrands(context: Context)
    | NavigatorFullVersions(context: Context) | NavigatorFormFactors(context: Context) | NavigatorTyped(context: Context, hint: Hint)
    | CrossSurface(context: Context)
    | RequestCaptured(context: Context) | RequestSuccess(context: Context) | RequestOrigin(context: Context)
    | OriginBinding(context: Context) | RequestHeadersShape(context: Context) | RequestUserAgent(context: Context)
    | NativeNegotiation(context: Context) | OmissionShape(context: Context) | HintShape(context: Context)
    | HintFormat(context: Context, hint: Hint) | HintValue(context: Context, hint: Hint)
    | RuntimeProduct | RuntimeElement | RuntimeExecutable | VersionSource | VersionTuple | ProductMode
    | AgentFormat(place: Place) | AgentVersion(place: Place) | BrandVersions(context: Context) | WindowAgent
    | Other(name: Text)

  /** Where a user agent was observed. */
  datatype Place = OverCdp | InNavigator(context: Context) | InRequest(context: Context)

  datatype Assertion = Assertion(id: Id, status: Status, required: bool)

  function Check(id: Id, ok: bool): Assertion {
    Assertion(id, if ok then PASS else FAIL, true)
  }

  predicate Satisfied(a: Assertion) {
    a.required ==> a.status == PASS
  }

  /** The verdict over all assertions. */
  function Verdict(assertions: seq<Assertion>): Status {
    if exists a <- assertions :: a.required && a.status == FAIL then FAIL
    else if exists a <- assertions :: a.required && a.status == BLOCKED then BLOCKED
    else if exists a <- assertions :: a.required && a.status != PASS then NOTRUN
    else PASS
  }

  lemma VerdictExactly(assertions: seq<Assertion>)
    ensures Verdict(assertions) == PASS <==> forall a <- assertions :: Satisfied(a)
  {
  }

  // ---------- readers ----------

  predicate Present(v: Json) {
    v.Str? && v.s != ""
  }

  predicate PresentText(v: Option<Json>) {
    v.Some? && Present(v.value)
  }

  predicate PrintableAscii(t: Text) {
    forall c <- t :: ' ' <= c <= '~'
  }

  /** A major version alone. */
  predicate IsMajor(t: Text) {
    Decimals.Canonical(t) && t != "0"
  }

  /** brands, on members already read. */
  function AcceptBrands(list: Option<seq<S.Brand>>, full: bool): Option<seq<S.Brand>> {
    match list
    case None => None
    case Some(s) =>
      if 0 < |s| <= 32 && Brands.DistinctNames(s)
         && (forall b <- s :: PrintableAscii(b.brand) && VersionOk(b.version, full))
         && (exists b <- s :: b.brand == "Chromium" && !Brands.IsGrease(b))
      then Some(Brands.RealBrands(s))
      else None
  }

  predicate VersionOk(version: Text, full: bool) {
    if full then ChromiumVersions.ParseFullVersion(version).Some? else IsMajor(version)
  }

  function BrandsOf(v: Option<Json>, full: bool): Option<seq<S.Brand>> {
    if v.Some? && v.value.Arr? then AcceptBrands(Brands.ReadBrands(v.value.items, Present), full) else None
  }

  function PresentItems(items: Items): Option<seq<Text>> {
    match items
    case NoItems => Some([])
    case Item(head, tail) =>
      match PresentItems(tail)
      case None => None
      case Some(rest) => if Present(head) then Some([head.s] + rest) else None
  }

  /** stringSet, on texts already read. */
  function AcceptSet(list: Option<seq<Text>>): Option<seq<Text>> {
    if list.Some? && list.value != [] && NoRepeats(list.value) && forall t <- list.value :: t != "" then Some(SortBy(Codes, list.value)) else None
  }

  function SetOf(v: Option<Json>): Option<seq<Text>> {
    if v.Some? && v.value.Arr? then AcceptSet(PresentItems(v.value.items)) else None
  }

  predicate HintNameChar(c: char) {
    'a' <= c <= 'z' || 'A' <= c <= 'Z' || '0' <= c <= '9' || c == '-'
  }

  function Lower(t: Text): Text {
    if t == [] then [] else [if 'A' <= t[0] <= 'Z' then (t[0] as nat + 32) as char else t[0]] + Lower(t[1..])
  }

  function LowerAll(s: seq<Text>): seq<Text> {
    if s == [] then [] else [Lower(s[0])] + LowerAll(s[1..])
  }

  /** hintNames */
  function HintNamesOf(v: Option<Json>): Option<seq<Text>> {
    if v.Some? && v.value.Arr? then
      match PresentItems(v.value.items)
      case None => None
      case Some(s) =>
        if (forall t <- s :: forall c <- t :: HintNameChar(c)) && NoRepeats(LowerAll(s)) then Some(SortBy(Codes, LowerAll(s))) else None
    else None
  }

  // ---------- negotiation ----------

  datatype Negotiated = Negotiated(
    origin: Text, topLevelOrigin: Text, secureContext: bool, optInResponseReceived: bool, postOptInRequest: bool,
    permissionsPolicyDelegated: bool, acceptCH: seq<Text>, delegatedHints: seq<Text>)

  /** How the platform reads URLs: the origin of an HTTP(S) URL that is one exactly, and of any URL. */
  datatype Urls = Urls(isOrigin: Text -> bool, originOf: Text -> Option<Text>)

  predicate Flag(v: Option<Json>) {
    v.Some? && v.value.Boolean?
  }

  predicate OriginText(urls: Urls, v: Option<Json>) {
    PresentText(v) && urls.isOrigin(v.value.s)
  }

  function ReadNegotiation(urls: Urls, c: Context, n: Option<RawNegotiation>): Option<Negotiated> {
    match n
    case None => None
    case Some(r) =>
      if Flag(r.secureContext) && Flag(r.optInResponseReceived) && Flag(r.postOptInRequest) && Flag(r.permissionsPolicyDelegated)
         && OriginText(urls, r.origin) && OriginText(urls, r.topLevelOrigin)
         && (c == CrossOriginFrame) != (r.origin.value.s == r.topLevelOrigin.value.s)
         && HintNamesOf(r.acceptCH).Some? && HintNamesOf(r.delegatedHints).Some?
      then
        Some(Negotiated(r.origin.value.s, r.topLevelOrigin.value.s, r.secureContext.value.b, r.optInResponseReceived.value.b,
                        r.postOptInRequest.value.b, r.permissionsPolicyDelegated.value.b,
                        HintNamesOf(r.acceptCH).value, HintNamesOf(r.delegatedHints).value))
      else None
  }

  predicate Required(k: Contract, h: Hint) {
    (h == UaFullVersion ==> k.wantsFullVersion) && (h == UaFormFactors ==> k.wantsFormFactors)
  }

  predicate LowEntropy(h: Hint) {
    h == UaBrands || h == UaMobile || h == UaPlatform
  }

  /** No prerequisite is missing. */
  predicate Ready(k: Contract, c: Context, n: Negotiated) {
    && n.secureContext && n.optInResponseReceived && n.postOptInRequest
    && (forall h <- HINTS :: Required(k, h) && !LowEntropy(h) ==> HeaderName(h) in n.acceptCH)
    && (c == CrossOriginFrame ==>
          n.permissionsPolicyDelegated && forall h <- HINTS :: Required(k, h) ==> HeaderName(h) in n.delegatedHints)
  }

  /** What the negotiation of one context comes to. */
  datatype Standing = Standing(negotiated: Option<Negotiated>, ready: bool, blocked: bool)

  function StandingOf(urls: Urls, k: Contract, a: Corpus, c: Context): Standing {
    var e := a.requestEvidence(c);
    match ReadNegotiation(urls, c, if e.Some? then e.value.negotiation else None)
    case None => Standing(None, false, false)
    case Some(n) => Standing(Some(n), Ready(k, c, n), !Ready(k, c, n) && IsFrame(c))
  }

  function NegotiationAssertions(c: Context, s: Standing): seq<Assertion> {
    if s.negotiated.None? then [Check(Negotiation(c), false)]
    else
      [Check(Negotiation(c), true),
       if s.blocked then Assertion(Prerequisites(c), BLOCKED, true) else Check(Prerequisites(c), s.ready)]
  }

  // ---------- navigators ----------

  /** capture: the assertion, and whether there is something to go on with. */
  function CaptureAssertion(id: Id, status: Option<CaptureStatus>, blocked: bool): (Assertion, bool) {
    if status == Some(NotRun) || (blocked && (status.None? || status == Some(CaptureBlocked) || status == Some(Captured))) then
      (Assertion(id, if blocked then BLOCKED else NOTRUN, true), false)
    else (Check(id, status == Some(Captured)), status == Some(Captured))
  }

  /** The identity recorded for a context. */
  datatype Identity = Identity(
    userAgent: Option<Json>, platform: Option<Json>, uaPlatform: Option<Json>, mobile: Option<Json>, brands: Option<seq<S.Brand>>,
    architecture: Option<Json>, bitness: Option<Json>, platformVersion: Option<Json>, fullVersionList: Option<seq<S.Brand>>,
    model: Option<Json>, wow64: Option<Json>, uaFullVersion: Option<Json>, formFactors: Option<seq<Text>>)

  predicate Shaped(n: Option<Navigator>) {
    n.Some? && PresentText(n.value.userAgent) && PresentText(n.value.platform) && PresentText(n.value.uaPlatform)
    && Flag(n.value.mobile) && n.value.highEntropy.Some?
  }

  function IdentityOf(k: Contract, n: Navigator): Identity
    requires Shaped(Some(n))
  {
    var h := n.highEntropy.value;
    Identity(n.userAgent, n.platform, n.uaPlatform, n.mobile, BrandsOf(n.brands, false), h.architecture, h.bitness, h.platformVersion,
             BrandsOf(h.fullVersionList, true), h.model, h.wow64, h.uaFullVersion,
             if k.wantsFormFactors || h.formFactors.Some? then SetOf(h.formFactors) else None)
  }

  /** The navigator of a context as captured, if it can be gone on with. */
  function NavigatorOf(a: Corpus, c: Context): Option<Navigator> {
    match a.navigators(c)
    case None => None
    case Some(n) => n.identity
  }

  function NavigatorStatus(a: Corpus, c: Context): Option<CaptureStatus> {
    match a.navigators(c)
    case None => None
    case Some(n) => Some(n.status)
  }

  function IdentityAt(k: Contract, a: Corpus, c: Context, blocked: bool): Option<Identity> {
    if CaptureAssertion(NavigatorCaptured(c), NavigatorStatus(a, c), blocked).1 && Shaped(NavigatorOf(a, c))
    then Some(IdentityOf(k, NavigatorOf(a, c).value))
    else None
  }

  function TypedAssertions(c: Context, h: HighEntropy): seq<Assertion> {
    [Check(NavigatorTyped(c, UaArchitecture), PresentText(h.architecture)),
     Check(NavigatorTyped(c, UaBitness), h.bitness == Some(Str("32")) || h.bitness == Some(Str("64"))),
     Check(NavigatorTyped(c, UaPlatformVersion), h.platformVersion.Some? && h.platformVersion.value.Str? && IsTriple(h.platformVersion.value.s)),
     Check(NavigatorTyped(c, UaModel), h.model.Some? && h.model.value.Str?),
     Check(NavigatorTyped(c, UaWow64), Flag(h.wow64))]
  }

  /** Three canonical numbers with dots between them. */
  predicate IsTriple(t: Text) {
    exists i, j :: 0 <= i < j < |t| && Triple(t, i, j)
  }

  predicate Triple(t: Text, i: nat, j: nat)
    requires i < j < |t|
  {
    t[i] == '.' && t[j] == '.' && Decimals.Canonical(t[..i]) && Decimals.Canonical(t[i + 1..j]) && Decimals.Canonical(t[j + 1..])
  }

  /** What is asserted of a navigator of the right shape. */
  function NavigatorDetails(k: Contract, c: Context, n: Navigator): seq<Assertion>
    requires Shaped(Some(n))
  {
    var h, i := n.highEntropy.value, IdentityOf(k, n);
    [Check(NavigatorShape(c), true), Check(NavigatorBrands(c), i.brands.Some?), Check(NavigatorFullVersions(c), i.fullVersionList.Some?)]
    + TypedAssertions(c, h)
    + (if k.wantsFormFactors || h.formFactors.Some? then [Check(NavigatorFormFactors(c), i.formFactors.Some?)] else [])
  }

  function NavigatorAssertions(k: Contract, a: Corpus, c: Context, blocked: bool): seq<Assertion> {
    var captured := CaptureAssertion(NavigatorCaptured(c), NavigatorStatus(a, c), blocked);
    if !captured.1 then [captured.0]
    else [captured.0] + if Shaped(NavigatorOf(a, c)) then NavigatorDetails(k, c, NavigatorOf(a, c).value) else [Check(NavigatorShape(c), false)]
  }

  // ---------- requests ----------

  datatype Decoded = BrandValue(brands: seq<S.Brand>) | FlagValue(b: bool) | TextValue(text: Text) | SetValue(texts: seq<Text>)

  function Blank(t: Text): nat
    ensures Blank(t) <= |t|
  {
    if t != [] && (t[0] == ' ' || t[0] == '\t') then 1 + Blank(t[1..]) else 0
  }

  /** parseClientHintBoolean */
  function ParseBoolean(t: Text): Option<bool> {
    var u := t[Blank(t)..];
    if |u| >= 2 && u[0] == '?' && (u[1] == '0' || u[1] == '1') && Blank(u[2..]) == |u| - 2 then Some(u[1] == '1') else None
  }

  function AsBrands(values: seq<S.Value>): seq<S.Brand> {
    if values == [] then [] else (if values[0].BrandValue? then [values[0].brand] else []) + AsBrands(values[1..])
  }

  function AsTexts(values: seq<S.Value>): seq<Text> {
    if values == [] then [] else (if values[0].StringValue? then [values[0].text] else []) + AsTexts(values[1..])
  }

  /** The value a header spells, by the encoding of its hint. */
  function Decode(h: Hint, text: Text): Option<Decoded> {
    match h
    case UaBrands => DecodeBrands(text, false)
    case UaFullVersionList => DecodeBrands(text, true)
    case UaMobile => DecodeFlag(text)
    case UaWow64 => DecodeFlag(text)
    case UaFormFactors => DecodeSet(text)
    case _ => match S.ParseString(text) { case None => None case Some(t) => Some(TextValue(t)) }
  }

  function DecodeBrands(text: Text, full: bool): Option<Decoded> {
    match S.ParseList(true, text)
    case None => None
    case Some(values) => match AcceptBrands(Some(AsBrands(values)), full) { case None => None case Some(s) => Some(BrandValue(s)) }
  }

  function DecodeFlag(text: Text): Option<Decoded> {
    match ParseBoolean(text)
    case None => None
    case Some(b) => Some(FlagValue(b))
  }

  function DecodeSet(text: Text): Option<Decoded> {
    match S.ParseList(false, text)
    case None => None
    case Some(values) => match AcceptSet(Some(AsTexts(values))) { case None => None case Some(s) => Some(SetValue(s)) }
  }

  /** The navigator's value for a hint, in the form a header decodes to. */
  function FieldOf(i: Identity, h: Hint): Option<Decoded> {
    match h
    case UaBrands => if i.brands.Some? then Some(BrandValue(i.brands.value)) else None
    case UaFullVersionList => if i.fullVersionList.Some? then Some(BrandValue(i.fullVersionList.value)) else None
    case UaMobile => FlagOf(i.mobile)
    case UaWow64 => FlagOf(i.wow64)
    case UaFormFactors => if i.formFactors.Some? then Some(SetValue(i.formFactors.value)) else None
    case UaPlatform => TextOf(i.uaPlatform)
    case UaArchitecture => TextOf(i.architecture)
    case UaBitness => TextOf(i.bitness)
    case UaPlatformVersion => TextOf(i.platformVersion)
    case UaModel => TextOf(i.model)
    case UaFullVersion => TextOf(i.uaFullVersion)
  }

  function FlagOf(v: Option<Json>): Option<Decoded> {
    if Flag(v) then Some(FlagValue(v.value.b)) else None
  }

  function TextOf(v: Option<Json>): Option<Decoded> {
    if v.Some? && v.value.Str? then Some(TextValue(v.value.s)) else None
  }

  predicate Succeeded(e: Evidence) {
    e.responseStatus.Some? && 200.0 <= e.responseStatus.value < 300.0
  }

  function RequestOriginOf(urls: Urls, e: Evidence): Option<Text> {
    if PresentText(e.requestUrl) then urls.originOf(e.requestUrl.value.s) else None
  }

  function NegotiatedOrigin(e: Evidence): Option<Json> {
    match e.negotiation
    case None => None
    case Some(n) => n.origin
  }

  /** The request went to the negotiated origin; both being absent does not count as that. */
  predicate OriginBound(urls: Urls, e: Evidence) {
    RequestOriginOf(urls, e).Some? && NegotiatedOrigin(e) == Some(Str(RequestOriginOf(urls, e).value))
  }

  predicate SameUserAgent(i: Option<Identity>, x: Headers) {
    i.Some? && PresentText(x.userAgent) && x.userAgent == i.value.userAgent
  }

  predicate AllNull(x: Headers) {
    forall h <- HINTS :: x.hints(h) == NullCell
  }

  /** The control, its own verdict, and whether it is bound to the same run, host and program. */
  datatype Control = NoControl | ControlRun(run: Run, status: Status)

  predicate ShareRun(a: Binding, b: Binding) {
    a.runId == b.runId && a.hostId == b.hostId && a.executablePath == b.executablePath && a.executableSha256 == b.executableSha256 && a.headless == b.headless
  }

  predicate BindingOk(k: Contract, r: Run) {
    && r.runtime.binding.Some? && r.runtime.verifiedBinding == r.runtime.binding && r.actual.binding == r.runtime.binding
    && r.runtime.binding.value.identityMode == k.mode
  }

  predicate ControlOk(k: Contract, r: Run, control: Control) {
    && control.ControlRun? && control.status == PASS && BindingOk(k, r) && control.run.runtime.binding.Some?
    && ShareRun(r.runtime.binding.value, control.run.runtime.binding.value)
    && control.run.runtime.executableFullVersion == r.runtime.executableFullVersion
  }

  function BindingAssertions(k: Contract, r: Run, control: Control): seq<Assertion> {
    [Check(RuntimeBinding, BindingOk(k, r))]
    + if control.ControlRun? then [Check(ControlIdentity, control.status == PASS), Check(ControlBinding, ControlOk(k, r, control))] else []
  }

  function NativeNegotiation(control: Control, c: Context): Option<RawNegotiation> {
    if control.ControlRun? && control.run.actual.requestEvidence(c).Some? then control.run.actual.requestEvidence(c).value.negotiation else None
  }

  /** The control negotiated the same, hint names compared as sets. */
  predicate Equivalent(n: Option<Negotiated>, native: RawNegotiation) {
    && n.Some? && HintNamesOf(native.acceptCH) == Some(n.value.acceptCH) && HintNamesOf(native.delegatedHints) == Some(n.value.delegatedHints)
    && native.origin == Some(Str(n.value.origin)) && native.topLevelOrigin == Some(Str(n.value.topLevelOrigin))
    && native.secureContext == Some(Boolean(n.value.secureContext))
    && native.optInResponseReceived == Some(Boolean(n.value.optInResponseReceived))
    && native.postOptInRequest == Some(Boolean(n.value.postOptInRequest))
    && native.permissionsPolicyDelegated == Some(Boolean(n.value.permissionsPolicyDelegated))
  }

  /** The control omitted every hint under an equal negotiation. */
  predicate ControlOmits(k: Contract, r: Run, control: Control, c: Context, n: Option<Negotiated>) {
    && ControlOk(k, r, control) && NativeNegotiation(control, c).Some? && Equivalent(n, NativeNegotiation(control, c).value)
    && control.run.actual.requestHeaders(c).Some? && AllNull(control.run.actual.requestHeaders(c).value)
  }

  /** Complete omission is up for judgement rather than simply refused. */
  predicate OmissionConsidered(k: Contract, c: Context, s: Standing, x: Headers) {
    AllNull(x) && IsWorker(c) && k.allowsOmission && s.ready
  }

  predicate OmissionAllowed(urls: Urls, k: Contract, r: Run, controlRole: bool, control: Control, c: Context, s: Standing,
                            i: Option<Identity>, e: Evidence, x: Headers) {
    && OmissionConsidered(k, c, s, x)
    && BindingOk(k, r) && Succeeded(e) && OriginBound(urls, e) && i.Some? && x.userAgent == i.value.userAgent
    && (controlRole || ControlOmits(k, r, control, c, s.negotiated))
  }

  /** The hints whose headers are checked: those required and those there. */
  predicate Checked(k: Contract, x: Headers, h: Hint) {
    Required(k, h) || (x.hints(h) != Missing && x.hints(h) != NullCell)
  }

  function DecodedCell(x: Headers, h: Hint): Option<Decoded> {
    if x.hints(h).TextCell? then Decode(h, x.hints(h).text) else None
  }

  function HintAssertions(k: Contract, c: Context, x: Headers, i: Option<Identity>, omission: bool, hints: seq<Hint>): seq<Assertion> {
    if hints == [] then []
    else
      var h := hints[0];
      (if !Checked(k, x, h) then []
       else if omission then [Assertion(HintFormat(c, h), NOTRUN, false)]
       else
         var v := DecodedCell(x, h);
         [Check(HintFormat(c, h), v.Some?), Check(HintValue(c, h), v.Some? && i.Some? && FieldOf(i.value, h) == v)])
      + HintAssertions(k, c, x, i, omission, hints[1..])
  }

  function ShapeAssertions(urls: Urls, k: Contract, r: Run, controlRole: bool, control: Control, c: Context, s: Standing,
                           i: Option<Identity>, e: Evidence, x: Headers): seq<Assertion> {
    if OmissionConsidered(k, c, s, x) then
      (if ControlOk(k, r, control) && NativeNegotiation(control, c).Some?
       then [Check(Id.NativeNegotiation(c), HintNamesOf(NativeNegotiation(control, c).value.acceptCH).Some?
                                            && HintNamesOf(NativeNegotiation(control, c).value.delegatedHints).Some?)]
       else [])
      + [Check(OmissionShape(c), OmissionAllowed(urls, k, r, controlRole, control, c, s, i, e, x))]
    else [Check(HintShape(c), forall h <- HINTS :: Required(k, h) ==> x.hints(h).TextCell?)]
  }

  function ResponseAssertions(urls: Urls, c: Context, e: Evidence): seq<Assertion> {
    [Check(RequestSuccess(c), Succeeded(e)), Check(RequestOrigin(c), RequestOriginOf(urls, e).Some?), Check(OriginBinding(c), OriginBound(urls, e))]
  }

  /** What is asserted of headers that are there. */
  function HeaderAssertions(urls: Urls, k: Contract, r: Run, controlRole: bool, control: Control, c: Context, s: Standing,
                            i: Option<Identity>, e: Evidence, x: Headers): seq<Assertion> {
    [Check(RequestHeadersShape(c), true), Check(RequestUserAgent(c), SameUserAgent(i, x))]
    + ShapeAssertions(urls, k, r, controlRole, control, c, s, i, e, x)
    + HintAssertions(k, c, x, i, OmissionAllowed(urls, k, r, controlRole, control, c, s, i, e, x), HINTS)
  }

  function RequestAssertions(urls: Urls, k: Contract, r: Run, controlRole: bool, control: Control, c: Context, s: Standing,
                             i: Option<Identity>): seq<Assertion> {
    var e, x := r.actual.requestEvidence(c), r.actual.requestHeaders(c);
    var captured := CaptureAssertion(RequestCaptured(c), if e.Some? then Some(e.value.status) else None, s.blocked);
    if !captured.1 then [captured.0]
    else
      [captured.0] + ResponseAssertions(urls, c, e.value)
      + if x.Some? then HeaderAssertions(urls, k, r, controlRole, control, c, s, i, e.value, x.value) else [Check(RequestHeadersShape(c), false)]
  }

  // ---------- the whole gate ----------

  function Over(f: Context -> seq<Assertion>, contexts: seq<Context>): seq<Assertion> {
    if contexts == [] then [] else Over(f, contexts[..|contexts| - 1]) + f(contexts[|contexts| - 1])
  }

  function CrossSurfaceAssertions(k: Contract, a: Corpus, blocked: Context -> bool, c: Context): seq<Assertion> {
    var i, window := IdentityAt(k, a, c, blocked(c)), IdentityAt(k, a, Window, blocked(Window));
    if i.None? then [] else [Check(CrossSurface(c), i == window)]
  }

  function Blocking(urls: Urls, k: Contract, a: Corpus): Context -> bool {
    (c: Context) => StandingOf(urls, k, a, c).blocked
  }

  function NegotiationPart(urls: Urls, k: Contract, a: Corpus): Context -> seq<Assertion> {
    (c: Context) => NegotiationAssertions(c, StandingOf(urls, k, a, c))
  }

  function NavigatorPart(urls: Urls, k: Contract, a: Corpus): Context -> seq<Assertion> {
    (c: Context) => NavigatorAssertions(k, a, c, StandingOf(urls, k, a, c).blocked)
  }

  function CrossSurfacePart(urls: Urls, k: Contract, a: Corpus): Context -> seq<Assertion> {
    (c: Context) => CrossSurfaceAssertions(k, a, Blocking(urls, k, a), c)
  }

  function RequestPart(urls: Urls, k: Contract, r: Run, controlRole: bool, control: Control): Context -> seq<Assertion> {
    (c: Context) =>
      var s := StandingOf(urls, k, r.actual, c);
      RequestAssertions(urls, k, r, controlRole, control, c, s, IdentityAt(k, r.actual, c, s.blocked))
  }

  /** Every assertion of the gate; rest are those of the groups not modelled here. */
  function AllAssertions(urls: Urls, k: Contract, r: Run, controlRole: bool, control: Control, rest: seq<Assertion>): seq<Assertion> {
    BindingAssertions(k, r, control)
    + Over(NegotiationPart(urls, k, r.actual), CONTEXTS)
    + Over(NavigatorPart(urls, k, r.actual), CONTEXTS)
    + Over(CrossSurfacePart(urls, k, r.actual), CONTEXTS)
    + Over(RequestPart(urls, k, r, controlRole, control), CONTEXTS)
    + rest
  }

  /** The first loop over the contexts: negotiations, and which contexts are ready or blocked. */
  method NegotiateAll(urls: Urls, k: Contract, a: Corpus, contexts: seq<Context>)
    returns (standings: map<Context, Standing>, list: seq<Assertion>)
    ensures list == Over(NegotiationPart(urls, k, a), contexts)
    ensures forall c <- contexts :: c in standings && standings[c] == StandingOf(urls, k, a, c)
  {
    standings, list := map[], [];
    for n := 0 to |contexts|
      invariant list == Over(NegotiationPart(urls, k, a), contexts[..n])
      invariant forall c <- contexts[..n] :: c in standings && standings[c] == StandingOf(urls, k, a, c)
    {
      var c := contexts[n];
      OverNext(NegotiationPart(urls, k, a), contexts, n);
      var s := StandingOf(urls, k, a, c);
      standings := standings[c := s];
      list := list + NegotiationAssertions(c, s);
    }
    assert contexts[..|contexts|] == contexts;
  }

  /** The identities recorded: one for every context whose navigator could be gone on with. */
  ghost predicate Recorded(urls: Urls, k: Contract, a: Corpus, contexts: seq<Context>, identities: map<Context, Identity>) {
    forall c: Context ::
      Found(identities, c) == if c in contexts then IdentityAt(k, a, c, StandingOf(urls, k, a, c).blocked) else None
  }

  function Found(identities: map<Context, Identity>, c: Context): Option<Identity> {
    if c in identities then Some(identities[c]) else None
  }

  lemma RecordedNext(urls: Urls, k: Contract, a: Corpus, contexts: seq<Context>, n: nat, identities: map<Context, Identity>,
                     next: map<Context, Identity>)
    requires n < |contexts| && Recorded(urls, k, a, contexts[..n], identities)
    requires var c := contexts[n];
             var i := IdentityAt(k, a, c, StandingOf(urls, k, a, c).blocked);
             next == if i.Some? then identities[c := i.value] else identities
    ensures Recorded(urls, k, a, contexts[..n + 1], next)
  {
    assert contexts[..n + 1] == contexts[..n] + [contexts[n]];
    assert Found(identities, contexts[n]).Some? ==> contexts[n] in contexts[..n];
  }

  /** The second loop: navigators. */
  method CaptureAll(urls: Urls, k: Contract, a: Corpus, standings: map<Context, Standing>, contexts: seq<Context>)
    returns (identities: map<Context, Identity>, list: seq<Assertion>)
    requires forall c <- contexts :: c in standings && standings[c] == StandingOf(urls, k, a, c)
    ensures list == Over(NavigatorPart(urls, k, a), contexts) && Recorded(urls, k, a, contexts, identities)
  {
    identities, list := map[], [];
    for n := 0 to |contexts|
      invariant list == Over(NavigatorPart(urls, k, a), contexts[..n]) && Recorded(urls, k, a, contexts[..n], identities)
    {
      var c := contexts[n];
      assert c in contexts;
      OverNext(NavigatorPart(urls, k, a), contexts, n);
      list := list + NavigatorAssertions(k, a, c, standings[c].blocked);
      var identity := IdentityAt(k, a, c, standings[c].blocked);
      var next := if identity.Some? then identities[c := identity.value] else identities;
      RecordedNext(urls, k, a, contexts, n, identities, next);
      identities := next;
    }
    assert contexts[..|contexts|] == contexts;
  }

  /** The third loop: every recorded identity against the window's. */
  method CrossAll(urls: Urls, k: Contract, a: Corpus, identities: map<Context, Identity>, contexts: seq<Context>) returns (list: seq<Assertion>)
    requires Recorded(urls, k, a, contexts, identities) && Window in contexts
    ensures list == Over(CrossSurfacePart(urls, k, a), contexts)
  {
    list := [];
    for n := 0 to |contexts|
      invariant list == Over(CrossSurfacePart(urls, k, a), contexts[..n])
    {
      var c := contexts[n];
      assert c in contexts;
      OverNext(CrossSurfacePart(urls, k, a), contexts, n);
      assert Found(identities, c) == IdentityAt(k, a, c, StandingOf(urls, k, a, c).blocked);
      assert Found(identities, Window) == IdentityAt(k, a, Window, StandingOf(urls, k, a, Window).blocked);
      list := list + if c in identities then [Check(CrossSurface(c), Found(identities, c) == Found(identities, Window))] else [];
    }
    assert contexts[..|contexts|] == contexts;
  }

  /** The last loop: requests. */
  method RequestAll(urls: Urls, k: Contract, r: Run, controlRole: bool, control: Control, standings: map<Context, Standing>,
                    identities: map<Context, Identity>, contexts: seq<Context>) returns (list: seq<Assertion>)
    requires forall c <- contexts :: c in standings && standings[c] == StandingOf(urls, k, r.actual, c)
    requires Recorded(urls, k, r.actual, contexts, identities)
    ensures list == Over(RequestPart(urls, k, r, controlRole, control), contexts)
  {
    list := [];
    for n := 0 to |contexts|
      invariant list == Over(RequestPart(urls, k, r, controlRole, control), contexts[..n])
    {
      var c := contexts[n];
      assert c in contexts;
      OverNext(RequestPart(urls, k, r, controlRole, control), contexts, n);
      assert Found(identities, c) == IdentityAt(k, r.actual, c, StandingOf(urls, k, r.actual, c).blocked);
      list := list + RequestAssertions(urls, k, r, controlRole, control, c, standings[c], Found(identities, c));
    }
    assert contexts[..|contexts|] == contexts;
  }

  /** validateIdentity */
  method ValidateIdentity(urls: Urls, k: Contract, r: Run, controlRole: bool, control: Control, rest: seq<Assertion>)
    returns (status: Status, assertions: seq<Assertion>)
    ensures assertions == AllAssertions(urls, k, r, controlRole, control, rest) && status == Verdict(assertions)
  {
    EveryContext();
    var standings, negotiated := NegotiateAll(urls, k, r.actual, CONTEXTS);
    var identities, captured := CaptureAll(urls, k, r.actual, standings, CONTEXTS);
    var crossed := CrossAll(urls, k, r.actual, identities, CONTEXTS);
    var requested := RequestAll(urls, k, r, controlRole, control, standings, identities, CONTEXTS);
    assertions := BindingAssertions(k, r, control) + negotiated + captured + crossed + requested + rest;
    status := Verdict(assertions);
  }

  lemma OverNext(f: Context -> seq<Assertion>, contexts: seq<Context>, n: nat)
    requires n < |contexts|
    ensures Over(f, contexts[..n + 1]) == Over(f, contexts[..n]) + f(contexts[n])
    ensures forall c <- contexts[..n + 1] :: c in contexts[..n] || c == contexts[n]
  {
    assert contexts[..n + 1][..n] == contexts[..n];
  }

  lemma EveryContext()
    ensures forall c: Context :: c in CONTEXTS
  {
    forall c: Context ensures c in CONTEXTS {
      match c
      case Window => assert CONTEXTS[0] == c;
      case Dedicated => assert CONTEXTS[1] == c;
      case Shared => assert CONTEXTS[2] == c;
      case Service => assert CONTEXTS[3] == c;
      case SameOriginFrame => assert CONTEXTS[4] == c;
      case CrossOriginFrame => assert CONTEXTS[5] == c;
    }
  }

  // ---------- what PASS means ----------

  ghost predicate AllSatisfied(assertions: seq<Assertion>) {
    forall a <- assertions :: Satisfied(a)
  }

  lemma {:induction false} SatisfiedOver(f: Context -> seq<Assertion>, contexts: seq<Context>, c: Context)
    requires AllSatisfied(Over(f, contexts)) && c in contexts
    ensures AllSatisfied(f(c))
  {
    var init, last := contexts[..|contexts| - 1], contexts[|contexts| - 1];
    var whole := Over(f, contexts);
    assert whole == Over(f, init) + f(last);
    assert forall a <- Over(f, init) :: a in whole;
    assert forall a <- f(last) :: a in whole;
    if c != last {
      SatisfiedOver(f, init, c);
    }
  }

  lemma SatisfiedParts(urls: Urls, k: Contract, r: Run, controlRole: bool, control: Control, rest: seq<Assertion>, c: Context)
    requires AllSatisfied(AllAssertions(urls, k, r, controlRole, control, rest))
    ensures AllSatisfied(BindingAssertions(k, r, control))
    ensures AllSatisfied(NegotiationPart(urls, k, r.actual)(c)) && AllSatisfied(NavigatorPart(urls, k, r.actual)(c))
    ensures AllSatisfied(CrossSurfacePart(urls, k, r.actual)(c)) && AllSatisfied(RequestPart(urls, k, r, controlRole, control)(c))
  {
    var a := BindingAssertions(k, r, control);
    var n, v := Over(NegotiationPart(urls, k, r.actual), CONTEXTS), Over(NavigatorPart(urls, k, r.actual), CONTEXTS);
    var x, q := Over(CrossSurfacePart(urls, k, r.actual), CONTEXTS), Over(RequestPart(urls, k, r, controlRole, control), CONTEXTS);
    Pieces(a, n, v, x, q, rest);
    EveryContext();
    SatisfiedOver(NegotiationPart(urls, k, r.actual), CONTEXTS, c);
    SatisfiedOver(NavigatorPart(urls, k, r.actual), CONTEXTS, c);
    SatisfiedOver(CrossSurfacePart(urls, k, r.actual), CONTEXTS, c);
    SatisfiedOver(RequestPart(urls, k, r, controlRole, control), CONTEXTS, c);
  }

  lemma Pieces(a: seq<Assertion>, n: seq<Assertion>, v: seq<Assertion>, x: seq<Assertion>, q: seq<Assertion>, rest: seq<Assertion>)
    requires AllSatisfied(a + n + v + x + q + rest)
    ensures AllSatisfied(a) && AllSatisfied(n) && AllSatisfied(v) && AllSatisfied(x) && AllSatisfied(q)
  {
    var all := a + n + v + x + q + rest;
    assert forall y :: y in a || y in n || y in v || y in x || y in q ==> y in all;
  }

  /** The header spells the navigator's value. */
  predicate Says(x: Headers, i: Identity, h: Hint) {
    x.hints(h).TextCell? && FieldOf(i, h).Some? && Decode(h, x.hints(h).text) == FieldOf(i, h)
  }

  lemma NegotiationPassed(urls: Urls, k: Contract, a: Corpus, c: Context)
    requires AllSatisfied(NegotiationAssertions(c, StandingOf(urls, k, a, c)))
    ensures var s := StandingOf(urls, k, a, c); s.negotiated.Some? && s.ready && !s.blocked
  {
    var s := StandingOf(urls, k, a, c);
    var list := NegotiationAssertions(c, s);
    assert list[0] in list;
    if s.negotiated.Some? {
      assert list[1] in list;
    }
  }

  lemma Split(a: seq<Assertion>, b: seq<Assertion>)
    ensures AllSatisfied(a + b) <==> AllSatisfied(a) && AllSatisfied(b)
  {
    assert forall x <- a :: x in a + b;
    assert forall x <- b :: x in a + b;
  }

  lemma One(a: Assertion)
    ensures AllSatisfied([a]) <==> Satisfied(a)
  {
    assert a in [a];
  }

  lemma Three(list: seq<Assertion>)
    requires |list| == 3
    ensures AllSatisfied(list) <==> Satisfied(list[0]) && Satisfied(list[1]) && Satisfied(list[2])
  {
    assert list[0] in list && list[1] in list && list[2] in list;
  }

  /** The details of a navigator are all satisfied exactly if its identity is complete. */
  lemma DetailsExactly(k: Contract, c: Context, n: Navigator)
    requires Shaped(Some(n))
    ensures AllSatisfied(NavigatorDetails(k, c, n))
            <==> Typed(k, IdentityOf(k, n)) && (n.highEntropy.value.formFactors.Some? ==> IdentityOf(k, n).formFactors.Some?)
  {
    var h, i := n.highEntropy.value, IdentityOf(k, n);
    var head := [Check(NavigatorShape(c), true), Check(NavigatorBrands(c), i.brands.Some?), Check(NavigatorFullVersions(c), i.fullVersionList.Some?)];
    var last := if k.wantsFormFactors || h.formFactors.Some? then [Check(NavigatorFormFactors(c), i.formFactors.Some?)] else [];
    Split(head + TypedAssertions(c, h), last);
    Split(head, TypedAssertions(c, h));
    Three(head);
    TypedExactly(c, h);
    One(Check(NavigatorFormFactors(c), i.formFactors.Some?));
  }

  lemma TypedExactly(c: Context, h: HighEntropy)
    ensures AllSatisfied(TypedAssertions(c, h))
            <==> && PresentText(h.architecture) && (h.bitness == Some(Str("32")) || h.bitness == Some(Str("64")))
                 && h.platformVersion.Some? && h.platformVersion.value.Str? && IsTriple(h.platformVersion.value.s)
                 && h.model.Some? && h.model.value.Str? && Flag(h.wow64)
  {
    var t := TypedAssertions(c, h);
    assert t[0] in t && t[1] in t && t[2] in t && t[3] in t && t[4] in t;
  }

  lemma NavigatorExactly(k: Contract, a: Corpus, c: Context)
    ensures AllSatisfied(NavigatorAssertions(k, a, c, false))
            <==> var i := IdentityAt(k, a, c, false); i.Some? && Typed(k, i.value) && FormFactorsRead(a, c, i.value)
  {
    var captured := CaptureAssertion(NavigatorCaptured(c), NavigatorStatus(a, c), false);
    One(captured.0);
    if captured.1 {
      if Shaped(NavigatorOf(a, c)) {
        DetailsExactly(k, c, NavigatorOf(a, c).value);
        Split([captured.0], NavigatorDetails(k, c, NavigatorOf(a, c).value));
      } else {
        One(Check(NavigatorShape(c), false));
        Split([captured.0], [Check(NavigatorShape(c), false)]);
      }
    }
  }

  /** Form factors that are there could be read. */
  predicate FormFactorsRead(a: Corpus, c: Context, i: Identity) {
    var n := NavigatorOf(a, c);
    n.Some? && n.value.highEntropy.Some? && (n.value.highEntropy.value.formFactors.Some? ==> i.formFactors.Some?)
  }

  /** An identity with a value of its kind for every hint, the optional ones where wanted. */
  predicate Typed(k: Contract, i: Identity) {
    && PresentText(i.userAgent) && PresentText(i.platform) && PresentText(i.uaPlatform) && Flag(i.mobile)
    && i.brands.Some? && i.fullVersionList.Some? && PresentText(i.architecture)
    && (i.bitness == Some(Str("32")) || i.bitness == Some(Str("64")))
    && i.platformVersion.Some? && i.platformVersion.value.Str? && IsTriple(i.platformVersion.value.s)
    && i.model.Some? && i.model.value.Str? && Flag(i.wow64) && (k.wantsFormFactors ==> i.formFactors.Some?)
  }

  lemma {:induction false} HintsPassed(k: Contract, c: Context, x: Headers, i: Option<Identity>, hints: seq<Hint>)
    requires AllSatisfied(HintAssertions(k, c, x, i, false, hints))
    ensures forall h <- hints :: Checked(k, x, h) ==> i.Some? && Says(x, i.value, h)
  {
    if hints != [] {
      var h, list := hints[0], HintAssertions(k, c, x, i, false, hints);
      var rest := HintAssertions(k, c, x, i, false, hints[1..]);
      assert forall a <- rest :: a in list;
      HintsPassed(k, c, x, i, hints[1..]);
      if Checked(k, x, h) {
        assert list[0] in list && list[1] in list;
      }
    }
  }

  /** Every hint that is required or there spells the navigator's value. */
  ghost predicate SaysAll(k: Contract, x: Headers, i: Identity) {
    forall h :: Checked(k, x, h) ==> Says(x, i, h)
  }

  lemma EveryHint(h: Hint)
    ensures h in HINTS
  {
    var n := match h
      case UaBrands => 0
      case UaMobile => 1
      case UaPlatform => 2
      case UaArchitecture => 3
      case UaBitness => 4
      case UaPlatformVersion => 5
      case UaFullVersionList => 6
      case UaModel => 7
      case UaWow64 => 8
      case UaFullVersion => 9
      case UaFormFactors => 10;
    assert HINTS[n] == h;
  }

  /** What a passing gate has established for one context. */
  ghost predicate Established(urls: Urls, k: Contract, r: Run, controlRole: bool, control: Control, c: Context) {
    var s := StandingOf(urls, k, r.actual, c);
    var i, e, x := IdentityAt(k, r.actual, c, false), r.actual.requestEvidence(c), r.actual.requestHeaders(c);
    && s.negotiated.Some? && s.ready && i.Some? && i == IdentityAt(k, r.actual, Window, false) && Typed(k, i.value) && FormFactorsRead(r.actual, c, i.value)
    && e.Some? && e.value.status == Captured && Succeeded(e.value) && OriginBound(urls, e.value) && x.Some? && SameUserAgent(i, x.value)
    && (SaysAll(k, x.value, i.value)
        || (IsWorker(c) && k.allowsOmission && AllNull(x.value) && (controlRole || ControlOmits(k, r, control, c, s.negotiated))))
  }

  lemma ResponseExactly(urls: Urls, c: Context, e: Evidence)
    ensures AllSatisfied(ResponseAssertions(urls, c, e)) <==> Succeeded(e) && OriginBound(urls, e)
  {
    var list := ResponseAssertions(urls, c, e);
    assert list[0] in list && list[1] in list && list[2] in list;
  }

  /** What the headers of one context must satisfy. */
  ghost predicate HeadersFine(urls: Urls, k: Contract, r: Run, controlRole: bool, control: Control, c: Context, s: Standing,
                              i: Option<Identity>, e: Evidence, x: Headers) {
    && SameUserAgent(i, x)
    && AllSatisfied(ShapeAssertions(urls, k, r, controlRole, control, c, s, i, e, x))
    && AllSatisfied(HintAssertions(k, c, x, i, OmissionAllowed(urls, k, r, controlRole, control, c, s, i, e, x), HINTS))
  }

  lemma HeadersExactly(urls: Urls, k: Contract, r: Run, controlRole: bool, control: Control, c: Context, s: Standing,
                       i: Option<Identity>, e: Evidence, x: Headers)
    ensures AllSatisfied(HeaderAssertions(urls, k, r, controlRole, control, c, s, i, e, x))
            <==> HeadersFine(urls, k, r, controlRole, control, c, s, i, e, x)
  {
    var head := [Check(RequestHeadersShape(c), true), Check(RequestUserAgent(c), SameUserAgent(i, x))];
    var shape := ShapeAssertions(urls, k, r, controlRole, control, c, s, i, e, x);
    Split(head + shape, HintAssertions(k, c, x, i, OmissionAllowed(urls, k, r, controlRole, control, c, s, i, e, x), HINTS));
    Split(head, shape);
    assert head[0] in head && head[1] in head;
  }

  lemma RequestExactly(urls: Urls, k: Contract, r: Run, controlRole: bool, control: Control, c: Context, s: Standing, i: Option<Identity>)
    requires !s.blocked
    ensures AllSatisfied(RequestAssertions(urls, k, r, controlRole, control, c, s, i))
            <==> var e, x := r.actual.requestEvidence(c), r.actual.requestHeaders(c);
                 && e.Some? && e.value.status == Captured && Succeeded(e.value) && OriginBound(urls, e.value)
                 && x.Some? && HeadersFine(urls, k, r, controlRole, control, c, s, i, e.value, x.value)
  {
    var e, x := r.actual.requestEvidence(c), r.actual.requestHeaders(c);
    var captured := CaptureAssertion(RequestCaptured(c), if e.Some? then Some(e.value.status) else None, s.blocked);
    One(captured.0);
    if captured.1 {
      var start := [captured.0] + ResponseAssertions(urls, c, e.value);
      Split([captured.0], ResponseAssertions(urls, c, e.value));
      ResponseExactly(urls, c, e.value);
      if x.Some? {
        Split(start, HeaderAssertions(urls, k, r, controlRole, control, c, s, i, e.value, x.value));
        HeadersExactly(urls, k, r, controlRole, control, c, s, i, e.value, x.value);
      } else {
        Split(start, [Check(RequestHeadersShape(c), false)]);
        One(Check(RequestHeadersShape(c), false));
      }
    }
  }

  /** Fine headers spell the navigator's values, or are an allowed omission. */
  lemma HeadersSay(urls: Urls, k: Contract, r: Run, controlRole: bool, control: Control, c: Context, s: Standing,
                   i: Option<Identity>, e: Evidence, x: Headers)
    requires HeadersFine(urls, k, r, controlRole, control, c, s, i, e, x)
    ensures SaysAll(k, x, i.value) || OmissionAllowed(urls, k, r, controlRole, control, c, s, i, e, x)
  {
    if !OmissionAllowed(urls, k, r, controlRole, control, c, s, i, e, x) {
      HintsPassed(k, c, x, i, HINTS);
      EveryHint(UaBrands);
      forall h | Checked(k, x, h) ensures Says(x, i.value, h) {
        EveryHint(h);
      }
    }
  }

  /** A PASS means that in each of the six contexts every hint required or sent spells the value
      of that context's navigator, which is the window's; or that the context is a worker whose
      hints are all null, under a policy that allows it, with a passing control of the same run,
      host and program that omitted them too under an equal negotiation. */
  lemma PassMeansEstablished(urls: Urls, k: Contract, r: Run, controlRole: bool, control: Control, rest: seq<Assertion>, c: Context)
    ensures Verdict(AllAssertions(urls, k, r, controlRole, control, rest)) == PASS ==>
              && BindingOk(k, r) && Established(urls, k, r, controlRole, control, c)
              && (control.ControlRun? ==> ControlOk(k, r, control))
  {
    VerdictExactly(AllAssertions(urls, k, r, controlRole, control, rest));
    if Verdict(AllAssertions(urls, k, r, controlRole, control, rest)) == PASS {
      PassedParts(urls, k, r, controlRole, control, rest, c);
    }
  }

  lemma PassedParts(urls: Urls, k: Contract, r: Run, controlRole: bool, control: Control, rest: seq<Assertion>, c: Context)
    requires AllSatisfied(AllAssertions(urls, k, r, controlRole, control, rest))
    ensures BindingOk(k, r) && Established(urls, k, r, controlRole, control, c)
    ensures control.ControlRun? ==> ControlOk(k, r, control)
  {
    SatisfiedParts(urls, k, r, controlRole, control, rest, Window);
    SatisfiedParts(urls, k, r, controlRole, control, rest, c);
    BindingPassed(k, r, control);
    NegotiationPassed(urls, k, r.actual, Window);
    NegotiationPassed(urls, k, r.actual, c);
    NavigatorExactly(k, r.actual, c);
    CrossPassed(urls, k, r.actual, c);
    var s, i := StandingOf(urls, k, r.actual, c), IdentityAt(k, r.actual, c, false);
    RequestExactly(urls, k, r, controlRole, control, c, s, i);
    HeadersSay(urls, k, r, controlRole, control, c, s, i, r.actual.requestEvidence(c).value, r.actual.requestHeaders(c).value);
  }

  lemma BindingPassed(k: Contract, r: Run, control: Control)
    requires AllSatisfied(BindingAssertions(k, r, control))
    ensures BindingOk(k, r) && (control.ControlRun? ==> ControlOk(k, r, control))
  {
    var b := BindingAssertions(k, r, control);
    assert b[0] in b;
    if control.ControlRun? {
      assert b[2] in b;
    }
  }

  lemma CrossPassed(urls: Urls, k: Contract, a: Corpus, c: Context)
    requires AllSatisfied(CrossSurfacePart(urls, k, a)(c)) && !StandingOf(urls, k, a, c).blocked && !StandingOf(urls, k, a, Window).blocked
    requires IdentityAt(k, a, c, false).Some?
    ensures IdentityAt(k, a, c, false) == IdentityAt(k, a, Window, false)
  {
    One(Check(CrossSurface(c), IdentityAt(k, a, c, false) == IdentityAt(k, a, Window, false)));
  }

  // ---------- nothing more is needed ----------

  lemma {:induction false} OverSatisfied(f: Context -> seq<Assertion>, contexts: seq<Context>)
    requires forall c :: AllSatisfied(f(c))
    ensures AllSatisfied(Over(f, contexts))
  {
    if contexts != [] {
      OverSatisfied(f, contexts[..|contexts| - 1]);
      assert AllSatisfied(f(contexts[|contexts| - 1]));
    }
  }

  lemma {:induction false} HintsSuffice(k: Contract, c: Context, x: Headers, i: Option<Identity>, omission: bool, hints: seq<Hint>)
    requires omission || (i.Some? && forall h <- hints :: Checked(k, x, h) ==> Says(x, i.value, h))
    ensures AllSatisfied(HintAssertions(k, c, x, i, omission, hints))
  {
    if hints != [] {
      assert hints[0] in hints;
      assert forall h <- hints[1..] :: h in hints;
      HintsSuffice(k, c, x, i, omission, hints[1..]);
    }
  }

  lemma SaysNotNull(k: Contract, x: Headers, i: Identity)
    requires SaysAll(k, x, i)
    ensures !AllNull(x) && forall h <- HINTS :: Required(k, h) ==> x.hints(h).TextCell?
  {
    forall h <- HINTS | Required(k, h) ensures x.hints(h).TextCell? {
      assert Checked(k, x, h) && Says(x, i, h);
    }
    assert HINTS[0] == UaBrands && UaBrands in HINTS && Required(k, UaBrands);
  }

  lemma HeadersSuffice(urls: Urls, k: Contract, r: Run, controlRole: bool, control: Control, c: Context)
    requires BindingOk(k, r) && (controlRole ==> control.NoControl?) && Established(urls, k, r, controlRole, control, c)
    ensures HeadersFine(urls, k, r, controlRole, control, c, StandingOf(urls, k, r.actual, c), IdentityAt(k, r.actual, c, false),
                        r.actual.requestEvidence(c).value, r.actual.requestHeaders(c).value)
  {
    var s, i := StandingOf(urls, k, r.actual, c), IdentityAt(k, r.actual, c, false);
    var e, x := r.actual.requestEvidence(c).value, r.actual.requestHeaders(c).value;
    if SaysAll(k, x, i.value) {
      SayingSuffices(urls, k, r, controlRole, control, c, s, i, e, x);
    } else {
      OmissionSuffices(urls, k, r, controlRole, control, c, s, i, e, x);
    }
    HintsSuffice(k, c, x, i, OmissionAllowed(urls, k, r, controlRole, control, c, s, i, e, x), HINTS);
  }

  lemma SayingSuffices(urls: Urls, k: Contract, r: Run, controlRole: bool, control: Control, c: Context, s: Standing,
                       i: Option<Identity>, e: Evidence, x: Headers)
    requires i.Some? && SaysAll(k, x, i.value)
    ensures AllSatisfied(ShapeAssertions(urls, k, r, controlRole, control, c, s, i, e, x))
    ensures !OmissionAllowed(urls, k, r, controlRole, control, c, s, i, e, x)
  {
    SaysNotNull(k, x, i.value);
    One(Check(HintShape(c), true));
  }

  lemma OmissionSuffices(urls: Urls, k: Contract, r: Run, controlRole: bool, control: Control, c: Context, s: Standing,
                         i: Option<Identity>, e: Evidence, x: Headers)
    requires OmissionAllowed(urls, k, r, controlRole, control, c, s, i, e, x) && (controlRole ==> control.NoControl?)
    ensures AllSatisfied(ShapeAssertions(urls, k, r, controlRole, control, c, s, i, e, x))
  {
    var last := [Check(OmissionShape(c), OmissionAllowed(urls, k, r, controlRole, control, c, s, i, e, x))];
    One(last[0]);
    if ControlOk(k, r, control) && NativeNegotiation(control, c).Some? {
      var n := NativeNegotiation(control, c).value;
      var first := Check(Id.NativeNegotiation(c), HintNamesOf(n.acceptCH).Some? && HintNamesOf(n.delegatedHints).Some?);
      One(first);
      Split([first], last);
    }
  }

  /** The gate passes exactly if the bindings agree, the control, if there is one, passed and is
      bound to the run, every context is established and nothing else failed. */
  lemma PassExactly(urls: Urls, k: Contract, r: Run, controlRole: bool, control: Control, rest: seq<Assertion>)
    requires controlRole ==> control.NoControl?
    ensures Verdict(AllAssertions(urls, k, r, controlRole, control, rest)) == PASS
            <==> && BindingOk(k, r) && (control.ControlRun? ==> ControlOk(k, r, control))
                 && (forall c :: Established(urls, k, r, controlRole, control, c)) && AllSatisfied(rest)
  {
    var all := AllAssertions(urls, k, r, controlRole, control, rest);
    VerdictExactly(all);
    if Verdict(all) == PASS {
      forall c ensures Established(urls, k, r, controlRole, control, c) {
        PassMeansEstablished(urls, k, r, controlRole, control, rest, c);
      }
      PassMeansEstablished(urls, k, r, controlRole, control, rest, Window);
      assert forall a <- rest :: a in all;
    }
    if BindingOk(k, r) && (control.ControlRun? ==> ControlOk(k, r, control)) && (forall c :: Established(urls, k, r, controlRole, control, c)) && AllSatisfied(rest) {
      EstablishedSuffices(urls, k, r, controlRole, control, rest);
    }
  }

  lemma CapturesSuffice(urls: Urls, k: Contract, r: Run, controlRole: bool, control: Control, c: Context)
    requires Established(urls, k, r, controlRole, control, c) && Established(urls, k, r, controlRole, control, Window)
    ensures AllSatisfied(NegotiationAssertions(c, StandingOf(urls, k, r.actual, c)))
    ensures AllSatisfied(CrossSurfaceAssertions(k, r.actual, Blocking(urls, k, r.actual), c))
    ensures AllSatisfied(NavigatorAssertions(k, r.actual, c, false))
  {
    NavigatorExactly(k, r.actual, c);
    One(Check(CrossSurface(c), true));
    NegotiationSuffices(c, StandingOf(urls, k, r.actual, c));
  }

  lemma NegotiationSuffices(c: Context, s: Standing)
    requires s.negotiated.Some? && s.ready && !s.blocked
    ensures AllSatisfied(NegotiationAssertions(c, s))
  {
  }

  lemma RequestSuffices(urls: Urls, k: Contract, r: Run, controlRole: bool, control: Control, c: Context)
    requires BindingOk(k, r) && (controlRole ==> control.NoControl?) && Established(urls, k, r, controlRole, control, c)
    ensures var s := StandingOf(urls, k, r.actual, c);
            AllSatisfied(RequestAssertions(urls, k, r, controlRole, control, c, s, IdentityAt(k, r.actual, c, false)))
  {
    HeadersSuffice(urls, k, r, controlRole, control, c);
    RequestExactly(urls, k, r, controlRole, control, c, StandingOf(urls, k, r.actual, c), IdentityAt(k, r.actual, c, false));
  }

  lemma ContextSuffices(urls: Urls, k: Contract, r: Run, controlRole: bool, control: Control, c: Context)
    requires BindingOk(k, r) && (controlRole ==> control.NoControl?) && forall d :: Established(urls, k, r, controlRole, control, d)
    ensures AllSatisfied(NegotiationPart(urls, k, r.actual)(c)) && AllSatisfied(NavigatorPart(urls, k, r.actual)(c))
    ensures AllSatisfied(CrossSurfacePart(urls, k, r.actual)(c)) && AllSatisfied(RequestPart(urls, k, r, controlRole, control)(c))
  {
    assert Established(urls, k, r, controlRole, control, c);
    assert Established(urls, k, r, controlRole, control, Window);
    CapturesSuffice(urls, k, r, controlRole, control, c);
    RequestSuffices(urls, k, r, controlRole, control, c);
  }

  lemma EstablishedSuffices(urls: Urls, k: Contract, r: Run, controlRole: bool, control: Control, rest: seq<Assertion>)
    requires (controlRole ==> control.NoControl?) && BindingOk(k, r) && (control.ControlRun? ==> ControlOk(k, r, control))
    requires (forall c :: Established(urls, k, r, controlRole, control, c)) && AllSatisfied(rest)
    ensures AllSatisfied(AllAssertions(urls, k, r, controlRole, control, rest))
  {
    var n, v := NegotiationPart(urls, k, r.actual), NavigatorPart(urls, k, r.actual);
    var x, q := CrossSurfacePart(urls, k, r.actual), RequestPart(urls, k, r, controlRole, control);
    forall c ensures AllSatisfied(n(c)) && AllSatisfied(v(c)) && AllSatisfied(x(c)) && AllSatisfied(q(c)) {
      ContextSuffices(urls, k, r, controlRole, control, c);
    }
    OverSatisfied(n, CONTEXTS);
    OverSatisfied(v, CONTEXTS);
    OverSatisfied(x, CONTEXTS);
    OverSatisfied(q, CONTEXTS);
    var b := BindingAssertions(k, r, control);
    Split(b, Over(n, CONTEXTS));
    Split(b + Over(n, CONTEXTS), Over(v, CONTEXTS));
    Split(b + Over(n, CONTEXTS) + Over(v, CONTEXTS), Over(x, CONTEXTS));
    Split(b + Over(n, CONTEXTS) + Over(v, CONTEXTS) + Over(x, CONTEXTS), Over(q, CONTEXTS));
    Split(b + Over(n, CONTEXTS) + Over(v, CONTEXTS) + Over(x, CONTEXTS) + Over(q, CONTEXTS), rest);
  }

  /** validateFullHostIdentity: the control is validated first, on its own, in off mode. */
  function Gate(urls: Urls, k: Contract, r: Run, native: Option<Run>, rest: seq<Assertion>, controlRest: seq<Assertion>): Status {
    var control := match native
      case None => NoControl
      case Some(n) => ControlRun(n, Verdict(AllAssertions(urls, k.(mode := Off), n, true, NoControl, controlRest)));
    Verdict(AllAssertions(urls, k, r, false, control, rest))
  }

  /** Through the whole gate: no window and no frame ever passes by omission, and where a worker
      does, the control of the same run, host and program negotiated the same there, left out
      the hints too and has itself been established in every context. */
  lemma GateSound(urls: Urls, k: Contract, r: Run, native: Option<Run>, rest: seq<Assertion>, controlRest: seq<Assertion>, c: Context)
    ensures Gate(urls, k, r, native, rest, controlRest) == PASS ==> GateEstablished(urls, k, r, native, c)
  {
    var control := match native
      case None => NoControl
      case Some(n) => ControlRun(n, Verdict(AllAssertions(urls, k.(mode := Off), n, true, NoControl, controlRest)));
    PassMeansEstablished(urls, k, r, false, control, rest, c);
    if Gate(urls, k, r, native, rest, controlRest) == PASS && native.Some? {
      forall d ensures Established(urls, k.(mode := Off), native.value, true, NoControl, d) {
        PassMeansEstablished(urls, k.(mode := Off), native.value, true, NoControl, controlRest, d);
      }
    }
  }

  /** One context of a gate that passed: the window's identity, spelled by the headers or, for a
      worker alone, left out as the established control of the same run leaves it out. */
  ghost predicate GateEstablished(urls: Urls, k: Contract, r: Run, native: Option<Run>, c: Context) {
    var i, w, x := IdentityAt(k, r.actual, c, false), IdentityAt(k, r.actual, Window, false), r.actual.requestHeaders(c);
    && BindingOk(k, r) && i.Some? && i == w && Typed(k, i.value) && x.Some? && SameUserAgent(i, x.value)
    && (!IsWorker(c) ==> SaysAll(k, x.value, i.value))
    && (SaysAll(k, x.value, i.value)
        || (native.Some? && AllNull(x.value) && k.allowsOmission
            && native.value.runtime.binding.Some? && ShareRun(r.runtime.binding.value, native.value.runtime.binding.value)
            && native.value.runtime.executableFullVersion == r.runtime.executableFullVersion
            && OmitsAlike(StandingOf(urls, k, r.actual, c).negotiated, native.value, c)
            && forall d :: Established(urls, k.(mode := Off), native.value, true, NoControl, d)))
  }

  /** In this context the control negotiated the same and left out every hint. */
  ghost predicate OmitsAlike(n: Option<Negotiated>, native: Run, c: Context) {
    && native.actual.requestEvidence(c).Some? && native.actual.requestEvidence(c).value.negotiation.Some?
    && Equivalent(n, native.actual.requestEvidence(c).value.negotiation.value)
    && native.actual.requestHeaders(c).Some? && AllNull(native.actual.requestHeaders(c).value)
  }
}
