/** The version group of the identity gate: the executable's version as the runtime's receipts, the
    user agents and the brands must name it, and so every header that a passing run has sent. */
module RuntimeVersions {
  import opened Contexts
  import opened Results
  import opened JsonText
  import opened IdentityGate
  import Decimals
  import S = StructuredFields
  import V = ChromiumVersions

  datatype Product = Product(headless: bool, version: Text)

  function Versioned(headless: bool, version: Text): Option<Product> {
    if V.ParseFullVersion(version).Some? then Some(Product(headless, version)) else None
  }

  /** parseChromiumProductVersion */
  function ParseProduct(t: Text): (p: Option<Product>)
    ensures p.Some? ==> V.ParseFullVersion(p.value.version).Some?
  {
    var headless := "Headless" <= t;
    var rest := if headless then t[8..] else t;
    if "Chrome/" <= rest then Versioned(headless, rest[7..])
    else if "Chromium/" <= rest then Versioned(headless, rest[9..])
    else None
  }

  /** How user agents are read: the one product token in them, and whether they name the host. */
  datatype Agents = Agents(product: Text -> Option<Product>, ofHost: Text -> bool)

  /** What the runtime says of itself besides the executable's version. */
  datatype Receipt = Receipt(product: Text, element: Text, elementSource: Text, userAgent: Option<Json>)

  const ELEMENT_SOURCE: Text := "chrome://version#version"

  predicate HeadlessRun(r: Run) {
    r.runtime.binding.Some? && r.runtime.binding.value.headless
  }

  function Agent(agents: Agents, ua: Option<Json>): Option<Product> {
    if ua.Some? && ua.value.Str? then agents.product(ua.value.s) else None
  }

  /** The reduced version a native user agent may carry. */
  function Reduced(v: V.Version): Text {
    Decimals.Numeral(v.major) + ".0.0.0"
  }

  /** The user agent names the host and the executable's version or, unmanaged, its reduction. */
  predicate AgentFine(agents: Agents, k: Contract, r: Run, ua: Option<Json>) {
    var p, v := Agent(agents, ua), V.ParseFullVersion(r.runtime.executableFullVersion);
    && p.Some? && v.Some?
    && (p.value.version == r.runtime.executableFullVersion || (k.mode == Off && p.value.version == Reduced(v.value)))
    && agents.ofHost(ua.value.s) && (p.value.headless ==> HeadlessRun(r))
  }

  function AgentAssertions(agents: Agents, k: Contract, r: Run, place: Place, ua: Option<Json>): seq<Assertion> {
    [Check(AgentFormat(place), Agent(agents, ua).Some?), Check(AgentVersion(place), AgentFine(agents, k, r, ua))]
  }

  function Names(s: seq<S.Brand>): seq<Text> {
    if s == [] then [] else [s[0].brand] + Names(s[1..])
  }

  predicate AllVersions(s: seq<S.Brand>, version: Text) {
    forall b <- s :: b.version == version
  }

  /** The brands carry the executable's major version, the full ones its whole version. */
  predicate BrandsFine(r: Run, i: Identity) {
    var v := V.ParseFullVersion(r.runtime.executableFullVersion);
    && v.Some? && i.brands.Some? && i.fullVersionList.Some?
    && AllVersions(i.brands.value, Decimals.Numeral(v.value.major))
    && AllVersions(i.fullVersionList.value, r.runtime.executableFullVersion)
    && Names(i.brands.value) == Names(i.fullVersionList.value)
  }

  // ---------- the assertions ----------

  /** On a product already parsed. */
  function ReceiptAssertions(p: Option<Product>, o: Receipt, r: Run): seq<Assertion> {
    var e, x := V.ParseFullVersion(o.element), V.ParseFullVersion(r.runtime.executableFullVersion);
    [Check(RuntimeProduct, p.Some?), Check(RuntimeElement, e.Some?), Check(RuntimeExecutable, x.Some?),
     Check(VersionSource, o.elementSource == ELEMENT_SOURCE),
     Check(VersionTuple, p.Some? && e.Some? && x.Some? && p.value.version == o.element && o.element == r.runtime.executableFullVersion),
     Check(ProductMode, p.Some? && (p.value.headless ==> HeadlessRun(r)))]
  }

  function NavigatorVersions(agents: Agents, k: Contract, r: Run, c: Context, blocked: bool): seq<Assertion> {
    match IdentityAt(k, r.actual, c, blocked)
    case None => []
    case Some(i) => AgentAssertions(agents, k, r, InNavigator(c), i.userAgent) + [Check(BrandVersions(c), BrandsFine(r, i))]
  }

  function RequestVersions(agents: Agents, k: Contract, r: Run, c: Context, blocked: bool): seq<Assertion> {
    var e, x := r.actual.requestEvidence(c), r.actual.requestHeaders(c);
    if CaptureAssertion(RequestCaptured(c), if e.Some? then Some(e.value.status) else None, blocked).1 && x.Some?
    then AgentAssertions(agents, k, r, InRequest(c), x.value.userAgent) else []
  }

  function VersionPart(urls: Urls, agents: Agents, k: Contract, r: Run): Context -> seq<Assertion> {
    (c: Context) =>
      var blocked := StandingOf(urls, k, r.actual, c).blocked;
      NavigatorVersions(agents, k, r, c, blocked) + RequestVersions(agents, k, r, c, blocked)
  }

  function WindowAssertion(urls: Urls, o: Receipt, k: Contract, r: Run): Assertion {
    var w := IdentityAt(k, r.actual, Window, StandingOf(urls, k, r.actual, Window).blocked);
    Check(WindowAgent, w.Some? && o.userAgent == w.value.userAgent)
  }

  /** Every assertion on versions and user agents. Their order among the others does not matter
      to the verdict. */
  function VersionAssertions(urls: Urls, agents: Agents, o: Receipt, k: Contract, r: Run): seq<Assertion> {
    ReceiptAssertions(ParseProduct(o.product), o, r) + AgentAssertions(agents, k, r, OverCdp, o.userAgent) + [WindowAssertion(urls, o, k, r)]
    + Over(VersionPart(urls, agents, k, r), CONTEXTS)
  }

  // ---------- what they come to ----------

  /** The receipts name the executable's version. */
  predicate ReceiptFine(p: Option<Product>, o: Receipt, r: Run) {
    && V.ParseFullVersion(r.runtime.executableFullVersion).Some?
    && o.element == r.runtime.executableFullVersion && o.elementSource == ELEMENT_SOURCE
    && p.Some? && p.value.version == o.element && (p.value.headless ==> HeadlessRun(r))
  }

  /** One version: that of the receipts, of the window's user agent, which is the runtime's, and
      of the window's brands. */
  predicate OneVersion(agents: Agents, o: Receipt, k: Contract, r: Run) {
    var w := IdentityAt(k, r.actual, Window, false);
    && ReceiptFine(ParseProduct(o.product), o, r)
    && w.Some? && w.value.userAgent == o.userAgent && AgentFine(agents, k, r, o.userAgent) && BrandsFine(r, w.value)
  }

  lemma ReceiptExactly(p: Option<Product>, o: Receipt, r: Run)
    requires p.Some? ==> V.ParseFullVersion(p.value.version).Some?
    ensures AllSatisfied(ReceiptAssertions(p, o, r)) <==> ReceiptFine(p, o, r)
  {
    Six(ReceiptAssertions(p, o, r));
  }

  lemma Six(list: seq<Assertion>)
    requires |list| == 6
    ensures AllSatisfied(list)
            <==> && Satisfied(list[0]) && Satisfied(list[1]) && Satisfied(list[2])
                 && Satisfied(list[3]) && Satisfied(list[4]) && Satisfied(list[5])
  {
    assert list[0] in list && list[1] in list && list[2] in list && list[3] in list && list[4] in list && list[5] in list;
  }

  lemma AgentExactly(agents: Agents, k: Contract, r: Run, place: Place, ua: Option<Json>)
    ensures AllSatisfied(AgentAssertions(agents, k, r, place, ua)) <==> AgentFine(agents, k, r, ua)
  {
    var list := AgentAssertions(agents, k, r, place, ua);
    assert list[0] in list && list[1] in list;
  }

  /** In a context that is established the group asks of the navigator and of the request only
      what it asks of the window. */
  lemma VersionPartExactly(urls: Urls, agents: Agents, k: Contract, r: Run, controlRole: bool, control: Control, c: Context)
    requires Established(urls, k, r, controlRole, control, c)
    ensures AllSatisfied(VersionPart(urls, agents, k, r)(c))
            <==> var w := IdentityAt(k, r.actual, Window, false); w.Some? && AgentFine(agents, k, r, w.value.userAgent) && BrandsFine(r, w.value)
  {
    var i, x := IdentityAt(k, r.actual, c, false).value, r.actual.requestHeaders(c).value;
    var n, q := AgentAssertions(agents, k, r, InNavigator(c), i.userAgent), AgentAssertions(agents, k, r, InRequest(c), x.userAgent);
    var b := [Check(BrandVersions(c), BrandsFine(r, i))];
    assert !StandingOf(urls, k, r.actual, c).blocked;
    assert NavigatorVersions(agents, k, r, c, false) == n + b && RequestVersions(agents, k, r, c, false) == q;
    AgentExactly(agents, k, r, InNavigator(c), i.userAgent);
    AgentExactly(agents, k, r, InRequest(c), x.userAgent);
    One(b[0]);
    Split(n, b);
    Split(n + b, q);
  }

  /** With every context established, the whole group passes exactly if there is one version. */
  lemma VersionsExactly(urls: Urls, agents: Agents, o: Receipt, k: Contract, r: Run, controlRole: bool, control: Control)
    requires forall c :: Established(urls, k, r, controlRole, control, c)
    ensures AllSatisfied(VersionAssertions(urls, agents, o, k, r)) <==> OneVersion(agents, o, k, r)
  {
    var f := VersionPart(urls, agents, k, r);
    var p := ParseProduct(o.product);
    var first, cdp, window := ReceiptAssertions(p, o, r), AgentAssertions(agents, k, r, OverCdp, o.userAgent), [WindowAssertion(urls, o, k, r)];
    Split(first + cdp + window, Over(f, CONTEXTS));
    Split(first + cdp, window);
    Split(first, cdp);
    ReceiptExactly(p, o, r);
    AgentExactly(agents, k, r, OverCdp, o.userAgent);
    One(window[0]);
    assert Established(urls, k, r, controlRole, control, Window);
    VersionPartExactly(urls, agents, k, r, controlRole, control, Window);
    if AllSatisfied(Over(f, CONTEXTS)) {
      EveryContext();
      SatisfiedOver(f, CONTEXTS, Window);
    }
    if AllSatisfied(f(Window)) {
      forall c ensures AllSatisfied(f(c)) {
        assert Established(urls, k, r, controlRole, control, c);
        VersionPartExactly(urls, agents, k, r, controlRole, control, c);
      }
      OverSatisfied(f, CONTEXTS);
    }
  }

  /** The gate with its version group passes exactly if the bindings agree, the control if any
      passed, every context is established, there is one version and nothing else failed. */
  lemma PassWithVersions(urls: Urls, agents: Agents, o: Receipt, k: Contract, r: Run, controlRole: bool, control: Control, other: seq<Assertion>)
    requires controlRole ==> control.NoControl?
    ensures Verdict(AllAssertions(urls, k, r, controlRole, control, VersionAssertions(urls, agents, o, k, r) + other)) == PASS
            <==> && BindingOk(k, r) && (control.ControlRun? ==> ControlOk(k, r, control))
                 && (forall c :: Established(urls, k, r, controlRole, control, c))
                 && OneVersion(agents, o, k, r) && AllSatisfied(other)
  {
    PassExactly(urls, k, r, controlRole, control, VersionAssertions(urls, agents, o, k, r) + other);
    Split(VersionAssertions(urls, agents, o, k, r), other);
    if forall c :: Established(urls, k, r, controlRole, control, c) {
      VersionsExactly(urls, agents, o, k, r, controlRole, control);
    }
  }

  // ---------- on the wire ----------

  /** The header lists brands, all of this version. */
  predicate Lists(x: Headers, h: Hint, version: Text) {
    x.hints(h).TextCell?
    && var d := Decode(h, x.hints(h).text);
    d.Some? && d.value.BrandValue? && AllVersions(d.value.brands, version)
  }

  /** In a run that passes, every request sent the executable's version and no other: its user
      agent is the runtime's, its brand list carries the executable's major version and its full
      list, required in every contract, the executable's whole version, brand by brand; or it is
      a worker that left out every hint. */
  lemma OneVersionOnTheWire(urls: Urls, agents: Agents, o: Receipt, k: Contract, r: Run, controlRole: bool, control: Control,
                            other: seq<Assertion>, c: Context)
    requires controlRole ==> control.NoControl?
    requires Verdict(AllAssertions(urls, k, r, controlRole, control, VersionAssertions(urls, agents, o, k, r) + other)) == PASS
    ensures var v, x := V.ParseFullVersion(r.runtime.executableFullVersion), r.actual.requestHeaders(c);
            && v.Some? && r.runtime.executableFullVersion == V.Print(v.value)
            && x.Some? && x.value.userAgent == o.userAgent && AgentFine(agents, k, r, x.value.userAgent)
            && (|| (Lists(x.value, UaBrands, Decimals.Numeral(v.value.major)) && Lists(x.value, UaFullVersionList, r.runtime.executableFullVersion))
                || (IsWorker(c) && AllNull(x.value)))
  {
    PassWithVersions(urls, agents, o, k, r, controlRole, control, other);
    V.ParsedIsPrinted(r.runtime.executableFullVersion);
    assert Established(urls, k, r, controlRole, control, c);
    var x, i := r.actual.requestHeaders(c).value, IdentityAt(k, r.actual, c, false).value;
    if SaysAll(k, x, i) {
      MajorSpelled(k, r, x, i);
      VersionSpelled(k, r, x, i);
    }
  }

  lemma MajorSpelled(k: Contract, r: Run, x: Headers, i: Identity)
    requires SaysAll(k, x, i) && BrandsFine(r, i)
    ensures Lists(x, UaBrands, Decimals.Numeral(V.ParseFullVersion(r.runtime.executableFullVersion).value.major))
  {
    Spelled(k, x, i, UaBrands, i.brands.value, Decimals.Numeral(V.ParseFullVersion(r.runtime.executableFullVersion).value.major));
  }

  lemma VersionSpelled(k: Contract, r: Run, x: Headers, i: Identity)
    requires SaysAll(k, x, i) && BrandsFine(r, i)
    ensures Lists(x, UaFullVersionList, r.runtime.executableFullVersion)
  {
    Spelled(k, x, i, UaFullVersionList, i.fullVersionList.value, r.runtime.executableFullVersion);
  }

  lemma Spelled(k: Contract, x: Headers, i: Identity, h: Hint, brands: seq<S.Brand>, version: Text)
    requires SaysAll(k, x, i) && Required(k, h) && FieldOf(i, h) == Some(BrandValue(brands)) && AllVersions(brands, version)
    ensures Lists(x, h, version)
  {
    assert Checked(k, x, h) && Says(x, i, h);
  }
}
