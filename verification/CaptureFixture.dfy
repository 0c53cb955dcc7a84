/** The loopback fixture that serves captures and records a wire receipt per context and phase. */
module CaptureFixture {
  import opened Contexts
  import opened Results

  type Text = seq<char>

  // ---------- requests and receipts ----------

  datatype Phase = OptIn | Echo

  /** A request as the HTTP parser hands it over. */
  datatype Request = Request(verb: Text, host: Text, target: Text, headers: map<Text, Text>, rawHeaders: seq<Text>)

  datatype Receipt = Receipt(context: Context, phase: Phase, sequence: nat, request: Request)

  datatype Url = Url(path: Text, search: Text)

  /** What the platform supplies: the hosts of the two servers, the URL parser, the reading of a
      content length and the sizes of serialised values. */
  datatype Platform = Platform(
    hosts: seq<Text>, parse: Text -> Url, isZero: Text -> bool,
    rawBytes: seq<Text> -> nat, receiptBytes: Receipt -> nat, echoBytes: Request -> nat, documentBytes: Text -> nat)

  /** A failure reason: one of the fixture's own messages, or one of two fixed prefixes and what
      the platform said after it. None of them is empty, so a stored one always counts. */
  datatype Reason =
    | UnexpectedTarget | CredentialsOrBody | HeadersTooLong | TooManyRequests | UnexpectedContext | DuplicateReceipt
    | EvidenceTooLong | UnexpectedQuery | ResponseTooLong
    | ParserRejected(said: Text)
    | ServerFailed(said: Text)

  const MAX_BYTES: nat := 262144

  function ContextOf(search: Text): Option<Context> {
    if search == "?context=window" then Some(Window)
    else if search == "?context=dedicated" then Some(Dedicated)
    else if search == "?context=shared" then Some(Shared)
    else if search == "?context=service" then Some(Service)
    else if search == "?context=same-origin-frame" then Some(SameOriginFrame)
    else if search == "?context=cross-origin-frame" then Some(CrossOriginFrame)
    else None
  }

  function PhaseOf(relative: Text): Option<Phase> {
    if relative == "opt-in" then Some(OptIn) else if relative == "echo" then Some(Echo) else None
  }

  predicate Served(server: nat, relative: Text) {
    if server == 0 then relative in ["page", "same-frame", "opt-in", "echo", "dedicated.js", "shared.js", "service.js"]
    else relative in ["cross-frame", "opt-in", "echo"]
  }

  predicate Recorded(receipts: seq<Receipt>, context: Context, phase: Phase) {
    exists r <- receipts :: r.context == context && r.phase == phase
  }

  predicate Malformed(c: Platform, server: nat, q: Request) {
    q.verb != "GET" || server >= |c.hosts| || q.host != c.hosts[server] || !("/" <= q.target) || "//" <= q.target
  }

  predicate Forbidden(c: Platform, q: Request) {
    (exists k <- ["cookie", "authorization", "proxy-authorization", "transfer-encoding"] :: k in q.headers)
    || ("content-length" in q.headers && q.headers["content-length"] != "" && !c.isZero(q.headers["content-length"]))
  }

  // ---------- states ----------

  datatype RunState = RunState(prefix: Text, count: nat, bytes: nat, receipts: seq<Receipt>, failure: Option<Reason>)

  /** Every run ever begun, in order; active is the index of the current one. */
  datatype State = State(active: Option<nat>, runs: seq<RunState>, fatal: Option<Reason>, captures: nat, closing: bool)

  datatype Event =
    | Begin(prefix: Text)
    | Arrives(server: nat, request: Request)
    | Release(run: nat)
    | ClientError(said: Text)
    | ServerError(said: Text)
    | Close

  const INITIAL := State(None, [], None, 0, false)

  function OrElse(o: Option<Reason>, reason: Reason): Option<Reason> {
    if o.Some? then o else Some(reason)
  }

  function Shortened(text: Text, length: nat): Text {
    if |text| > length then text[..length] else text
  }

  /** Reasons are kept to 512 characters, of which the prefixes take 32 and 22. */
  function Cut(reason: Reason): Reason {
    match reason
    case ParserRejected(said) => ParserRejected(Shortened(said, 480))
    case ServerFailed(said) => ServerFailed(Shortened(said, 490))
    case _ => reason
  }

  /** fail: the first reason is kept, on the active run or, without one, for good. */
  function Fail(s: State, reason: Reason): State {
    if s.active.Some? && s.active.value < |s.runs| then
      var i := s.active.value;
      s.(runs := s.runs[i := s.runs[i].(failure := OrElse(s.runs[i].failure, Cut(reason)))])
    else s.(fatal := OrElse(s.fatal, Cut(reason)))
  }

  /** The outcome of a request inside a run: the run afterwards, the status and, for a rejection, its reason. */
  datatype Outcome = Outcome(run: RunState, status: nat, reason: Option<Reason>)

  function Rejected(run: RunState, status: nat, reason: Reason): Outcome {
    Outcome(run, status, Some(reason))
  }

  function Serve(c: Platform, run: RunState, server: nat, q: Request): Outcome {
    var counted := run.(count := run.count + 1);
    if counted.count > 64 then Rejected(counted, 429, TooManyRequests)
    else
      var url := c.parse(q.target);
      if !(run.prefix <= url.path) || !Served(server, url.path[|run.prefix|..]) then Outcome(counted, 404, None)
      else
        var relative := url.path[|run.prefix|..];
        if PhaseOf(relative).Some? then ServeReceipt(c, counted, server, q, PhaseOf(relative).value, ContextOf(url.search))
        else if url.search != "" then Rejected(counted, 400, UnexpectedQuery)
        else Finish(counted, c.documentBytes(relative))
  }

  function ServeReceipt(c: Platform, run: RunState, server: nat, q: Request, phase: Phase, context: Option<Context>): Outcome {
    if context.None? || (server == 1) != (context.value == CrossOriginFrame) then Rejected(run, 400, UnexpectedContext)
    else if Recorded(run.receipts, context.value, phase) then Rejected(run, 409, DuplicateReceipt)
    else
      var receipt := Receipt(context.value, phase, |run.receipts|, q);
      var size := c.receiptBytes(receipt);
      if run.bytes + size > MAX_BYTES then Rejected(run, 413, EvidenceTooLong)
      else
        Finish(run.(bytes := run.bytes + size, receipts := run.receipts + [receipt]), if phase == Echo then c.echoBytes(q) else 25)
  }

  function Finish(run: RunState, bodyBytes: nat): Outcome {
    if bodyBytes > 65536 then Rejected(run, 413, ResponseTooLong) else Outcome(run, 200, None)
  }

  /** Where a request is refused before any run sees it. */
  function Refusal(c: Platform, server: nat, q: Request): Option<(nat, Reason)> {
    if Malformed(c, server, q) then Some((400, UnexpectedTarget))
    else if Forbidden(c, q) then Some((400, CredentialsOrBody))
    else if |q.rawHeaders| > 128 || c.rawBytes(q.rawHeaders) > 32768 then Some((431, HeadersTooLong))
    else None
  }

  /** The state after serving a request in the active run. */
  function Settled(s: State, o: Outcome): State
    requires s.active.Some? && s.active.value < |s.runs|
  {
    var next := s.(runs := s.runs[s.active.value := o.run]);
    if o.reason.Some? then Fail(next, o.reason.value) else next
  }

  /** The request handler: the next state, the status and the reason recorded, if any. */
  function Handle(c: Platform, s: State, server: nat, q: Request): (State, nat, Option<Reason>) {
    var refusal := Refusal(c, server, q);
    if refusal.Some? then (Fail(s, refusal.value.1), refusal.value.0, Some(refusal.value.1))
    else if !(s.active.Some? && s.active.value < |s.runs| && s.runs[s.active.value].prefix <= q.target) then (s, 404, None)
    else
      var o := Serve(c, s.runs[s.active.value], server, q);
      (Settled(s, o), o.status, o.reason)
  }

  /** beginCapture */
  function Begun(s: State, prefix: Text): State {
    if s.closing || s.active.Some? || s.fatal.Some? then s
    else if s.captures >= 32 then s.(captures := s.captures + 1)
    else s.(captures := s.captures + 1, active := Some(|s.runs|), runs := s.runs + [RunState(prefix, 0, 0, [], None)])
  }

  function Released(s: State, i: nat): State {
    if i < |s.runs| then
      s.(active := if s.active == Some(i) then None else s.active, runs := s.runs[i := s.runs[i].(receipts := [])])
    else s
  }

  function Step(c: Platform, s: State, e: Event): State {
    match e
    case Begin(prefix) => Begun(s, prefix)
    case Arrives(server, q) => Handle(c, s, server, q).0
    case Release(i) => Released(s, i)
    case ClientError(said) => Fail(s, ParserRejected(said))
    case ServerError(said) => Fail(s, ServerFailed(said))
    case Close => s.(closing := true)
  }

  function After(c: Platform, s: State, es: seq<Event>): State
    decreases |es|
  {
    if es == [] then s else After(c, Step(c, s, es[0]), es[1..])
  }

  /** assertHealthy throws. */
  predicate Unhealthy(s: State, i: nat) {
    s.fatal.Some? || (i < |s.runs| && s.runs[i].failure.Some?)
  }

  // ---------- what every run keeps ----------

  function TotalBytes(c: Platform, receipts: seq<Receipt>): nat {
    if receipts == [] then 0 else TotalBytes(c, receipts[..|receipts| - 1]) + c.receiptBytes(receipts[|receipts| - 1])
  }

  predicate Numbered(receipts: seq<Receipt>) {
    forall k :: 0 <= k < |receipts| ==> receipts[k].sequence == k
  }

  predicate Unique(receipts: seq<Receipt>) {
    forall j, k :: 0 <= j < k < |receipts| ==> (receipts[j].context, receipts[j].phase) != (receipts[k].context, receipts[k].phase)
  }

  /** A receipt for a request the run's own server was entitled to. */
  predicate Entitled(c: Platform, prefix: Text, r: Receipt) {
    && prefix <= r.request.target && prefix <= c.parse(r.request.target).path
    && PhaseOf(c.parse(r.request.target).path[|prefix|..]) == Some(r.phase)
    && ContextOf(c.parse(r.request.target).search) == Some(r.context)
    && !Malformed(c, if r.context == CrossOriginFrame then 1 else 0, r.request) && !Forbidden(c, r.request)
    && |r.request.rawHeaders| <= 128 && c.rawBytes(r.request.rawHeaders) <= 32768
  }

  predicate RunOk(c: Platform, r: RunState) {
    && Numbered(r.receipts) && Unique(r.receipts)
    && TotalBytes(c, r.receipts) <= r.bytes <= MAX_BYTES
    && |r.receipts| <= r.count
    && (forall x <- r.receipts :: Entitled(c, r.prefix, x))
  }

  predicate Inv(c: Platform, s: State) {
    && |c.hosts| == 2
    && (s.active.Some? ==> s.active.value == |s.runs| - 1)
    && |s.runs| <= s.captures && |s.runs| <= 32
    && (forall r <- s.runs :: RunOk(c, r))
    && (forall i :: 0 <= i < |s.runs| && s.active != Some(i) ==> s.runs[i].receipts == [])
    && (forall r <- s.runs :: r.count > 64 ==> r.failure.Some?)
    && (s.active.Some? ==> s.runs[s.active.value].bytes == TotalBytes(c, s.runs[s.active.value].receipts))
  }

  lemma FailKeepsInv(c: Platform, s: State, reason: Reason)
    requires Inv(c, s)
    ensures Inv(c, Fail(s, reason))
  {
    if s.active.Some? {
      assert RunOk(c, s.runs[s.active.value]);
    }
  }

  /** Whether a request is one that could be recorded in the run. */
  predicate Presentable(c: Platform, run: RunState, server: nat, q: Request) {
    Refusal(c, server, q).None? && run.prefix <= q.target
  }

  /** The run afterwards differs by the count and, at most, by one receipt for this request. */
  predicate Grew(c: Platform, run: RunState, next: RunState, q: Request) {
    && next.bytes - run.bytes == TotalBytes(c, next.receipts) - TotalBytes(c, run.receipts)
    && next.prefix == run.prefix && next.failure == run.failure && next.count == run.count + 1
    && (next.receipts == run.receipts || (next.count <= 64 && Extends(run.receipts, next.receipts, q)))
  }

  predicate Extends(receipts: seq<Receipt>, more: seq<Receipt>, q: Request) {
    |more| == |receipts| + 1 && receipts == more[..|receipts|] && more[|receipts|].request == q
  }

  lemma NewReceipt(c: Platform, run: RunState, receipt: Receipt)
    requires RunOk(c, run) && !Recorded(run.receipts, receipt.context, receipt.phase) && receipt.sequence == |run.receipts|
    requires Entitled(c, run.prefix, receipt) && run.bytes + c.receiptBytes(receipt) <= MAX_BYTES && run.count < 64
    ensures var next := run.(count := run.count + 1, bytes := run.bytes + c.receiptBytes(receipt), receipts := run.receipts + [receipt]);
            RunOk(c, next) && Grew(c, run, next, receipt.request)
  {
    var receipts := run.receipts + [receipt];
    assert receipts[..|receipts| - 1] == run.receipts;
    forall j, k | 0 <= j < k < |receipts| ensures (receipts[j].context, receipts[j].phase) != (receipts[k].context, receipts[k].phase) {
      assert receipts[j] in run.receipts;
    }
  }

  /** Exactly the answers other than 200 and 404 carry a reason. */
  predicate Explained(status: nat, reason: Option<Reason>) {
    reason.Some? <==> status !in {200, 404}
  }

  lemma FinishExplained(run: RunState, bodyBytes: nat)
    ensures var o := Finish(run, bodyBytes); o.run == run && Explained(o.status, o.reason)
  {
  }

  lemma EntitledReceipt(c: Platform, run: RunState, server: nat, q: Request, context: Context, phase: Phase, sequence: nat)
    requires |c.hosts| == 2 && Presentable(c, run, server, q)
    requires var url := c.parse(q.target);
             run.prefix <= url.path && PhaseOf(url.path[|run.prefix|..]) == Some(phase) && ContextOf(url.search) == Some(context)
    requires (server == 1) == (context == CrossOriginFrame)
    ensures Entitled(c, run.prefix, Receipt(context, phase, sequence, q))
  {
    assert server == if context == CrossOriginFrame then 1 else 0;
  }

  lemma ServeReceiptKeepsRun(c: Platform, run: RunState, server: nat, q: Request, phase: Phase, context: Option<Context>)
    requires RunOk(c, run) && run.count < 64
    requires context.Some? && (server == 1) == (context.value == CrossOriginFrame)
             ==> Entitled(c, run.prefix, Receipt(context.value, phase, |run.receipts|, q))
    ensures var o := ServeReceipt(c, run.(count := run.count + 1), server, q, phase, context);
            RunOk(c, o.run) && Grew(c, run, o.run, q) && Explained(o.status, o.reason)
  {
    var counted := run.(count := run.count + 1);
    assert RunOk(c, counted) && Grew(c, run, counted, q);
    if context.Some? && (server == 1) == (context.value == CrossOriginFrame) && !Recorded(run.receipts, context.value, phase) {
      var receipt := Receipt(context.value, phase, |run.receipts|, q);
      var size := c.receiptBytes(receipt);
      if run.bytes + size <= MAX_BYTES {
        NewReceipt(c, run, receipt);
        FinishExplained(counted.(bytes := run.bytes + size, receipts := run.receipts + [receipt]),
                        if phase == Echo then c.echoBytes(q) else 25);
      }
    }
  }

  lemma ServeKeepsRun(c: Platform, run: RunState, server: nat, q: Request)
    requires |c.hosts| == 2 && RunOk(c, run) && Presentable(c, run, server, q)
    ensures var o := Serve(c, run, server, q);
            && RunOk(c, o.run) && Grew(c, run, o.run, q) && Explained(o.status, o.reason)
            && (o.run.count > 64 ==> o.reason.Some?)
  {
    var url := c.parse(q.target);
    var counted := run.(count := run.count + 1);
    assert RunOk(c, counted) && Grew(c, run, counted, q);
    if counted.count <= 64 && run.prefix <= url.path && Served(server, url.path[|run.prefix|..]) {
      var relative := url.path[|run.prefix|..];
      if PhaseOf(relative).Some? {
        if ContextOf(url.search).Some? && (server == 1) == (ContextOf(url.search).value == CrossOriginFrame) {
          EntitledReceipt(c, run, server, q, ContextOf(url.search).value, PhaseOf(relative).value, |run.receipts|);
        }
        ServeReceiptKeepsRun(c, run, server, q, PhaseOf(relative).value, ContextOf(url.search));
      } else {
        FinishExplained(counted, c.documentBytes(relative));
      }
    }
  }

  lemma StepKeepsInv(c: Platform, s: State, e: Event)
    requires Inv(c, s)
    ensures Inv(c, Step(c, s, e))
  {
    match e
    case Begin(prefix) =>
    case ClientError(said) => FailKeepsInv(c, s, ParserRejected(said));
    case ServerError(said) => FailKeepsInv(c, s, ServerFailed(said));
    case Close =>
    case Release(i) => ReleaseKeepsInv(c, s, i);
    case Arrives(server, q) => HandleKeepsInv(c, s, server, q);
  }

  lemma ReleaseKeepsInv(c: Platform, s: State, i: nat)
    requires Inv(c, s)
    ensures Inv(c, Released(s, i))
  {
    if i < |s.runs| {
      assert RunOk(c, s.runs[i]);
    }
  }

  lemma HandleKeepsInv(c: Platform, s: State, server: nat, q: Request)
    requires Inv(c, s)
    ensures Inv(c, Handle(c, s, server, q).0)
  {
    var refusal := Refusal(c, server, q);
    if refusal.Some? {
      FailKeepsInv(c, s, refusal.value.1);
    } else if s.active.Some? && s.runs[s.active.value].prefix <= q.target {
      ServeKeepsRun(c, s.runs[s.active.value], server, q);
      ServedKeepsInv(c, s, Serve(c, s.runs[s.active.value], server, q));
    }
  }

  lemma ServedKeepsInv(c: Platform, s: State, o: Outcome)
    requires Inv(c, s) && s.active.Some? && RunOk(c, o.run)
    requires (o.run.count > 64 ==> o.reason.Some?) && o.run.bytes == TotalBytes(c, o.run.receipts)
    ensures Inv(c, Settled(s, o))
  {
    var i := s.active.value;
    if o.reason.Some? {
      var run := o.run.(failure := OrElse(o.run.failure, Cut(o.reason.value)));
      assert RunOk(c, run) && Settled(s, o) == s.(runs := s.runs[i := run]);
    }
  }

  lemma {:induction false} RunKeepsInv(c: Platform, s: State, es: seq<Event>)
    requires Inv(c, s)
    ensures Inv(c, After(c, s, es))
    decreases |es|
  {
    if es != [] {
      StepKeepsInv(c, s, es[0]);
      RunKeepsInv(c, Step(c, s, es[0]), es[1..]);
    }
  }

  // ---------- at most one receipt for each context and phase ----------

  const PAIRS: set<(Context, Phase)> :=
    {(Window, OptIn), (Window, Echo), (Dedicated, OptIn), (Dedicated, Echo), (Shared, OptIn), (Shared, Echo),
     (Service, OptIn), (Service, Echo), (SameOriginFrame, OptIn), (SameOriginFrame, Echo),
     (CrossOriginFrame, OptIn), (CrossOriginFrame, Echo)}

  lemma EveryPair(context: Context, phase: Phase)
    ensures (context, phase) in PAIRS && |PAIRS| == 12
  {
  }

  function Covered(receipts: seq<Receipt>): set<(Context, Phase)> {
    if receipts == [] then {}
    else
      var last := receipts[|receipts| - 1];
      Covered(receipts[..|receipts| - 1]) + {(last.context, last.phase)}
  }

  lemma LastIsNew(receipts: seq<Receipt>)
    requires Unique(receipts) && receipts != []
    ensures var last := receipts[|receipts| - 1]; !Recorded(receipts[..|receipts| - 1], last.context, last.phase)
  {
    var init := receipts[..|receipts| - 1];
    assert forall k :: 0 <= k < |init| ==> init[k] == receipts[k];
  }

  lemma {:induction false} CoveredCount(receipts: seq<Receipt>)
    requires Unique(receipts)
    ensures |Covered(receipts)| == |receipts| && Covered(receipts) <= PAIRS
    ensures forall x :: x in Covered(receipts) ==> Recorded(receipts, x.0, x.1)
  {
    if receipts != [] {
      var init, last := receipts[..|receipts| - 1], receipts[|receipts| - 1];
      CoveredCount(init);
      EveryPair(last.context, last.phase);
      assert last in receipts && forall r :: r in init ==> r in receipts;
      LastIsNew(receipts);
    }
  }

  /** In every run of the fixture a capture holds at most twelve receipts, numbered from zero
      and different in context or phase, and with twelve it holds every one of them. */
  lemma TwelveAtMost(c: Platform, es: seq<Event>, i: nat)
    requires |c.hosts| == 2
    ensures var s := After(c, INITIAL, es);
            i < |s.runs| ==>
              var receipts := s.runs[i].receipts;
              && Numbered(receipts) && Unique(receipts) && |receipts| <= 12 && TotalBytes(c, receipts) <= MAX_BYTES
              && (|receipts| == 12 ==> forall x, y :: Recorded(receipts, x, y))
  {
    RunKeepsInv(c, INITIAL, es);
    var s := After(c, INITIAL, es);
    if i < |s.runs| {
      var receipts := s.runs[i].receipts;
      assert RunOk(c, s.runs[i]);
      CoveredCount(receipts);
      SubsetCount(Covered(receipts), PAIRS);
      EveryPair(Window, OptIn);
      if |receipts| == 12 {
        forall x, y ensures Recorded(receipts, x, y) {
          EveryPair(x, y);
          assert (x, y) in Covered(receipts);
        }
      }
    }
  }

  lemma {:induction false} SubsetCount<T>(a: set<T>, b: set<T>)
    requires a <= b
    ensures |a| <= |b| && (|a| == |b| ==> a == b)
  {
    assert b == a + (b - a);
    assert |b| == |a| + |b - a|;
  }

  // ---------- failures poison a capture for good ----------

  /** The reason an event records, if any. */
  function ReasonOf(c: Platform, s: State, e: Event): Option<Reason> {
    match e
    case Arrives(server, q) => Handle(c, s, server, q).2
    case ClientError(said) => Some(ParserRejected(said))
    case ServerError(said) => Some(ServerFailed(said))
    case _ => None
  }

  /** The failure of a run that may not exist yet or, for None, of the fixture. */
  function FailureOf(s: State, who: Option<nat>): Option<Reason> {
    match who
    case None => s.fatal
    case Some(i) => if i < |s.runs| then s.runs[i].failure else None
  }

  /** The first reason recorded while that run, or no run, was active. */
  function FirstReason(c: Platform, s: State, es: seq<Event>, who: Option<nat>): Option<Reason>
    decreases |es|
  {
    if es == [] then None
    else if s.active == who && ReasonOf(c, s, es[0]).Some? then Some(Cut(ReasonOf(c, s, es[0]).value))
    else FirstReason(c, Step(c, s, es[0]), es[1..], who)
  }

  lemma StepFailure(c: Platform, s: State, e: Event, who: Option<nat>)
    requires Inv(c, s)
    ensures FailureOf(Step(c, s, e), who)
            == if FailureOf(s, who).None? && s.active == who && ReasonOf(c, s, e).Some? then Some(Cut(ReasonOf(c, s, e).value))
               else FailureOf(s, who)
  {
    if e.Arrives? && Refusal(c, e.server, e.request).None? && s.active.Some? && s.runs[s.active.value].prefix <= e.request.target {
      ServeKeepsRun(c, s.runs[s.active.value], e.server, e.request);
    }
  }

  /** What a run has recorded as its failure is the first reason given while it was active,
      and the fatal one the first given while no run was. */
  lemma {:induction false} FailureIsFirst(c: Platform, s: State, es: seq<Event>, who: Option<nat>)
    requires Inv(c, s)
    ensures FailureOf(After(c, s, es), who) == if FailureOf(s, who).Some? then FailureOf(s, who) else FirstReason(c, s, es, who)
    decreases |es|
  {
    if es != [] {
      StepKeepsInv(c, s, es[0]);
      StepFailure(c, s, es[0], who);
      FailureIsFirst(c, Step(c, s, es[0]), es[1..], who);
    }
  }

  /** Once a capture is unhealthy it stays so, whatever happens. */
  lemma PoisonIsPermanent(c: Platform, s: State, es: seq<Event>, i: nat)
    requires Inv(c, s) && Unhealthy(s, i)
    ensures Unhealthy(After(c, s, es), i)
  {
    FailureIsFirst(c, s, es, None);
    FailureIsFirst(c, s, es, Some(i));
  }

  /** An event that fails: a request answered neither 200 nor 404, or an error of a server. */
  predicate Failing(c: Platform, s: State, e: Event) {
    match e
    case Arrives(server, q) => Handle(c, s, server, q).1 !in {200, 404}
    case ClientError(_) => true
    case ServerError(_) => true
    case _ => false
  }

  lemma FailingExactly(c: Platform, s: State, e: Event)
    requires Inv(c, s)
    ensures Failing(c, s, e) <==> ReasonOf(c, s, e).Some?
  {
    if e.Arrives? && Refusal(c, e.server, e.request).None? && s.active.Some? && s.runs[s.active.value].prefix <= e.request.target {
      ServeKeepsRun(c, s.runs[s.active.value], e.server, e.request);
    }
  }

  /** Anything that fails while a run is active makes that run unhealthy, and with none active
      every run, those not begun yet included, at once and whatever happens afterwards. */
  lemma FailurePoisons(c: Platform, s: State, e: Event, es: seq<Event>, i: nat)
    requires Inv(c, s) && Failing(c, s, e) && (s.active == Some(i) || s.active.None?)
    ensures Unhealthy(After(c, Step(c, s, e), es), i)
  {
    FailingExactly(c, s, e);
    StepFailure(c, s, e, s.active);
    StepKeepsInv(c, s, e);
    PoisonIsPermanent(c, Step(c, s, e), es, i);
  }

  /** The k-th event failed while this run, or for None no run, was active. */
  predicate FailedAt(c: Platform, s: State, es: seq<Event>, who: Option<nat>, k: nat)
    requires k < |es|
  {
    var now := After(c, s, es[..k]);
    now.active == who && Failing(c, now, es[k])
  }

  predicate Failed(c: Platform, s: State, es: seq<Event>, who: Option<nat>) {
    exists k :: 0 <= k < |es| && FailedAt(c, s, es, who, k)
  }

  lemma FailedAtNext(c: Platform, s: State, es: seq<Event>, who: Option<nat>, k: nat)
    requires 0 < k < |es|
    ensures FailedAt(c, s, es, who, k) <==> FailedAt(c, Step(c, s, es[0]), es[1..], who, k - 1)
  {
    assert es[..k][0] == es[0] && es[..k][1..] == es[1..][..k - 1] && es[1..][k - 1] == es[k];
  }

  lemma FailedUnfolds(c: Platform, s: State, es: seq<Event>, who: Option<nat>)
    requires es != []
    ensures Failed(c, s, es, who) <==> (s.active == who && Failing(c, s, es[0])) || Failed(c, Step(c, s, es[0]), es[1..], who)
  {
    assert es[..0] == [];
    assert FailedAt(c, s, es, who, 0) <==> s.active == who && Failing(c, s, es[0]);
    forall k: nat | 0 < k < |es| ensures FailedAt(c, s, es, who, k) <==> FailedAt(c, Step(c, s, es[0]), es[1..], who, k - 1) {
      FailedAtNext(c, s, es, who, k);
    }
    if Failed(c, Step(c, s, es[0]), es[1..], who) {
      var k :| 0 <= k < |es[1..]| && FailedAt(c, Step(c, s, es[0]), es[1..], who, k);
      FailedAtNext(c, s, es, who, k + 1);
    }
  }

  lemma {:induction false} FirstReasonExactly(c: Platform, s: State, es: seq<Event>, who: Option<nat>)
    requires Inv(c, s)
    ensures FirstReason(c, s, es, who).Some? <==> Failed(c, s, es, who)
    decreases |es|
  {
    if es != [] {
      FailingExactly(c, s, es[0]);
      StepKeepsInv(c, s, es[0]);
      FirstReasonExactly(c, Step(c, s, es[0]), es[1..], who);
      FailedUnfolds(c, s, es, who);
    }
  }

  /** assertHealthy throws exactly if some event failed while the run was active, or while none was. */
  lemma UnhealthyExactly(c: Platform, es: seq<Event>, i: nat)
    requires |c.hosts| == 2
    ensures Unhealthy(After(c, INITIAL, es), i) <==> Failed(c, INITIAL, es, None) || Failed(c, INITIAL, es, Some(i))
  {
    FailureIsFirst(c, INITIAL, es, None);
    FailureIsFirst(c, INITIAL, es, Some(i));
    FirstReasonExactly(c, INITIAL, es, None);
    FirstReasonExactly(c, INITIAL, es, Some(i));
  }

  /** What an answer means: 200 and 404 leave every failure as it was, and any other answer leaves
      a failure with the run it met, or with none active for good. */
  lemma AnswerMeaning(c: Platform, s: State, server: nat, q: Request)
    requires Inv(c, s)
    ensures var (next, status, _) := Handle(c, s, server, q);
            && (status in {200, 404} ==> forall who :: FailureOf(next, who) == FailureOf(s, who))
            && (status !in {200, 404} ==> FailureOf(next, s.active).Some?)
            && (s.active.None? ==> status != 200)
  {
    var e := Arrives(server, q);
    FailingExactly(c, s, e);
    forall who ensures FailureOf(Handle(c, s, server, q).0, who)
                       == if FailureOf(s, who).None? && s.active == who && ReasonOf(c, s, e).Some?
                          then Some(Cut(ReasonOf(c, s, e).value)) else FailureOf(s, who) {
      StepFailure(c, s, e, who);
    }
  }

  // ---------- receipts grow in their own run only ----------

  lemma StepGrows(c: Platform, s: State, e: Event, i: nat)
    requires Inv(c, s) && i < |s.runs| && e != Release(i)
    ensures var t := Step(c, s, e);
            && i < |t.runs| && s.runs[i].receipts <= t.runs[i].receipts && t.runs[i].prefix == s.runs[i].prefix
            && (s.active != Some(i) ==> t.active != Some(i) && t.runs[i] == s.runs[i])
  {
    if e.Arrives? && Refusal(c, e.server, e.request).None? && s.active.Some? && s.runs[s.active.value].prefix <= e.request.target {
      ServeKeepsRun(c, s.runs[s.active.value], e.server, e.request);
    }
  }

  /** Without a release of it, a run's receipts are only ever added to; the others' never change. */
  lemma {:induction false} ReceiptsGrow(c: Platform, s: State, es: seq<Event>, i: nat)
    requires Inv(c, s) && i < |s.runs| && Release(i) !in es
    ensures var t := After(c, s, es);
            && i < |t.runs| && s.runs[i].receipts <= t.runs[i].receipts && t.runs[i].prefix == s.runs[i].prefix
            && (s.active != Some(i) ==> t.active != Some(i) && t.runs[i] == s.runs[i])
    decreases |es|
  {
    if es != [] {
      StepKeepsInv(c, s, es[0]);
      StepGrows(c, s, es[0], i);
      ReceiptsGrow(c, Step(c, s, es[0]), es[1..], i);
    }
  }

  /** A request for a context and phase that is answered 200 has just been recorded under the
      next number, and no other answer of 200 records anything. */
  lemma AnsweredMeansRecorded(c: Platform, s: State, server: nat, q: Request)
    requires Inv(c, s) && Handle(c, s, server, q).1 == 200
    ensures s.active.Some?
    ensures var run, next := s.runs[s.active.value], Handle(c, s, server, q).0.runs[s.active.value];
            var url := c.parse(q.target);
            && run.prefix <= url.path && Served(server, url.path[|run.prefix|..])
            && var phase := PhaseOf(url.path[|run.prefix|..]);
            && (phase.None? ==> next.receipts == run.receipts)
            && (phase.Some? ==> ContextOf(url.search).Some?
                                && next.receipts == run.receipts + [Receipt(ContextOf(url.search).value, phase.value, |run.receipts|, q)])
  {
  }

  // ---------- the objects ----------

  class Run {
    const prefix: Text
    var count: nat
    var bytes: nat
    var receipts: seq<Receipt>
    var failure: Option<Reason>

    constructor (prefix: Text)
      ensures View() == RunState(prefix, 0, 0, [], None)
    {
      this.prefix := prefix;
      count, bytes, receipts, failure := 0, 0, [], None;
    }

    function View(): RunState
      reads this
    {
      RunState(prefix, count, bytes, receipts, failure)
    }

    /** The handler once the request is known to be the run's: the status, and the reason of a rejection. */
    method Answer(c: Platform, server: nat, q: Request) returns (status: nat, reason: Option<Reason>)
      modifies this`count, this`bytes, this`receipts
      ensures Outcome(View(), status, reason) == Serve(c, old(View()), server, q)
    {
      count := count + 1;
      if count > 64 {
        return 429, Some(TooManyRequests);
      }
      var url := c.parse(q.target);
      if !(prefix <= url.path) || !Served(server, url.path[|prefix|..]) {
        return 404, None;
      }
      var relative := url.path[|prefix|..];
      var phase, bodyBytes := PhaseOf(relative), 25;
      if phase.Some? {
        var context := ContextOf(url.search);
        if context.None? || (server == 1) != (context.value == CrossOriginFrame) {
          return 400, Some(UnexpectedContext);
        }
        if Recorded(receipts, context.value, phase.value) {
          return 409, Some(DuplicateReceipt);
        }
        var receipt := Receipt(context.value, phase.value, |receipts|, q);
        var size := c.receiptBytes(receipt);
        if bytes + size > MAX_BYTES {
          return 413, Some(EvidenceTooLong);
        }
        bytes := bytes + size;
        receipts := receipts + [receipt];
        if phase.value == Echo {
          bodyBytes := c.echoBytes(q);
        }
      } else {
        if url.search != "" {
          return 400, Some(UnexpectedQuery);
        }
        bodyBytes := c.documentBytes(relative);
      }
      if bodyBytes > 65536 {
        return 413, Some(ResponseTooLong);
      }
      return 200, None;
    }
  }

  ghost function Views(runs: seq<Run>): (r: seq<RunState>)
    reads runs
    ensures |r| == |runs| && forall i :: 0 <= i < |runs| ==> r[i] == runs[i].View()
  {
    seq(|runs|, i requires 0 <= i < |runs| reads runs => runs[i].View())
  }

  class Fixture {
    const platform: Platform
    var active: Run?
    var fatal: Option<Reason>
    var captures: nat
    var closing: bool
    ghost var runs: seq<Run>

    ghost predicate Shaped()
      reads this, runs
    {
      && (forall i, j :: 0 <= i < j < |runs| ==> runs[i] != runs[j])
      && (active != null ==> runs != [] && runs[|runs| - 1] == active)
    }

    ghost predicate Valid()
      reads this, runs
    {
      Shaped() && Inv(platform, View())
    }

    ghost function View(): State
      reads this, runs
    {
      State(if active != null && runs != [] then Some(|runs| - 1) else None, Views(runs), fatal, captures, closing)
    }

    constructor (platform: Platform)
      requires |platform.hosts| == 2
      ensures Valid() && View() == INITIAL && this.platform == platform
    {
      this.platform := platform;
      active, fatal, captures, closing, runs := null, None, 0, false, [];
    }

    /** fail */
    method RecordFailure(reason: Reason)
      requires Shaped()
      modifies this`fatal, active
      ensures Shaped() && active == old(active) && runs == old(runs) && View() == Fail(old(View()), reason)
    {
      if active != null {
        if active.failure.None? {
          active.failure := Some(Cut(reason));
        }
      } else if fatal.None? {
        fatal := Some(Cut(reason));
      }
      assert View().runs == Fail(old(View()), reason).runs;
    }

    /** beginCapture; null where the original throws. */
    method BeginCapture(prefix: Text) returns (run: Run?)
      requires Valid()
      modifies this
      ensures Valid() && View() == Begun(old(View()), prefix)
      ensures run != null <==> |runs| > |old(runs)|
      ensures run != null ==> fresh(run) && active == run && runs == old(runs) + [run]
      ensures run == null ==> runs == old(runs)
    {
      StepKeepsInv(platform, View(), Begin(prefix));
      if closing || active != null || fatal.Some? {
        return null;
      }
      captures := captures + 1;
      if captures > 32 {
        return null;
      }
      run := Start(prefix);
    }

    /** A new run becomes the active one. */
    method Start(prefix: Text) returns (run: Run)
      requires Shaped() && active == null
      modifies this`active, this`runs
      ensures Shaped() && fresh(run) && active == run && runs == old(runs) + [run]
      ensures View() == old(View()).(active := Some(|old(runs)|), runs := old(View()).runs + [RunState(prefix, 0, 0, [], None)])
    {
      run := new Run(prefix);
      active := run;
      runs := runs + [run];
      assert Views(runs) == old(Views(runs)) + [run.View()];
    }

    method AssertHealthy(run: Run) returns (healthy: bool)
      requires Valid() && run in runs
      ensures forall i :: 0 <= i < |runs| && runs[i] == run ==> (healthy <==> !Unhealthy(View(), i))
    {
      healthy := fatal.None? && run.failure.None?;
    }

    /** release */
    method ReleaseRun(run: Run, ghost i: nat)
      requires Valid() && i < |runs| && runs[i] == run
      modifies this`active, run
      ensures Valid() && runs == old(runs) && View() == Released(old(View()), i)
    {
      ReleaseKeepsInv(platform, View(), i);
      LetGo(run, i);
    }

    method LetGo(run: Run, ghost i: nat)
      requires Shaped() && i < |runs| && runs[i] == run
      modifies this`active, run
      ensures Shaped() && runs == old(runs) && View() == Released(old(View()), i)
    {
      if active == run {
        active := null;
      }
      run.receipts := [];
      assert Views(runs) == old(Views(runs))[i := run.View()];
    }

    /** The request handler of either server. */
    method HandleRequest(server: nat, q: Request) returns (status: nat)
      requires Valid()
      modifies this`fatal, active
      ensures Valid() && runs == old(runs) && active == old(active)
      ensures (View(), status) == (Handle(platform, old(View()), server, q).0, Handle(platform, old(View()), server, q).1)
    {
      HandleKeepsInv(platform, View(), server, q);
      if Malformed(platform, server, q) {
        RecordFailure(UnexpectedTarget);
        return 400;
      }
      if Forbidden(platform, q) {
        RecordFailure(CredentialsOrBody);
        return 400;
      }
      if |q.rawHeaders| > 128 || platform.rawBytes(q.rawHeaders) > 32768 {
        RecordFailure(HeadersTooLong);
        return 431;
      }
      if active == null || !(active.prefix <= q.target) {
        return 404;
      }
      status := ServeActive(server, q);
    }

    /** The handler once the request is known to be the active run's. */
    method ServeActive(server: nat, q: Request) returns (status: nat)
      requires Shaped() && active != null
      modifies this`fatal, active
      ensures Shaped() && runs == old(runs) && active == old(active)
      ensures var o := Serve(platform, old(active.View()), server, q); View() == Settled(old(View()), o) && status == o.status
    {
      ghost var before := View();
      var reason;
      status, reason := active.Answer(platform, server, q);
      ghost var o := Serve(platform, old(active.View()), server, q);
      assert View().runs == before.runs[before.active.value := o.run];
      if reason.Some? {
        RecordFailure(reason.value);
      }
    }
  }
}
