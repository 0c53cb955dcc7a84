/** The fixed-denominator acceptance ledger: one row per declared probe, whatever is submitted. */
module Ledger {
  import opened Results

  type Text = seq<char>

  // ---------- declarations ----------

  datatype Status = PASS | FAIL | BLOCKED | NOTRUN | UNSUPPORTED

  datatype Support = Supported | Unsupported(why: Reason)

  datatype EvidenceKind = Capture | FullIdentity | Prerequisite

  /** Where evidence was taken: in a probe context, or for a prerequisite. */
  datatype Place = In(context: Text) | AtPrerequisite

  datatype Probe = Probe(id: Text, contexts: seq<Text>, evidenceKind: EvidenceKind, required: bool, support: Support)

  datatype Lane = Lane(hostPlatform: Text, engine: Text, mode: Text, identityMode: Text)

  datatype Manifest = Manifest(schemaVersion: Text, manifestVersion: Text, lane: Lane, probes: seq<Probe>)

  datatype Binding = Binding(
    schemaVersion: Text, manifestVersion: Text, sourceRevision: Text, sourceDirty: bool, sourceSha256: Text,
    binarySha256: Text, configSha256: Text, runId: Text, hostId: Text, profileId: Text, lane: Lane)

  // ---------- submissions ----------

  /** A recorded value; Alien stands for anything JSON does not have. */
  datatype Value =
    | Null | Boolean(b: bool) | Finite(n: real) | NotFinite | Str(s: Text)
    | List(items: seq<Value>) | Object(members: map<Text, Value>) | Alien

  datatype Evidence = Evidence(id: Text, probeId: Text, kind: EvidenceKind, place: Place, artifact: Text, locator: Text, sha256: Text, binding: Binding)

  datatype Check = Check(id: Text, context: Text, passed: bool, expected: Option<Value>, actual: Option<Value>, evidenceIds: seq<Text>, reason: Option<Reason>)

  datatype Blocker = Blocker(prerequisite: Text, evidenceIds: seq<Text>)

  datatype Flag = Omitted | IsTrue | IsFalse | NotBoolean

  /** status is None when it is not one of the five. */
  datatype Submission = Submission(
    id: Text, status: Option<Status>, reason: Option<Reason>, timedOut: Flag,
    checks: Option<seq<Check>>, evidence: Option<seq<Evidence>>, blocker: Option<Blocker>)

  /** A reason: a submitted text, or one of the ledger's own messages, none of which is blank. */
  datatype Reason =
    | Given(text: Text)
    | CheckFailed(id: Text)
    | ContextsMissing(contexts: seq<Text>)
    | NothingSubmitted | NotExecuted | TimedOut | BadTimeoutFlag | BadStatus | BadReason
    | EvidenceIdBad | EvidenceProbeMismatch | EvidenceKindMismatch | EvidenceContextMismatch | EvidenceArtifactBad
    | BindingBad | BindingMismatch
    | CheckIdBad | CheckContextBad | ObservationBad | CheckReasonBad | ReferencesMissing | ReferenceIdBad | ReferenceMismatch
    | ContradictsUnsupported | SupportedNotUnsupported | PassWithReason | BlockedIncomplete | BlockerWithoutBlocked | NotRunWithChecks
    | FailedWithoutReason

  datatype Row = Row(
    id: Text, required: bool, support: Support, status: Status, reason: Option<Reason>,
    checks: seq<Check>, evidence: seq<Evidence>, timedOut: bool, blocker: Option<Blocker>)

  // ---------- small tests ----------

  /** JavaScript's white space. */
  predicate White(c: char) {
    c in {'\t', '\n', '\r', ' ', '\U{000B}', '\U{000C}', '\U{00A0}', '\U{1680}', '\U{2028}', '\U{2029}', '\U{202F}', '\U{205F}', '\U{3000}', '\U{FEFF}'}
    || '\U{2000}' <= c <= '\U{200A}'
  }

  /** hasText: not empty after trimming. */
  predicate HasText(s: Text) {
    exists c <- s :: !White(c)
  }

  predicate Sha256(s: Text) {
    |s| == 64 && forall c <- s :: '0' <= c <= '9' || 'a' <= c <= 'f'
  }

  predicate ReasonOk(r: Reason) {
    r.Given? ==> HasText(r.text)
  }

  predicate BindingOk(b: Binding, m: Manifest) {
    && b.schemaVersion == m.schemaVersion && b.manifestVersion == m.manifestVersion
    && HasText(b.sourceRevision) && HasText(b.runId) && HasText(b.hostId) && HasText(b.profileId)
    && Sha256(b.sourceSha256) && Sha256(b.binarySha256) && Sha256(b.configSha256)
    && b.lane == m.lane
  }

  /** isProbeValue: plain JSON nested at most 33 containers deep. */
  predicate ProbeValue(v: Value, depth: nat) {
    match v
    case Null => true
    case Boolean(_) => true
    case Finite(_) => true
    case Str(_) => true
    case NotFinite => false
    case Alien => false
    case List(items) => depth <= 32 && forall i <- items :: ProbeValue(i, depth + 1)
    case Object(members) => depth <= 32 && forall k <- members :: ProbeValue(members[k], depth + 1)
  }

  // ---------- problems ----------

  function EvidenceProblem(refs: seq<Evidence>, p: Probe, binding: Binding, m: Manifest): Option<Reason> {
    if refs == [] then None
    else
      var earlier := EvidenceProblem(refs[..|refs| - 1], p, binding, m);
      var ref := refs[|refs| - 1];
      if earlier.Some? then earlier
      else if !HasText(ref.id) || (exists e <- refs[..|refs| - 1] :: e.id == ref.id) then Some(EvidenceIdBad)
      else if ref.probeId != p.id then Some(EvidenceProbeMismatch)
      else if ref.place.AtPrerequisite? != ref.kind.Prerequisite? then Some(EvidenceKindMismatch)
      else if ref.place.In? && ref.place.context !in p.contexts then Some(EvidenceContextMismatch)
      else if !HasText(ref.artifact) || !HasText(ref.locator) || !Sha256(ref.sha256) then Some(EvidenceArtifactBad)
      else if !BindingOk(ref.binding, m) then Some(BindingBad)
      else if ref.binding != binding then Some(BindingMismatch)
      else None
  }

  /** Evidence with this ID, the first of them. */
  function Find(refs: seq<Evidence>, id: Text): Option<Evidence> {
    if refs == [] then None else if refs[0].id == id then Some(refs[0]) else Find(refs[1..], id)
  }

  function ReferenceLoop(ids: seq<Text>, refs: seq<Evidence>, place: Place, kind: EvidenceKind): Option<Reason> {
    if ids == [] then None
    else
      var earlier := ReferenceLoop(ids[..|ids| - 1], refs, place, kind);
      var id := ids[|ids| - 1];
      if earlier.Some? then earlier
      else if !HasText(id) || id in ids[..|ids| - 1] then Some(ReferenceIdBad)
      else
        match Find(refs, id)
        case None => Some(ReferenceMismatch)
        case Some(ref) => if ref.place != place || ref.kind != kind then Some(ReferenceMismatch) else None
  }

  function ReferenceProblem(ids: seq<Text>, refs: seq<Evidence>, place: Place, kind: EvidenceKind): Option<Reason> {
    if ids == [] then Some(ReferencesMissing) else ReferenceLoop(ids, refs, place, kind)
  }

  function ChecksProblem(checks: seq<Check>, p: Probe, refs: seq<Evidence>): Option<Reason> {
    if checks == [] then None
    else
      var earlier := ChecksProblem(checks[..|checks| - 1], p, refs);
      var c := checks[|checks| - 1];
      if earlier.Some? then earlier
      else if !HasText(c.id) || (exists d <- checks[..|checks| - 1] :: d.id == c.id) then Some(CheckIdBad)
      else if c.context !in p.contexts then Some(CheckContextBad)
      else if !(c.expected.Some? && ProbeValue(c.expected.value, 0) && c.actual.Some? && ProbeValue(c.actual.value, 0)) then Some(ObservationBad)
      else if c.reason.Some? && (!ReasonOk(c.reason.value) || c.passed) then Some(CheckReasonBad)
      else ReferenceProblem(c.evidenceIds, refs, In(c.context), p.evidenceKind)
  }

  function FirstFailed(checks: seq<Check>): (r: Option<Check>)
    ensures r.Some? ==> r.value in checks && !r.value.passed
    ensures r.None? ==> forall c <- checks :: c.passed
  {
    if checks == [] then None else if !checks[0].passed then Some(checks[0]) else FirstFailed(checks[1..])
  }

  // ---------- one row ----------

  function MissingContexts(contexts: seq<Text>, checks: seq<Check>): (r: seq<Text>)
    ensures r == [] <==> forall x <- contexts :: exists c :: c in checks && c.context == x
  {
    if contexts == [] then []
    else
      var rest := MissingContexts(contexts[1..], checks);
      assert forall x :: x in contexts <==> x == contexts[0] || x in contexts[1..];
      assert contexts[0] in contexts;
      if exists c <- checks :: c.context == contexts[0] then rest else [contexts[0]] + rest
  }

  function Bare(p: Probe, s: Option<Submission>, status: Status, reason: Option<Reason>): Row {
    Full(p, s, status, reason, [], [])
  }

  function Full(p: Probe, s: Option<Submission>, status: Status, reason: Option<Reason>, checks: seq<Check>, evidence: seq<Evidence>): Row {
    Row(p.id, p.required, p.support, status, reason, checks, evidence,
        s.Some? && s.value.timedOut == IsTrue,
        if status == BLOCKED && s.Some? then s.value.blocker else None)
  }

  function OrElse<T>(o: Option<T>, default: T): T {
    match o
    case Some(v) => v
    case None => default
  }

  /** normalizeResult */
  function Normalize(p: Probe, submitted: Option<Submission>, binding: Binding, m: Manifest): Row {
    match submitted
    case None =>
      if p.support.Unsupported? then Bare(p, None, UNSUPPORTED, Some(p.support.why)) else Bare(p, None, NOTRUN, Some(NothingSubmitted))
    case Some(s) =>
      if s.timedOut == IsTrue then Bare(p, submitted, FAIL, Some(TimedOut))
      else if s.timedOut == NotBoolean then Bare(p, submitted, FAIL, Some(BadTimeoutFlag))
      else if s.status.None? then Bare(p, submitted, FAIL, Some(BadStatus))
      else if s.reason.Some? && !ReasonOk(s.reason.value) then Bare(p, submitted, FAIL, Some(BadReason))
      else
        var evidence, checks := OrElse(s.evidence, []), OrElse(s.checks, []);
        var problem := EvidenceProblem(evidence, p, binding, m);
        var malformed := if problem.Some? then problem else ChecksProblem(checks, p, evidence);
        if malformed.Some? then Bare(p, submitted, FAIL, malformed) else Judge(p, s, checks, evidence)
  }

  /** The rest of normalizeResult, for a submission that is well formed. */
  function Judge(p: Probe, s: Submission, checks: seq<Check>, evidence: seq<Evidence>): Row
    requires s.status.Some?
  {
    var failed := FirstFailed(checks);
    if failed.Some? then
      Full(p, Some(s), FAIL, Some(OrElse(failed.value.reason, CheckFailed(failed.value.id))), checks, evidence)
    else if p.support.Unsupported? then JudgeUnsupported(p, s, checks, evidence)
    else
      match s.status.value
      case UNSUPPORTED => Full(p, Some(s), FAIL, Some(SupportedNotUnsupported), checks, evidence)
      case PASS => JudgePass(p, s, checks, evidence)
      case BLOCKED => JudgeBlocked(p, s, checks, evidence)
      case _ => JudgeRest(p, s, checks, evidence)
  }

  function JudgeUnsupported(p: Probe, s: Submission, checks: seq<Check>, evidence: seq<Evidence>): Row
    requires s.status.Some? && p.support.Unsupported?
  {
    if s.status.value != UNSUPPORTED || checks != [] || evidence != [] || s.blocker.Some?
       || (s.reason.Some? && s.reason.value != p.support.why) then
      Full(p, Some(s), FAIL, Some(ContradictsUnsupported), checks, evidence)
    else Bare(p, Some(s), UNSUPPORTED, Some(p.support.why))
  }

  function JudgePass(p: Probe, s: Submission, checks: seq<Check>, evidence: seq<Evidence>): Row {
    var missing := MissingContexts(p.contexts, checks);
    if s.reason.Some? || s.blocker.Some? then Full(p, Some(s), FAIL, Some(PassWithReason), checks, evidence)
    else if checks == [] || missing != [] then Full(p, Some(s), FAIL, Some(ContextsMissing(missing)), checks, evidence)
    else Full(p, Some(s), PASS, None, checks, evidence)
  }

  function JudgeBlocked(p: Probe, s: Submission, checks: seq<Check>, evidence: seq<Evidence>): Row {
    if s.reason.None? || s.blocker.None? || !HasText(s.blocker.value.prerequisite) then
      Full(p, Some(s), FAIL, Some(BlockedIncomplete), checks, evidence)
    else
      var problem := ReferenceProblem(s.blocker.value.evidenceIds, evidence, AtPrerequisite, Prerequisite);
      if problem.Some? then Full(p, Some(s), FAIL, problem, checks, evidence)
      else Full(p, Some(s), BLOCKED, s.reason, checks, evidence)
  }

  function JudgeRest(p: Probe, s: Submission, checks: seq<Check>, evidence: seq<Evidence>): Row
    requires s.status.Some?
  {
    if s.blocker.Some? then Full(p, Some(s), FAIL, Some(BlockerWithoutBlocked), checks, evidence)
    else if s.status.value == NOTRUN then
      if checks != [] then Full(p, Some(s), FAIL, Some(NotRunWithChecks), checks, evidence)
      else Full(p, Some(s), NOTRUN, Some(OrElse(s.reason, NotExecuted)), checks, evidence)
    else Full(p, Some(s), FAIL, Some(OrElse(s.reason, FailedWithoutReason)), checks, evidence)
  }

  // ---------- the ledger ----------

  datatype Totals = Totals(total: nat, supported: nat, required: nat, requiredPassed: nat, byStatus: map<Status, nat>)

  datatype Summary = Summary(rows: seq<Row>, totals: Totals, eligible: bool)

  function ById(results: seq<Submission>, id: Text): Option<Submission> {
    if results == [] then None else if results[0].id == id then Some(results[0]) else ById(results[1..], id)
  }

  function Rows(probes: seq<Probe>, results: seq<Submission>, binding: Binding, m: Manifest): (r: seq<Row>)
    ensures |r| == |probes|
    ensures forall i :: 0 <= i < |probes| ==> r[i] == Normalize(probes[i], ById(results, probes[i].id), binding, m)
  {
    if probes == [] then []
    else [Normalize(probes[0], ById(results, probes[0].id), binding, m)] + Rows(probes[1..], results, binding, m)
  }

  predicate KnownIds(m: Manifest, results: seq<Submission>) {
    forall r <- results :: HasText(r.id) && exists p :: p in m.probes && p.id == r.id
  }

  predicate DistinctIds(results: seq<Submission>) {
    forall i, j :: 0 <= i < j < |results| ==> results[i].id != results[j].id
  }

  /** What the aggregation accepts at all. */
  predicate Admissible(m: Manifest, binding: Binding, results: seq<Submission>) {
    BindingOk(binding, m) && KnownIds(m, results) && DistinctIds(results)
  }

  function Count(rows: seq<Row>, f: Row -> bool): nat {
    if rows == [] then 0 else Count(rows[..|rows| - 1], f) + if f(rows[|rows| - 1]) then 1 else 0
  }

  function WithStatus(s: Status): Row -> bool {
    (r: Row) => r.status == s
  }

  const IsSupported: Row -> bool := (r: Row) => r.support.Supported?
  const IsRequired: Row -> bool := (r: Row) => r.required && r.support.Supported?
  const IsPassed: Row -> bool := (r: Row) => r.required && r.support.Supported? && r.status == PASS

  predicate Eligible(rows: seq<Row>) {
    Count(rows, IsRequired) > 0 && Count(rows, IsPassed) == Count(rows, IsRequired)
    && Count(rows, WithStatus(FAIL)) == 0 && Count(rows, WithStatus(BLOCKED)) == 0 && Count(rows, WithStatus(NOTRUN)) == 0
  }

  /** aggregateFingerprintAcceptance, on a manifest already found canonical. The result is None
      where the original throws. */
  method Aggregate(m: Manifest, binding: Binding, results: seq<Submission>) returns (summary: Option<Summary>)
    ensures summary.Some? <==> Admissible(m, binding, results)
    ensures summary.Some? ==>
              var s := summary.value;
              && s.rows == Rows(m.probes, results, binding, m)
              && s.totals.total == |m.probes|
              && s.totals.supported == Count(s.rows, IsSupported)
              && s.totals.required == Count(s.rows, IsRequired)
              && s.totals.requiredPassed == Count(s.rows, IsPassed)
              && (forall x: Status :: x in s.totals.byStatus && s.totals.byStatus[x] == Count(s.rows, WithStatus(x)))
              && (s.eligible <==> Eligible(s.rows))
  {
    if !BindingOk(binding, m) {
      return None;
    }
    var known, byId := SubmissionsById(m, results);
    if !known {
      return None;
    }
    var rows := NormalizeAll(m, binding, results, byId);
    var totals := CountRows(rows);
    var eligible := totals.required > 0 && totals.requiredPassed == totals.required
      && totals.byStatus[FAIL] == 0 && totals.byStatus[BLOCKED] == 0 && totals.byStatus[NOTRUN] == 0;
    summary := Some(Summary(rows, totals, eligible));
  }

  /** The submissions by probe, unless one names no probe of the manifest or one that has been named. */
  method SubmissionsById(m: Manifest, results: seq<Submission>) returns (known: bool, byId: map<Text, Submission>)
    ensures known <==> KnownIds(m, results) && DistinctIds(results)
    ensures known ==> Indexes(byId, results)
  {
    byId := map[];
    for i := 0 to |results|
      invariant KnownIds(m, results[..i]) && DistinctIds(results[..i]) && Indexes(byId, results[..i])
    {
      var r := results[i];
      assert results[..i + 1] == results[..i] + [r];
      ByIdSnoc(results[..i], r);
      if !HasText(r.id) || !(exists p <- m.probes :: p.id == r.id) || r.id in byId {
        StillRefused(m, results, i);
        return false, byId;
      }
      byId := byId[r.id := r];
    }
    assert results[..|results|] == results;
    known := true;
  }

  predicate Indexes(byId: map<Text, Submission>, results: seq<Submission>) {
    && (forall id <- byId :: ById(results, id) == Some(byId[id]))
    && (forall r <- results :: r.id in byId)
  }

  /** One row for every probe of the manifest, in its order. */
  method NormalizeAll(m: Manifest, binding: Binding, results: seq<Submission>, byId: map<Text, Submission>) returns (rows: seq<Row>)
    requires Indexes(byId, results)
    ensures rows == Rows(m.probes, results, binding, m)
  {
    rows := [];
    for i := 0 to |m.probes|
      invariant rows == Rows(m.probes[..i], results, binding, m)
    {
      var p := m.probes[i];
      assert m.probes[..i + 1] == m.probes[..i] + [p];
      RowsSnoc(m.probes[..i], p, results, binding, m);
      ByIdMember(results, p.id);
      rows := rows + [Normalize(p, if p.id in byId then Some(byId[p.id]) else None, binding, m)];
    }
    assert m.probes[..|m.probes|] == m.probes;
  }

  method CountRows(rows: seq<Row>) returns (t: Totals)
    ensures t.total == |rows| && t.supported == Count(rows, IsSupported)
    ensures t.required == Count(rows, IsRequired) && t.requiredPassed == Count(rows, IsPassed)
    ensures forall x: Status :: x in t.byStatus && t.byStatus[x] == Count(rows, WithStatus(x))
  {
    var supported, required, requiredPassed: nat := 0, 0, 0;
    var byStatus: map<Status, nat> := map[PASS := 0, FAIL := 0, BLOCKED := 0, NOTRUN := 0, UNSUPPORTED := 0];
    forall x: Status ensures x in byStatus && byStatus[x] == 0 {
      match x case PASS => case FAIL => case BLOCKED => case NOTRUN => case UNSUPPORTED =>
    }
    assert rows[..0] == [];
    for i := 0 to |rows|
      invariant supported == Count(rows[..i], IsSupported)
      invariant required == Count(rows[..i], IsRequired) && requiredPassed == Count(rows[..i], IsPassed)
      invariant forall x: Status :: x in byStatus && byStatus[x] == Count(rows[..i], WithStatus(x))
    {
      assert rows[..i + 1][..i] == rows[..i];
      var row := rows[i];
      byStatus := byStatus[row.status := byStatus[row.status] + 1];
      if row.support.Supported? {
        supported := supported + 1;
      }
      if row.required && row.support.Supported? {
        required := required + 1;
        if row.status == PASS {
          requiredPassed := requiredPassed + 1;
        }
      }
    }
    assert rows[..|rows|] == rows;
    t := Totals(|rows|, supported, required, requiredPassed, byStatus);
  }

  lemma {:induction false} ByIdSnoc(results: seq<Submission>, r: Submission)
    ensures forall id :: ById(results + [r], id) == if ById(results, id).Some? then ById(results, id)
                                                    else if r.id == id then Some(r) else None
    ensures forall id :: ById(results, id).Some? <==> exists s :: s in results && s.id == id
  {
    if results != [] {
      ByIdSnoc(results[1..], r);
      assert (results + [r])[1..] == results[1..] + [r];
      assert forall s :: s in results <==> s == results[0] || s in results[1..];
    }
  }

  lemma StillRefused(m: Manifest, results: seq<Submission>, i: nat)
    requires i < |results|
    requires !HasText(results[i].id) || !(exists p <- m.probes :: p.id == results[i].id) || ById(results[..i], results[i].id).Some?
    ensures !(KnownIds(m, results) && DistinctIds(results))
  {
    ByIdSnoc(results[..i], results[i]);
    assert results[i] in results;
    if ById(results[..i], results[i].id).Some? {
      var s :| s in results[..i] && s.id == results[i].id;
      var j :| 0 <= j < i && results[..i][j] == s;
      assert results[j].id == results[i].id;
    }
  }

  lemma {:induction false} RowsSnoc(probes: seq<Probe>, p: Probe, results: seq<Submission>, binding: Binding, m: Manifest)
    ensures Rows(probes + [p], results, binding, m) == Rows(probes, results, binding, m) + [Normalize(p, ById(results, p.id), binding, m)]
  {
  }

  // ---------- what the ledger guarantees ----------

  /** Supported probes are the required ones, there is one, IDs are distinct and the reasons
      for the unsupported ones are not blank: so the declared manifests are made. */
  predicate WellDeclared(m: Manifest) {
    && (forall p <- m.probes :: (p.required <==> p.support.Supported?))
    && (forall p <- m.probes :: p.support.Unsupported? ==> ReasonOk(p.support.why))
    && (exists p <- m.probes :: p.support.Supported?)
    && (forall i, j :: 0 <= i < j < |m.probes| ==> m.probes[i].id != m.probes[j].id)
  }

  /** A row that fits its probe: a supported probe never becomes UNSUPPORTED, and an
      unsupported one is UNSUPPORTED or FAIL. */
  predicate Fits(r: Row, p: Probe) {
    && r.id == p.id && r.required == p.required && r.support == p.support
    && (p.support.Supported? ==> r.status != UNSUPPORTED)
    && (p.support.Unsupported? ==> r.status == UNSUPPORTED || r.status == FAIL)
  }

  lemma JudgeFits(p: Probe, s: Submission, checks: seq<Check>, evidence: seq<Evidence>)
    requires s.status.Some?
    ensures Fits(Judge(p, s, checks, evidence), p)
  {
  }

  lemma StatusFitsSupport(p: Probe, s: Option<Submission>, binding: Binding, m: Manifest)
    ensures Fits(Normalize(p, s, binding, m), p)
  {
    if s.Some? && s.value.status.Some? {
      JudgeFits(p, s.value, OrElse(s.value.checks, []), OrElse(s.value.evidence, []));
    }
  }

  lemma {:induction false} CountSplit(rows: seq<Row>)
    ensures Count(rows, WithStatus(PASS)) + Count(rows, WithStatus(FAIL)) + Count(rows, WithStatus(BLOCKED))
            + Count(rows, WithStatus(NOTRUN)) + Count(rows, WithStatus(UNSUPPORTED)) == |rows|
  {
    if rows != [] {
      CountSplit(rows[..|rows| - 1]);
    }
  }

  lemma {:induction false} CountZero(rows: seq<Row>, f: Row -> bool)
    ensures Count(rows, f) == 0 <==> forall r <- rows :: !f(r)
  {
    if rows != [] {
      CountZero(rows[..|rows| - 1], f);
      assert forall r :: r in rows <==> r in rows[..|rows| - 1] || r == rows[|rows| - 1];
    }
  }

  lemma {:induction false} CountPassed(rows: seq<Row>)
    ensures Count(rows, IsPassed) <= Count(rows, IsRequired)
    ensures Count(rows, IsPassed) == Count(rows, IsRequired) <==> forall r <- rows :: IsRequired(r) ==> r.status == PASS
  {
    if rows != [] {
      CountPassed(rows[..|rows| - 1]);
      assert forall r :: r in rows <==> r in rows[..|rows| - 1] || r == rows[|rows| - 1];
    }
  }

  /** A row of a well-declared manifest. */
  predicate Coherent(r: Row) {
    && (r.required <==> r.support.Supported?)
    && (r.support.Supported? ==> r.status != UNSUPPORTED)
    && (r.support.Unsupported? ==> r.status == UNSUPPORTED || r.status == FAIL)
  }

  lemma RowsCoherent(m: Manifest, results: seq<Submission>, binding: Binding)
    requires WellDeclared(m)
    ensures forall r <- Rows(m.probes, results, binding, m) :: Coherent(r)
    ensures exists r :: r in Rows(m.probes, results, binding, m) && IsRequired(r)
  {
    var rows := Rows(m.probes, results, binding, m);
    forall i | 0 <= i < |rows| ensures Coherent(rows[i]) && rows[i].support == m.probes[i].support {
      StatusFitsSupport(m.probes[i], ById(results, m.probes[i].id), binding, m);
      assert m.probes[i] in m.probes;
    }
    var p :| p in m.probes && p.support.Supported?;
    var i :| 0 <= i < |m.probes| && m.probes[i] == p;
    assert rows[i] in rows && IsRequired(rows[i]);
  }

  predicate AsDeclared(r: Row) {
    if r.support.Supported? then r.status == PASS else r.status == UNSUPPORTED
  }

  /** Eligibility means exactly that every supported probe passed and every unsupported one is
      recorded as unsupported. */
  lemma EligibleExactly(m: Manifest, results: seq<Submission>, binding: Binding)
    requires WellDeclared(m)
    ensures var rows := Rows(m.probes, results, binding, m);
            Eligible(rows) <==> forall r <- rows :: AsDeclared(r)
  {
    RowsCoherent(m, results, binding);
    CoherentEligible(Rows(m.probes, results, binding, m));
  }

  lemma CoherentEligible(rows: seq<Row>)
    requires (forall r <- rows :: Coherent(r)) && exists r :: r in rows && IsRequired(r)
    ensures Eligible(rows) <==> forall r <- rows :: AsDeclared(r)
  {
    CountPassed(rows);
    CountZero(rows, WithStatus(FAIL));
    CountZero(rows, WithStatus(BLOCKED));
    CountZero(rows, WithStatus(NOTRUN));
    CountZero(rows, IsRequired);
    if Eligible(rows) {
      forall r <- rows ensures AsDeclared(r) {
        assert Coherent(r) && !WithStatus(FAIL)(r);
      }
    }
    if forall r <- rows :: AsDeclared(r) {
      forall r <- rows ensures !WithStatus(FAIL)(r) && !WithStatus(BLOCKED)(r) && !WithStatus(NOTRUN)(r) {
        assert AsDeclared(r);
      }
    }
  }

  // ---------- what a PASS row means ----------

  lemma {:induction false} EvidenceSound(refs: seq<Evidence>, p: Probe, binding: Binding, m: Manifest)
    requires EvidenceProblem(refs, p, binding, m).None?
    ensures forall r <- refs :: r.probeId == p.id && r.binding == binding && BindingOk(binding, m) && Sha256(r.sha256)
    ensures forall i, j :: 0 <= i < j < |refs| ==> refs[i].id != refs[j].id
  {
    if refs != [] {
      var init := refs[..|refs| - 1];
      EvidenceSound(init, p, binding, m);
      assert forall r :: r in refs <==> r in init || r == refs[|refs| - 1];
      forall i, j | 0 <= i < j < |refs| ensures refs[i].id != refs[j].id {
        assert refs[i] in init;
      }
    }
  }

  lemma {:induction false} FindSound(refs: seq<Evidence>, id: Text)
    ensures Find(refs, id).Some? ==> Find(refs, id).value in refs && Find(refs, id).value.id == id
  {
    if refs != [] && refs[0].id != id {
      FindSound(refs[1..], id);
    }
  }

  lemma {:induction false} ReferencesSound(ids: seq<Text>, refs: seq<Evidence>, place: Place, kind: EvidenceKind)
    requires ReferenceLoop(ids, refs, place, kind).None?
    ensures forall id <- ids :: exists r :: r in refs && r.id == id && r.place == place && r.kind == kind
  {
    if ids != [] {
      var last := ids[|ids| - 1];
      ReferencesSound(ids[..|ids| - 1], refs, place, kind);
      FindSound(refs, last);
      assert forall id :: id in ids <==> id in ids[..|ids| - 1] || id == last;
    }
  }

  /** A check that cites evidence of its own context and of the probe's kind. */
  ghost predicate Evidenced(c: Check, p: Probe, refs: seq<Evidence>, binding: Binding) {
    && c.context in p.contexts && c.evidenceIds != []
    && c.expected.Some? && c.actual.Some?
    && forall id <- c.evidenceIds ::
         exists r :: r in refs && r.id == id && r.place == In(c.context) && r.kind == p.evidenceKind
                     && r.probeId == p.id && r.binding == binding
  }

  lemma {:induction false} ChecksSound(checks: seq<Check>, p: Probe, refs: seq<Evidence>, binding: Binding, m: Manifest)
    requires ChecksProblem(checks, p, refs).None? && EvidenceProblem(refs, p, binding, m).None?
    ensures forall c <- checks :: Evidenced(c, p, refs, binding)
  {
    if checks != [] {
      var c := checks[|checks| - 1];
      ChecksSound(checks[..|checks| - 1], p, refs, binding, m);
      EvidenceSound(refs, p, binding, m);
      ReferencesSound(c.evidenceIds, refs, In(c.context), p.evidenceKind);
      assert Evidenced(c, p, refs, binding);
      assert forall d :: d in checks <==> d in checks[..|checks| - 1] || d == c;
    }
  }

  /** Only what was submitted as PASS is judged PASS. */
  lemma OthersNotPassed(p: Probe, s: Submission, checks: seq<Check>, evidence: seq<Evidence>)
    requires s.status.Some?
    ensures p.support.Unsupported? ==> JudgeUnsupported(p, s, checks, evidence).status != PASS
    ensures JudgeBlocked(p, s, checks, evidence).status != PASS
    ensures JudgeRest(p, s, checks, evidence).status != PASS
  {
  }

  lemma PassedExactly(p: Probe, s: Submission, checks: seq<Check>, evidence: seq<Evidence>)
    requires JudgePass(p, s, checks, evidence).status == PASS
    ensures JudgePass(p, s, checks, evidence) == Full(p, Some(s), PASS, None, checks, evidence)
    ensures checks != [] && MissingContexts(p.contexts, checks) == []
  {
  }

  lemma PassJudged(p: Probe, s: Submission, checks: seq<Check>, evidence: seq<Evidence>)
    requires s.status.Some? && Judge(p, s, checks, evidence).status == PASS
    ensures Judge(p, s, checks, evidence) == Full(p, Some(s), PASS, None, checks, evidence)
    ensures p.support.Supported? && s.status == Some(PASS) && checks != []
    ensures FirstFailed(checks).None? && MissingContexts(p.contexts, checks) == []
  {
    OthersNotPassed(p, s, checks, evidence);
    assert FirstFailed(checks).None? && p.support.Supported? && s.status == Some(PASS);
    PassedExactly(p, s, checks, evidence);
  }

  /** A PASS row belongs to a supported probe, was submitted as PASS without a timeout, and every
      declared context has a check; every check passed and cites evidence of its own context,
      of the probe's kind, for this probe, bound to this very run on every key. */
  lemma PassMeansEvidence(p: Probe, submitted: Option<Submission>, binding: Binding, m: Manifest)
    requires Normalize(p, submitted, binding, m).status == PASS
    ensures var r := Normalize(p, submitted, binding, m);
            && p.support.Supported? && submitted.Some? && submitted.value.status == Some(PASS) && !r.timedOut
            && r.reason.None? && r.blocker.None? && r.checks != []
            && (forall x <- p.contexts :: exists c :: c in r.checks && c.context == x)
            && (forall c <- r.checks :: c.passed && Evidenced(c, p, r.evidence, binding))
            && (forall e <- r.evidence :: e.probeId == p.id && e.binding == binding)
  {
    var s := submitted.value;
    var evidence, checks := OrElse(s.evidence, []), OrElse(s.checks, []);
    PassJudged(p, s, checks, evidence);
    ChecksSound(checks, p, evidence, binding, m);
    EvidenceSound(evidence, p, binding, m);
  }

  // ---------- the order of submissions ----------

  lemma {:induction false} ByIdMember(results: seq<Submission>, id: Text)
    ensures ById(results, id).Some? <==> exists s :: s in results && s.id == id
    ensures ById(results, id).Some? ==> ById(results, id).value in results && ById(results, id).value.id == id
  {
    if results != [] {
      ByIdMember(results[1..], id);
      assert forall s :: s in results <==> s == results[0] || s in results[1..];
    }
  }

  lemma DistinctUnique(results: seq<Submission>, s: Submission, t: Submission)
    requires DistinctIds(results) && s in results && t in results && s.id == t.id
    ensures s == t
  {
  }

  /** Rows follow the manifest, whatever the order of the submissions. */
  lemma OrderDoesNotMatter(m: Manifest, binding: Binding, rs: seq<Submission>, ss: seq<Submission>)
    requires multiset(rs) == multiset(ss) && DistinctIds(rs)
    ensures Rows(m.probes, rs, binding, m) == Rows(m.probes, ss, binding, m)
    ensures forall i :: 0 <= i < |m.probes| ==> Rows(m.probes, ss, binding, m)[i].id == m.probes[i].id
  {
    forall s ensures s in rs <==> s in ss {
      assert s in multiset(rs) <==> s in multiset(ss);
    }
    forall id ensures ById(rs, id) == ById(ss, id) {
      ByIdMember(rs, id);
      ByIdMember(ss, id);
      if ById(rs, id).Some? {
        DistinctUnique(rs, ById(rs, id).value, ById(ss, id).value);
      }
    }
    forall i | 0 <= i < |m.probes| ensures Rows(m.probes, ss, binding, m)[i].id == m.probes[i].id {
      StatusFitsSupport(m.probes[i], ById(ss, m.probes[i].id), binding, m);
    }
  }

  // ---------- aggregating the ledger's own rows ----------

  /** A row handed in again. */
  function Resubmit(r: Row): Submission {
    Submission(r.id, Some(r.status), r.reason, if r.timedOut then IsTrue else Omitted, Some(r.checks), Some(r.evidence), r.blocker)
  }

  /** A row that keeps what was submitted with it. */
  predicate Keeps(r: Row, checks: seq<Check>, evidence: seq<Evidence>) {
    (r.checks == checks && r.evidence == evidence) || (r.checks == [] && r.evidence == [])
  }

  lemma FailStaysFail(p: Probe, s: Submission, checks: seq<Check>, evidence: seq<Evidence>)
    requires s.status == Some(FAIL) && s.blocker.None?
    ensures Judge(p, s, checks, evidence).status == FAIL
  {
  }

  lemma JudgeKeeps(p: Probe, s: Submission, checks: seq<Check>, evidence: seq<Evidence>)
    requires s.status.Some?
    ensures Keeps(Judge(p, s, checks, evidence), checks, evidence)
  {
  }

  lemma PassFixpoint(p: Probe, s: Submission, checks: seq<Check>, evidence: seq<Evidence>)
    requires s.status == Some(PASS) && p.support.Supported? && FirstFailed(checks).None?
    requires JudgePass(p, s, checks, evidence).status == PASS
    ensures var r := JudgePass(p, s, checks, evidence); Judge(p, Resubmit(r), r.checks, r.evidence).status == PASS
  {
    var r := JudgePass(p, s, checks, evidence);
    assert r == Full(p, Some(s), PASS, None, checks, evidence);
  }

  lemma BlockedFixpoint(p: Probe, s: Submission, checks: seq<Check>, evidence: seq<Evidence>)
    requires s.status == Some(BLOCKED) && p.support.Supported? && FirstFailed(checks).None?
    requires JudgeBlocked(p, s, checks, evidence).status == BLOCKED
    ensures var r := JudgeBlocked(p, s, checks, evidence); Judge(p, Resubmit(r), r.checks, r.evidence).status == BLOCKED
  {
    var r := JudgeBlocked(p, s, checks, evidence);
    assert r == Full(p, Some(s), BLOCKED, s.reason, checks, evidence);
  }

  lemma JudgeStatus(p: Probe, s: Submission, checks: seq<Check>, evidence: seq<Evidence>)
    requires s.status.Some?
    ensures var r := Judge(p, s, checks, evidence);
            && (r.status != FAIL ==> r.status == s.status.value && FirstFailed(checks).None?)
            && (r.status == UNSUPPORTED ==> p.support.Unsupported?)
            && (r.status in {PASS, BLOCKED, NOTRUN} ==> p.support.Supported?)
  {
  }

  /** A judged row is judged alike again. */
  lemma JudgeFixpoint(p: Probe, s: Submission, checks: seq<Check>, evidence: seq<Evidence>)
    requires s.status.Some?
    ensures var r := Judge(p, s, checks, evidence); Judge(p, Resubmit(r), r.checks, r.evidence).status == r.status
  {
    var r := Judge(p, s, checks, evidence);
    JudgeStatus(p, s, checks, evidence);
    match r.status
    case FAIL => FailStaysFail(p, Resubmit(r), r.checks, r.evidence);
    case PASS => PassFixpoint(p, s, checks, evidence);
    case BLOCKED => BlockedFixpoint(p, s, checks, evidence);
    case NOTRUN => assert r == JudgeRest(p, s, checks, evidence);
    case UNSUPPORTED => assert r == JudgeUnsupported(p, s, checks, evidence);
  }

  /** A row with no reason, or one that is not blank. */
  predicate Reasoned(r: Row) {
    r.reason.Some? ==> ReasonOk(r.reason.value)
  }

  lemma JudgeReasonOk(p: Probe, s: Submission, checks: seq<Check>, evidence: seq<Evidence>)
    requires s.status.Some? && (s.reason.Some? ==> ReasonOk(s.reason.value))
    requires p.support.Unsupported? ==> ReasonOk(p.support.why)
    requires ChecksProblem(checks, p, evidence).None?
    ensures Reasoned(Judge(p, s, checks, evidence))
  {
    var failed := FirstFailed(checks);
    if failed.Some? {
      CheckReasonOk(checks, p, evidence, failed.value);
      var reason := OrElse(failed.value.reason, CheckFailed(failed.value.id));
      assert ReasonOk(reason);
      assert Judge(p, s, checks, evidence) == Full(p, Some(s), FAIL, Some(reason), checks, evidence);
    } else {
      JudgedReasonOk(p, s, checks, evidence);
    }
  }

  lemma JudgedReasonOk(p: Probe, s: Submission, checks: seq<Check>, evidence: seq<Evidence>)
    requires s.status.Some? && (s.reason.Some? ==> ReasonOk(s.reason.value))
    requires p.support.Unsupported? ==> ReasonOk(p.support.why)
    requires FirstFailed(checks).None?
    ensures Reasoned(Judge(p, s, checks, evidence))
  {
    if p.support.Unsupported? {
      assert Reasoned(JudgeUnsupported(p, s, checks, evidence));
    } else {
      assert Reasoned(JudgePass(p, s, checks, evidence));
      assert Reasoned(JudgeRest(p, s, checks, evidence));
      assert Reasoned(JudgeBlocked(p, s, checks, evidence)) by {
        if s.blocker.Some? {
          ReferencesNotGiven(s.blocker.value.evidenceIds, evidence, AtPrerequisite, Prerequisite);
        }
      }
    }
  }

  lemma {:induction false} CheckReasonOk(checks: seq<Check>, p: Probe, refs: seq<Evidence>, c: Check)
    requires ChecksProblem(checks, p, refs).None? && c in checks
    ensures c.reason.Some? ==> ReasonOk(c.reason.value)
  {
    if c != checks[|checks| - 1] {
      CheckReasonOk(checks[..|checks| - 1], p, refs, c);
    }
  }

  /** A problem is one of the ledger's own messages. */
  lemma {:induction false} ProblemsNotGiven(p: Probe, checks: seq<Check>, refs: seq<Evidence>, binding: Binding, m: Manifest)
    ensures EvidenceProblem(refs, p, binding, m).Some? ==> !EvidenceProblem(refs, p, binding, m).value.Given?
    ensures ChecksProblem(checks, p, refs).Some? ==> !ChecksProblem(checks, p, refs).value.Given?
    decreases |checks| + |refs|
  {
    if refs != [] {
      ProblemsNotGiven(p, [], refs[..|refs| - 1], binding, m);
    }
    if checks != [] {
      ProblemsNotGiven(p, checks[..|checks| - 1], refs, binding, m);
      ReferencesNotGiven(checks[|checks| - 1].evidenceIds, refs, In(checks[|checks| - 1].context), p.evidenceKind);
    }
  }

  lemma {:induction false} ReferencesNotGiven(ids: seq<Text>, refs: seq<Evidence>, place: Place, kind: EvidenceKind)
    ensures ReferenceLoop(ids, refs, place, kind).Some? ==> !ReferenceLoop(ids, refs, place, kind).value.Given?
  {
    if ids != [] {
      ReferencesNotGiven(ids[..|ids| - 1], refs, place, kind);
    }
  }

  /** What makes a row come out the same when it is handed in again. */
  ghost predicate Stable(p: Probe, r: Row, binding: Binding, m: Manifest) {
    && (r.timedOut ==> r.status == FAIL)
    && Reasoned(r)
    && EvidenceProblem(r.evidence, p, binding, m).None?
    && ChecksProblem(r.checks, p, r.evidence).None?
    && Judge(p, Resubmit(r), r.checks, r.evidence).status == r.status
  }

  lemma BareStable(p: Probe, s: Option<Submission>, status: Status, reason: Reason, binding: Binding, m: Manifest)
    requires ReasonOk(reason) && (status == FAIL || (s.Some? ==> s.value.timedOut != IsTrue))
    requires status == FAIL || (status == NOTRUN && p.support.Supported?) || (status == UNSUPPORTED && p.support == Unsupported(reason))
    ensures Stable(p, Bare(p, s, status, Some(reason)), binding, m)
  {
  }

  lemma JudgeStable(p: Probe, s: Submission, checks: seq<Check>, evidence: seq<Evidence>, binding: Binding, m: Manifest)
    requires s.status.Some? && s.timedOut != IsTrue && (s.reason.Some? ==> ReasonOk(s.reason.value))
    requires p.support.Unsupported? ==> ReasonOk(p.support.why)
    requires EvidenceProblem(evidence, p, binding, m).None? && ChecksProblem(checks, p, evidence).None?
    ensures Stable(p, Judge(p, s, checks, evidence), binding, m)
  {
    JudgeKeeps(p, s, checks, evidence);
    JudgeFixpoint(p, s, checks, evidence);
    JudgeReasonOk(p, s, checks, evidence);
    JudgeUntimed(p, s, checks, evidence);
  }

  lemma JudgeUntimed(p: Probe, s: Submission, checks: seq<Check>, evidence: seq<Evidence>)
    requires s.status.Some? && s.timedOut != IsTrue
    ensures !Judge(p, s, checks, evidence).timedOut
  {
  }

  lemma NormalizeStable(p: Probe, submitted: Option<Submission>, binding: Binding, m: Manifest)
    requires p.support.Unsupported? ==> ReasonOk(p.support.why)
    ensures Stable(p, Normalize(p, submitted, binding, m), binding, m)
  {
    var r := Normalize(p, submitted, binding, m);
    if submitted.None? || submitted.value.timedOut == IsTrue || submitted.value.timedOut == NotBoolean || submitted.value.status.None?
       || (submitted.value.reason.Some? && !ReasonOk(submitted.value.reason.value)) {
      BareStable(p, submitted, r.status, r.reason.value, binding, m);
    } else {
      var s := submitted.value;
      var evidence, checks := OrElse(s.evidence, []), OrElse(s.checks, []);
      if EvidenceProblem(evidence, p, binding, m).None? && ChecksProblem(checks, p, evidence).None? {
        JudgeStable(p, s, checks, evidence, binding, m);
      } else {
        ProblemsNotGiven(p, checks, evidence, binding, m);
        BareStable(p, submitted, r.status, r.reason.value, binding, m);
      }
    }
  }

  /** Normalising a row again keeps its status. */
  lemma StatusFixpoint(p: Probe, submitted: Option<Submission>, binding: Binding, m: Manifest)
    requires p.support.Unsupported? ==> ReasonOk(p.support.why)
    ensures Normalize(p, Some(Resubmit(Normalize(p, submitted, binding, m))), binding, m).status
            == Normalize(p, submitted, binding, m).status
  {
    NormalizeStable(p, submitted, binding, m);
  }

  function Resubmitted(rows: seq<Row>): seq<Submission> {
    if rows == [] then [] else [Resubmit(rows[0])] + Resubmitted(rows[1..])
  }

  lemma {:induction false} ResubmittedById(rows: seq<Row>, i: nat)
    requires i < |rows| && forall j, k :: 0 <= j < k < |rows| ==> rows[j].id != rows[k].id
    ensures ById(Resubmitted(rows), rows[i].id) == Some(Resubmit(rows[i]))
  {
    if i > 0 {
      ResubmittedById(rows[1..], i - 1);
    }
  }

  lemma {:induction false} SameCounts(rs: seq<Row>, ss: seq<Row>)
    requires |rs| == |ss|
    requires forall i :: 0 <= i < |rs| ==> rs[i].status == ss[i].status && rs[i].required == ss[i].required && rs[i].support == ss[i].support
    ensures Count(rs, IsSupported) == Count(ss, IsSupported) && Count(rs, IsRequired) == Count(ss, IsRequired)
    ensures Count(rs, IsPassed) == Count(ss, IsPassed)
    ensures forall x: Status :: Count(rs, WithStatus(x)) == Count(ss, WithStatus(x))
  {
    if rs != [] {
      SameCounts(rs[..|rs| - 1], ss[..|ss| - 1]);
    }
  }

  /** Aggregating the ledger's own rows reproduces every status, every total and the verdict. */
  lemma ReaggregationIsStable(m: Manifest, results: seq<Submission>, binding: Binding)
    requires WellDeclared(m)
    ensures var rows := Rows(m.probes, results, binding, m);
            var again := Rows(m.probes, Resubmitted(rows), binding, m);
            && (forall i :: 0 <= i < |rows| ==> again[i].status == rows[i].status)
            && (Eligible(again) <==> Eligible(rows))
            && Count(again, IsSupported) == Count(rows, IsSupported) && Count(again, IsRequired) == Count(rows, IsRequired)
            && Count(again, IsPassed) == Count(rows, IsPassed)
            && forall x: Status :: Count(again, WithStatus(x)) == Count(rows, WithStatus(x))
  {
    var rows := Rows(m.probes, results, binding, m);
    var again := Rows(m.probes, Resubmitted(rows), binding, m);
    forall i | 0 <= i < |rows| ensures rows[i].id == m.probes[i].id {
      StatusFitsSupport(m.probes[i], ById(results, m.probes[i].id), binding, m);
    }
    forall i | 0 <= i < |rows|
      ensures again[i].status == rows[i].status && again[i].required == rows[i].required && again[i].support == rows[i].support
    {
      var p := m.probes[i];
      assert p in m.probes;
      ResubmittedById(rows, i);
      StatusFixpoint(p, ById(results, p.id), binding, m);
      StatusFitsSupport(p, ById(results, p.id), binding, m);
      StatusFitsSupport(p, Some(Resubmit(rows[i])), binding, m);
    }
    SameCounts(again, rows);
  }
}
