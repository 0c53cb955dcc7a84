/** The declared probes of a lane, and that nobody can hand in others. */
module Inventory {
  import opened Ledger
  import opened Results

  /** A declaration with the texts and fields that play no part in judging it. */
  datatype Spec = Spec(probe: Probe, name: Text, contract: Text, configFields: seq<Text>)

  /** The two fixed lists, and the reason for having no Chromium hints under Firefox. */
  datatype Probes = Probes(common: seq<Spec>, chromium: seq<Spec>, noHints: Text)

  /** A manifest as handed in. A spec is None where it is no declaration at all. */
  datatype Submitted = Submitted(schemaVersion: Text, manifestVersion: Text, lane: Lane, specs: seq<Option<Spec>>)

  const SCHEMA_VERSION: Text := "1"
  const MANIFEST_VERSION: Text := "fingerprint-acceptance/1"
  const UA_CH: Text := "identity.ua-ch"

  /** laneProblem finds none. */
  predicate LaneOk(lane: Lane) {
    && (lane.hostPlatform == "darwin" || lane.hostPlatform == "win32")
    && (lane.engine == "chromium" || lane.engine == "firefox")
    && (lane.mode == "headed" || lane.mode == "headless")
    && (lane.identityMode == "managed" || lane.identityMode == "native")
  }

  function Adjusted(s: Spec, noHints: Text): Spec {
    if s.probe.id == UA_CH then s.(probe := s.probe.(required := false, support := Unsupported(Given(noHints)))) else s
  }

  function AllAdjusted(specs: seq<Spec>, noHints: Text): (r: seq<Spec>)
    ensures |r| == |specs| && forall i :: 0 <= i < |specs| ==> r[i] == Adjusted(specs[i], noHints)
  {
    if specs == [] then [] else [Adjusted(specs[0], noHints)] + AllAdjusted(specs[1..], noHints)
  }

  /** The declarations of createFingerprintProbeManifest for a lane. */
  function Declared(all: Probes, lane: Lane): seq<Spec> {
    (if lane.engine == "firefox" then AllAdjusted(all.common, all.noHints) else all.common)
    + (if lane.engine == "chromium" then all.chromium else [])
  }

  function ProbesOf(specs: seq<Spec>): (r: seq<Probe>)
    ensures |r| == |specs| && forall i :: 0 <= i < |specs| ==> r[i] == specs[i].probe
  {
    if specs == [] then [] else [specs[0].probe] + ProbesOf(specs[1..])
  }

  function ManifestOf(all: Probes, lane: Lane): Manifest {
    Manifest(SCHEMA_VERSION, MANIFEST_VERSION, lane, ProbesOf(Declared(all, lane)))
  }

  /** The manifest is the declared one of its lane, spec by spec. */
  predicate IsDeclared(all: Probes, m: Submitted) {
    && m.schemaVersion == SCHEMA_VERSION && m.manifestVersion == MANIFEST_VERSION && LaneOk(m.lane)
    && |m.specs| == |Declared(all, m.lane)|
    && forall i :: 0 <= i < |m.specs| ==> m.specs[i] == Some(Declared(all, m.lane)[i])
  }

  /** canonicalManifest; None where the original throws. */
  method CanonicalManifest(all: Probes, m: Submitted) returns (c: Option<Manifest>)
    ensures c == if IsDeclared(all, m) then Some(ManifestOf(all, m.lane)) else None
  {
    if m.schemaVersion != SCHEMA_VERSION || m.manifestVersion != MANIFEST_VERSION || !LaneOk(m.lane) {
      return None;
    }
    var declared := Declared(all, m.lane);
    if |m.specs| != |declared| {
      return None;
    }
    for i := 0 to |declared|
      invariant forall j :: 0 <= j < i ==> m.specs[j] == Some(declared[j])
    {
      if m.specs[i] != Some(declared[i]) {
        return None;
      }
    }
    c := Some(ManifestOf(all, m.lane));
  }

  /** For a lane there is one manifest that is accepted: nothing can be dropped, added, moved or
      redeclared. */
  lemma {:induction false} OneManifestPerLane(all: Probes, m: Submitted, n: Submitted)
    requires IsDeclared(all, m) && IsDeclared(all, n)
    ensures m.lane == n.lane <==> m == n
  {
    if m.lane == n.lane {
      forall i | 0 <= i < |m.specs| ensures m.specs[i] == n.specs[i] {
      }
      assert m.specs == n.specs;
    }
  }

  // ---------- the declared manifests are well declared ----------

  predicate SpecOk(s: Spec) {
    && (s.probe.required <==> s.probe.support.Supported?)
    && (s.probe.support.Unsupported? ==> ReasonOk(s.probe.support.why))
  }

  predicate DistinctProbes(specs: seq<Spec>) {
    forall i, j :: 0 <= i < j < |specs| ==> specs[i].probe.id != specs[j].probe.id
  }

  /** What the two lists have in common: the supported probes are required and the others have
      their reason, no ID occurs twice, and some probe is supported under every engine. */
  predicate ProbesOk(all: Probes) {
    && (forall s <- all.common :: SpecOk(s)) && (forall s <- all.chromium :: SpecOk(s))
    && DistinctProbes(all.common + all.chromium)
    && (exists s <- all.common :: s.probe.support.Supported? && s.probe.id != UA_CH)
    && HasText(all.noHints)
  }

  lemma {:induction false} AdjustedOk(specs: seq<Spec>, noHints: Text)
    requires (forall s <- specs :: SpecOk(s)) && HasText(noHints)
    ensures forall s <- AllAdjusted(specs, noHints) :: SpecOk(s)
  {
    var r := AllAdjusted(specs, noHints);
    forall i | 0 <= i < |r| ensures SpecOk(r[i]) {
      assert specs[i] in specs;
    }
  }

  lemma {:induction false} DeclaredDistinct(all: Probes, lane: Lane)
    requires DistinctProbes(all.common + all.chromium)
    ensures DistinctProbes(Declared(all, lane))
  {
    var whole, r := all.common + all.chromium, Declared(all, lane);
    forall i, j | 0 <= i < j < |r| ensures r[i].probe.id != r[j].probe.id {
      assert r[i].probe.id == whole[i].probe.id && r[j].probe.id == whole[j].probe.id;
    }
  }

  lemma {:induction false} SomeSupported(all: Probes, lane: Lane)
    requires ProbesOk(all)
    ensures exists s :: s in Declared(all, lane) && s.probe.support.Supported?
  {
    var s :| s in all.common && s.probe.support.Supported? && s.probe.id != UA_CH;
    var i :| 0 <= i < |all.common| && all.common[i] == s;
    assert Declared(all, lane)[i] == s;
  }

  lemma {:induction false} SpecsWellDeclared(m: Manifest, specs: seq<Spec>)
    requires m.probes == ProbesOf(specs) && (forall s <- specs :: SpecOk(s)) && DistinctProbes(specs)
    requires exists s :: s in specs && s.probe.support.Supported?
    ensures WellDeclared(m)
  {
    var ps := m.probes;
    forall i | 0 <= i < |ps| ensures SpecOk(specs[i]) && ps[i] == specs[i].probe {
      assert specs[i] in specs;
    }
    var s :| s in specs && s.probe.support.Supported?;
    var k :| 0 <= k < |specs| && specs[k] == s;
    assert ps[k] in ps;
    forall p <- ps ensures (p.required <==> p.support.Supported?) && (p.support.Unsupported? ==> ReasonOk(p.support.why)) {
      var i :| 0 <= i < |ps| && ps[i] == p;
    }
  }

  /** So the ledger's guarantees hold of the declared manifest of every lane. */
  lemma {:induction false} ManifestWellDeclared(all: Probes, lane: Lane)
    requires ProbesOk(all)
    ensures WellDeclared(ManifestOf(all, lane))
  {
    AdjustedOk(all.common, all.noHints);
    DeclaredDistinct(all, lane);
    SomeSupported(all, lane);
    SpecsWellDeclared(ManifestOf(all, lane), Declared(all, lane));
  }

  // ---------- the whole aggregation ----------

  /** One row for every declared probe, in their order, and eligible exactly if every supported
      probe passed and every unsupported one is recorded as that. */
  predicate Summarises(s: Summary, declared: seq<Spec>) {
    && |s.rows| == |declared| == s.totals.total
    && (forall i :: 0 <= i < |s.rows| ==> Fits(s.rows[i], declared[i].probe))
    && (s.eligible <==> forall i :: 0 <= i < |s.rows| ==>
          s.rows[i].status == if declared[i].probe.support.Supported? then PASS else UNSUPPORTED)
  }

  /** aggregateFingerprintAcceptance. A summary is made of the declared manifest of the lane alone,
      whatever is handed in, and summarises its probes. */
  method AggregateSubmitted(all: Probes, m: Submitted, binding: Binding, results: seq<Submission>) returns (summary: Option<Summary>)
    requires ProbesOk(all)
    ensures summary.Some? <==> IsDeclared(all, m) && Admissible(ManifestOf(all, m.lane), binding, results)
    ensures summary.Some? ==> Summarises(summary.value, Declared(all, m.lane))
  {
    var c := CanonicalManifest(all, m);
    if c.None? {
      return None;
    }
    ManifestWellDeclared(all, m.lane);
    summary := AggregateDeclared(c.value, Declared(all, m.lane), binding, results);
  }

  method AggregateDeclared(m: Manifest, ghost declared: seq<Spec>, binding: Binding, results: seq<Submission>) returns (summary: Option<Summary>)
    requires WellDeclared(m) && m.probes == ProbesOf(declared)
    ensures summary.Some? <==> Admissible(m, binding, results)
    ensures summary.Some? ==> Summarises(summary.value, declared)
  {
    summary := Aggregate(m, binding, results);
    DeclaredVerdict(m, declared, binding, results);
  }

  lemma {:induction false} DeclaredVerdict(m: Manifest, declared: seq<Spec>, binding: Binding, results: seq<Submission>)
    requires WellDeclared(m) && m.probes == ProbesOf(declared)
    ensures var rows := Rows(m.probes, results, binding, m);
            && |rows| == |declared|
            && (forall i :: 0 <= i < |rows| ==> Fits(rows[i], declared[i].probe))
            && (Eligible(rows) <==> forall i :: 0 <= i < |rows| ==>
                  rows[i].status == if declared[i].probe.support.Supported? then PASS else UNSUPPORTED)
  {
    var rows := Rows(m.probes, results, binding, m);
    forall i | 0 <= i < |rows| ensures Fits(rows[i], declared[i].probe) {
      StatusFitsSupport(m.probes[i], ById(results, m.probes[i].id), binding, m);
    }
    EligibleExactly(m, results, binding);
    forall i | 0 <= i < |rows|
      ensures AsDeclared(rows[i]) <==> rows[i].status == if declared[i].probe.support.Supported? then PASS else UNSUPPORTED
    {
      assert Fits(rows[i], declared[i].probe);
    }
    if forall i :: 0 <= i < |rows| ==> AsDeclared(rows[i]) {
      assert forall r <- rows :: AsDeclared(r);
    }
    if forall r <- rows :: AsDeclared(r) {
      assert forall i :: 0 <= i < |rows| ==> rows[i] in rows;
    }
  }
}
