/** The teardown protocol of a tunnel: n workers each report once on a channel of capacity n;
    on the first report the handler releases the others, collects the rest and returns.
    A CONNECT-UDP flow has four workers and four release actions, a TCP tunnel two and three.
    A worker blocked in a write to a peer that reads nothing is taken to be released by the
    action that releases it from a read. */
module Teardown {

  datatype Worker = Running | Stopped | Reported

  datatype Handler = AwaitFirst | Releasing(action: nat) | Collecting | Returned

  /** How many workers and release actions there are, and which action unblocks each worker. */
  datatype Plan = Plan(workers: nat, actions: nat, releasedBy: seq<nat>)

  predicate ValidPlan(p: Plan) {
    p.workers > 0 && p.actions > 0 && |p.releasedBy| == p.workers && forall a <- p.releasedBy :: a < p.actions
  }

  /** cancel, association.Close, stream.CancelRead, stream.Close; the workers are the datagram
      relay, the packet relay, the capsule reader and the control watcher. */
  const UDP_FLOW := Plan(4, 4, [0, 1, 2, 1])

  /** upstream.Close, stream.CancelRead, stream.Close; the workers are the two copy loops. */
  const TCP_TUNNEL := Plan(2, 3, [1, 0])

  /** channel and received list workers by number. */
  datatype Flow = Flow(workers: seq<Worker>, channel: seq<nat>, received: seq<nat>, handler: Handler)

  function Start(p: Plan): Flow {
    Flow(seq(p.workers, i => Running), [], [], AwaitFirst)
  }

  // ---------- steps ----------

  predicate StopStep(s: Flow, t: Flow, i: nat) {
    i < |s.workers| && s.workers[i].Running? && t == s.(workers := s.workers[i := Stopped])
  }

  predicate SendStep(p: Plan, s: Flow, t: Flow, i: nat) {
    i < |s.workers| && s.workers[i].Stopped? && |s.channel| < p.workers
    && t == s.(workers := s.workers[i := Reported], channel := s.channel + [i])
  }

  predicate ReceiveStep(p: Plan, s: Flow, t: Flow) {
    s.channel != []
    && (s.handler.AwaitFirst? || (s.handler.Collecting? && |s.received| < p.workers))
    && t == Flow(s.workers, s.channel[1..], s.received + [s.channel[0]],
                 if s.handler.AwaitFirst? then Releasing(0) else Collecting)
  }

  predicate ReleaseStep(p: Plan, s: Flow, t: Flow) {
    s.handler.Releasing?
    && t == s.(handler := if s.handler.action + 1 < p.actions then Releasing(s.handler.action + 1) else Collecting)
  }

  predicate ReturnStep(p: Plan, s: Flow, t: Flow) {
    s.handler.Collecting? && |s.received| == p.workers && t == s.(handler := Returned)
  }

  ghost predicate Next(p: Plan, s: Flow, t: Flow) {
    || (exists i :: StopStep(s, t, i))
    || (exists i :: SendStep(p, s, t, i))
    || ReceiveStep(p, s, t) || ReleaseStep(p, s, t) || ReturnStep(p, s, t)
  }

  ghost predicate IsRun(p: Plan, run: seq<Flow>) {
    run != [] && run[0] == Start(p) && forall i :: 0 <= i < |run| - 1 ==> Next(p, run[i], run[i + 1])
  }

  // ---------- the invariant ----------

  ghost predicate Distinct(s: seq<nat>) {
    forall i, j :: 0 <= i < j < |s| ==> s[i] != s[j]
  }

  ghost predicate Inv(p: Plan, s: Flow) {
    && ValidPlan(p)
    && |s.workers| == p.workers
    && Distinct(s.received + s.channel)
    && (forall i :: i in s.received + s.channel <==> 0 <= i < p.workers && s.workers[i].Reported?)
    && match s.handler
       case AwaitFirst => s.received == []
       case Releasing(a) => |s.received| == 1 && a < p.actions
       case Collecting => 1 <= |s.received| <= p.workers
       case Returned => |s.received| == p.workers
  }

  lemma StepKeepsInv(p: Plan, s: Flow, t: Flow)
    requires Inv(p, s) && Next(p, s, t)
    ensures Inv(p, t)
  {
    if i :| StopStep(s, t, i) {
    } else if i :| SendStep(p, s, t, i) {
      assert t.received + t.channel == (s.received + s.channel) + [i];
    } else if ReceiveStep(p, s, t) {
      assert t.received + t.channel == s.received + s.channel;
    }
  }

  lemma {:induction false} RunKeepsInv(p: Plan, run: seq<Flow>, k: nat)
    requires ValidPlan(p) && IsRun(p, run) && k < |run|
    ensures Inv(p, run[k])
  {
    if k > 0 {
      RunKeepsInv(p, run, k - 1);
      StepKeepsInv(p, run[k - 1], run[k]);
    }
  }

  // ---------- counting ----------

  lemma {:induction false} DistinctBelow(s: seq<nat>, n: nat)
    requires Distinct(s) && forall i <- s :: i < n
    ensures |s| <= n
    decreases n
  {
    assert s != [] ==> s[0] in s;
    if n == 0 {
    } else if n - 1 in s {
      var k :| 0 <= k < |s| && s[k] == n - 1;
      var rest := s[..k] + s[k + 1..];
      forall i | 0 <= i < |rest| ensures rest[i] < n - 1 {
        assert rest[i] == s[if i < k then i else i + 1] && rest[i] in s;
      }
      DistinctBelow(rest, n - 1);
    } else {
      DistinctBelow(s, n - 1);
    }
  }

  lemma {:induction false} AllBelow(s: seq<nat>, n: nat)
    requires forall i :: 0 <= i < n ==> i in s
    ensures n <= |s|
    decreases n
  {
    if n > 0 {
      assert n - 1 in s;
      var k :| 0 <= k < |s| && s[k] == n - 1;
      var rest := s[..k] + s[k + 1..];
      forall i | 0 <= i < n - 1 ensures i in rest {
        assert i in s;
        var j :| 0 <= j < |s| && s[j] == i;
        assert rest[if j < k then j else j - 1] == i;
      }
      AllBelow(rest, n - 1);
    }
  }

  // ---------- safety ----------

  /** A worker that has stopped can always report at once: the channel never blocks it. */
  lemma SendNeverBlocks(p: Plan, s: Flow, i: nat)
    requires Inv(p, s) && i < p.workers && s.workers[i].Stopped?
    ensures |s.channel| < p.workers
    ensures exists t :: SendStep(p, s, t, i)
  {
    var all := s.received + s.channel + [i];
    assert i !in s.received + s.channel;
    assert forall k <- all :: k < p.workers;
    DistinctBelow(all, p.workers);
    assert SendStep(p, s, s.(workers := s.workers[i := Reported], channel := s.channel + [i]), i);
  }

  /** When the handler has returned, it has had exactly one report from every worker, every
      worker has finished and nothing is left in the channel. */
  lemma ReturnedMeansAllDone(p: Plan, s: Flow)
    requires Inv(p, s) && s.handler.Returned?
    ensures s.channel == [] && |s.received| == p.workers && Distinct(s.received)
    ensures forall i :: 0 <= i < p.workers ==> s.workers[i].Reported? && i in s.received
  {
    var all := s.received + s.channel;
    forall i <- all ensures i < p.workers {}
    DistinctBelow(all, p.workers);
    forall i, j | 0 <= i < j < |s.received| ensures s.received[i] != s.received[j] {
      assert all[i] != all[j];
    }
    forall i | 0 <= i < p.workers ensures i in s.received {
      if i !in s.received {
        var more := s.received + [i];
        forall k <- s.received ensures k < p.workers { assert k in all; }
        DistinctBelow(more, p.workers);
      }
      assert i in all;
    }
  }

  // ---------- progress ----------

  /** How many of the release actions have been taken. */
  function Taken(p: Plan, s: Flow): nat {
    match s.handler
    case AwaitFirst => 0
    case Releasing(a) => a
    case _ => p.actions
  }

  /** The release action that unblocks worker i has been taken. */
  predicate Released(p: Plan, s: Flow, i: nat)
    requires i < |p.releasedBy|
  {
    p.releasedBy[i] < Taken(p, s)
  }

  /** A step that does not depend on the outside world: a worker may stop of its own accord at
      any time, but is sure to stop only once released. */
  ghost predicate SureStep(p: Plan, s: Flow, t: Flow)
    requires ValidPlan(p)
  {
    || (exists i :: 0 <= i < p.workers && StopStep(s, t, i) && Released(p, s, i))
    || (exists i :: SendStep(p, s, t, i))
    || ReceiveStep(p, s, t) || ReleaseStep(p, s, t) || ReturnStep(p, s, t)
  }

  function WorkerRank(ws: seq<Worker>): nat {
    if ws == [] then 0
    else WorkerRank(ws[..|ws| - 1]) + match ws[|ws| - 1] case Running => 2 case Stopped => 1 case Reported => 0
  }

  function Rank(p: Plan, s: Flow): int {
    WorkerRank(s.workers) + (p.workers - |s.received|)
    + match s.handler
      case AwaitFirst => p.actions + 2
      case Releasing(a) => p.actions - a + 1
      case Collecting => 1
      case Returned => 0
  }

  lemma {:induction false} WorkerRankDrops(ws: seq<Worker>, i: nat, w: Worker)
    requires i < |ws|
    requires (ws[i].Running? && w.Stopped?) || (ws[i].Stopped? && w.Reported?)
    ensures WorkerRank(ws[i := w]) == WorkerRank(ws) - 1
  {
    var n := |ws| - 1;
    if i < n {
      assert ws[i := w][..n] == ws[..n][i := w];
      WorkerRankDrops(ws[..n], i, w);
    } else {
      assert ws[i := w][..n] == ws[..n];
    }
  }

  /** Every step of every kind lowers the rank, which is never negative. */
  lemma StepLowersRank(p: Plan, s: Flow, t: Flow)
    requires Inv(p, s) && Next(p, s, t)
    ensures 0 <= Rank(p, t) < Rank(p, s)
  {
    StepKeepsInv(p, s, t);
    if i :| StopStep(s, t, i) {
      WorkerRankDrops(s.workers, i, Stopped);
    } else if i :| SendStep(p, s, t, i) {
      WorkerRankDrops(s.workers, i, Reported);
    }
  }

  /** Once any worker has stopped, the flow has a sure step until the handler returns. */
  lemma SureStepExists(p: Plan, s: Flow)
    requires Inv(p, s) && !s.handler.Returned?
    requires exists i :: 0 <= i < p.workers && !s.workers[i].Running?
    ensures exists t :: SureStep(p, s, t)
  {
    if i :| 0 <= i < p.workers && s.workers[i].Stopped? {
      SendNeverBlocks(p, s, i);
      var t :| SendStep(p, s, t, i);
      assert SureStep(p, s, t);
    } else if s.handler.Releasing? {
      var t := s.(handler := if s.handler.action + 1 < p.actions then Releasing(s.handler.action + 1) else Collecting);
      assert SureStep(p, s, t);
    } else if s.handler.Collecting? && |s.received| == p.workers {
      assert SureStep(p, s, s.(handler := Returned));
    } else if s.channel != [] {
      var t := Flow(s.workers, s.channel[1..], s.received + [s.channel[0]], if s.handler.AwaitFirst? then Releasing(0) else Collecting);
      assert ReceiveStep(p, s, t);
      assert SureStep(p, s, t);
    } else {
      assert s.received + s.channel == s.received;
      assert s.handler.Collecting?;
      if forall i :: 0 <= i < p.workers ==> s.workers[i].Reported? {
        AllBelow(s.received, p.workers);
      }
      var i :| 0 <= i < p.workers && s.workers[i].Running?;
      var t := s.(workers := s.workers[i := Stopped]);
      assert p.releasedBy[i] in p.releasedBy;
      assert StopStep(s, t, i) && Released(p, s, i);
      assert SureStep(p, s, t);
    }
  }

  lemma {:induction false} RunLowersRank(p: Plan, run: seq<Flow>, k: nat)
    requires ValidPlan(p) && IsRun(p, run) && k < |run|
    ensures Rank(p, run[k]) + k <= Rank(p, run[0])
  {
    if k > 0 {
      RunLowersRank(p, run, k - 1);
      RunKeepsInv(p, run, k - 1);
      StepLowersRank(p, run[k - 1], run[k]);
    }
  }

  lemma {:induction false} StartRank(ws: seq<Worker>)
    requires forall w <- ws :: w.Running?
    ensures WorkerRank(ws) == 2 * |ws|
  {
    if ws != [] {
      StartRank(ws[..|ws| - 1]);
    }
  }

  ghost predicate GoesOnOrIsDone(p: Plan, s: Flow) {
    && ValidPlan(p) && |s.workers| == p.workers
    && (|| s.handler.Returned?
        || (forall i :: 0 <= i < p.workers ==> s.workers[i].Running?)
        || exists t :: SureStep(p, s, t))
    && (s.handler.Returned? ==>
          && s.channel == [] && |s.received| == p.workers && Distinct(s.received)
          && forall i :: 0 <= i < p.workers ==> s.workers[i].Reported? && i in s.received)
  }

  /** The protocol, for every interleaving: a run has at most 3n + actions + 2 steps; as long
      as some worker has stopped it can go on until the handler returns; and when it has
      returned, every worker has reported exactly once. */
  lemma EveryRunTearsDown(p: Plan, run: seq<Flow>)
    requires ValidPlan(p) && IsRun(p, run)
    ensures |run| - 1 <= 3 * p.workers + p.actions + 2
    ensures GoesOnOrIsDone(p, run[|run| - 1])
  {
    var k := |run| - 1;
    RunKeepsInv(p, run, k);
    RunLowersRank(p, run, k);
    StartRank(run[0].workers);
    RankNotNegative(p, run[k]);
    if run[k].handler.Returned? {
      ReturnedMeansAllDone(p, run[k]);
    } else if exists i :: 0 <= i < p.workers && !run[k].workers[i].Running? {
      SureStepExists(p, run[k]);
    }
  }

  lemma RankNotNegative(p: Plan, s: Flow)
    requires Inv(p, s)
    ensures Rank(p, s) >= 0
  {
  }

  /** Both kinds of flow follow a valid plan: a CONNECT-UDP flow is torn down within eighteen
      steps and a TCP tunnel within eleven. */
  lemma BothFlowsTearDown(run: seq<Flow>)
    ensures ValidPlan(UDP_FLOW) && ValidPlan(TCP_TUNNEL)
    ensures IsRun(UDP_FLOW, run) ==> |run| - 1 <= 18 && GoesOnOrIsDone(UDP_FLOW, run[|run| - 1])
    ensures IsRun(TCP_TUNNEL, run) ==> |run| - 1 <= 11 && GoesOnOrIsDone(TCP_TUNNEL, run[|run| - 1])
  {
    if IsRun(UDP_FLOW, run) {
      EveryRunTearsDown(UDP_FLOW, run);
    }
    if IsRun(TCP_TUNNEL, run) {
      EveryRunTearsDown(TCP_TUNNEL, run);
    }
  }
}
