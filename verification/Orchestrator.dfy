/** The asset orchestrator: dependencies run first, an unchanged asset is skipped by
    the hash of its inputs, and a failing computation is retried a bounded number of
    times. Every attempt and every skip leaves a row in the run log. */
module Orchestrator {
  import opened Collections

  type Json = map<string, string>

  /** What a computation sees: the caller's context and the outputs of its dependencies. */
  datatype Context = Context(base: Json, dependencies: map<string, Json>)

  /** The material of the change hash, which stands for the hash itself: the hash is
      taken to be injective. */
  datatype Hash = Hash(asset: string, partition: Option<string>, watermark: Json, context: Context)

  datatype Asset = Asset(dependencies: seq<string>, maxAttempts: int)
  datatype Status = Running | Succeeded | Failed | Skipped
  datatype Run = Run(organization: nat, asset: string, partition: Option<string>, status: Status, attempt: int,
                     watermark: Json, hash: Hash, backfill: Option<nat>, metadata: Json, failure: Option<string>,
                     prior: Option<nat>)
  datatype Attempt = Returns(output: Json) | Raises(code: string)
  datatype Error = NotRegistered | AssetFailed
  datatype Outcome = Outcome(asset: string, status: Status, hash: Hash, output: Json, watermark: Json)
  datatype Result = Ok(outcome: Outcome) | Err(error: Error)
  datatype Gathered = Outputs(outputs: map<string, Json>) | Stopped(error: Error)

  /** The arguments that a call passes down unchanged to its dependencies. */
  datatype Call = Call(organization: nat, partition: Option<string>, base: Json, watermark: Json, backfill: Option<nat>)

  /** The registered assets, and what each computation does when called with a context
      while the log has a given length. */
  datatype System = System(assets: map<string, Asset>, compute: (string, Context, nat) -> Attempt)

  const ALLOWED_METADATA := {"row_count", "checksum_sha256", "snapshot_id", "profile_id", "validation_issue_count", "export_snapshot_id"}

  function SafeMetadata(output: Json): Json {
    map k | k in output && k in ALLOWED_METADATA :: output[k]
  }

  /** Every registered dependency of an asset has a smaller rank. */
  ghost predicate Acyclic(sys: System, rank: map<string, nat>) {
    && sys.assets.Keys <= rank.Keys
    && forall a, i :: a in sys.assets && 0 <= i < |sys.assets[a].dependencies| && sys.assets[a].dependencies[i] in sys.assets ==>
         rank[sys.assets[a].dependencies[i]] < rank[a]
  }

  ghost function RankOf(sys: System, rank: map<string, nat>, a: string): nat {
    if a in sys.assets && a in rank then 1 + rank[a] else 0
  }

  predicate Prior(r: Run, call: Call, hash: Hash) {
    r.organization == call.organization && r.asset == hash.asset && r.partition == call.partition
    && r.hash == hash && r.status == Succeeded
  }

  /** The newest successful run with the same hash. */
  function FindPrior(log: seq<Run>, call: Call, hash: Hash): (i: int)
    ensures i == -1 || (0 <= i < |log| && Prior(log[i], call, hash))
    ensures forall j {:trigger log[j]} :: i < j < |log| ==> !Prior(log[j], call, hash)
  {
    if log == [] then -1
    else if Prior(log[|log| - 1], call, hash) then |log| - 1
    else FindPrior(log[..|log| - 1], call, hash)
  }

  function NewRun(call: Call, hash: Hash, status: Status, attempt: int, metadata: Json, failure: Option<string>): Run {
    Run(call.organization, hash.asset, call.partition, status, attempt, call.watermark, hash, call.backfill, metadata, failure, None)
  }

  /** The row of a skip; it names the run it relies on. */
  function SkippedRun(call: Call, hash: Hash, prior: nat): Run {
    Run(call.organization, hash.asset, call.partition, Skipped, 1, call.watermark, hash, None, map[], None, Some(prior))
  }

  function HashOf(call: Call, a: string, outputs: map<string, Json>): Hash {
    Hash(a, call.partition, call.watermark, Context(call.base, outputs))
  }

  /** Attempts `k .. maxAttempts`. */
  function Attempts(sys: System, call: Call, hash: Hash, maxAttempts: int, log: seq<Run>, k: nat): (r: (seq<Run>, Result))
    ensures |log| <= |r.0| && r.0[..|log|] == log
    decreases maxAttempts + 1 - k
  {
    if k > maxAttempts then (log, Err(AssetFailed))
    else
      match sys.compute(hash.asset, hash.context, |log|)
      case Returns(output) =>
        (log + [NewRun(call, hash, Succeeded, k, SafeMetadata(output), None)],
         Ok(Outcome(hash.asset, Succeeded, hash, output, call.watermark)))
      case Raises(code) =>
        var more := log + [NewRun(call, hash, Failed, k, map[], Some(code))];
        assert more[..|log|] == log;
        var r := Attempts(sys, call, hash, maxAttempts, more, k + 1);
        assert r.0[..|log|] == r.0[..|more|][..|log|];
        r
  }

  /** An asset whose dependencies are done: skip it if unchanged, else compute it. */
  function RunSelf(sys: System, call: Call, a: string, outputs: map<string, Json>, log: seq<Run>): (r: (seq<Run>, Result))
    requires a in sys.assets
    ensures |log| <= |r.0| && r.0[..|log|] == log
  {
    var hash := HashOf(call, a, outputs);
    var i := FindPrior(log, call, hash);
    if i >= 0 && call.backfill.None? then
      (log + [SkippedRun(call, hash, i)],
       Ok(Outcome(a, Skipped, hash, log[i].metadata, log[i].watermark)))
    else
      Attempts(sys, call, hash, sys.assets[a].maxAttempts, log, 1)
  }

  /** A whole call: first every dependency, then the asset. */
  ghost function RunAsset(sys: System, rank: map<string, nat>, call: Call, a: string, log: seq<Run>): (r: (seq<Run>, Result))
    requires Acyclic(sys, rank)
    ensures |log| <= |r.0| && r.0[..|log|] == log
    decreases RankOf(sys, rank, a), 1, 0
  {
    if a !in sys.assets then (log, Err(NotRegistered))
    else
      var g := RunDependencies(sys, rank, call, a, log, |sys.assets[a].dependencies|);
      match g.1
      case Stopped(e) => (g.0, Err(e))
      case Outputs(outputs) =>
        var r := RunSelf(sys, call, a, outputs, g.0);
        assert r.0[..|log|] == r.0[..|g.0|][..|log|];
        r
  }

  /** The first `n` dependencies of `a`, in order. */
  ghost function RunDependencies(sys: System, rank: map<string, nat>, call: Call, a: string, log: seq<Run>, n: nat): (g: (seq<Run>, Gathered))
    requires Acyclic(sys, rank) && a in sys.assets && n <= |sys.assets[a].dependencies|
    ensures |log| <= |g.0| && g.0[..|log|] == log
    decreases RankOf(sys, rank, a), 0, n
  {
    if n == 0 then (log, Outputs(map[]))
    else
      var g := RunDependencies(sys, rank, call, a, log, n - 1);
      if g.1.Stopped? then g
      else
        var d := sys.assets[a].dependencies[n - 1];
        var r := RunAsset(sys, rank, call, d, g.0);
        assert r.0[..|log|] == r.0[..|g.0|][..|log|];
        match r.1
        case Err(e) => (r.0, Stopped(e))
        case Ok(outcome) => (r.0, Outputs(g.1.outputs[d := outcome.output]))
  }

  // ----- What every row of a call is like -----

  /** A row agrees with its own hash, has ended, and stores only allowed metadata. */
  predicate Sound(r: Run) {
    && r.hash.asset == r.asset && r.hash.partition == r.partition && r.hash.watermark == r.watermark
    && r.status != Running && SafeMetadata(r.metadata) == r.metadata
  }

  ghost predicate SoundLog(log: seq<Run>) {
    forall i {:trigger Sound(log[i])} :: 0 <= i < |log| ==> Sound(log[i])
  }

  /** A row that a call may add after `before`. It carries the backfill of the call. Without
      one, a success is only recorded when there was none with the same hash, and a skip
      names the newest such success; a backfill never skips. */
  ghost predicate Legit(call: Call, before: seq<Run>, r: Run) {
    && r.organization == call.organization && r.partition == call.partition && Sound(r)
    && r.backfill == call.backfill
    && (r.status == Succeeded && call.backfill.None? ==> FindPrior(before, call, r.hash) == -1)
    && (if r.status == Skipped
        then call.backfill.None? && r.attempt == 1 && FindPrior(before, call, r.hash) >= 0 && r.prior == Some(FindPrior(before, call, r.hash))
        else r.prior.None?)
  }

  ghost predicate AllLegit(call: Call, log: seq<Run>, later: seq<Run>) {
    && |log| <= |later| && later[..|log|] == log
    && forall i {:trigger Legit(call, later[..i], later[i])} :: |log| <= i < |later| ==> Legit(call, later[..i], later[i])
  }

  lemma LegitAppend(call: Call, log: seq<Run>, r: Run)
    requires Legit(call, log, r)
    ensures AllLegit(call, log, log + [r])
  {
    var later := log + [r];
    assert later[..|log|] == log;
  }

  lemma LegitTrans(call: Call, a: seq<Run>, b: seq<Run>, c: seq<Run>)
    requires AllLegit(call, a, b) && AllLegit(call, b, c)
    ensures AllLegit(call, a, c)
  {
    assert c[..|a|] == c[..|b|][..|a|];
    forall i {:trigger Legit(call, c[..i], c[i])} | |a| <= i < |c| ensures Legit(call, c[..i], c[i]) {
      if i < |b| {
        assert c[..i] == c[..|b|][..i] == b[..i] && c[i] == c[..|b|][i] == b[i];
        assert Legit(call, b[..i], b[i]);
      }
    }
  }

  lemma SafeIdempotent(output: Json)
    ensures SafeMetadata(SafeMetadata(output)) == SafeMetadata(output)
  {
  }

  lemma FindPriorAppend(log: seq<Run>, r: Run, call: Call, hash: Hash)
    ensures FindPrior(log + [r], call, hash) == if Prior(r, call, hash) then |log| else FindPrior(log, call, hash)
  {
    assert (log + [r])[..|log|] == log;
  }

  lemma {:induction false} AttemptsLegit(sys: System, call: Call, hash: Hash, maxAttempts: int, log: seq<Run>, k: nat)
    requires hash.partition == call.partition && hash.watermark == call.watermark
    requires call.backfill.None? ==> FindPrior(log, call, hash) == -1
    ensures AllLegit(call, log, Attempts(sys, call, hash, maxAttempts, log, k).0)
    decreases maxAttempts + 1 - k
  {
    if k <= maxAttempts {
      match sys.compute(hash.asset, hash.context, |log|)
      case Returns(output) =>
        SafeIdempotent(output);
        LegitAppend(call, log, NewRun(call, hash, Succeeded, k, SafeMetadata(output), None));
      case Raises(code) =>
        var r := NewRun(call, hash, Failed, k, map[], Some(code));
        LegitAppend(call, log, r);
        FindPriorAppend(log, r, call, hash);
        AttemptsLegit(sys, call, hash, maxAttempts, log + [r], k + 1);
        LegitTrans(call, log, log + [r], Attempts(sys, call, hash, maxAttempts, log + [r], k + 1).0);
    }
  }

  lemma SelfLegit(sys: System, call: Call, a: string, outputs: map<string, Json>, log: seq<Run>)
    requires a in sys.assets
    ensures AllLegit(call, log, RunSelf(sys, call, a, outputs, log).0)
  {
    var hash := HashOf(call, a, outputs);
    var i := FindPrior(log, call, hash);
    if i >= 0 && call.backfill.None? {
      LegitAppend(call, log, SkippedRun(call, hash, i));
    } else {
      AttemptsLegit(sys, call, hash, sys.assets[a].maxAttempts, log, 1);
    }
  }

  lemma {:induction false} RunLegit(sys: System, rank: map<string, nat>, call: Call, a: string, log: seq<Run>)
    requires Acyclic(sys, rank)
    ensures AllLegit(call, log, RunAsset(sys, rank, call, a, log).0)
    decreases RankOf(sys, rank, a), 1, 0
  {
    if a in sys.assets {
      var n := |sys.assets[a].dependencies|;
      DependenciesLegit(sys, rank, call, a, log, n);
      var g := RunDependencies(sys, rank, call, a, log, n);
      if g.1.Outputs? {
        SelfLegit(sys, call, a, g.1.outputs, g.0);
        LegitTrans(call, log, g.0, RunSelf(sys, call, a, g.1.outputs, g.0).0);
      }
    }
  }

  lemma {:induction false} DependenciesLegit(sys: System, rank: map<string, nat>, call: Call, a: string, log: seq<Run>, n: nat)
    requires Acyclic(sys, rank) && a in sys.assets && n <= |sys.assets[a].dependencies|
    ensures AllLegit(call, log, RunDependencies(sys, rank, call, a, log, n).0)
    decreases RankOf(sys, rank, a), 0, n
  {
    if n == 0 {
    } else {
      DependenciesLegit(sys, rank, call, a, log, n - 1);
      var g := RunDependencies(sys, rank, call, a, log, n - 1);
      if g.1.Outputs? {
        var d := sys.assets[a].dependencies[n - 1];
        RunLegit(sys, rank, call, d, g.0);
        LegitTrans(call, log, g.0, RunAsset(sys, rank, call, d, g.0).0);
      }
    }
  }

  lemma LegitSound(call: Call, log: seq<Run>, later: seq<Run>)
    requires SoundLog(log) && AllLegit(call, log, later)
    ensures SoundLog(later)
  {
    forall i {:trigger Sound(later[i])} | 0 <= i < |later| ensures Sound(later[i]) {
      if i < |log| {
        assert later[i] == later[..|log|][i] == log[i];
        assert Sound(log[i]);
      } else {
        assert Legit(call, later[..i], later[i]);
      }
    }
  }

  // ----- At most one success per hash -----

  ghost predicate OneSuccess(log: seq<Run>) {
    forall i, j :: 0 <= i < j < |log| && log[i].status == Succeeded && log[j].status == Succeeded ==>
      (log[i].organization, log[i].asset, log[i].partition, log[i].hash) != (log[j].organization, log[j].asset, log[j].partition, log[j].hash)
  }

  lemma LegitOneSuccess(call: Call, log: seq<Run>, later: seq<Run>)
    requires OneSuccess(log) && AllLegit(call, log, later) && call.backfill.None?
    ensures OneSuccess(later)
  {
    forall i, j | 0 <= i < j < |later| && later[i].status == Succeeded && later[j].status == Succeeded
      ensures (later[i].organization, later[i].asset, later[i].partition, later[i].hash)
           != (later[j].organization, later[j].asset, later[j].partition, later[j].hash)
    {
      if j < |log| {
        assert later[i] == later[..|log|][i] == log[i] && later[j] == later[..|log|][j] == log[j];
      } else {
        assert Legit(call, later[..j], later[j]);
        assert later[..j][i] == later[i];
        assert !Prior(later[..j][i], call, later[j].hash);
      }
    }
  }

  /** A sequence of calls without backfill, starting from `log`. */
  ghost function RunAll(sys: System, rank: map<string, nat>, calls: seq<(Call, string)>, log: seq<Run>): seq<Run>
    requires Acyclic(sys, rank)
  {
    if calls == [] then log
    else
      var n := |calls| - 1;
      RunAsset(sys, rank, calls[n].0, calls[n].1, RunAll(sys, rank, calls[..n], log)).0
  }

  /** Over any sequence of such calls there is at most one succeeded row per organization,
      asset, partition and hash, every row has ended, and stored metadata is allowed. */
  lemma {:induction false} MemoisedOnce(sys: System, rank: map<string, nat>, calls: seq<(Call, string)>)
    requires Acyclic(sys, rank) && forall i :: 0 <= i < |calls| ==> calls[i].0.backfill.None?
    ensures OneSuccess(RunAll(sys, rank, calls, [])) && SoundLog(RunAll(sys, rank, calls, []))
  {
    if calls == [] {
    } else {
      var n := |calls| - 1;
      MemoisedOnce(sys, rank, calls[..n]);
      var log := RunAll(sys, rank, calls[..n], []);
      RunLegit(sys, rank, calls[n].0, calls[n].1, log);
      LegitOneSuccess(calls[n].0, log, RunAll(sys, rank, calls, []));
      LegitSound(calls[n].0, log, RunAll(sys, rank, calls, []));
    }
  }

  // ----- Memoisation -----

  /** Successes that `log` knows are still the newest ones in `later`. */
  ghost predicate Stable(log: seq<Run>, later: seq<Run>) {
    && |log| <= |later| && later[..|log|] == log
    && forall call, hash {:trigger FindPrior(later, call, hash)} :: FindPrior(log, call, hash) >= 0 ==>
         FindPrior(later, call, hash) == FindPrior(log, call, hash)
  }

  lemma {:induction false} FindPriorSame(log: seq<Run>, c: Call, call: Call, hash: Hash)
    requires c.organization == call.organization && c.partition == call.partition
    ensures FindPrior(log, c, hash) == FindPrior(log, call, hash)
  {
    if log == [] {
    } else {
      FindPriorSame(log[..|log| - 1], c, call, hash);
    }
  }

  lemma StableAppend(call: Call, log: seq<Run>, r: Run)
    requires Legit(call, log, r) && call.backfill.None?
    ensures Stable(log, log + [r])
  {
    assert (log + [r])[..|log|] == log;
    forall c, hash | FindPrior(log, c, hash) >= 0 ensures FindPrior(log + [r], c, hash) == FindPrior(log, c, hash) {
      FindPriorAppend(log, r, c, hash);
      if Prior(r, c, hash) {
        FindPriorSame(log, c, call, hash);
      }
    }
  }

  lemma StableTrans(a: seq<Run>, b: seq<Run>, c: seq<Run>)
    requires Stable(a, b) && Stable(b, c)
    ensures Stable(a, c)
  {
    assert c[..|a|] == c[..|b|][..|a|];
    forall call, hash | FindPrior(a, call, hash) >= 0 ensures FindPrior(c, call, hash) == FindPrior(a, call, hash) {
      assert FindPrior(b, call, hash) == FindPrior(a, call, hash);
    }
  }

  lemma {:induction false} LegitStable(call: Call, log: seq<Run>, later: seq<Run>)
    requires AllLegit(call, log, later) && call.backfill.None?
    ensures Stable(log, later)
    decreases |later|
  {
    if |log| == |later| {
      assert later == log;
    } else {
      var n := |later| - 1;
      var front := later[..n];
      assert front[..|log|] == log;
      forall i {:trigger Legit(call, front[..i], front[i])} | |log| <= i < n ensures Legit(call, front[..i], front[i]) {
        assert front[..i] == later[..i] && Legit(call, later[..i], later[i]);
      }
      LegitStable(call, log, front);
      assert Legit(call, later[..n], later[n]) && later == front + [later[n]];
      StableAppend(call, front, later[n]);
      StableTrans(log, front, later);
    }
  }

  /** The first `n` names of a list, as a set. */
  ghost function Names(list: seq<string>, n: nat): set<string>
    requires n <= |list|
  {
    if n == 0 then {} else Names(list, n - 1) + {list[n - 1]}
  }

  lemma {:induction false} NamesExactly(list: seq<string>, n: nat)
    requires n <= |list|
    ensures forall i :: 0 <= i < n ==> list[i] in Names(list, n)
  {
    if n == 0 {
    } else {
      NamesExactly(list, n - 1);
    }
  }

  /** The asset can be answered from the log alone: each dependency can, with the output
      that the hash names, and a successful run with that hash is on record. */
  ghost predicate Settled(sys: System, rank: map<string, nat>, call: Call, log: seq<Run>, a: string, hash: Hash, output: Json)
    requires Acyclic(sys, rank)
    decreases RankOf(sys, rank, a)
  {
    && a in sys.assets && hash == HashOf(call, a, hash.context.dependencies)
    && hash.context.dependencies.Keys == Names(sys.assets[a].dependencies, |sys.assets[a].dependencies|)
    && (forall i {:trigger sys.assets[a].dependencies[i]} :: 0 <= i < |sys.assets[a].dependencies| ==>
          var d := sys.assets[a].dependencies[i];
          d in sys.assets && d in hash.context.dependencies
          && exists h :: Settled(sys, rank, call, log, d, h, hash.context.dependencies[d]))
    && FindPrior(log, call, hash) >= 0 && log[FindPrior(log, call, hash)].metadata == output
  }

  lemma {:induction false} SettledStable(sys: System, rank: map<string, nat>, call: Call, log: seq<Run>, later: seq<Run>, a: string, hash: Hash, output: Json)
    requires Acyclic(sys, rank) && Stable(log, later) && Settled(sys, rank, call, log, a, hash, output)
    ensures Settled(sys, rank, call, later, a, hash, output)
    decreases RankOf(sys, rank, a)
  {
    var i := FindPrior(log, call, hash);
    assert FindPrior(later, call, hash) == i && later[i] == later[..|log|][i] == log[i];
    forall i | 0 <= i < |sys.assets[a].dependencies|
      ensures exists h :: Settled(sys, rank, call, later, sys.assets[a].dependencies[i], h, hash.context.dependencies[sys.assets[a].dependencies[i]])
    {
      var d := sys.assets[a].dependencies[i];
      var h :| Settled(sys, rank, call, log, d, h, hash.context.dependencies[d]);
      SettledStable(sys, rank, call, log, later, d, h, hash.context.dependencies[d]);
    }
  }

  /** Only skip rows were added: nothing was computed. */
  ghost predicate OnlySkips(log: seq<Run>, later: seq<Run>) {
    && |log| <= |later| && later[..|log|] == log
    && forall i :: |log| <= i < |later| ==> later[i].status == Skipped
  }

  lemma OnlySkipsTrans(a: seq<Run>, b: seq<Run>, c: seq<Run>)
    requires OnlySkips(a, b) && OnlySkips(b, c)
    ensures OnlySkips(a, c)
  {
    assert c[..|a|] == c[..|b|][..|a|];
    forall i | |a| <= i < |c| ensures c[i].status == Skipped {
      if i < |b| {
        assert c[i] == c[..|b|][i] == b[i];
      }
    }
  }

  /** A settled asset is answered without calling any computation, at any depth. */
  lemma {:induction false} SettledRun(sys: System, rank: map<string, nat>, call: Call, log: seq<Run>, a: string, hash: Hash, output: Json)
    requires Acyclic(sys, rank) && call.backfill.None? && SoundLog(log)
    requires Settled(sys, rank, call, log, a, hash, output)
    ensures var r := RunAsset(sys, rank, call, a, log);
            OnlySkips(log, r.0) && r.1 == Ok(Outcome(a, Skipped, hash, output, call.watermark))
    decreases RankOf(sys, rank, a), 1, 0
  {
    var n := |sys.assets[a].dependencies|;
    SettledAnswerable(sys, rank, call, log, a, hash, output);
    NamesExactly(sys.assets[a].dependencies, n);
    SettledDependencies(sys, rank, call, log, a, hash.context.dependencies, n);
    var g := RunDependencies(sys, rank, call, a, log, n);
    GatheredNames(sys, rank, call, a, log, n);
    SameOutputs(g.1.outputs, hash.context.dependencies);
    DependenciesLegit(sys, rank, call, a, log, n);
    LegitStable(call, log, g.0);
    var i := FindPrior(log, call, hash);
    assert FindPrior(g.0, call, hash) == i && g.0[i] == g.0[..|log|][i] == log[i];
    assert Sound(log[i]) && Prior(log[i], call, hash);
    var r := RunSelf(sys, call, a, g.1.outputs, g.0);
    assert OnlySkips(g.0, r.0);
    OnlySkipsTrans(log, g.0, r.0);
  }

  lemma SameOutputs(outputs: map<string, Json>, all: map<string, Json>)
    requires Partial(outputs, all) && outputs.Keys == all.Keys
    ensures outputs == all
  {
  }

  lemma {:induction false} GatheredNames(sys: System, rank: map<string, nat>, call: Call, a: string, log: seq<Run>, n: nat)
    requires Acyclic(sys, rank) && a in sys.assets && n <= |sys.assets[a].dependencies|
    ensures var g := RunDependencies(sys, rank, call, a, log, n);
            g.1.Outputs? ==> g.1.outputs.Keys == Names(sys.assets[a].dependencies, n)
  {
    if n == 0 {
    } else {
      GatheredNames(sys, rank, call, a, log, n - 1);
    }
  }

  /** The gathered outputs are the ones named in the hash. */
  ghost predicate Partial(outputs: map<string, Json>, all: map<string, Json>) {
    forall d {:trigger outputs[d]} :: d in outputs ==> d in all && outputs[d] == all[d]
  }

  ghost predicate Answerable(sys: System, rank: map<string, nat>, call: Call, log: seq<Run>, d: string, output: Json)
    requires Acyclic(sys, rank)
  {
    d in sys.assets && exists h :: Settled(sys, rank, call, log, d, h, output)
  }

  ghost predicate AllAnswerable(sys: System, rank: map<string, nat>, call: Call, log: seq<Run>, outputs: map<string, Json>)
    requires Acyclic(sys, rank)
  {
    forall d {:trigger Answerable(sys, rank, call, log, d, outputs[d])} :: d in outputs ==>
      Answerable(sys, rank, call, log, d, outputs[d])
  }

  lemma SettledAnswerable(sys: System, rank: map<string, nat>, call: Call, log: seq<Run>, a: string, hash: Hash, output: Json)
    requires Acyclic(sys, rank) && Settled(sys, rank, call, log, a, hash, output)
    ensures AllAnswerable(sys, rank, call, log, hash.context.dependencies)
  {
    var list := sys.assets[a].dependencies;
    forall d | d in hash.context.dependencies ensures Answerable(sys, rank, call, log, d, hash.context.dependencies[d]) {
      NamesFrom(list, |list|, d);
      var i :| 0 <= i < |list| && list[i] == d;
    }
  }

  lemma {:induction false} NamesFrom(list: seq<string>, n: nat, d: string)
    requires n <= |list| && d in Names(list, n)
    ensures exists i :: 0 <= i < n && list[i] == d
  {
    if d != list[n - 1] {
      NamesFrom(list, n - 1, d);
    }
  }

  /** The dependencies so far were answered by skips, with the outputs of `all`. */
  ghost predicate SkippedTo(log: seq<Run>, g: (seq<Run>, Gathered), all: map<string, Json>) {
    OnlySkips(log, g.0) && g.1.Outputs? && Partial(g.1.outputs, all)
  }

  lemma {:induction false} SettledDependencies(sys: System, rank: map<string, nat>, call: Call, log: seq<Run>, a: string, all: map<string, Json>, n: nat)
    requires Acyclic(sys, rank) && call.backfill.None? && SoundLog(log) && a in sys.assets
    requires AllAnswerable(sys, rank, call, log, all) && n <= |sys.assets[a].dependencies|
    requires forall i :: 0 <= i < |sys.assets[a].dependencies| ==> sys.assets[a].dependencies[i] in all
    ensures SkippedTo(log, RunDependencies(sys, rank, call, a, log, n), all)
    decreases RankOf(sys, rank, a), 0, n
  {
    if n == 0 {
    } else {
      SettledDependencies(sys, rank, call, log, a, all, n - 1);
      var g := RunDependencies(sys, rank, call, a, log, n - 1);
      var d := sys.assets[a].dependencies[n - 1];
      DependenciesLegit(sys, rank, call, a, log, n - 1);
      SettledStep(sys, rank, call, log, g, d, all);
      DependenciesNext(sys, rank, call, a, log, n, RunAsset(sys, rank, call, d, g.0));
    }
  }

  lemma {:induction false} SettledStep(sys: System, rank: map<string, nat>, call: Call, log: seq<Run>, g: (seq<Run>, Gathered), d: string, all: map<string, Json>)
    requires Acyclic(sys, rank) && call.backfill.None? && SoundLog(log) && AllLegit(call, log, g.0)
    requires AllAnswerable(sys, rank, call, log, all) && d in all && SkippedTo(log, g, all)
    ensures var r := RunAsset(sys, rank, call, d, g.0);
            r.1.Ok? && SkippedTo(log, (r.0, Outputs(g.1.outputs[d := r.1.outcome.output])), all)
    decreases RankOf(sys, rank, d), 3, 0
  {
    assert Answerable(sys, rank, call, log, d, all[d]);
    AnswerableRun(sys, rank, call, log, g.0, d, all[d]);
    PartialAdd(g.1.outputs, all, d);
  }

  lemma {:induction false} AnswerableRun(sys: System, rank: map<string, nat>, call: Call, log: seq<Run>, later: seq<Run>, d: string, output: Json)
    requires Acyclic(sys, rank) && call.backfill.None? && SoundLog(log) && AllLegit(call, log, later) && OnlySkips(log, later)
    requires Answerable(sys, rank, call, log, d, output)
    ensures var r := RunAsset(sys, rank, call, d, later); OnlySkips(log, r.0) && r.1.Ok? && r.1.outcome.output == output
    decreases RankOf(sys, rank, d), 2, 0
  {
    var h :| Settled(sys, rank, call, log, d, h, output);
    SettledNext(sys, rank, call, log, later, d, h, output);
    SettledRun(sys, rank, call, later, d, h, output);
    OnlySkipsTrans(log, later, RunAsset(sys, rank, call, d, later).0);
  }

  lemma DependenciesNext(sys: System, rank: map<string, nat>, call: Call, a: string, log: seq<Run>, n: nat, r: (seq<Run>, Result))
    requires Acyclic(sys, rank) && a in sys.assets && 0 < n <= |sys.assets[a].dependencies|
    requires RunDependencies(sys, rank, call, a, log, n - 1).1.Outputs? && r.1.Ok?
    requires r == RunAsset(sys, rank, call, sys.assets[a].dependencies[n - 1], RunDependencies(sys, rank, call, a, log, n - 1).0)
    ensures RunDependencies(sys, rank, call, a, log, n) ==
            (r.0, Outputs(RunDependencies(sys, rank, call, a, log, n - 1).1.outputs[sys.assets[a].dependencies[n - 1] := r.1.outcome.output]))
  {
  }

  lemma PartialAdd(outputs: map<string, Json>, all: map<string, Json>, d: string)
    requires Partial(outputs, all) && d in all
    ensures Partial(outputs[d := all[d]], all)
  {
  }

  lemma SettledNext(sys: System, rank: map<string, nat>, call: Call, log: seq<Run>, later: seq<Run>, d: string, h: Hash, output: Json)
    requires Acyclic(sys, rank) && call.backfill.None? && SoundLog(log) && AllLegit(call, log, later)
    requires Settled(sys, rank, call, log, d, h, output)
    ensures SoundLog(later) && Settled(sys, rank, call, later, d, h, output)
  {
    LegitStable(call, log, later);
    LegitSound(call, log, later);
    SettledStable(sys, rank, call, log, later, d, h, output);
  }

  // ----- What only skips means -----

  /** Skips leave the record of successes as it was. */
  lemma {:induction false} SkipsKeepPriors(log: seq<Run>, later: seq<Run>, call: Call, hash: Hash)
    requires OnlySkips(log, later)
    ensures FindPrior(later, call, hash) == FindPrior(log, call, hash)
    decreases |later|
  {
    if |later| == |log| {
      assert later == log;
    } else {
      var n := |later| - 1;
      assert later[..n][..|log|] == later[..|log|];
      SkipsKeepPriors(log, later[..n], call, hash);
      assert later == later[..n] + [later[n]];
      FindPriorAppend(later[..n], later[n], call, hash);
    }
  }

  lemma {:induction false} SettledBefore(sys: System, rank: map<string, nat>, call: Call, log: seq<Run>, later: seq<Run>, a: string, hash: Hash, output: Json)
    requires Acyclic(sys, rank) && OnlySkips(log, later) && Settled(sys, rank, call, later, a, hash, output)
    ensures Settled(sys, rank, call, log, a, hash, output)
    decreases RankOf(sys, rank, a)
  {
    SkipsKeepPriors(log, later, call, hash);
    var i := FindPrior(log, call, hash);
    assert later[i] == later[..|log|][i] == log[i];
    forall i | 0 <= i < |sys.assets[a].dependencies|
      ensures exists h :: Settled(sys, rank, call, log, sys.assets[a].dependencies[i], h, hash.context.dependencies[sys.assets[a].dependencies[i]])
    {
      var d := sys.assets[a].dependencies[i];
      var h :| Settled(sys, rank, call, later, d, h, hash.context.dependencies[d]);
      SettledBefore(sys, rank, call, log, later, d, h, hash.context.dependencies[d]);
    }
  }

  /** A computation that returns has recorded a success. */
  lemma {:induction false} AttemptsEndInSuccess(sys: System, call: Call, hash: Hash, maxAttempts: int, log: seq<Run>, k: nat)
    ensures var r := Attempts(sys, call, hash, maxAttempts, log, k);
            r.1.Ok? ==> |r.0| > |log| && r.0[|r.0| - 1].status == Succeeded
    decreases maxAttempts + 1 - k
  {
    if k <= maxAttempts {
      match sys.compute(hash.asset, hash.context, |log|)
      case Returns(_) =>
      case Raises(code) =>
        AttemptsEndInSuccess(sys, call, hash, maxAttempts, log + [NewRun(call, hash, Failed, k, map[], Some(code))], k + 1);
    }
  }

  /** The asset's own part skips exactly when a success with its hash is on record. */
  lemma SelfSkipsIffOnRecord(sys: System, call: Call, a: string, outputs: map<string, Json>, log: seq<Run>)
    requires a in sys.assets && call.backfill.None?
    ensures var r := RunSelf(sys, call, a, outputs, log);
            var i := FindPrior(log, call, HashOf(call, a, outputs));
            && ((r.1.Ok? && OnlySkips(log, r.0)) <==> i >= 0)
            && (i >= 0 ==> r.1.outcome.hash == HashOf(call, a, outputs) && r.1.outcome.output == log[i].metadata)
  {
    AttemptsEndInSuccess(sys, call, HashOf(call, a, outputs), sys.assets[a].maxAttempts, log, 1);
  }

  lemma OnlySkipsSplit(a: seq<Run>, b: seq<Run>, c: seq<Run>)
    requires |a| <= |b| <= |c| && b[..|a|] == a && c[..|b|] == b && OnlySkips(a, c)
    ensures OnlySkips(a, b) && OnlySkips(b, c)
  {
    forall i | |a| <= i < |b| ensures b[i].status == Skipped {
      assert b[i] == c[..|b|][i] == c[i];
    }
  }

  /** A call that returns without computing anything finds its whole dependency tree on record. */
  lemma {:induction false} SkipsMeanSettled(sys: System, rank: map<string, nat>, call: Call, log: seq<Run>, a: string)
    requires Acyclic(sys, rank) && call.backfill.None?
    ensures var r := RunAsset(sys, rank, call, a, log);
            r.1.Ok? && OnlySkips(log, r.0) ==> Settled(sys, rank, call, log, a, r.1.outcome.hash, r.1.outcome.output)
    decreases RankOf(sys, rank, a), 1, 0
  {
    var r := RunAsset(sys, rank, call, a, log);
    if r.1.Ok? && OnlySkips(log, r.0) {
      var list := sys.assets[a].dependencies;
      var g := RunDependencies(sys, rank, call, a, log, |list|);
      OnlySkipsSplit(log, g.0, r.0);
      DependenciesSkipped(sys, rank, call, log, a, |list|);
      GatheredNames(sys, rank, call, a, log, |list|);
      SelfSkipsIffOnRecord(sys, call, a, g.1.outputs, g.0);
      SkipsKeepPriors(log, g.0, call, HashOf(call, a, g.1.outputs));
      SettledFromAnswers(sys, rank, call, log, g.0, a, g.1.outputs);
    }
  }

  lemma SettledFromAnswers(sys: System, rank: map<string, nat>, call: Call, log: seq<Run>, later: seq<Run>, a: string, outputs: map<string, Json>)
    requires Acyclic(sys, rank) && a in sys.assets && AllAnswerable(sys, rank, call, log, outputs) && |log| <= |later| && later[..|log|] == log
    requires outputs.Keys == Names(sys.assets[a].dependencies, |sys.assets[a].dependencies|)
    requires FindPrior(log, call, HashOf(call, a, outputs)) >= 0
    ensures var i := FindPrior(log, call, HashOf(call, a, outputs));
            later[i] == log[i] && Settled(sys, rank, call, log, a, HashOf(call, a, outputs), log[i].metadata)
  {
    var list := sys.assets[a].dependencies;
    var i := FindPrior(log, call, HashOf(call, a, outputs));
    assert later[i] == later[..|log|][i];
    NamesExactly(list, |list|);
    forall i | 0 <= i < |list| ensures list[i] in sys.assets && exists h :: Settled(sys, rank, call, log, list[i], h, outputs[list[i]]) {
      assert Answerable(sys, rank, call, log, list[i], outputs[list[i]]);
    }
  }

  lemma {:induction false} SkippedIsAnswerable(sys: System, rank: map<string, nat>, call: Call, log: seq<Run>, now: seq<Run>, d: string)
    requires Acyclic(sys, rank) && call.backfill.None? && OnlySkips(log, now)
    ensures var r := RunAsset(sys, rank, call, d, now);
            r.1.Ok? && OnlySkips(now, r.0) ==> Answerable(sys, rank, call, log, d, r.1.outcome.output)
    decreases RankOf(sys, rank, d), 2, 0
  {
    var r := RunAsset(sys, rank, call, d, now);
    if r.1.Ok? && OnlySkips(now, r.0) {
      SkipsMeanSettled(sys, rank, call, now, d);
      SettledBefore(sys, rank, call, log, now, d, r.1.outcome.hash, r.1.outcome.output);
    }
  }

  lemma AnswersAdd(sys: System, rank: map<string, nat>, call: Call, log: seq<Run>, outputs: map<string, Json>, d: string, output: Json)
    requires Acyclic(sys, rank) && AllAnswerable(sys, rank, call, log, outputs) && Answerable(sys, rank, call, log, d, output)
    ensures AllAnswerable(sys, rank, call, log, outputs[d := output])
  {
    var more := outputs[d := output];
    forall e | e in more ensures Answerable(sys, rank, call, log, e, more[e]) {
      if e != d {
        assert Answerable(sys, rank, call, log, e, outputs[e]);
      }
    }
  }

  lemma {:induction false} DependenciesSkipped(sys: System, rank: map<string, nat>, call: Call, log: seq<Run>, a: string, n: nat)
    requires Acyclic(sys, rank) && call.backfill.None? && a in sys.assets && n <= |sys.assets[a].dependencies|
    requires var g := RunDependencies(sys, rank, call, a, log, n); g.1.Outputs? && OnlySkips(log, g.0)
    ensures AllAnswerable(sys, rank, call, log, RunDependencies(sys, rank, call, a, log, n).1.outputs)
    decreases RankOf(sys, rank, a), 0, n
  {
    if n == 0 {
    } else {
      var g, before := RunDependencies(sys, rank, call, a, log, n), RunDependencies(sys, rank, call, a, log, n - 1);
      var d := sys.assets[a].dependencies[n - 1];
      var r := RunAsset(sys, rank, call, d, before.0);
      DependenciesNext(sys, rank, call, a, log, n, r);
      OnlySkipsSplit(log, before.0, r.0);
      DependenciesSkipped(sys, rank, call, log, a, n - 1);
      SkippedIsAnswerable(sys, rank, call, log, before.0, d);
      AnswersAdd(sys, rank, call, log, before.1.outputs, d, r.1.outcome.output);
    }
  }

  ghost predicate OnRecord(sys: System, rank: map<string, nat>, call: Call, log: seq<Run>, a: string)
    requires Acyclic(sys, rank)
  {
    exists hash, output :: Settled(sys, rank, call, log, a, hash, output)
  }

  /** Exactly when a call computes nothing, for every acyclic graph and every log: when its
      whole dependency tree is on record, each asset under the hash of the stored outputs
      of its dependencies. */
  lemma SkipsIffOnRecord(sys: System, rank: map<string, nat>, call: Call, log: seq<Run>, a: string)
    requires Acyclic(sys, rank) && call.backfill.None? && SoundLog(log)
    ensures var r := RunAsset(sys, rank, call, a, log);
            (r.1.Ok? && OnlySkips(log, r.0)) <==> OnRecord(sys, rank, call, log, a)
  {
    var r := RunAsset(sys, rank, call, a, log);
    SkipsMeanSettled(sys, rank, call, log, a);
    if OnRecord(sys, rank, call, log, a) {
      var hash, output :| Settled(sys, rank, call, log, a, hash, output);
      SettledRun(sys, rank, call, log, a, hash, output);
    }
  }

  /** One level of it: once the dependencies are on record with the stored outputs `outputs`,
      the asset is skipped exactly when a success under their hash is. */
  lemma SkipsIffHashOnRecord(sys: System, rank: map<string, nat>, call: Call, log: seq<Run>, a: string, outputs: map<string, Json>)
    requires Acyclic(sys, rank) && call.backfill.None? && SoundLog(log) && a in sys.assets
    requires AllAnswerable(sys, rank, call, log, outputs)
    requires outputs.Keys == Names(sys.assets[a].dependencies, |sys.assets[a].dependencies|)
    ensures var r := RunAsset(sys, rank, call, a, log);
            (r.1.Ok? && OnlySkips(log, r.0)) <==> FindPrior(log, call, HashOf(call, a, outputs)) >= 0
  {
    var n := |sys.assets[a].dependencies|;
    NamesExactly(sys.assets[a].dependencies, n);
    SettledDependencies(sys, rank, call, log, a, outputs, n);
    var g := RunDependencies(sys, rank, call, a, log, n);
    GatheredNames(sys, rank, call, a, log, n);
    SameOutputs(g.1.outputs, outputs);
    SkipsKeepPriors(log, g.0, call, HashOf(call, a, outputs));
    SelfSkipsIffOnRecord(sys, call, a, outputs, g.0);
    var r := RunAsset(sys, rank, call, a, log);
    assert r == RunSelf(sys, call, a, outputs, g.0);
    if OnlySkips(g.0, r.0) {
      OnlySkipsTrans(log, g.0, r.0);
    }
    if OnlySkips(log, r.0) {
      OnlySkipsSplit(log, g.0, r.0);
    }
  }

  // ----- Repeating a call -----

  /** The part of each output that is stored. */
  function Stored(outputs: map<string, Json>): map<string, Json> {
    map d | d in outputs :: SafeMetadata(outputs[d])
  }

  /** Within the call, the dependencies of every dependency of `a` returned only what is stored. */
  ghost predicate CleanInputs(sys: System, rank: map<string, nat>, call: Call, log: seq<Run>, a: string, n: nat)
    requires Acyclic(sys, rank) && a in sys.assets && n <= |sys.assets[a].dependencies|
    decreases RankOf(sys, rank, a), 0, n
  {
    n > 0 ==>
      && CleanInputs(sys, rank, call, log, a, n - 1)
      && var g := RunDependencies(sys, rank, call, a, log, n - 1);
         g.1.Outputs? ==> CleanCall(sys, rank, call, g.0, sys.assets[a].dependencies[n - 1])
  }

  /** And so did the dependencies of `a` itself. */
  ghost predicate CleanCall(sys: System, rank: map<string, nat>, call: Call, log: seq<Run>, a: string)
    requires Acyclic(sys, rank)
    decreases RankOf(sys, rank, a), 1, 0
  {
    a in sys.assets ==>
      var n := |sys.assets[a].dependencies|;
      var g := RunDependencies(sys, rank, call, a, log, n);
      CleanInputs(sys, rank, call, log, a, n) && (g.1.Outputs? ==> Stored(g.1.outputs) == g.1.outputs)
  }

  /** A successful clean call leaves its asset settled, with the stored part of its output. */
  lemma {:induction false} RunSettles(sys: System, rank: map<string, nat>, call: Call, log: seq<Run>, a: string)
    requires Acyclic(sys, rank) && call.backfill.None? && SoundLog(log) && CleanCall(sys, rank, call, log, a)
    ensures var r := RunAsset(sys, rank, call, a, log);
            r.1.Ok? ==>
              && r.1.outcome.watermark == call.watermark
              && Settled(sys, rank, call, r.0, a, r.1.outcome.hash, SafeMetadata(r.1.outcome.output))
    decreases RankOf(sys, rank, a), 1, 0
  {
    var r := RunAsset(sys, rank, call, a, log);
    if r.1.Ok? {
      var n := |sys.assets[a].dependencies|;
      var g := RunDependencies(sys, rank, call, a, log, n);
      DependenciesSettle(sys, rank, call, log, a, n);
      DependenciesLegit(sys, rank, call, a, log, n);
      LegitSound(call, log, g.0);
      SelfSettles(sys, call, a, g.1.outputs, g.0);
      SelfLegit(sys, call, a, g.1.outputs, g.0);
      AnswerableLater(sys, rank, call, g.0, r.0, g.1.outputs);
      GatheredNames(sys, rank, call, a, log, n);
      SettledFromAnswers(sys, rank, call, r.0, r.0, a, g.1.outputs);
    }
  }

  lemma AnswerableLater(sys: System, rank: map<string, nat>, call: Call, log: seq<Run>, later: seq<Run>, outputs: map<string, Json>)
    requires Acyclic(sys, rank) && call.backfill.None? && SoundLog(log) && AllLegit(call, log, later)
    requires AllAnswerable(sys, rank, call, log, outputs)
    ensures AllAnswerable(sys, rank, call, later, outputs)
  {
    forall d | d in outputs ensures Answerable(sys, rank, call, later, d, outputs[d]) {
      assert Answerable(sys, rank, call, log, d, outputs[d]);
      var h :| Settled(sys, rank, call, log, d, h, outputs[d]);
      SettledNext(sys, rank, call, log, later, d, h, outputs[d]);
    }
  }

  lemma StoredAdd(outputs: map<string, Json>, d: string, output: Json)
    ensures Stored(outputs[d := output]) == Stored(outputs)[d := SafeMetadata(output)]
  {
  }

  /** After the dependencies of a call have run, each is on record with the stored part of its output. */
  lemma {:induction false} DependenciesSettle(sys: System, rank: map<string, nat>, call: Call, log: seq<Run>, a: string, n: nat)
    requires Acyclic(sys, rank) && call.backfill.None? && SoundLog(log)
    requires a in sys.assets && n <= |sys.assets[a].dependencies| && CleanInputs(sys, rank, call, log, a, n)
    ensures var g := RunDependencies(sys, rank, call, a, log, n);
            g.1.Outputs? ==> AllAnswerable(sys, rank, call, g.0, Stored(g.1.outputs))
    decreases RankOf(sys, rank, a), 0, n
  {
    var g := RunDependencies(sys, rank, call, a, log, n);
    if n > 0 && g.1.Outputs? {
      DependenciesSettle(sys, rank, call, log, a, n - 1);
      DependenciesLegit(sys, rank, call, a, log, n - 1);
      var before := RunDependencies(sys, rank, call, a, log, n - 1);
      LegitSound(call, log, before.0);
      var d := sys.assets[a].dependencies[n - 1];
      RunSettles(sys, rank, call, before.0, d);
      RunLegit(sys, rank, call, d, before.0);
      AnswerableLater(sys, rank, call, before.0, g.0, Stored(before.1.outputs));
      var o := RunAsset(sys, rank, call, d, before.0).1.outcome;
      AnswersAdd(sys, rank, call, g.0, Stored(before.1.outputs), d, SafeMetadata(o.output));
      StoredAdd(before.1.outputs, d, o.output);
    }
  }

  /** The asset's own part: after success there is a run on record with its hash. */
  lemma SelfSettles(sys: System, call: Call, a: string, outputs: map<string, Json>, log: seq<Run>)
    requires a in sys.assets && call.backfill.None? && SoundLog(log)
    ensures var r := RunSelf(sys, call, a, outputs, log);
            var hash := HashOf(call, a, outputs);
            r.1.Ok? ==>
              && r.1.outcome.hash == hash && r.1.outcome.watermark == call.watermark
              && FindPrior(r.0, call, hash) >= 0
              && r.0[FindPrior(r.0, call, hash)].metadata == SafeMetadata(r.1.outcome.output)
              && (ReturnsSafe(sys, a) ==> SafeMetadata(r.1.outcome.output) == r.1.outcome.output)
  {
    var hash := HashOf(call, a, outputs);
    var i := FindPrior(log, call, hash);
    if i >= 0 {
      FindPriorAppend(log, SkippedRun(call, hash, i), call, hash);
      assert Sound(log[i]);
    } else {
      AttemptsSettle(sys, call, hash, sys.assets[a].maxAttempts, log, 1);
    }
  }

  lemma {:induction false} AttemptsSettle(sys: System, call: Call, hash: Hash, maxAttempts: int, log: seq<Run>, k: nat)
    requires hash.partition == call.partition
    ensures var r := Attempts(sys, call, hash, maxAttempts, log, k);
            r.1.Ok? ==>
              && r.1.outcome.hash == hash && r.1.outcome.watermark == call.watermark
              && FindPrior(r.0, call, hash) >= 0
              && r.0[FindPrior(r.0, call, hash)].metadata == SafeMetadata(r.1.outcome.output)
              && (ReturnsSafe(sys, hash.asset) ==> SafeMetadata(r.1.outcome.output) == r.1.outcome.output)
    decreases maxAttempts + 1 - k
  {
    if k <= maxAttempts {
      match sys.compute(hash.asset, hash.context, |log|)
      case Returns(output) =>
        FindPriorAppend(log, NewRun(call, hash, Succeeded, k, SafeMetadata(output), None), call, hash);
      case Raises(code) =>
        AttemptsSettle(sys, call, hash, maxAttempts, log + [NewRun(call, hash, Failed, k, map[], Some(code))], k + 1);
    }
  }

  /** Repeating a successful clean call computes nothing, logs only skips, and returns the
      same hash and watermark and the stored part of the first output; so the output is the
      same exactly when the first output had only allowed keys. */
  lemma RepeatIsMemoised(sys: System, rank: map<string, nat>, call: Call, log: seq<Run>, a: string)
    requires Acyclic(sys, rank) && call.backfill.None? && SoundLog(log) && CleanCall(sys, rank, call, log, a)
    requires RunAsset(sys, rank, call, a, log).1.Ok?
    ensures var first := RunAsset(sys, rank, call, a, log);
            var again := RunAsset(sys, rank, call, a, first.0);
            && OnlySkips(first.0, again.0) && again.1.Ok? && again.1.outcome.status == Skipped
            && again.1.outcome.hash == first.1.outcome.hash
            && again.1.outcome.watermark == first.1.outcome.watermark
            && again.1.outcome.output == SafeMetadata(first.1.outcome.output)
            && (again.1.outcome.output == first.1.outcome.output <==>
                forall k :: k in first.1.outcome.output ==> k in ALLOWED_METADATA)
  {
    var first := RunAsset(sys, rank, call, a, log);
    RunSettles(sys, rank, call, log, a);
    RunLegit(sys, rank, call, a, log);
    LegitSound(call, log, first.0);
    SettledRun(sys, rank, call, first.0, a, first.1.outcome.hash, SafeMetadata(first.1.outcome.output));
    SafeWhenAllowed(first.1.outcome.output);
  }

  /** Which part of an output is stored. */
  lemma StoredExactly(output: Json, k: string)
    ensures k in SafeMetadata(output) <==>
            k in output && (k == "row_count" || k == "checksum_sha256" || k == "snapshot_id" || k == "profile_id"
                            || k == "validation_issue_count" || k == "export_snapshot_id")
    ensures k in SafeMetadata(output) ==> SafeMetadata(output)[k] == output[k]
  {
  }

  lemma SafeWhenAllowed(output: Json)
    ensures SafeMetadata(output) == output <==> forall k :: k in output ==> k in ALLOWED_METADATA
  {
    if SafeMetadata(output) == output {
      forall k | k in output ensures k in ALLOWED_METADATA {
        assert k in SafeMetadata(output);
      }
    }
  }

  /** Whatever the dependencies return, once they are on record with the stored part of it:
      the repeat computes nothing exactly when a success under those stored outputs is on
      record; and if there was none before the asset itself ran, exactly when the
      dependencies returned only what is stored. */
  lemma RepeatSkipsIff(sys: System, rank: map<string, nat>, call: Call, log: seq<Run>, a: string)
    requires Acyclic(sys, rank) && call.backfill.None? && SoundLog(log) && a in sys.assets
    requires RunAsset(sys, rank, call, a, log).1.Ok?
    requires var g := RunDependencies(sys, rank, call, a, log, |sys.assets[a].dependencies|);
             g.1.Outputs? && AllAnswerable(sys, rank, call, g.0, Stored(g.1.outputs))
    ensures var g := RunDependencies(sys, rank, call, a, log, |sys.assets[a].dependencies|);
            var first := RunAsset(sys, rank, call, a, log);
            var again := RunAsset(sys, rank, call, a, first.0);
            var hash := HashOf(call, a, Stored(g.1.outputs));
            && ((again.1.Ok? && OnlySkips(first.0, again.0)) <==> FindPrior(first.0, call, hash) >= 0)
            && (FindPrior(g.0, call, hash) == -1 ==>
                  ((again.1.Ok? && OnlySkips(first.0, again.0)) <==> Stored(g.1.outputs) == g.1.outputs))
  {
    var n := |sys.assets[a].dependencies|;
    var g, first := RunDependencies(sys, rank, call, a, log, n), RunAsset(sys, rank, call, a, log);
    DependenciesLegit(sys, rank, call, a, log, n);
    LegitSound(call, log, g.0);
    SelfLegit(sys, call, a, g.1.outputs, g.0);
    LegitSound(call, g.0, first.0);
    AnswerableLater(sys, rank, call, g.0, first.0, Stored(g.1.outputs));
    GatheredNames(sys, rank, call, a, log, n);
    SkipsIffHashOnRecord(sys, rank, call, first.0, a, Stored(g.1.outputs));
    SelfRecords(sys, call, a, g.1.outputs, g.0, HashOf(call, a, Stored(g.1.outputs)));
  }

  /** The asset's own part records successes under its own hash only. */
  lemma SelfRecords(sys: System, call: Call, a: string, outputs: map<string, Json>, log: seq<Run>, hash: Hash)
    requires a in sys.assets && call.backfill.None? && SoundLog(log)
    ensures var r := RunSelf(sys, call, a, outputs, log);
            r.1.Ok? && FindPrior(log, call, hash) == -1 ==>
              (FindPrior(r.0, call, hash) >= 0 <==> hash == HashOf(call, a, outputs))
  {
    var own := HashOf(call, a, outputs);
    var i := FindPrior(log, call, own);
    SelfSettles(sys, call, a, outputs, log);
    if i >= 0 {
      FindPriorAppend(log, SkippedRun(call, own, i), call, hash);
    } else if hash != own {
      AttemptsRecord(sys, call, own, sys.assets[a].maxAttempts, log, 1, hash);
    }
  }

  lemma {:induction false} AttemptsRecord(sys: System, call: Call, own: Hash, maxAttempts: int, log: seq<Run>, k: nat, hash: Hash)
    requires hash != own
    ensures FindPrior(Attempts(sys, call, own, maxAttempts, log, k).0, call, hash) == FindPrior(log, call, hash)
    decreases maxAttempts + 1 - k
  {
    if k <= maxAttempts {
      match sys.compute(own.asset, own.context, |log|)
      case Returns(output) =>
        FindPriorAppend(log, NewRun(call, own, Succeeded, k, SafeMetadata(output), None), call, hash);
      case Raises(code) =>
        var failed := NewRun(call, own, Failed, k, map[], Some(code));
        FindPriorAppend(log, failed, call, hash);
        AttemptsRecord(sys, call, own, maxAttempts, log + [failed], k + 1, hash);
    }
  }

  // ----- When calls are clean -----

  /** The computation of `a` returns only allowed metadata keys. */
  ghost predicate ReturnsSafe(sys: System, a: string) {
    forall c, n :: sys.compute(a, c, n).Returns? ==> SafeMetadata(sys.compute(a, c, n).output) == sys.compute(a, c, n).output
  }

  /** `b` is a direct or indirect dependency of `a`. */
  ghost predicate DependsOn(sys: System, rank: map<string, nat>, a: string, b: string)
    requires Acyclic(sys, rank)
    decreases RankOf(sys, rank, a)
  {
    a in sys.assets &&
    exists i {:trigger sys.assets[a].dependencies[i]} :: 0 <= i < |sys.assets[a].dependencies| &&
      (sys.assets[a].dependencies[i] == b || DependsOn(sys, rank, sys.assets[a].dependencies[i], b))
  }

  /** It is enough that the computations of the transitive dependencies return only allowed keys. */
  lemma {:induction false} SafeComputationsAreClean(sys: System, rank: map<string, nat>, call: Call, log: seq<Run>, a: string)
    requires Acyclic(sys, rank) && call.backfill.None? && SoundLog(log)
    requires forall b :: DependsOn(sys, rank, a, b) ==> ReturnsSafe(sys, b)
    ensures CleanCall(sys, rank, call, log, a)
    decreases RankOf(sys, rank, a), 1, 0
  {
    if a in sys.assets {
      SafeInputsAreClean(sys, rank, call, log, a, |sys.assets[a].dependencies|);
    }
  }

  lemma {:induction false} SafeInputsAreClean(sys: System, rank: map<string, nat>, call: Call, log: seq<Run>, a: string, n: nat)
    requires Acyclic(sys, rank) && call.backfill.None? && SoundLog(log) && a in sys.assets && n <= |sys.assets[a].dependencies|
    requires forall b :: DependsOn(sys, rank, a, b) ==> ReturnsSafe(sys, b)
    ensures CleanInputs(sys, rank, call, log, a, n)
    ensures var g := RunDependencies(sys, rank, call, a, log, n);
            g.1.Outputs? ==> Stored(g.1.outputs) == g.1.outputs
    decreases RankOf(sys, rank, a), 0, n
  {
    if n == 0 {
    } else {
      SafeInputsAreClean(sys, rank, call, log, a, n - 1);
      var g := RunDependencies(sys, rank, call, a, log, n - 1);
      if g.1.Outputs? {
        var d := sys.assets[a].dependencies[n - 1];
        DependenciesLegit(sys, rank, call, a, log, n - 1);
        LegitSound(call, log, g.0);
        SafeComputationsAreClean(sys, rank, call, g.0, d);
        SafeOutput(sys, rank, call, g.0, d);
        var r := RunAsset(sys, rank, call, d, g.0);
        if r.1.Ok? {
          StoredAdd(g.1.outputs, d, r.1.outcome.output);
        }
      }
    }
  }

  lemma SafeOutput(sys: System, rank: map<string, nat>, call: Call, log: seq<Run>, a: string)
    requires Acyclic(sys, rank) && call.backfill.None? && SoundLog(log) && ReturnsSafe(sys, a)
    ensures var r := RunAsset(sys, rank, call, a, log);
            r.1.Ok? ==> SafeMetadata(r.1.outcome.output) == r.1.outcome.output
  {
    if RunAsset(sys, rank, call, a, log).1.Ok? {
      var n := |sys.assets[a].dependencies|;
      var g := RunDependencies(sys, rank, call, a, log, n);
      DependenciesLegit(sys, rank, call, a, log, n);
      LegitSound(call, log, g.0);
      SelfSettles(sys, call, a, g.1.outputs, g.0);
    }
  }

  /** So a repeat of an asset whose transitive dependencies return only allowed keys is memoised. */
  lemma RepeatWithSafeDependencies(sys: System, rank: map<string, nat>, call: Call, log: seq<Run>, a: string)
    requires Acyclic(sys, rank) && call.backfill.None? && SoundLog(log)
    requires forall b :: DependsOn(sys, rank, a, b) ==> ReturnsSafe(sys, b)
    requires RunAsset(sys, rank, call, a, log).1.Ok?
    ensures var first := RunAsset(sys, rank, call, a, log);
            var again := RunAsset(sys, rank, call, a, first.0);
            && OnlySkips(first.0, again.0) && again.1.Ok?
            && (ReturnsSafe(sys, a) ==> again.1.outcome.output == first.1.outcome.output)
  {
    SafeComputationsAreClean(sys, rank, call, log, a);
    RepeatIsMemoised(sys, rank, call, log, a);
    if ReturnsSafe(sys, a) {
      SafeOutput(sys, rank, call, log, a);
    }
  }

  /** `b` depends on `a` alone, and `a` on nothing. */
  ghost predicate Chain(sys: System, rank: map<string, nat>, a: string, b: string) {
    && Acyclic(sys, rank) && PositiveAttempts(sys) && a in sys.assets && b in sys.assets && a != b
    && sys.assets[a].dependencies == [] && sys.assets[b].dependencies == [a]
  }

  lemma ChainRun(sys: System, rank: map<string, nat>, call: Call, a: string, b: string, log: seq<Run>)
    requires Chain(sys, rank, a, b)
    ensures RunAsset(sys, rank, call, a, log) == RunSelf(sys, call, a, map[], log)
    ensures CleanInputs(sys, rank, call, log, b, 1)
    ensures var r := RunAsset(sys, rank, call, a, log);
            r.1.Ok? ==> RunDependencies(sys, rank, call, b, log, 1) == (r.0, Outputs(map[a := r.1.outcome.output]))
  {
    assert RunDependencies(sys, rank, call, a, log, 0) == (log, Outputs(map[]));
    assert CleanInputs(sys, rank, call, log, a, 0) && Stored(map[]) == map[];
    assert RunDependencies(sys, rank, call, b, log, 0) == (log, Outputs(map[]));
    assert sys.assets[b].dependencies[0] == a;
    assert CleanCall(sys, rank, call, log, a) && CleanInputs(sys, rank, call, log, b, 0);
  }

  /** For two chained assets, any log and any number of attempts: unless a success of `b`
      under the stored part of the output of `a` was already on record, the repeat computes
      nothing if and only if `a` returned only allowed keys. */
  lemma ChainSkipsIffSafe(sys: System, rank: map<string, nat>, call: Call, a: string, b: string, log: seq<Run>)
    requires Chain(sys, rank, a, b) && call.backfill.None? && SoundLog(log)
    requires RunAsset(sys, rank, call, b, log).1.Ok?
    ensures var r := RunAsset(sys, rank, call, a, log);
            var first := RunAsset(sys, rank, call, b, log);
            var again := RunAsset(sys, rank, call, b, first.0);
            && r.1.Ok?
            && (FindPrior(r.0, call, HashOf(call, b, map[a := SafeMetadata(r.1.outcome.output)])) == -1 ==>
                  ((again.1.Ok? && OnlySkips(first.0, again.0)) <==> forall k :: k in r.1.outcome.output ==> k in ALLOWED_METADATA))
  {
    var r := RunAsset(sys, rank, call, a, log);
    ChainRun(sys, rank, call, a, b, log);
    ChainNeedsFirst(sys, rank, call, a, b, log);
    DependenciesSettle(sys, rank, call, log, b, 1);
    RepeatSkipsIff(sys, rank, call, log, b);
    StoredSingle(a, r.1.outcome.output);
    SafeWhenAllowed(r.1.outcome.output);
  }

  lemma StoredSingle(a: string, out: Json)
    ensures Stored(map[a := out]) == map[a := SafeMetadata(out)]
    ensures Stored(map[a := out]) == map[a := out] <==> SafeMetadata(out) == out
  {
    assert map[a := out][a] == out && map[a := SafeMetadata(out)][a] == SafeMetadata(out);
  }

  lemma ChainNeedsFirst(sys: System, rank: map<string, nat>, call: Call, a: string, b: string, log: seq<Run>)
    requires Chain(sys, rank, a, b) && RunAsset(sys, rank, call, b, log).1.Ok?
    ensures RunAsset(sys, rank, call, a, log).1.Ok?
  {
    assert sys.assets[b].dependencies[0] == a;
    assert RunDependencies(sys, rank, call, b, log, 0) == (log, Outputs(map[]));
  }

  /** If `a` was on record before, `b` saw its stored output the first time too, and the
      repeat computes nothing, whatever `a` returns when it is computed. */
  lemma ChainOnRecordAlwaysSkips(sys: System, rank: map<string, nat>, call: Call, a: string, b: string, log: seq<Run>)
    requires Chain(sys, rank, a, b) && call.backfill.None? && SoundLog(log)
    requires FindPrior(log, call, HashOf(call, a, map[])) >= 0 && RunAsset(sys, rank, call, b, log).1.Ok?
    ensures var first := RunAsset(sys, rank, call, b, log);
            var again := RunAsset(sys, rank, call, b, first.0);
            again.1.Ok? && OnlySkips(first.0, again.0)
  {
    ChainRun(sys, rank, call, a, b, log);
    var out := RunAsset(sys, rank, call, a, log).1.outcome.output;
    assert Sound(log[FindPrior(log, call, HashOf(call, a, map[]))]);
    StoredSingle(a, out);
    RepeatIsMemoised(sys, rank, call, log, b);
  }

  const LEAKY := System(map["a" := Asset([], 1), "b" := Asset(["a"], 1)],
                        (name, context, n) => if name == "a" then Returns(map["path" := "x"]) else Returns(map[]))
  const LEAKY_RANK: map<string, nat> := map["a" := 0, "b" := 1]
  const PLAIN_CALL := Call(0, None, map[], map[], None)

  lemma LeakyChain()
    ensures Chain(LEAKY, LEAKY_RANK, "a", "b")
  {
  }

  /** From an empty log, a first asset that returns a key that is not stored makes the repeat compute. */
  lemma LeakComputesAgain(sys: System, rank: map<string, nat>, call: Call, a: string, b: string, key: string)
    requires Chain(sys, rank, a, b) && call.backfill.None? && RunAsset(sys, rank, call, b, []).1.Ok?
    requires var r := RunAsset(sys, rank, call, a, []);
             r.1.Ok? && |r.0| == 1 && r.0[0].asset == a && key in r.1.outcome.output && key !in ALLOWED_METADATA
    ensures var first := RunAsset(sys, rank, call, b, []);
            var again := RunAsset(sys, rank, call, b, first.0);
            !(again.1.Ok? && OnlySkips(first.0, again.0))
  {
    var r := RunAsset(sys, rank, call, a, []);
    FindPriorAppend([], r.0[0], call, HashOf(call, b, map[a := SafeMetadata(r.1.outcome.output)]));
    assert [] + [r.0[0]] == r.0;
    ChainSkipsIffSafe(sys, rank, call, a, b, []);
  }

  /** A chain whose computations return at once, from an empty log. */
  lemma ChainStarts(sys: System, rank: map<string, nat>, call: Call, a: string, b: string, out: Json)
    requires Chain(sys, rank, a, b) && sys.compute(a, Context(call.base, map[]), 0) == Returns(out)
    requires sys.compute(b, Context(call.base, map[a := out]), 1).Returns?
    ensures var r := RunAsset(sys, rank, call, a, []);
            r.1.Ok? && |r.0| == 1 && r.0[0].asset == a && r.1.outcome.output == out
    ensures RunAsset(sys, rank, call, b, []).1.Ok?
  {
    ChainRun(sys, rank, call, a, b, []);
    FirstAttempt(sys, call, HashOf(call, a, map[]), sys.assets[a].maxAttempts, [], out);
    var row := RunAsset(sys, rank, call, a, []).0[0];
    assert RunAsset(sys, rank, call, a, []).0 == [] + [row];
    FindPriorAppend([], row, call, HashOf(call, b, map[a := out]));
  }

  lemma FirstAttempt(sys: System, call: Call, hash: Hash, maxAttempts: int, log: seq<Run>, out: Json)
    requires maxAttempts >= 1 && sys.compute(hash.asset, hash.context, |log|) == Returns(out)
    ensures var r := Attempts(sys, call, hash, maxAttempts, log, 1);
            r.1.Ok? && r.1.outcome.output == out && |r.0| == |log| + 1 && r.0[|log|].asset == hash.asset
  {
  }

  lemma PathIsNotStored()
    ensures "path" !in ALLOWED_METADATA
  {
    assert forall k :: k in ALLOWED_METADATA ==> |k| > 4;
  }

  /** One such system: "a" returns a path, which is not stored. */
  lemma LeakyRepeatComputes()
    ensures var first := RunAsset(LEAKY, LEAKY_RANK, PLAIN_CALL, "b", []);
            var again := RunAsset(LEAKY, LEAKY_RANK, PLAIN_CALL, "b", first.0);
            first.1.Ok? && !(again.1.Ok? && OnlySkips(first.0, again.0))
  {
    LeakyChain();
    PathIsNotStored();
    ChainStarts(LEAKY, LEAKY_RANK, PLAIN_CALL, "a", "b", map["path" := "x"]);
    LeakComputesAgain(LEAKY, LEAKY_RANK, PLAIN_CALL, "a", "b", "path");
  }

  // ----- The rows of one call -----

  /** A row says how the computation ended that was called when the log had length `i`. */
  ghost predicate Tells(sys: System, row: Run, hash: Hash, i: nat) {
    match sys.compute(hash.asset, hash.context, i)
    case Returns(output) => row.status == Succeeded && row.failure.None? && row.metadata == SafeMetadata(output)
    case Raises(code) => row.status == Failed && row.failure == Some(code) && row.metadata == map[]
  }

  /** The rows a computation leaves: attempts `k, k + 1, ...`, all failed but the last one of a
      success, whose output is the result. */
  ghost predicate AttemptRows(sys: System, log: seq<Run>, r: (seq<Run>, Result), hash: Hash, k: nat) {
    && |log| <= |r.0| && r.0[..|log|] == log
    && (forall i {:trigger r.0[i]} :: |log| <= i < |r.0| ==>
          && r.0[i].hash == hash && r.0[i].asset == hash.asset && r.0[i].attempt == k + i - |log|
          && Tells(sys, r.0[i], hash, i)
          && (r.0[i].status == Succeeded <==> r.1.Ok? && i == |r.0| - 1))
    && (r.1.Ok? ==> |r.0| > |log| && sys.compute(hash.asset, hash.context, |r.0| - 1) == Returns(r.1.outcome.output))
  }

  /** Attempts run until the first success, and an error means that all of them failed. */
  lemma {:induction false} AttemptsShape(sys: System, call: Call, hash: Hash, maxAttempts: int, log: seq<Run>, k: nat)
    requires k <= maxAttempts + 1
    ensures var r := Attempts(sys, call, hash, maxAttempts, log, k);
            && AttemptRows(sys, log, r, hash, k)
            && (if r.1.Ok? then 1 <= |r.0| - |log| <= maxAttempts + 1 - k else |r.0| - |log| == maxAttempts + 1 - k)
    decreases maxAttempts + 1 - k
  {
    if k <= maxAttempts {
      match sys.compute(hash.asset, hash.context, |log|)
      case Returns(_) =>
      case Raises(code) =>
        var failed := NewRun(call, hash, Failed, k, map[], Some(code));
        var more := log + [failed];
        AttemptsShape(sys, call, hash, maxAttempts, more, k + 1);
        OneMoreAttempt(sys, log, failed, Attempts(sys, call, hash, maxAttempts, more, k + 1), hash, k);
    }
  }

  lemma OneMoreAttempt(sys: System, log: seq<Run>, failed: Run, r: (seq<Run>, Result), hash: Hash, k: nat)
    requires AttemptRows(sys, log + [failed], r, hash, k + 1) && Tells(sys, failed, hash, |log|) && failed.status == Failed
    requires failed.hash == hash && failed.asset == hash.asset && failed.attempt == k
    ensures AttemptRows(sys, log, r, hash, k)
  {
    var more := log + [failed];
    assert r.0[|log|] == r.0[..|more|][|log|] == failed;
    assert r.0[..|log|] == r.0[..|more|][..|log|] == log;
  }

  // ----- What a call returns -----

  /** The outcome of a call that returned: what the computation returned when it was called on
      the inputs named in the hash, or what is stored of the newest success under that hash. */
  ghost predicate Justified(sys: System, call: Call, a: string, log: seq<Run>, outcome: Outcome) {
    && log != [] && outcome.asset == a && outcome.hash == HashOf(call, a, outcome.hash.context.dependencies)
    && var last := log[|log| - 1];
       && last.asset == a && last.hash == outcome.hash && last.status == outcome.status
       && (if outcome.status == Succeeded
           then sys.compute(a, Context(call.base, outcome.hash.context.dependencies), |log| - 1) == Returns(outcome.output)
                && outcome.watermark == call.watermark
           else && outcome.status == Skipped && call.backfill.None? && last.prior.Some? && last.prior.value < |log|
                && Prior(log[last.prior.value], call, outcome.hash)
                && outcome.output == log[last.prior.value].metadata && outcome.watermark == log[last.prior.value].watermark)
  }

  lemma {:induction false} AttemptsJustified(sys: System, call: Call, hash: Hash, maxAttempts: int, log: seq<Run>, k: nat)
    requires hash == HashOf(call, hash.asset, hash.context.dependencies)
    ensures var r := Attempts(sys, call, hash, maxAttempts, log, k);
            r.1.Ok? ==> Justified(sys, call, hash.asset, r.0, r.1.outcome) && r.1.outcome.status == Succeeded && r.1.outcome.hash == hash
    decreases maxAttempts + 1 - k
  {
    if k <= maxAttempts {
      match sys.compute(hash.asset, hash.context, |log|)
      case Returns(_) =>
      case Raises(code) =>
        AttemptsJustified(sys, call, hash, maxAttempts, log + [NewRun(call, hash, Failed, k, map[], Some(code))], k + 1);
    }
  }

  /** Every call that returns is justified by the last row it added, and its hash names the
      outputs that its dependencies returned within the call. */
  lemma CallIsJustified(sys: System, rank: map<string, nat>, call: Call, a: string, log: seq<Run>)
    requires Acyclic(sys, rank)
    ensures var r := RunAsset(sys, rank, call, a, log);
            r.1.Ok? ==>
              && a in sys.assets && Justified(sys, call, a, r.0, r.1.outcome)
              && RunDependencies(sys, rank, call, a, log, |sys.assets[a].dependencies|).1 == Outputs(r.1.outcome.hash.context.dependencies)
  {
    if RunAsset(sys, rank, call, a, log).1.Ok? {
      var g := RunDependencies(sys, rank, call, a, log, |sys.assets[a].dependencies|);
      AttemptsJustified(sys, call, HashOf(call, a, g.1.outputs), sys.assets[a].maxAttempts, g.0, 1);
    }
  }

  /** `b` is `a` or one of its direct or indirect dependencies. */
  ghost predicate Involves(sys: System, rank: map<string, nat>, a: string, b: string)
    requires Acyclic(sys, rank)
  {
    a == b || DependsOn(sys, rank, a, b)
  }

  /** Why a call failed: an asset it involves is not registered, or the last row it added is the
      last failed attempt of one. */
  ghost predicate Explained(sys: System, rank: map<string, nat>, a: string, log: seq<Run>, later: seq<Run>, error: Error)
    requires Acyclic(sys, rank)
  {
    match error
    case NotRegistered => exists b :: Involves(sys, rank, a, b) && b !in sys.assets
    case AssetFailed =>
      && |log| < |later| && later[|later| - 1].status == Failed
      && later[|later| - 1].asset in sys.assets && later[|later| - 1].attempt == sys.assets[later[|later| - 1].asset].maxAttempts
  }

  lemma {:induction false} ErrorIsExplained(sys: System, rank: map<string, nat>, call: Call, a: string, log: seq<Run>)
    requires Acyclic(sys, rank) && PositiveAttempts(sys)
    ensures var r := RunAsset(sys, rank, call, a, log);
            r.1.Err? ==> Explained(sys, rank, a, log, r.0, r.1.error)
    decreases RankOf(sys, rank, a), 1, 0
  {
    if a !in sys.assets {
      assert Involves(sys, rank, a, a);
    } else {
      var n := |sys.assets[a].dependencies|;
      StopIsExplained(sys, rank, call, a, log, n);
      var g := RunDependencies(sys, rank, call, a, log, n);
      if g.1.Outputs? {
        SelfFails(sys, call, a, g.1.outputs, g.0);
      }
    }
  }

  lemma SelfFails(sys: System, call: Call, a: string, outputs: map<string, Json>, log: seq<Run>)
    requires a in sys.assets && sys.assets[a].maxAttempts >= 1
    ensures var r := RunSelf(sys, call, a, outputs, log);
            r.1.Err? ==>
              && r.1.error == AssetFailed && |log| < |r.0| && r.0[|r.0| - 1].status == Failed
              && r.0[|r.0| - 1].asset == a && r.0[|r.0| - 1].attempt == sys.assets[a].maxAttempts
  {
    var hash := HashOf(call, a, outputs);
    AttemptsShape(sys, call, hash, sys.assets[a].maxAttempts, log, 1);
    AttemptsFail(sys, call, hash, sys.assets[a].maxAttempts, log, 1);
    var r := Attempts(sys, call, hash, sys.assets[a].maxAttempts, log, 1);
    if r.1.Err? {
      assert r.0[|r.0| - 1].status != Succeeded;
    }
  }

  lemma {:induction false} AttemptsFail(sys: System, call: Call, hash: Hash, maxAttempts: int, log: seq<Run>, k: nat)
    ensures var r := Attempts(sys, call, hash, maxAttempts, log, k); r.1.Err? ==> r.1.error == AssetFailed
    decreases maxAttempts + 1 - k
  {
    if k <= maxAttempts {
      match sys.compute(hash.asset, hash.context, |log|)
      case Returns(_) =>
      case Raises(code) =>
        AttemptsFail(sys, call, hash, maxAttempts, log + [NewRun(call, hash, Failed, k, map[], Some(code))], k + 1);
    }
  }

  lemma {:induction false} StopIsExplained(sys: System, rank: map<string, nat>, call: Call, a: string, log: seq<Run>, n: nat)
    requires Acyclic(sys, rank) && PositiveAttempts(sys) && a in sys.assets && n <= |sys.assets[a].dependencies|
    ensures var g := RunDependencies(sys, rank, call, a, log, n);
            g.1.Stopped? ==> Explained(sys, rank, a, log, g.0, g.1.error)
    decreases RankOf(sys, rank, a), 0, n
  {
    if n == 0 {
    } else {
      StopIsExplained(sys, rank, call, a, log, n - 1);
      var g := RunDependencies(sys, rank, call, a, log, n - 1);
      if g.1.Outputs? {
        var d := sys.assets[a].dependencies[n - 1];
        ErrorIsExplained(sys, rank, call, d, g.0);
        var r := RunAsset(sys, rank, call, d, g.0);
        if r.1.Err? {
          ExplainedAbove(sys, rank, a, n - 1, log, g.0, r.0, r.1.error);
        }
      }
    }
  }

  lemma ExplainedAbove(sys: System, rank: map<string, nat>, a: string, n: nat, log: seq<Run>, now: seq<Run>, later: seq<Run>, error: Error)
    requires Acyclic(sys, rank) && a in sys.assets && n < |sys.assets[a].dependencies| && |log| <= |now|
    requires Explained(sys, rank, sys.assets[a].dependencies[n], now, later, error)
    ensures Explained(sys, rank, a, log, later, error)
  {
    if error == NotRegistered {
      var d := sys.assets[a].dependencies[n];
      var b :| Involves(sys, rank, d, b) && b !in sys.assets;
      assert DependsOn(sys, rank, a, b);
      assert Involves(sys, rank, a, b);
    }
  }

  /** A backfill computes at every depth: no row it adds is a skip, every row names it, and what
      it returns is what the computation returned. */
  lemma BackfillComputes(sys: System, rank: map<string, nat>, call: Call, a: string, log: seq<Run>)
    requires Acyclic(sys, rank) && call.backfill.Some?
    ensures var r := RunAsset(sys, rank, call, a, log);
            && (forall i :: |log| <= i < |r.0| ==> r.0[i].status != Skipped && r.0[i].backfill == call.backfill)
            && (r.1.Ok? ==>
                  && r.1.outcome.status == Succeeded && |r.0| > 0
                  && sys.compute(a, Context(call.base, r.1.outcome.hash.context.dependencies), |r.0| - 1) == Returns(r.1.outcome.output))
  {
    var r := RunAsset(sys, rank, call, a, log);
    RunLegit(sys, rank, call, a, log);
    CallIsJustified(sys, rank, call, a, log);
    forall i | |log| <= i < |r.0| ensures r.0[i].status != Skipped && r.0[i].backfill == call.backfill {
      assert Legit(call, r.0[..i], r.0[i]);
    }
  }

  /** Between `from` and `to` the asset ended well. */
  ghost predicate Ended(log: seq<Run>, from: nat, to: nat, a: string) {
    exists j :: EndedAt(log, from, to, a, j)
  }

  ghost predicate EndedAt(log: seq<Run>, from: nat, to: nat, a: string, j: int) {
    from <= j < to && j < |log| && log[j].asset == a && (log[j].status == Succeeded || log[j].status == Skipped)
  }

  /** Every dependency of the row's asset ended well before the row, within the call. */
  ghost predicate SupportedAt(sys: System, log: seq<Run>, from: nat, i: nat)
    requires i < |log|
  {
    log[i].asset in sys.assets &&
    forall n :: 0 <= n < |sys.assets[log[i].asset].dependencies| ==>
      Ended(log, from, i, sys.assets[log[i].asset].dependencies[n])
  }

  ghost predicate Supported(sys: System, log: seq<Run>, from: nat, to: nat)
    requires to <= |log|
  {
    forall i: nat {:trigger SupportedAt(sys, log, from, i)} :: from <= i < to ==> SupportedAt(sys, log, from, i)
  }

  lemma EndedMore(log: seq<Run>, later: seq<Run>, from: nat, to: nat, a: string, from': nat, to': nat)
    requires |log| <= |later| && later[..|log|] == log && from' <= from && to <= to' && Ended(log, from, to, a)
    ensures Ended(later, from', to', a)
  {
    var j :| EndedAt(log, from, to, a, j);
    assert later[j] == later[..|log|][j] == log[j];
    assert EndedAt(later, from', to', a, j);
  }

  lemma SupportedMore(sys: System, log: seq<Run>, later: seq<Run>, from: nat, from': nat)
    requires |log| <= |later| && later[..|log|] == log && from' <= from && Supported(sys, log, from, |log|)
    ensures forall i: nat {:trigger SupportedAt(sys, later, from', i)} :: from <= i < |log| ==> SupportedAt(sys, later, from', i)
  {
    forall i: nat | from <= i < |log| ensures SupportedAt(sys, later, from', i) {
      assert SupportedAt(sys, log, from, i);
      assert later[i] == later[..|log|][i] == log[i];
      forall n | 0 <= n < |sys.assets[log[i].asset].dependencies|
        ensures Ended(later, from', i, sys.assets[log[i].asset].dependencies[n])
      {
        EndedMore(log, later, from, i, sys.assets[log[i].asset].dependencies[n], from', i);
      }
    }
  }

  lemma SelfRows(sys: System, call: Call, a: string, outputs: map<string, Json>, log: seq<Run>)
    requires a in sys.assets && sys.assets[a].maxAttempts >= 0
    ensures var r := RunSelf(sys, call, a, outputs, log);
            && (forall i :: |log| <= i < |r.0| ==> r.0[i].asset == a)
            && (r.1.Ok? ==> Ended(r.0, |log|, |r.0|, a))
  {
    var hash := HashOf(call, a, outputs);
    AttemptsShape(sys, call, hash, sys.assets[a].maxAttempts, log, 1);
    var r := RunSelf(sys, call, a, outputs, log);
    if r.1.Ok? {
      assert EndedAt(r.0, |log|, |r.0|, a, |r.0| - 1);
    }
  }

  ghost predicate PositiveAttempts(sys: System) {
    forall a {:trigger sys.assets[a]} :: a in sys.assets ==> sys.assets[a].maxAttempts >= 1
  }

  /** Dependencies come first: no row of an asset appears in a call before every one of
      its dependencies ended there in a success or a skip; by the same token neither do
      the dependencies' own rows, so this reaches through the whole graph. */
  lemma {:induction false} DependenciesComeFirst(sys: System, rank: map<string, nat>, call: Call, a: string, log: seq<Run>)
    requires Acyclic(sys, rank) && PositiveAttempts(sys)
    ensures var r := RunAsset(sys, rank, call, a, log);
            Supported(sys, r.0, |log|, |r.0|) && (r.1.Ok? ==> Ended(r.0, |log|, |r.0|, a))
    decreases RankOf(sys, rank, a), 1, 0
  {
    if a in sys.assets {
      var n := |sys.assets[a].dependencies|;
      GatheringIsSupported(sys, rank, call, a, log, n);
      var g := RunDependencies(sys, rank, call, a, log, n);
      if g.1.Outputs? {
        SelfIsSupported(sys, call, a, g.1.outputs, log, g.0);
      }
    }
  }

  lemma SelfIsSupported(sys: System, call: Call, a: string, outputs: map<string, Json>, log: seq<Run>, now: seq<Run>)
    requires a in sys.assets && PositiveAttempts(sys) && |log| <= |now|
    requires Supported(sys, now, |log|, |now|)
    requires forall i :: 0 <= i < |sys.assets[a].dependencies| ==> Ended(now, |log|, |now|, sys.assets[a].dependencies[i])
    ensures var r := RunSelf(sys, call, a, outputs, now);
            Supported(sys, r.0, |log|, |r.0|) && (r.1.Ok? ==> Ended(r.0, |log|, |r.0|, a))
  {
    var r := RunSelf(sys, call, a, outputs, now);
    SelfRows(sys, call, a, outputs, now);
    SupportedMore(sys, now, r.0, |log|, |log|);
    forall i: nat | |log| <= i < |r.0| ensures SupportedAt(sys, r.0, |log|, i) {
      if i >= |now| {
        forall n | 0 <= n < |sys.assets[a].dependencies| ensures Ended(r.0, |log|, i, sys.assets[a].dependencies[n]) {
          EndedMore(now, r.0, |log|, |now|, sys.assets[a].dependencies[n], |log|, i);
        }
      }
    }
    if r.1.Ok? {
      EndedMore(r.0, r.0, |now|, |r.0|, a, |log|, |r.0|);
    }
  }

  lemma {:induction false} GatheringIsSupported(sys: System, rank: map<string, nat>, call: Call, a: string, log: seq<Run>, n: nat)
    requires Acyclic(sys, rank) && PositiveAttempts(sys) && a in sys.assets && n <= |sys.assets[a].dependencies|
    ensures var g := RunDependencies(sys, rank, call, a, log, n);
            && Supported(sys, g.0, |log|, |g.0|)
            && (g.1.Outputs? ==> forall i :: 0 <= i < n ==> Ended(g.0, |log|, |g.0|, sys.assets[a].dependencies[i]))
    decreases RankOf(sys, rank, a), 0, n
  {
    if n == 0 {
    } else {
      GatheringIsSupported(sys, rank, call, a, log, n - 1);
      var g := RunDependencies(sys, rank, call, a, log, n - 1);
      if g.1.Outputs? {
        var d := sys.assets[a].dependencies[n - 1];
        DependenciesComeFirst(sys, rank, call, d, g.0);
        var r := RunAsset(sys, rank, call, d, g.0);
        AppendSupported(sys, log, g.0, r.0);
        if r.1.Ok? {
          AllEndedMore(sys.assets[a].dependencies, n, |log|, g.0, r.0);
        }
      }
    }
  }

  lemma AllEndedMore(list: seq<string>, n: nat, from: nat, now: seq<Run>, later: seq<Run>)
    requires 0 < n <= |list| && from <= |now| <= |later| && later[..|now|] == now
    requires forall i :: 0 <= i < n - 1 ==> Ended(now, from, |now|, list[i])
    requires Ended(later, |now|, |later|, list[n - 1])
    ensures forall i :: 0 <= i < n ==> Ended(later, from, |later|, list[i])
  {
    forall i | 0 <= i < n ensures Ended(later, from, |later|, list[i]) {
      if i < n - 1 {
        EndedMore(now, later, from, |now|, list[i], from, |later|);
      } else {
        EndedMore(later, later, |now|, |later|, list[i], from, |later|);
      }
    }
  }

  lemma AppendSupported(sys: System, log: seq<Run>, now: seq<Run>, later: seq<Run>)
    requires |log| <= |now| <= |later| && later[..|now|] == now
    requires Supported(sys, now, |log|, |now|) && Supported(sys, later, |now|, |later|)
    ensures Supported(sys, later, |log|, |later|)
  {
    SupportedMore(sys, now, later, |log|, |log|);
    SupportedMore(sys, later, later, |now|, |log|);
  }

  // ----- The program -----

  datatype Notice = Notice(hook: nat, asset: string, code: string)
  datatype RegisterError = DuplicateAsset | BadAttempts

  function HookCalls(hooks: nat, asset: string, code: string): seq<Notice> {
    seq(hooks, i requires 0 <= i < hooks => Notice(i, asset, code))
  }

  /** One call of every hook for every failed attempt, in order. */
  function Notices(hooks: nat, rows: seq<Run>): seq<Notice> {
    if rows == [] then []
    else
      var r := rows[|rows| - 1];
      Notices(hooks, rows[..|rows| - 1])
      + if r.status == Failed && r.failure.Some? then HookCalls(hooks, r.asset, r.failure.value) else []
  }

  lemma NoticesAppend(hooks: nat, rows: seq<Run>, r: Run)
    ensures Notices(hooks, rows + [r]) ==
            Notices(hooks, rows) + if r.status == Failed && r.failure.Some? then HookCalls(hooks, r.asset, r.failure.value) else []
  {
    assert (rows + [r])[..|rows|] == rows;
  }

  /** Every hook is called exactly once for a failure, with its asset and code. */
  lemma HookCallsExactly(hooks: nat, rows: seq<Run>, r: Run)
    requires r.status == Failed && r.failure.Some?
    ensures var before, after := Notices(hooks, rows), Notices(hooks, rows + [r]);
            && before <= after && |after| == |before| + hooks
            && forall h :: 0 <= h < hooks ==> after[|before| + h] == Notice(h, r.asset, r.failure.value)
  {
    NoticesAppend(hooks, rows, r);
  }

  class AssetOrchestrator {
    const hooks: nat
    var assets: map<string, Asset>
    var log: seq<Run>
    var notices: seq<Notice>

    /** The hook calls made so far are exactly those of the failed rows, and every registered
        asset may be attempted between one and ten times. */
    ghost predicate Valid()
      reads this
    {
      && notices == Notices(hooks, log)
      && forall a {:trigger assets[a]} :: a in assets ==> 1 <= assets[a].maxAttempts <= 10
    }

    constructor (hooks: nat)
      ensures Valid() && assets == map[] && log == [] && this.hooks == hooks
    {
      this.hooks := hooks;
      assets, log, notices := map[], [], [];
    }

    method Register(key: string, asset: Asset) returns (error: Option<RegisterError>)
      requires Valid()
      modifies `assets
      ensures Valid()
      ensures error == (if key in old(assets) then Some(DuplicateAsset)
                        else if asset.maxAttempts < 1 || asset.maxAttempts > 10 then Some(BadAttempts) else None)
      ensures assets == if error.None? then old(assets)[key := asset] else old(assets)
    {
      if key in assets {
        return Some(DuplicateAsset);
      }
      if asset.maxAttempts < 1 || asset.maxAttempts > 10 {
        return Some(BadAttempts);
      }
      assets := assets[key := asset];
      return None;
    }

    /** One attempt: logged as running, then rewritten when it ends; every hook hears of a failure. */
    method TryOnce(compute: (string, Context, nat) -> Attempt, call: Call, hash: Hash, attempt: int) returns (outcome: Attempt)
      requires Valid()
      modifies `log, `notices
      ensures Valid() && outcome == compute(hash.asset, hash.context, |old(log)|)
      ensures log == old(log) + [if outcome.Returns? then NewRun(call, hash, Succeeded, attempt, SafeMetadata(outcome.output), None)
                                 else NewRun(call, hash, Failed, attempt, map[], Some(outcome.code))]
    {
      var before := log;
      log := before + [NewRun(call, hash, Running, attempt, map[], None)];
      outcome := compute(hash.asset, hash.context, |before|);
      var row := if outcome.Returns? then NewRun(call, hash, Succeeded, attempt, SafeMetadata(outcome.output), None)
                 else NewRun(call, hash, Failed, attempt, map[], Some(outcome.code));
      NoticesAppend(hooks, before, row);
      log := log[|before| := row];
      assert log == before + [row];
      if outcome.Raises? {
        notices := notices + HookCalls(hooks, hash.asset, outcome.code);
      }
    }

    /** The retry loop. */
    method Retry(compute: (string, Context, nat) -> Attempt, call: Call, hash: Hash, maxAttempts: int) returns (result: Result)
      requires Valid()
      modifies `log, `notices
      ensures Valid()
      ensures (log, result) == Attempts(System(assets, compute), call, hash, maxAttempts, old(log), 1)
    {
      ghost var sys := System(assets, compute);
      var attempt := 1;
      while attempt <= maxAttempts
        invariant 1 <= attempt && Valid()
        invariant Attempts(sys, call, hash, maxAttempts, log, attempt) == Attempts(sys, call, hash, maxAttempts, old(log), 1)
        decreases maxAttempts - attempt
      {
        var outcome := TryOnce(compute, call, hash, attempt);
        if outcome.Returns? {
          return Ok(Outcome(hash.asset, Succeeded, hash, outcome.output, call.watermark));
        }
        attempt := attempt + 1;
      }
      return Err(AssetFailed);
    }

    method Self(compute: (string, Context, nat) -> Attempt, call: Call, a: string, outputs: map<string, Json>) returns (result: Result)
      requires Valid() && a in assets
      modifies `log, `notices
      ensures Valid()
      ensures (log, result) == RunSelf(System(assets, compute), call, a, outputs, old(log))
    {
      var hash := HashOf(call, a, outputs);
      var prior := FindPrior(log, call, hash);
      if prior >= 0 && call.backfill.None? {
        var found := log[prior];
        var row := SkippedRun(call, hash, prior);
        NoticesAppend(hooks, log, row);
        log := log + [row];
        return Ok(Outcome(a, Skipped, hash, found.metadata, found.watermark));
      }
      result := Retry(compute, call, hash, assets[a].maxAttempts);
    }

    /** Runs the dependencies of an asset in order and gathers their outputs. */
    method Gather(compute: (string, Context, nat) -> Attempt, ghost sys: System, ghost rank: map<string, nat>, call: Call, a: string)
      returns (g: Gathered)
      requires Valid() && sys == System(assets, compute) && Acyclic(sys, rank) && a in assets
      modifies `log, `notices
      ensures Valid() && GatheredSoFar(sys, rank, call, a, old(log), |assets[a].dependencies|, log, g)
      decreases RankOf(sys, rank, a), 0
    {
      var dependencies := assets[a].dependencies;
      var outputs: map<string, Json> := map[];
      for n := 0 to |dependencies|
        invariant Valid() && GatheredSoFar(sys, rank, call, a, old(log), n, log, Outputs(outputs))
      {
        ghost var now := log;
        var r := RunCall(compute, sys, rank, call, dependencies[n]);
        DependenciesStep(sys, rank, call, a, old(log), n, now, outputs, (log, r));
        if r.Err? {
          return Stopped(r.error);
        }
        outputs := outputs[dependencies[n] := r.outcome.output];
      }
      g := Outputs(outputs);
    }

    /** Runs an asset: its dependencies in order, then itself. */
    method RunCall(compute: (string, Context, nat) -> Attempt, ghost sys: System, ghost rank: map<string, nat>, call: Call, a: string)
      returns (result: Result)
      requires Valid() && sys == System(assets, compute) && Acyclic(sys, rank)
      modifies `log, `notices
      ensures Valid() && PositiveAttempts(sys)
      ensures (log, result) == RunAsset(sys, rank, call, a, old(log))
      decreases RankOf(sys, rank, a), 1
    {
      if a !in assets {
        return Err(NotRegistered);
      }
      var g := Gather(compute, sys, rank, call, a);
      match g
      case Stopped(error) => result := Err(error);
      case Outputs(outputs) => result := Self(compute, call, a, outputs);
    }
  }

  /** What the first `n` dependencies of `a` come to: their outputs, or where one stopped the rest. */
  ghost predicate GatheredSoFar(sys: System, rank: map<string, nat>, call: Call, a: string, log: seq<Run>, n: nat, now: seq<Run>, g: Gathered)
    requires Acyclic(sys, rank)
  {
    a in sys.assets && n <= |sys.assets[a].dependencies| && RunDependencies(sys, rank, call, a, log, n) == (now, g)
  }

  lemma DependenciesStep(sys: System, rank: map<string, nat>, call: Call, a: string, log: seq<Run>, n: nat,
                         now: seq<Run>, outputs: map<string, Json>, r: (seq<Run>, Result))
    requires Acyclic(sys, rank) && GatheredSoFar(sys, rank, call, a, log, n, now, Outputs(outputs)) && n < |sys.assets[a].dependencies|
    requires r == RunAsset(sys, rank, call, sys.assets[a].dependencies[n], now)
    ensures r.1.Ok? ==> GatheredSoFar(sys, rank, call, a, log, n + 1, r.0, Outputs(outputs[sys.assets[a].dependencies[n] := r.1.outcome.output]))
    ensures r.1.Err? ==> GatheredSoFar(sys, rank, call, a, log, |sys.assets[a].dependencies|, r.0, Stopped(r.1.error))
  {
    if r.1.Err? {
      StoppedStays(sys, rank, call, a, log, n + 1, |sys.assets[a].dependencies|);
    }
  }

  lemma {:induction false} StoppedStays(sys: System, rank: map<string, nat>, call: Call, a: string, log: seq<Run>, n: nat, m: nat)
    requires Acyclic(sys, rank) && a in sys.assets && n <= m <= |sys.assets[a].dependencies|
    requires RunDependencies(sys, rank, call, a, log, n).1.Stopped?
    ensures RunDependencies(sys, rank, call, a, log, m) == RunDependencies(sys, rank, call, a, log, n)
    decreases m
  {
    if n < m {
      StoppedStays(sys, rank, call, a, log, n, m - 1);
    }
  }
}
