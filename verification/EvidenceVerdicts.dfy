/** When the rollout judge's verdict is `fail`, by what the producers behind its evidence counted
    (src/auth-observability.ts and src/auth-rollout.ts together). */
module EvidenceVerdicts {
  import opened Sequences
  import opened LatencyHistogram
  import opened RolloutContract
  import opened RolloutEvaluator
  import opened RolloutVerdict
  import opened RolloutPass
  import opened Aggregates
  import opened EvidencePipeline
  import RolloutFindings

  lemma FailedBy(input: seq<Input>, inventory: InventoryInput, inputFindings: set<Finding>, e: Evaluation)
    requires IsEvaluation(input, inventory, inputFindings, e)
    ensures var failures := FailureFindings(e.totals, e.p95Bucket);
            e.verdict == Fail <==> CriticalIncident in failures || CallbackBelow in failures || P95Above in failures
  {
    RolloutFindings.VerdictReported(input, inventory, inputFindings, e);
    FailuresAreFailures(e.totals, e.p95Bucket);
    RolloutFindings.VerdictMeans(FailureFindings(e.totals, e.p95Bucket), e.findings);
  }

  /** A judged interval in which a producer emitted a critical alert is never answered by anything
      but `fail`, whatever else was found, an overflow included. */
  lemma CriticalFails(
    input: seq<Input>, inventory: InventoryInput, inputFindings: set<Finding>, e: Evaluation, lives: map<string, Life>)
    requires IsEvaluation(input, inventory, inputFindings, e)
    requires forall s | s in Judged(input, inventory) :: HandedBy(lives, s)
    requires exists s | s in Judged(input, inventory) :: CriticalIn(lives, s) > 0
    ensures e.verdict == Fail
  {
    CriticalOfRuns(input, inventory, inputFindings, e, lives);
    FailedBy(input, inventory, inputFindings, e);
  }

  ghost predicate HandedUncut(input: seq<Input>, inventory: InventoryInput, lives: map<string, Life>) {
    forall s | s in Judged(input, inventory) ::
      HandedBy(lives, s) && |PartOf(lives, s)| <= MAX_SAFE
      && TruthOf(lives, s).success <= MAX_SAFE && TruthOf(lives, s).failure <= MAX_SAFE
  }

  /** Over any runs of any producers the verdict is `fail` exactly when some judged interval had a
      critical alert, the callbacks behind the judged snapshots fell short, or their samples' sorted
      95th percentile is above 20 ms. */
  lemma FailOfRuns(
    input: seq<Input>, inventory: InventoryInput, inputFindings: set<Finding>, e: Evaluation, lives: map<string, Life>)
    requires IsEvaluation(input, inventory, inputFindings, e) && NumericOverflow !in e.findings
    requires HandedUncut(input, inventory, lives)
    ensures var judged := Judged(input, inventory);
            e.verdict == Fail <==>
            || (exists s | s in judged :: CriticalIn(lives, s) > 0)
            || Failing(SumOver(judged, Successes(lives)), SumOver(judged, Failures(lives)))
            || SlowSamples(Flatten(PartsOf(lives, judged)))
  {
    FailedBy(input, inventory, inputFindings, e);
    CriticalOfRuns(input, inventory, inputFindings, e, lives);
    CallbacksOfRuns(input, inventory, inputFindings, e, lives);
    PercentileOfRuns(input, inventory, inputFindings, e, lives);
  }
}
