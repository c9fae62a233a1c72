/** `run_update_task` of the Flask front end (the same code in
    backups/kr_etf_investor_backup_v1.0.1_20260102_2215/kr_etf_investor/flask_app.py
    and backups/kr_etf_investor_backup_v1.0.3_20260103_1436/kr_etf_investor/flask_app.py):
    the status record a refresh run updates step by step, and the summary
    comparing the universe's tickers before and after the run. The loader
    run itself is the parameter `outcome`; the universe files are the ticker
    sets read before and after (None for an unreadable file). */
module UpdateTask {
  import opened Common

  datatype Summary = Summary(total: nat, newCount: nat, updatedCount: nat, newSymbols: seq<string>)

  /** How the loader run ended: normally, stopped by the user, or with an
      error and its message. */
  datatype Outcome = Finished | Stopped | Failed(err: string)

  /** The summary of a run: the new tickers once each, and the counts. */
  method Summarize(oldKeys: set<string>, newKeys: set<string>) returns (s: Summary)
    ensures s.total == |newKeys|
    ensures s.newCount == |newKeys - oldKeys|
    ensures s.updatedCount == |newKeys * oldKeys|
    ensures Distinct(s.newSymbols) && forall t :: t in s.newSymbols <==> t in newKeys && t !in oldKeys
  {
    var newItems := newKeys - oldKeys;
    var symbols := ElementsOf(newItems);
    s := Summary(|newKeys|, |newItems|, |newKeys * oldKeys|, symbols);
  }

  /** Every ticker after the run is either new or updated, never both. */
  lemma SummaryAddsUp(oldKeys: set<string>, newKeys: set<string>)
    ensures |newKeys| == |newKeys - oldKeys| + |newKeys * oldKeys|
    ensures newKeys <= oldKeys ==> |newKeys - oldKeys| == 0
  {
    var added, kept := newKeys - oldKeys, newKeys * oldKeys;
    assert added * kept == {};
    assert added + kept == newKeys;
    assert |added + kept| + |added * kept| == |added| + |kept|;
    if newKeys <= oldKeys {
      assert added == {};
    }
  }

  class UpdateStatus {
    var isRunning: bool
    var message: string
    var progress: int
    var summary: Option<Summary>
    var lastRun: string

    constructor ()
      ensures !isRunning && summary.None? && progress == 0
    {
      isRunning := false;
      message := "";
      progress := 0;
      summary := None;
      lastRun := "";
    }

    /** `run_update_task`: the status is reset, the loader runs, and the run
        ends cancelled, completed with its summary, or failed with the error;
        in every case the update is no longer running. */
    method RunUpdate(oldUniverse: Option<set<string>>, outcome: Outcome, newUniverse: Option<set<string>>,
                     now: string)
      modifies this
      ensures !isRunning
      ensures outcome.Stopped? ==>
        message == "Update Cancelled" && progress == 0 && summary.None? && lastRun == old(lastRun)
      ensures outcome.Failed? ==>
        message == "Error: " + outcome.err && progress == 0 && summary.None? && lastRun == old(lastRun)
      ensures outcome.Finished? ==>
        message == "Update Completed" && progress == 100 && lastRun == now && summary.Some? &&
        var oldKeys, newKeys := oldUniverse.GetOr({}), newUniverse.GetOr({});
        summary.value.total == |newKeys| &&
        summary.value.newCount == |newKeys - oldKeys| &&
        summary.value.updatedCount == |newKeys * oldKeys| &&
        forall t :: t in summary.value.newSymbols <==> t in newKeys && t !in oldKeys
    {
      isRunning := true;
      message := "Starting Update...";
      progress := 0;
      summary := None;
      var oldKeys := oldUniverse.GetOr({});
      match outcome {
        case Failed(err) =>
          message := "Error: " + err;
          progress := 0;
        case Stopped =>
          message := "Update Cancelled";
          isRunning := false;
        case Finished =>
          var newKeys := newUniverse.GetOr({});
          var s := Summarize(oldKeys, newKeys);
          lastRun := now;
          message := "Update Completed";
          progress := 100;
          summary := Some(s);
      }
      isRunning := false;
    }
  }
}
