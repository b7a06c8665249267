/**
 * The dashboard breakdown read per (category, process) pair: on logs whose
 * classification comes from the process master, the joined key
 * `category + "||" + process` of `computeProjectBreakdown` names exactly one
 * pair, so each value is the ratio summed over that pair.
 */
module Breakdown {
  import opened Text
  import opened Entities
  import opened Process
  import opened Aggregation

  /**
   * On well-classified logs the joined key names one (category, process)
   * pair: the master names hold no `|`, so the first `|` ends the category.
   */
  lemma BreakdownKeyIdentifiesPair(l1: LogRecord, l2: LogRecord)
    requires WellClassified(l1.category, l1.process) && WellClassified(l2.category, l2.process)
    ensures BreakdownKey(l1) == BreakdownKey(l2) <==> l1.category == l2.category && l1.process == l2.process
  {
    if BreakdownKey(l1) == BreakdownKey(l2) {
      MasterNamesHaveNoBar();
      JoinInjectiveLeft(l1.category, l1.process, l2.category, l2.process, "||");
    }
  }

  /** The sum of `ratio` over approved logs of the project in category `c` and process `p`. */
  function PairSum(logs: seq<LogRecord>, projectId: string, c: string, p: string): int {
    if logs == [] then 0
    else
      var l := logs[|logs| - 1];
      PairSum(logs[..|logs| - 1], projectId, c, p)
        + (if Counts(l, projectId) && l.category == c && l.process == p then l.ratio else 0)
  }

  /**
   * On well-classified logs the breakdown's value under `c||p` is the ratio
   * summed over the approved logs of that very category and process.
   */
  lemma {:induction false} RatioSumIsPairSum(logs: seq<LogRecord>, projectId: string, c: string, p: string)
    requires WellClassified(c, p)
    requires forall i :: 0 <= i < |logs| ==> WellClassified(logs[i].category, logs[i].process)
    ensures RatioSum(logs, projectId, c + "||" + p) == PairSum(logs, projectId, c, p)
  {
    if logs != [] {
      var n := |logs| - 1;
      var l := logs[n];
      var probe := l.(category := c, process := p);
      BreakdownKeyIdentifiesPair(l, probe);
      RatioSumIsPairSum(logs[..n], projectId, c, p);
    }
  }
}
