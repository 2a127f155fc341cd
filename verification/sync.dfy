/** One sync run after both buckets have been listed: diff, worker cap,
    early exit when there is nothing to copy, the confirmation gate, the
    copy phase and the split of its outcomes. */
module Sync {

  import opened Config
  import opened DiffEngine
  import opened Gate
  import opened CopyPhase

  /** How a run ends. */
  datatype RunEnd =
    | NothingToCopy
    | Stopped(gate: GateRun)
    | Completed(gate: GateRun, workers: int, order: seq<string>, outcomes: seq<Outcome>, split: Split)

  /** Process exit status: 0 for nothing to copy, for a declined run and for
      a finished copy phase whatever its failures; 1 when input ended at the
      prompt. */
  function ExitStatus(r: RunEnd): (code: int)
    ensures code == 1 <==> r.Stopped? && r.gate.decision == InputClosed
    ensures code == 0 || code == 1
  {
    match r
    case NothingToCopy => 0
    case Stopped(g) => if g.decision == InputClosed then 1 else 0
    case Completed(_, _, _, _, _) => 0
  }

  /** How many copy calls the run issued. */
  function CopyCalls(r: RunEnd): nat
  {
    if r.Completed? then |r.outcomes| else 0
  }

  /** The run. `src` and `dst` are the two listings, `lines` the operator's
      input, `copy` the storage service's copy call. */
  method Run(s: Settings, src: Snapshot, dst: Snapshot, lines: seq<string>,
             copy: CopyRequest -> CopyResult) returns (r: RunEnd)
    ensures r.NothingToCopy? <==> Diff(src, dst) == map[]
    ensures r.Stopped? <==> Diff(src, dst) != map[] && RunGate(s.ask, Diff(src, dst), lines).decision != Proceed
    ensures !r.Completed? ==> CopyCalls(r) == 0
    ensures r.Stopped? ==> r.gate == RunGate(s.ask, Diff(src, dst), lines)
    ensures r.Completed? ==>
              var d := Diff(src, dst);
              && r.gate == RunGate(s.ask, d, lines)
              && r.workers == WorkerCount(|d|, s.threads)
              && Enumerates(r.order, d)
              && r.outcomes == CopyAll(s, copy, ValuesIn(d, r.order))
              && r.split == Partition(r.outcomes)
              && CopyCalls(r) == |d|
              && |r.split.failed| + |r.split.copied| == |d|
  {
    var d := Diff(src, dst);
    var workers := WorkerCount(|d|, s.threads);
    if d == map[] {
      return NothingToCopy;
    }
    var gate := AskLoop(s.ask, d, lines);
    if gate.decision != Proceed {
      return Stopped(gate);
    }
    var order := Names(d);
    var outcomes := CopyAll(s, copy, ValuesIn(d, order));
    var split := Partition(outcomes);
    PartitionIsExact(outcomes);
    return Completed(gate, workers, order, outcomes, split);
  }
}
