/** Small worked runs of the diff, the gate and the copy phase. */
module Scenarios {

  import opened Maybe
  import opened DiffEngine
  import opened Gate
  import opened CopyPhase
  import opened Config

  /** An object present in both buckets with the same timestamp is copied
      again: the diff keeps it next to the object the destination lacks. */
  lemma EqualTimestampIsCopied()
    ensures Diff(map["a" := ObjectKey("a", 5), "b" := ObjectKey("b", 10)],
                 map["a" := ObjectKey("a", 5)])
            == map["a" := ObjectKey("a", 5), "b" := ObjectKey("b", 10)]
  {
  }

  /** A destination copy that is strictly newer leaves nothing to copy. */
  lemma NewerDestinationCopiesNothing()
    ensures Diff(map["a" := ObjectKey("a", 5)], map["a" := ObjectKey("a", 10)]) == map[]
  {
    DiffEmptyIffDestinationNewer(map["a" := ObjectKey("a", 5)], map["a" := ObjectKey("a", 10)]);
  }

  /** Answering "list" and then "q" prints the diff once and aborts after
      reading both lines. */
  lemma ListThenQuit(diff: Snapshot)
    ensures RunGate(true, diff, ["list\n", "q\n"]) == GateRun(Abort, [diff], 2)
  {
    var lines := ["list\n", "q\n"];
    AnswerIsFirstCharacter(lines[0]);
    AnswerIsFirstCharacter(lines[1]);
    PromptStopsAtFirstOtherAnswer(diff, lines, 1);
    assert seq(1, _ => diff) == [diff];
  }

  /** An empty answer quits, even with more lines to come. */
  lemma EmptyAnswerQuits(diff: Snapshot)
    ensures RunGate(true, diff, ["\n", "c\n"]) == GateRun(Abort, [], 1)
  {
    assert Answer("\n") == None;
  }

  /** Two items, the second one's copy raising: one copied, one failed. */
  lemma OneOfTwoFails(s: Settings, copy: CopyRequest -> CopyResult, x: ObjectKey, y: ObjectKey)
    requires copy(Request(s, x)) == Done
    requires copy(Request(s, y)) == Raised("transport error")
    ensures Partition(CopyAll(s, copy, [x, y])) ==
              Split([Failed(y, "transport error")], [Copied(x)])
  {
    var os := CopyAll(s, copy, [x, y]);
    assert os == [Copied(x), Failed(y, "transport error")];
    assert os[1..][1..] == [];
  }
}
