/** The confirmation gate: before any copy starts, the operator is asked to
    continue, list the diff, or quit. Input arrives as the successive lines
    the prompt would read; running out of lines models end of input. */
module Gate {

  import opened Maybe
  import opened DiffEngine

  /** How the gate ends. `InputClosed` is end of input at the prompt: the
      read yields nil, taking its first character raises, and the process
      dies with status 1. */
  datatype Decision = Proceed | Abort | InputClosed

  /** The gate's decision, one listing event (the diff printed) per `l`
      answer, and how many input lines it read. */
  datatype GateRun = GateRun(decision: Decision, listings: seq<Snapshot>, consumed: nat)

  predicate IsLineEnd(c: char)
  {
    c == '\n' || c == '\r'
  }

  /** Removes one trailing record separator: "\r\n", "\n" or "\r". */
  function Chomp(line: string): (s: string)
    ensures s <= line
    ensures |line| - 2 <= |s|
    ensures line[|s|..] in {"", "\n", "\r", "\r\n"}
    ensures |line| >= 2 && line[|line| - 2..] == "\r\n" ==> |s| == |line| - 2
    ensures s == line <==> line == [] || !IsLineEnd(line[|line| - 1])
  {
    if |line| >= 2 && line[|line| - 2..] == "\r\n" then line[..|line| - 2]
    else if |line| >= 1 && IsLineEnd(line[|line| - 1]) then
      assert line[|line| - 1..] == [line[|line| - 1]];
      assert line[|line| - 1..] == "\n" || line[|line| - 1..] == "\r";
      line[..|line| - 1]
    else
      assert line[|line|..] == "";
      line
  }

  /** The answer a line stands for: the first character of the chomped
      line, or None when nothing is left of it. */
  function Answer(line: string): Option<char>
  {
    var s := Chomp(line);
    if s == [] then None else Some(s[0])
  }

  /** A line answers with its own first character unless it is a bare line
      ending, which answers nothing (and so quits). */
  lemma AnswerIsFirstCharacter(line: string)
    ensures Answer(line) == None <==> line in {"", "\n", "\r", "\r\n"}
    ensures line !in {"", "\n", "\r", "\r\n"} ==> Answer(line) == Some(line[0])
  {
    var s := Chomp(line);
    if |line| >= 3 {
      assert |s| >= 1 && s[0] == line[0];
    } else if |line| == 2 {
      if line == "\r\n" {
        assert s == [];
      } else {
        assert line[|line| - 2..] == line;
        assert |s| >= 1 && s[0] == line[0];
      }
    } else if |line| == 1 {
      if IsLineEnd(line[0]) {
        assert line == "\n" || line == "\r";
      } else {
        assert s == line;
      }
    }
  }

  /** The prompt loop once asking is on: `c` proceeds, `l` lists the diff
      and asks again, anything else (an empty answer included) aborts. */
  function Prompt(diff: Snapshot, lines: seq<string>): (r: GateRun)
    ensures |r.listings| <= |lines|
    ensures forall i :: 0 <= i < |r.listings| ==> r.listings[i] == diff
    ensures forall i :: 0 <= i < |r.listings| ==> Answer(lines[i]) == Some('l')
    ensures r.decision == InputClosed ==> |r.listings| == |lines| && r.consumed == |lines|
    ensures r.decision != InputClosed ==>
              && |r.listings| < |lines|
              && r.consumed == |r.listings| + 1
              && Answer(lines[|r.listings|]) != Some('l')
              && (r.decision == Proceed <==> Answer(lines[|r.listings|]) == Some('c'))
  {
    if lines == [] then GateRun(InputClosed, [], 0)
    else
      match Answer(lines[0])
      case Some('c') => GateRun(Proceed, [], 1)
      case Some('l') =>
        var rest := Prompt(diff, lines[1..]);
        GateRun(rest.decision, [diff] + rest.listings, rest.consumed + 1)
      case _ => GateRun(Abort, [], 1)
  }

  /** Index form of the prompt loop: after `i` listing answers, a line
      answering anything but `l` ends the gate right there, proceeding
      exactly when it answers `c`; the diff has been printed `i` times. */
  lemma {:induction false} PromptStopsAtFirstOtherAnswer(diff: Snapshot, lines: seq<string>, i: nat)
    requires i < |lines|
    requires forall j :: 0 <= j < i ==> Answer(lines[j]) == Some('l')
    requires Answer(lines[i]) != Some('l')
    ensures Prompt(diff, lines) ==
              GateRun(if Answer(lines[i]) == Some('c') then Proceed else Abort,
                      seq(i, _ => diff), i + 1)
  {
    var r := Prompt(diff, lines);
    assert |r.listings| == i;
    assert r.listings == seq(i, _ => diff);
  }

  /** Index form of running out of input: when every line answered `l`,
      the diff is printed once per line and the gate dies at end of input. */
  lemma {:induction false} PromptClosedWhenAllListed(diff: Snapshot, lines: seq<string>)
    requires forall j :: 0 <= j < |lines| ==> Answer(lines[j]) == Some('l')
    ensures Prompt(diff, lines) == GateRun(InputClosed, seq(|lines|, _ => diff), |lines|)
  {
    var r := Prompt(diff, lines);
    assert r.decision == InputClosed;
    assert r.listings == seq(|lines|, _ => diff);
  }

  /** The whole gate: skipped (proceed at once) when asking is off. */
  function RunGate(ask: bool, diff: Snapshot, lines: seq<string>): (r: GateRun)
    ensures !ask ==> r == GateRun(Proceed, [], 0)
    ensures r.consumed <= |lines|
    ensures forall i :: 0 <= i < |r.listings| ==> r.listings[i] == diff
  {
    if ask then Prompt(diff, lines) else GateRun(Proceed, [], 0)
  }

  /** The prompt loop as the script writes it: a loop that breaks on `c`,
      prints the diff on `l`, and leaves the run on anything else. */
  method AskLoop(ask: bool, diff: Snapshot, lines: seq<string>) returns (r: GateRun)
    ensures r == RunGate(ask, diff, lines)
  {
    if !ask {
      return GateRun(Proceed, [], 0);
    }
    var i := 0;
    var listings: seq<Snapshot> := [];
    while true
      invariant 0 <= i <= |lines|
      invariant listings == seq(i, _ => diff)
      invariant forall j :: 0 <= j < i ==> Answer(lines[j]) == Some('l')
      decreases |lines| - i
    {
      if i == |lines| {
        PromptClosedWhenAllListed(diff, lines);
        return GateRun(InputClosed, listings, i);
      }
      var answer := Answer(lines[i]);
      if answer == Some('l') {
        listings := listings + [diff];
        i := i + 1;
      } else {
        PromptStopsAtFirstOtherAnswer(diff, lines, i);
        return GateRun(if answer == Some('c') then Proceed else Abort, listings, i + 1);
      }
    }
  }
}
