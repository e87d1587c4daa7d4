/**
 * The `autorefactor` command: run the agent on the refactoring prompt again
 * and again until its collected output says no refactoring is left, at most
 * a given number of times.
 */
module Refactor {
  import opened Common
  import opened Messages
  import opened Strings
  import opened Streaming

  /** What the agent is told to print once it finds nothing more to refactor. */
  const NoRefactoringMarker := "<promise>NO REFACTORING NEEDED</promise>"

  /** The fragments `print_message` collects over a whole message stream, in arrival order. */
  function Transcript(stream: seq<Message>): seq<string>
    decreases |stream|
  {
    if stream == [] then [] else Transcript(stream[..|stream| - 1]) + CollectedText(stream[|stream| - 1])
  }

  /** The text `run_claude_code` returns for a message stream. */
  function SessionOutput(stream: seq<Message>): string {
    Concat(Transcript(stream))
  }

  /**
   * `run_claude_code`: feed every message of the agent's stream to
   * `print_message` with a fresh list and return the list joined.
   */
  method RunClaudeCode(stream: seq<Message>) returns (text: string)
    ensures text == Concat(Transcript(stream))
  {
    var output := new TextCollector();
    for i := 0 to |stream|
      invariant output.items == Transcript(stream[..i])
    {
      assert stream[..i + 1][..i] == stream[..i];
      PrintMessage(stream[i], output);
    }
    assert stream[..|stream|] == stream;
    text := Concat(output.items);
  }

  /** Each further message adds its collected text to the end of the session output. */
  lemma SessionOutputSnoc(stream: seq<Message>, m: Message)
    ensures SessionOutput(stream + [m]) == SessionOutput(stream) + Concat(CollectedText(m))
  {
    assert (stream + [m])[..|stream|] == stream;
    ConcatAppend(Transcript(stream), CollectedText(m));
  }

  /** Every fragment collected from any message of the stream is in the transcript. */
  lemma {:induction false} TranscriptHas(stream: seq<Message>, k: int, fragment: string)
    requires 0 <= k < |stream| && fragment in CollectedText(stream[k])
    ensures fragment in Transcript(stream)
    decreases |stream|
  {
    var n := |stream| - 1;
    var init := stream[..n];
    assert Transcript(stream) == Transcript(init) + CollectedText(stream[n]);
    if k < n {
      assert init[k] == stream[k];
      TranscriptHas(init, k, fragment);
    }
  }

  /** A text block or a result that contains the marker makes the whole session output contain it. */
  lemma MarkerInMessage(stream: seq<Message>, k: int, fragment: string)
    requires 0 <= k < |stream| && fragment in CollectedText(stream[k])
    requires Contains(fragment, NoRefactoringMarker)
    ensures Contains(SessionOutput(stream), NoRefactoringMarker)
  {
    TranscriptHas(stream, k, fragment);
    var i :| 0 <= i < |Transcript(stream)| && Transcript(stream)[i] == fragment;
    ContainsInConcat(Transcript(stream), i, NoRefactoringMarker);
  }

  /** The session output of the `j`-th run of the agent contains the marker. */
  predicate Finished(sessions: nat -> seq<Message>, j: nat) {
    Contains(SessionOutput(sessions(j)), NoRefactoringMarker)
  }

  /**
   * `autorefactor`: run the agent up to `maxIterations` times (none when it is
   * not positive), stopping right after the first run whose output contains
   * the marker. `sessions(i)` is the message stream of the i-th run; the
   * agent changes the repository between runs, so the runs differ.
   * Returns how many runs happened and whether the marker stopped the loop.
   */
  method Autorefactor(maxIterations: int, sessions: nat -> seq<Message>) returns (runs: nat, done: bool)
    ensures maxIterations <= 0 ==> runs == 0 && !done
    ensures runs <= Max(0, maxIterations)
    ensures forall j: nat :: j < runs && !(done && j == runs - 1) ==> !Finished(sessions, j)
    ensures done ==> runs >= 1 && Finished(sessions, runs - 1)
    ensures !done ==> runs == Max(0, maxIterations)
  {
    runs, done := 0, false;
    var i: nat := 0;
    while i < maxIterations
      invariant i <= Max(0, maxIterations)
      invariant runs == i
      invariant forall j: nat :: j < i ==> !Finished(sessions, j)
    {
      var output := RunClaudeCode(sessions(i));
      runs := runs + 1;
      if Contains(output, NoRefactoringMarker) {
        done := true;
        return;
      }
      i := i + 1;
    }
  }
}
