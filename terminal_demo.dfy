/**
 * The typewriter playback of the landing page's terminal demo (`TerminalDemo.tsx`): the
 * `useTypedLine` hook, which appends one character of its line per interval tick, and the
 * component, which moves to the next scripted step after a pause and shows the finished steps
 * followed by the line being typed. Timers become explicit `Tick` and `PauseElapsed` calls.
 */
module TerminalDemo {

  /** `terminalSteps`: the scripted lines, typed one after another. */
  const TerminalSteps: seq<string> := [
    "nova \"deploy my app to staging\"",
    "I'll help you deploy to staging. Let me check your setup...",
    "Found docker-compose.yml",
    "Staging environment configured",
    "Suggested: docker-compose -f docker-compose.staging.yml up -d",
    "Execute this command? (y/N)"
  ]

  /** Every scripted line has at least one character, so its typing ends with a tick. */
  lemma StepsNonEmpty(k: nat)
    requires k < |TerminalSteps|
    ensures TerminalSteps[k] != []
  {
    var line := TerminalSteps[k];
    assert line in TerminalSteps;
    assert "" !in TerminalSteps;
  }

  /** The state of one `useTypedLine` hook: its inputs, the shown prefix, the counter and whether the interval runs. */
  class TypedLine {
    var line: string
    var shouldType: bool
    var displayed: string
    var i: nat
    var running: bool

    /** The shown text is the first `i` characters; the interval runs only while characters remain. */
    ghost predicate Valid()
      reads this
    {
      i <= |line| && displayed == line[..i] &&
      (running ==> shouldType && i < |line|) &&
      (!shouldType ==> displayed == "" && !running)
    }

    /** Typing has finished: every character is shown and the interval is cleared. */
    predicate Finished()
      reads this
    {
      shouldType && !running && i == |line|
    }

    /** The hook's first run, which is also what the effect does when `line` or `shouldType` changes. */
    constructor (line: string, shouldType: bool)
      requires shouldType ==> line != []
      ensures Valid()
      ensures this.line == line && this.shouldType == shouldType
      ensures displayed == "" && i == 0 && running == shouldType
    {
      this.line := line;
      this.shouldType := shouldType;
      displayed := "";
      i := 0;
      running := shouldType;
    }

    /** The effect re-run on new inputs: the shown text is cleared, and typing restarts when `shouldType` holds. */
    method Restart(line: string, shouldType: bool)
      requires shouldType ==> line != []
      modifies this
      ensures Valid()
      ensures this.line == line && this.shouldType == shouldType
      ensures displayed == "" && i == 0 && running == shouldType
    {
      this.line := line;
      this.shouldType := shouldType;
      displayed := "";
      i := 0;
      running := shouldType;
    }

    /**
     * One interval tick: `line[i]` is appended and `i` advances; when it reaches the length the
     * interval is cleared and `done` (the `onDone` call) is reported.
     */
    method Tick() returns (done: bool)
      requires Valid() && running
      modifies this
      ensures Valid()
      ensures line == old(line) && shouldType == old(shouldType)
      ensures i == old(i) + 1 && displayed == old(displayed) + [line[old(i)]]
      ensures done <==> Finished()
      ensures done <==> !running
    {
      displayed := displayed + [line[i]];
      i := i + 1;
      if i >= |line| {
        running := false;
        done := true;
      } else {
        done := false;
      }
    }
  }

  /**
   * A line typed from the start: after exactly `|line|` ticks the whole line is shown, the
   * interval is cleared, and `onDone` has fired once, on the last tick.
   */
  method TypeWholeLine(t: TypedLine) returns (ticks: nat, dones: nat)
    requires t.Valid() && t.running && t.i == 0
    modifies t
    ensures t.Valid() && t.Finished() && t.displayed == t.line
    ensures t.line == old(t.line)
    ensures ticks == |t.line| && dones == 1
  {
    ticks, dones := 0, 0;
    while t.running
      invariant t.Valid() && t.line == old(t.line) && t.shouldType
      invariant ticks == t.i
      invariant dones == (if t.running then 0 else 1)
      invariant !t.running ==> t.i == |t.line|
      decreases |t.line| - t.i
    {
      var done := t.Tick();
      ticks := ticks + 1;
      if done {
        dones := dones + 1;
      }
    }
    assert t.line[..|t.line|] == t.line;
  }

  /** The state of the `TerminalDemo` component. */
  class Demo {
    var stepIndex: nat
    var typed: TypedLine
    var pausePending: bool
    var typingDone: bool
    var lines: seq<string>

    /**
     * The step index stays on a scripted line, which is the one being typed; the lines shown are
     * the finished steps and then the typed prefix; a pause is pending only after typing finished
     * on a step that has a successor.
     */
    ghost predicate Valid()
      reads this, typed
    {
      typed.Valid() && stepIndex < |TerminalSteps| &&
      typed.line == TerminalSteps[stepIndex] && typed.shouldType &&
      lines == TerminalSteps[..stepIndex] + [typed.displayed] &&
      (pausePending ==> typed.Finished() && stepIndex < |TerminalSteps| - 1)
    }

    /** The first render: step 0 typing, one empty line shown. */
    constructor ()
      ensures Valid() && fresh(typed)
      ensures stepIndex == 0 && lines == [""] && !pausePending && !typingDone && typed.running
    {
      StepsNonEmpty(0);
      stepIndex := 0;
      typed := new TypedLine(TerminalSteps[0], 0 < |TerminalSteps|);
      pausePending := false;
      typingDone := false;
      lines := [""];
    }

    /**
     * One typing tick of the current step, with the `onDone` callback and the line accumulation
     * effect: when the line is finished and a later step exists, the pause before it starts.
     */
    method Tick()
      requires Valid() && typed.running
      modifies this, typed
      ensures Valid() && typed == old(typed)
      ensures stepIndex == old(stepIndex)
      ensures typed.displayed == old(typed.displayed) + [TerminalSteps[stepIndex][old(typed.i)]]
      ensures typingDone == (old(typingDone) || typed.Finished())
      ensures typed.running <==> !typed.Finished()
      ensures pausePending <==> typed.Finished() && stepIndex < |TerminalSteps| - 1
    {
      var done := typed.Tick();
      if done {
        typingDone := true;
        if stepIndex < |TerminalSteps| - 1 {
          pausePending := true;
        }
      }
      lines := TerminalSteps[..stepIndex] + [typed.displayed];
    }

    /** The 400 ms pause elapsing: the next step starts typing from an empty line. */
    method PauseElapsed()
      requires Valid() && pausePending
      modifies this, typed
      ensures Valid() && typed == old(typed)
      ensures stepIndex == old(stepIndex) + 1
      ensures typed.displayed == "" && typed.running && !pausePending
      ensures typingDone == old(typingDone)
      ensures lines == TerminalSteps[..stepIndex] + [""]
    {
      stepIndex := stepIndex + 1;
      pausePending := false;
      StepsNonEmpty(stepIndex);
      typed.Restart(TerminalSteps[stepIndex], stepIndex < |TerminalSteps|);
      lines := TerminalSteps[..stepIndex] + [typed.displayed];
    }

    /**
     * Whether line `idx` shows the blinking cursor: only the line being typed does, and only
     * while characters of its step remain.
     */
    function ShowsCursor(idx: nat): (r: bool)
      requires Valid() && idx < |lines|
      reads this, typed
      ensures r ==> idx == |lines| - 1
      ensures r <==> idx == stepIndex && typed.i < |typed.line|
    {
      idx == stepIndex && |lines[idx]| < |TerminalSteps[idx]|
    }
  }

  /**
   * The demo played from its first render: typing ticks and pauses alternate until neither is
   * due, and then every scripted line is shown in full, the last one with its typing finished.
   */
  method PlayToEnd(d: Demo) returns (ticks: nat)
    requires d.Valid() && d.stepIndex == 0 && d.typed.i == 0 && d.typed.running
    modifies d, d.typed
    ensures d.Valid() && d.typed == old(d.typed)
    ensures d.stepIndex == |TerminalSteps| - 1 && d.typed.Finished() && !d.pausePending
    ensures d.lines == TerminalSteps
  {
    ticks := 0;
    while d.typed.running || d.pausePending
      invariant d.Valid() && d.typed == old(d.typed)
      invariant !d.typed.running ==> d.typed.Finished()
      invariant d.typed.Finished() && d.stepIndex < |TerminalSteps| - 1 ==> d.pausePending
      decreases |TerminalSteps| - d.stepIndex, 2 * (|d.typed.line| - d.typed.i) + (if d.pausePending then 1 else 0)
    {
      if d.typed.running {
        d.Tick();
        ticks := ticks + 1;
      } else {
        d.PauseElapsed();
      }
    }
    assert d.typed.displayed == TerminalSteps[|TerminalSteps| - 1];
    assert TerminalSteps[..|TerminalSteps| - 1] + [TerminalSteps[|TerminalSteps| - 1]] == TerminalSteps;
  }

  /** The last step is final: once typed, no pause follows and the step index stays on it. */
  lemma LastStepFinal(d: Demo)
    requires d.Valid() && d.stepIndex == |TerminalSteps| - 1
    ensures !d.pausePending
  {
  }

  /** Every scripted step appears in order: after a step's pause its whole line is among the lines shown. */
  lemma FinishedStepShown(d: Demo, k: nat)
    requires d.Valid() && k < d.stepIndex
    ensures d.lines[k] == TerminalSteps[k]
  {
  }
}
