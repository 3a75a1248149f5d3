/**
  The code sandbox: a snippet that is typed out character by character once
  the component scrolls into view, and a "Run" button that plays back four
  canned terminal lines. Each interval callback is a step method; timer
  periods are not modelled.
*/
module CodeSandbox {
  import opened Wrappers

  /** The lines a run plays back; the last one carries the wall-clock time of the click. */
  function MockOutput(time: string): (r: seq<string>)
    ensures |r| == 4
    ensures r[3] == "> [SUCCESS] Output generated at " + time
  {
    [ "> Initializing virtual environment...",
      "> Loading modules...",
      "> Executing script...",
      "> [SUCCESS] Output generated at " + time ]
  }

  /** A live run interval: the lines it plays and its counter `i`. */
  datatype RunTimer = RunTimer(lines: seq<string>, next: nat)

  class Sandbox {
    // props
    const initialCode: string
    const animateOnMount: bool
    const readOnly: bool

    // component state
    var code: string
    var output: seq<string>
    var isRunning: bool
    var isTyping: bool
    var isVisible: bool

    /** The live typewriter interval, holding its counter `i`; None once cleared or never started. */
    var typing: Option<nat>
    /** The live run interval. */
    var run: Option<RunTimer>

    /** The click time of the latest run, None before the first run. */
    ghost var lastTime: Option<string>
    /** The stretch `[runStart, runEnd)` of the latest run's lines that the terminal shows; a reset moves `runStart` up to `runEnd`. */
    ghost var runStart: nat
    ghost var runEnd: nat

    /** The lines of the latest run, whether or not its interval is still live. */
    ghost function Played(): seq<string>
      reads this
    {
      if lastTime.Some? then MockOutput(lastTime.value) else []
    }

    ghost predicate Valid()
      reads this
    {
      && (typing.Some? ==> animateOnMount && isVisible && typing.value <= |initialCode|)
      && (isTyping ==> typing.Some?)
      // while the typewriter runs, the editor shows the first i characters
      && (isTyping && typing.value > 0 ==> code == initialCode[..typing.value])
      && (isRunning <==> run.Some?)
      // the terminal shows a contiguous stretch of the latest run's lines, during the run and after it
      && runStart <= runEnd <= |Played()|
      && output == Played()[runStart..runEnd]
      // a live interval plays the latest run's lines and its counter is the end of that stretch
      && (run.Some? ==> lastTime.Some? && run.value.lines == Played() && run.value.next == runEnd)
    }

    /** With no reset since the latest run started, the terminal holds a prefix of its lines. */
    ghost predicate OutputIsPrefix()
      reads this
    {
      runStart == 0 ==> |output| <= |Played()| && output == Played()[..|output|]
    }

    /**
      The terminal never holds more than the four lines of a run, and with no
      reset since the run started it holds their prefix, while the run is live
      and after its interval is cleared.
    */
    lemma ValidOutputIsPrefix()
      requires Valid()
      ensures |output| <= 4
      ensures OutputIsPrefix()
      ensures lastTime.None? ==> output == []
    {
    }

    constructor (initialCode: string, animateOnMount: bool, readOnly: bool)
      ensures Valid()
      ensures this.initialCode == initialCode && this.animateOnMount == animateOnMount && this.readOnly == readOnly
      ensures code == (if animateOnMount then "" else initialCode)
      ensures output == [] && !isRunning && !isTyping && !isVisible
      ensures typing.None? && run.None?
    {
      this.initialCode, this.animateOnMount, this.readOnly := initialCode, animateOnMount, readOnly;
      code := if animateOnMount then "" else initialCode;
      output, isRunning, isTyping, isVisible := [], false, false, false;
      typing, run := None, None;
      lastTime, runStart, runEnd := None, 0, 0;
    }

    /**
      The visibility observer fires (it disconnects after the first time). The
      typewriter effect re-runs because `isVisible` changed, and starts typing
      only when `animateOnMount` is set.
    */
    method BecomeVisible()
      requires Valid()
      modifies this
      ensures Valid() && isVisible
      ensures if !old(isVisible) && animateOnMount
        then isTyping && typing == Some(0)
        else isTyping == old(isTyping) && typing == old(typing)
      ensures code == old(code) && output == old(output)
      ensures isRunning == old(isRunning) && run == old(run)
      ensures lastTime == old(lastTime) && runStart == old(runStart) && runEnd == old(runEnd)
    {
      if !isVisible {
        isVisible := true;
        if animateOnMount {
          isTyping := true;
          typing := Some(0);
        }
      }
    }

    /**
      One typewriter tick: below the length it shows one more character of the
      snippet; at the length it clears the interval and `isTyping`. The tick
      writes `code` even after a reset, which only cleared `isTyping`.
    */
    method TypingTick()
      requires Valid() && typing.Some?
      modifies this
      ensures Valid()
      ensures var i := old(typing.value);
        if i < |initialCode| then
          code == initialCode[..i + 1] && typing == Some(i + 1) && isTyping == old(isTyping)
        else
          code == old(code) && typing.None? && !isTyping
      // typing that ran undisturbed to the end leaves the whole snippet on screen
      ensures old(isTyping) && old(typing) == Some(|initialCode|) && initialCode != "" ==> code == initialCode
      ensures output == old(output) && isRunning == old(isRunning) && run == old(run)
      ensures isVisible == old(isVisible)
      ensures lastTime == old(lastTime) && runStart == old(runStart) && runEnd == old(runEnd)
    {
      var i := typing.value;
      if i < |initialCode| {
        code := initialCode[..i + 1];
        typing := Some(i + 1);
      } else {
        typing := None;
        isTyping := false;
      }
    }

    /**
      `runCode`: a no-op while typing; otherwise it marks the sandbox running,
      clears the terminal and starts the run interval with a fresh counter.
      Its only caller is the Run button, which is disabled while a run is live.
    */
    method RunCode(time: string)
      requires Valid() && !isRunning
      modifies this
      ensures Valid()
      ensures if old(isTyping) then
          output == old(output) && !isRunning && run == old(run)
        else
          isRunning && output == [] && run == Some(RunTimer(MockOutput(time), 0))
      ensures code == old(code) && isTyping == old(isTyping) && typing == old(typing)
      ensures isVisible == old(isVisible)
    {
      if isTyping {
        return;
      }
      isRunning := true;
      output := [];
      run := Some(RunTimer(MockOutput(time), 0));
      lastTime, runStart, runEnd := Some(time), 0, 0;
    }

    /** A click on the Run button, which is disabled while running or typing. */
    method PressRun(time: string)
      requires Valid()
      modifies this
      ensures Valid()
      ensures if old(isRunning) || old(isTyping) then
          output == old(output) && isRunning == old(isRunning) && run == old(run)
        else
          isRunning && output == [] && run == Some(RunTimer(MockOutput(time), 0))
      ensures code == old(code) && isTyping == old(isTyping) && typing == old(typing)
      ensures isVisible == old(isVisible)
    {
      if !isRunning && !isTyping {
        RunCode(time);
      }
    }

    /**
      One run tick: below four it appends the next line to whatever the terminal
      shows; after the fourth it clears the interval and `isRunning`.
    */
    method RunTick()
      requires Valid() && run.Some?
      modifies this
      ensures Valid()
      ensures var t := old(run.value);
        if t.next < |t.lines| then
          output == old(output) + [t.lines[t.next]] && run == Some(t.(next := t.next + 1)) && isRunning
        else
          output == old(output) && run.None? && !isRunning
      ensures lastTime == old(lastTime) && runStart == old(runStart)
      ensures code == old(code) && isTyping == old(isTyping) && typing == old(typing)
      ensures isVisible == old(isVisible)
    {
      var t := run.value;
      if t.next < |t.lines| {
        output := output + [t.lines[t.next]];
        run := Some(t.(next := t.next + 1));
        runEnd := runEnd + 1;
      } else {
        run := None;
        isRunning := false;
      }
    }

    /**
      `resetCode`: the full snippet, an empty terminal and `isTyping` cleared.
      Live intervals are not cancelled: their next ticks still write `code` and
      append to `output`.
    */
    method ResetCode()
      requires Valid()
      modifies this
      ensures Valid()
      ensures code == initialCode && output == [] && !isTyping
      ensures typing == old(typing) && run == old(run) && isRunning == old(isRunning)
      ensures isVisible == old(isVisible)
      ensures lastTime == old(lastTime) && runEnd == old(runEnd)
    {
      code := initialCode;
      output := [];
      isTyping := false;
      runStart := runEnd;
    }

    /** The textarea's `onChange`: accepted only when not typing and not read-only. */
    method Edit(text: string)
      requires Valid()
      modifies this
      ensures Valid()
      ensures code == if !old(isTyping) && !readOnly then text else old(code)
      ensures output == old(output) && isRunning == old(isRunning) && isTyping == old(isTyping)
      ensures typing == old(typing) && run == old(run) && isVisible == old(isVisible)
      ensures lastTime == old(lastTime) && runStart == old(runStart) && runEnd == old(runEnd)
    {
      if !isTyping && !readOnly {
        code := text;
      }
    }

    /** The Copy button always copies the full snippet, never the partly typed or edited text. */
    method Copy() returns (text: string)
      ensures text == initialCode
    {
      text := initialCode;
    }
  }
}
