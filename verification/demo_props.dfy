/**
 * Properties of the demo sequence: the balance gate, the order of the
 * commands and of the narrated events, failing fast on the first agent error,
 * the pauses around each dispatch, and how a streamed reply is accumulated.
 */
module DemoProps {
  import opened Wrappers
  import opened Scan
  import opened DemoLogic

  // ---------------------------------------------------------------------------
  // Reference definitions

  /** Every dispatch numbered `base` to `base + n - 1` gets a reply. */
  predicate AllOk(agent: Agent, base: nat, n: nat) {
    forall j :: base <= j < base + n ==> agent(j).Ok?
  }

  /** The chunks of a reply, or none for an error. */
  function Chunks(r: Result<seq<Chunk>, string>): seq<Chunk> {
    if r.Ok? then r.value else []
  }

  /**
   * The narration of a phase whose replies all arrive: each step as a user
   * turn, then its formatted reply, step after step.
   */
  function Turns(agent: Agent, format: string -> string, steps: seq<string>, base: nat): seq<Event>
    decreases |steps|
  {
    if steps == [] then []
    else [Event(steps[0], true), Narrated(format, Chunks(agent(base)))] + Turns(agent, format, steps[1..], base + 1)
  }

  /** Text with no white space at either end, as `trim` leaves it. */
  predicate Unpadded(t: string) {
    t == [] || (!IsSpace(t[0]) && !IsSpace(t[|t| - 1]))
  }

  /** Every command the demo can send, in the order it sends them. */
  const ALL_COMMANDS: seq<string> := [BALANCE_QUERY] + ALUX_DEMO_STEPS + XOCOLATL_DEMO_STEPS

  /** The total time a log spends paused, in milliseconds. */
  function TotalPause(log: seq<Effect>): nat
    decreases |log|
  {
    if log == [] then 0 else (if log[0].Sleep? then log[0].ms else 0) + TotalPause(log[1..])
  }

  /** Each dispatch is preceded by the user turn that names it and a pause of `pause` milliseconds. */
  predicate Paced(log: seq<Effect>, pause: nat) {
    forall k :: 0 <= k < |log| && log[k].Dispatch? ==>
      && k >= 2
      && log[k - 2] == Notify(Event(log[k].command, true))
      && log[k - 1] == Sleep(pause)
  }

  /** The text of a narration that reports a caught error. */
  predicate IsFailureText(t: string) {
    |t| >= 13 && t[..13] == "Demo failed: "
  }

  // ---------------------------------------------------------------------------
  // Logs are read piecewise

  lemma {:induction false} CommandsAppend(a: seq<Effect>, b: seq<Effect>)
    ensures Commands(a + b) == Commands(a) + Commands(b)
    decreases |a|
  {
    if a == [] {
      assert a + b == b;
    } else {
      var h := if a[0].Dispatch? then [a[0].command] else [];
      assert (a + b)[0] == a[0] && (a + b)[1..] == a[1..] + b;
      CommandsAppend(a[1..], b);
      assert Commands(a + b) == h + Commands(a[1..] + b);
      assert Commands(a) == h + Commands(a[1..]);
    }
  }

  lemma {:induction false} TraceAppend(a: seq<Effect>, b: seq<Effect>)
    ensures Trace(a + b) == Trace(a) + Trace(b)
    decreases |a|
  {
    if a == [] {
      assert a + b == b;
    } else {
      var h := if a[0].Notify? then [a[0].event] else [];
      assert (a + b)[0] == a[0] && (a + b)[1..] == a[1..] + b;
      TraceAppend(a[1..], b);
      assert Trace(a + b) == h + Trace(a[1..] + b);
      assert Trace(a) == h + Trace(a[1..]);
    }
  }

  lemma {:induction false} TotalPauseAppend(a: seq<Effect>, b: seq<Effect>)
    ensures TotalPause(a + b) == TotalPause(a) + TotalPause(b)
    decreases |a|
  {
    if a == [] {
      assert a + b == b;
    } else {
      var h := if a[0].Sleep? then a[0].ms else 0;
      assert (a + b)[0] == a[0] && (a + b)[1..] == a[1..] + b;
      TotalPauseAppend(a[1..], b);
      assert TotalPause(a + b) == h + TotalPause(a[1..] + b);
      assert TotalPause(a) == h + TotalPause(a[1..]);
    }
  }

  /** Pacing survives concatenation: a dispatch of the second part has its turn inside that part. */
  lemma PacedAppend(a: seq<Effect>, b: seq<Effect>, pause: nat)
    requires Paced(a, pause) && Paced(b, pause)
    ensures Paced(a + b, pause)
  {
    var ab := a + b;
    forall k | 0 <= k < |ab| && ab[k].Dispatch?
      ensures k >= 2 && ab[k - 2] == Notify(Event(ab[k].command, true)) && ab[k - 1] == Sleep(pause)
    {
      if k >= |a| {
        assert ab[k] == b[k - |a|];
        assert ab[k - 2] == b[k - |a| - 2] && ab[k - 1] == b[k - |a| - 1];
      } else {
        assert ab[k] == a[k];
      }
    }
  }

  /** What one effect in front of a log adds to its commands, narration and pauses. */
  lemma LogCons(e: Effect, rest: seq<Effect>)
    ensures Commands([e] + rest) == (if e.Dispatch? then [e.command] else []) + Commands(rest)
    ensures Trace([e] + rest) == (if e.Notify? then [e.event] else []) + Trace(rest)
    ensures TotalPause([e] + rest) == (if e.Sleep? then e.ms else 0) + TotalPause(rest)
  {
    assert ([e] + rest)[1..] == rest;
  }

  /** The five effects of one answered step. */
  lemma AnsweredStep(step: string, reply: Event, pause: nat, delay: nat)
    ensures var log := [Notify(Event(step, true)), Sleep(pause), Dispatch(step), Notify(reply), Sleep(delay)];
      && Commands(log) == [step]
      && Trace(log) == [Event(step, true), reply]
      && TotalPause(log) == pause + delay
      && Paced(log, pause)
  {
    var e := [Sleep(delay)];
    var d := [Notify(reply)] + e;
    var c := [Dispatch(step)] + d;
    var b := [Sleep(pause)] + c;
    var log := [Notify(Event(step, true))] + b;
    LogCons(Sleep(delay), []);
    assert e == [Sleep(delay)] + [];
    LogCons(Notify(reply), e);
    LogCons(Dispatch(step), d);
    LogCons(Sleep(pause), c);
    LogCons(Notify(Event(step, true)), b);
    assert log == [Notify(Event(step, true)), Sleep(pause), Dispatch(step), Notify(reply), Sleep(delay)];
  }

  /** The four effects of a step whose dispatch failed with `e`. */
  lemma FailedStep(step: string, e: string, pause: nat)
    ensures var log := [Notify(Event(step, true)), Sleep(pause), Dispatch(step)] + [Notify(Event(FailureMessage(e), false))];
      && Commands(log) == [step]
      && Trace(log) == [Event(step, true), Event(FailureMessage(e), false)]
      && Paced(log, pause)
  {
    var d := [Notify(Event(FailureMessage(e), false))];
    var c := [Dispatch(step)] + d;
    var b := [Sleep(pause)] + c;
    var log := [Notify(Event(step, true))] + b;
    LogCons(Notify(Event(FailureMessage(e), false)), []);
    assert d == [Notify(Event(FailureMessage(e), false))] + [];
    LogCons(Dispatch(step), d);
    LogCons(Sleep(pause), c);
    LogCons(Notify(Event(step, true)), b);
    assert log == [Notify(Event(step, true)), Sleep(pause), Dispatch(step)] + [Notify(Event(FailureMessage(e), false))];
  }

  /** Two narrations per step. */
  lemma {:induction false} TurnsLength(agent: Agent, format: string -> string, steps: seq<string>, base: nat)
    ensures |Turns(agent, format, steps, base)| == 2 * |steps|
    decreases |steps|
  {
    if steps != [] {
      TurnsLength(agent, format, steps[1..], base + 1);
    }
  }

  /** One more step adds one more step's pause. */
  lemma PeelFactor(n: nat, x: nat)
    requires n >= 1
    ensures n * x == x + (n - 1) * x
  {
  }

  // ---------------------------------------------------------------------------
  // One phase

  /** A phase whose replies all arrive sends every step, narrates every turn and paces every dispatch. */
  lemma {:induction false} StepsSucceed(agent: Agent, format: string -> string, pause: nat, delay: nat, steps: seq<string>, base: nat)
    requires AllOk(agent, base, |steps|)
    ensures var o := RunSteps(agent, format, pause, delay, steps, base);
      && !o.failed
      && Commands(o.log) == steps
      && Trace(o.log) == Turns(agent, format, steps, base)
      && TotalPause(o.log) == |steps| * (pause + delay)
      && Paced(o.log, pause)
    decreases |steps|
  {
    if steps != [] {
      var reply := Narrated(format, agent(base).value);
      var head := [Notify(Event(steps[0], true)), Sleep(pause), Dispatch(steps[0]), Notify(reply), Sleep(delay)];
      var rest := RunSteps(agent, format, pause, delay, steps[1..], base + 1);
      assert RunSteps(agent, format, pause, delay, steps, base).log == head + rest.log;
      StepsSucceed(agent, format, pause, delay, steps[1..], base + 1);
      AnsweredStep(steps[0], reply, pause, delay);
      CommandsAppend(head, rest.log);
      TraceAppend(head, rest.log);
      TotalPauseAppend(head, rest.log);
      PacedAppend(head, rest.log, pause);
      TurnsLength(agent, format, steps, base);
      assert [steps[0]] + steps[1..] == steps;
      PeelFactor(|steps|, pause + delay);
    }
  }

  /**
   * A phase whose step `k` is the first to fail sends the steps up to and
   * including `k` and nothing after it, and ends by narrating the error.
   */
  lemma {:induction false} StepsFail(agent: Agent, format: string -> string, pause: nat, delay: nat, steps: seq<string>, base: nat, k: nat)
    requires k < |steps| && AllOk(agent, base, k) && agent(base + k).Err?
    ensures var o := RunSteps(agent, format, pause, delay, steps, base);
      && o.failed
      && Commands(o.log) == steps[..k + 1]
      && Trace(o.log) == Turns(agent, format, steps[..k], base) + [Event(steps[k], true), Event(FailureMessage(agent(base + k).error), false)]
      && Paced(o.log, pause)
    decreases k
  {
    if k == 0 {
      FailedStep(steps[0], agent(base).error, pause);
      assert steps[..1] == [steps[0]];
      assert Turns(agent, format, steps[..0], base) == [];
    } else {
      StepsFail(agent, format, pause, delay, steps[1..], base + 1, k - 1);
      assert steps[1..][k - 1] == steps[k] && base + 1 + (k - 1) == base + k;
      var last := [Event(steps[k], true), Event(FailureMessage(agent(base + k).error), false)];
      FailedAfterAnswer(agent, format, pause, delay, steps, base, k, last);
    }
  }

  /** The inductive step of `StepsFail`: an answered first step in front of a failed rest. */
  lemma FailedAfterAnswer(agent: Agent, format: string -> string, pause: nat, delay: nat, steps: seq<string>, base: nat, k: nat, last: seq<Event>)
    requires 0 < k < |steps| && agent(base).Ok?
    requires var rest := RunSteps(agent, format, pause, delay, steps[1..], base + 1);
      && rest.failed
      && Commands(rest.log) == steps[1..][..k]
      && Trace(rest.log) == Turns(agent, format, steps[1..][..k - 1], base + 1) + last
      && Paced(rest.log, pause)
    ensures var o := RunSteps(agent, format, pause, delay, steps, base);
      && o.failed
      && Commands(o.log) == steps[..k + 1]
      && Trace(o.log) == Turns(agent, format, steps[..k], base) + last
      && Paced(o.log, pause)
  {
    var o := RunSteps(agent, format, pause, delay, steps, base);
    var reply := Narrated(format, agent(base).value);
    var head := [Notify(Event(steps[0], true)), Sleep(pause), Dispatch(steps[0]), Notify(reply), Sleep(delay)];
    var rest := RunSteps(agent, format, pause, delay, steps[1..], base + 1);
    assert o.log == head + rest.log;
    AnsweredStep(steps[0], reply, pause, delay);
    CommandsAppend(head, rest.log);
    TraceAppend(head, rest.log);
    PacedAppend(head, rest.log, pause);
    assert steps[..k][1..] == steps[1..][..k - 1];
    assert [steps[0]] + steps[1..][..k] == steps[..k + 1];
    assert Chunks(agent(base)) == agent(base).value;
    assert Turns(agent, format, steps[..k], base) == [Event(steps[0], true), reply] + Turns(agent, format, steps[1..][..k - 1], base + 1);
  }

  /** A phase reports a failure exactly when one of its dispatches fails. */
  lemma {:induction false} StepsFailedIff(agent: Agent, format: string -> string, pause: nat, delay: nat, steps: seq<string>, base: nat)
    ensures RunSteps(agent, format, pause, delay, steps, base).failed <==> !AllOk(agent, base, |steps|)
    decreases |steps|
  {
    if steps != [] {
      StepsFailedIff(agent, format, pause, delay, steps[1..], base + 1);
      if agent(base).Ok? && !AllOk(agent, base + 1, |steps| - 1) {
        var j :| base + 1 <= j < base + |steps| && !agent(j).Ok?;
      }
    }
  }

  /** Each phase sends its first step first, whatever the agent answers. */
  lemma StepsFirstCommand(agent: Agent, format: string -> string, pause: nat, delay: nat, steps: seq<string>, base: nat)
    requires steps != []
    ensures var c := Commands(RunSteps(agent, format, pause, delay, steps, base).log);
      |c| >= 1 && c[0] == steps[0]
  {
    var log := RunSteps(agent, format, pause, delay, steps, base).log;
    assert log[0] == Notify(Event(steps[0], true)) && log[1].Sleep? && log[2] == Dispatch(steps[0]);
    assert Commands(log) == Commands(log[1..]) == Commands(log[2..]) == [steps[0]] + Commands(log[3..]);
  }

  /** Each dispatch of a phase follows its user turn and the phase's pause, whatever the agent answers. */
  lemma {:induction false} StepsPaced(agent: Agent, format: string -> string, pause: nat, delay: nat, steps: seq<string>, base: nat)
    ensures Paced(RunSteps(agent, format, pause, delay, steps, base).log, pause)
    decreases |steps|
  {
    if steps != [] {
      match agent(base)
      case Err(e) =>
        FailedStep(steps[0], e, pause);
      case Ok(chunks) =>
        var head := [Notify(Event(steps[0], true)), Sleep(pause), Dispatch(steps[0]), Notify(Narrated(format, chunks)), Sleep(delay)];
        var rest := RunSteps(agent, format, pause, delay, steps[1..], base + 1);
        assert RunSteps(agent, format, pause, delay, steps, base).log == head + rest.log;
        AnsweredStep(steps[0], Narrated(format, chunks), pause, delay);
        StepsPaced(agent, format, pause, delay, steps[1..], base + 1);
        PacedAppend(head, rest.log, pause);
    }
  }

  // ---------------------------------------------------------------------------
  // The whole run, for any balance extractor and reply formatter

  /** The effects before the first Alux step when the gate passes. */
  function Opening(): seq<Effect> {
    [Dispatch(BALANCE_QUERY), Notify(Event(ALUX_HEADER, false)), Sleep(MESSAGE_DELAY)]
  }

  /** The effects from the Xocolatl header on, once the Alux phase has succeeded. */
  function Closing(xoc: Outcome): seq<Effect> {
    [Notify(Event(XOCOLATL_HEADER, false))] + xoc.log + (if xoc.failed then [] else [Notify(Event(SUCCESS_MESSAGE, false))])
  }

  /** The Alux phase of a run. */
  function Alux(agent: Agent, format: string -> string, delay: nat): Outcome {
    RunSteps(agent, format, MESSAGE_DELAY, delay, ALUX_DEMO_STEPS, 1)
  }

  /** The Xocolatl phase of a run: its dispatches are numbered after the seven Alux ones. */
  function Xocolatl(agent: Agent, format: string -> string, delay: nat): Outcome {
    RunSteps(agent, format, XOCOLATL_PAUSE, delay, XOCOLATL_DEMO_STEPS, 8)
  }

  /** The balance query was answered with a balance that passes the gate. */
  predicate GatePasses(agent: Agent, extract: string -> nat) {
    agent(0).Ok? && extract(ReplyText(agent(0).value)) >= REQUIRED_BALANCE
  }

  /** A run that passes the gate and whose Alux phase fails ends with that phase. */
  lemma AluxStops(agent: Agent, extract: string -> nat, format: string -> string, delay: nat)
    requires GatePasses(agent, extract) && Alux(agent, format, delay).failed
    ensures RunSequence(agent, extract, format, delay) == Opening() + Alux(agent, format, delay).log
  {
    var alux := Alux(agent, format, delay);
    assert [Dispatch(BALANCE_QUERY)] + [Notify(Event(ALUX_HEADER, false)), Sleep(MESSAGE_DELAY)] + alux.log
        == Opening() + alux.log;
  }

  /** A run that passes the gate and whose Alux phase succeeds goes on with the Xocolatl phase. */
  lemma AluxGoesOn(agent: Agent, extract: string -> nat, format: string -> string, delay: nat)
    requires GatePasses(agent, extract) && !Alux(agent, format, delay).failed
    ensures RunSequence(agent, extract, format, delay)
         == Opening() + Alux(agent, format, delay).log + Closing(Xocolatl(agent, format, delay))
  {
    var alux, xoc := Alux(agent, format, delay), Xocolatl(agent, format, delay);
    var opening := [Dispatch(BALANCE_QUERY)] + [Notify(Event(ALUX_HEADER, false)), Sleep(MESSAGE_DELAY)] + alux.log;
    assert opening == Opening() + alux.log;
    assert |ALUX_DEMO_STEPS| == 7;
    var head := [Notify(Event(XOCOLATL_HEADER, false))];
    var body := opening + head + xoc.log;
    var tail := if xoc.failed then [] else [Notify(Event(SUCCESS_MESSAGE, false))];
    assert RunSequence(agent, extract, format, delay) == body + tail by {
      if xoc.failed {
        assert body + tail == body;
      }
    }
    Regroup(opening, head, xoc.log, tail);
  }

  /** Regrouping four pieces of a sequence. */
  lemma Regroup<T>(a: seq<T>, b: seq<T>, c: seq<T>, d: seq<T>)
    ensures a + b + c + d == a + (b + c + d)
  {
  }

  /** Splitting off the first element of a three-piece sequence. */
  lemma ConsRegroup<T>(a: seq<T>, b: seq<T>, c: seq<T>)
    requires |a| > 0
    ensures (a + b + c)[0] == a[0] && (a + b + c)[1..] == a[1..] + b + c
  {
  }

  /** A prefix of the query followed by two tables that stops inside the first table. */
  lemma PrefixInFirst<T>(q: T, a: seq<T>, x: seq<T>, k: nat)
    requires k <= |a|
    ensures ([q] + a + x)[..k + 1] == [q] + a[..k]
  {
  }

  /** A prefix of the query followed by two tables that stops inside the second table. */
  lemma PrefixInSecond<T>(q: T, a: seq<T>, x: seq<T>, k: nat)
    requires k <= |x|
    ensures ([q] + a + x)[..|a| + k + 1] == [q] + a + x[..k]
  {
  }

  lemma OpeningEffects()
    ensures Commands(Opening()) == [BALANCE_QUERY]
    ensures Trace(Opening()) == [Event(ALUX_HEADER, false)]
    ensures TotalPause(Opening()) == MESSAGE_DELAY
    ensures Paced(Opening()[1..], MESSAGE_DELAY)
  {
    var c := [Sleep(MESSAGE_DELAY)];
    var b := [Notify(Event(ALUX_HEADER, false))] + c;
    LogCons(Sleep(MESSAGE_DELAY), []);
    assert c == [Sleep(MESSAGE_DELAY)] + [];
    LogCons(Notify(Event(ALUX_HEADER, false)), c);
    LogCons(Dispatch(BALANCE_QUERY), b);
    assert Opening() == [Dispatch(BALANCE_QUERY)] + b && Opening()[1..] == b;
  }

  /** A failed balance query is the only command; its error is the only narration. */
  lemma BalanceQueryFailureStops(agent: Agent, extract: string -> nat, format: string -> string, delay: nat)
    requires agent(0).Err?
    ensures Commands(RunSequence(agent, extract, format, delay)) == [BALANCE_QUERY]
    ensures Trace(RunSequence(agent, extract, format, delay)) == [Event(FailureMessage(agent(0).error), false)]
  {
    var n := [Notify(Event(FailureMessage(agent(0).error), false))];
    LogCons(n[0], []);
    assert n == [n[0]] + [];
    LogCons(Dispatch(BALANCE_QUERY), n);
  }

  /** Below the threshold, the balance query is the only command and the refusal the only narration. */
  lemma InsufficientBalanceStops(agent: Agent, extract: string -> nat, format: string -> string, delay: nat)
    requires agent(0).Ok? && extract(ReplyText(agent(0).value)) < REQUIRED_BALANCE
    ensures Commands(RunSequence(agent, extract, format, delay)) == [BALANCE_QUERY]
    ensures Trace(RunSequence(agent, extract, format, delay)) == [Event(INSUFFICIENT_MESSAGE, false)]
  {
    var n := [Notify(Event(INSUFFICIENT_MESSAGE, false))];
    LogCons(n[0], []);
    assert n == [n[0]] + [];
    LogCons(Dispatch(BALANCE_QUERY), n);
  }

  /** Past an answered balance query, the demo goes on exactly when the balance reaches the threshold. */
  lemma GateIff(agent: Agent, extract: string -> nat, format: string -> string, delay: nat)
    requires agent(0).Ok?
    ensures |Commands(RunSequence(agent, extract, format, delay))| > 1 <==> GatePasses(agent, extract)
  {
    if !GatePasses(agent, extract) {
      InsufficientBalanceStops(agent, extract, format, delay);
    } else {
      var alux := Alux(agent, format, delay);
      OpeningEffects();
      StepsFirstCommand(agent, format, MESSAGE_DELAY, delay, ALUX_DEMO_STEPS, 1);
      CommandsAppend(Opening(), alux.log);
      if alux.failed {
        AluxStops(agent, extract, format, delay);
      } else {
        AluxGoesOn(agent, extract, format, delay);
        CommandsAppend(Opening() + alux.log, Closing(Xocolatl(agent, format, delay)));
      }
    }
  }

  /** The narration, commands and pauses of the closing after a Xocolatl phase that succeeded. */
  lemma ClosingEffects(xoc: Outcome)
    requires !xoc.failed
    ensures Commands(Closing(xoc)) == Commands(xoc.log)
    ensures Trace(Closing(xoc)) == [Event(XOCOLATL_HEADER, false)] + Trace(xoc.log) + [Event(SUCCESS_MESSAGE, false)]
    ensures TotalPause(Closing(xoc)) == TotalPause(xoc.log)
  {
    var head, tail := [Notify(Event(XOCOLATL_HEADER, false))], [Notify(Event(SUCCESS_MESSAGE, false))];
    LogCons(head[0], []);
    LogCons(tail[0], []);
    assert head == [head[0]] + [] && tail == [tail[0]] + [];
    CommandsAppend(head, xoc.log);
    CommandsAppend(head + xoc.log, tail);
    TraceAppend(head, xoc.log);
    TraceAppend(head + xoc.log, tail);
    TotalPauseAppend(head, xoc.log);
    TotalPauseAppend(head + xoc.log, tail);
  }

  /** Both phases of a run whose replies all arrive. */
  lemma PhasesSucceed(agent: Agent, format: string -> string, delay: nat)
    requires AllOk(agent, 1, 10)
    ensures var alux, xoc := Alux(agent, format, delay), Xocolatl(agent, format, delay);
      && !alux.failed && !xoc.failed
      && Commands(alux.log) == ALUX_DEMO_STEPS && Commands(xoc.log) == XOCOLATL_DEMO_STEPS
      && Trace(alux.log) == Turns(agent, format, ALUX_DEMO_STEPS, 1)
      && Trace(xoc.log) == Turns(agent, format, XOCOLATL_DEMO_STEPS, 8)
      && TotalPause(alux.log) == 7 * (MESSAGE_DELAY + delay)
      && TotalPause(xoc.log) == 3 * (XOCOLATL_PAUSE + delay)
  {
    StepsSucceed(agent, format, MESSAGE_DELAY, delay, ALUX_DEMO_STEPS, 1);
    StepsSucceed(agent, format, XOCOLATL_PAUSE, delay, XOCOLATL_DEMO_STEPS, 8);
  }

  /** With every reply arriving and the gate passed, the demo sends all eleven commands in table order. */
  lemma SuccessCommands(agent: Agent, extract: string -> nat, format: string -> string, delay: nat)
    requires GatePasses(agent, extract) && AllOk(agent, 1, 10)
    ensures Commands(RunSequence(agent, extract, format, delay)) == ALL_COMMANDS
  {
    var alux, xoc := Alux(agent, format, delay), Xocolatl(agent, format, delay);
    PhasesSucceed(agent, format, delay);
    AluxGoesOn(agent, extract, format, delay);
    ClosingEffects(xoc);
    Assembled(RunSequence(agent, extract, format, delay), alux.log, Closing(xoc));
  }

  /**
   * With every reply arriving and the gate passed, the narration is the Alux
   * header, the seven Alux turns, the Xocolatl header, the three Xocolatl
   * turns and the success message.
   */
  lemma SuccessTrace(agent: Agent, extract: string -> nat, format: string -> string, delay: nat)
    requires GatePasses(agent, extract) && AllOk(agent, 1, 10)
    ensures Trace(RunSequence(agent, extract, format, delay))
         == [Event(ALUX_HEADER, false)] + Turns(agent, format, ALUX_DEMO_STEPS, 1)
          + [Event(XOCOLATL_HEADER, false)] + Turns(agent, format, XOCOLATL_DEMO_STEPS, 8)
          + [Event(SUCCESS_MESSAGE, false)]
  {
    var alux, xoc := Alux(agent, format, delay), Xocolatl(agent, format, delay);
    PhasesSucceed(agent, format, delay);
    AluxGoesOn(agent, extract, format, delay);
    ClosingEffects(xoc);
    Assembled(RunSequence(agent, extract, format, delay), alux.log, Closing(xoc));
  }

  /** A successful run narrates 23 times: two headers, fourteen Alux turns, six Xocolatl turns and the success message. */
  lemma SuccessNarrationCount(agent: Agent, extract: string -> nat, format: string -> string, delay: nat)
    requires GatePasses(agent, extract) && AllOk(agent, 1, 10)
    ensures |Trace(RunSequence(agent, extract, format, delay))| == 23
  {
    SuccessTrace(agent, extract, format, delay);
    TurnsLength(agent, format, ALUX_DEMO_STEPS, 1);
    TurnsLength(agent, format, XOCOLATL_DEMO_STEPS, 8);
  }

  /**
   * With every reply arriving and the gate passed, the run pauses once after
   * the Alux header, and before and after every step.
   */
  lemma SuccessPauses(agent: Agent, extract: string -> nat, format: string -> string, delay: nat)
    requires GatePasses(agent, extract) && AllOk(agent, 1, 10)
    ensures TotalPause(RunSequence(agent, extract, format, delay))
         == MESSAGE_DELAY + 7 * (MESSAGE_DELAY + delay) + 3 * (XOCOLATL_PAUSE + delay)
  {
    var alux, xoc := Alux(agent, format, delay), Xocolatl(agent, format, delay);
    PhasesSucceed(agent, format, delay);
    AluxGoesOn(agent, extract, format, delay);
    ClosingEffects(xoc);
    Assembled(RunSequence(agent, extract, format, delay), alux.log, Closing(xoc));
  }

  /** An Alux step `k` (1 to 7) that is the first to fail ends the run: commands stop at it, its error is narrated last. */
  lemma AluxFailure(agent: Agent, extract: string -> nat, format: string -> string, delay: nat, k: nat)
    requires GatePasses(agent, extract)
    requires 1 <= k <= 7 && AllOk(agent, 1, k - 1) && agent(k).Err?
    ensures Commands(RunSequence(agent, extract, format, delay)) == [BALANCE_QUERY] + ALUX_DEMO_STEPS[..k]
    ensures var t := Trace(RunSequence(agent, extract, format, delay));
      |t| > 0 && t[|t| - 1] == Event(FailureMessage(agent(k).error), false)
  {
    var alux := Alux(agent, format, delay);
    StepsFail(agent, format, MESSAGE_DELAY, delay, ALUX_DEMO_STEPS, 1, k - 1);
    AluxStops(agent, extract, format, delay);
    var fail := Event(FailureMessage(agent(k).error), false);
    var turns := Turns(agent, format, ALUX_DEMO_STEPS[..k - 1], 1);
    LastOf(turns, Event(ALUX_DEMO_STEPS[k - 1], true), fail);
    OpeningThen(RunSequence(agent, extract, format, delay), alux.log, ALUX_DEMO_STEPS[..k], fail);
  }

  /** The last of a sequence that ends with two given elements. */
  lemma LastOf<T>(a: seq<T>, x: T, y: T)
    ensures var t := a + [x, y]; |t| > 0 && t[|t| - 1] == y
  {
  }

  /** The commands and last narration of a log that is the opening and then a phase, from the phase's. */
  lemma OpeningThen(log: seq<Effect>, phase: seq<Effect>, commands: seq<string>, last: Event)
    requires log == Opening() + phase && Commands(phase) == commands
    requires |Trace(phase)| > 0 && Trace(phase)[|Trace(phase)| - 1] == last
    ensures Commands(log) == [BALANCE_QUERY] + commands
    ensures |Trace(log)| > 0 && Trace(log)[|Trace(log)| - 1] == last
  {
    OpeningEffects();
    CommandsAppend(Opening(), phase);
    TraceAppend(Opening(), phase);
  }

  /** The commands, narration and pauses of a log that is the opening and then two parts. */
  lemma Assembled(log: seq<Effect>, a: seq<Effect>, c: seq<Effect>)
    requires log == Opening() + a + c
    ensures Commands(log) == [BALANCE_QUERY] + Commands(a) + Commands(c)
    ensures Trace(log) == [Event(ALUX_HEADER, false)] + Trace(a) + Trace(c)
    ensures TotalPause(log) == MESSAGE_DELAY + TotalPause(a) + TotalPause(c)
  {
    OpeningEffects();
    CommandsAppend(Opening(), a);
    CommandsAppend(Opening() + a, c);
    TraceAppend(Opening(), a);
    TraceAppend(Opening() + a, c);
    TotalPauseAppend(Opening(), a);
    TotalPauseAppend(Opening() + a, c);
  }

  /** A Xocolatl step `k` (8 to 10) that is the first to fail ends the run in the same way. */
  lemma XocolatlFailure(agent: Agent, extract: string -> nat, format: string -> string, delay: nat, k: nat)
    requires GatePasses(agent, extract)
    requires 8 <= k <= 10 && AllOk(agent, 1, k - 1) && agent(k).Err?
    ensures Commands(RunSequence(agent, extract, format, delay)) == [BALANCE_QUERY] + ALUX_DEMO_STEPS + XOCOLATL_DEMO_STEPS[..k - 7]
    ensures var t := Trace(RunSequence(agent, extract, format, delay));
      |t| > 0 && t[|t| - 1] == Event(FailureMessage(agent(k).error), false)
  {
    var xoc := Xocolatl(agent, format, delay);
    StepsSucceed(agent, format, MESSAGE_DELAY, delay, ALUX_DEMO_STEPS, 1);
    StepsFail(agent, format, XOCOLATL_PAUSE, delay, XOCOLATL_DEMO_STEPS, 8, k - 8);
    AluxGoesOn(agent, extract, format, delay);
    var fail := Event(FailureMessage(agent(k).error), false);
    LastOf(Turns(agent, format, XOCOLATL_DEMO_STEPS[..k - 8], 8), Event(XOCOLATL_DEMO_STEPS[k - 8], true), fail);
    ClosingFailed(xoc, XOCOLATL_DEMO_STEPS[..k - 7], fail);
    var c := Closing(xoc);
    Assembled(RunSequence(agent, extract, format, delay), Alux(agent, format, delay).log, c);
    LastAfter([Event(ALUX_HEADER, false)] + Trace(Alux(agent, format, delay).log), Trace(c));
  }

  /** A failed Xocolatl phase, behind its header, keeps its commands and its last narration. */
  lemma ClosingFailed(xoc: Outcome, commands: seq<string>, last: Event)
    requires xoc.failed && Commands(xoc.log) == commands
    requires |Trace(xoc.log)| > 0 && Trace(xoc.log)[|Trace(xoc.log)| - 1] == last
    ensures Commands(Closing(xoc)) == commands
    ensures |Trace(Closing(xoc))| > 0 && Trace(Closing(xoc))[|Trace(Closing(xoc))| - 1] == last
  {
    var head := [Notify(Event(XOCOLATL_HEADER, false))];
    assert Closing(xoc) == head + xoc.log;
    LogCons(head[0], []);
    assert head == [head[0]] + [];
    CommandsAppend(head, xoc.log);
    TraceAppend(head, xoc.log);
  }

  /** The last element of a sequence with a non-empty end part is that part's last. */
  lemma LastAfter<T>(a: seq<T>, c: seq<T>)
    requires |c| > 0
    ensures |a + c| > 0 && (a + c)[|a + c| - 1] == c[|c| - 1]
  {
  }

  /**
   * Fail-fast: when dispatch `k` is the first of the protocol steps to fail,
   * no later command is sent and the error is the last narration.
   */
  lemma FailFast(agent: Agent, extract: string -> nat, format: string -> string, delay: nat, k: nat)
    requires GatePasses(agent, extract)
    requires 1 <= k <= 10 && AllOk(agent, 1, k - 1) && agent(k).Err?
    ensures Commands(RunSequence(agent, extract, format, delay)) == ALL_COMMANDS[..k + 1]
    ensures var t := Trace(RunSequence(agent, extract, format, delay));
      |t| > 0 && t[|t| - 1] == Event(FailureMessage(agent(k).error), false)
  {
    if k <= 7 {
      AluxFailure(agent, extract, format, delay, k);
      PrefixInFirst(BALANCE_QUERY, ALUX_DEMO_STEPS, XOCOLATL_DEMO_STEPS, k);
    } else {
      XocolatlFailure(agent, extract, format, delay, k);
      PrefixInSecond(BALANCE_QUERY, ALUX_DEMO_STEPS, XOCOLATL_DEMO_STEPS, k - 7);
    }
  }

  /** A narrated error starts with the fixed prefix. */
  lemma FailureTextOf(e: string)
    ensures IsFailureText(FailureMessage(e))
  {
    assert FailureMessage(e)[..13] == "Demo failed: ";
  }

  /**
   * Whatever the agent does, the run narrates at least once and its last
   * narration is not a user turn: the refusal, the success message or an
   * error.
   */
  lemma AlwaysTerminal(agent: Agent, extract: string -> nat, format: string -> string, delay: nat)
    ensures var t := Trace(RunSequence(agent, extract, format, delay));
      && |t| > 0
      && !t[|t| - 1].isUser
      && (t[|t| - 1].text == INSUFFICIENT_MESSAGE || t[|t| - 1].text == SUCCESS_MESSAGE || IsFailureText(t[|t| - 1].text))
  {
    if agent(0).Err? {
      BalanceQueryFailureStops(agent, extract, format, delay);
      FailureTextOf(agent(0).error);
    } else if !GatePasses(agent, extract) {
      InsufficientBalanceStops(agent, extract, format, delay);
    } else if AllOk(agent, 1, 10) {
      SuccessTrace(agent, extract, format, delay);
    } else {
      var j := FirstFailure(agent, 1, 10);
      FailFast(agent, extract, format, delay, j + 1);
      FailureTextOf(agent(j + 1).error);
    }
  }

  /** Whatever the agent does, the commands sent are a prefix of the command tables, in order. */
  lemma CommandsArePrefix(agent: Agent, extract: string -> nat, format: string -> string, delay: nat)
    ensures var c := Commands(RunSequence(agent, extract, format, delay));
      1 <= |c| <= |ALL_COMMANDS| && c == ALL_COMMANDS[..|c|]
  {
    assert |ALL_COMMANDS| == 11;
    if agent(0).Err? {
      BalanceQueryFailureStops(agent, extract, format, delay);
    } else if !GatePasses(agent, extract) {
      InsufficientBalanceStops(agent, extract, format, delay);
    } else if AllOk(agent, 1, 10) {
      SuccessCommands(agent, extract, format, delay);
    } else {
      var j := FirstFailure(agent, 1, 10);
      FailFast(agent, extract, format, delay, j + 1);
    }
  }

  /**
   * Whatever the agent does, the run starts with the balance query, and every
   * later dispatch follows the user turn naming it and a one-second pause.
   */
  lemma DemoPaced(agent: Agent, extract: string -> nat, format: string -> string, delay: nat)
    ensures var log := RunSequence(agent, extract, format, delay);
      |log| >= 1 && log[0] == Dispatch(BALANCE_QUERY) && Paced(log[1..], MESSAGE_DELAY)
  {
    var log := RunSequence(agent, extract, format, delay);
    if !GatePasses(agent, extract) {
      assert |log| == 2 && !log[1].Dispatch?;
    } else {
      var alux := Alux(agent, format, delay);
      OpeningEffects();
      StepsPaced(agent, format, MESSAGE_DELAY, delay, ALUX_DEMO_STEPS, 1);
      PacedAppend(Opening()[1..], alux.log, MESSAGE_DELAY);
      var front := Opening()[1..] + alux.log;
      var rest: seq<Effect> := [];
      if alux.failed {
        AluxStops(agent, extract, format, delay);
        assert log == Opening() + alux.log + rest;
      } else {
        AluxGoesOn(agent, extract, format, delay);
        rest := Closing(Xocolatl(agent, format, delay));
        ClosingPaced(agent, format, delay);
      }
      PacedAppend(front, rest, MESSAGE_DELAY);
      ConsRegroup(Opening(), alux.log, rest);
      assert log[1..] == front + rest;
    }
  }

  /** The dispatches after the Xocolatl header are paced like the others. */
  lemma ClosingPaced(agent: Agent, format: string -> string, delay: nat)
    ensures Paced(Closing(Xocolatl(agent, format, delay)), MESSAGE_DELAY)
  {
    var xoc := Xocolatl(agent, format, delay);
    StepsPaced(agent, format, XOCOLATL_PAUSE, delay, XOCOLATL_DEMO_STEPS, 8);
    var head := [Notify(Event(XOCOLATL_HEADER, false))];
    var tail := if xoc.failed then [] else [Notify(Event(SUCCESS_MESSAGE, false))];
    assert Paced(head, MESSAGE_DELAY) && Paced(tail, MESSAGE_DELAY);
    PacedAppend(head, xoc.log, MESSAGE_DELAY);
    PacedAppend(head + xoc.log, tail, MESSAGE_DELAY);
  }

  // ---------------------------------------------------------------------------
  // Accumulating a streamed reply

  /** The reply read front to back: the first chunk's text, then the rest. */
  function ReplyInOrder(chunks: seq<Chunk>): string
    decreases |chunks|
  {
    if chunks == [] then [] else ChunkText(chunks[0]) + ReplyInOrder(chunks[1..])
  }

  /** Appending chunk by chunk, as the loops do, is reading them front to back. */
  lemma {:induction false} ReplyTextInOrder(chunks: seq<Chunk>)
    ensures ReplyText(chunks) == ReplyInOrder(chunks)
    decreases |chunks|
  {
    if chunks != [] {
      var n := |chunks| - 1;
      ReplyTextInOrder(chunks[..n]);
      ReplyInOrderSnoc(chunks[..n], chunks[n]);
      assert chunks[..n] + [chunks[n]] == chunks;
    }
  }

  /** Reading front to back, a chunk at the end contributes last. */
  lemma {:induction false} ReplyInOrderSnoc(chunks: seq<Chunk>, c: Chunk)
    ensures ReplyInOrder(chunks + [c]) == ReplyInOrder(chunks) + ChunkText(c)
    decreases |chunks|
  {
    if chunks == [] {
      assert [] + [c] == [c] && [c][1..] == [];
    } else {
      assert (chunks + [c])[1..] == chunks[1..] + [c];
      ReplyInOrderSnoc(chunks[1..], c);
    }
  }

  /** A reply split into two streams is the concatenation of their replies. */
  lemma {:induction false} ReplyTextAppend(a: seq<Chunk>, b: seq<Chunk>)
    ensures ReplyText(a + b) == ReplyText(a) + ReplyText(b)
    decreases |b|
  {
    if b == [] {
      assert a + b == a;
    } else {
      var n := |b| - 1;
      assert (a + b)[..|a + b| - 1] == a + b[..n];
      ReplyTextAppend(a, b[..n]);
    }
  }

  /** A chunk carrying both parts contributes its `agent` content only. */
  lemma AgentPartWins(a: string, t: string, rest: seq<Chunk>)
    ensures ReplyText(rest + [Chunk(Some(a), Some(t))]) == ReplyText(rest) + a
  {
    var cs := rest + [Chunk(Some(a), Some(t))];
    assert cs[..|cs| - 1] == rest;
  }

  /** The first failing dispatch among `base` to `base + n - 1`, when there is one. */
  lemma {:induction false} FirstFailure(agent: Agent, base: nat, n: nat) returns (k: nat)
    requires !AllOk(agent, base, n)
    ensures k < n && AllOk(agent, base, k) && agent(base + k).Err?
    decreases n
  {
    if n > 0 && !AllOk(agent, base, n - 1) {
      k := FirstFailure(agent, base, n - 1);
    } else {
      k := n - 1;
    }
  }

  /** Every user turn of `t` is one of `steps`. */
  predicate TurnsAreSteps(t: seq<Event>, steps: seq<string>) {
    forall k :: 0 <= k < |t| && t[k].isUser ==> t[k].text in steps
  }

  /** Every narration of `t` that is not a user turn is trimmed. */
  predicate RepliesUnpadded(t: seq<Event>) {
    forall k :: 0 <= k < |t| && !t[k].isUser ==> Unpadded(t[k].text)
  }

  /** A step's user turn and its trimmed reply in front of turns that keep both properties. */
  lemma TurnsCons(turn: Event, reply: Event, rest: seq<Event>, steps: seq<string>)
    requires steps != [] && turn == Event(steps[0], true)
    requires !reply.isUser && Unpadded(reply.text)
    requires TurnsAreSteps(rest, steps[1..]) && RepliesUnpadded(rest)
    ensures TurnsAreSteps([turn, reply] + rest, steps) && RepliesUnpadded([turn, reply] + rest)
  {
    var t := [turn, reply] + rest;
    forall k | 2 <= k < |t|
      ensures t[k].isUser ==> t[k].text in steps
      ensures !t[k].isUser ==> Unpadded(t[k].text)
    {
      assert t[k] == rest[k - 2];
      if t[k].isUser {
        assert t[k].text in steps[1..];
      }
    }
  }

  /**
   * In the demo, whose formatter is `formatTransactionLink`, every reply a
   * phase narrates is trimmed, and the user turns are the steps.
   */
  lemma {:induction false} DemoRepliesTrimmed(agent: Agent, steps: seq<string>, base: nat)
    ensures var t := Turns(agent, FormatTransactionLink, steps, base);
      TurnsAreSteps(t, steps) && RepliesUnpadded(t)
    decreases |steps|
  {
    if steps != [] {
      DemoRepliesTrimmed(agent, steps[1..], base + 1);
      TurnsCons(Event(steps[0], true), Narrated(FormatTransactionLink, Chunks(agent(base))),
                Turns(agent, FormatTransactionLink, steps[1..], base + 1), steps);
    }
  }
}
