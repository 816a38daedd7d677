/** The bot's polling loop (`run_bot`): poll for updates forever and, after
    each polling call, decide from how it ended whether to poll again, wait
    and poll again, or replace the whole process with a fresh copy of itself.
    An exception that no `except` clause catches leaves the loop instead.
    The polling call, the sleep and the process replacement are effects of
    the messaging library and the operating system; here a polling call is
    represented by how it ended, and the effects by the action chosen. */
module Polling {
  import opened Text

  /** How one call to the library's polling function ended. */
  datatype Outcome =
    | Returned               // it returned without raising
    | ApiError(msg: string)  // it raised the library's API exception; `msg` is its `str()`
    | OtherError             // it raised any other `Exception`
    | Escaped                // it raised a `BaseException` that is not an `Exception`
                             // (`KeyboardInterrupt`, `SystemExit`), which no clause catches

  /** What the loop does next. */
  datatype Action =
    | Repoll                       // call the polling function again
    | SleepThenRepoll(secs: nat)   // sleep, then call it again in the same process
    | Reexec                       // replace the process image: this process runs no further
    | Propagate                    // the exception leaves `run_bot`: this process polls no more

  /** How long the loop waits after a conflict (HTTP 409) before polling again. */
  const ConflictWaitSecs: nat := 20

  /** The text whose presence in an API error's message marks a conflict. */
  const ConflictCode: string := "409"

  /** An outcome after which the loop replaces the process. */
  predicate IsFatal(o: Outcome) {
    o.OtherError? || (o.ApiError? && !Contains(o.msg, ConflictCode))
  }

  /** An action after which this process makes no further polling call. */
  predicate Ends(a: Action) {
    a.Reexec? || a.Propagate?
  }

  /** An outcome after which the loop stops polling in this process. */
  predicate Stops(o: Outcome) {
    IsFatal(o) || o.Escaped?
  }

  /** An API error whose text mentions the conflict status code. */
  predicate IsConflict(o: Outcome) {
    o.ApiError? && Contains(o.msg, ConflictCode)
  }

  /** One pass of the loop's exception handling. */
  function Recover(o: Outcome): (a: Action)
    ensures a == Repoll <==> o == Returned
    ensures a.SleepThenRepoll? <==> IsConflict(o)
    ensures a.SleepThenRepoll? ==> a.secs == ConflictWaitSecs
    ensures a == Reexec <==> IsFatal(o)
    ensures a == Propagate <==> o == Escaped
    ensures Ends(a) <==> Stops(o)
  {
    match o
    case Returned => Repoll
    case ApiError(msg) => if Contains(msg, ConflictCode) then SleepThenRepoll(ConflictWaitSecs) else Reexec
    case OtherError => Reexec
    case Escaped => Propagate
  }

  /** The actions one process image takes when its successive polling calls
      end as `outcomes` say: one action per call, up to and including the
      first re-exec or escaping exception, after which this process polls no
      more. */
  function Run(outcomes: seq<Outcome>): (acts: seq<Action>)
    ensures |acts| <= |outcomes|
    ensures outcomes != [] ==> acts != [] && acts[0] == Recover(outcomes[0])
  {
    if outcomes == [] then []
    else
      var a := Recover(outcomes[0]);
      if Ends(a) then [a] else [a] + Run(outcomes[1..])
  }

  /** What `Run` means: each action is the one `Recover` chooses for the
      corresponding polling call, no action but the last ends the loop, and
      the loop stops before the outcomes run out only by re-executing or by
      letting an exception escape. */
  lemma {:induction false} RunActions(outcomes: seq<Outcome>)
    ensures var acts := Run(outcomes);
      && (forall i :: 0 <= i < |acts| ==> acts[i] == Recover(outcomes[i]))
      && (forall i :: 0 <= i < |acts| - 1 ==> !Ends(acts[i]))
      && (|acts| < |outcomes| ==> acts != [] && Ends(acts[|acts| - 1]))
    decreases |outcomes|
  {
    if outcomes != [] && !Ends(Recover(outcomes[0])) {
      var tail := outcomes[1..];
      RunActions(tail);
      var acts := Run(outcomes);
      assert acts == [Recover(outcomes[0])] + Run(tail);
      forall i | 1 <= i < |acts| ensures acts[i] == Recover(outcomes[i]) {
        assert acts[i] == Run(tail)[i - 1] && tail[i - 1] == outcomes[i];
      }
    }
  }

  /** The seconds an action spends sleeping. */
  function SleepOf(a: Action): nat {
    if a.SleepThenRepoll? then a.secs else 0
  }

  /** The seconds a sequence of actions spends sleeping in all. */
  function TotalSleep(acts: seq<Action>): nat {
    if acts == [] then 0 else TotalSleep(acts[..|acts| - 1]) + SleepOf(acts[|acts| - 1])
  }

  /** The number of conflict errors among the outcomes. */
  function ConflictCount(outcomes: seq<Outcome>): nat {
    if outcomes == [] then 0
    else ConflictCount(outcomes[..|outcomes| - 1]) + (if IsConflict(outcomes[|outcomes| - 1]) then 1 else 0)
  }

  /** The loop stops polling exactly when some polling call ends in an
      outcome that stops it; the first such call is its last, and the loop
      re-executes rather than letting the exception escape exactly when that
      last call failed with a caught exception. */
  lemma {:induction false} RunEndsAtFirstStop(outcomes: seq<Outcome>)
    ensures (exists i :: 0 <= i < |outcomes| && Stops(outcomes[i]))
      <==> (Run(outcomes) != [] && Ends(Run(outcomes)[|Run(outcomes)| - 1]))
    ensures forall i :: 0 <= i < |Run(outcomes)| - 1 ==> !Stops(outcomes[i])
    ensures Run(outcomes) != [] ==>
      (Run(outcomes)[|Run(outcomes)| - 1] == Reexec <==> IsFatal(outcomes[|Run(outcomes)| - 1]))
  {
    var acts := Run(outcomes);
    RunActions(outcomes);
    if exists i :: 0 <= i < |outcomes| && Stops(outcomes[i]) {
      var i :| 0 <= i < |outcomes| && Stops(outcomes[i]);
      if |acts| == |outcomes| {
        assert Ends(acts[i]);
      }
    }
  }

  /** While every polling call returns or raises a conflict error, the loop
      never stops: every call is followed by another in the same process,
      and the time spent waiting is twenty seconds per conflict. */
  lemma {:induction false} RunWithoutStop(outcomes: seq<Outcome>)
    requires forall i :: 0 <= i < |outcomes| ==> !Stops(outcomes[i])
    ensures |Run(outcomes)| == |outcomes|
    ensures Reexec !in Run(outcomes) && Propagate !in Run(outcomes)
    ensures TotalSleep(Run(outcomes)) == ConflictWaitSecs * ConflictCount(outcomes)
    decreases |outcomes|
  {
    if outcomes != [] {
      var init := outcomes[..|outcomes| - 1];
      RunWithoutStop(init);
      RunPrefix(outcomes);
      var acts := Run(outcomes);
      assert acts[..|acts| - 1] == Run(init);
    }
  }

  /** While none of the outcomes but the last stops the loop, the run of the
      whole sequence extends the run of all but the last by one action. */
  lemma {:induction false} RunPrefix(outcomes: seq<Outcome>)
    requires outcomes != []
    requires forall i :: 0 <= i < |outcomes| - 1 ==> !Stops(outcomes[i])
    ensures Run(outcomes) == Run(outcomes[..|outcomes| - 1]) + [Recover(outcomes[|outcomes| - 1])]
    decreases |outcomes|
  {
    var init := outcomes[..|outcomes| - 1];
    if |outcomes| == 1 {
      assert init == [];
    } else {
      var tail := outcomes[1..];
      RunPrefix(tail);
      assert init[1..] == tail[..|tail| - 1];
      assert init[0] == outcomes[0];
      ConcatAssoc([Recover(outcomes[0])], Run(tail[..|tail| - 1]), [Recover(outcomes[|outcomes| - 1])]);
    }
  }

  /** The actions taken so far end the loop. */
  predicate Stopped(done: seq<Action>) {
    done != [] && Ends(done[|done| - 1])
  }

  /** `done` is what the loop has done after its first `|done|` polling
      calls: all of the run if it has stopped, else the run's beginning,
      with the run of the remaining outcomes still to come. */
  ghost predicate Progress(outcomes: seq<Outcome>, done: seq<Action>) {
    |done| <= |outcomes| &&
    if Stopped(done) then Run(outcomes) == done
    else Run(outcomes) == done + Run(outcomes[|done|..])
  }

  /** One more turn of the loop keeps `Progress`. */
  lemma ProgressStep(outcomes: seq<Outcome>, done: seq<Action>)
    requires Progress(outcomes, done) && |done| < |outcomes| && !Stopped(done)
    ensures Progress(outcomes, done + [Recover(outcomes[|done|])])
  {
    RunAdvance(outcomes, |done|, done);
  }

  /** Having taken the actions `done` for the first `i` outcomes without
      stopping, the loop takes the action for outcome `i` next, and stops
      there if that action ends it. */
  lemma RunAdvance(outcomes: seq<Outcome>, i: nat, done: seq<Action>)
    requires i < |outcomes|
    requires Run(outcomes) == done + Run(outcomes[i..])
    ensures Ends(Recover(outcomes[i])) ==> Run(outcomes) == done + [Recover(outcomes[i])]
    ensures !Ends(Recover(outcomes[i])) ==>
      Run(outcomes) == (done + [Recover(outcomes[i])]) + Run(outcomes[i + 1..])
  {
    var rest := outcomes[i..];
    assert rest[0] == outcomes[i] && rest[1..] == outcomes[i + 1..];
    RunStep(rest);
    SnocAssoc(done, Recover(outcomes[i]), Run(rest[1..]));
  }

  lemma SnocAssoc<T>(xs: seq<T>, x: T, ys: seq<T>)
    ensures xs + ([x] + ys) == (xs + [x]) + ys
  {
  }

  lemma ConcatAssoc<T>(xs: seq<T>, ys: seq<T>, zs: seq<T>)
    ensures (xs + ys) + zs == xs + (ys + zs)
  {
  }

  /** The first polling call's action comes first; unless it ends the loop,
      the rest of the run is the run of the remaining outcomes. */
  lemma RunStep(outcomes: seq<Outcome>)
    requires outcomes != []
    ensures Ends(Recover(outcomes[0])) ==> Run(outcomes) == [Recover(outcomes[0])]
    ensures !Ends(Recover(outcomes[0])) ==> Run(outcomes) == [Recover(outcomes[0])] + Run(outcomes[1..])
  {
  }

  lemma TotalSleepSnoc(acts: seq<Action>, a: Action)
    ensures TotalSleep(acts + [a]) == TotalSleep(acts) + SleepOf(a)
  {
    assert (acts + [a])[..|acts|] == acts;
  }

  /** The loop of `run_bot`, driven by the outcomes of its successive polling
      calls: it polls, reacts to how the call ended, and goes round again
      until the process replaces itself or an exception escapes (or the
      given outcomes run out). It reports how many polling calls this
      process made, how long it slept, whether it ended by re-executing and
      whether it ended by letting an exception escape. */
  method RunBot(outcomes: seq<Outcome>) returns (polls: nat, slept: nat, reexeced: bool, escaped: bool)
    ensures polls == |Run(outcomes)|
    ensures slept == TotalSleep(Run(outcomes))
    ensures reexeced <==> Run(outcomes) != [] && Run(outcomes)[|Run(outcomes)| - 1] == Reexec
    ensures escaped <==> Run(outcomes) != [] && Run(outcomes)[|Run(outcomes)| - 1] == Propagate
    ensures !reexeced && !escaped ==> polls == |outcomes|
  {
    polls, slept := 0, 0;
    var stopped := false;
    var last := Repoll;
    ghost var done: seq<Action> := [];
    while polls < |outcomes| && !stopped
      invariant polls == |done| && Progress(outcomes, done)
      invariant slept == TotalSleep(done)
      invariant stopped <==> Stopped(done)
      invariant done != [] ==> last == done[|done| - 1]
    {
      last := Recover(outcomes[polls]);
      ProgressStep(outcomes, done);
      TotalSleepSnoc(done, last);
      slept := slept + SleepOf(last);
      stopped := Ends(last);
      done := done + [last];
      polls := polls + 1;
    }
    if !stopped {
      assert outcomes[polls..] == [] && done + [] == done;
    }
    reexeced := stopped && last == Reexec;
    escaped := stopped && last == Propagate;
  }

  /** An API error whose message mentions 409 anywhere in its text makes the
      loop wait and poll again: the test looks at the text only, so an error
      that mentions 409 elsewhere than in its status code is handled the
      same way. Two sample messages, the second with status code 400, are
      instances. */
  lemma ConflictMatchedByText()
    ensures forall p, s :: Recover(ApiError(p + ConflictCode + s)) == SleepThenRepoll(ConflictWaitSecs)
    ensures Recover(ApiError("Error code: " + "409" + ". Description: Conflict")) == SleepThenRepoll(20)
    ensures Recover(ApiError("Error code: 400. Description: message " + "409" + " not found")) == SleepThenRepoll(20)
  {
    forall p, s ensures Recover(ApiError(p + ConflictCode + s)) == SleepThenRepoll(ConflictWaitSecs) {
      ContainsMiddle(p, ConflictCode, s);
    }
  }
}
