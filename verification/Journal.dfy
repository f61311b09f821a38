/** core/usecase/progress.go: the bounded diary of the operation in progress. */
module Journals {
  import opened Common

  const MAX_STEPS: nat := 64

  datatype Step = Step(at: Time, scope: string, text: string, since: int)

  datatype Progress = Progress(op: string, running: bool, failure: string, elapsed: int, dropped: nat)

  /** What is left of `all` the steps of an operation: everything, or both ends. */
  function Kept(all: seq<Step>): seq<Step> {
    if |all| <= MAX_STEPS then all
    else all[..MAX_STEPS / 2] + all[|all| - MAX_STEPS / 2..]
  }

  /** Without the step in the middle. */
  function WithoutMiddle(steps: seq<Step>): seq<Step>
    requires steps != []
  {
    steps[..|steps| / 2] + steps[|steps| / 2 + 1..]
  }

  function Pushed(steps: seq<Step>, s: Step): seq<Step> {
    if |steps| >= MAX_STEPS then WithoutMiddle(steps) + [s] else steps + [s]
  }

  /** Dropping the middle of a full diary before adding a step keeps exactly the two ends. */
  lemma DroppingTheMiddleKeepsTheEnds(all: seq<Step>, s: Step)
    ensures Kept(all + [s]) == Pushed(Kept(all), s)
    ensures |Kept(all)| <= MAX_STEPS
  {
    if |all| >= MAX_STEPS {
      var first, last := all[..MAX_STEPS / 2], all[|all| - MAX_STEPS / 2..];
      FullDiary(all);
      FullDiary(all + [s]);
      EndsOfOneMore(all, s);
      PushedOnTwoHalves(first, last, s);
    }
  }

  lemma EndsOfOneMore(all: seq<Step>, s: Step)
    requires |all| >= MAX_STEPS
    ensures (all + [s])[..MAX_STEPS / 2] == all[..MAX_STEPS / 2]
    ensures (all + [s])[|all| + 1 - MAX_STEPS / 2..] == all[|all| - MAX_STEPS / 2..][1..] + [s]
  {
  }

  lemma PushedOnTwoHalves(first: seq<Step>, last: seq<Step>, s: Step)
    requires |first| == |last| == MAX_STEPS / 2
    ensures Pushed(first + last, s) == first + (last[1..] + [s])
  {
    MiddleOfTwoHalves(first, last);
    assert first + last[1..] + [s] == first + (last[1..] + [s]);
  }

  lemma FullDiary(all: seq<Step>)
    requires |all| >= MAX_STEPS
    ensures Kept(all) == all[..MAX_STEPS / 2] + all[|all| - MAX_STEPS / 2..]
  {
  }

  lemma MiddleOfTwoHalves(first: seq<Step>, last: seq<Step>)
    requires |first| == |last| > 0
    ensures WithoutMiddle(first + last) == first + last[1..]
  {
  }

  class Journal {
    var op: string
    const buffer: array<Step>
    var count: nat
    var started: Time
    var ended: Time
    var running: bool
    var failure: string
    var dropped: nat
    /** Every step since the operation began, dropped or not. */
    ghost var all: seq<Step>

    ghost predicate Valid()
      reads this, buffer
    {
      && buffer.Length == MAX_STEPS && count <= MAX_STEPS
      && buffer[..count] == Kept(all)
      && dropped + count == |all|
    }

    constructor ()
      ensures Valid() && fresh(buffer)
      ensures all == [] && !running && op == "" && failure == "" && started == ended == 0
    {
      op, failure := "", "";
      buffer := new Step[MAX_STEPS](_ => Step(0, "", "", 0));
      count, dropped, started, ended := 0, 0, 0, 0;
      running := false;
      all := [];
    }

    method Begin(what: string, now: Time)
      requires Valid()
      modifies this
      ensures Valid() && all == []
      ensures op == what && started == now && ended == 0 && running && failure == ""
    {
      op, started, ended, running, failure := what, now, 0, true, "";
      count, dropped := 0, 0;
      all := [];
    }

    /** The steps after the middle one move down a place. */
    method DropMiddle()
      requires buffer.Length == MAX_STEPS && 0 < count <= MAX_STEPS
      modifies `count, buffer
      ensures count == old(count) - 1
      ensures buffer[..count] == WithoutMiddle(old(buffer[..count]))
    {
      var half := count / 2;
      for i := half to count - 1
        invariant count == old(count)
        invariant forall k | 0 <= k < half :: buffer[k] == old(buffer[k])
        invariant forall k | half <= k < i :: buffer[k] == old(buffer[k + 1])
        invariant forall k | i <= k < count :: buffer[k] == old(buffer[k])
      {
        buffer[i] := buffer[i + 1];
      }
      count := count - 1;
    }

    method Append(s: Step)
      requires count < buffer.Length
      modifies `count, buffer
      ensures count == old(count) + 1 && buffer[..count] == old(buffer[..count]) + [s]
    {
      buffer[count] := s;
      count := count + 1;
    }

    /** Room is made in the middle when the diary is full. */
    method Push(s: Step)
      requires buffer.Length == MAX_STEPS && count <= MAX_STEPS
      modifies `count, `dropped, buffer
      ensures count <= MAX_STEPS && dropped + count == old(dropped + count) + 1
      ensures buffer[..count] == Pushed(old(buffer[..count]), s)
    {
      if count >= MAX_STEPS {
        DropMiddle();
        dropped := dropped + 1;
      }
      Append(s);
    }

    method Note(now: Time, scope: string, text: string)
      requires Valid()
      modifies this, buffer
      ensures Valid()
      ensures all == if old(running) then old(all) + [Step(now, scope, text, now - started)] else old(all)
      ensures op == old(op) && started == old(started) && ended == old(ended)
      ensures running == old(running) && failure == old(failure)
    {
      if !running {
        return;
      }
      ghost var s := Step(now, scope, text, now - started);
      DroppingTheMiddleKeepsTheEnds(all, s);
      Push(Step(now, scope, text, now - started));
      all := all + [s];
    }

    method End(now: Time, error: Option<string>)
      requires Valid()
      modifies this
      ensures Valid() && all == old(all)
      ensures op == old(op) && started == old(started) && !running
      ensures old(running) ==> ended == now && failure == error.UnwrapOr(old(failure))
      ensures !old(running) ==> ended == old(ended) && failure == old(failure)
    {
      if !running {
        return;
      }
      running, ended := false, now;
      if error.Some? {
        failure := error.value;
      }
    }

    /** The steps are copied to an array of their own, so no later call can change them. */
    method Report(now: Time) returns (p: Progress, steps: array<Step>)
      requires Valid()
      ensures fresh(steps) && steps[..] == Kept(all)
      ensures p.dropped + steps.Length == |all|
      ensures p.op == op && p.running == running && p.failure == failure
      ensures p.elapsed == if started == 0 then 0 else (if running then now else ended) - started
    {
      var fin := ended;
      if running {
        fin := now;
      }
      var elapsed := 0;
      if started != 0 {
        elapsed := fin - started;
      }
      steps := new Step[count](i requires 0 <= i < count && count <= buffer.Length reads this, buffer => buffer[i]);
      p := Progress(op, running, failure, elapsed, dropped);
    }
  }

  /** What is left of a long operation: its first 32 steps and its last 32, in order. */
  lemma KeptEnds(all: seq<Step>, i: nat)
    requires |all| > 64 && i < 64
    ensures |Kept(all)| == 64
    ensures Kept(all)[i] == if i < 32 then all[i] else all[|all| - 64 + i]
  {
  }
}
