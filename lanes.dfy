/**
 * An execution lane (img/queue.go): one worker that takes the commands
 * handed to it one at a time, in the order they were handed in, and runs
 * each command's transformation unless the command already carries a
 * result.
 *
 * The unbuffered channel, the goroutine and the condition variable are
 * replaced by a sequential FIFO: Enqueue is the channel send, Step is one
 * iteration of the worker loop, and AddAndWait's guarded wait runs worker
 * steps until the submitted command is finished.
 */
module Lanes {
  import opened Types

  /** What a lane's history records: a command finished, or a submitter's callback ran. */
  datatype Event = Finished(c: Command) | CallbackRan(c: Command)

  /**
   * The state the worker loop body leaves a command in: the transformation
   * runs only when no result is present, its (result, error) pair is
   * stored, and the command is marked finished either way.
   */
  function Processed(s: CommandState, t: Option<Cmd>, cfg: TransformationConfig): (r: CommandState)
    requires s.result.Some? || t.Some?
    ensures r.finished
    ensures r.result.Some? || r.err.Some?
  {
    if s.result.None? then
      var out := t.value(cfg);
      CommandState(out.result, out.err, true)
    else
      s.(finished := true)
  }

  /** A command whose result is already present (the pass-through case) keeps its result and error. */
  lemma PassThroughKeepsResult(s: CommandState, t: Option<Cmd>, cfg: TransformationConfig)
    requires s.result.Some?
    ensures Processed(s, t, cfg).result == s.result && Processed(s, t, cfg).err == s.err
  {
  }

  /** A command without a result ends with exactly what its transformation returns. */
  lemma MissingResultIsComputed(s: CommandState, t: Option<Cmd>, cfg: TransformationConfig)
    requires s.result.None? && t.Some?
    ensures var r := Processed(s, t, cfg); EngineResult(r.result, r.err) == t.value(cfg)
  {
  }

  /**
   * A second pass over a processed command gives the same state. When the
   * first pass left an image, the second passes it through without calling
   * the transformation. When it left an error alone, the result is still
   * absent and the second pass calls the transformation again; that the state
   * agrees then rests on a transformation being a function of its config.
   */
  lemma ProcessedIdempotent(s: CommandState, t: Option<Cmd>, cfg: TransformationConfig)
    requires s.result.Some? || t.Some?
    ensures var r := Processed(s, t, cfg); (r.result.Some? || t.Some?) && Processed(r, t, cfg) == r
    ensures var r := Processed(s, t, cfg); r.result.None? ==> s.result.None? && t.Some? && r.err.Some?
  {
  }

  /** The Finished events of a run over cs, in the order of cs. */
  function FinishEvents(cs: seq<Command>): (es: seq<Event>)
    ensures |es| == |cs| && forall k :: 0 <= k < |cs| ==> es[k] == Finished(cs[k])
  {
    if cs == [] then [] else [Finished(cs[0])] + FinishEvents(cs[1..])
  }

  /**
   * The history AddAndWait leaves behind: the submitter's callback runs
   * exactly once, as the last event, right after its command finished.
   */
  lemma CallbackOnceAfterFinish(before: seq<Event>, earlier: seq<Command>, op: Command)
    requires CallbackRan(op) !in before
    ensures CallbackLastAndOnce(before + FinishEvents(earlier + [op]) + [CallbackRan(op)], op)
  {
    var fs := FinishEvents(earlier + [op]);
    var t := before + fs + [CallbackRan(op)];
    forall i | 0 <= i < |t| - 1 ensures t[i] != CallbackRan(op) {
      if i < |before| {
        assert t[i] == before[i];
      } else {
        assert t[i] == fs[i - |before|];
      }
    }
  }

  /** In history t the callback for op is the last event, right after op finished, and occurs nowhere else. */
  ghost predicate CallbackLastAndOnce(t: seq<Event>, op: Command) {
    && |t| >= 2
    && t[|t| - 1] == CallbackRan(op)
    && t[|t| - 2] == Finished(op)
    && forall i :: 0 <= i < |t| - 1 ==> t[i] != CallbackRan(op)
  }

  /** c has been processed from the state `before`, having run `beforeRuns` times. */
  ghost predicate Done(c: Command, before: CommandState, beforeRuns: nat)
    reads c
  {
    && (before.result.Some? || c.transformation.Some?)
    && c.State() == Processed(before, c.transformation, c.config)
    && c.runs == beforeRuns + (if before.result.None? then 1 else 0)
  }

  class Lane {
    /** Commands handed to the lane and not yet taken by its worker, oldest first. */
    var ops: seq<Command>
    /** Everything the lane has done, in order. */
    ghost var trace: seq<Event>

    ghost predicate Valid()
      reads this, ops
    {
      && (forall i, j :: 0 <= i < j < |ops| ==> ops[i] != ops[j])
      && (forall k :: 0 <= k < |ops| ==> ops[k].Runnable())
    }

    /** NewQueue: an idle lane. */
    constructor ()
      ensures Valid() && ops == [] && trace == []
    {
      ops := [];
      trace := [];
    }

    /** The channel send of AddAndWait: the command joins the end of the queue. */
    method Enqueue(op: Command)
      requires Valid() && op !in ops && op.Runnable()
      modifies this`ops
      ensures Valid() && ops == old(ops) + [op]
    {
      ops := ops + [op];
    }

    /** One iteration of the worker loop: process the oldest command. */
    method Step()
      requires Valid() && ops != []
      modifies this, ops[0]
      ensures Valid() && ops == old(ops)[1..]
      ensures Done(old(ops)[0], old(ops[0].State()), old(ops[0].runs))
      ensures trace == old(trace) + [Finished(old(ops)[0])]
    {
      var op := ops[0];
      ops := ops[1..];
      assert op !in ops;
      if op.result.None? {
        var out := op.transformation.value(op.config);
        op.result, op.err := out.result, out.err;
        op.runs := op.runs + 1;
      }
      op.finished := true;
      trace := trace + [Finished(op)];
    }

    /**
     * The worker loop run until the queue is empty: every command is
     * processed, oldest first, whatever error an earlier one ended with.
     */
    method Start()
      requires Valid()
      modifies this, ops
      ensures Valid() && ops == []
      ensures forall k :: 0 <= k < |old(ops)| ==> Done(old(ops)[k], old(ops[k].State()), old(ops[k].runs))
      ensures trace == old(trace) + FinishEvents(old(ops))
    {
      ghost var all := ops;
      ghost var n := 0;
      while ops != []
        invariant Valid()
        invariant 0 <= n <= |all| && ops == all[n..]
        invariant forall k :: 0 <= k < n ==> Done(all[k], old(all[k].State()), old(all[k].runs))
        invariant forall k :: n <= k < |all| ==>
          all[k].State() == old(all[k].State()) && all[k].runs == old(all[k].runs)
        invariant trace == old(trace) + FinishEvents(all[..n])
        decreases |ops|
      {
        Step();
        assert all[..n + 1] == all[..n] + [all[n]];
        n := n + 1;
      }
      assert all[..n] == all;
    }

    /**
     * The guarded wait of AddAndWait: while op is not finished, the
     * submitter sleeps and the worker runs. op is the newest command, and
     * its condition is signalled only once it is finished, so by the time
     * the submitter wakes the worker has processed every command ahead of
     * op and op itself.
     */
    method AwaitFinished(op: Command)
      requires Valid() && ops != [] && ops[|ops| - 1] == op && !op.finished
      modifies this, ops
      ensures Valid() && ops == [] && op.finished
      ensures forall k :: 0 <= k < |old(ops)| ==> Done(old(ops)[k], old(ops[k].State()), old(ops[k].runs))
      ensures trace == old(trace) + FinishEvents(old(ops))
    {
      while !op.finished
        invariant Valid()
        invariant !op.finished ==> ops == old(ops) && trace == old(trace)
        invariant !op.finished ==> forall k :: 0 <= k < |ops| ==>
          ops[k].State() == old(ops[k].State()) && ops[k].runs == old(ops[k].runs)
        invariant op.finished ==> ops == []
        invariant op.finished ==>
          forall k :: 0 <= k < |old(ops)| ==> Done(old(ops)[k], old(ops[k].State()), old(ops[k].runs))
        invariant op.finished ==> trace == old(trace) + FinishEvents(old(ops))
        decreases if op.finished then 0 else 1
      {
        Start();
      }
    }

    /**
     * Queue.AddAndWait: hand op to the lane, wait until it is finished,
     * then run the callback on the finished command. Commands handed in
     * earlier are processed first.
     */
    method AddAndWait<R>(op: Command, callback: CommandState --> R) returns (out: R)
      requires Valid() && op !in ops && op.Runnable() && !op.finished
      requires forall s: CommandState :: s.finished && (s.result.Some? || s.err.Some?) ==> callback.requires(s)
      modifies this, ops, op
      ensures Valid() && ops == []
      ensures forall k :: 0 <= k < |old(ops)| ==> Done(old(ops)[k], old(ops[k].State()), old(ops[k].runs))
      ensures Done(op, old(op.State()), old(op.runs))
      ensures trace == old(trace) + FinishEvents(old(ops) + [op]) + [CallbackRan(op)]
      ensures op.finished && out == callback(op.State())
    {
      Enqueue(op);
      ghost var queued := ops;
      assert queued[|queued| - 1] == op;
      assert forall k :: 0 <= k < |old(ops)| ==>
        ops[k] == old(ops)[k] && ops[k].State() == old(ops[k].State()) && ops[k].runs == old(ops[k].runs);
      AwaitFinished(op);
      assert Done(op, old(op.State()), old(op.runs));
      var final := op.State();
      assert final.finished && (final.result.Some? || final.err.Some?);
      trace := trace + [CallbackRan(op)];
      out := callback(final);
    }
  }
}
