/** The start/stop transition protocol of `EC2Manager.stop_instance` and
    `EC2Manager.start_instance`, written once with the target state as a parameter.

    The cloud provider is an oracle: `Provider` answers the n-th `describe_instances`
    call of a run, and the dry-run probe and the real request each get one outcome. */
module Protocol {
  import opened Inventory
  import opened Instance

  /** One answer of `describe_instances`: an inventory snapshot, or a `ClientError`. */
  datatype Describe = Answered(snapshot: seq<Reservation>) | Failed

  /** Answer to the n-th describe call. */
  type Provider = nat -> Describe

  /** Outcome of the dry-run request: no error at all, the `DryRunOperation` error that
      means the caller is authorised, or any other `ClientError`. */
  datatype DryRun = ProbeOk | ProbeSentinel | ProbeError

  /** Outcome of the real start/stop request. */
  datatype Reply = RequestAccepted | RequestFailed

  datatype Target = Running | Stopped

  /** Why an exception left the protocol instead of being caught. */
  datatype Cause =
    | DescribeRaised        // the first status query failed (outside any try)
    | DryRunRaised          // the dry-run failed with something other than the sentinel
    | KeyMissing(key: string) // the handle lacks a field the protocol reads

  /** How one protocol run ended, as far as its console output goes. */
  datatype Ending =
    | AlreadyInState        // "... is stopped/running already"
    | Succeeded             // "success"
    | PollExhausted         // the poll loop ran out; nothing is printed
    | ErrorPrinted          // a ClientError from the request or a poll was printed
    | Escaped(cause: Cause) // the exception propagates to the caller

  /** What one protocol run did: whether the dry-run and the real request were issued,
      how many poll iterations ran, how many describe calls it made, and how it ended. */
  datatype Trace = Trace(probed: bool, requested: bool, polls: nat, queries: nat, ending: Ending)

  /** The number of poll iterations: `range(1, 100)`. */
  const Attempts: nat := 99

  /** `is_running()` for a start, `is_stopped()` for a stop. */
  predicate Reached(snapshot: seq<Reservation>, id: string, target: Target)
  {
    match target
    case Running => IsRunning(snapshot, id)
    case Stopped => IsStopped(snapshot, id)
  }

  /** Describe call of the printed status in poll iteration `i` (1-based), when the loop's
      first call is `base`; the convergence check is the call after it. */
  function ShownAt(base: nat, i: nat): nat
    requires i >= 1
  {
    base + 2 * (i - 1)
  }

  /** Both describe calls of iteration `i` answer. */
  predicate Quiet(p: Provider, base: nat, i: nat)
    requires i >= 1
  {
    p(ShownAt(base, i)).Answered? && p(ShownAt(base, i) + 1).Answered?
  }

  /** Iteration `i` sees the target on its convergence check. */
  predicate ConvergesAt(p: Provider, base: nat, id: string, target: Target, i: nat)
    requires i >= 1
  {
    Quiet(p, base, i) && Reached(p(ShownAt(base, i) + 1).snapshot, id, target)
  }

  /** Iteration `i` completes without error and without seeing the target. */
  predicate Pending(p: Provider, base: nat, id: string, target: Target, i: nat)
    requires i >= 1
  {
    Quiet(p, base, i) && !Reached(p(ShownAt(base, i) + 1).snapshot, id, target)
  }

  /** Iterations `from .. to - 1` all complete without error and without seeing the target. */
  predicate PendingBetween(p: Provider, base: nat, id: string, target: Target, from: nat, to: nat)
    requires from >= 1
  {
    forall j :: from <= j < to ==> Pending(p, base, id, target, j)
  }

  /** The poll loop from iteration `i` on, after a request that was accepted. Its
      queries count from the protocol's first describe call (one before `base`). */
  function PollFrom(p: Provider, base: nat, id: string, target: Target, i: nat): Trace
    requires 1 <= i <= Attempts + 1
    decreases Attempts + 1 - i
  {
    if i > Attempts then Trace(true, true, Attempts, 1 + 2 * Attempts, PollExhausted)
    else
      var shown := ShownAt(base, i);
      if p(shown).Failed? then Trace(true, true, i, 2 * i, ErrorPrinted)
      else if p(shown + 1).Failed? then Trace(true, true, i, 1 + 2 * i, ErrorPrinted)
      else if Reached(p(shown + 1).snapshot, id, target) then Trace(true, true, i, 1 + 2 * i, Succeeded)
      else PollFrom(p, base, id, target, i + 1)
  }

  /** However the provider answers, the poll loop ends in one of three ways, runs at
      most `Attempts` iterations and makes two describe calls per iteration, fewer
      only when one of them fails. */
  lemma {:induction false} PollShape(p: Provider, base: nat, id: string, target: Target, i: nat)
    requires 1 <= i <= Attempts + 1
    ensures var t := PollFrom(p, base, id, target, i);
            && t.probed && t.requested
            && i - 1 <= t.polls <= Attempts
            && (t.ending == Succeeded || t.ending == PollExhausted || t.ending == ErrorPrinted)
            && (t.ending == PollExhausted ==> t.polls == Attempts && t.queries == 1 + 2 * Attempts)
            && (t.ending == Succeeded ==>
                  t.queries == 1 + 2 * t.polls && t.polls >= 1 && ConvergesAt(p, base, id, target, t.polls))
            && (t.ending == ErrorPrinted ==> t.polls >= 1 && 2 * t.polls <= t.queries <= 1 + 2 * t.polls)
    decreases Attempts + 1 - i
  {
    if i <= Attempts && Pending(p, base, id, target, i) {
      PollShape(p, base, id, target, i + 1);
    }
  }

  /** One iteration of the poll loop, unfolded for the loop's proof. */
  lemma PollStep(p: Provider, base: nat, id: string, target: Target, i: nat)
    requires 1 <= i <= Attempts
    ensures p(ShownAt(base, i)).Failed? ==>
              PollFrom(p, base, id, target, i) == Trace(true, true, i, 2 * i, ErrorPrinted)
    ensures p(ShownAt(base, i)).Answered? && p(ShownAt(base, i) + 1).Failed? ==>
              PollFrom(p, base, id, target, i) == Trace(true, true, i, 1 + 2 * i, ErrorPrinted)
    ensures ConvergesAt(p, base, id, target, i) ==>
              PollFrom(p, base, id, target, i) == Trace(true, true, i, 1 + 2 * i, Succeeded)
    ensures Pending(p, base, id, target, i) ==>
              PollFrom(p, base, id, target, i) == PollFrom(p, base, id, target, i + 1)
  {
  }

  /** A pending iteration hands over to the next one. */
  lemma PollPending(p: Provider, base: nat, id: string, target: Target, i: nat)
    requires 1 <= i <= Attempts && Pending(p, base, id, target, i)
    ensures PollFrom(p, base, id, target, i) == PollFrom(p, base, id, target, i + 1)
  {
    PollStep(p, base, id, target, i);
  }

  /** The poll loop succeeds at iteration `n` exactly when every earlier iteration is
      pending and iteration `n` sees the target. */
  lemma {:induction false} PollSucceedsIff(p: Provider, base: nat, id: string, target: Target, i: nat, n: nat)
    requires 1 <= i <= Attempts + 1
    ensures PollFrom(p, base, id, target, i) == Trace(true, true, n, 1 + 2 * n, Succeeded)
        <==> i <= n <= Attempts
             && PendingBetween(p, base, id, target, i, n)
             && ConvergesAt(p, base, id, target, n)
    decreases Attempts + 1 - i
  {
    if i <= Attempts {
      if Pending(p, base, id, target, i) {
        PollSucceedsIff(p, base, id, target, i + 1, n);
        if n == i {
          assert !ConvergesAt(p, base, id, target, n);
        } else if i < n {
          assert PendingBetween(p, base, id, target, i, n) <==> PendingBetween(p, base, id, target, i + 1, n);
        }
      } else if i < n {
        assert !PendingBetween(p, base, id, target, i, n) by {
          assert !Pending(p, base, id, target, i);
        }
      }
    }
  }

  /** The poll loop runs out exactly when all its iterations are pending. */
  lemma {:induction false} PollExhaustsIff(p: Provider, base: nat, id: string, target: Target, i: nat)
    requires 1 <= i <= Attempts + 1
    ensures PollFrom(p, base, id, target, i).ending == PollExhausted
        <==> PendingBetween(p, base, id, target, i, Attempts + 1)
    decreases Attempts + 1 - i
  {
    if i <= Attempts && Pending(p, base, id, target, i) {
      PollExhaustsIff(p, base, id, target, i + 1);
    }
  }

  /** The whole protocol for the handle fields `values`, starting at describe call `at`. */
  function TransitionSpec(values: map<string, string>, target: Target, p: Provider, at: nat,
                          probe: DryRun, reply: Reply): Trace
  {
    if p(at).Failed? then Trace(false, false, 0, 1, Escaped(DescribeRaised))
    // Without an id, the first status query raises as soon as the snapshot is non-empty;
    // on an empty one it reports Unknown and the "> stop ec2: {id}" or
    // "> start ec2: {id}" message raises instead.
    else if "id" !in values then Trace(false, false, 0, 1, Escaped(KeyMissing("id")))
    else if Reached(p(at).snapshot, values["id"], target) then
      if "ip" in values then Trace(false, false, 0, 1, AlreadyInState)
      else Trace(false, false, 0, 1, Escaped(KeyMissing("ip")))
    else if probe == ProbeError then Trace(true, false, 0, 1, Escaped(DryRunRaised))
    else if reply == RequestFailed then Trace(true, true, 0, 1, ErrorPrinted)
    else
      assert reply == RequestAccepted;
      PollFrom(p, at + 1, values["id"], target, 1)
  }

  /** The protocol reaches its poll loop: the first query answered, the handle has an
      id, the target is not reached yet, the dry-run passed and the request was accepted. */
  predicate PollsAfter(values: map<string, string>, target: Target, p: Provider, at: nat,
                       probe: DryRun, reply: Reply)
  {
    && p(at).Answered? && "id" in values
    && !Reached(p(at).snapshot, values["id"], target)
    && probe != ProbeError && reply == RequestAccepted
  }

  /** Idempotence: an instance already in the target state is reported as such, and
      gets no dry-run, no request and no polling. */
  lemma AlreadyShortCircuits(values: map<string, string>, target: Target, p: Provider, at: nat,
                             probe: DryRun, reply: Reply)
    ensures var t := TransitionSpec(values, target, p, at, probe, reply);
            && (t.ending == AlreadyInState <==>
                  p(at).Answered? && "id" in values && "ip" in values
                  && Reached(p(at).snapshot, values["id"], target))
            && (t.ending == AlreadyInState ==> !t.probed && !t.requested && t.polls == 0 && t.queries == 1)
  {
    if PollsAfter(values, target, p, at, probe, reply) {
      PollShape(p, at + 1, values["id"], target, 1);
    }
  }

  /** The dry-run gates the real request: it goes out exactly when the first query
      answered, the handle has an id, the target is not reached yet and the dry-run
      raised nothing but the sentinel; any other dry-run error escapes instead. */
  lemma DryRunGatesRequest(values: map<string, string>, target: Target, p: Provider, at: nat,
                           probe: DryRun, reply: Reply)
    ensures var t := TransitionSpec(values, target, p, at, probe, reply);
            && (t.requested ==> t.probed)
            && (t.requested <==>
                  p(at).Answered? && "id" in values
                  && !Reached(p(at).snapshot, values["id"], target)
                  && probe != ProbeError)
            && (t.probed && probe == ProbeError ==> !t.requested && t.ending == Escaped(DryRunRaised))
  {
    if PollsAfter(values, target, p, at, probe, reply) {
      PollShape(p, at + 1, values["id"], target, 1);
    }
  }

  /** Errors after the real request is issued are printed, never raised: an exception
      leaves the protocol only before the request, after the single first query. */
  lemma ErrorsAfterRequestAreCaught(values: map<string, string>, target: Target, p: Provider, at: nat,
                                    probe: DryRun, reply: Reply)
    ensures var t := TransitionSpec(values, target, p, at, probe, reply);
            && (t.ending.Escaped? <==> !t.requested && t.ending != AlreadyInState)
            && (t.ending.Escaped? ==> t.queries == 1 && t.polls == 0)
            && (t.requested && reply == RequestFailed ==> t.ending == ErrorPrinted && t.polls == 0)
  {
    if PollsAfter(values, target, p, at, probe, reply) {
      PollShape(p, at + 1, values["id"], target, 1);
    }
  }

  /** Polling follows only an accepted request, and is bounded by `Attempts` iterations
      of two describe calls each. */
  lemma PollingBounded(values: map<string, string>, target: Target, p: Provider, at: nat,
                       probe: DryRun, reply: Reply)
    ensures var t := TransitionSpec(values, target, p, at, probe, reply);
            && (t.polls > 0 ==> t.requested && reply == RequestAccepted)
            && t.polls <= Attempts
            && t.queries <= 1 + 2 * t.polls
            && t.queries <= 1 + 2 * Attempts
            && (t.ending == Succeeded ==> t.polls >= 1)
  {
    if PollsAfter(values, target, p, at, probe, reply) {
      PollShape(p, at + 1, values["id"], target, 1);
    }
  }

  /** Convergence: the protocol prints "success" after `n` poll iterations and
      `1 + 2 * n` describe calls exactly when the request went out, iterations
      `1 .. n - 1` were pending and iteration `n` saw the target. */
  lemma TransitionSucceedsIff(values: map<string, string>, target: Target, p: Provider, at: nat,
                              probe: DryRun, reply: Reply, n: nat)
    ensures TransitionSpec(values, target, p, at, probe, reply) == Trace(true, true, n, 1 + 2 * n, Succeeded)
        <==> && p(at).Answered? && "id" in values
             && !Reached(p(at).snapshot, values["id"], target)
             && probe != ProbeError && reply == RequestAccepted
             && 1 <= n <= Attempts
             && PendingBetween(p, at + 1, values["id"], target, 1, n)
             && ConvergesAt(p, at + 1, values["id"], target, n)
  {
    if p(at).Answered? && "id" in values {
      PollSucceedsIff(p, at + 1, values["id"], target, 1, n);
    }
  }

  /** Timeout: the protocol ends silently after exactly `Attempts` iterations and
      `1 + 2 * Attempts` describe calls exactly when every iteration was pending. */
  lemma TransitionTimesOutIff(values: map<string, string>, target: Target, p: Provider, at: nat,
                              probe: DryRun, reply: Reply)
    ensures TransitionSpec(values, target, p, at, probe, reply).ending == PollExhausted
        <==> && p(at).Answered? && "id" in values
             && !Reached(p(at).snapshot, values["id"], target)
             && probe != ProbeError && reply == RequestAccepted
             && PendingBetween(p, at + 1, values["id"], target, 1, Attempts + 1)
    ensures TransitionSpec(values, target, p, at, probe, reply).ending == PollExhausted ==>
              TransitionSpec(values, target, p, at, probe, reply).polls == Attempts
  {
    if p(at).Answered? && "id" in values {
      PollExhaustsIff(p, at + 1, values["id"], target, 1);
      PollShape(p, at + 1, values["id"], target, 1);
    }
  }

  /** The protocol itself, on a handle: short-circuit, dry-run, request, poll. */
  method Transition(handle: EC2Instance, target: Target, p: Provider, at: nat,
                    probe: DryRun, reply: Reply) returns (t: Trace)
    ensures t == TransitionSpec(handle.values, target, p, at, probe, reply)
  {
    var first := p(at);
    if first.Failed? {
      return Trace(false, false, 0, 1, Escaped(DescribeRaised));
    }
    if "id" !in handle.values {
      return Trace(false, false, 0, 1, Escaped(KeyMissing("id")));
    }
    var id := handle.values["id"];
    if Reached(first.snapshot, id, target) {
      if "ip" !in handle.values {
        return Trace(false, false, 0, 1, Escaped(KeyMissing("ip")));
      }
      return Trace(false, false, 0, 1, AlreadyInState);
    }
    // dry-run: the sentinel error is swallowed, any other error propagates
    if probe == ProbeError {
      return Trace(true, false, 0, 1, Escaped(DryRunRaised));
    }
    // the real request and the poll loop share one handler for ClientError
    if reply == RequestFailed {
      return Trace(true, true, 0, 1, ErrorPrinted);
    }
    // the poll loop's describe calls follow the first status query
    t := Poll(p, at + 1, handle.values["id"], target);
  }

  /** The poll loop `for i in range(1, 100)` after an accepted request, its first
      describe call being `base`. */
  method Poll(p: Provider, base: nat, id: string, target: Target) returns (t: Trace)
    ensures t == PollFrom(p, base, id, target, 1)
  {
    ghost var goal := PollFrom(p, base, id, target, 1);
    t := Trace(true, true, Attempts, 1 + 2 * Attempts, PollExhausted);
    for i := 1 to Attempts + 1
      invariant PollFrom(p, base, id, target, i) == goal
      invariant t == Trace(true, true, Attempts, 1 + 2 * Attempts, PollExhausted)
    {
      var q := ShownAt(base, i);
      // print(instance.status())
      var shown := p(q);
      if shown.Failed? {
        t := Trace(true, true, i, 2 * i, ErrorPrinted);
        PollStep(p, base, id, target, i);
        break;
      }
      // if instance.is_stopped() / is_running()
      var judged := p(q + 1);
      if judged.Failed? {
        t := Trace(true, true, i, 1 + 2 * i, ErrorPrinted);
        PollStep(p, base, id, target, i);
        break;
      }
      if Reached(judged.snapshot, id, target) {
        t := Trace(true, true, i, 1 + 2 * i, Succeeded);
        PollStep(p, base, id, target, i);
        break;
      }
      PollPending(p, base, id, target, i);
    }
  }

  /** `stop_instance`: the protocol with target `Stopped`. */
  method StopInstance(handle: EC2Instance, p: Provider, at: nat, probe: DryRun, reply: Reply)
    returns (t: Trace)
    ensures t == TransitionSpec(handle.values, Stopped, p, at, probe, reply)
  {
    t := Transition(handle, Stopped, p, at, probe, reply);
  }

  /** `start_instance`: the protocol with target `Running`. */
  method StartInstance(handle: EC2Instance, p: Provider, at: nat, probe: DryRun, reply: Reply)
    returns (t: Trace)
    ensures t == TransitionSpec(handle.values, Running, p, at, probe, reply)
  {
    t := Transition(handle, Running, p, at, probe, reply);
  }
}
