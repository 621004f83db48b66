/** The bulk runner `EC2Manager.run`: read the inventory once, keep the reservations
    whose first record has a private address in the managed range, and apply the
    start or stop protocol to each of them in inventory order. */
module Manager {
  import opened Inventory
  import opened Instance
  import opened Protocol

  /** The managed fleet's private address prefix. */
  const FleetPrefix: string := "192.168."

  /** The filter of `run`: only the first record's private address is consulted. */
  predicate InFleet(r: Reservation)
  {
    FleetPrefix <= First(r).privateIp
  }

  /** `start_instance` for the command "start", `stop_instance` for any other string. */
  function ActionFor(command: string): (target: Target)
    ensures target == Running <==> command == "start"
    ensures target == Stopped <==> command != "start"
  {
    if command == "start" then Running else Stopped
  }

  /** The keyword arguments `run` passes when it builds a handle for a reservation. */
  function HandleArgs(r: Reservation): seq<(string, string)>
  {
    [("id", First(r).instanceId), ("ip", First(r).privateIp)]
  }

  /** The fields of the handle `run` builds for a reservation. */
  function HandleFields(r: Reservation): map<string, string>
  {
    map["id" := First(r).instanceId, "ip" := First(r).privateIp]
  }

  /** A handle built by `run` keeps both of its arguments: the reservation's id and address. */
  lemma HandleArgsKept(r: Reservation)
    ensures Whitelisted(HandleArgs(r)) == HandleFields(r)
  {
    var args := HandleArgs(r);
    assert args[..1] == [args[0]] && args[..1][..0] == [];
  }

  /** One protocol run of a bulk run: the reservation's position, the describe call
      it started at, and what it did. */
  datatype Step = Step(index: nat, at: nat, trace: Trace)

  /** The outcome of `run`: the inventory query raised, or the protocol runs it made. */
  datatype RunReport = InventoryFailed | Ran(steps: seq<Step>)

  /** The last protocol run raised, so the exception left `run` there. */
  predicate Aborted(steps: seq<Step>)
  {
    |steps| > 0 && steps[|steps| - 1].trace.ending.Escaped?
  }

  /** The runs follow one another: the first starts at describe call `at`, and each
      next one where the previous one's describe calls ended. */
  predicate Sequential(steps: seq<Step>, at: nat)
  {
    |steps| > 0 ==> steps[0].at == at && Sequential(steps[1..], at + steps[0].trace.queries)
  }

  lemma SequentialCons(step: Step, rest: seq<Step>, at: nat)
    requires step.at == at && Sequential(rest, at + step.trace.queries)
    ensures Sequential([step] + rest, at)
  {
    assert ([step] + rest)[1..] == rest;
  }

  /** The action `run` selects, as a function of the reservation's position, the
      reservation and the describe call the protocol starts at. */
  type Exec = (nat, Reservation, nat) -> Trace

  /** The protocol towards `target` on the handle built for a reservation; the dry-run
      and request outcomes are given per reservation position. */
  function ExecFor(target: Target, p: Provider, probes: nat -> DryRun, replies: nat -> Reply): Exec
  {
    (k: nat, r: Reservation, at: nat) => TransitionSpec(HandleFields(r), target, p, at, probes(k), replies(k))
  }

  /** The protocol runs `run` makes for reservations `k ..` of `inv` with action `exec`,
      the first one starting at describe call `at`. */
  function RunFrom(inv: seq<Reservation>, k: nat, exec: Exec, at: nat): seq<Step>
    requires k <= |inv|
    decreases |inv| - k
  {
    if k == |inv| then []
    else if !InFleet(inv[k]) then RunFrom(inv, k + 1, exec, at)
    else
      var t := exec(k, inv[k], at);
      if t.ending.Escaped? then [Step(k, at, t)]
      else [Step(k, at, t)] + RunFrom(inv, k + 1, exec, at + t.queries)
  }

  /** A fleet reservation whose run does not raise is followed by the runs for the
      remaining reservations. */
  lemma RunFromContinues(inv: seq<Reservation>, k: nat, exec: Exec, at: nat)
    requires k < |inv| && InFleet(inv[k]) && !exec(k, inv[k], at).ending.Escaped?
    ensures RunFrom(inv, k, exec, at)
            == [Step(k, at, exec(k, inv[k], at))] + RunFrom(inv, k + 1, exec, at + exec(k, inv[k], at).queries)
  {
  }

  /** A fleet reservation whose run raises ends the bulk run. */
  lemma RunFromRaises(inv: seq<Reservation>, k: nat, exec: Exec, at: nat)
    requires k < |inv| && InFleet(inv[k]) && exec(k, inv[k], at).ending.Escaped?
    ensures RunFrom(inv, k, exec, at) == [Step(k, at, exec(k, inv[k], at))]
  {
  }

  /** A reservation outside the fleet is skipped. */
  lemma RunFromSkips(inv: seq<Reservation>, k: nat, exec: Exec, at: nat)
    requires k < |inv| && !InFleet(inv[k])
    ensures RunFrom(inv, k, exec, at) == RunFrom(inv, k + 1, exec, at)
  {
  }

  /** The loop of `run` over one fleet reservation whose run does not raise. */
  lemma RunFromAdvance(inv: seq<Reservation>, k: nat, exec: Exec, at: nat, steps: seq<Step>, goal: seq<Step>)
    requires k < |inv| && InFleet(inv[k]) && !exec(k, inv[k], at).ending.Escaped?
    requires steps + RunFrom(inv, k, exec, at) == goal
    ensures (steps + [Step(k, at, exec(k, inv[k], at))]) + RunFrom(inv, k + 1, exec, at + exec(k, inv[k], at).queries)
            == goal
  {
    RunFromContinues(inv, k, exec, at);
    var step := Step(k, at, exec(k, inv[k], at));
    var rest := RunFrom(inv, k + 1, exec, at + exec(k, inv[k], at).queries);
    assert steps + ([step] + rest) == (steps + [step]) + rest;
  }

  /** The loop of `run` over one fleet reservation whose run raises. */
  lemma RunFromFinish(inv: seq<Reservation>, k: nat, exec: Exec, at: nat, steps: seq<Step>, goal: seq<Step>)
    requires k < |inv| && InFleet(inv[k]) && exec(k, inv[k], at).ending.Escaped?
    requires steps + RunFrom(inv, k, exec, at) == goal
    ensures steps + [Step(k, at, exec(k, inv[k], at))] == goal
  {
    RunFromRaises(inv, k, exec, at);
  }

  /** The loop of `run` over one reservation outside the fleet. */
  lemma RunFromPass(inv: seq<Reservation>, k: nat, exec: Exec, at: nat, steps: seq<Step>, goal: seq<Step>)
    requires k < |inv| && !InFleet(inv[k])
    requires steps + RunFrom(inv, k, exec, at) == goal
    ensures steps + RunFrom(inv, k + 1, exec, at) == goal
  {
    RunFromSkips(inv, k, exec, at);
  }

  /** Only fleet reservations are touched, each at most once and in inventory order. */
  lemma {:induction false} RunFromOrdered(inv: seq<Reservation>, k: nat, exec: Exec, at: nat)
    requires k <= |inv|
    ensures var steps := RunFrom(inv, k, exec, at);
            && (forall s :: 0 <= s < |steps| ==> k <= steps[s].index < |inv| && InFleet(inv[steps[s].index]))
            && (forall s, u :: 0 <= s < u < |steps| ==> steps[s].index < steps[u].index)
    decreases |inv| - k
  {
    if k == |inv| {
    } else if !InFleet(inv[k]) {
      RunFromOrdered(inv, k + 1, exec, at);
      RunFromSkips(inv, k, exec, at);
    } else if !exec(k, inv[k], at).ending.Escaped? {
      var t := exec(k, inv[k], at);
      RunFromOrdered(inv, k + 1, exec, at + t.queries);
      RunFromContinues(inv, k, exec, at);
    }
  }

  /** Each run is the selected action on its reservation, started where the previous
      run's describe calls ended. */
  lemma {:induction false} RunFromActs(inv: seq<Reservation>, k: nat, exec: Exec, at: nat)
    requires k <= |inv|
    ensures var steps := RunFrom(inv, k, exec, at);
            && (forall s :: 0 <= s < |steps| ==>
                  steps[s].index < |inv| && steps[s].trace == exec(steps[s].index, inv[steps[s].index], steps[s].at))
            && Sequential(steps, at)
    decreases |inv| - k
  {
    if k == |inv| {
    } else if !InFleet(inv[k]) {
      RunFromActs(inv, k + 1, exec, at);
      RunFromSkips(inv, k, exec, at);
    } else if !exec(k, inv[k], at).ending.Escaped? {
      var t := exec(k, inv[k], at);
      var rest := RunFrom(inv, k + 1, exec, at + t.queries);
      RunFromActs(inv, k + 1, exec, at + t.queries);
      RunFromContinues(inv, k, exec, at);
      SequentialCons(Step(k, at, t), rest, at);
    }
  }

  /** Only the last run of a bulk run can have raised: an exception ends `run`. */
  lemma {:induction false} RunFromStopsAtRaise(inv: seq<Reservation>, k: nat, exec: Exec, at: nat)
    requires k <= |inv|
    ensures var steps := RunFrom(inv, k, exec, at);
            forall s :: 0 <= s < |steps| - 1 ==> !steps[s].trace.ending.Escaped?
    decreases |inv| - k
  {
    if k == |inv| {
    } else if !InFleet(inv[k]) {
      RunFromStopsAtRaise(inv, k + 1, exec, at);
      RunFromSkips(inv, k, exec, at);
    } else if !exec(k, inv[k], at).ending.Escaped? {
      var t := exec(k, inv[k], at);
      RunFromStopsAtRaise(inv, k + 1, exec, at + t.queries);
      RunFromContinues(inv, k, exec, at);
    }
  }

  /** Every fleet reservation gets its protocol run unless an earlier one raised. */
  lemma {:induction false} RunFromReaches(inv: seq<Reservation>, k: nat, exec: Exec, at: nat, j: nat)
    requires k <= j < |inv| && InFleet(inv[j])
    ensures var steps := RunFrom(inv, k, exec, at);
            || (exists s :: 0 <= s < |steps| && steps[s].index == j)
            || (Aborted(steps) && steps[|steps| - 1].index < j)
    decreases |inv| - k
  {
    var t := exec(k, inv[k], at);
    if !InFleet(inv[k]) {
      RunFromReaches(inv, k + 1, exec, at, j);
      RunFromSkips(inv, k, exec, at);
    } else if t.ending.Escaped? {
      RunFromRaises(inv, k, exec, at);
      assert RunFrom(inv, k, exec, at)[0].index == k;
    } else {
      var rest := RunFrom(inv, k + 1, exec, at + t.queries);
      RunFromContinues(inv, k, exec, at);
      var steps := [Step(k, at, t)] + rest;
      if k == j {
        assert steps[0].index == j;
      } else {
        RunFromReaches(inv, k + 1, exec, at + t.queries, j);
        if s :| 0 <= s < |rest| && rest[s].index == j {
          assert steps[s + 1].index == j;
        } else {
          assert steps[|steps| - 1] == rest[|rest| - 1];
        }
      }
    }
  }

  /** What `run(command)` does when its inventory query is describe call `at`. */
  function RunSpec(command: string, p: Provider, at: nat,
                   probes: nat -> DryRun, replies: nat -> Reply): (report: RunReport)
    ensures p(at).Failed? <==> report == InventoryFailed
  {
    if p(at).Failed? then InventoryFailed
    else Ran(RunFrom(p(at).snapshot, 0, ExecFor(ActionFor(command), p, probes, replies), at + 1))
  }

  /** `run` visits only fleet reservations, each at most once and in inventory order,
      applies to each the protocol `command` selects on a handle holding the reservation's
      id and address, runs them one after another, and stops at the first one that raises. */
  lemma RunSpecShape(command: string, p: Provider, at: nat, probes: nat -> DryRun, replies: nat -> Reply)
    requires p(at).Answered?
    ensures var inv := p(at).snapshot;
            var steps := RunSpec(command, p, at, probes, replies).steps;
            && (forall s :: 0 <= s < |steps| ==>
                  && steps[s].index < |inv|
                  && InFleet(inv[steps[s].index])
                  && steps[s].trace == TransitionSpec(HandleFields(inv[steps[s].index]), ActionFor(command), p,
                                                      steps[s].at, probes(steps[s].index), replies(steps[s].index)))
            && (forall s, u :: 0 <= s < u < |steps| ==> steps[s].index < steps[u].index)
            && Sequential(steps, at + 1)
            && (forall s :: 0 <= s < |steps| - 1 ==> !steps[s].trace.ending.Escaped?)
  {
    var inv := p(at).snapshot;
    var exec := ExecFor(ActionFor(command), p, probes, replies);
    RunFromOrdered(inv, 0, exec, at + 1);
    RunFromActs(inv, 0, exec, at + 1);
    RunFromStopsAtRaise(inv, 0, exec, at + 1);
  }

  /** A handle built by `run` holds an id and an address, so its protocol run never
      raises for a missing field. */
  lemma HandleNeverMissesKeys(r: Reservation, target: Target, p: Provider, at: nat, probe: DryRun, reply: Reply)
    ensures var t := TransitionSpec(HandleFields(r), target, p, at, probe, reply);
            !(t.ending.Escaped? && t.ending.cause.KeyMissing?)
  {
    var values := HandleFields(r);
    if PollsAfter(values, target, p, at, probe, reply) {
      PollShape(p, at + 1, values["id"], target, 1);
    }
  }

  /** Every fleet reservation is visited unless the run of an earlier one raised: an
      error that a protocol run catches and prints does not stop `run`. */
  lemma RunVisitsFleet(command: string, p: Provider, at: nat, probes: nat -> DryRun, replies: nat -> Reply, j: nat)
    requires p(at).Answered? && j < |p(at).snapshot| && InFleet(p(at).snapshot[j])
    ensures var steps := RunSpec(command, p, at, probes, replies).steps;
            || (exists s :: 0 <= s < |steps| && steps[s].index == j)
            || (Aborted(steps) && steps[|steps| - 1].index < j)
  {
    RunFromReaches(p(at).snapshot, 0, ExecFor(ActionFor(command), p, probes, replies), at + 1, j);
  }

  /** `_exec(EC2Instance(id=..., ip=...))`: builds a fresh handle for the reservation's
      first record and applies the selected action to it. */
  method Dispatch(target: Target, r: Reservation, p: Provider, at: nat, probe: DryRun, reply: Reply)
    returns (t: Trace)
    ensures t == TransitionSpec(HandleFields(r), target, p, at, probe, reply)
  {
    var handle := new EC2Instance(HandleArgs(r));
    HandleArgsKept(r);
    if target == Running {
      t := StartInstance(handle, p, at, probe, reply);
    } else {
      t := StopInstance(handle, p, at, probe, reply);
    }
  }

  /** `EC2Manager.run`. */
  method Run(command: string, p: Provider, at: nat, probes: nat -> DryRun, replies: nat -> Reply)
    returns (report: RunReport)
    ensures report == RunSpec(command, p, at, probes, replies)
  {
    var res := p(at);
    if res.Failed? {
      return InventoryFailed;
    }
    var inv := res.snapshot;
    var target := ActionFor(command);
    ghost var exec := ExecFor(target, p, probes, replies);
    var cursor: nat := at + 1;
    ghost var goal := RunFrom(inv, 0, exec, cursor);
    var steps: seq<Step> := [];
    for k := 0 to |inv|
      invariant steps + RunFrom(inv, k, exec, cursor) == goal
      invariant !Aborted(steps)
    {
      if InFleet(inv[k]) {
        var t := Dispatch(target, inv[k], p, cursor, probes(k), replies(k));
        assert t == exec(k, inv[k], cursor);
        if t.ending.Escaped? {
          // the exception propagates out of `run`: no later reservation is visited
          RunFromFinish(inv, k, exec, cursor, steps, goal);
          steps := steps + [Step(k, cursor, t)];
          break;
        }
        RunFromAdvance(inv, k, exec, cursor, steps, goal);
        steps := steps + [Step(k, cursor, t)];
        cursor := cursor + t.queries;
      } else {
        RunFromPass(inv, k, exec, cursor, steps, goal);
      }
    }
    return Ran(steps);
  }
}
