# aws-adm: a verified model of the EC2 start/stop core

`aws-adm` is a small command-line tool. It starts or stops every EC2 instance of a
private fleet. This project models its decision logic in Dafny and proves what that
logic does. The cloud provider is replaced by an oracle.

- **Instance handle** (`Instance`, `instance.dfy`). `EC2Instance` is a class whose
  `values` map keeps only the keys `id`, `name` and `ip`. `SetItem` is `__setitem__`.
  The constructor assigns the keyword arguments in order. `Whitelisted` says what a
  handle built from given arguments holds.
- **Status lookup** (`Inventory`, `inventory.dfy`). A snapshot is the reservation list
  that `describe_instances` returns. Each reservation has a non-empty list of instance
  records. `Status` is the linear search of `status()`. It consults only the first
  record of each reservation, returns the first match, and returns the literal
  `"unkonwn"` (spelled as the code spells it) when nothing matches. `IsRunning` and
  `IsStopped` compare that result with `"running"` and `"stopped"`.
- **Transition protocol** (`Protocol`, `protocol.dfy`). `stop_instance` and
  `start_instance` are the same protocol with a different target, so it is written
  once as `Transition`, with the target as a parameter. Its steps are:
  1. the already-in-state short-circuit;
  2. the dry-run probe, whose `DryRunOperation` sentinel is swallowed;
  3. the real request;
  4. the poll loop of `range(1, 100)` (the `Poll` method), with two status queries per
     iteration.

  The provider is a function `Provider = nat -> Describe` that answers the n-th
  `describe_instances` call. The dry-run and the real request each get one outcome.
  A run returns a `Trace` that records:
  - whether the dry-run went out;
  - whether the real request went out;
  - how many poll iterations ran;
  - how many describe calls were made;
  - how the run ended: already in state, success, silent exhaustion, error printed, or
    an exception escaping with its cause.

  Each method is proved equal to a specification function (`TransitionSpec`,
  `PollFrom`). The lemmas prove the source's promises about those functions.
- **Bulk runner** (`Manager`, `manager.dfy`). `Run` is `EC2Manager.run`:
  1. one inventory query;
  2. the action chosen from the command string;
  3. the `"192.168."` prefix filter on each reservation's first record;
  4. one protocol run per fleet reservation, in inventory order, on a fresh handle
     (`Dispatch`).

  The run stops at the first run whose exception escapes. `Run` is proved equal to
  `RunSpec`, which is built from `RunFrom`. The lemmas state which reservations are
  visited, in which order, with which action, and when the run is cut short.

Describe calls are numbered across a whole run. Protocol runs are chained: each
`Step` records the describe call its run started at, and the next run starts where
the previous one's calls ended (`Sequential`).

## Model

| member | source | states |
|---|---|---|
| Instance.EC2Instance.SetItem | main.py:21-23 | a key among `id`, `name`, `ip` is stored with the new value; any other key leaves the field map unchanged; the map's keys stay within the whitelist |
| Instance.EC2Instance.constructor | main.py:11-16 | the new handle's fields are exactly those the keyword arguments give when assigned in order, all within the whitelist |
| Instance.Whitelisted | main.py:9-23 | a key is kept iff it is whitelisted and occurs among the arguments; every kept value was given with its key |
| Instance.WhitelistedLastWins | main.py:14-23 | the value kept for a whitelisted key is the one given by its last occurrence |
| Inventory.Status | main.py:25-31 | definition: the linear search with early return over the first record of each reservation; described by StatusIsFirstMatch and StatusReadsOnlyFirstRecords |
| Inventory.StatusIsFirstMatch | main.py:25-31 | the status is the state name of the first reservation whose first record carries the id, and `"unkonwn"` when there is none |
| Inventory.StatusReadsOnlyFirstRecords | main.py:27-28 | snapshots that agree on every reservation's first record agree on every status: later records are never read |
| Inventory.IsRunning | main.py:33-34 | definition: the status equals `"running"`; described by RunningStoppedIff and NeverBoth |
| Inventory.IsStopped | main.py:36-37 | definition: the status equals `"stopped"`; described by RunningStoppedIff and NeverBoth |
| Inventory.RunningStoppedIff | main.py:33-37 | running (stopped) iff the first matching reservation reports `"running"` (`"stopped"`) |
| Inventory.NeverBoth | main.py:33-37 | no snapshot shows an instance both running and stopped |
| Protocol.TransitionSpec | main.py:48-98 | definition: the protocol's outcome for given handle fields, target and provider answers; described by AlreadyShortCircuits, DryRunGatesRequest, ErrorsAfterRequestAreCaught, PollingBounded, TransitionSucceedsIff and TransitionTimesOutIff |
| Protocol.AlreadyShortCircuits | main.py:48-51 | the run ends "already in state" iff the first query answers, the handle has an id and an ip, and the target is already reached; then there is no dry-run, no request, no polling, and one describe call (likewise main.py:75-77) |
| Protocol.DryRunGatesRequest | main.py:55-60 | the real request goes out iff the first query answered, the handle has an id, the target is not reached and the dry-run raised nothing but the sentinel; any other dry-run error escapes with no request (likewise main.py:81-86) |
| Protocol.ErrorsAfterRequestAreCaught | main.py:62-72 | an exception escapes iff no request was issued and the run did not end "already"; escaping runs made one describe call and no polls; a failed request ends with the error printed and no polling |
| Protocol.PollingBounded | main.py:62-69 | polling happens only after an accepted request; at most 99 iterations; at most two describe calls per iteration plus the first one |
| Protocol.PollFrom | main.py:64-69 | definition: the poll loop from a given iteration on, two describe calls per iteration; described by PollShape, PollSucceedsIff and PollExhaustsIff |
| Protocol.PollShape | main.py:64-69 | the poll loop ends with success, a printed error or silent exhaustion; exhaustion means 99 iterations and 199 calls; success at iteration n means 2n+1 calls and iteration n saw the target |
| Protocol.PollSucceedsIff | main.py:64-69 | the loop succeeds at iteration n iff every earlier iteration was pending and iteration n's second query sees the target |
| Protocol.PollExhaustsIff | main.py:64-69 | the loop ends silently iff every one of the 99 iterations was pending |
| Protocol.TransitionSucceedsIff | main.py:48-69 | the protocol prints success after n iterations iff the request went out, iterations 1..n-1 were pending, and iteration n saw the target |
| Protocol.TransitionTimesOutIff | main.py:48-69 | the protocol ends silently after 99 iterations iff the request went out and every iteration was pending |
| Protocol.Poll | main.py:64-69 | the loop with `break` computes exactly the poll trace `PollFrom` |
| Protocol.Transition | main.py:48-72 | the protocol on a handle computes exactly `TransitionSpec` on the handle's fields |
| Protocol.StopInstance | main.py:48-72 | `stop_instance` is the protocol with target "stopped" |
| Protocol.StartInstance | main.py:74-98 | `start_instance` is the protocol with target "running" |
| Manager.InFleet | main.py:105-106 | definition: the first record's private address starts with `"192.168."`; described by RunFromOrdered and RunVisitsFleet |
| Manager.ActionFor | main.py:102 | the start protocol iff the command is `"start"`, the stop protocol for every other string |
| Manager.HandleArgs | main.py:107-110 | definition: the keyword arguments `id=` and `ip=` that `run` passes; described by HandleArgsKept |
| Manager.HandleFields | main.py:107-110 | definition: the fields of the handle `run` builds; described by HandleArgsKept and HandleNeverMissesKeys |
| Manager.HandleArgsKept | main.py:107-110 | a handle built by `run` keeps both its arguments, the reservation's id and address |
| Manager.HandleNeverMissesKeys | main.py:107-110 | a protocol run on a handle built by `run` never raises for a missing field |
| Manager.Dispatch | main.py:102-110 | building the handle and applying the chosen action computes the protocol on the reservation's id and address |
| Manager.RunFrom | main.py:104-110 | definition: the protocol runs of the loop over reservations from a given position on; described by RunFromOrdered, RunFromActs, RunFromStopsAtRaise and RunFromReaches |
| Manager.RunFromOrdered | main.py:104-110 | only fleet reservations are visited, each at most once, in strictly increasing inventory order |
| Manager.RunFromActs | main.py:104-110 | each visit is the chosen action on its reservation, and the visits follow one another in describe calls |
| Manager.RunFromStopsAtRaise | main.py:104-110 | only the last visit can have raised |
| Manager.RunFromReaches | main.py:104-110 | every fleet reservation is visited unless an earlier visit raised and ended the run |
| Manager.RunSpec | main.py:100-110 | `run` raises at once iff its inventory query fails |
| Manager.RunSpecShape | main.py:100-110 | the visits are fleet reservations in inventory order, each is the protocol `command` selects on a handle with the reservation's id and address, the visits are sequential, and only the last can have raised |
| Manager.RunVisitsFleet | main.py:100-110 | every reservation with the `"192.168."` prefix is visited unless an earlier visit raised; a printed error does not stop `run` |
| Manager.Run | main.py:100-110 | the loop with `break` on an escaping exception computes exactly `RunSpec` |

## Left out

- The boto3 client and its network calls (`describe_instances`, `start_instances`,
  `stop_instances`) are replaced by the `Provider` oracle and by per-call `DryRun` and
  `Reply` outcomes. In `Run`, these outcomes are indexed by the reservation's position.
- `time.sleep(2)` is left out: the model counts iterations, not time.
- The console output of `print` and `pprint` is left out. Only the ending it signals
  ("already", "success", error printed) is recorded in the `Trace`.
- The `test` method and the click command-line group are left out.
- `__getattr__` becomes a lookup in the `values` map. A missing key is an escaping
  `KeyMissing` cause. A handle without an id escapes after exactly one describe call
  on both paths the code can take: the status search on a non-empty snapshot, or, on
  an empty one, the `> stop ec2` message (for a stop) or the `> start ec2` message (for
  a start). The model folds the two paths into one.
- Matching `'DryRunOperation'` in the message of a `ClientError` is a tag: `ProbeSentinel`
  versus `ProbeError`.
- Only `ClientError` is modelled. Other exceptions from the client, and missing keys in
  the provider's response, are left out. The response is typed: every record has an id,
  an address and a state name.
- `Transition` does not model the printed status strings of the poll loop. It models
  only whether each of the two status queries succeeded and what the second one saw.

Some behaviour of the code a reader might not expect, which the model keeps:
- Each poll iteration queries the status twice: once for the printout and once for the
  convergence check.
- Loop exhaustion is silent. There is no distinct timeout outcome beyond `PollExhausted`.
- The status lookup returns the provider's state name unchanged. Only a missing
  instance gives `"unkonwn"`, with that spelling.
- Only the first record of each reservation is ever read, both by the lookup and by
  the fleet filter.
