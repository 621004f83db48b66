/** The provider's inventory snapshot, as `describe_instances` returns it, and the
    status lookup that `EC2Instance.status` performs over it. */
module Inventory {

  /** One instance record of a reservation: the only fields the tool reads. */
  datatype InstanceRecord = InstanceRecord(instanceId: string, privateIp: string, stateName: string)

  datatype ReservationData = ReservationData(instances: seq<InstanceRecord>)

  /** A reservation group; the provider never returns one without instances. */
  type Reservation = r: ReservationData | |r.instances| > 0
    witness ReservationData([InstanceRecord("", "", "")])

  /** The state name reported when no reservation matches (spelled as the tool spells it). */
  const Unknown: string := "unkonwn"
  const RunningName: string := "running"
  const StoppedName: string := "stopped"

  /** The only record of a reservation the tool ever looks at. */
  function First(r: Reservation): InstanceRecord
  {
    r.instances[0]
  }

  predicate MatchAt(snapshot: seq<Reservation>, id: string, i: int)
  {
    0 <= i < |snapshot| && First(snapshot[i]).instanceId == id
  }

  predicate NoMatch(snapshot: seq<Reservation>, id: string)
  {
    forall i :: 0 <= i < |snapshot| ==> !MatchAt(snapshot, id, i)
  }

  /** Reservation `i` is the first one whose first record carries `id`. */
  predicate FirstMatchAt(snapshot: seq<Reservation>, id: string, i: int)
  {
    MatchAt(snapshot, id, i) && forall j :: 0 <= j < i ==> !MatchAt(snapshot, id, j)
  }

  /** The status of instance `id` in one snapshot: a linear search with early return. */
  function Status(snapshot: seq<Reservation>, id: string): string
  {
    if |snapshot| == 0 then Unknown
    else if First(snapshot[0]).instanceId == id then First(snapshot[0]).stateName
    else Status(snapshot[1..], id)
  }

  /** `Status` reports the state of the first reservation whose first record carries
      `id`, and `Unknown` when there is none. */
  lemma {:induction false} StatusIsFirstMatch(snapshot: seq<Reservation>, id: string)
    ensures NoMatch(snapshot, id) ==> Status(snapshot, id) == Unknown
    ensures !NoMatch(snapshot, id) ==>
              exists i :: FirstMatchAt(snapshot, id, i) && Status(snapshot, id) == First(snapshot[i]).stateName
    ensures forall i :: FirstMatchAt(snapshot, id, i) ==> Status(snapshot, id) == First(snapshot[i]).stateName
  {
    if |snapshot| == 0 {
    } else if First(snapshot[0]).instanceId == id {
      assert FirstMatchAt(snapshot, id, 0);
    } else {
      StatusIsFirstMatch(snapshot[1..], id);
      ShiftMatch(snapshot, id);
    }
  }

  /** Matches in the tail are matches in the whole snapshot, one position later. */
  lemma ShiftMatch(snapshot: seq<Reservation>, id: string)
    requires |snapshot| > 0 && First(snapshot[0]).instanceId != id
    ensures NoMatch(snapshot, id) <==> NoMatch(snapshot[1..], id)
    ensures forall i :: FirstMatchAt(snapshot, id, i) <==> i > 0 && FirstMatchAt(snapshot[1..], id, i - 1)
  {
    forall i | 0 < i < |snapshot|
      ensures MatchAt(snapshot, id, i) <==> MatchAt(snapshot[1..], id, i - 1)
    {
      assert snapshot[1..][i - 1] == snapshot[i];
    }
    forall i | FirstMatchAt(snapshot, id, i)
      ensures i > 0 && FirstMatchAt(snapshot[1..], id, i - 1)
    {
      forall j | 0 <= j < i - 1 ensures !MatchAt(snapshot[1..], id, j) {
        assert !MatchAt(snapshot, id, j + 1);
      }
    }
    forall i | i > 0 && FirstMatchAt(snapshot[1..], id, i - 1)
      ensures FirstMatchAt(snapshot, id, i)
    {
      forall j | 0 < j < i ensures !MatchAt(snapshot, id, j) {
        assert !MatchAt(snapshot[1..], id, j - 1);
      }
    }
    if NoMatch(snapshot[1..], id) {
      forall i | 0 < i < |snapshot| ensures !MatchAt(snapshot, id, i) {
        assert !MatchAt(snapshot[1..], id, i - 1);
      }
    }
    if NoMatch(snapshot, id) {
      forall i | 0 <= i < |snapshot| - 1 ensures !MatchAt(snapshot[1..], id, i) {
        assert !MatchAt(snapshot, id, i + 1);
      }
    }
  }

  /** `status` only ever reads the first record of each reservation: two snapshots that
      agree on those records agree on every instance's status. */
  lemma {:induction false} StatusReadsOnlyFirstRecords(s1: seq<Reservation>, s2: seq<Reservation>, id: string)
    requires |s1| == |s2|
    requires forall i :: 0 <= i < |s1| ==> First(s1[i]) == First(s2[i])
    ensures Status(s1, id) == Status(s2, id)
  {
    if |s1| > 0 {
      StatusReadsOnlyFirstRecords(s1[1..], s2[1..], id);
    }
  }

  function IsRunning(snapshot: seq<Reservation>, id: string): bool
  {
    Status(snapshot, id) == RunningName
  }

  function IsStopped(snapshot: seq<Reservation>, id: string): bool
  {
    Status(snapshot, id) == StoppedName
  }

  /** An instance is running (stopped) exactly when the first reservation carrying its id
      reports "running" ("stopped"). */
  lemma RunningStoppedIff(snapshot: seq<Reservation>, id: string)
    ensures IsRunning(snapshot, id) <==>
              exists i :: FirstMatchAt(snapshot, id, i) && First(snapshot[i]).stateName == RunningName
    ensures IsStopped(snapshot, id) <==>
              exists i :: FirstMatchAt(snapshot, id, i) && First(snapshot[i]).stateName == StoppedName
  {
    StatusIsFirstMatch(snapshot, id);
  }

  /** No snapshot shows an instance both running and stopped. */
  lemma NeverBoth(snapshot: seq<Reservation>, id: string)
    ensures !(IsRunning(snapshot, id) && IsStopped(snapshot, id))
  {
  }
}
