/** The instance handle: a field bag that keeps only whitelisted keys. */
module Instance {

  /** The keys a handle stores; every other key is dropped on assignment. */
  const Fields: set<string> := {"id", "name", "ip"}

  /** What a handle built from keyword arguments `kwargs` holds: the arguments are
      assigned in order, so a later whitelisted key overwrites an earlier one. */
  function Whitelisted(kwargs: seq<(string, string)>): (m: map<string, string>)
    ensures forall k :: k in m <==> k in Fields && exists i :: 0 <= i < |kwargs| && kwargs[i].0 == k
    ensures forall k :: k in m ==> exists i :: 0 <= i < |kwargs| && kwargs[i] == (k, m[k])
  {
    if kwargs == [] then map[]
    else
      var init := kwargs[..|kwargs| - 1];
      var rest := Whitelisted(init);
      var (k, v) := kwargs[|kwargs| - 1];
      assert forall i :: 0 <= i < |init| ==> init[i] == kwargs[i];
      if k in Fields then rest[k := v] else rest
  }

  /** The value kept for a whitelisted key is the one given by its last occurrence. */
  lemma {:induction false} WhitelistedLastWins(kwargs: seq<(string, string)>, i: nat)
    requires i < |kwargs| && kwargs[i].0 in Fields
    requires forall j :: i < j < |kwargs| ==> kwargs[j].0 != kwargs[i].0
    ensures kwargs[i].0 in Whitelisted(kwargs) && Whitelisted(kwargs)[kwargs[i].0] == kwargs[i].1
  {
    if i < |kwargs| - 1 {
      var init := kwargs[..|kwargs| - 1];
      assert init[i] == kwargs[i];
      WhitelistedLastWins(init, i);
    }
  }

  class EC2Instance {
    /** The stored fields; its keys are always among `Fields`. */
    var values: map<string, string>

    ghost predicate Valid()
      reads this
    {
      values.Keys <= Fields
    }

    /** Builds a handle by assigning each keyword argument in turn. */
    constructor (kwargs: seq<(string, string)>)
      ensures Valid()
      ensures values == Whitelisted(kwargs)
    {
      values := map[];
      new;
      for i := 0 to |kwargs|
        invariant Valid()
        invariant values == Whitelisted(kwargs[..i])
      {
        assert kwargs[..i + 1][..i] == kwargs[..i];
        SetItem(kwargs[i].0, kwargs[i].1);
      }
      assert kwargs[..|kwargs|] == kwargs;
    }

    /** Stores `value` under `key` when the key is whitelisted; otherwise changes nothing. */
    method SetItem(key: string, value: string)
      requires Valid()
      modifies this
      ensures Valid()
      ensures key in Fields ==> values == old(values)[key := value]
      ensures key !in Fields ==> values == old(values)
    {
      if key in Fields {
        values := values[key := value];
      }
    }
  }
}
