/**
 * Tag search and coordinator discovery. The instances are what EC2's
 * `describe_instances` returns for the managed, running instances of the
 * configured VPC and subnet, reservation by reservation.
 */
module Tags {
  import opened Common

  /** The tag that marks an instance as an executor rather than the coordinator. */
  const RoleTag := "dremio_role"

  datatype Tag = Tag(key: string, value: string)

  /** The fields of an EC2 instance description that the client reads; `tags` is absent on an untagged instance. */
  datatype Instance = Instance(
    instanceId: string,
    instanceType: string,
    publicIpAddress: string,
    privateIpAddress: string,
    tags: Option<seq<Tag>>)

  datatype Reservation = Reservation(instances: seq<Instance>)

  /** Some tag in the list has key `criteria`. */
  predicate HasKey(tags: seq<Tag>, criteria: string)
  {
    exists i :: 0 <= i < |tags| && tags[i].key == criteria
  }

  /** `search_tags`: scans the whole list, raising a flag on every tag whose key matches. */
  method SearchTags(tags: seq<Tag>, criteria: string) returns (found: bool)
    ensures found <==> exists i :: 0 <= i < |tags| && tags[i].key == criteria
  {
    found := false;
    for i := 0 to |tags|
      invariant found <==> exists j :: 0 <= j < i && tags[j].key == criteria
    {
      if tags[i].key == criteria {
        found := true;
      }
    }
  }

  /** The instances in the order the client visits them: reservation by reservation. */
  function Flatten(reservations: seq<Reservation>): seq<Instance>
  {
    if |reservations| == 0 then []
    else reservations[0].instances + Flatten(reservations[1..])
  }

  /**
   * What `find_coordinator` returns after visiting `instances` in order: the
   * first instance without the role tag, or `None` once the list is exhausted
   * or an instance without tags raises the `KeyError` that the method
   * swallows.
   */
  function Coordinator(instances: seq<Instance>): (r: Option<Instance>)
    ensures r.Some? ==> r.value in instances && r.value.tags.Some? && !HasKey(r.value.tags.value, RoleTag)
  {
    if |instances| == 0 then None
    else match instances[0].tags
      case None => None
      case Some(tags) => if !HasKey(tags, RoleTag) then Some(instances[0]) else Coordinator(instances[1..])
  }

  lemma FlattenCons(reservations: seq<Reservation>, i: nat)
    requires i < |reservations|
    ensures Flatten(reservations[i..]) == reservations[i].instances + Flatten(reservations[i + 1..])
  {
    assert reservations[i..][1..] == reservations[i + 1..];
  }

  /** `find_coordinator`: a nested scan that returns at the first instance lacking the role tag. */
  method FindCoordinator(reservations: seq<Reservation>) returns (r: Option<Instance>)
    ensures r == Coordinator(Flatten(reservations))
  {
    for i := 0 to |reservations|
      invariant Coordinator(Flatten(reservations)) == Coordinator(Flatten(reservations[i..]))
    {
      var instances := reservations[i].instances;
      FlattenCons(reservations, i);
      var rest := Flatten(reservations[i + 1..]);
      for j := 0 to |instances|
        invariant Coordinator(Flatten(reservations)) == Coordinator(instances[j..] + rest)
      {
        assert (instances[j..] + rest)[0] == instances[j];
        assert (instances[j..] + rest)[1..] == instances[j + 1..] + rest;
        var instance := instances[j];
        if instance.tags.None? {
          // `instance['Tags']` raises KeyError; the handler returns None
          return None;
        }
        var tagged := SearchTags(instance.tags.value, RoleTag);
        if !tagged {
          return Some(instance);
        }
      }
      assert instances[|instances|..] + rest == rest;
    }
    assert reservations[|reservations|..] == [];
    return None;
  }

  /** A coordinator found is an instance of the list without the role tag, and every instance before it has the tag. */
  lemma {:induction false} CoordinatorIsFirstUntagged(instances: seq<Instance>, c: Instance)
    requires Coordinator(instances) == Some(c)
    ensures exists k ::
              0 <= k < |instances| && instances[k] == c &&
              (forall j :: 0 <= j < k ==> instances[j].tags.Some? && HasKey(instances[j].tags.value, RoleTag))
    ensures c.tags.Some? && !HasKey(c.tags.value, RoleTag)
  {
    if instances[0] != c || HasKey(instances[0].tags.value, RoleTag) {
      CoordinatorIsFirstUntagged(instances[1..], c);
      var k :| 0 <= k < |instances[1..]| && instances[1..][k] == c &&
        (forall j :: 0 <= j < k ==> instances[1..][j].tags.Some? && HasKey(instances[1..][j].tags.value, RoleTag));
      assert instances[k + 1] == c;
      forall j | 0 <= j < k + 1
        ensures instances[j].tags.Some? && HasKey(instances[j].tags.value, RoleTag)
      {
        if j > 0 {
          assert instances[j] == instances[1..][j - 1];
        }
      }
    }
  }

  /**
   * When every instance carries tags, as the `dremio_managed` filter ensures,
   * there is no coordinator exactly when every instance has the role tag.
   */
  lemma {:induction false} NoCoordinatorIff(instances: seq<Instance>)
    requires forall k :: 0 <= k < |instances| ==> instances[k].tags.Some?
    ensures Coordinator(instances) == None <==>
      forall k :: 0 <= k < |instances| ==> HasKey(instances[k].tags.value, RoleTag)
  {
    if |instances| > 0 {
      NoCoordinatorIff(instances[1..]);
      assert forall k :: 1 <= k < |instances| ==> instances[k] == instances[1..][k - 1];
    }
  }
}
