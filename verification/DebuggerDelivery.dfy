/** Poll responses act on the registry as on a plain map from ids to probes, although the registry keeps two
    records and a set of known ids that may contain more than what is registered. */
module DebuggerDelivery {
  import opened Debugger
  import opened DebuggerRegistry

  /** The map that the registry stands for. */
  ghost predicate Refines(s: State, m: map<string, nat>) {
    forall id: string, p: nat :: Holds(s, id, p) <==> id in m && m[id] == p
  }

  /** A probe whose lifetime budget is not used up, unless it never had one. */
  predicate Unspent(probe: Probe) {
    probe.eventsSent < probe.limit || (probe.limit == 0 && probe.eventsSent == 0)
  }

  ghost predicate AllUnspent(s: State) {
    forall p: nat | Registered(s, p) :: Unspent(s.probes[p])
  }

  ghost predicate Extends(old_: seq<nat>, new_: seq<nat>, from: nat) {
    |old_| <= |new_| && new_[..|old_|] == old_ && forall k | |old_| <= k < |new_| :: new_[k] >= from
  }

  /** Nothing that running calls rely on has changed: lists may have grown, by new probes. */
  ghost predicate Grows(s: State, t: State) {
    && t.calls == s.calls && t.callCount == s.callCount && t.tripped == s.tripped
    && |s.probes| <= |t.probes| && t.probes[..|s.probes|] == s.probes
    && (forall p | |s.probes| <= p < |t.probes| ::
          t.probes[p].entries == [] && t.probes[p].eventsSent == 0 && !t.probes[p].cleared)
    && |s.lists| <= |t.lists| && forall l | 0 <= l < |s.lists| :: Extends(s.lists[l], t.lists[l], |s.probes|)
  }

  lemma GrowsTransitive(s: State, t: State, u: State)
    requires Grows(s, t) && Grows(t, u)
    ensures Grows(s, u)
  {
    forall p | 0 <= p < |s.probes| ensures u.probes[p] == s.probes[p] {
      assert t.probes[p] == t.probes[..|s.probes|][p];
      assert u.probes[p] == u.probes[..|t.probes|][p];
    }
    assert u.probes[..|s.probes|] == s.probes;
    forall p | |s.probes| <= p < |u.probes|
      ensures u.probes[p].entries == [] && u.probes[p].eventsSent == 0 && !u.probes[p].cleared
    {
      if p < |t.probes| {
        assert u.probes[p] == u.probes[..|t.probes|][p];
      }
    }
    forall l | 0 <= l < |s.lists| ensures Extends(s.lists[l], u.lists[l], |s.probes|) {
      var a, b, c := s.lists[l], t.lists[l], u.lists[l];
      assert Extends(a, b, |s.probes|) && Extends(b, c, |t.probes|);
      assert c[..|a|] == c[..|b|][..|a|] == a;
      forall k | |a| <= k < |c| ensures c[k] >= |s.probes| {
        if k < |b| {
          assert c[k] == c[..|b|][k] == b[k];
        }
      }
    }
  }

  ghost predicate Delivered(s: State, t: State, m: map<string, nat>) {
    RegistryInv(t) && Refines(t, m) && AllUnspent(t) && Grows(s, t) && !t.tripped
  }

  // ---- Removal --------------------------------------------------------------------------------------

  lemma ExtendsSelf(l: seq<nat>, from: nat)
    ensures Extends(l, l, from)
  {}

  lemma RemovesDelivers(s: State, t: State, p: nat, m: map<string, nat>, id: string)
    requires RegistryInv(s) && Refines(s, m) && AllUnspent(s) && !s.tripped
    requires Holds(s, id, p) && Removes(s, t, p)
    ensures Delivered(s, t, m - {id}) && id !in t.functionOf
  {
    forall other: string, q: nat ensures Holds(t, other, q) <==> other in m - {id} && (m - {id})[other] == q {
      assert Registered(t, q) <==> Registered(s, q) && q != p;
      assert Holds(s, other, q) <==> other in m && m[other] == q;
      assert Holds(s, id, p) ==> m[id] == p;
    }
    forall l | 0 <= l < |s.lists| ensures Extends(s.lists[l], t.lists[l], |s.probes|) {
      ExtendsSelf(s.lists[l], |s.probes|);
    }
  }

  lemma ForgetId(s: State, id: string, m: map<string, nat>)
    requires RegistryInv(s) && Refines(s, m) && AllUnspent(s) && !s.tripped && id !in s.functionOf
    ensures Delivered(s, s.(known := s.known - {id}), m)
  {
    var t := s.(known := s.known - {id});
    assert forall q: nat :: Registered(t, q) <==> Registered(s, q);
    assert forall other: string, q: nat :: Holds(t, other, q) <==> Holds(s, other, q);
    forall f | f in t.active
      ensures t.active[f] < |t.lists| && t.lists[t.active[f]] != []
      ensures forall k | 0 <= k < |t.lists[t.active[f]]| :: Mapped(t, f, t.lists[t.active[f]][k])
    {
      assert forall k | 0 <= k < |s.lists[s.active[f]]| :: Mapped(s, f, s.lists[s.active[f]][k]);
    }
    assert forall f, i, other :: HasIdAt(t, f, i, other) <==> HasIdAt(s, f, i, other);
    forall l | 0 <= l < |s.lists| ensures Extends(s.lists[l], t.lists[l], |s.probes|) {
      ExtendsSelf(s.lists[l], |s.probes|);
    }
  }

  lemma KnownWhenHeld(s: State, id: string)
    requires RegistryInv(s) && !s.tripped && id in s.functionOf
    ensures id in s.known
  {
    var p := MappedHolds(s, id);
    RegisteredMapped(s, p);
  }

  lemma UnheldId(s: State, id: string, m: map<string, nat>)
    requires RegistryInv(s) && !s.tripped && Refines(s, m) && id !in s.functionOf
    ensures m - {id} == m
  {
    if id in m {
      var p: nat := m[id];
      assert Holds(s, id, p);
      RegisteredMapped(s, p);
    }
  }

  lemma DeliveredSelf(s: State, m: map<string, nat>)
    requires RegistryInv(s) && Refines(s, m) && AllUnspent(s) && !s.tripped
    ensures Delivered(s, s, m)
  {
    forall l | 0 <= l < |s.lists| ensures Extends(s.lists[l], s.lists[l], |s.probes|) {
      ExtendsSelf(s.lists[l], |s.probes|);
    }
  }

  lemma RemoveIfKnownDelivers(s: State, id: string, m: map<string, nat>)
    requires RegistryInv(s) && Refines(s, m) && AllUnspent(s) && !s.tripped
    ensures Delivered(s, RemoveIfKnown(s, id), m - {id}) && id !in RemoveIfKnown(s, id).functionOf
  {
    RemoveByIdRemoves(s, id);
    if id in s.functionOf {
      KnownWhenHeld(s, id);
      var t := RemoveById(s, id).state;
      var p: nat :| Holds(s, id, p) && Removes(s, t, p);
      RemovesDelivers(s, t, p, m, id);
    } else {
      UnheldId(s, id, m);
      DeliveredSelf(s, m);
    }
  }

  lemma DeleteDelivers(s: State, id: string, m: map<string, nat>)
    requires RegistryInv(s) && Refines(s, m) && AllUnspent(s) && !s.tripped
    ensures Delivered(s, Delete(s, id), m - {id})
  {
    RemoveByIdRemoves(s, id);
    RemoveIfKnownDelivers(s, id, m);
    if id in s.known && id in s.functionOf {
      var removed := RemoveIfKnown(s, id);
      ForgetId(removed, id, m - {id});
      GrowsTransitive(s, removed, Delete(s, id));
    }
  }

  lemma {:induction false} DeleteAllDelivers(s: State, ids: seq<string>, m: map<string, nat>)
    requires RegistryInv(s) && Refines(s, m) && AllUnspent(s) && !s.tripped
    ensures Delivered(s, DeleteAll(s, ids), AfterDeletions(m, ids))
    decreases |ids|
  {
    if ids == [] {
      DeliveredSelf(s, m);
    } else {
      DeleteDelivers(s, ids[0], m);
      DeleteAllDelivers(Delete(s, ids[0]), ids[1..], m - {ids[0]});
      GrowsTransitive(s, Delete(s, ids[0]), DeleteAll(s, ids));
    }
  }

  // ---- Updates --------------------------------------------------------------------------------------

  lemma AddRefines(s: State, u: Update, m: map<string, nat>)
    requires RegistryInv(s) && Refines(s, m) && !s.tripped && u.id !in m && Adds(s, Added(s, u), u)
    ensures Refines(Added(s, u), m[u.id := |s.probes|])
  {
    var t, n := Added(s, u), m[u.id := |s.probes|];
    forall other: string, q: nat ensures Holds(t, other, q) <==> other in n && n[other] == q {
      assert Registered(t, q) <==> Registered(s, q) || q == |s.probes|;
      assert Holds(s, other, q) <==> other in m && m[other] == q;
      assert !Holds(s, u.id, q);
    }
  }

  lemma AddGrows(s: State, u: Update)
    requires Adds(s, Added(s, u), u)
    ensures Grows(s, Added(s, u))
  {
    var t := Added(s, u);
    forall l | 0 <= l < |s.lists| ensures Extends(s.lists[l], t.lists[l], |s.probes|) {
      ExtendsSelf(s.lists[l], |s.probes|);
    }
    assert t.probes[..|s.probes|] == s.probes;
  }

  lemma AddKeepsUnspent(s: State, u: Update)
    requires Adds(s, Added(s, u), u) && AllUnspent(s)
    ensures AllUnspent(Added(s, u))
  {
    var t := Added(s, u);
    forall p: nat | Registered(t, p) ensures Unspent(t.probes[p]) {
      assert Registered(s, p) || p == |s.probes|;
    }
  }

  lemma AddDelivers(s: State, u: Update, m: map<string, nat>)
    requires RegistryInv(s) && Refines(s, m) && AllUnspent(s) && !s.tripped && u.id !in s.functionOf && u.id !in m
    ensures Delivered(s, Added(s, u), m[u.id := |s.probes|])
  {
    AddAdds(s, u);
    AddRefines(s, u, m);
    AddGrows(s, u);
    AddKeepsUnspent(s, u);
  }

  function AfterDeletions(m: map<string, nat>, ids: seq<string>): map<string, nat>
    decreases |ids|
  {
    if ids == [] then m else AfterDeletions(m - {ids[0]}, ids[1..])
  }

  /** The map after an update, and the number of probes created; `created` is the next one. */
  function AfterUpdate(m: map<string, nat>, created: nat, u: Update): (map<string, nat>, nat) {
    if u.id == "" then (m, created)
    else if u.supported && u.compiles then (m[u.id := created], created + 1)
    else (m - {u.id}, created)
  }

  function AfterUpdates(m: map<string, nat>, created: nat, updates: seq<Update>): (map<string, nat>, nat)
    decreases |updates|
  {
    if updates == [] then (m, created)
    else
      var (m', created') := AfterUpdate(m, created, updates[0]);
      AfterUpdates(m', created', updates[1..])
  }

  lemma ApplyDelivers(s: State, u: Update, m: map<string, nat>)
    requires RegistryInv(s) && Refines(s, m) && AllUnspent(s) && !s.tripped
    ensures
      var next := AfterUpdate(m, |s.probes|, u);
      Delivered(s, Apply(s, u), next.0) && |Apply(s, u).probes| == next.1
  {
    if u.id == "" {
      DeliveredSelf(s, m);
    } else {
      var removed := RemoveIfKnown(s, u.id);
      RemoveIfKnownDelivers(s, u.id, m);
      RemoveByIdKeepsProbes(s, u.id);
      ApplyAfterRemoval(s, removed, u, m - {u.id});
      assert (m - {u.id})[u.id := |s.probes|] == m[u.id := |s.probes|];
    }
  }

  lemma ApplyAfterRemoval(s: State, removed: State, u: Update, m: map<string, nat>)
    requires removed == RemoveIfKnown(s, u.id) && removed.probes == s.probes && u.id != ""
    requires Delivered(s, removed, m) && u.id !in removed.functionOf && u.id !in m
    ensures
      if u.supported && u.compiles
      then Delivered(s, Apply(s, u), m[u.id := |s.probes|]) && |Apply(s, u).probes| == |s.probes| + 1
      else Delivered(s, Apply(s, u), m) && |Apply(s, u).probes| == |s.probes|
  {
    if !u.supported {
      ForgetId(removed, u.id, m);
      GrowsTransitive(s, removed, Apply(s, u));
    } else if u.compiles {
      AddDelivers(removed, u, m);
      GrowsTransitive(s, removed, Apply(s, u));
    }
  }

  lemma RemoveByIdKeepsProbes(s: State, id: string)
    ensures RemoveIfKnown(s, id).probes == s.probes
  {}

  lemma {:induction false} ApplyAllDelivers(s: State, updates: seq<Update>, m: map<string, nat>)
    requires RegistryInv(s) && Refines(s, m) && AllUnspent(s) && !s.tripped
    ensures
      var next := AfterUpdates(m, |s.probes|, updates);
      Delivered(s, ApplyAll(s, updates), next.0) && |ApplyAll(s, updates).probes| == next.1
    decreases |updates|
  {
    if updates == [] {
      DeliveredSelf(s, m);
    } else {
      var u := updates[0];
      var next := AfterUpdate(m, |s.probes|, u);
      ApplyDelivers(s, u, m);
      ApplyAllDelivers(Apply(s, u), updates[1..], next.0);
      GrowsTransitive(s, Apply(s, u), ApplyAll(s, updates));
    }
  }
}
