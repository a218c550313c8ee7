/** The registry of probes stays consistent, and is a faithful implementation of a map from ids to probes. */
module DebuggerRegistry {
  import opened Debugger

  // ---- Invariant ------------------------------------------------------------------------------------

  ghost predicate ListsOk(s: State) {
    && (forall l, k | 0 <= l < |s.lists| && 0 <= k < |s.lists[l]| :: s.lists[l][k] < |s.probes|)
    && (forall l, j, k | 0 <= l < |s.lists| && 0 <= j < k < |s.lists[l]| :: s.lists[l][j] != s.lists[l][k])
  }

  /** A probe on the list of a function is mapped to that function, and its id is known. */
  ghost predicate Mapped(s: State, functionId: string, p: nat) {
    && p < |s.probes| && s.probes[p].functionId == functionId && !s.probes[p].cleared
    && s.probes[p].id in s.functionOf && s.functionOf[s.probes[p].id] == functionId && s.probes[p].id in s.known
  }

  ghost predicate ActiveOk(s: State) {
    forall f | f in s.active ::
      && s.active[f] < |s.lists| && s.lists[s.active[f]] != []
      && forall k | 0 <= k < |s.lists[s.active[f]]| :: Mapped(s, f, s.lists[s.active[f]][k])
  }

  /** The i-th probe on the list of a function has the id. */
  ghost predicate HasIdAt(s: State, f: string, i: int, id: string) {
    && f in s.active && s.active[f] < |s.lists| && 0 <= i < |s.lists[s.active[f]]|
    && s.lists[s.active[f]][i] < |s.probes| && s.probes[s.lists[s.active[f]][i]].id == id
  }

  ghost predicate MapOk(s: State) {
    && (forall id | id in s.functionOf :: exists i :: HasIdAt(s, s.functionOf[id], i, id))
    && (forall f, i, j, id :: HasIdAt(s, f, i, id) && HasIdAt(s, f, j, id) ==> i == j)
  }

  ghost predicate RegistryInv(s: State) {
    && ListsOk(s)
    && if s.tripped then s.active == map[] && s.known == {} && s.functionOf.Keys <= {PLACEHOLDER}
       else ActiveOk(s) && MapOk(s)
  }

  /** The probe registered under an id, as a relation. */
  ghost predicate Holds(s: State, id: string, p: nat) {
    Registered(s, p) && s.probes[p].id == id
  }

  // ---- Lookup ---------------------------------------------------------------------------------------

  lemma {:induction false} IndexOfIdFinds(probes: seq<Probe>, list: seq<nat>, id: string)
    requires forall k | 0 <= k < |list| :: list[k] < |probes|
    ensures
      var i := IndexOfId(probes, list, id);
      && (i < |list| ==> probes[list[i]].id == id)
      && (i == |list| ==> forall k | 0 <= k < |list| :: probes[list[k]].id != id)
  {
    if list != [] {
      IndexOfIdFinds(probes, list[1..], id);
      if IndexOfId(probes, list, id) == |list| {
        forall k | 0 <= k < |list| ensures probes[list[k]].id != id {
          if k > 0 {
            assert list[k] == list[1..][k - 1];
          }
        }
      }
    }
  }

  lemma RegisteredAt(s: State, f: string, i: nat)
    requires RegistryInv(s) && f in s.active && i < |s.lists[s.active[f]]|
    ensures Registered(s, s.lists[s.active[f]][i])
  {
    assert Mapped(s, f, s.lists[s.active[f]][i]);
  }

  lemma RegisteredMapped(s: State, p: nat)
    requires RegistryInv(s) && Registered(s, p)
    ensures !s.tripped && Mapped(s, s.probes[p].functionId, p)
  {}

  /** An id holds at most one probe. */
  lemma HoldsOnce(s: State, id: string, p: nat, q: nat)
    requires RegistryInv(s) && Holds(s, id, p) && Holds(s, id, q)
    ensures p == q
  {
    RegisteredMapped(s, p);
    RegisteredMapped(s, q);
    var f := s.functionOf[id];
    var list := s.lists[s.active[f]];
    var i :| 0 <= i < |list| && list[i] == p;
    var j :| 0 <= j < |list| && list[j] == q;
    assert HasIdAt(s, f, i, id) && HasIdAt(s, f, j, id);
  }

  /** A mapped id holds a probe. */
  lemma MappedHolds(s: State, id: string) returns (p: nat)
    requires RegistryInv(s) && !s.tripped && id in s.functionOf
    ensures Holds(s, id, p) && s.probes[p].functionId == s.functionOf[id]
  {
    var f := s.functionOf[id];
    var i :| HasIdAt(s, f, i, id);
    p := s.lists[s.active[f]][i];
    RegisteredAt(s, f, i);
    assert Mapped(s, f, p);
  }

  /** Two functions never share a list. */
  lemma OwnLists(s: State, f: string, g: string)
    requires RegistryInv(s) && !s.tripped && f in s.active && g in s.active
    ensures s.active[f] == s.active[g] ==> f == g
  {
    assert Mapped(s, f, s.lists[s.active[f]][0]);
    assert Mapped(s, g, s.lists[s.active[g]][0]);
  }

  // ---- Removal --------------------------------------------------------------------------------------

  ghost predicate Removes(s: State, t: State, p: nat) {
    && RegistryInv(t) && t.probes == s.probes && t.calls == s.calls && t.callCount == s.callCount
    && t.known == s.known && t.tripped == s.tripped && t.firstFailure == s.firstFailure
    && |s.lists| <= |t.lists| && (forall l | 0 <= l < |s.lists| :: t.lists[l] == s.lists[l])
    && (p < |s.probes| ==> s.probes[p].id !in t.functionOf)
    && forall q: nat {:trigger Registered(t, q)} {:trigger Registered(s, q)} :: Registered(t, q) <==> Registered(s, q) && q != p
  }

  lemma RemainingList(list: seq<nat>, i: nat)
    requires i < |list| && forall j, k | 0 <= j < k < |list| :: list[j] != list[k]
    ensures
      var remaining := list[..i] + list[i + 1..];
      && (forall j, k | 0 <= j < k < |remaining| :: remaining[j] != remaining[k])
      && (forall q :: q in remaining <==> q in list && q != list[i])
  {
    var remaining := list[..i] + list[i + 1..];
    assert forall k | 0 <= k < |remaining| :: remaining[k] == list[if k < i then k else k + 1];
    forall q | q in list && q != list[i] ensures q in remaining {
      var k :| 0 <= k < |list| && list[k] == q;
      assert remaining[if k < i then k else k - 1] == q;
    }
  }

  lemma RemoveAtLists(s: State, f: string, id: string, i: nat)
    requires RegistryInv(s) && !s.tripped && HasIdAt(s, f, i, id)
    ensures ListsOk(RemoveAt(s, f, id, i))
  {
    var list := s.lists[s.active[f]];
    RemainingList(list, i);
    var remaining := list[..i] + list[i + 1..];
    assert forall q | q in remaining :: q in list;
    assert forall k | 0 <= k < |remaining| :: remaining[k] in remaining;
  }

  lemma RemoveAtRegistered(s: State, f: string, id: string, i: nat)
    requires RegistryInv(s) && !s.tripped && HasIdAt(s, f, i, id)
    ensures
      var p := s.lists[s.active[f]][i];
      var t := RemoveAt(s, f, id, i);
      forall q: nat {:trigger Registered(t, q)} {:trigger Registered(s, q)} :: Registered(t, q) <==> Registered(s, q) && q != p
  {
    var list := s.lists[s.active[f]];
    var p := list[i];
    var t := RemoveAt(s, f, id, i);
    RemainingList(list, i);
    assert Mapped(s, f, p);
    forall q: nat ensures Registered(t, q) <==> Registered(s, q) && q != p {
      if q < |s.probes| && s.probes[q].functionId != f && s.probes[q].functionId in s.active {
        assert s.active[s.probes[q].functionId] < |s.lists|;
      }
    }
  }

  /** A probe that is left keeps its id. */
  lemma LeftIsMapped(s: State, f: string, id: string, i: nat, g: string, j: nat)
    requires RegistryInv(s) && !s.tripped && HasIdAt(s, f, i, id)
    requires g in s.active && j < |s.lists[s.active[g]]| && (g == f ==> j != i)
    ensures Mapped(RemoveAt(s, f, id, i), g, s.lists[s.active[g]][j])
  {
    var q := s.lists[s.active[g]][j];
    assert Mapped(s, g, q);
    assert Mapped(s, f, s.lists[s.active[f]][i]);
    if s.probes[q].id == id {
      assert HasIdAt(s, f, i, id) && HasIdAt(s, g, j, id);
    }
  }

  lemma RemoveAtMapped(s: State, f: string, id: string, i: nat)
    requires RegistryInv(s) && !s.tripped && HasIdAt(s, f, i, id)
    ensures ActiveOk(RemoveAt(s, f, id, i))
  {
    var list := s.lists[s.active[f]];
    var remaining := list[..i] + list[i + 1..];
    var t := RemoveAt(s, f, id, i);
    forall g | g in t.active
      ensures t.active[g] < |t.lists| && t.lists[t.active[g]] != []
      ensures forall k | 0 <= k < |t.lists[t.active[g]]| :: Mapped(t, g, t.lists[t.active[g]][k])
    {
      forall k | 0 <= k < |t.lists[t.active[g]]| ensures Mapped(t, g, t.lists[t.active[g]][k]) {
        if g == f {
          assert remaining[k] == list[if k < i then k else k + 1];
          LeftIsMapped(s, f, id, i, g, if k < i then k else k + 1);
        } else {
          LeftIsMapped(s, f, id, i, g, k);
        }
      }
    }
  }

  /** Where the j-th probe of a list has moved from. */
  function Before(j: int, i: nat): int {
    if j < i then j else j + 1
  }

  lemma RemovedIdAt(s: State, f: string, id: string, i: nat, g: string, j: int, other: string)
    requires RegistryInv(s) && !s.tripped && HasIdAt(s, f, i, id)
    ensures HasIdAt(RemoveAt(s, f, id, i), g, j, other) <==>
            if g == f then Before(j, i) >= 0 && j >= 0 && HasIdAt(s, f, Before(j, i), other)
            else HasIdAt(s, g, j, other)
  {
    var list := s.lists[s.active[f]];
    var remaining := list[..i] + list[i + 1..];
    if 0 <= j < |remaining| {
      assert remaining[j] == list[Before(j, i)];
    }
    if g in s.active {
      OwnLists(s, f, g);
    }
  }

  lemma RemoveAtMap(s: State, f: string, id: string, i: nat)
    requires RegistryInv(s) && !s.tripped && HasIdAt(s, f, i, id)
    ensures MapOk(RemoveAt(s, f, id, i))
  {
    var t := RemoveAt(s, f, id, i);
    forall other | other in t.functionOf ensures exists j :: HasIdAt(t, t.functionOf[other], j, other) {
      var g := s.functionOf[other];
      var j :| HasIdAt(s, g, j, other);
      RemovedIdAt(s, f, id, i, g, if g == f && j > i then j - 1 else j, other);
    }
    forall g, j, k, other | HasIdAt(t, g, j, other) && HasIdAt(t, g, k, other) ensures j == k {
      RemovedIdAt(s, f, id, i, g, j, other);
      RemovedIdAt(s, f, id, i, g, k, other);
    }
  }

  lemma RemoveAtRemoves(s: State, f: string, id: string, i: nat)
    requires RegistryInv(s) && !s.tripped && HasIdAt(s, f, i, id)
    ensures Removes(s, RemoveAt(s, f, id, i), s.lists[s.active[f]][i])
  {
    RemoveAtLists(s, f, id, i);
    RemoveAtRegistered(s, f, id, i);
    RemoveAtMapped(s, f, id, i);
    RemoveAtMap(s, f, id, i);
  }

  /** `removeProbe(id)` finds nothing exactly if no probe is registered under the id, and otherwise removes
      exactly that probe. */
  lemma RemoveByIdRemoves(s: State, id: string)
    requires RegistryInv(s) && !s.tripped
    ensures RemoveById(s, id).NotFound? <==> id !in s.functionOf
    ensures RemoveById(s, id).NotFound? ==> forall p: nat :: !Holds(s, id, p)
    ensures
      RemoveById(s, id).Removed? ==> exists p: nat :: Holds(s, id, p) && Removes(s, RemoveById(s, id).state, p)
  {
    if id in s.functionOf {
      var p := MappedHolds(s, id);
      var f := s.functionOf[id];
      var list := s.lists[s.active[f]];
      IndexOfIdFinds(s.probes, list, id);
      var i := IndexOfId(s.probes, list, id);
      assert i < |list|;
      RemoveAtRemoves(s, f, id, i);
      RegisteredAt(s, f, i);
      assert Holds(s, id, list[i]);
    } else {
      forall p: nat ensures !Holds(s, id, p) {
        if Registered(s, p) {
          RegisteredMapped(s, p);
        }
      }
    }
  }

  lemma RemovesNothing(s: State, p: nat)
    requires RegistryInv(s) && p < |s.probes| && !Registered(s, p)
    ensures RemoveInstance(s, p) == s
  {
    var id := s.probes[p].id;
    if HasList(s, id) {
      var q := MappedHolds(s, id);
      var f := s.functionOf[id];
      var list := s.lists[s.active[f]];
      IndexOfIdFinds(s.probes, list, id);
      var i := IndexOf(list, p);
      if i < |list| {
        RegisteredAt(s, f, i);
      }
    }
  }

  /** `removeProbe(probe)` removes that instance if it is registered and nothing otherwise, in particular not
      the replacement of a stale instance. */
  lemma RemoveInstanceRemoves(s: State, p: nat)
    requires RegistryInv(s) && p < |s.probes|
    ensures !Registered(s, p) ==> RemoveInstance(s, p) == s
    ensures Registered(s, p) ==> Removes(s, RemoveInstance(s, p), p)
  {
    if Registered(s, p) {
      RegisteredMapped(s, p);
      var f := s.probes[p].functionId;
      var list := s.lists[s.active[f]];
      var i := IndexOf(list, p);
      assert HasIdAt(s, f, i, s.probes[p].id);
      RemoveAtRemoves(s, f, s.probes[p].id, i);
    } else {
      RemovesNothing(s, p);
    }
  }

  // ---- Addition -------------------------------------------------------------------------------------

  /** A registry in which the id of the update is free. */
  ghost predicate Adds(s: State, t: State, u: Update) {
    && RegistryInv(t) && t.calls == s.calls && t.callCount == s.callCount && t.tripped == s.tripped
    && t.firstFailure == s.firstFailure
    && t.probes == s.probes + [Probe(u.id, u.functionId, u.limit, 0, [], false, 0)]
    && |s.lists| <= |t.lists|
    && (forall l | 0 <= l < |s.lists| :: t.lists[l] == s.lists[l] || t.lists[l] == s.lists[l] + [|s.probes|])
    && forall q: nat {:trigger Registered(t, q)} {:trigger Registered(s, q)} :: Registered(t, q) <==> Registered(s, q) || q == |s.probes|
  }

  function Added(s: State, u: Update): State {
    var t := AddProbe(s, u);
    t.(known := t.known + {u.id})
  }

  lemma AddLists(s: State, u: Update)
    requires RegistryInv(s) && !s.tripped
    ensures ListsOk(Added(s, u))
  {}

  /** The list of a function after the addition. */
  lemma AddedList(s: State, u: Update, f: string)
    requires RegistryInv(s) && !s.tripped && f in Added(s, u).active
    ensures
      var t := Added(s, u);
      && t.active[f] < |t.lists|
      && (f != u.functionId ==> f in s.active && t.lists[t.active[f]] == s.lists[s.active[f]])
      && (f == u.functionId ==>
            t.lists[t.active[f]] == (if f in s.active then s.lists[s.active[f]] else []) + [|s.probes|])
  {
    if f in s.active && u.functionId in s.active {
      OwnLists(s, f, u.functionId);
    }
  }

  lemma AddRegistered(s: State, u: Update)
    requires RegistryInv(s) && !s.tripped
    ensures
      var t := Added(s, u);
      forall q: nat {:trigger Registered(t, q)} {:trigger Registered(s, q)} :: Registered(t, q) <==> Registered(s, q) || q == |s.probes|
  {
    var t := Added(s, u);
    forall q: nat ensures Registered(t, q) <==> Registered(s, q) || q == |s.probes| {
      if q < |t.probes| && t.probes[q].functionId in t.active {
        AddedList(s, u, t.probes[q].functionId);
        if q == |s.probes| {
          var list := t.lists[t.active[u.functionId]];
          assert list[|list| - 1] == q;
        }
      }
    }
  }

  lemma AddMapped(s: State, u: Update)
    requires RegistryInv(s) && !s.tripped && u.id !in s.functionOf
    ensures ActiveOk(Added(s, u))
  {
    var t := Added(s, u);
    forall f | f in t.active
      ensures t.active[f] < |t.lists| && t.lists[t.active[f]] != []
      ensures forall k | 0 <= k < |t.lists[t.active[f]]| :: Mapped(t, f, t.lists[t.active[f]][k])
    {
      AddedList(s, u, f);
      forall k | 0 <= k < |t.lists[t.active[f]]| ensures Mapped(t, f, t.lists[t.active[f]][k]) {
        if f in s.active && k < |s.lists[s.active[f]]| {
          assert Mapped(s, f, s.lists[s.active[f]][k]);
        }
      }
    }
  }

  lemma AddedIdAt(s: State, u: Update, f: string, i: int, id: string)
    requires RegistryInv(s) && !s.tripped && u.id !in s.functionOf
    ensures
      HasIdAt(Added(s, u), f, i, id) <==>
      || HasIdAt(s, f, i, id)
      || (f == u.functionId && id == u.id && i == if f in s.active then |s.lists[s.active[f]]| else 0)
  {
    if f in Added(s, u).active {
      AddedList(s, u, f);
    }
  }

  lemma IdAtIsMapped(s: State, f: string, i: int, id: string)
    requires RegistryInv(s) && !s.tripped && HasIdAt(s, f, i, id)
    ensures id in s.functionOf
  {
    assert Mapped(s, f, s.lists[s.active[f]][i]);
  }

  lemma AddMap(s: State, u: Update)
    requires RegistryInv(s) && !s.tripped && u.id !in s.functionOf
    ensures MapOk(Added(s, u))
  {
    var t := Added(s, u);
    forall id | id in t.functionOf ensures exists i :: HasIdAt(t, t.functionOf[id], i, id) {
      if id == u.id {
        AddedIdAt(s, u, u.functionId, if u.functionId in s.active then |s.lists[s.active[u.functionId]]| else 0, id);
      } else {
        var i :| HasIdAt(s, s.functionOf[id], i, id);
        AddedIdAt(s, u, s.functionOf[id], i, id);
      }
    }
    forall f, i, j, id | HasIdAt(t, f, i, id) && HasIdAt(t, f, j, id) ensures i == j {
      AddedIdAt(s, u, f, i, id);
      AddedIdAt(s, u, f, j, id);
      if HasIdAt(s, f, i, id) {
        IdAtIsMapped(s, f, i, id);
      }
      if HasIdAt(s, f, j, id) {
        IdAtIsMapped(s, f, j, id);
      }
    }
  }

  lemma AddAdds(s: State, u: Update)
    requires RegistryInv(s) && !s.tripped && u.id !in s.functionOf
    ensures Adds(s, Added(s, u), u)
  {
    AddLists(s, u);
    AddRegistered(s, u);
    AddMapped(s, u);
    AddMap(s, u);
  }
}
