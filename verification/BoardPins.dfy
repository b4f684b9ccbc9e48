/** Boot-time pin arbitration: capabilities that the board does not allow, or whose
    claims collide with an earlier claimant's, are switched off.

    The capabilities are a linked list whose `active` flags are cleared in place; the
    specification speaks of the set of active ids.
 */
module BoardPins {

  datatype PinClaim = PinClaim(pin: int, owner: string, unsafe: bool)

  class Capability {
    const id: string
    var active: bool
    var next: Capability?

    constructor (id: string, active: bool, next: Capability?)
      ensures this.id == id && this.active == active && this.next == next
    {
      this.id, this.active, this.next := id, active, next;
    }
  }

  /** `nodes` are the list from `head`, in order and without repetition. */
  ghost predicate Linked(head: Capability?, nodes: seq<Capability>)
    reads nodes`next
  {
    && head == (if nodes == [] then null else nodes[0])
    && (forall k :: 0 <= k < |nodes| ==> nodes[k].next == if k + 1 < |nodes| then nodes[k + 1] else null)
    && (forall a, b :: 0 <= a < b < |nodes| ==> nodes[a] != nodes[b])
  }

  ghost function Flags(nodes: seq<Capability>): (flags: seq<bool>)
    reads nodes
    ensures |flags| == |nodes|
  {
    seq(|nodes|, k requires 0 <= k < |nodes| reads nodes => nodes[k].active)
  }

  ghost function Ids(nodes: seq<Capability>): (ids: seq<string>)
    ensures |ids| == |nodes|
  {
    seq(|nodes|, k requires 0 <= k < |nodes| => nodes[k].id)
  }

  /** The ids with at least one flag set. */
  function ActiveIds(ids: seq<string>, flags: seq<bool>): set<string>
    requires |ids| == |flags|
  {
    set k | 0 <= k < |ids| && flags[k] :: ids[k]
  }

  function AllowedOf(ids: set<string>, allowed: string -> bool): set<string> {
    set id | id in ids && allowed(id)
  }

  // ---- Arbitration as a function ---------------------------------------------

  /** Claim `j` is a later claim of another owner on the pin of claim `i`. */
  predicate Collide(claims: seq<PinClaim>, i: nat, j: nat) {
    i < j < |claims| && 0 <= claims[i].pin == claims[j].pin && claims[i].owner != claims[j].owner
  }

  /** The owners that collide with claim `i` among the claims before `end`. */
  function Rivals(claims: seq<PinClaim>, i: nat, end: nat): set<string>
    requires i < |claims| && end <= |claims|
  {
    set j: nat | j < end && Collide(claims, i, j) :: claims[j].owner
  }

  /** From claim `i` on, each active claimant removes the later claimants of its pin. */
  function Arbitrated(live: set<string>, claims: seq<PinClaim>, i: nat): set<string>
    requires i <= |claims|
    decreases |claims| - i
  {
    if i == |claims| then live
    else Arbitrated(if claims[i].owner in live then live - Rivals(claims, i, |claims|) else live, claims, i + 1)
  }

  ghost predicate ConflictFree(live: set<string>, claims: seq<PinClaim>) {
    forall i: nat, j: nat :: Collide(claims, i, j) ==> claims[i].owner !in live || claims[j].owner !in live
  }

  lemma {:induction false} OnlyRemoves(live: set<string>, claims: seq<PinClaim>, i: nat)
    requires i <= |claims|
    ensures Arbitrated(live, claims, i) <= live
    decreases |claims| - i
  {
    if i < |claims| {
      OnlyRemoves(if claims[i].owner in live then live - Rivals(claims, i, |claims|) else live, claims, i + 1);
    }
  }

  /** Afterwards no two active owners claim the same pin. */
  lemma {:induction false} ArbitrationSeparates(live: set<string>, claims: seq<PinClaim>, start: nat, i: nat, j: nat)
    requires start <= i && Collide(claims, i, j)
    ensures claims[i].owner !in Arbitrated(live, claims, start) || claims[j].owner !in Arbitrated(live, claims, start)
    decreases |claims| - start
  {
    var next := if claims[start].owner in live then live - Rivals(claims, start, |claims|) else live;
    if start < i {
      ArbitrationSeparates(next, claims, start + 1, i, j);
    } else {
      OnlyRemoves(next, claims, start + 1);
      if claims[i].owner in live {
        assert claims[j].owner in Rivals(claims, i, |claims|);
      }
    }
  }

  /** Nothing is switched off without an earlier claimant of one of its pins that was
      active to begin with. */
  lemma {:induction false} RemovalJustified(live: set<string>, claims: seq<PinClaim>, start: nat, id: string)
    returns (i: nat, j: nat)
    requires start <= |claims| && id in live && id !in Arbitrated(live, claims, start)
    ensures i < j < |claims| && claims[i].pin == claims[j].pin >= 0 && claims[i].owner != id
    ensures claims[j].owner == id && claims[i].owner in live
    decreases |claims| - start
  {
    var removed := Rivals(claims, start, |claims|);
    if claims[start].owner in live && id in removed {
      i := start;
      j :| j < |claims| && Collide(claims, start, j) && claims[j].owner == id;
    } else {
      i, j := RemovalJustified(if claims[start].owner in live then live - removed else live, claims, start + 1, id);
    }
  }

  /** Some claim of `id` is on the same pin as a claim of an owner in `live`. */
  ghost predicate Clashes(id: string, live: set<string>, claims: seq<PinClaim>) {
    exists i: nat, j: nat ::
      && Collide(claims, i, j)
      && ((claims[i].owner == id && claims[j].owner in live) || (claims[j].owner == id && claims[i].owner in live))
  }

  /** A removed owner clashes with a survivor exactly when switching it on again would
      change something: otherwise it was removed needlessly, since whoever removed it was
      itself removed later. */
  lemma RemovalStands(live: set<string>, claims: seq<PinClaim>, id: string)
    requires id in live && id !in Arbitrated(live, claims, 0)
    ensures var kept := Arbitrated(live, claims, 0);
            && (Clashes(id, kept, claims) <==> !ConflictFree(kept + {id}, claims))
            && (Clashes(id, kept, claims) <==> Arbitrated(kept + {id}, claims, 0) != kept + {id})
  {
    var kept := Arbitrated(live, claims, 0);
    ArbitrationSettles(live, claims);
    UnchangedIffFree(kept + {id}, claims);
    if !ConflictFree(kept + {id}, claims) {
      var i: nat, j: nat :|
        Collide(claims, i, j) && claims[i].owner in kept + {id} && claims[j].owner in kept + {id};
      assert claims[i].owner !in kept || claims[j].owner !in kept;
    }
  }

  /** Two pins, three owners: A takes pin 1 from B and then loses pin 2, and with it
      everything, to C.  B is off although nobody active claims its pin. */
  lemma NeedlessRemoval()
    ensures var a, b := PinClaim(1, "A", false), PinClaim(1, "B", false);
            var claims := [a, b, PinClaim(2, "C", false), a.(pin := 2)];
            && Arbitrated({"A", "B", "C"}, claims, 0) == {"C"}
            && ConflictFree({"B", "C"}, claims) && !Clashes("B", {"C"}, claims)
  {
    var a, b := PinClaim(1, "A", false), PinClaim(1, "B", false);
    var claims := [a, b, PinClaim(2, "C", false), a.(pin := 2)];
    assert Collide(claims, 0, 1) && Collide(claims, 2, 3);
    assert forall i: nat, j: nat :: Collide(claims, i, j) ==> (i == 0 && j == 1) || (i == 2 && j == 3);
    assert Rivals(claims, 0, 4) == {"B"} && Rivals(claims, 2, 4) == {"A"};
    assert Rivals(claims, 1, 4) == {} == Rivals(claims, 3, 4);
    assert {"A", "B", "C"} - {"B"} == {"A", "C"} && {"A", "C"} - {"A"} == {"C"};
    assert Arbitrated({"C"}, claims, 3) == {"C"} by {
      assert Arbitrated({"C"}, claims, 4) == {"C"};
    }
    assert Arbitrated({"A", "C"}, claims, 2) == {"C"};
    assert Arbitrated({"A", "C"}, claims, 1) == {"C"};
  }

  /** Arbitration changes nothing exactly when there is nothing to arbitrate. */
  lemma UnchangedIffFree(live: set<string>, claims: seq<PinClaim>)
    ensures Arbitrated(live, claims, 0) == live <==> ConflictFree(live, claims)
  {
    OnlyRemoves(live, claims, 0);
    if Arbitrated(live, claims, 0) == live {
      forall i: nat, j: nat | Collide(claims, i, j)
        ensures claims[i].owner !in live || claims[j].owner !in live
      {
        ArbitrationSeparates(live, claims, 0, i, j);
      }
    } else {
      var id :| id in live && id !in Arbitrated(live, claims, 0);
      var i, j := RemovalJustified(live, claims, 0, id);
    }
  }

  /** So a second check finds nothing more to do. */
  lemma ArbitrationSettles(live: set<string>, claims: seq<PinClaim>)
    ensures var kept := Arbitrated(live, claims, 0);
            ConflictFree(kept, claims) && Arbitrated(kept, claims, 0) == kept
  {
    var kept := Arbitrated(live, claims, 0);
    forall i: nat, j: nat | Collide(claims, i, j)
      ensures claims[i].owner !in kept || claims[j].owner !in kept
    {
      ArbitrationSeparates(live, claims, 0, i, j);
    }
    UnchangedIffFree(kept, claims);
  }

  // ---- The device's form -----------------------------------------------------

  /** A flag is set exactly when it was and its id is still live. */
  ghost predicate Shows(nodes: seq<Capability>, was: seq<bool>, live: set<string>)
    reads nodes
  {
    |was| == |nodes| &&
    forall k :: 0 <= k < |nodes| ==> nodes[k].active == (was[k] && nodes[k].id in live)
  }

  method AnyActive(head: Capability?, id: string, ghost nodes: seq<Capability>) returns (found: bool)
    requires Linked(head, nodes)
    ensures found == exists k :: 0 <= k < |nodes| && nodes[k].active && nodes[k].id == id
  {
    var c := head;
    ghost var k := 0;
    while c != null
      invariant k <= |nodes| && c == (if k < |nodes| then nodes[k] else null)
      invariant forall a :: 0 <= a < k ==> !(nodes[a].active && nodes[a].id == id)
      decreases |nodes| - k
    {
      if c.active && c.id == id {
        return true;
      }
      c := c.next;
      k := k + 1;
    }
    return false;
  }

  method DisableAll(head: Capability?, id: string, ghost nodes: seq<Capability>)
    requires Linked(head, nodes)
    modifies nodes`active
    ensures Linked(head, nodes)
    ensures forall k :: 0 <= k < |nodes| ==> nodes[k].active == (old(nodes[k].active) && nodes[k].id != id)
  {
    var c := head;
    ghost var k := 0;
    while c != null
      invariant Linked(head, nodes)
      invariant k <= |nodes| && c == (if k < |nodes| then nodes[k] else null)
      invariant forall a :: 0 <= a < k ==> nodes[a].active == (old(nodes[a].active) && nodes[a].id != id)
      invariant forall a :: k <= a < |nodes| ==> nodes[a].active == old(nodes[a].active)
      decreases |nodes| - k
    {
      assert c == nodes[k] && forall a :: 0 <= a < |nodes| && a != k ==> nodes[a] != c;
      if c.id == id {
        c.active := false;
      }
      c := c.next;
      k := k + 1;
    }
  }

  method DropDisallowed(head: Capability?, allowed: string -> bool, ghost nodes: seq<Capability>) returns (ok: bool)
    requires Linked(head, nodes)
    modifies nodes`active
    ensures Linked(head, nodes)
    ensures forall k :: 0 <= k < |nodes| ==> nodes[k].active == (old(nodes[k].active) && allowed(nodes[k].id))
    ensures ok <==> forall k :: 0 <= k < |nodes| && old(nodes[k].active) ==> allowed(nodes[k].id)
  {
    ok := true;
    var c := head;
    ghost var k := 0;
    while c != null
      invariant Linked(head, nodes)
      invariant k <= |nodes| && c == (if k < |nodes| then nodes[k] else null)
      invariant forall a :: 0 <= a < k ==> nodes[a].active == (old(nodes[a].active) && allowed(nodes[a].id))
      invariant forall a :: k <= a < |nodes| ==> nodes[a].active == old(nodes[a].active)
      invariant ok <==> forall a :: 0 <= a < k && old(nodes[a].active) ==> allowed(nodes[a].id)
      decreases |nodes| - k
    {
      assert c == nodes[k] && forall a :: 0 <= a < |nodes| && a != k ==> nodes[a] != c;
      if c.active && !allowed(c.id) {
        c.active := false;
        ok := false;
      }
      c := c.next;
      k := k + 1;
    }
  }

  method OwnerHasPin(claims: seq<PinClaim>, owner: string, pin: int) returns (has: bool)
    ensures has <==> pin >= 0 && exists i :: 0 <= i < |claims| && claims[i].pin == pin && claims[i].owner == owner
  {
    if pin < 0 {
      return false;
    }
    var i := 0;
    while i < |claims|
      invariant 0 <= i <= |claims|
      invariant forall k :: 0 <= k < i ==> !(claims[k].pin == pin && claims[k].owner == owner)
    {
      if claims[i].pin == pin && claims[i].owner == owner {
        return true;
      }
      i := i + 1;
    }
    return false;
  }

  lemma ActiveIsLive(nodes: seq<Capability>, was: seq<bool>, live: set<string>, id: string)
    requires Shows(nodes, was, live) && live <= ActiveIds(Ids(nodes), was)
    ensures (exists k :: 0 <= k < |nodes| && nodes[k].active && nodes[k].id == id) <==> id in live
  {
    if id in live {
      var k :| 0 <= k < |nodes| && was[k] && Ids(nodes)[k] == id;
      assert nodes[k].active && nodes[k].id == id;
    }
  }

  /** Switches an owner off wherever it is on. */
  method SwitchOff(head: Capability?, owner: string, ghost nodes: seq<Capability>,
                   ghost was: seq<bool>, ghost live: set<string>)
    returns (wasActive: bool)
    requires Linked(head, nodes) && Shows(nodes, was, live) && live <= ActiveIds(Ids(nodes), was)
    modifies nodes`active
    ensures Linked(head, nodes) && Shows(nodes, was, live - {owner})
    ensures wasActive <==> owner in live
  {
    wasActive := AnyActive(head, owner, nodes);
    ActiveIsLive(nodes, was, live, owner);
    if wasActive {
      DisableAll(head, owner, nodes);
    }
  }

  /** Claim `i` removes its rivals one by one; `ok` drops when one was active. */
  method RemoveRivals(head: Capability?, claims: seq<PinClaim>, i: nat, ghost nodes: seq<Capability>,
                      ghost was: seq<bool>, ghost live: set<string>)
    returns (ok: bool)
    requires Linked(head, nodes) && Shows(nodes, was, live) && live <= ActiveIds(Ids(nodes), was)
    requires i < |claims| && claims[i].pin >= 0
    modifies nodes`active
    ensures Linked(head, nodes) && Shows(nodes, was, live - Rivals(claims, i, |claims|))
    ensures ok <==> live - Rivals(claims, i, |claims|) == live
  {
    ok := true;
    ghost var now := live;
    var j := i + 1;
    assert Rivals(claims, i, j) == {};
    while j < |claims|
      invariant i < j <= |claims|
      invariant Linked(head, nodes) && Shows(nodes, was, now)
      invariant now == live - Rivals(claims, i, j) && (ok <==> now == live)
    {
      var other := claims[j];
      RivalsStep(claims, i, j);
      if other.pin == claims[i].pin && other.owner != claims[i].owner {
        var wasActive := SwitchOff(head, other.owner, nodes, was, now);
        ok := ok && !wasActive;
        now := now - {other.owner};
      }
      j := j + 1;
    }
  }

  lemma RivalsStep(claims: seq<PinClaim>, i: nat, j: nat)
    requires i < j < |claims|
    ensures Rivals(claims, i, j + 1) ==
            if Collide(claims, i, j) then Rivals(claims, i, j) + {claims[j].owner} else Rivals(claims, i, j)
  {
    if Collide(claims, i, j) {
      assert claims[j].owner in Rivals(claims, i, j + 1);
    }
  }

  lemma ArbitrationStep(live: set<string>, claims: seq<PinClaim>, i: nat)
    requires i < |claims|
    ensures claims[i].pin < 0 || claims[i].owner !in live ==>
              Arbitrated(live, claims, i) == Arbitrated(live, claims, i + 1)
    ensures claims[i].owner in live ==>
              Arbitrated(live, claims, i) == Arbitrated(live - Rivals(claims, i, |claims|), claims, i + 1)
  {
    if claims[i].pin < 0 {
      assert Rivals(claims, i, |claims|) == {} && live - {} == live;
    }
  }

  /** The unsafe-pin test: the claim is in the table, so its own pin is always owned. */
  method SafelyOwned(claims: seq<PinClaim>, a: PinClaim) returns (owned: bool)
    requires a in claims && a.pin >= 0
    ensures owned
  {
    owned := true;
    if a.unsafe {
      owned := OwnerHasPin(claims, a.owner, a.pin);
    }
  }

  method ResolveConflicts(head: Capability?, claims: seq<PinClaim>, ghost nodes: seq<Capability>,
                          ghost was: seq<bool>, ghost start: set<string>)
    returns (ok: bool)
    requires Linked(head, nodes) && Shows(nodes, was, start) && start <= ActiveIds(Ids(nodes), was)
    modifies nodes`active
    ensures Linked(head, nodes) && Shows(nodes, was, Arbitrated(start, claims, 0))
    ensures ok <==> Arbitrated(start, claims, 0) == start
  {
    ok := true;
    ghost var live, target := start, Arbitrated(start, claims, 0);
    var i := 0;
    while i < |claims|
      invariant 0 <= i <= |claims|
      invariant Linked(head, nodes) && Shows(nodes, was, live)
      invariant live <= start && target == Arbitrated(live, claims, i)
      invariant ok <==> live == start
    {
      ArbitrationStep(live, claims, i);
      var a := claims[i];
      if a.pin >= 0 {
        var ownerActive := AnyActive(head, a.owner, nodes);
        ActiveIsLive(nodes, was, live, a.owner);
        if ownerActive {
          var owned := SafelyOwned(claims, a);
          var free := RemoveRivals(head, claims, i, nodes, was, live);
          ok := ok && owned && free;
          live := live - Rivals(claims, i, |claims|);
        }
      }
      i := i + 1;
    }
  }

  /** No two active nodes with different ids claim the same pin. */
  ghost predicate Separated(nodes: seq<Capability>, claims: seq<PinClaim>)
    reads nodes
  {
    forall a, b, i, j ::
      && 0 <= a < |nodes| && 0 <= b < |nodes| && 0 <= i < |claims| && 0 <= j < |claims|
      && nodes[a].active && nodes[b].active
      && claims[i].owner == nodes[a].id && claims[j].owner == nodes[b].id && 0 <= claims[i].pin == claims[j].pin
      ==> nodes[a].id == nodes[b].id
  }

  lemma ShownSeparated(nodes: seq<Capability>, was: seq<bool>, live: set<string>, claims: seq<PinClaim>)
    requires Shows(nodes, was, Arbitrated(live, claims, 0))
    ensures Separated(nodes, claims)
  {
    forall i: nat, j: nat | Collide(claims, i, j)
      ensures claims[i].owner !in Arbitrated(live, claims, 0) || claims[j].owner !in Arbitrated(live, claims, 0)
    {
      ArbitrationSeparates(live, claims, 0, i, j);
    }
    forall a, b, i, j |
      && 0 <= a < |nodes| && 0 <= b < |nodes| && 0 <= i < |claims| && 0 <= j < |claims|
      && nodes[a].active && nodes[b].active
      && claims[i].owner == nodes[a].id && claims[j].owner == nodes[b].id && 0 <= claims[i].pin == claims[j].pin
      ensures nodes[a].id == nodes[b].id
    {
      if nodes[a].id != nodes[b].id {
        assert Collide(claims, if i < j then i else j, if i < j then j else i);
      }
    }
  }

  /** Claim `j` is behind another owner's claim on the same pin. */
  predicate Contested(claims: seq<PinClaim>, j: nat) {
    j < |claims| && exists i :: 0 <= i < j && claims[i].pin == claims[j].pin >= 0 && claims[i].owner != claims[j].owner
  }

  lemma UncontestedStay(nodes: seq<Capability>, was: seq<bool>, allowed: string -> bool, claims: seq<PinClaim>)
    requires |was| == |nodes|
    requires Shows(nodes, was, Arbitrated(AllowedOf(ActiveIds(Ids(nodes), was), allowed), claims, 0))
    ensures forall k :: 0 <= k < |nodes| && nodes[k].active ==> was[k] && allowed(nodes[k].id)
    ensures forall k :: 0 <= k < |nodes| && was[k] && allowed(nodes[k].id)
                        && (forall j :: 0 <= j < |claims| && claims[j].owner == nodes[k].id ==> !Contested(claims, j))
                        ==> nodes[k].active
  {
    var start := AllowedOf(ActiveIds(Ids(nodes), was), allowed);
    OnlyRemoves(start, claims, 0);
    forall k | 0 <= k < |nodes| && was[k] && allowed(nodes[k].id) && !nodes[k].active
      ensures exists j :: 0 <= j < |claims| && claims[j].owner == nodes[k].id && Contested(claims, j)
    {
      assert Ids(nodes)[k] == nodes[k].id;
      var i, j := RemovalJustified(start, claims, 0, nodes[k].id);
    }
  }

  /** The boot check.  No flag is newly set, the surviving ids are the arbitrated ones,
      none of them share a pin, and the verdict is true exactly when every flag is as it
      was. */
  method CheckActiveCapabilityPins(head: Capability?, claims: seq<PinClaim>, allowed: string -> bool,
                                   ghost nodes: seq<Capability>)
    returns (ok: bool)
    requires Linked(head, nodes)
    modifies nodes`active
    ensures Linked(head, nodes)
    ensures Shows(nodes, old(Flags(nodes)),
                  Arbitrated(AllowedOf(ActiveIds(Ids(nodes), old(Flags(nodes))), allowed), claims, 0))
    ensures Separated(nodes, claims)
    ensures forall k :: 0 <= k < |nodes| && nodes[k].active ==> old(nodes[k].active) && allowed(nodes[k].id)
    ensures forall k :: 0 <= k < |nodes| && old(nodes[k].active) && allowed(nodes[k].id)
                        && (forall j :: 0 <= j < |claims| && claims[j].owner == nodes[k].id ==> !Contested(claims, j))
                        ==> nodes[k].active
    ensures ok <==> Flags(nodes) == old(Flags(nodes))
  {
    ghost var was := Flags(nodes);
    ghost var ids := ActiveIds(Ids(nodes), was);
    ghost var start := AllowedOf(ids, allowed);
    var allAllowed := DropDisallowed(head, allowed, nodes);
    AllowedShown(nodes, was, allowed);
    AllowedAll(Ids(nodes), was, allowed);
    var free := ResolveConflicts(head, claims, nodes, was, start);
    ok := allAllowed && free;
    OnlyRemoves(start, claims, 0);
    FlagsKept(nodes, was, Arbitrated(start, claims, 0));
    ShownSeparated(nodes, was, start, claims);
    UncontestedStay(nodes, was, allowed, claims);
  }

  lemma AllowedShown(nodes: seq<Capability>, was: seq<bool>, allowed: string -> bool)
    requires |was| == |nodes|
    requires forall k :: 0 <= k < |nodes| ==> nodes[k].active == (was[k] && allowed(nodes[k].id))
    ensures Shows(nodes, was, AllowedOf(ActiveIds(Ids(nodes), was), allowed))
  {
    forall k | 0 <= k < |nodes| && was[k]
      ensures nodes[k].id in ActiveIds(Ids(nodes), was)
    {
      assert Ids(nodes)[k] == nodes[k].id;
    }
  }

  lemma AllowedAll(ids: seq<string>, was: seq<bool>, allowed: string -> bool)
    requires |was| == |ids|
    ensures AllowedOf(ActiveIds(ids, was), allowed) == ActiveIds(ids, was)
            <==> forall k :: 0 <= k < |ids| && was[k] ==> allowed(ids[k])
  {
    if AllowedOf(ActiveIds(ids, was), allowed) == ActiveIds(ids, was) {
      forall k | 0 <= k < |ids| && was[k]
        ensures allowed(ids[k])
      {
        assert ids[k] in ActiveIds(ids, was);
      }
    }
  }

  /** Every flag is as it was exactly when no active id was lost. */
  lemma FlagsKept(nodes: seq<Capability>, was: seq<bool>, live: set<string>)
    requires Shows(nodes, was, live) && live <= ActiveIds(Ids(nodes), was)
    ensures Flags(nodes) == was <==> live == ActiveIds(Ids(nodes), was)
  {
    var ids := ActiveIds(Ids(nodes), was);
    if Flags(nodes) == was {
      forall id | id in ids
        ensures id in live
      {
        var k :| 0 <= k < |nodes| && was[k] && Ids(nodes)[k] == id;
        assert Flags(nodes)[k] == nodes[k].active;
      }
    } else if live == ids {
      forall k | 0 <= k < |nodes|
        ensures Flags(nodes)[k] == was[k]
      {
        if was[k] {
          assert Ids(nodes)[k] in ids;
        }
      }
      assert false;
    }
  }
}
