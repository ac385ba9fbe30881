/**
 Groups of sockets and the map from devices and queues to groups.

 A group is in use while its process id is not zero.  Sockets join it by class under a
 policy fixed by the first of them; the last to leave frees it and removes it from the
 map.  A monitor flag per device says whether any of its queues has a group.
 */
module Groups {

  const MAX_GROUP: nat := 64
  const MAX_ID: nat := 64
  const CLASS_MAX: nat := 64
  const MAX_DEVICE: nat := 256
  const MAX_QUEUE: nat := 256

  const UNDEFINED: int := 0
  const PRIVATE: int := 1
  const RESTRICTED: int := 2
  const SHARED: int := 3

  const EPERM: int := 1
  const EACCES: int := 13
  const EINVAL: int := 22

  const ANY: int := -1

  /** A word of bits. */
  type Bits = set<nat>

  /** `mask[c]` are the sockets of class `c`.  History: `joined[id]` is the process from which a
      member last joined. */
  datatype Group = Group(pid: nat, owner: int, policy: int, mask: seq<Bits>, joined: map<nat, nat>)

  datatype World = World(groups: seq<Group>, devmap: seq<seq<Bits>>, monitor: seq<nat>)

  // ---------------------------------------------------------------------- groups

  /** All sockets of a group, whatever their class. */
  function Union(mask: seq<Bits>): (u: Bits)
    ensures forall x :: x in u <==> exists c :: 0 <= c < |mask| && x in mask[c]
  {
    if mask == [] then {} else
      assert mask == mask[..|mask| - 1] + [mask[|mask| - 1]];
      Union(mask[..|mask| - 1]) + mask[|mask| - 1]
  }

  function Members(g: Group): Bits { Union(g.mask) }

  predicate PolicyAccess(g: Group, id: nat, policy: int, pid: nat)
  {
    if g.policy == PRIVATE then g.owner == id
    else if g.policy == RESTRICTED then policy == RESTRICTED && g.pid == pid
    else if g.policy == SHARED then policy == SHARED
    else g.policy == UNDEFINED
  }

  /** `n` copies of `x`. */
  function Repeat<T>(n: nat, x: T): (r: seq<T>)
    ensures |r| == n && forall i :: 0 <= i < n ==> r[i] == x
  {
    if n == 0 then [] else Repeat(n - 1, x) + [x]
  }

  function Blank(): (r: seq<Bits>)
    ensures |r| == CLASS_MAX && forall c :: 0 <= c < CLASS_MAX ==> r[c] == {}
  {
    Repeat(CLASS_MAX, {})
  }

  function Fresh(pid: nat): Group
  {
    Group(pid, -1, UNDEFINED, Blank(), map[])
  }

  function Added(mask: seq<Bits>, id: nat, classes: Bits): (r: seq<Bits>)
    ensures |r| == |mask|
  {
    seq(|mask|, c requires 0 <= c < |mask| => if c in classes then mask[c] + {id} else mask[c])
  }

  function Removed(mask: seq<Bits>, id: nat): (r: seq<Bits>)
    ensures |r| == |mask|
  {
    seq(|mask|, c requires 0 <= c < |mask| => mask[c] - {id})
  }

  /** The group a joining socket meets: a group out of use is initialised first. */
  function Met(g: Group, pid: nat): Group
  {
    if g.pid == 0 then Fresh(pid) else g
  }

  function JoinedGroup(g: Group, id: nat, classes: Bits, policy: int, pid: nat): Group
  {
    Group(g.pid, if g.owner == -1 then id else g.owner, if g.policy == UNDEFINED then policy else g.policy,
          Added(g.mask, id, classes), if classes == {} then g.joined else g.joined[id := pid])
  }

  function LeftGroup(g: Group, id: nat): Group
  {
    g.(mask := Removed(g.mask, id), joined := g.joined - {id})
  }

  function Freed(g: Group): Group
  {
    g.(pid := 0, owner := -1, policy := UNDEFINED)
  }

  // ---------------------------------------------------------------------- devmap

  function Low(x: int, n: nat): int
    requires n > 0
  {
    if x > 0 then x % n else x
  }

  predicate DevmapEqual(i1: int, q1: int, i2: int, q2: int)
  {
    var a, p, b, q := Low(i1, MAX_DEVICE), Low(q1, MAX_QUEUE), Low(i2, MAX_DEVICE), Low(q2, MAX_QUEUE);
    || (a == b && p == q)
    || (a == b && q == ANY)
    || (b == ANY && p == q)
    || (b == ANY && q == ANY)
  }

  function Cell(c: Bits, hit: bool, set_: bool, gid: nat): Bits
  {
    if !hit then c else if set_ then c + {gid} else c - {gid}
  }

  /** The map after binding (`set_`) or unbinding group `gid` on every queue that matches. */
  function Mapped(m: seq<seq<Bits>>, set_: bool, index: int, queue: int, gid: nat): (r: seq<seq<Bits>>)
    ensures |r| == |m| && forall i :: 0 <= i < |m| ==> |r[i]| == |m[i]|
  {
    seq(|m|, i requires 0 <= i < |m| => MappedRow(m[i], i, set_, index, queue, gid))
  }

  function MappedRow(row: seq<Bits>, i: nat, set_: bool, index: int, queue: int, gid: nat): (r: seq<Bits>)
    ensures |r| == |row|
  {
    seq(|row|, q requires 0 <= q < |row| => Cell(row[q], DevmapEqual(i, q, index, queue), set_, gid))
  }

  /** 1 for every device with a group on some queue. */
  function Monitored(m: seq<seq<Bits>>): (r: seq<nat>)
    ensures |r| == |m|
  {
    seq(|m|, i requires 0 <= i < |m| => if Union(m[i]) != {} then 1 else 0)
  }

  function Updated(w: World, set_: bool, index: int, queue: int, gid: nat): World
  {
    var m := Mapped(w.devmap, set_, index, queue, gid);
    w.(devmap := m, monitor := Monitored(m))
  }

  // ------------------------------------------------------------------ operations

  predicate Shaped(w: World)
  {
    && |w.groups| == MAX_GROUP && (forall g :: 0 <= g < MAX_GROUP ==> |w.groups[g].mask| == CLASS_MAX)
    && |w.devmap| == MAX_DEVICE && (forall i :: 0 <= i < MAX_DEVICE ==> |w.devmap[i]| == MAX_QUEUE)
    && |w.monitor| == MAX_DEVICE
  }

  /** The number of cells an update touches: all matching ones when setting, those that held the
      group when clearing. */
  function Touched(row: seq<Bits>, i: nat, set_: bool, index: int, queue: int, gid: nat, n: nat): nat
    requires n <= |row|
  {
    if n == 0 then 0 else
      Touched(row, i, set_, index, queue, gid, n - 1)
      + if DevmapEqual(i, n - 1, index, queue) && (set_ || gid in row[n - 1]) then 1 else 0
  }

  function TouchedAll(m: seq<seq<Bits>>, set_: bool, index: int, queue: int, gid: nat, n: nat): nat
    requires n <= |m|
  {
    if n == 0 then 0 else
      TouchedAll(m, set_, index, queue, gid, n - 1) + Touched(m[n - 1], n - 1, set_, index, queue, gid, |m[n - 1]|)
  }

  datatype Op =
    | Join(gid: int, id: nat, classes: Bits, policy: int, pid: nat)
    | JoinFree(id: nat, classes: Bits, policy: int, pid: nat)
    | Leave(gid: int, id: nat)
    | Bind(gid: int, id: nat, index: int, queue: int)
    | Unbind(gid: int, id: nat, index: int, queue: int)
    | Release(id: nat)

  function JoinOne(w: World, gid: nat, id: nat, classes: Bits, policy: int, pid: nat): (r: (World, int))
    requires gid < |w.groups|
    ensures Shaped(w) ==> Shaped(r.0)
  {
    var g := Met(w.groups[gid], pid);
    if PolicyAccess(g, id, policy, pid)
    then (w.(groups := w.groups[gid := JoinedGroup(g, id, classes, policy, pid)]), 0)
    else (w.(groups := w.groups[gid := g]), -EACCES)
  }

  function LeaveOne(w: World, gid: nat, id: nat): (r: (World, int))
    requires gid < |w.groups|
    ensures Shaped(w) ==> Shaped(r.0)
  {
    var g := w.groups[gid];
    if g.pid == 0 then (w, -EPERM)
    else
      var left := LeftGroup(g, id);
      var v := w.(groups := w.groups[gid := left]);
      if Members(left) != {} then (v, 0)
      else (Updated(v, false, ANY, ANY, gid).(groups := v.groups[gid := Freed(left)]), 0)
  }

  /** The first group out of use from `n` on. */
  function FreeFrom(w: World, n: nat): (g: nat)
    requires n <= |w.groups|
    ensures n <= g <= |w.groups|
    ensures forall k :: n <= k < g ==> w.groups[k].pid != 0
    ensures g < |w.groups| ==> w.groups[g].pid == 0
    decreases |w.groups| - n
  {
    if n == |w.groups| || w.groups[n].pid == 0 then n else FreeFrom(w, n + 1)
  }

  /** A socket that goes away leaves every group. */
  function LeaveFirst(w: World, id: nat, n: nat): (r: World)
    requires Shaped(w) && n <= MAX_GROUP
    ensures Shaped(r)
  {
    if n == 0 then w else LeaveOne(LeaveFirst(w, id, n - 1), n - 1, id).0
  }

  function Apply(w: World, op: Op): (r: (World, int))
    requires Shaped(w)
    ensures Shaped(r.0)
  {
    match op
    case Join(gid, id, classes, policy, pid) =>
      if 0 <= gid < MAX_GROUP then JoinOne(w, gid, id, classes, policy, pid) else (w, -EINVAL)
    case JoinFree(id, classes, policy, pid) =>
      var g := FreeFrom(w, 0);
      if g < MAX_GROUP then (JoinOne(w, g, id, classes, policy, pid).0, g) else (w, -EPERM)
    case Leave(gid, id) =>
      if 0 <= gid < MAX_GROUP then LeaveOne(w, gid, id) else (w, -EINVAL)
    case Bind(gid, id, index, queue) =>
      if 0 <= gid < MAX_GROUP && id in Members(w.groups[gid]) then (Updated(w, true, index, queue, gid), 0) else (w, -EACCES)
    case Unbind(gid, id, index, queue) =>
      if 0 <= gid < MAX_GROUP && id in Members(w.groups[gid]) then (Updated(w, false, index, queue, gid), 0) else (w, -EACCES)
    case Release(id) => (LeaveFirst(w, id, MAX_GROUP), 0)
  }

  // ---------------------------------------------------------------- the invariant

  predicate GroupOk(g: Group)
  {
    && (g.pid != 0 <==> Members(g) != {})
    && (g.pid != 0 ==> g.policy != UNDEFINED)
    && (g.pid == 0 ==> g.policy == UNDEFINED && g.owner == -1)
    && (g.pid != 0 ==> g.owner >= 0)
    && (g.policy == PRIVATE ==> forall id :: id in Members(g) ==> id == g.owner)
    && (g.policy == RESTRICTED ==> forall id :: id in Members(g) ==> id in g.joined && g.joined[id] == g.pid)
  }

  /** Every group on a queue is in use. */
  predicate CellOk(w: World, i: nat, q: nat)
    requires Shaped(w) && i < MAX_DEVICE && q < MAX_QUEUE
  {
    forall gid :: gid in w.devmap[i][q] ==> gid < MAX_GROUP && w.groups[gid].pid != 0
  }

  predicate MapOk(w: World)
    requires Shaped(w)
  {
    forall i, q :: 0 <= i < MAX_DEVICE && 0 <= q < MAX_QUEUE ==> CellOk(w, i, q)
  }

  /** The monitor flag of a device is exact. */
  predicate FlagOk(w: World, i: nat)
    requires Shaped(w) && i < MAX_DEVICE
  {
    w.monitor[i] <= 1 && (w.monitor[i] == 1 <==> exists q :: 0 <= q < MAX_QUEUE && w.devmap[i][q] != {})
  }

  predicate MonitorOk(w: World)
    requires Shaped(w)
  {
    forall i :: 0 <= i < MAX_DEVICE ==> FlagOk(w, i)
  }

  predicate Inv(w: World)
  {
    && Shaped(w)
    && (forall gid :: 0 <= gid < MAX_GROUP ==> GroupOk(w.groups[gid]))
    && MapOk(w) && MonitorOk(w)
  }

  /** What the callers promise of a join: a policy, some class, a real process. */
  predicate Proper(op: Op)
  {
    match op
    case Join(_, _, classes, policy, pid) => classes != {} && (forall c :: c in classes ==> c < CLASS_MAX) && policy != UNDEFINED && pid > 0
    case JoinFree(_, classes, policy, pid) => classes != {} && (forall c :: c in classes ==> c < CLASS_MAX) && policy != UNDEFINED && pid > 0
    case _ => true
  }

  lemma BlankEmpty(id: nat, classes: Bits)
    ensures Union(Blank()) == {}
    ensures (exists c :: c in classes && c < CLASS_MAX) ==> Union(Added(Blank(), id, classes)) == {id}
    ensures classes == {} ==> Union(Added(Blank(), id, classes)) == {}
  {
    assert forall x :: x in Union(Blank()) ==> false;
    var u := Union(Added(Blank(), id, classes));
    assert forall x :: x in u ==> x == id;
    if c :| c in classes && c < CLASS_MAX {
      assert id in Added(Blank(), id, classes)[c];
      assert id in u;
    }
  }

  /** Joining adds the socket to the members and removes none. */
  lemma AddedMembers(mask: seq<Bits>, id: nat, classes: Bits, c: nat)
    requires c in classes && c < |mask|
    ensures Union(Added(mask, id, classes)) == Union(mask) + {id}
  {
    var r := Added(mask, id, classes);
    assert id in r[c];
    forall x
      ensures x in Union(r) <==> x in Union(mask) + {id}
    {
      if x in Union(mask) {
        var k :| 0 <= k < |mask| && x in mask[k];
        assert x in r[k];
      }
      if x in Union(r) {
        var k :| 0 <= k < |r| && x in r[k];
        assert x in mask[k] || x == id;
      }
    }
  }

  /** Leaving removes the socket, and only it, from every class. */
  lemma RemovedMembers(mask: seq<Bits>, id: nat)
    ensures Union(Removed(mask, id)) == Union(mask) - {id}
  {
    var r := Removed(mask, id);
    forall x
      ensures x in Union(r) <==> x in Union(mask) - {id}
    {
      if x in Union(mask) && x != id {
        var k :| 0 <= k < |mask| && x in mask[k];
        assert x in r[k];
      }
      if x in Union(r) {
        var k :| 0 <= k < |r| && x in r[k];
        assert x in mask[k];
      }
    }
  }

  lemma AddedNone(mask: seq<Bits>, id: nat)
    ensures Added(mask, id, {}) == mask
  {
  }

  /** The group a socket may join is fine afterwards, unless it was out of use and the socket brought
      no class or no policy. */
  lemma JoinGroupIff(g: Group, id: nat, classes: Bits, policy: int, pid: nat)
    requires GroupOk(g) && |g.mask| == CLASS_MAX && pid > 0 && (forall c :: c in classes ==> c < CLASS_MAX)
    requires PolicyAccess(Met(g, pid), id, policy, pid)
    ensures GroupOk(JoinedGroup(Met(g, pid), id, classes, policy, pid)) <==> !(g.pid == 0 && (classes == {} || policy == UNDEFINED))
  {
    hide Union, Added, Blank;
    BlankEmpty(id, classes);
    if classes == {} {
      AddedNone(Met(g, pid).mask, id);
    } else {
      var c :| c in classes;
      AddedMembers(Met(g, pid).mask, id, classes, c);
    }
  }

  lemma RefusedInUse(g: Group, id: nat, policy: int, pid: nat)
    requires !PolicyAccess(Met(g, pid), id, policy, pid)
    ensures g.pid != 0 && Met(g, pid) == g
  {
  }

  /** Changing one group for another in use does not concern the map. */
  lemma MapSame(w: World, gid: nat, g: Group)
    requires Inv(w) && gid < MAX_GROUP && |g.mask| == CLASS_MAX && (w.groups[gid].pid != 0 ==> g.pid != 0)
    ensures var w' := w.(groups := w.groups[gid := g]); Shaped(w') && MapOk(w') && MonitorOk(w') && (Inv(w') <==> GroupOk(g))
  {
    var w' := w.(groups := w.groups[gid := g]);
    forall i, q | 0 <= i < MAX_DEVICE && 0 <= q < MAX_QUEUE
      ensures CellOk(w', i, q)
    {
      assert CellOk(w, i, q);
    }
    forall i | 0 <= i < MAX_DEVICE
      ensures FlagOk(w', i)
    {
      assert FlagOk(w, i);
    }
    assert w'.groups[gid] == g;
  }

  /** Who may join a group in use: its only member if it is private, a socket of the process all
      members joined from if it is restricted, anyone with the same policy if it is shared. */
  lemma {:induction false} AccessIff(g: Group, id: nat, policy: int, pid: nat)
    requires GroupOk(g) && g.pid != 0
    ensures g.policy == PRIVATE ==> (PolicyAccess(g, id, policy, pid) <==> Members(g) == {id})
    ensures g.policy == RESTRICTED ==>
              (PolicyAccess(g, id, policy, pid) <==>
                 policy == RESTRICTED && forall m :: m in Members(g) ==> m in g.joined && g.joined[m] == pid)
    ensures g.policy == SHARED ==> (PolicyAccess(g, id, policy, pid) <==> policy == SHARED)
  {
    hide Union;
    var m :| m in Members(g);
    if g.policy == PRIVATE {
      assert Members(g) == {m};
    }
  }

  /** Exactly when a join keeps the invariant. */
  lemma JoinKeepsIff(w: World, gid: nat, id: nat, classes: Bits, policy: int, pid: nat)
    requires Inv(w) && gid < MAX_GROUP && pid > 0 && (forall c :: c in classes ==> c < CLASS_MAX)
    ensures Inv(JoinOne(w, gid, id, classes, policy, pid).0) <==>
            !(w.groups[gid].pid == 0 && (classes == {} || policy == UNDEFINED))
  {
    var g, w' := w.groups[gid], JoinOne(w, gid, id, classes, policy, pid).0;
    if PolicyAccess(Met(g, pid), id, policy, pid) {
      JoinGroupIff(g, id, classes, policy, pid);
      MapSame(w, gid, JoinedGroup(Met(g, pid), id, classes, policy, pid));
    } else {
      RefusedInUse(g, id, policy, pid);
      assert w' == w;
    }
  }

  lemma {:induction false} MonitoredOk(w: World)
    requires Shaped(w) && w.monitor == Monitored(w.devmap)
    ensures MonitorOk(w)
  {
    forall i | 0 <= i < MAX_DEVICE
      ensures FlagOk(w, i)
    {
      var row := w.devmap[i];
      if Union(row) != {} {
        var x :| x in Union(row);
        var q :| 0 <= q < |row| && x in row[q];
        assert row[q] != {};
      }
      if q :| 0 <= q < MAX_QUEUE && row[q] != {} {
        var x :| x in row[q];
        assert x in Union(row);
      }
    }
  }

  lemma MappedAt(m: seq<seq<Bits>>, set_: bool, index: int, queue: int, gid: nat, i: nat, q: nat)
    requires i < |m| && q < |m[i]|
    ensures Mapped(m, set_, index, queue, gid)[i][q] == Cell(m[i][q], DevmapEqual(i, q, index, queue), set_, gid)
  {
    assert Mapped(m, set_, index, queue, gid)[i] == MappedRow(m[i], i, set_, index, queue, gid);
  }

  /** Binding a group in use, or unbinding any, keeps the invariant. */
  lemma UpdateKeeps(w: World, set_: bool, index: int, queue: int, gid: nat)
    requires Inv(w) && gid < MAX_GROUP && (set_ ==> w.groups[gid].pid != 0)
    ensures Inv(Updated(w, set_, index, queue, gid))
  {
    var w' := Updated(w, set_, index, queue, gid);
    MonitoredOk(w');
    forall i, q | 0 <= i < MAX_DEVICE && 0 <= q < MAX_QUEUE
      ensures CellOk(w', i, q)
    {
      assert CellOk(w, i, q);
      MappedAt(w.devmap, set_, index, queue, gid, i, q);
    }
  }

  /** Clearing with both wildcards removes the group from the whole map. */
  lemma {:induction false} ClearedEverywhere(m: seq<seq<Bits>>, gid: nat, i: nat, q: nat)
    requires i < |m| && q < |m[i]|
    ensures Mapped(m, false, ANY, ANY, gid)[i][q] == m[i][q] - {gid}
  {
    MappedAt(m, false, ANY, ANY, gid, i, q);
  }

  lemma LeaveKeeps(w: World, gid: nat, id: nat)
    requires Inv(w) && gid < MAX_GROUP
    ensures Inv(LeaveOne(w, gid, id).0)
  {
    var g, w' := w.groups[gid], LeaveOne(w, gid, id).0;
    if g.pid != 0 {
      RemovedMembers(g.mask, id);
      if Members(LeftGroup(g, id)) != {} {
        MapSame(w, gid, LeftGroup(g, id));
      } else {
        LastLeaves(w, gid, id);
      }
    }
  }

  /** The last to leave takes the group off the map. */
  lemma LastLeaves(w: World, gid: nat, id: nat)
    requires Inv(w) && gid < MAX_GROUP && w.groups[gid].pid != 0 && Members(LeftGroup(w.groups[gid], id)) == {}
    ensures Inv(LeaveOne(w, gid, id).0)
  {
    var g, w' := w.groups[gid], LeaveOne(w, gid, id).0;
    assert w'.groups == w.groups[gid := Freed(LeftGroup(g, id))];
    assert Members(Freed(LeftGroup(g, id))) == {};
    MonitoredOk(w');
    forall i, q | 0 <= i < MAX_DEVICE && 0 <= q < MAX_QUEUE
      ensures CellOk(w', i, q)
    {
      assert CellOk(w, i, q);
      ClearedEverywhere(w.devmap, gid, i, q);
    }
  }

  lemma {:induction false} ReleaseKeeps(w: World, id: nat, n: nat)
    requires Inv(w) && n <= MAX_GROUP
    ensures Inv(LeaveFirst(w, id, n))
  {
    if n > 0 {
      ReleaseKeeps(w, id, n - 1);
      LeaveKeeps(LeaveFirst(w, id, n - 1), n - 1, id);
    }
  }

  /** Every operation keeps the invariant. */
  lemma ApplyKeeps(w: World, op: Op)
    requires Inv(w) && Proper(op)
    ensures Inv(Apply(w, op).0)
  {
    match op {
      case Join(gid, id, classes, policy, pid) =>
        if 0 <= gid < MAX_GROUP {
          JoinKeepsIff(w, gid, id, classes, policy, pid);
        }
      case JoinFree(id, classes, policy, pid) =>
        if FreeFrom(w, 0) < MAX_GROUP {
          JoinKeepsIff(w, FreeFrom(w, 0), id, classes, policy, pid);
        }
      case Leave(gid, id) =>
        if 0 <= gid < MAX_GROUP {
          LeaveKeeps(w, gid, id);
        }
      case Bind(gid, id, index, queue) =>
        if 0 <= gid < MAX_GROUP && id in Members(w.groups[gid]) {
          UpdateKeeps(w, true, index, queue, gid);
        }
      case Unbind(gid, id, index, queue) =>
        if 0 <= gid < MAX_GROUP && id in Members(w.groups[gid]) {
          UpdateKeeps(w, false, index, queue, gid);
        }
      case Release(id) => ReleaseKeeps(w, id, MAX_GROUP);
    }
  }

  /** After a release the socket is in no class of any group, and nobody else has left one. */
  lemma {:induction false} ReleaseLeaves(w: World, id: nat, n: nat, gid: nat)
    requires Inv(w) && gid < MAX_GROUP && n <= MAX_GROUP
    ensures gid < n ==> OnlyGone(w.groups[gid], LeaveFirst(w, id, n).groups[gid], id)
    ensures gid >= n ==> LeaveFirst(w, id, n).groups[gid] == w.groups[gid]
  {
    hide LeaveOne, Members, OnlyGone;
    if n > 0 {
      ReleaseKeeps(w, id, n - 1);
      ReleaseLeaves(w, id, n - 1, gid);
      LeaveOnly(LeaveFirst(w, id, n - 1), n - 1, id, gid);
    }
  }

  /** Socket `id` is in no class of `g'`; the others are in the classes they were in. */
  predicate OnlyGone(g: Group, g': Group, id: nat)
  {
    |g'.mask| == |g.mask| && forall c :: 0 <= c < |g.mask| ==> g'.mask[c] == g.mask[c] - {id}
  }

  /** Leaving one group takes the socket, and only it, out of it and leaves the other groups alone. */
  lemma {:induction false} LeaveOnly(w: World, gid: nat, id: nat, k: nat)
    requires Inv(w) && gid < MAX_GROUP && k < MAX_GROUP
    ensures k != gid ==> LeaveOne(w, gid, id).0.groups[k] == w.groups[k]
    ensures OnlyGone(w.groups[gid], LeaveOne(w, gid, id).0.groups[gid], id)
  {
    var g := w.groups[gid];
    assert GroupOk(g);
    if g.pid == 0 {
      NoMembers(g);
    }
  }

  function Start(): (w: World)
    ensures Shaped(w)
  {
    World(Repeat(MAX_GROUP, Fresh(0)), Repeat(MAX_DEVICE, Repeat(MAX_QUEUE, {})), Repeat(MAX_DEVICE, 0))
  }

  function After(ops: seq<Op>): (w: World)
    ensures Shaped(w)
  {
    if ops == [] then Start() else Apply(After(ops[..|ops| - 1]), ops[|ops| - 1]).0
  }

  lemma StartInv()
    ensures Inv(Start())
  {
    BlankEmpty(0, {});
    forall gid | 0 <= gid < MAX_GROUP
      ensures GroupOk(Start().groups[gid])
    {
      assert Start().groups[gid] == Fresh(0);
    }
  }

  /** After every sequence of joins, leaves, binds, unbinds and releases the invariant holds. */
  lemma {:induction false} EveryRun(ops: seq<Op>)
    requires forall k :: 0 <= k < |ops| ==> Proper(ops[k])
    ensures Inv(After(ops))
  {
    if ops == [] {
      StartInv();
    } else {
      EveryRun(ops[..|ops| - 1]);
      ApplyKeeps(After(ops[..|ops| - 1]), ops[|ops| - 1]);
    }
  }

  // ------------------------------------------------------ what each operation means

  /** The device or queue `at` is one that is asked for: any, or the one with these low bits. */
  predicate Hits(at: nat, asked: int)
  {
    asked == -1 || (asked >= 0 && at == asked % 256)
  }

  predicate Matching(i: nat, q: nat, index: int, queue: int)
  {
    Hits(i, index) && Hits(q, queue)
  }

  lemma MatchIff(i: nat, q: nat, index: int, queue: int)
    requires i < MAX_DEVICE && q < MAX_QUEUE
    ensures DevmapEqual(i, q, index, queue) <==> Matching(i, q, index, queue)
  {
    assert Low(i, MAX_DEVICE) == i && Low(q, MAX_QUEUE) == q;
  }

  /** After an update a queue has group `gid` if it matches and the group is bound, or if it does not
      match and had it before; other groups stay as they are. */
  lemma UpdatedIff(w: World, set_: bool, index: int, queue: int, gid: nat, i: nat, q: nat, k: nat)
    requires Shaped(w) && i < MAX_DEVICE && q < MAX_QUEUE
    ensures var w' := Updated(w, set_, index, queue, gid);
            && w'.groups == w.groups && Shaped(w')
            && (k in w'.devmap[i][q] <==> if k == gid && Matching(i, q, index, queue) then set_ else k in w.devmap[i][q])
  {
    MappedAt(w.devmap, set_, index, queue, gid, i, q);
    MatchIff(i, q, index, queue);
  }

  /** Only members bind and unbind.  A binding reaches every queue that matches, and after it the flag
      of each device says whether any of its queues has a group. */
  lemma {:induction false} BindingIff(w: World, set_: bool, gid: int, id: nat, index: int, queue: int, i: nat, q: nat, k: nat)
    requires Inv(w) && i < MAX_DEVICE && q < MAX_QUEUE
    ensures var r := Apply(w, if set_ then Bind(gid, id, index, queue) else Unbind(gid, id, index, queue));
            && r.1 == (if 0 <= gid < MAX_GROUP && InClass(w.groups[gid], id) then 0 else -EACCES)
            && (r.1 != 0 ==> r.0 == w)
            && (r.1 == 0 ==>
                  && r.0.groups == w.groups && FlagOk(r.0, i)
                  && (k in r.0.devmap[i][q] <==> if k == gid && Matching(i, q, index, queue) then set_ else k in w.devmap[i][q]))
  {
    if 0 <= gid < MAX_GROUP && id in Members(w.groups[gid]) {
      UpdatedIff(w, set_, index, queue, gid, i, q, k);
      MonitoredOk(Updated(w, set_, index, queue, gid));
    }
  }

  /** The socket is in some class of the group. */
  predicate InClass(g: Group, id: nat)
  {
    exists c :: 0 <= c < |g.mask| && id in g.mask[c]
  }

  /** An update touches queue `q` of device `i`. */
  predicate Touches(c: Bits, i: nat, q: nat, set_: bool, index: int, queue: int, gid: nat)
  {
    Matching(i, q, index, queue) && (set_ || gid in c)
  }

  function RowCells(row: seq<Bits>, i: nat, set_: bool, index: int, queue: int, gid: nat, n: nat): set<(nat, nat)>
    requires n <= |row|
  {
    set q: nat | q < n && Touches(row[q], i, q, set_, index, queue, gid) :: (i, q)
  }

  /** The cells that match, when unbinding only those that have the group. */
  function Cells(m: seq<seq<Bits>>, set_: bool, index: int, queue: int, gid: nat, n: nat): set<(nat, nat)>
    requires n <= |m|
  {
    set i: nat, q: nat | i < n && q < |m[i]| && Touches(m[i][q], i, q, set_, index, queue, gid) :: (i, q)
  }

  lemma {:induction false} RowCount(row: seq<Bits>, i: nat, set_: bool, index: int, queue: int, gid: nat, n: nat)
    requires n <= |row| <= MAX_QUEUE && i < MAX_DEVICE
    ensures Touched(row, i, set_, index, queue, gid, n) == |RowCells(row, i, set_, index, queue, gid, n)|
  {
    if n > 0 {
      RowCount(row, i, set_, index, queue, gid, n - 1);
      MatchIff(i, n - 1, index, queue);
      var before, now := RowCells(row, i, set_, index, queue, gid, n - 1), RowCells(row, i, set_, index, queue, gid, n);
      if Touches(row[n - 1], i, n - 1, set_, index, queue, gid) {
        assert now == before + {(i, n - 1)};
      } else {
        assert now == before;
      }
    }
  }

  /** The number an update returns is that of the cells it touches. */
  lemma {:induction false} TouchedCount(m: seq<seq<Bits>>, set_: bool, index: int, queue: int, gid: nat, n: nat)
    requires n <= |m| <= MAX_DEVICE && forall i :: 0 <= i < |m| ==> |m[i]| <= MAX_QUEUE
    ensures TouchedAll(m, set_, index, queue, gid, n) == |Cells(m, set_, index, queue, gid, n)|
  {
    if n > 0 {
      hide Cells, RowCells, Touched;
      TouchedCount(m, set_, index, queue, gid, n - 1);
      RowCount(m[n - 1], n - 1, set_, index, queue, gid, |m[n - 1]|);
      CellsSplit(m, set_, index, queue, gid, n);
    }
  }

  lemma CellsSplit(m: seq<seq<Bits>>, set_: bool, index: int, queue: int, gid: nat, n: nat)
    requires 0 < n <= |m|
    ensures var before, last := Cells(m, set_, index, queue, gid, n - 1), RowCells(m[n - 1], n - 1, set_, index, queue, gid, |m[n - 1]|);
            Cells(m, set_, index, queue, gid, n) == before + last && before !! last
  {
    hide Touches;
    var all, before, last := Cells(m, set_, index, queue, gid, n), Cells(m, set_, index, queue, gid, n - 1),
                             RowCells(m[n - 1], n - 1, set_, index, queue, gid, |m[n - 1]|);
    forall i: nat, q: nat
      ensures (i, q) in all <==> (i, q) in before || (i, q) in last
    {
    }
  }

  /** Who is let in: anyone into a group out of use; into one in use whom its policy admits. */
  predicate Admits(g: Group, id: nat, policy: int, pid: nat)
  {
    || g.pid == 0
    || (g.policy == PRIVATE && Members(g) == {id})
    || (g.policy == RESTRICTED && policy == RESTRICTED && forall m :: m in Members(g) ==> m in g.joined && g.joined[m] == pid)
    || (g.policy == SHARED && policy == SHARED)
  }

  /** A socket that is let in becomes a member in exactly the classes it asked for; it founds a group
      out of use, and a group in use keeps process, owner, policy and everyone else.  A
      socket that is not let in changes nothing. */
  lemma JoinIff(w: World, gid: int, id: nat, classes: Bits, policy: int, pid: nat)
    requires Inv(w)
    ensures var r := Apply(w, Join(gid, id, classes, policy, pid));
            if !(0 <= gid < MAX_GROUP) then r == (w, -EINVAL)
            else if !Admits(w.groups[gid], id, policy, pid) then r == (w, -EACCES)
            else
              var g, g' := w.groups[gid], r.0.groups[gid];
              && r.1 == 0 && r.0 == w.(groups := w.groups[gid := g'])
              && (forall c, x :: 0 <= c < CLASS_MAX ==> (x in g'.mask[c] <==> x in g.mask[c] || (x == id && c in classes)))
              && (if g.pid == 0 then g'.pid == pid && g'.owner == id && g'.policy == policy
                  else g'.pid == g.pid && g'.owner == g.owner && g'.policy == g.policy)
  {
    if 0 <= gid < MAX_GROUP {
      var g := w.groups[gid];
      assert GroupOk(g);
      if g.pid != 0 {
        AccessIff(g, id, policy, pid);
        assert w.groups[gid := g] == w.groups;
      } else {
        NoMembers(g);
      }
    }
  }

  lemma NoMembers(g: Group)
    requires Members(g) == {}
    ensures forall c, x :: 0 <= c < |g.mask| ==> x !in g.mask[c]
  {
    forall c, x | 0 <= c < |g.mask|
      ensures x !in g.mask[c]
    {
      assert x !in Union(g.mask);
    }
  }

  /** The first group out of use is founded; there is none exactly when all are in use. */
  lemma JoinFreeIff(w: World, id: nat, classes: Bits, policy: int, pid: nat)
    requires Inv(w)
    ensures var r := Apply(w, JoinFree(id, classes, policy, pid));
            if forall k :: 0 <= k < MAX_GROUP ==> w.groups[k].pid != 0 then r == (w, -EPERM)
            else
              && 0 <= r.1 < MAX_GROUP && w.groups[r.1].pid == 0 && (forall k :: 0 <= k < r.1 ==> w.groups[k].pid != 0)
              && (r.0, 0) == Apply(w, Join(r.1, id, classes, policy, pid))
  {
  }

  /** A socket that leaves is gone from every class, everyone else stays; the group and the map stay as
      they are, unless it was the last: then the group is out of use and on no queue. */
  lemma {:induction false} LeaveIff(w: World, gid: int, id: nat, i: nat, q: nat, k: nat)
    requires Inv(w) && i < MAX_DEVICE && q < MAX_QUEUE
    ensures var r := Apply(w, Leave(gid, id));
            if !(0 <= gid < MAX_GROUP) then r == (w, -EINVAL)
            else if w.groups[gid].pid == 0 then r == (w, -EPERM)
            else
              var g, g' := w.groups[gid], r.0.groups[gid];
              && r.1 == 0 && r.0.groups == w.groups[gid := g']
              && (forall c, x :: 0 <= c < CLASS_MAX ==> (x in g'.mask[c] <==> x in g.mask[c] && x != id))
              && (if Members(g) <= {id} then
                    && g'.pid == 0 && g'.owner == -1 && g'.policy == UNDEFINED && FlagOk(r.0, i)
                    && (k in r.0.devmap[i][q] <==> k in w.devmap[i][q] && k != gid)
                  else
                    && g'.pid == g.pid && g'.owner == g.owner && g'.policy == g.policy
                    && r.0 == w.(groups := r.0.groups))
  {
    if 0 <= gid < MAX_GROUP && w.groups[gid].pid != 0 {
      var g := w.groups[gid];
      RemovedMembers(g.mask, id);
      if Members(g) <= {id} {
        LeaveKeeps(w, gid, id);
        ClearedEverywhere(w.devmap, gid, i, q);
        assert FlagOk(LeaveOne(w, gid, id).0, i);
      }
    }
  }

  // --------------------------------------------------------------- the tables in place

  method AddToClasses(mask: seq<Bits>, id: nat, classes: Bits) returns (r: seq<Bits>)
    ensures r == Added(mask, id, classes)
  {
    r := mask;
    var c := 0;
    while c < |mask|
      invariant 0 <= c <= |mask| == |r|
      invariant forall k :: 0 <= k < |mask| ==> r[k] == if k < c && k in classes then mask[k] + {id} else mask[k]
    {
      if c in classes {
        r := r[c := r[c] + {id}];
      }
      c := c + 1;
    }
  }

  method RemoveFromClasses(mask: seq<Bits>, id: nat) returns (r: seq<Bits>)
    ensures r == Removed(mask, id)
  {
    r := mask;
    var i := 0;
    while i < |mask|
      invariant 0 <= i <= |mask| == |r|
      invariant forall k :: 0 <= k < |mask| ==> r[k] == if k < i then mask[k] - {id} else mask[k]
    {
      r := r[i := r[i] - {id}];
      i := i + 1;
    }
  }

  method AllBits(words: seq<Bits>) returns (u: Bits)
    ensures u == Union(words)
  {
    u := {};
    var i := 0;
    while i < |words|
      invariant 0 <= i <= |words| && u == Union(words[..i])
    {
      assert words[..i + 1][..i] == words[..i];
      u := u + words[i];
      i := i + 1;
    }
    assert words[..i] == words;
  }

  method UpdateRow(row: seq<Bits>, i: nat, set_: bool, index: int, queue: int, gid: nat) returns (r: seq<Bits>, n: nat)
    ensures r == MappedRow(row, i, set_, index, queue, gid)
    ensures n == Touched(row, i, set_, index, queue, gid, |row|)
  {
    r, n := row, 0;
    var q := 0;
    while q < |row|
      invariant 0 <= q <= |row| == |r| && n == Touched(row, i, set_, index, queue, gid, q)
      invariant forall k :: 0 <= k < |row| ==> r[k] == if k < q then Cell(row[k], DevmapEqual(i, k, index, queue), set_, gid) else row[k]
    {
      if DevmapEqual(i, q, index, queue) {
        if set_ {
          r := r[q := r[q] + {gid}];
          n := n + 1;
        } else if gid in r[q] {
          r := r[q := r[q] - {gid}];
          n := n + 1;
        } else {
          assert row[q] - {gid} == row[q];
        }
      }
      q := q + 1;
    }
  }

  class Registry {
    var groups: seq<Group>
    var devmap: seq<seq<Bits>>
    var monitor: seq<nat>

    function State(): World
      reads this
    {
      World(groups, devmap, monitor)
    }

    constructor ()
      ensures State() == Start()
    {
      groups := Repeat(MAX_GROUP, Fresh(0));
      devmap := Repeat(MAX_DEVICE, Repeat(MAX_QUEUE, {}));
      monitor := Repeat(MAX_DEVICE, 0);
    }

    method MonitorUpdate()
      requires |monitor| == |devmap|
      modifies this`monitor
      ensures monitor == Monitored(devmap)
    {
      var i := 0;
      while i < |devmap|
        invariant 0 <= i <= |devmap| == |monitor|
        invariant forall k :: 0 <= k < i ==> monitor[k] == Monitored(devmap)[k]
      {
        var val := AllBits(devmap[i]);
        monitor := monitor[i := if val != {} then 1 else 0];
        i := i + 1;
      }
    }

    /** Binds or unbinds a group and counts the cells touched. */
    method DevmapUpdate(set_: bool, index: int, queue: int, gid: int) returns (n: nat)
      requires Shaped(State())
      modifies this`devmap, this`monitor
      ensures 0 <= gid < MAX_GROUP ==> State() == Updated(old(State()), set_, index, queue, gid)
      ensures 0 <= gid < MAX_GROUP ==> n == |Cells(old(devmap), set_, index, queue, gid, MAX_DEVICE)|
      ensures !(0 <= gid < MAX_GROUP) ==> State() == old(State()) && n == 0
    {
      n := 0;
      if !(0 <= gid < MAX_GROUP) {
        return;
      }
      ghost var m := devmap;
      var i := 0;
      while i < MAX_DEVICE
        invariant 0 <= i <= MAX_DEVICE == |devmap| == |m| && groups == old(groups) && monitor == old(monitor)
        invariant forall k :: 0 <= k < MAX_DEVICE ==> devmap[k] == if k < i then MappedRow(m[k], k, set_, index, queue, gid) else m[k]
        invariant n == TouchedAll(m, set_, index, queue, gid, i)
      {
        var row, t := UpdateRow(devmap[i], i, set_, index, queue, gid);
        devmap := devmap[i := row];
        n := n + t;
        i := i + 1;
      }
      assert devmap == Mapped(m, set_, index, queue, gid);
      TouchedCount(m, set_, index, queue, gid, MAX_DEVICE);
      MonitorUpdate();
    }

    method JoinGroup(gid: int, id: nat, classes: Bits, policy: int, pid: nat) returns (rc: int)
      requires Shaped(State())
      modifies this`groups
      ensures (State(), rc) == Apply(old(State()), Join(gid, id, classes, policy, pid))
    {
      if !(0 <= gid < MAX_GROUP) {
        return -EINVAL;
      }
      if groups[gid].pid == 0 {
        groups := groups[gid := Fresh(pid)];
      }
      assert groups == old(groups)[gid := Met(old(groups)[gid], pid)];
      var g := groups[gid];
      if !PolicyAccess(g, id, policy, pid) {
        return -EACCES;
      }
      var mask := AddToClasses(g.mask, id, classes);
      var joined := if classes == {} then g.joined else g.joined[id := pid];
      var owner := if g.owner == -1 then id else g.owner;
      groups := groups[gid := Group(g.pid, owner, if g.policy == UNDEFINED then policy else g.policy, mask, joined)];
      assert groups == old(groups)[gid := JoinedGroup(g, id, classes, policy, pid)];
      rc := 0;
    }

    method JoinFreeGroup(id: nat, classes: Bits, policy: int, pid: nat) returns (rc: int)
      requires Shaped(State())
      modifies this`groups
      ensures (State(), rc) == Apply(old(State()), JoinFree(id, classes, policy, pid))
    {
      var n := 0;
      while n < MAX_ID
        invariant 0 <= n <= MAX_ID && State() == old(State()) && FreeFrom(State(), 0) == FreeFrom(State(), n)
      {
        if groups[n].pid == 0 {
          var r := JoinGroup(n, id, classes, policy, pid);
          return n;
        }
        n := n + 1;
      }
      return -EPERM;
    }

    method GroupFree(gid: nat)
      requires Shaped(State()) && gid < MAX_GROUP
      modifies this
      ensures State() == Updated(old(State()), false, ANY, ANY, gid).(groups := old(groups)[gid := Freed(old(groups)[gid])])
    {
      var n := DevmapUpdate(false, ANY, ANY, gid);
      groups := groups[gid := Freed(groups[gid])];
    }

    method LeaveGroup(gid: int, id: nat) returns (rc: int)
      requires Shaped(State())
      modifies this
      ensures (State(), rc) == Apply(old(State()), Leave(gid, id))
    {
      if !(0 <= gid < MAX_GROUP) {
        return -EINVAL;
      }
      if groups[gid].pid == 0 {
        return -EPERM;
      }
      var g := groups[gid];
      var mask := RemoveFromClasses(g.mask, id);
      groups := groups[gid := g.(mask := mask, joined := g.joined - {id})];
      var all := AllBits(mask);
      if all == {} {
        GroupFree(gid);
      }
      rc := 0;
    }

    method LeaveAllGroups(id: nat)
      requires Shaped(State())
      modifies this
      ensures State() == Apply(old(State()), Release(id)).0
    {
      hide LeaveOne, Shaped;
      var n := 0;
      while n < MAX_ID
        invariant 0 <= n <= MAX_ID && State() == LeaveFirst(old(State()), id, n)
      {
        var rc := LeaveGroup(n, id);
        n := n + 1;
      }
    }

    /** The socket options that bind and unbind: only members may. */
    method SetBinding(set_: bool, gid: int, id: nat, index: int, queue: int) returns (rc: int)
      requires Shaped(State())
      modifies this`devmap, this`monitor
      ensures (State(), rc) == Apply(old(State()), if set_ then Bind(gid, id, index, queue) else Unbind(gid, id, index, queue))
    {
      if !(0 <= gid < MAX_GROUP) {
        return -EACCES;
      }
      var all := AllBits(groups[gid].mask);
      if id !in all {
        return -EACCES;
      }
      var n := DevmapUpdate(set_, index, queue, gid);
      rc := 0;
    }
  }
}
