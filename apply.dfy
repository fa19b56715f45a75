/** `apply_organization_plan`: renames every window, moves them all out of
    the way to temporary indices from 900, moves each from there to its
    planned index, and renames the session last. The part of the tmux
    server those commands change is a `Layout` value that each command
    maps to the next. */
module Apply {
  import opened Seqs
  import opened Plans

  lemma ValueAt(m: map<int, string>, w: string)
    requires w in m.Values
    ensures exists i :: i in m && m[i] == w
  {
    if forall i :: i in m ==> m[i] != w {
      assert false;
    }
  }

  /** Moving a window from one index to a free one keeps the set of placed
      windows and keeps every window at one index. */
  lemma SlotsMoved(slots: map<int, string>, src: int, dst: int)
    requires src in slots && dst !in slots
    requires forall i, j :: i in slots && j in slots && i != j ==> slots[i] != slots[j]
    ensures var moved := (slots - {src})[dst := slots[src]];
      && moved.Values == slots.Values
      && (forall i, j :: i in moved && j in moved && i != j ==> moved[i] != moved[j])
  {
    var moved := (slots - {src})[dst := slots[src]];
    forall w | w in slots.Values ensures w in moved.Values {
      ValueAt(slots, w);
      var i :| i in slots && slots[i] == w;
      if i == src {
        assert moved[dst] == w;
      } else {
        assert moved[i] == w;
      }
    }
    forall w | w in moved.Values ensures w in slots.Values {
      ValueAt(moved, w);
      var i :| i in moved && moved[i] == w;
      if i == dst {
        assert slots[src] == w;
      } else {
        assert slots[i] == w;
      }
    }
  }

  /** Where the second loop parks plan entry `k`. */
  function Parked(k: int): int {
    TempBase + k
  }

  /** What the loops need from a safe plan, entry by entry. */
  lemma SafeParts(plan: seq<WindowPlan>, slots: map<int, string>, liveIds: set<string>)
    requires SafeToApply(plan, slots, liveIds)
    ensures forall j :: 0 <= j < |plan| ==> plan[j].id in liveIds
    ensures forall j, k :: 0 <= j < k < |plan| ==> plan[j].id != plan[k].id
    ensures forall j, k :: 0 <= j < k < |plan| ==> plan[j].index != plan[k].index
    ensures forall i :: i in liveIds ==> exists j :: 0 <= j < |plan| && plan[j].id == i
  {
    var ids := Map(plan, PlanId);
    var indices := Map(plan, PlanIndex);
    assert forall j :: 0 <= j < |plan| ==> plan[j].id == ids[j] && plan[j].index == indices[j];
    forall i | i in liveIds ensures exists j :: 0 <= j < |plan| && plan[j].id == i {
      var j :| 0 <= j < |ids| && ids[j] == i;
      assert plan[j].id == i;
    }
  }

  /** The indices the third loop leaves in use are exactly the plan's. */
  lemma IndicesUsed(plan: seq<WindowPlan>, slots: map<int, string>)
    requires forall j :: 0 <= j < |plan| ==> plan[j].index in slots
    requires forall i :: i in slots ==> exists j :: 0 <= j < |plan| && plan[j].index == i
    ensures slots.Keys == Elems(Map(plan, PlanIndex))
  {
    var indices := Map(plan, PlanIndex);
    forall i ensures i in slots <==> i in indices {
      if i in indices {
        var j :| 0 <= j < |indices| && indices[j] == i;
      }
      if i in slots {
        var j :| 0 <= j < |plan| && plan[j].index == i;
        assert indices[j] == i;
      }
    }
  }

  /** The part of a tmux session the plan's commands change: which window
      sits at each index, each window's name, and the session's name.
      Windows are known by their stable `@` ids. */
  class TmuxSession {
    var slots: map<int, string>
    var names: map<string, string>
    var sessionName: string

    /** No window sits at two indices, and the named windows are exactly
        the placed ones. */
    ghost predicate Valid()
      reads this
    {
      && (forall i, j :: i in slots && j in slots && i != j ==> slots[i] != slots[j])
      && slots.Values == names.Keys
    }

    constructor (slots: map<int, string>, names: map<string, string>, sessionName: string)
      requires forall i, j :: i in slots && j in slots && i != j ==> slots[i] != slots[j]
      requires slots.Values == names.Keys
      ensures Valid()
      ensures this.slots == slots && this.names == names && this.sessionName == sessionName
    {
      this.slots := slots;
      this.names := names;
      this.sessionName := sessionName;
    }

    /** `tmux rename-window -t <id> <name>`. */
    method RenameWindow(id: string, name: string)
      requires Valid() && id in names
      modifies this
      ensures Valid()
      ensures names == old(names)[id := name] && slots == old(slots) && sessionName == old(sessionName)
    {
      names := names[id := name];
    }

    /** `tmux move-window -s <id> -t <session>:<dst>`: the window leaves its
        index for the free index `dst`; every other window stays put. */
    method MoveWindow(id: string, dst: int)
      requires Valid() && id in names && dst !in slots
      modifies this
      ensures Valid()
      ensures dst in slots && slots[dst] == id
      ensures forall i :: i != dst ==>
        (i in slots <==> i in old(slots) && old(slots)[i] != id) && (i in slots ==> slots[i] == old(slots)[i])
      ensures names == old(names) && sessionName == old(sessionName)
    {
      ValueAt(slots, id);
      var src :| src in slots && slots[src] == id;
      SlotsMoved(slots, src, dst);
      slots := (slots - {src})[dst := id];
    }

    /** `tmux move-window -s <session>:<src> -t <session>:<dst>`: the window
        at `src` moves to the free index `dst`; every other window stays put. */
    method MoveSlot(src: int, dst: int)
      requires Valid() && src in slots && dst !in slots
      modifies this
      ensures Valid()
      ensures slots == (old(slots) - {src})[dst := old(slots)[src]]
      ensures names == old(names) && sessionName == old(sessionName)
    {
      SlotsMoved(slots, src, dst);
      slots := (slots - {src})[dst := slots[src]];
    }

    /** `tmux rename-session -t <session> <name>`. */
    method RenameSession(name: string)
      requires Valid()
      modifies this
      ensures Valid()
      ensures sessionName == name && slots == old(slots) && names == old(names)
    {
      sessionName := name;
    }

    /** Applies a plan: afterwards every listed window sits at its planned
        index under its planned name, no other index is used, no window is
        lost, and the session has the plan's name. No move targets an
        occupied index: each is a call whose precondition says so. */
    method ApplyOrganizationPlan(plan: seq<WindowPlan>, session: string)
      requires Valid() && SafeToApply(plan, slots, names.Keys)
      modifies this
      ensures Valid()
      ensures Realizes(plan, slots, names)
      ensures slots.Keys == Elems(Map(plan, PlanIndex))
      ensures names.Keys == old(names.Keys)
      ensures sessionName == session
    {
      SafeParts(plan, slots, names.Keys);
      RenameAll(plan);
      MoveToTemporary(plan);
      TemporaryOnly(slots, names, plan);
      MoveToPlanned(plan);
      IndicesUsed(plan, slots);
      // the session is renamed last: the window commands address it by its stable id
      RenameSession(session);
    }

    /** The first loop: `rename-window` for each entry, in plan order. */
    method RenameAll(plan: seq<WindowPlan>)
      requires Valid()
      requires forall j :: 0 <= j < |plan| ==> plan[j].id in names
      requires forall j, k :: 0 <= j < k < |plan| ==> plan[j].id != plan[k].id
      modifies this
      ensures Valid() && slots == old(slots) && names.Keys == old(names.Keys) && sessionName == old(sessionName)
      ensures forall j :: 0 <= j < |plan| ==> names[plan[j].id] == plan[j].name
    {
      for k := 0 to |plan|
        invariant Valid() && slots == old(slots) && names.Keys == old(names.Keys) && sessionName == old(sessionName)
        invariant forall j :: 0 <= j < k ==> names[plan[j].id] == plan[j].name
      {
        ghost var before := names;
        RenameWindow(plan[k].id, plan[k].name);
        forall j | 0 <= j < k + 1 ensures names[plan[j].id] == plan[j].name {
          if j < k {
            assert names[plan[j].id] == before[plan[j].id];
          }
        }
      }
    }

    /** The second loop: entry `k` moves to index `900 + k`. */
    method MoveToTemporary(plan: seq<WindowPlan>)
      requires Valid()
      requires forall j :: 0 <= j < |plan| ==> plan[j].id in names
      requires forall j, k :: 0 <= j < k < |plan| ==> plan[j].id != plan[k].id
      requires forall i :: i in slots ==> !(TempBase <= i < TempBase + |plan|)
      modifies this
      ensures Valid() && names == old(names) && sessionName == old(sessionName)
      ensures forall j :: 0 <= j < |plan| ==> Parked(j) in slots && slots[Parked(j)] == plan[j].id
    {
      for k := 0 to |plan|
        invariant Valid() && names == old(names) && sessionName == old(sessionName)
        invariant forall j :: 0 <= j < k ==> Parked(j) in slots && slots[Parked(j)] == plan[j].id
        invariant forall i :: i in slots ==> (TempBase <= i < TempBase + k) || i in old(slots)
      {
        ghost var before := slots;
        MoveWindow(plan[k].id, Parked(k));
        forall j | 0 <= j < k + 1 ensures Parked(j) in slots && slots[Parked(j)] == plan[j].id {
          if j < k {
            assert before[Parked(j)] == plan[j].id;
          }
        }
        forall i | i in slots ensures (TempBase <= i < TempBase + k + 1) || i in old(slots) {
          if i != Parked(k) {
            assert i in before;
          }
        }
      }
    }

    /** The third loop: the window at `900 + k` moves to entry `k`'s index. */
    method MoveToPlanned(plan: seq<WindowPlan>)
      requires Valid()
      requires forall j, k :: 0 <= j < k < |plan| ==> plan[j].index != plan[k].index
      requires forall k :: 0 <= k < |plan| ==> !(TempBase <= plan[k].index < TempBase + |plan|)
      requires forall j :: 0 <= j < |plan| ==> Parked(j) in slots && slots[Parked(j)] == plan[j].id
      requires forall i :: i in slots ==> TempBase <= i < TempBase + |plan|
      modifies this
      ensures Valid() && names == old(names) && sessionName == old(sessionName)
      ensures forall j :: 0 <= j < |plan| ==> plan[j].index in slots && slots[plan[j].index] == plan[j].id
      ensures forall i :: i in slots ==> exists j :: 0 <= j < |plan| && plan[j].index == i
    {
      for k := 0 to |plan|
        invariant Valid() && names == old(names) && sessionName == old(sessionName)
        invariant PlacedUpTo(slots, plan, k)
      {
        PlacedStep(slots, plan, k);
        MoveSlot(Parked(k), plan[k].index);
      }
    }
  }

  /** Halfway through the third loop: entries from `k` on still wait at
      their temporary indices, entries before `k` sit at their planned
      ones, and no other index is in use. */
  ghost predicate PlacedUpTo(slots: map<int, string>, plan: seq<WindowPlan>, k: int) {
    && 0 <= k <= |plan|
    && (forall j :: k <= j < |plan| ==> Parked(j) in slots && slots[Parked(j)] == plan[j].id)
    && (forall j :: 0 <= j < k ==> plan[j].index in slots && slots[plan[j].index] == plan[j].id)
    && (forall i :: i in slots ==> (Parked(k) <= i < TempBase + |plan|) || exists j :: 0 <= j < k && plan[j].index == i)
  }

  /** One step of the third loop: entry `k`'s planned index is free, and
      moving its window there advances the loop's invariant. */
  lemma PlacedStep(slots: map<int, string>, plan: seq<WindowPlan>, k: int)
    requires 0 <= k < |plan| && PlacedUpTo(slots, plan, k)
    requires forall j, l :: 0 <= j < l < |plan| ==> plan[j].index != plan[l].index
    requires forall l :: 0 <= l < |plan| ==> !(TempBase <= plan[l].index < TempBase + |plan|)
    ensures Parked(k) in slots && plan[k].index !in slots
    ensures PlacedUpTo((slots - {Parked(k)})[plan[k].index := slots[Parked(k)]], plan, k + 1)
  {
    var moved := (slots - {Parked(k)})[plan[k].index := slots[Parked(k)]];
    forall j | 0 <= j < k + 1 ensures plan[j].index in moved && moved[plan[j].index] == plan[j].id {
    }
    forall i | i in moved
      ensures (Parked(k + 1) <= i < TempBase + |plan|) || exists j :: 0 <= j < k + 1 && plan[j].index == i
    {
      if i != plan[k].index {
        assert i in slots && i != Parked(k);
      }
    }
  }

  /** After the second loop only temporary indices are in use: every live
      window is one of the plan's and sits at its temporary index. */
  lemma TemporaryOnly(slots: map<int, string>, names: map<string, string>, plan: seq<WindowPlan>)
    requires slots.Values == names.Keys
    requires forall id :: id in names ==> exists j :: 0 <= j < |plan| && plan[j].id == id
    requires forall j :: 0 <= j < |plan| ==> Parked(j) in slots && slots[Parked(j)] == plan[j].id
    requires forall i, j :: i in slots && j in slots && i != j ==> slots[i] != slots[j]
    ensures forall i :: i in slots ==> TempBase <= i < TempBase + |plan|
  {
    forall i | i in slots ensures TempBase <= i < TempBase + |plan| {
      assert slots[i] in slots.Values;
      var j :| 0 <= j < |plan| && plan[j].id == slots[i];
      assert slots[Parked(j)] == slots[i];
    }
  }
}
