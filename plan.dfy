/** The organization plan the model answers with, and `validate_plan`, the
    check a plan must pass before anything is applied. */
module Plans {
  import opened Results
  import opened Text
  import opened Seqs
  import opened Ordering
  import opened Tmux

  /** One entry of the plan's `windows` list. */
  datatype WindowPlan = WindowPlan(id: string, name: string, index: int)

  /** The decoded JSON object. An absent `session` or `windows` key is
      `None`; `otherKeys` are the object's remaining keys, which matter only
      for whether the object is empty. */
  datatype Plan = Plan(session: Option<string>, windows: Option<seq<WindowPlan>>, otherKeys: set<string>)
  {
    /** A Python dict is falsy when it has no keys. */
    predicate Falsy() {
      session.None? && windows.None? && otherKeys == {}
    }
  }

  function PlanId(w: WindowPlan): string { w.id }
  function PlanIndex(w: WindowPlan): int { w.index }
  function WindowId(w: Window): string { w.id }

  /** The plan names exactly the windows of the snapshot (as sets: an id
      listed twice still counts once). */
  predicate SameIds(ws: seq<WindowPlan>, context: Session) {
    Elems(Map(ws, PlanId)) == Elems(Map(context.windows, WindowId))
  }

  /** `",".join(sorted(ids))` for a collection of ids. */
  function IdList(ids: seq<string>): string {
    Join(SortedSet(ids), ",")
  }

  /** The snapshot ids the plan leaves out, in snapshot order. */
  function Missing(contextIds: seq<string>, planIds: seq<string>): seq<string> {
    Filter(contextIds, id => id !in planIds)
  }

  /** The plan ids that are not in the snapshot, in plan order. */
  function Extra(contextIds: seq<string>, planIds: seq<string>): seq<string> {
    Filter(planIds, id => id !in contextIds)
  }

  function MismatchParts(contextIds: seq<string>, planIds: seq<string>): seq<string> {
    var missing := Missing(contextIds, planIds);
    var extra := Extra(contextIds, planIds);
    (if missing != [] then ["missing " + IdList(missing)] else [])
      + (if extra != [] then ["extra " + IdList(extra)] else [])
  }

  /** `validate_plan`, as written: both keys present, the same window ids
      as the snapshot, and no index used twice. */
  function ValidatePlan(plan: Plan, context: Session): (r: Option<string>)
    ensures plan.session.None? || plan.windows.None? ==> r == Some("missing session/windows keys")
    ensures r.None? <==>
      (plan.session.Some? && plan.windows.Some? && SameIds(plan.windows.value, context)
       && Distinct(Map(plan.windows.value, PlanIndex)))
    ensures plan.session.Some? && plan.windows.Some? && !SameIds(plan.windows.value, context) ==>
      r == Some("window id mismatch: " + Join(MismatchParts(Map(context.windows, WindowId), Map(plan.windows.value, PlanId)), "; "))
    ensures (plan.session.Some? && plan.windows.Some? && SameIds(plan.windows.value, context)
             && !Distinct(Map(plan.windows.value, PlanIndex))) ==> r == Some("duplicate indices")
  {
    if plan.session.None? || plan.windows.None? then Some("missing session/windows keys")
    else
      var contextIds := Map(context.windows, WindowId);
      var planIds := Map(plan.windows.value, PlanId);
      var planIndices := Map(plan.windows.value, PlanIndex);
      DistinctIffNoCollapse(planIndices);
      if Elems(contextIds) != Elems(planIds) then
        Some("window id mismatch: " + Join(MismatchParts(contextIds, planIds), "; "))
      else if |planIndices| != |Elems(planIndices)| then
        Some("duplicate indices")
      else
        None
  }

  /** When the id sets differ the report is never empty: it names, each in
      ascending order and once, exactly the snapshot ids the plan misses and
      exactly the plan ids the snapshot lacks. */
  lemma MismatchReport(contextIds: seq<string>, planIds: seq<string>)
    requires Elems(contextIds) != Elems(planIds)
    ensures MismatchParts(contextIds, planIds) != []
    ensures Elems(SortedSet(Missing(contextIds, planIds))) == Elems(contextIds) - Elems(planIds)
    ensures Elems(SortedSet(Extra(contextIds, planIds))) == Elems(planIds) - Elems(contextIds)
    ensures StrictlySorted(SortedSet(Missing(contextIds, planIds)))
      && StrictlySorted(SortedSet(Extra(contextIds, planIds)))
  {
    var missing := Missing(contextIds, planIds);
    var extra := Extra(contextIds, planIds);
    assert Elems(missing) == Elems(contextIds) - Elems(planIds) by {
      forall id ensures id in missing <==> id in contextIds && id !in planIds {
        if id in contextIds && id !in planIds {
          var i :| 0 <= i < |contextIds| && contextIds[i] == id;
        }
      }
    }
    assert Elems(extra) == Elems(planIds) - Elems(contextIds) by {
      forall id ensures id in extra <==> id in planIds && id !in contextIds {
        if id in planIds && id !in contextIds {
          var i :| 0 <= i < |planIds| && planIds[i] == id;
        }
      }
    }
  }

  /** `validate_plan` with the repeated-id check it lacks: every check of
      the original, then no window id listed twice. */
  function ValidatePlanCorrected(plan: Plan, context: Session): (r: Option<string>)
    ensures ValidatePlan(plan, context).Some? ==> r == ValidatePlan(plan, context)
    ensures r.None? <==> ValidatePlan(plan, context).None? && Distinct(Map(plan.windows.value, PlanId))
  {
    match ValidatePlan(plan, context)
    case Some(e) => Some(e)
    case None =>
      var planIds := Map(plan.windows.value, PlanId);
      DistinctIffNoCollapse(planIds);
      if |planIds| != |Elems(planIds)| then Some("duplicate ids") else None
  }

  /** The windows sit where the plan puts them, under the plan's names. */
  ghost predicate Realizes(ws: seq<WindowPlan>, slots: map<int, string>, names: map<string, string>) {
    forall k :: 0 <= k < |ws| ==>
      ws[k].index in slots && slots[ws[k].index] == ws[k].id && ws[k].id in names && names[ws[k].id] == ws[k].name
  }

  /** A plan that lists one window twice under two names describes no
      layout at all. */
  lemma RepeatedIdUnrealizable(ws: seq<WindowPlan>, a: nat, b: nat, slots: map<int, string>, names: map<string, string>)
    requires a < |ws| && b < |ws| && ws[a].id == ws[b].id && ws[a].name != ws[b].name
    ensures !Realizes(ws, slots, names)
  {
  }

  /** The repeated-id hole: a plan for a one-window session that lists the
      window twice, at two indices under two names, passes `validate_plan`,
      which compares id sets; the corrected check rejects it. */
  lemma RepeatedIdPasses()
    ensures var context := Session("$1", "/p", [Window("@1", 0, "a", [])]);
      var plan := Plan(Some("s"), Some([WindowPlan("@1", "a", 0), WindowPlan("@1", "b", 1)]), {});
      ValidatePlan(plan, context) == None && ValidatePlanCorrected(plan, context) == Some("duplicate ids")
        && forall slots, names :: !Realizes(plan.windows.value, slots, names)
  {
    var context := Session("$1", "/p", [Window("@1", 0, "a", [])]);
    var ws := [WindowPlan("@1", "a", 0), WindowPlan("@1", "b", 1)];
    assert Map(context.windows, WindowId) == ["@1"];
    assert Map(ws, PlanId) == ["@1", "@1"];
    assert Map(ws, PlanIndex) == [0, 1];
    assert Elems(["@1", "@1"]) == Elems(["@1"]);
    assert !Distinct(["@1", "@1"]) by { assert ["@1", "@1"][0] == ["@1", "@1"][1]; }
    forall slots, names ensures !Realizes(ws, slots, names) {
      RepeatedIdUnrealizable(ws, 0, 1, slots, names);
    }
  }

  /** First temporary index of `apply_organization_plan`. */
  const TempBase: int := 900

  /** What applying a plan needs from the live session: the plan lists each
      live window once, uses each index once, and neither the plan's
      indices nor the windows' current ones fall among the temporary
      indices `900 .. 900 + len(windows) - 1`. */
  predicate SafeToApply(ws: seq<WindowPlan>, slots: map<int, string>, liveIds: set<string>) {
    && Distinct(Map(ws, PlanId))
    && Elems(Map(ws, PlanId)) == liveIds
    && Distinct(Map(ws, PlanIndex))
    && (forall k :: 0 <= k < |ws| ==> !(TempBase <= ws[k].index < TempBase + |ws|))
    && (forall i :: i in slots ==> !(TempBase <= i < TempBase + |ws|))
  }

  /** A plan the corrected check accepts, for a snapshot of the live
      windows, is safe to apply when no index reaches 900. */
  lemma ValidatedPlanIsSafe(plan: Plan, context: Session, slots: map<int, string>, liveIds: set<string>)
    requires ValidatePlanCorrected(plan, context) == None
    requires Elems(Map(context.windows, WindowId)) == liveIds
    requires forall k :: 0 <= k < |plan.windows.value| ==> plan.windows.value[k].index < TempBase
    requires forall i :: i in slots ==> i < TempBase
    ensures SafeToApply(plan.windows.value, slots, liveIds)
  {
  }
}
