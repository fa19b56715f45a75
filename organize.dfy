/** The organizer's decision sequence after the fork: compute the cache key,
    reuse a cached plan or ask the model for one, validate it, remember a
    fresh plan, and hand it on to be applied. The model's reply and the
    JSON decoder are parameters; the cache directory is a map from keys to
    decoded plans. */
module Organize {
  import opened Results
  import opened Tmux
  import opened Otop
  import opened CacheKey
  import opened Enrichment
  import opened ExtractJson
  import opened Plans

  /** `~/.cache/torganize`: the decoded plan stored under each cache key. */
  class PlanCache {
    var entries: map<string, Plan>

    constructor (entries: map<string, Plan>)
      ensures this.entries == entries
    {
      this.entries := entries;
    }

    /** `read_cached_plan`: the stored plan, or `None` when there is no
        file for the key. */
    method Read(key: string) returns (r: Option<Plan>)
      ensures r == Lookup(entries, key)
    {
      r := if key in entries then Some(entries[key]) else None;
    }

    /** `write_cached_plan`: stores (or overwrites) the plan for the key. */
    method Write(key: string, plan: Plan)
      modifies this
      ensures entries == old(entries)[key := plan]
    {
      entries := entries[key := plan];
    }
  }

  function Lookup(entries: map<string, Plan>, key: string): (r: Option<Plan>)
    ensures r.Some? <==> key in entries
    ensures r.Some? ==> r.value == entries[key]
  {
    if key in entries then Some(entries[key]) else None
  }

  /** Where a run ends: with a message in the `@torganize` status option,
      or with a validated plan about to be applied. */
  datatype Outcome = Failed(status: string) | Applying(plan: Plan)

  /** The model's answer: a plan, or the status message that ends the run. */
  ghost function Answer(reply: Reply, decode: string -> Option<Plan>): (r: Result<Plan, string>)
    ensures reply.TimedOut? ==> r == Err("opencode timed out")
    ensures reply.Output? ==> (r.Ok? <==> Extracted(reply.stdout, decode).Some?)
    ensures reply.Output? && r.Ok? ==> r.value == Extracted(reply.stdout, decode).value
    ensures reply.Output? && r.Err? ==> r.error == "no json in model output"
    ensures reply.Output? && '{' !in reply.stdout ==> r == Err("no json in model output")
    ensures r.Ok? ==> reply.Output? && '{' in reply.stdout
  {
    match reply
    case TimedOut => Err("opencode timed out")
    case Output(stdout) =>
      match Extracted(stdout, decode)
      case None => Err("no json in model output")
      case Some(plan) => Ok(plan)
  }

  /** `ask_model_for_plan`: exactly one of the plan and the error is set. */
  method AskModelForPlan(reply: Reply, decode: string -> Option<Plan>) returns (plan: Option<Plan>, error: Option<string>)
    ensures plan.Some? <==> error.None?
    ensures plan.Some? ==> Answer(reply, decode) == Ok(plan.value)
    ensures error.Some? ==> Answer(reply, decode) == Err(error.value)
  {
    if reply.TimedOut? {
      return None, Some("opencode timed out");
    }
    plan := ExtractJsonFromOutput(reply.stdout, decode);
    if plan.None? {
      return None, Some("no json in model output");
    }
    error := None;
  }

  /** How a run ends for a given cache entry and model reply: a truthy
      cached plan is used as it is, anything else sends the question to
      the model; either way only a plan that passes validation is applied. */
  ghost function Decision(cached: Option<Plan>, reply: Reply, decode: string -> Option<Plan>, context: Session): (r: Outcome)
    ensures r.Applying? ==> ValidatePlanCorrected(r.plan, context) == None
    ensures r.Applying? && cached.Some? && !cached.value.Falsy() ==> r.plan == cached.value
    ensures r.Applying? && (cached.None? || cached.value.Falsy()) ==> Answer(reply, decode) == Ok(r.plan)
    ensures r.Failed? && cached.Some? && !cached.value.Falsy() ==> ValidatePlanCorrected(cached.value, context) == Some(r.status)
    ensures cached.Some? && !cached.value.Falsy() ==> (r.Applying? <==> ValidatePlanCorrected(cached.value, context) == None)
    ensures (cached.None? || cached.value.Falsy()) ==>
      (r.Applying? <==> Answer(reply, decode).Ok? && ValidatePlanCorrected(Answer(reply, decode).value, context) == None)
    ensures (cached.None? || cached.value.Falsy()) && Answer(reply, decode).Err? ==> r == Failed(Answer(reply, decode).error)
    ensures (cached.None? || cached.value.Falsy()) && Answer(reply, decode).Ok? && r.Failed? ==>
      ValidatePlanCorrected(Answer(reply, decode).value, context) == Some(r.status)
  {
    var plan := if cached.Some? && !cached.value.Falsy() then Ok(cached.value) else Answer(reply, decode);
    match plan
    case Err(e) => Failed(e)
    case Ok(p) =>
      match ValidatePlanCorrected(p, context)
      case Some(e) => Failed(e)
      case None => Applying(p)
  }

  /** The cache after a run: no stored plan is lost or overwritten, and
      the only plan that can be added is the one being applied, under the
      run's key. */
  function CacheAfter(entries: map<string, Plan>, key: string, outcome: Outcome): (r: map<string, Plan>)
    ensures forall k :: k in entries ==> k in r && r[k] == entries[k]
    ensures forall k :: k in r && k !in entries ==> k == key && outcome.Applying? && r[k] == outcome.plan
    ensures outcome.Applying? ==> key in r
  {
    if outcome.Applying? && key !in entries then entries[key := outcome.plan] else entries
  }

  /** Lines 370-391 of `main`, preceded by the enrichment text it uses. */
  method Organize(context: Session, records: seq<OcRecord>, sessionName: string, sha: string -> Digest,
                  cache: PlanCache, reply: Reply, decode: string -> Option<Plan>) returns (r: Outcome)
    modifies cache
    ensures var key := KeyOf(context, Context(records, sessionName), sha);
      && r == Decision(Lookup(old(cache.entries), key), reply, decode, context)
      && cache.entries == CacheAfter(old(cache.entries), key, r)
  {
    var opencodeContext := BuildOpencodeContext(records, sessionName);
    var key := BuildCacheKey(context, opencodeContext, sha);
    r := Resolve(key, context, cache, reply, decode);
  }

  /** From the cache lookup to the cache write: reuse or ask, validate,
      store a plan that did not come from the cache. */
  method Resolve(key: string, context: Session, cache: PlanCache, reply: Reply, decode: string -> Option<Plan>)
    returns (r: Outcome)
    modifies cache
    ensures r == Decision(Lookup(old(cache.entries), key), reply, decode, context)
    ensures cache.entries == CacheAfter(old(cache.entries), key, r)
  {
    var plan := cache.Read(key);
    var isCached := plan.Some?;
    if plan.None? || plan.value.Falsy() {
      var error;
      plan, error := AskModelForPlan(reply, decode);
      if error.Some? {
        return Failed(error.value);
      }
    }
    var validationError := ValidatePlanCorrected(plan.value, context);
    if validationError.Some? {
      return Failed(validationError.value);
    }
    if !isCached {
      cache.Write(key, plan.value);
    }
    r := Applying(plan.value);
  }

  /** A plan that passes validation names a session, so it is never the
      falsy empty object. */
  lemma ValidatedIsTruthy(plan: Plan, context: Session)
    requires ValidatePlanCorrected(plan, context) == None
    ensures !plan.Falsy()
  {
    assert ValidatePlan(plan, context) == None;
  }

  /** Running again on the same snapshot reuses the plan the first run
      stored: the model is not consulted (any reply gives the same end),
      the same plan is applied, and the cache stays as it is. */
  lemma SecondRunUsesCache(entries: map<string, Plan>, key: string, reply1: Reply, reply2: Reply,
                           decode: string -> Option<Plan>, context: Session)
    requires key !in entries
    requires Decision(None, reply1, decode, context).Applying?
    ensures var first := Decision(None, reply1, decode, context);
      var stored := CacheAfter(entries, key, first);
      && Decision(Lookup(stored, key), reply2, decode, context) == first
      && CacheAfter(stored, key, first) == stored
  {
    var first := Decision(None, reply1, decode, context);
    ValidatedIsTruthy(first.plan, context);
  }

  /** A cache entry that holds the empty object is never replaced: every
      run asks the model again, and even a valid answer is applied without
      being stored. */
  lemma EmptyEntryStays(entries: map<string, Plan>, key: string, reply: Reply,
                        decode: string -> Option<Plan>, context: Session)
    requires key in entries && entries[key].Falsy()
    ensures var r := Decision(Lookup(entries, key), reply, decode, context);
      && (r.Applying? ==> Answer(reply, decode) == Ok(r.plan))
      && CacheAfter(entries, key, r) == entries
  {
  }
}
