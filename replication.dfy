/** The replication engine and the per-event loop as functions of the service
    state: what `modify_route53_change_recordset` and `process_message` do,
    call by call, and the properties they have. The methods of module
    MessageProcessing are proved equal to these functions. */
module Replication {
  import opened Wrappers
  import opened Actions
  import opened Route53
  import opened Decisions

  const BatchComment: string :=
    "Autogenerated from aws-route53-organization-recordset-registration for AWS Route53 recordsets."

  /** The lookup before a DELETE asks for one record set. */
  const ListMaxItems: nat := 1

  /** The propagation waiter's budget: a poll every 30 seconds, 20 polls. */
  const WaiterDelay: nat := 30
  const WaiterMaxAttempts: nat := 20

  /** The arguments of one engine call. */
  datatype Request = Request(
    action: string, name: string, rtype: string,
    aliasHostedZoneId: string, aliasDnsName: string, evaluateTargetHealth: bool,
    hostedZoneId: string)

  /** The alias record set a change carries. */
  function AliasRecord(name: string, rtype: string, aliasHostedZoneId: string, aliasDnsName: string,
                       evaluateTargetHealth: bool): RecordSet
  {
    RecordSet(name, rtype, Some(AliasTarget(aliasHostedZoneId, aliasDnsName, evaluateTargetHealth)))
  }

  /** The batch `change_resource_record_sets` sends: one change, built from its arguments. */
  function SingleChangeBatch(action: string, name: string, rtype: string,
                             aliasHostedZoneId: string, aliasDnsName: string, evaluateTargetHealth: bool)
    : (b: ChangeBatch)
    ensures b.comment == BatchComment && |b.changes| == 1
    ensures b.changes[0].action == action
    ensures var rs := b.changes[0].recordSet;
      rs.name == name && rs.rtype == rtype && rs.aliasTarget.Some?
      && rs.aliasTarget.value.hostedZoneId == aliasHostedZoneId && rs.aliasTarget.value.dnsName == aliasDnsName
      && rs.aliasTarget.value.evaluateTargetHealth == evaluateTargetHealth
  {
    ChangeBatch(BatchComment,
      [Change(action, AliasRecord(name, rtype, aliasHostedZoneId, aliasDnsName, evaluateTargetHealth))])
  }

  /** The record set a request stands for, with the flag actually sent. */
  function RecordFor(req: Request, evaluateTargetHealth: bool): RecordSet
  {
    AliasRecord(req.name, req.rtype, req.aliasHostedZoneId, req.aliasDnsName, evaluateTargetHealth)
  }

  function BatchFor(req: Request, evaluateTargetHealth: bool): ChangeBatch
  {
    SingleChangeBatch(req.action, req.name, req.rtype, req.aliasHostedZoneId, req.aliasDnsName, evaluateTargetHealth)
  }

  /** The flag a DELETE sends after looking at the listing: the first listed
      record's flag where it differs from the requested one. Reading the flag
      of a listed record that is not an alias record fails with a KeyError. */
  function DeleteEvalHealth(listed: seq<RecordSet>, requested: bool): (r: Result<bool>)
    ensures r.Err? <==> |listed| > 0 && listed[0].aliasTarget.None?
    ensures r.Err? ==> r.error == KeyError("AliasTarget")
    ensures r.Ok? && |listed| == 0 ==> r.value == requested
    ensures r.Ok? && |listed| > 0 ==> r.value == listed[0].aliasTarget.value.evaluateTargetHealth
  {
    if |listed| > 0 then
      match listed[0].aliasTarget
      case None => Err(KeyError("AliasTarget"))
      case Some(existing) =>
        Ok(if existing.evaluateTargetHealth != requested then existing.evaluateTargetHealth else requested)
    else Ok(requested)
  }

  /** The outcome of the body of the engine's `try`: the state after its
      calls, the flag it last held, and what the service answered. */
  datatype Attempted = Attempted(world: World, sentEvalHealth: bool, response: Result<ChangeInfo>)

  function Attempt(w: World, req: Request): (a: Attempted)
    requires ValidZones(w.zones)
    ensures ValidZones(a.world.zones)
    ensures req.action == Upsert.Value() && a.response.Err? ==> !a.response.error.InvalidChangeBatch?
    ensures a.response.Err? && a.response.error.KeyError? ==> req.action == Delete.Value()
    ensures a.world.zones.Keys == w.zones.Keys
    ensures forall z :: z in w.zones && z != req.hostedZoneId ==> a.world.zones[z] == w.zones[z]
  {
    if req.action == Delete.Value() then
      var (w1, listed) := ListStep(w, req.hostedZoneId, req.name, req.rtype, ListMaxItems);
      if listed.Err? then Attempted(w1, req.evaluateTargetHealth, Err(listed.error))
      else
        match DeleteEvalHealth(listed.value, req.evaluateTargetHealth)
        case Err(e) => Attempted(w1, req.evaluateTargetHealth, Err(e))
        case Ok(eval) =>
          var (w2, r) := ChangeStep(w1, req.hostedZoneId, BatchFor(req, eval));
          Attempted(w2, eval, r)
    else
      var (w1, r) := ChangeStep(w, req.hostedZoneId, BatchFor(req, req.evaluateTargetHealth));
      Attempted(w1, req.evaluateTargetHealth, r)
  }

  /** The retry of a CREATE that found its record set there: the same change
      as an UPSERT, with the flag the failed attempt held. The action is the
      enum member's value, as a client that writes the member by its value
      sends it. */
  function AsUpsert(req: Request, evaluateTargetHealth: bool): (up: Request)
    ensures up.action == Upsert.Value() && up.hostedZoneId == req.hostedZoneId && up.evaluateTargetHealth == evaluateTargetHealth
    ensures RecordFor(up, evaluateTargetHealth) == RecordFor(req, evaluateTargetHealth)
  {
    req.(action := Upsert.Value(), evaluateTargetHealth := evaluateTargetHealth)
  }

  /** The engine: `Some(info)` for an applied change, `None` for a DELETE the
      service reports as not found, an error for every other failure. */
  function Modify(w: World, req: Request): (out: (World, Result<Option<ChangeInfo>>))
    requires ValidZones(w.zones)
    ensures ValidZones(out.0.zones)
    // a failure that escapes is never one of the two absorbed ones
    ensures out.1.Err? ==>
              !(out.1.error.InvalidChangeBatch?
                && (IsDeleteNotFound(out.1.error.message) || IsCreateAlreadyExists(out.1.error.message)))
    ensures out.1.Err? && out.1.error.KeyError? ==> req.action == Delete.Value()
    // only the destination zone can change
    ensures out.0.zones.Keys == w.zones.Keys
    ensures forall z :: z in w.zones && z != req.hostedZoneId ==> out.0.zones[z] == w.zones[z]
    decreases if req.action == Upsert.Value() then 0 else 1
  {
    var a := Attempt(w, req);
    match a.response
    case Ok(info) => (a.world, Ok(Some(info)))
    case Err(e) =>
      if e.InvalidChangeBatch? && IsDeleteNotFound(e.message) then (a.world, Ok(None))
      else if e.InvalidChangeBatch? && IsCreateAlreadyExists(e.message) then
        Modify(a.world, AsUpsert(req, a.sentEvalHealth))
      else (a.world, Err(e))
  }

  /** The engine request process_message makes for one change. */
  function RequestFor(config: Config, c: EventChange): (req: Request)
    ensures req.action == c.action && req.hostedZoneId == config.destHostedZoneId
    ensures req.name == c.resourceRecordSet.name && req.rtype == c.resourceRecordSet.rtype
    ensures req.aliasHostedZoneId == c.resourceRecordSet.aliasTarget.hostedZoneId
    ensures req.aliasDnsName == c.resourceRecordSet.aliasTarget.dNSName
    ensures req.evaluateTargetHealth == c.resourceRecordSet.aliasTarget.evaluateTargetHealth
  {
    var rs := c.resourceRecordSet;
    Request(c.action, rs.name, rs.rtype, rs.aliasTarget.hostedZoneId, rs.aliasTarget.dNSName,
            rs.aliasTarget.evaluateTargetHealth, config.destHostedZoneId)
  }

  /** One iteration of the loop: a skipped change yields `false` and touches
      nothing; a replicated one runs the engine, waits when it returned a
      change id, and yields `true`. */
  function ProcessChange(config: Config, polls: nat -> nat, w: World, c: EventChange)
    : (out: (World, Result<bool>))
    requires ValidZones(w.zones)
    ensures ValidZones(out.0.zones)
    ensures !Replicated(config, c) ==> out == (w, Ok(false))
    ensures out.1.Ok? ==> out.1.value == Replicated(config, c)
  {
    if !Replicated(config, c) then (w, Ok(false))
    else
      var (w1, r) := Modify(w, RequestFor(config, c));
      if r.Err? then (w1, Err(r.error))
      else if r.value.None? then (w1, Ok(true))
      else
        var (w2, waited) := WaitStep(w1, polls, r.value.value.id, WaiterDelay, WaiterMaxAttempts);
        if waited.Err? then (w2, Err(waited.error)) else (w2, Ok(true))
  }

  /** The loop over the event's changes. The first failure ends the whole
      invocation with that failure; otherwise the result maps names to outcomes. */
  function Process(config: Config, polls: nat -> nat, w: World, cs: seq<EventChange>)
    : (out: (World, Result<map<string, bool>>))
    requires ValidZones(w.zones)
    ensures ValidZones(out.0.zones)
    decreases |cs|
  {
    if cs == [] then (w, Ok(map[]))
    else
      var (w1, r) := Process(config, polls, w, cs[..|cs| - 1]);
      if r.Err? then (w1, r)
      else
        var last := cs[|cs| - 1];
        var (w2, s) := ProcessChange(config, polls, w1, last);
        if s.Err? then (w2, Err(s.error)) else (w2, Ok(r.value[last.resourceRecordSet.name := s.value]))
  }

  /** Whether a change gets past the filter. */
  predicate Replicated(config: Config, c: EventChange)
  {
    Decide(config, c.resourceRecordSet) == Replicate
  }

  /** The result map the loop builds when nothing fails: each name to whether
      its change passed the filter, a later change overwriting an earlier one. */
  function StatusMap(config: Config, cs: seq<EventChange>): map<string, bool>
    decreases |cs|
  {
    if cs == [] then map[]
    else StatusMap(config, cs[..|cs| - 1])[cs[|cs| - 1].resourceRecordSet.name := Replicated(config, cs[|cs| - 1])]
  }

  function Names(cs: seq<EventChange>): set<string>
  {
    set c | c in cs :: c.resourceRecordSet.name
  }

  // ---------------------------------------------------------------------------
  // The loop: result map, skipped changes, abort on failure

  /** When the loop finishes, its map is the one the filter alone determines. */
  lemma {:induction false} ProcessResultIsStatusMap(config: Config, polls: nat -> nat, w: World, cs: seq<EventChange>)
    requires ValidZones(w.zones)
    ensures Process(config, polls, w, cs).1.Ok? ==> Process(config, polls, w, cs).1.value == StatusMap(config, cs)
    decreases |cs|
  {
    if cs != [] {
      ProcessResultIsStatusMap(config, polls, w, cs[..|cs| - 1]);
    }
  }

  /** The map has exactly one key per name in the event. */
  lemma {:induction false} StatusMapKeys(config: Config, cs: seq<EventChange>)
    ensures StatusMap(config, cs).Keys == Names(cs)
    decreases |cs|
  {
    if cs != [] {
      var init := cs[..|cs| - 1];
      StatusMapKeys(config, init);
      assert cs == init + [cs[|cs| - 1]];
      assert Names(cs) == Names(init) + {cs[|cs| - 1].resourceRecordSet.name};
    }
  }

  /** A name's value is the outcome of its last occurrence. */
  lemma {:induction false} StatusMapLastOccurrence(config: Config, cs: seq<EventChange>, i: int)
    requires 0 <= i < |cs|
    requires forall j :: i < j < |cs| ==> cs[j].resourceRecordSet.name != cs[i].resourceRecordSet.name
    ensures cs[i].resourceRecordSet.name in StatusMap(config, cs)
    ensures StatusMap(config, cs)[cs[i].resourceRecordSet.name] == Replicated(config, cs[i])
    decreases |cs|
  {
    var n := |cs|;
    if i < n - 1 {
      var init := cs[..n - 1];
      assert init[i] == cs[i];
      assert forall j :: i < j < |init| ==> init[j] == cs[j];
      StatusMapLastOccurrence(config, init, i);
    }
  }

  /** An event none of whose changes passes the filter makes no request and
      maps every name to `false`. */
  lemma {:induction false} SkippedChangesTouchNothing(config: Config, polls: nat -> nat, w: World, cs: seq<EventChange>)
    requires ValidZones(w.zones)
    requires forall i :: 0 <= i < |cs| ==> !Replicated(config, cs[i])
    ensures Process(config, polls, w, cs) == (w, Ok(StatusMap(config, cs)))
    ensures forall n :: n in StatusMap(config, cs) ==> !StatusMap(config, cs)[n]
    decreases |cs|
  {
    if cs != [] {
      var init := cs[..|cs| - 1];
      assert forall i :: 0 <= i < |init| ==> init[i] == cs[i];
      SkippedChangesTouchNothing(config, polls, w, init);
    }
  }

  /** With the halt flag set, nothing reaches the service and every name of
      the event maps to `false`. */
  lemma HaltedEventTouchesNothing(config: Config, polls: nat -> nat, w: World, cs: seq<EventChange>)
    requires ValidZones(w.zones)
    requires config.haltProcessing
    ensures Process(config, polls, w, cs).0 == w
    ensures Process(config, polls, w, cs).1.Ok?
    ensures Process(config, polls, w, cs).1.value.Keys == Names(cs)
    ensures forall n :: n in Process(config, polls, w, cs).1.value ==> !Process(config, polls, w, cs).1.value[n]
  {
    SkippedChangesTouchNothing(config, polls, w, cs);
    StatusMapKeys(config, cs);
  }

  /** The loop over one more change: the result so far, then that change. */
  lemma ProcessExtend(config: Config, polls: nat -> nat, w: World, cs: seq<EventChange>, i: int)
    requires ValidZones(w.zones)
    requires 0 <= i < |cs|
    requires Process(config, polls, w, cs[..i]).1.Ok?
    ensures var (w1, r) := Process(config, polls, w, cs[..i]);
      var (w2, s) := ProcessChange(config, polls, w1, cs[i]);
      Process(config, polls, w, cs[..i + 1])
        == if s.Err? then (w2, Err(s.error)) else (w2, Ok(r.value[cs[i].resourceRecordSet.name := s.value]))
  {
    assert cs[..i + 1][..i] == cs[..i];
  }

  /** The first failure decides the outcome: the later changes are not looked at. */
  lemma {:induction false} AbortOnFailure(config: Config, polls: nat -> nat, w: World, cs: seq<EventChange>, k: int)
    requires ValidZones(w.zones)
    requires 0 <= k <= |cs|
    requires Process(config, polls, w, cs[..k]).1.Err?
    ensures Process(config, polls, w, cs) == Process(config, polls, w, cs[..k])
    decreases |cs|
  {
    if k < |cs| {
      var init := cs[..|cs| - 1];
      assert init[..k] == cs[..k];
      AbortOnFailure(config, polls, w, init, k);
    } else {
      assert cs[..k] == cs;
    }
  }

  /** The waiter runs exactly when the engine returned a change id, on that id
      with the fixed budget; a change the engine absorbed maps to `true` with
      no wait. */
  lemma ProcessChangeWaits(config: Config, polls: nat -> nat, w: World, c: EventChange)
    requires ValidZones(w.zones)
    requires Replicated(config, c)
    ensures var (w1, r) := Modify(w, RequestFor(config, c));
      var out := ProcessChange(config, polls, w, c);
      && (r == Ok(None) ==> out == (w1, Ok(true)))
      && (r.Ok? && r.value.Some? ==>
            out.0 == w1.(log := w1.log + [WaitCall(r.value.value.id, WaiterDelay, WaiterMaxAttempts)])
            && (out.1.Ok? <==> polls(r.value.value.id) <= WaiterMaxAttempts))
      && (r.Err? ==> out == (w1, Err(r.error)))
  {
  }

  // ---------------------------------------------------------------------------
  // The engine: which requests it makes

  /** An UPSERT is one change request, and the engine returns what it answered. */
  lemma ModifyUpsertIsOneCall(w: World, req: Request)
    requires ValidZones(w.zones)
    requires req.action == Upsert.Value()
    ensures var (w1, r) := ChangeStep(w, req.hostedZoneId, BatchFor(req, req.evaluateTargetHealth));
      Modify(w, req) == (w1, if r.Ok? then Ok(Some(r.value)) else Err(r.error))
  {
  }

  /** How the engine treats what its attempt ended with: a success is
      returned, a not-found DELETE is absorbed, an already-existing CREATE is
      retried as an UPSERT of the same record set, anything else is passed on. */
  lemma ModifyOutcome(w: World, req: Request)
    requires ValidZones(w.zones)
    ensures var a := Attempt(w, req);
      Modify(w, req) ==
        if a.response.Ok? then (a.world, Ok(Some(a.response.value)))
        else if a.response.error.InvalidChangeBatch? && IsDeleteNotFound(a.response.error.message) then
          (a.world, Ok(None))
        else if a.response.error.InvalidChangeBatch? && IsCreateAlreadyExists(a.response.error.message) then
          Modify(a.world, AsUpsert(req, a.sentEvalHealth))
        else (a.world, Err(a.response.error))
  {
  }

  /** CREATE and UPSERT list nothing and send the requested flag; a refused
      CREATE is followed by at most one more request, the same change as an UPSERT. */
  lemma ModifyNonDeleteCalls(w: World, req: Request)
    requires ValidZones(w.zones)
    requires req.action != Delete.Value()
    ensures var first := ChangeCall(req.hostedZoneId, BatchFor(req, req.evaluateTargetHealth));
      var retry := ChangeCall(req.hostedZoneId,
        SingleChangeBatch(Upsert.Value(), req.name, req.rtype, req.aliasHostedZoneId, req.aliasDnsName,
                          req.evaluateTargetHealth));
      Modify(w, req).0.log == w.log + [first]
      || (req.action != Upsert.Value() && Modify(w, req).0.log == w.log + [first, retry])
  {
    var a := Attempt(w, req);
    AttemptNonDeleteCall(w, req);
    ModifyOutcome(w, req);
    if a.response.Err? && a.response.error.InvalidChangeBatch?
       && !IsDeleteNotFound(a.response.error.message) && IsCreateAlreadyExists(a.response.error.message) {
      var up := AsUpsert(req, req.evaluateTargetHealth);
      RetryLog(a.world, up, w.log, [ChangeCall(req.hostedZoneId, BatchFor(req, req.evaluateTargetHealth))]);
    }
  }

  /** The UPSERT retry appends its one request to the log so far. */
  lemma RetryLog(w1: World, up: Request, before: seq<Call>, sent: seq<Call>)
    requires ValidZones(w1.zones) && up.action == Upsert.Value() && w1.log == before + sent
    ensures Modify(w1, up).0.log == before + sent + [ChangeCall(up.hostedZoneId, BatchFor(up, up.evaluateTargetHealth))]
  {
    ModifyUpsertIsOneCall(w1, up);
  }

  lemma AttemptNonDeleteCall(w: World, req: Request)
    requires ValidZones(w.zones)
    requires req.action != Delete.Value()
    ensures Attempt(w, req).sentEvalHealth == req.evaluateTargetHealth
    ensures Attempt(w, req).world.log == w.log + [ChangeCall(req.hostedZoneId, BatchFor(req, req.evaluateTargetHealth))]
  {
  }

  /** The flag a DELETE sends: that of the first record set listed from its
      name and type, when that is an alias record, and the requested one otherwise. */
  function DeleteFlag(w: World, req: Request): bool
  {
    if req.hostedZoneId in w.zones then
      var listed := ListFrom(w.zones[req.hostedZoneId], Key(req.name, req.rtype), ListMaxItems);
      if |listed| > 0 && listed[0].aliasTarget.Some? then listed[0].aliasTarget.value.evaluateTargetHealth
      else req.evaluateTargetHealth
    else req.evaluateTargetHealth
  }

  /** A DELETE first lists one record set from its name and type, then sends
      the change with the flag found there; a lookup that fails ends it. */
  lemma ModifyDeleteCalls(w: World, req: Request)
    requires ValidZones(w.zones)
    requires req.action == Delete.Value()
    ensures var lookup := ListCall(req.hostedZoneId, req.name, req.rtype, ListMaxItems);
      var f := DeleteFlag(w, req);
      var del := ChangeCall(req.hostedZoneId, BatchFor(req, f));
      var retry := ChangeCall(req.hostedZoneId,
        SingleChangeBatch(Upsert.Value(), req.name, req.rtype, req.aliasHostedZoneId, req.aliasDnsName, f));
      var log := Modify(w, req).0.log;
      (log == w.log + [lookup] && Modify(w, req).1.Err?)
      || log == w.log + [lookup, del]
      || log == w.log + [lookup, del, retry]
  {
    var a := Attempt(w, req);
    AttemptDeleteCalls(w, req);
    if a.response.Err? && a.response.error.InvalidChangeBatch?
       && !IsDeleteNotFound(a.response.error.message) && IsCreateAlreadyExists(a.response.error.message) {
      var hz := req.hostedZoneId;
      var f := DeleteFlag(w, req);
      RetriedAsUpsert(w, req, a.world, a.sentEvalHealth, a.response.error.message);
      RetryLog(a.world, AsUpsert(req, f), w.log,
               [ListCall(hz, req.name, req.rtype, ListMaxItems), ChangeCall(hz, BatchFor(req, f))]);
    } else {
      ModifyOutcome(w, req);
    }
  }

  /** A rejection the engine reads as "already exists" and not as "not found"
      hands the request on as an UPSERT. */
  lemma RetriedAsUpsert(w: World, req: Request, w1: World, f: bool, m: string)
    requires ValidZones(w.zones)
    requires Attempt(w, req) == Attempted(w1, f, Err(InvalidChangeBatch(m)))
    requires IsCreateAlreadyExists(m) && !IsDeleteNotFound(m)
    ensures ValidZones(w1.zones)
    ensures Modify(w, req) == Modify(w1, AsUpsert(req, f))
  {
    ModifyOutcome(w, req);
  }

  lemma AttemptDeleteCalls(w: World, req: Request)
    requires ValidZones(w.zones)
    requires req.action == Delete.Value()
    ensures var lookup := ListCall(req.hostedZoneId, req.name, req.rtype, ListMaxItems);
      var a := Attempt(w, req);
      (a.world.log == w.log + [lookup] && a.response.Err? && !a.response.error.InvalidChangeBatch?)
      || (a.world.log == w.log + [lookup, ChangeCall(req.hostedZoneId, BatchFor(req, DeleteFlag(w, req)))]
          && a.sentEvalHealth == DeleteFlag(w, req))
  {
    var lookup := ListCall(req.hostedZoneId, req.name, req.rtype, ListMaxItems);
    var (w1, listed) := ListStep(w, req.hostedZoneId, req.name, req.rtype, ListMaxItems);
    assert w1.log == w.log + [lookup];
    if listed.Ok? {
      var eval := DeleteEvalHealth(listed.value, req.evaluateTargetHealth);
      if eval.Ok? {
        assert eval.value == DeleteFlag(w, req);
        assert w1.log + [ChangeCall(req.hostedZoneId, BatchFor(req, eval.value))]
          == w.log + [lookup, ChangeCall(req.hostedZoneId, BatchFor(req, eval.value))];
      }
    }
  }

  /** The engine makes at most three requests, and keeps the earlier ones. */
  lemma ModifyCallBudget(w: World, req: Request)
    requires ValidZones(w.zones)
    ensures w.log <= Modify(w, req).0.log
    ensures |Modify(w, req).0.log| <= |w.log| + 3
  {
    if req.action == Delete.Value() {
      ModifyDeleteCalls(w, req);
    } else {
      ModifyNonDeleteCalls(w, req);
    }
  }
}
