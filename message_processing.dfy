/** The replication core as the program runs it: free procedures over a
    service client, with the filter loop building its result map in place.
    Each procedure is proved to do exactly what the functions of module
    Replication say, so the properties proved there hold of it. */
module MessageProcessing {
  import opened Wrappers
  import opened Strings
  import opened Actions
  import opened Route53
  import opened Decisions
  import opened Replication

  /** Sends one change, built from the arguments, in a batch of its own. */
  method ChangeResourceRecordSets(client: Route53Service, changeAction: string, recordsetName: string,
                                  recordsetType: string, aliasTargetHostedZoneId: string,
                                  aliasTargetDnsName: string, aliasTargetEvalTargetHealth: bool,
                                  hostedZoneId: string)
    returns (r: Result<ChangeInfo>)
    requires client.Valid()
    modifies client
    ensures client.Valid()
    ensures (client.State(), r) == ChangeStep(old(client.State()), hostedZoneId,
      SingleChangeBatch(changeAction, recordsetName, recordsetType, aliasTargetHostedZoneId, aliasTargetDnsName,
                        aliasTargetEvalTargetHealth))
  {
    var batch := SingleChangeBatch(changeAction, recordsetName, recordsetType, aliasTargetHostedZoneId,
                                   aliasTargetDnsName, aliasTargetEvalTargetHealth);
    r := client.ChangeResourceRecordSets(hostedZoneId, batch);
  }

  /** Lists at most `maxItems` record sets, starting at the given name and type. */
  method ListChangeRecordSet(client: Route53Service, recordsetName: string, recordsetType: string, maxItems: nat,
                             hostedZoneId: string)
    returns (r: Result<seq<RecordSet>>)
    requires client.Valid()
    modifies client
    ensures client.Valid()
    ensures (client.State(), r) == ListStep(old(client.State()), hostedZoneId, recordsetName, recordsetType, maxItems)
  {
    r := client.ListResourceRecordSets(hostedZoneId, recordsetName, recordsetType, maxItems);
  }

  /** Waits for a change to be in sync: a poll every 30 seconds, at most 20 polls. */
  method WaitForRecordSetChange(client: Route53Service, changeId: nat) returns (r: Result<()>)
    requires client.Valid()
    modifies client
    ensures client.Valid()
    ensures (client.State(), r) ==
              WaitStep(old(client.State()), client.pollsUntilInSync, changeId, WaiterDelay, WaiterMaxAttempts)
  {
    r := client.WaitUntilResourceRecordSetsChanged(changeId, WaiterDelay, WaiterMaxAttempts);
  }

  /** The engine. A DELETE first looks up the stored flag; the change is then
      sent; a not-found DELETE is absorbed, an already-existing CREATE is sent
      again as an UPSERT, and every other failure is passed on. */
  method ModifyRoute53ChangeRecordSet(client: Route53Service, changeAction: string, recordsetName: string,
                                      recordsetType: string, aliasTargetHostedZoneId: string,
                                      aliasTargetDnsName: string, aliasTargetEvalTargetHealth: bool,
                                      hostedZoneId: string)
    returns (r: Result<Option<ChangeInfo>>)
    requires client.Valid()
    modifies client
    ensures client.Valid()
    ensures (client.State(), r) == Modify(old(client.State()),
      Request(changeAction, recordsetName, recordsetType, aliasTargetHostedZoneId, aliasTargetDnsName,
              aliasTargetEvalTargetHealth, hostedZoneId))
    decreases if changeAction == Upsert.Value() then 0 else 1
  {
    ghost var w0 := client.State();
    ghost var req := Request(changeAction, recordsetName, recordsetType, aliasTargetHostedZoneId, aliasTargetDnsName,
                             aliasTargetEvalTargetHealth, hostedZoneId);
    var evalTargetHealth := aliasTargetEvalTargetHealth;
    if changeAction == Delete.Value() {
      var existing := ListChangeRecordSet(client, recordsetName, recordsetType, ListMaxItems, hostedZoneId);
      if existing.Err? {
        // a failed lookup is not a rejected change batch: it is passed on
        r := Err(existing.error);
        return;
      }
      if |existing.value| > 0 {
        match existing.value[0].aliasTarget
        case None =>
          r := Err(KeyError("AliasTarget"));
          return;
        case Some(target) =>
          if target.evaluateTargetHealth != evalTargetHealth {
            evalTargetHealth := target.evaluateTargetHealth;
          }
      }
    }
    var response := ChangeResourceRecordSets(client, changeAction, recordsetName, recordsetType,
                                             aliasTargetHostedZoneId, aliasTargetDnsName, evalTargetHealth,
                                             hostedZoneId);
    assert Attempt(w0, req) == Attempted(client.State(), evalTargetHealth, response);
    match response
    case Ok(info) =>
      r := Ok(Some(info));
    case Err(e) =>
      if e.InvalidChangeBatch? && IsDeleteNotFound(e.message) {
        r := Ok(None);
      } else if e.InvalidChangeBatch? && IsCreateAlreadyExists(e.message) {
        r := ModifyRoute53ChangeRecordSet(client, Upsert.Value(), recordsetName, recordsetType,
                                          aliasTargetHostedZoneId, aliasTargetDnsName, evalTargetHealth,
                                          hostedZoneId);
      } else {
        r := Err(e);
      }
  }

  /** The per-event loop: each change is filtered, replicated when it passes,
      and recorded under its name; the first failure ends the invocation. */
  method ProcessMessage(config: Config, client: Route53Service, event: Event) returns (r: Result<map<string, bool>>)
    requires client.Valid()
    modifies client
    ensures client.Valid()
    ensures (client.State(), r) == Process(config, client.pollsUntilInSync, old(client.State()), event.changes)
  {
    ghost var w0 := client.State();
    var changes := event.changes;
    var returnStatus: map<string, bool> := map[];
    var i := 0;
    while i < |changes|
      invariant 0 <= i <= |changes|
      invariant client.Valid()
      invariant (client.State(), Ok(returnStatus)) == Process(config, client.pollsUntilInSync, w0, changes[..i])
    {
      var recordsetChanges := changes[i].resourceRecordSet;
      ghost var before := client.State();
      ProcessExtend(config, client.pollsUntilInSync, w0, changes, i);
      if config.haltProcessing {
        returnStatus := returnStatus[recordsetChanges.name := false];
        i := i + 1;
        continue;
      }
      if config.companyDomainFilter.Some?
         && !EndsWith(recordsetChanges.name, config.companyDomainFilter.value)
         && !EndsWith(recordsetChanges.name, config.companyDomainFilter.value + ".") {
        returnStatus := returnStatus[recordsetChanges.name := false];
        i := i + 1;
        continue;
      }
      if recordsetChanges.setIdentifier.Some? && recordsetChanges.setIdentifier.value != "Simple" {
        returnStatus := returnStatus[recordsetChanges.name := false];
        i := i + 1;
        continue;
      }
      assert Replicated(config, changes[i]);
      ProcessChangeWaits(config, client.pollsUntilInSync, before, changes[i]);
      var response := ModifyRoute53ChangeRecordSet(client, changes[i].action, recordsetChanges.name,
                                                   recordsetChanges.rtype, recordsetChanges.aliasTarget.hostedZoneId,
                                                   recordsetChanges.aliasTarget.dNSName,
                                                   recordsetChanges.aliasTarget.evaluateTargetHealth,
                                                   config.destHostedZoneId);
      if response.Err? {
        r := Err(response.error);
        AbortOnFailure(config, client.pollsUntilInSync, w0, changes, i + 1);
        return;
      }
      if response.value.Some? {
        var waited := WaitForRecordSetChange(client, response.value.value.id);
        if waited.Err? {
          r := Err(waited.error);
          AbortOnFailure(config, client.pollsUntilInSync, w0, changes, i + 1);
          return;
        }
      }
      returnStatus := returnStatus[recordsetChanges.name := true];
      i := i + 1;
    }
    assert changes[..i] == changes;
    r := Ok(returnStatus);
  }
}
