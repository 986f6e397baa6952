/** The pure decisions of the replication core: the typed incoming event, the
    per-change filter (halt flag, company domain, routing policy) and the
    classification of a rejected change batch by the text of its message. */
module Decisions {
  import opened Wrappers
  import opened Strings

  /** The settings one invocation runs with (read from the environment by the
      deployed function, fixed for the whole invocation). */
  datatype Config = Config(haltProcessing: bool, companyDomainFilter: Option<string>, destHostedZoneId: string)

  datatype EventAliasTarget = EventAliasTarget(hostedZoneId: string, dNSName: string, evaluateTargetHealth: bool)

  /** `setIdentifier` is `None` when the key is absent from the record set. */
  datatype EventRecordSet = EventRecordSet(
    name: string, rtype: string, setIdentifier: Option<string>, aliasTarget: EventAliasTarget)

  /** `action` is the string the event carries, passed on unchecked. */
  datatype EventChange = EventChange(action: string, resourceRecordSet: EventRecordSet)

  /** The changes under `detail.requestParameters.changeBatch.changes`, in order. */
  datatype Event = Event(changes: seq<EventChange>)

  /** The domain check: passes when no filter is set, or when the name is
      some string followed by the filter, or by the filter and a dot. This is
      a plain string suffix test, not a test on label boundaries. */
  function InCompanyDomain(name: string, filter: Option<string>): (b: bool)
    ensures filter.None? ==> b
    ensures filter.Some? ==>
              (b <==> (exists p: string :: name == p + filter.value) || (exists p: string :: name == p + (filter.value + ".")))
  {
    if filter.Some? then
      EndsWithIffConcat(name, filter.value);
      EndsWithIffConcat(name, filter.value + ".");
      EndsWith(name, filter.value) || EndsWith(name, filter.value + ".")
    else true
  }

  /** The routing-policy check: an absent set identifier or the literal
      `"Simple"` passes; any other value does not. */
  function SimpleRouting(setIdentifier: Option<string>): (b: bool)
    ensures b <==> setIdentifier == None || setIdentifier == Some("Simple")
  {
    !(setIdentifier.Some? && setIdentifier.value != "Simple")
  }

  /** Why a change is skipped, or that it is replicated. */
  datatype Verdict = Halted | OutsideCompanyDomain | NotSimpleRouting | Replicate

  /** The checks in their fixed order; the first that fails decides. */
  function Decide(config: Config, rs: EventRecordSet): (v: Verdict)
    ensures v == Replicate <==>
              !config.haltProcessing && InCompanyDomain(rs.name, config.companyDomainFilter)
              && SimpleRouting(rs.setIdentifier)
    ensures config.haltProcessing ==> v == Halted
    ensures v == OutsideCompanyDomain <==> !config.haltProcessing && !InCompanyDomain(rs.name, config.companyDomainFilter)
    ensures v == NotSimpleRouting <==>
              !config.haltProcessing && InCompanyDomain(rs.name, config.companyDomainFilter)
              && !SimpleRouting(rs.setIdentifier)
  {
    if config.haltProcessing then Halted
    else if !InCompanyDomain(rs.name, config.companyDomainFilter) then OutsideCompanyDomain
    else if !SimpleRouting(rs.setIdentifier) then NotSimpleRouting
    else Replicate
  }

  /** The suffix test does not respect label boundaries: a name in another
      domain that merely ends with the same characters passes. */
  lemma SuffixTestIgnoresLabels()
    ensures InCompanyDomain("notapi.test.io.", Some("api.test.io"))
    ensures !InCompanyDomain("test-url.not.an.api", Some("api.test.io"))
  {
    assert "notapi.test.io."[15 - 12..] == "api.test.io" + ".";
    assert "test-url.not.an.api"[19 - 11..] != "api.test.io" by {
      assert "test-url.not.an.api"[19 - 11..][0] == '.';
    }
    assert "test-url.not.an.api"[19 - 12..] != "api.test.io" + "." by {
      assert "test-url.not.an.api"[19 - 12..][11] == 'i';
    }
  }

  // ---------------------------------------------------------------------------
  // Classification of InvalidChangeBatch messages

  // Written in short pieces only to keep proofs about them small. These are
  // the texts the engine searches for; the service's own messages are built
  // separately, in module Route53, so that the classification lemmas show
  // that the search finds them rather than take it as given.
  const DeleteMarker: string := "Tried to delete " + "resource record " + "set "
  const NotFoundMarker: string := "but it was " + "not found"
  const CreateMarker: string := "Tried to create " + "resource record " + "set "
  const AlreadyExistsMarker: string := "but it already " + "exists"

  /** The message of a DELETE of a record set that is not there: both
      markers occur in it, somewhere and in either order. */
  function IsDeleteNotFound(message: string): (b: bool)
    ensures b <==> (exists i :: OccursAt(message, DeleteMarker, i)) && (exists j :: OccursAt(message, NotFoundMarker, j))
  {
    ContainsIffOccurs(message, DeleteMarker);
    ContainsIffOccurs(message, NotFoundMarker);
    Contains(message, DeleteMarker) && Contains(message, NotFoundMarker)
  }

  /** The message of a CREATE of a record set that is already there: both
      markers occur in it, somewhere and in either order. */
  function IsCreateAlreadyExists(message: string): (b: bool)
    ensures b <==> (exists i :: OccursAt(message, CreateMarker, i)) && (exists j :: OccursAt(message, AlreadyExistsMarker, j))
  {
    ContainsIffOccurs(message, CreateMarker);
    ContainsIffOccurs(message, AlreadyExistsMarker);
    Contains(message, CreateMarker) && Contains(message, AlreadyExistsMarker)
  }
}
