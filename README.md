# Route 53 record-set replication, modelled in Dafny

The repository is an AWS Lambda function. It listens to the EventBridge events
that a Route 53 `ChangeResourceRecordSets` call in one account raises. It then
replays each changed alias record set into a central hosted zone. This project
models the core of that function, `src/message_processing.py`, and proves
what the core does with each change.

- **The filter** (`process_message`). A change is skipped when the halt flag
  is set. It is also skipped when the company-domain filter is set and the
  name ends with neither the filter nor the filter plus a dot. Finally, it is
  skipped when the change carries a set identifier other than `Simple`. A
  skipped change maps its name to `false`. Every other change goes to the
  engine. Its name maps to `true` once the engine has returned and, if a
  change id came back, the propagation waiter has finished. The first
  exception ends the invocation.
- **The engine** (`modify_route53_change_recordset`). A DELETE first lists
  one record set, starting at its name and type. When one is listed, the
  DELETE sends that record set's `EvaluateTargetHealth` flag instead of the
  requested one. The listed record set can belong to another name or type,
  since the lookup does not check; when it is a plain record set, which has no
  alias target, the engine raises `KeyError`. The change then goes out as a
  batch of one. When the service refuses the batch, the text
  of its message decides what happens next:
  - a DELETE of something not there is absorbed, and the result is `None`;
  - a CREATE of something already there is sent once more as an UPSERT;
  - every other refusal is passed on.
- **The service.** Route 53 is modelled as a deterministic object
  (`Route53.Route53Service`). It holds the zones, with each zone's record
  sets sorted by name and type, and a log of the requests it received. It
  also holds the next change id and, per change id, how many polls the
  change needs before it is in sync. Each request the program makes is a
  method of this object, specified by a pure step function
  (`ListStep`, `ChangeStep`, `WaitStep`).

The Python procedures are the methods of module `MessageProcessing`, with
the same arguments and the same control flow. Each method is proved to
compute exactly what a pure function of module `Replication` computes:
`Modify` for the engine and `Process` for the loop. The properties are
proved about those functions. Module `Decisions` holds the filter and the
classification of refusal messages. Module `Convergence` proves what
replication achieves against the service model. Examples are a CREATE that
always ends stored, a DELETE that removes what a CREATE stored, and a
replayed CREATE that changes nothing.

The unchecked lookup is modelled as written, and it has a consequence
(`Convergence.DeleteBesidePlainRecordFails`). A DELETE of a record set that
is not there is absorbed only when the lookup lists nothing or an alias
record set (`Convergence.DeleteOfAbsentIsNoop`). When the record set next in
the model's listing order is a plain one, the DELETE raises `KeyError` after
the lookup alone. A replayed DELETE is then an error rather than a no-op.
The model's order is not the service's (see "## Left out"). So which record
set comes next after a missing name, and hence whether this happens, can
differ from what the service would do.

## Model

| member | source | states |
|---|---|---|
| Actions.FromValue | src/message_processing.py:16-21 | a string found as an action is that action's value; a string not found is the value of no action |
| Actions.FromValueOfValue | src/message_processing.py:16-21 | reading a member's string back gives the member |
| Replication.SingleChangeBatch | src/message_processing.py:43-64 | the batch has the fixed comment and exactly one change; the action, name, type, alias zone, DNS name and flag are the arguments, passed unchanged |
| MessageProcessing.ChangeResourceRecordSets | src/message_processing.py:32-64 | the client's new state and the answer are those of sending the single-change batch to the given zone |
| MessageProcessing.ListChangeRecordSet | src/message_processing.py:67-80 | the client's new state and the answer are those of listing at most `maxItems` record sets from the given name and type |
| MessageProcessing.WaitForRecordSetChange | src/message_processing.py:83-93 | waits on the change id with a 30-second delay and at most 20 attempts; fails with a timeout exactly when the change needs more polls |
| Route53.Route53Service.ListResourceRecordSets | src/message_processing.py:75-80 | the listing request is logged; a missing zone fails; otherwise the answer is the listing from the start key |
| Route53.Route53Service.ChangeResourceRecordSets | src/message_processing.py:43-64 | the request is logged; an accepted batch replaces the zone's record sets and returns the next change id; a refused batch changes no zone |
| Route53.Route53Service.WaitUntilResourceRecordSetsChanged | src/message_processing.py:85-93 | the wait is logged; it succeeds exactly when the change needs at most `maxAttempts` polls |
| Route53.ListFrom | src/message_processing.py:110-116 | the listing holds at most `maxItems` stored record sets, none keyed before the start; it is empty exactly when `maxItems` is 0 or nothing is keyed at or after the start; its first element is the least such key |
| Route53.ListStep | src/message_processing.py:75-80 | only the log changes; the answer is `Ok` exactly when the zone exists, and then it is the listing |
| Route53.ChangeStep | src/message_processing.py:43-64 | the request is logged; it keeps zones sorted and changes only the named zone; success returns the next id; failure changes no zone; an all-UPSERT batch to an existing zone succeeds |
| Route53.WaitStep | src/message_processing.py:85-93 | only the log changes; success exactly when the change needs at most the allowed polls; otherwise a timeout for that id |
| Replication.DeleteEvalHealth | src/message_processing.py:117-123 | an empty listing keeps the requested flag; otherwise the first listed record's flag is sent; a plain first record raises `KeyError("AliasTarget")` |
| Replication.Attempt | src/message_processing.py:109-133 | the body of the `try` keeps zones sorted and changes only the destination zone; an UPSERT is never refused with InvalidChangeBatch; a `KeyError` comes only from a DELETE |
| Replication.Modify | src/message_processing.py:96-158 | the engine keeps zones sorted and changes only the destination zone; an escaping InvalidChangeBatch is never a not-found or already-exists message; a `KeyError` comes only from a DELETE |
| MessageProcessing.ModifyRoute53ChangeRecordSet | src/message_processing.py:96-158 | the method, with its recursive retry, leaves the client in the state `Modify` gives and returns its answer |
| Replication.ModifyNonDeleteCalls | src/message_processing.py:124-157 | CREATE and UPSERT make no listing and send the requested flag; the requests are the change alone or, for an action other than UPSERT, the change followed by the same change as an UPSERT |
| Replication.AsUpsert | src/message_processing.py:148-157 | the retry is an UPSERT to the same zone, of the record set with the same name, type and alias target, carrying the flag it is given (the engine passes the flag the refused attempt sent) |
| Replication.AttemptNonDeleteCall | src/message_processing.py:124-133 | for CREATE and UPSERT, the attempt sends exactly the requested batch with the requested flag |
| Replication.ModifyDeleteCalls | src/message_processing.py:109-158 | a DELETE makes one of three request sequences. The first is the lookup alone, ending in a failure. The second is the lookup, then the DELETE with the flag `DeleteFlag` reads from the listing. The third adds one UPSERT retry with that flag |
| Replication.AttemptDeleteCalls | src/message_processing.py:109-133 | the DELETE attempt makes either the lookup alone, ending in a failure that is not InvalidChangeBatch (a missing zone, or a plain first record), or the lookup then the change with the flag `DeleteFlag` gives |
| Replication.ModifyUpsertIsOneCall | src/message_processing.py:124-134 | an UPSERT is exactly one change request, and the engine returns what the service answered |
| Replication.ModifyCallBudget | src/message_processing.py:96-158 | the engine only appends to the log, and it makes at most three requests (lookup, change, retry) |
| Replication.ProcessChange | src/message_processing.py:180-217 | a change the filter skips yields `false` and touches nothing; a successful iteration yields exactly whether the change passed the filter |
| Replication.RequestFor | src/message_processing.py:202-211 | the engine gets the change's action, name, type, alias zone, DNS name and flag from the event, and the destination zone from the settings |
| Replication.Process | src/message_processing.py:177-218 | the loop over the changes keeps the zones sorted |
| MessageProcessing.ProcessMessage | src/message_processing.py:161-220 | the method leaves the client in the state `Process` gives and returns its result |
| Replication.ProcessResultIsStatusMap | src/message_processing.py:177-218 | when the loop finishes, its map is the one the filter alone determines |
| Replication.StatusMapKeys | src/message_processing.py:177-218 | the result map has exactly the names of the event's changes as keys |
| Replication.StatusMapLastOccurrence | src/message_processing.py:187-217 | a name that occurs several times maps to the verdict of its last occurrence |
| Replication.AbortOnFailure | src/message_processing.py:163-220 | after the first failure, the changes that follow are not looked at, and the failure is the result |
| Replication.ProcessChangeWaits | src/message_processing.py:202-217 | a change that passes goes to the engine with the destination zone and the event's fields; the waiter runs exactly when a change id came back, and on that id |
| Replication.SkippedChangesTouchNothing | src/message_processing.py:185-201 | an event none of whose changes passes makes no request, and maps every name to `false` |
| Replication.HaltedEventTouchesNothing | src/message_processing.py:185-188 | with the halt flag set, the service is untouched, and every name maps to `false` |
| Decisions.Decide | src/message_processing.py:185-201 | the checks in order (halt, domain, routing policy); a change is replicated exactly when all three pass; each skip reason holds exactly when its check is the first to fail |
| Decisions.InCompanyDomain | src/message_processing.py:189-190 | with no filter every name passes; with a filter, a name passes exactly when it is some string followed by the filter, or by the filter and a dot |
| Decisions.SimpleRouting | src/message_processing.py:196 | a change passes exactly when its set identifier is absent or is `"Simple"` |
| Decisions.IsDeleteNotFound | src/message_processing.py:143 | a message is read as not found exactly when the delete marker and the not-found marker each occur in it at some position |
| Decisions.IsCreateAlreadyExists | src/message_processing.py:146 | a message is read as already exists exactly when the create marker and the already-exists marker each occur in it at some position |
| Decisions.SuffixTestIgnoresLabels | src/message_processing.py:189-190 | `notapi.test.io.` passes the filter `api.test.io`, and `test-url.not.an.api` does not |
| Convergence.DeleteNotFoundClassified | src/message_processing.py:143-145 | the service's not-found message for a DELETE is read as not found |
| Convergence.CreateExistsClassified | src/message_processing.py:143-148 | the service's already-exists message for a CREATE is read as already exists, and not as not found |
| Convergence.DeleteMismatchUnclassified | src/message_processing.py:143-158 | the service's values-differ message for a DELETE is read as neither, so it is re-raised |
| Convergence.UpsertStores | src/message_processing.py:124-134 | an UPSERT to an existing zone stores the record set, logs one request and returns the next change id |
| Convergence.CreateOfFreeKey | src/message_processing.py:124-134 | a CREATE of a free key stores the record set with one request and returns the next change id |
| Convergence.CreateOfTakenKeyIsRefused | src/message_processing.py:124-135 | a CREATE of a stored key is refused with the already-exists message, and no zone changes |
| Convergence.CreateOfTakenKey | src/message_processing.py:146-157 | a CREATE of a stored key makes two requests, the CREATE and then the UPSERT; it replaces the stored record set and returns the UPSERT's change id |
| Convergence.CreateStores | src/message_processing.py:124-157 | a CREATE to an existing zone always ends with the record set stored and `Ok(Some(_))` |
| Convergence.CreateReplayIsIdempotent | src/message_processing.py:146-157 | replaying the same CREATE succeeds again and leaves the zones as the first one left them |
| Convergence.CreateOnStored | src/message_processing.py:146-157 | a CREATE of the record set the zone already holds succeeds and leaves the zones as they are |
| Convergence.DeleteAttempt | src/message_processing.py:109-133 | a DELETE whose lookup lists nothing or an alias record sends the DELETE with the flag `DeleteFlag` gives |
| Convergence.DeleteOfStoredSendsIt | src/message_processing.py:117-133 | with an alias record stored under the key, the DELETE is sent with the stored flag |
| Convergence.DeleteRemovesStored | src/message_processing.py:109-134 | a DELETE of a stored alias record with the same target removes it, whatever flag was requested; it logs the lookup and the change and returns the next change id |
| Convergence.DeleteOfAbsentIsNoop | src/message_processing.py:141-145 | a DELETE of a key that is not stored, when the lookup lists nothing or an alias record set first, changes no zone; it logs the lookup and the refused change, and gives `Ok(None)` |
| Convergence.DeleteBesidePlainRecordFails | src/message_processing.py:117-118 | when the lookup's first record is a plain record (the lookup does not check its name), the engine fails with `KeyError("AliasTarget")` after the lookup alone |
| Convergence.DeleteOfOtherTargetFails | src/message_processing.py:141-158 | a DELETE whose alias target (zone id or DNS name) differs from the stored one fails with the values-differ message, and no zone changes |
| Convergence.UnknownActionFails | src/message_processing.py:124-158 | an action string outside the three is refused by the service and re-raised, and no zone changes |
| Convergence.MissingZoneFails | src/message_processing.py:96-158 | a destination zone that does not exist fails the request with no-such-zone, and no zone changes |
| Convergence.CreateThenDeleteRestores | tests/test_handler.py:16-30 | a CREATE of a free key, then a DELETE of the same record set with any flag, succeed and give back the original zones |
| Convergence.DeleteOfCreated | tests/test_handler.py:16-30 | removing a record set stored under a key that was free gives back the zones from before |
| Convergence.SucceedingChange | src/message_processing.py:202-218 | a single passing change whose engine call succeeds, with the waiter in budget, gives a map of its name to `true` and the engine's zones |
| Convergence.CreateThenDeleteEvents | tests/test_handler.py:16-30 | a create event and a later delete event for the same name, type and alias target, with any health flag, each give one name mapped to `true`, and the zones end as they began |

## Left out

- The credentials (`src/sts.py`) and the client construction (source lines 169-173) are not part of this model. The service object is passed to `ProcessMessage`.
- Logging and `print_event` (source lines 24-29, 107, 120-122, 142, 179, 183, 186, 191-193, 197-199, 214-216) are output only. They have no effect on the model.
- `src/handler.py`, which wraps `process_message`, is not part of this model.
- The environment is a `Config` value:
  - The defaults `os.environ.get` falls back to are not modelled. The real client always gets a string zone id.
  - The `HALT_PROCESSING` flag (from `src/_utils.py`) is a boolean, not the parsed integer.
  - The flag is read once per invocation, where the source reads it at every change. The environment cannot change between iterations in the model.
- The result is a Dafny `map`, which has no order. The insertion order of the Python dict `return_status` is not modelled; the repository's tests read the first entry through `list(response.items())[0]` (tests/test_handler.py:27 and 116). The model states every name's value instead, so which name comes first is not captured.
- An event whose fields are missing or have the wrong type (a `KeyError` or `TypeError` in Python) is not modelled. The event is a typed value, and `setIdentifier` is an `Option`.
- Route 53 itself is a model, not the real service:
  - Record sets are ordered by plain lexicographic order of name, then type. The service orders names by reversed labels.
  - As a result, the record set listed after a missing name can differ from the service's. In particular, a zone's apex holds plain SOA and NS records. A subdomain whose name sorts before the apex string, such as `a.api.test.io.` before `api.test.io.`, lists those apex records first. A DELETE of such a missing subdomain then raises `KeyError` in the model, where the service would not list the apex records first. Whether the service's DELETE is absorbed then depends on what it does list next.
  - The texts of refusal messages omit the set-identifier part.
  - Change ids are natural numbers, not strings.
  - Time is not modelled. The waiter's clock is replaced by the number of polls a change needs, compared with the 20-attempt budget. The 30-second delay is only passed on.
- Replication.AsUpsert: the retry at source line 150 passes the enum member `RecordSetChangeAction.upsert`, not a string, and the model sends the member's value `"UPSERT"`. This assumes the client writes a `(str, Enum)` member to the request as its value. The client's serializer is not part of this model, and the repository's tests replace `change_resource_record_sets` with a mock (tests/test_handler.py:35-53), so they do not show what is sent either. If the serializer wrote `str(member)`, which is `"RecordSetChangeAction.upsert"`, the service would refuse the retry as an unknown action and the engine would re-raise it (`Convergence.UnknownActionFails`). Then `Convergence.CreateOfTakenKey`, `Convergence.CreateStores`, `Convergence.CreateReplayIsIdempotent` and `Convergence.CreateOnStored` would not hold of the program.
- The service model never refuses an UPSERT with InvalidChangeBatch. That bounds the engine's retry to one level. `Replication.Modify` is therefore not modelled for a service that refuses UPSERTs with an already-exists message; on such a service the Python recursion would not end.
- Convergence.CreateExistsClassified, Convergence.DeleteMismatchUnclassified, Convergence.CreateStores, Convergence.CreateOfTakenKey, Convergence.CreateReplayIsIdempotent, Convergence.CreateOnStored and Convergence.DeleteOfOtherTargetFails are stated only for names and types without spaces. A name that itself contains a marker text could make the substring test read a message wrongly. DNS names and record types never contain spaces.
- Convergence.SucceedingChange and Convergence.CreateThenDeleteEvents require every change to be in sync within the waiter's budget. Otherwise the wait times out and the invocation fails, as `Route53.WaitStep` states.
