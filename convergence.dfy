/** What replication achieves against the service model: how the service's
    rejection messages are classified, what each action leaves in the
    destination zone, and that replaying an event converges. Names and types
    are assumed free of spaces, as DNS names and record types are; the
    classification of the service's messages depends on it. */
module Convergence {
  import opened Wrappers
  import opened Strings
  import opened Actions
  import opened Route53
  import opened Decisions
  import opened Replication

  predicate NoSpaces(s: string)
  {
    ' ' !in s
  }

  // ---------------------------------------------------------------------------
  // Ruling out an occurrence

  lemma AbsentWhenCharMissing(s: string, sub: string, c: char)
    requires c in sub && c !in s
    ensures !Contains(s, sub)
  {
    if Contains(s, sub) {
      ContainsNeedsChars(s, sub);
    }
  }

  lemma AbsentWhenShorter(s: string, sub: string)
    requires |s| < |sub|
    ensures !Contains(s, sub)
  {
    if Contains(s, sub) {
      ContainsNeedsChars(s, sub);
    }
  }

  /** A quote-free marker occurs in a quoted message only inside one of its pieces. */
  lemma AbsentFromQuoted(p1: string, n: string, p2: string, t: string, p3: string, sub: string)
    requires '\'' !in sub
    requires !Contains(p1, sub) && !Contains(n, sub) && !Contains(p2, sub) && !Contains(t, sub) && !Contains(p3, sub)
    ensures !Contains(p1 + "'" + n + "'" + p2 + "'" + t + "'" + p3, sub)
  {
    var s4 := t + ['\''] + p3;
    var s3 := p2 + ['\''] + s4;
    var s2 := n + ['\''] + s3;
    var s1 := p1 + ['\''] + s2;
    assert p1 + "'" + n + "'" + p2 + "'" + t + "'" + p3 == s1;
    if Contains(s4, sub) { ContainsSplit(t, '\'', p3, sub); }
    if Contains(s3, sub) { ContainsSplit(p2, '\'', s4, sub); }
    if Contains(s2, sub) { ContainsSplit(n, '\'', s3, sub); }
    if Contains(s1, sub) { ContainsSplit(p1, '\'', s2, sub); }
  }

  /** A marker with a space in it, longer than the separator between name and
      type, occurs in a message quoting two space-free strings only inside the
      message's head or tail. */
  lemma AbsentFromQuotedNames(head: string, n: string, t: string, tail: string, sub: string)
    requires '\'' !in sub && ' ' in sub && |", type="| < |sub|
    requires NoSpaces(n) && NoSpaces(t)
    requires !Contains(head, sub) && !Contains(tail, sub)
    ensures !Contains(QuotedMessage(head, n, t, tail), sub)
  {
    AbsentWhenCharMissing(n, sub, ' ');
    AbsentWhenCharMissing(t, sub, ' ');
    AbsentWhenShorter(", type=", sub);
    AbsentFromQuoted(head, n, ", type=", t, tail, sub);
    assert QuotedMessage(head, n, t, tail) == head + "'" + n + "'" + ", type=" + "'" + t + "'" + tail;
  }

  /** What the head of a quoted message holds, the whole message holds. */
  lemma QuotedHeadContains(head: string, n: string, t: string, tail: string, sub: string)
    requires Contains(head, sub)
    ensures Contains(QuotedMessage(head, n, t, tail), sub)
  {
    var rest := "'" + n + "'" + ", type=" + "'" + t + "'" + tail;
    assert QuotedMessage(head, n, t, tail) == head + rest;
    ContainsExtendRight(head, rest, sub);
  }

  /** What the tail of a quoted message holds, the whole message holds. */
  lemma QuotedTailContains(head: string, n: string, t: string, tail: string, sub: string)
    requires Contains(tail, sub)
    ensures Contains(QuotedMessage(head, n, t, tail), sub)
  {
    ContainsExtendLeft(head + "'" + n + "'" + ", type=" + "'" + t + "'", tail, sub);
  }

  // ---------------------------------------------------------------------------
  // Classification of the service's rejection messages

  /** A CREATE of a stored key is recognised as "already exists", and not as
      a DELETE of a missing one. */
  lemma CreateExistsClassified(n: string, t: string)
    requires NoSpaces(n) && NoSpaces(t)
    ensures IsCreateAlreadyExists(CreateExistsMessage(n, t))
    ensures !IsDeleteNotFound(CreateExistsMessage(n, t))
  {
    CreateExistsHasMarkers(n, t, "[" + CreateText + "[name=", "] " + ExistsText + "]");
    CreateExistsLacksDeleteMarker(n, t, "[" + CreateText + "[name=", "] " + ExistsText + "]");
  }

  lemma CreateExistsHasMarkers(n: string, t: string, head: string, tail: string)
    requires head == "[" + CreateText + "[name=" && tail == "] " + ExistsText + "]"
    ensures IsCreateAlreadyExists(QuotedMessage(head, n, t, tail))
  {
    assert CreateText == CreateMarker && ExistsText == AlreadyExistsMarker;
    ContainsPlaced("[", CreateMarker, "[name=");
    QuotedHeadContains(head, n, t, tail, CreateMarker);
    ContainsPlaced("] ", AlreadyExistsMarker, "]");
    QuotedTailContains(head, n, t, tail, AlreadyExistsMarker);
  }

  lemma CreateExistsLacksDeleteMarker(n: string, t: string, head: string, tail: string)
    requires NoSpaces(n) && NoSpaces(t)
    requires head == "[" + CreateText + "[name=" && tail == "] " + ExistsText + "]"
    ensures !Contains(QuotedMessage(head, n, t, tail), DeleteMarker)
  {
    CreateHeadLacksL(head);
    LacksDeleteMarker(head);
    CreateTailLacksT(tail);
    NoCapitalTNoDeleteMarker(tail);
    AbsentFromQuotedNames(head, n, t, tail, DeleteMarker);
  }

  lemma NoCapitalTNoDeleteMarker(s: string)
    requires 'T' !in s
    ensures !Contains(s, DeleteMarker)
  {
    assert DeleteMarker[0] == 'T';
    AbsentWhenCharMissing(s, DeleteMarker, 'T');
  }

  /** A DELETE of a missing key is recognised as "not found". */
  lemma DeleteNotFoundClassified(n: string, t: string)
    ensures IsDeleteNotFound(DeleteNotFoundMessage(n, t))
  {
    var head, tail := "[" + DeleteText + "[name=", "] " + NotFoundText + "]";
    assert DeleteText == DeleteMarker && NotFoundText == NotFoundMarker;
    ContainsPlaced("[", DeleteMarker, "[name=");
    QuotedHeadContains(head, n, t, tail, DeleteMarker);
    ContainsPlaced("] ", NotFoundMarker, "]");
    QuotedTailContains(head, n, t, tail, NotFoundMarker);
  }

  /** A DELETE whose values differ from the stored ones is neither absorbed
      nor retried. */
  lemma DeleteMismatchUnclassified(n: string, t: string)
    requires NoSpaces(n) && NoSpaces(t)
    ensures !IsDeleteNotFound(DeleteMismatchMessage(n, t))
    ensures !IsCreateAlreadyExists(DeleteMismatchMessage(n, t))
  {
    DeleteMismatchLacksNotFound(n, t, "[" + DeleteText + "[name=", "] " + MismatchText + "]");
    DeleteMismatchLacksAlreadyExists(n, t, "[" + DeleteText + "[name=", "] " + MismatchText + "]");
  }

  lemma DeleteMismatchLacksNotFound(n: string, t: string, head: string, tail: string)
    requires NoSpaces(n) && NoSpaces(t)
    requires head == "[" + DeleteText + "[name=" && tail == "] " + MismatchText + "]"
    ensures !Contains(QuotedMessage(head, n, t, tail), NotFoundMarker)
  {
    DeleteHeadLacksW(head);
    MismatchTailLacksW(tail);
    LacksNotFoundMarker(head);
    LacksNotFoundMarker(tail);
    AbsentFromQuotedNames(head, n, t, tail, NotFoundMarker);
  }

  lemma DeleteMismatchLacksAlreadyExists(n: string, t: string, head: string, tail: string)
    requires NoSpaces(n) && NoSpaces(t)
    requires head == "[" + DeleteText + "[name=" && tail == "] " + MismatchText + "]"
    ensures !Contains(QuotedMessage(head, n, t, tail), AlreadyExistsMarker)
  {
    DeleteHeadLacksY(head);
    MismatchTailLacksY(tail);
    LacksAlreadyExistsMarker(head);
    LacksAlreadyExistsMarker(tail);
    AbsentFromQuotedNames(head, n, t, tail, AlreadyExistsMarker);
  }

  // Which letters the fixed pieces lack: each marker has one they do not.

  lemma CreateHeadLacksL(piece: string)
    requires piece == "[" + CreateText + "[name="
    ensures 'l' !in piece
  {
  }

  lemma CreateTailLacksT(piece: string)
    requires piece == "] " + ExistsText + "]"
    ensures 'T' !in piece
  {
  }

  lemma DeleteHeadLacksW(piece: string)
    requires piece == "[" + DeleteText + "[name="
    ensures 'w' !in piece
  {
  }

  lemma DeleteHeadLacksY(piece: string)
    requires piece == "[" + DeleteText + "[name="
    ensures 'y' !in piece
  {
  }

  lemma MismatchTailLacksW(piece: string)
    requires piece == "] " + MismatchText + "]"
    ensures 'w' !in piece
  {
  }

  lemma MismatchTailLacksY(piece: string)
    requires piece == "] " + MismatchText + "]"
    ensures 'y' !in piece
  {
  }

  /** Each marker's tell-tale letter, and its length and quote-free, spaced form. */
  lemma LacksDeleteMarker(s: string)
    requires 'l' !in s
    ensures !Contains(s, DeleteMarker)
  {
    assert DeleteMarker[11] == 'l';
    AbsentWhenCharMissing(s, DeleteMarker, 'l');
  }

  lemma LacksNotFoundMarker(s: string)
    requires 'w' !in s
    ensures !Contains(s, NotFoundMarker)
  {
    assert NotFoundMarker[7] == 'w';
    AbsentWhenCharMissing(s, NotFoundMarker, 'w');
  }

  lemma LacksAlreadyExistsMarker(s: string)
    requires 'y' !in s
    ensures !Contains(s, AlreadyExistsMarker)
  {
    assert AlreadyExistsMarker[13] == 'y';
    AbsentWhenCharMissing(s, AlreadyExistsMarker, 'y');
  }

  // ---------------------------------------------------------------------------
  // What each action leaves in the destination zone

  /** An UPSERT to an existing zone stores the record set and gets the next id. */
  lemma UpsertStores(w: World, req: Request)
    requires ValidZones(w.zones)
    requires req.action == Upsert.Value() && req.hostedZoneId in w.zones
    ensures var hz := req.hostedZoneId;
      var f := req.evaluateTargetHealth;
      Modify(w, req) == (World(w.zones[hz := Upserted(w.zones[hz], RecordFor(req, f))],
                               w.log + [ChangeCall(hz, BatchFor(req, f))], w.nextChangeId + 1),
                         Ok(Some(ChangeInfo(w.nextChangeId))))
  {
    var hz := req.hostedZoneId;
    var f := req.evaluateTargetHealth;
    var b := BatchFor(req, f);
    var rec := RecordFor(req, f);
    assert b.changes == [Change(Upsert.Value(), rec)];
    ApplySingle(w.zones[hz], b.changes[0]);
    assert ApplyBatch(w.zones[hz], b.changes) == Ok(Upserted(w.zones[hz], rec));
    assert ChangeStep(w, hz, b) == (World(w.zones[hz := Upserted(w.zones[hz], rec)], w.log + [ChangeCall(hz, b)],
                                          w.nextChangeId + 1),
                                    Ok(ChangeInfo(w.nextChangeId)));
    ModifyUpsertIsOneCall(w, req);
  }

  /** A CREATE to an existing zone always ends with the record set stored:
      directly when its key is free, through one UPSERT when it is taken. */
  lemma CreateStores(w: World, req: Request)
    requires ValidZones(w.zones)
    requires req.action == Create.Value() && req.hostedZoneId in w.zones
    requires NoSpaces(req.name) && NoSpaces(req.rtype)
    ensures var hz := req.hostedZoneId;
      var f := req.evaluateTargetHealth;
      var create := ChangeCall(hz, BatchFor(req, f));
      var upsert := ChangeCall(hz, SingleChangeBatch(Upsert.Value(), req.name, req.rtype, req.aliasHostedZoneId,
                                                     req.aliasDnsName, f));
      Modify(w, req) == (World(w.zones[hz := Upserted(w.zones[hz], RecordFor(req, f))],
                               w.log + (if Find(w.zones[hz], Key(req.name, req.rtype)).Some? then [create, upsert] else [create]),
                               w.nextChangeId + 1),
                         Ok(Some(ChangeInfo(w.nextChangeId))))
  {
    if Find(w.zones[req.hostedZoneId], Key(req.name, req.rtype)).Some? {
      CreateOfTakenKey(w, req);
    } else {
      CreateOfFreeKey(w, req);
    }
  }

  lemma CreateOfFreeKey(w: World, req: Request)
    requires ValidZones(w.zones)
    requires req.action == Create.Value() && req.hostedZoneId in w.zones
    requires Find(w.zones[req.hostedZoneId], Key(req.name, req.rtype)).None?
    ensures var hz := req.hostedZoneId;
      var f := req.evaluateTargetHealth;
      Modify(w, req) == (World(w.zones[hz := Upserted(w.zones[hz], RecordFor(req, f))],
                               w.log + [ChangeCall(hz, BatchFor(req, f))], w.nextChangeId + 1),
                         Ok(Some(ChangeInfo(w.nextChangeId))))
  {
    FromValueOfValue(Create);
    var hz := req.hostedZoneId;
    var f := req.evaluateTargetHealth;
    var b := BatchFor(req, f);
    var rec := RecordFor(req, f);
    assert b.changes == [Change(Create.Value(), rec)];
    ApplySingle(w.zones[hz], b.changes[0]);
    assert ApplyChange(w.zones[hz], b.changes[0]) == Ok(Upserted(w.zones[hz], rec));
    assert ChangeStep(w, hz, b) == (World(w.zones[hz := Upserted(w.zones[hz], rec)], w.log + [ChangeCall(hz, b)],
                                          w.nextChangeId + 1),
                                    Ok(ChangeInfo(w.nextChangeId)));
  }

  lemma CreateOfTakenKey(w: World, req: Request)
    requires ValidZones(w.zones)
    requires req.action == Create.Value() && req.hostedZoneId in w.zones
    requires NoSpaces(req.name) && NoSpaces(req.rtype)
    requires Find(w.zones[req.hostedZoneId], Key(req.name, req.rtype)).Some?
    ensures var hz := req.hostedZoneId;
      var f := req.evaluateTargetHealth;
      var upsert := SingleChangeBatch(Upsert.Value(), req.name, req.rtype, req.aliasHostedZoneId, req.aliasDnsName, f);
      Modify(w, req) == (World(w.zones[hz := Upserted(w.zones[hz], RecordFor(req, f))],
                               w.log + [ChangeCall(hz, BatchFor(req, f)), ChangeCall(hz, upsert)],
                               w.nextChangeId + 1),
                         Ok(Some(ChangeInfo(w.nextChangeId))))
  {
    var hz := req.hostedZoneId;
    var f := req.evaluateTargetHealth;
    var b := BatchFor(req, f);
    var w1 := w.(log := w.log + [ChangeCall(hz, b)]);
    CreateOfTakenKeyIsRefused(w, req);
    CreateExistsClassified(req.name, req.rtype);
    RetriedAsUpsert(w, req, w1, f, CreateExistsMessage(req.name, req.rtype));
    var up := AsUpsert(req, f);
    var upsert := SingleChangeBatch(Upsert.Value(), req.name, req.rtype, req.aliasHostedZoneId, req.aliasDnsName, f);
    assert RecordFor(up, f) == RecordFor(req, f) && BatchFor(up, f) == upsert;
    var stored := Upserted(w.zones[hz], RecordFor(req, f));
    UpsertFromRefusal(w, w1, up, stored, upsert);
    assert w1.log + [ChangeCall(hz, upsert)] == w.log + [ChangeCall(hz, b), ChangeCall(hz, upsert)];
  }

  lemma UpsertFromRefusal(w: World, w1: World, up: Request, stored: seq<RecordSet>, upsert: ChangeBatch)
    requires ValidZones(w.zones) && up.action == Upsert.Value() && up.hostedZoneId in w.zones
    requires w1.zones == w.zones && w1.nextChangeId == w.nextChangeId
    requires stored == Upserted(w.zones[up.hostedZoneId], RecordFor(up, up.evaluateTargetHealth))
    requires upsert == BatchFor(up, up.evaluateTargetHealth)
    ensures Modify(w1, up) == (World(w.zones[up.hostedZoneId := stored], w1.log + [ChangeCall(up.hostedZoneId, upsert)],
                                     w.nextChangeId + 1),
                               Ok(Some(ChangeInfo(w.nextChangeId))))
  {
    UpsertStores(w1, up);
  }

  lemma CreateOfTakenKeyIsRefused(w: World, req: Request)
    requires ValidZones(w.zones)
    requires req.action == Create.Value() && req.hostedZoneId in w.zones
    requires Find(w.zones[req.hostedZoneId], Key(req.name, req.rtype)).Some?
    ensures var hz := req.hostedZoneId;
      var b := BatchFor(req, req.evaluateTargetHealth);
      ChangeStep(w, hz, b) ==
        (w.(log := w.log + [ChangeCall(hz, b)]), Err(InvalidChangeBatch(CreateExistsMessage(req.name, req.rtype))))
  {
    FromValueOfValue(Create);
    var b := BatchFor(req, req.evaluateTargetHealth);
    assert b.changes == [Change(Create.Value(), RecordFor(req, req.evaluateTargetHealth))];
    ApplySingle(w.zones[req.hostedZoneId], b.changes[0]);
  }

  /** Replaying a CREATE changes nothing more in the zones. */
  lemma CreateReplayIsIdempotent(w: World, req: Request)
    requires ValidZones(w.zones)
    requires req.action == Create.Value() && req.hostedZoneId in w.zones
    requires NoSpaces(req.name) && NoSpaces(req.rtype)
    ensures Modify(w, req).1.Ok?
    ensures Modify(Modify(w, req).0, req).1.Ok?
    ensures Modify(Modify(w, req).0, req).0.zones == Modify(w, req).0.zones
  {
    var hz := req.hostedZoneId;
    var rec := RecordFor(req, req.evaluateTargetHealth);
    CreateStores(w, req);
    var w1 := Modify(w, req).0;
    var once := Upserted(w.zones[hz], rec);
    assert w1.zones[hz] == once;
    UpsertTwice(w.zones[hz], rec);
    CreateOnStored(w1, req, once);
  }

  /** A CREATE whose record set is already what the zone holds leaves the zones as they are. */
  lemma CreateOnStored(w1: World, req: Request, once: seq<RecordSet>)
    requires ValidZones(w1.zones)
    requires req.action == Create.Value() && req.hostedZoneId in w1.zones
    requires NoSpaces(req.name) && NoSpaces(req.rtype)
    requires w1.zones[req.hostedZoneId] == once
    requires Upserted(once, RecordFor(req, req.evaluateTargetHealth)) == once
    ensures Modify(w1, req).1.Ok? && Modify(w1, req).0.zones == w1.zones
  {
    CreateStores(w1, req);
    assert w1.zones[req.hostedZoneId := once] == w1.zones;
  }

  /** The attempt of a DELETE whose lookup lists nothing or an alias record
      set: the lookup, then the change with the flag found. */
  lemma DeleteAttempt(w: World, req: Request)
    requires ValidZones(w.zones)
    requires req.action == Delete.Value() && req.hostedZoneId in w.zones
    requires var listed := ListFrom(w.zones[req.hostedZoneId], Key(req.name, req.rtype), ListMaxItems);
      |listed| == 0 || listed[0].aliasTarget.Some?
    ensures var hz := req.hostedZoneId;
      var wl := w.(log := w.log + [ListCall(hz, req.name, req.rtype, ListMaxItems)]);
      var f := DeleteFlag(w, req);
      var (w2, r) := ChangeStep(wl, hz, BatchFor(req, f));
      Attempt(w, req) == Attempted(w2, f, r)
  {
    var hz := req.hostedZoneId;
    var listed := ListFrom(w.zones[hz], Key(req.name, req.rtype), ListMaxItems);
    assert ListStep(w, hz, req.name, req.rtype, ListMaxItems)
      == (w.(log := w.log + [ListCall(hz, req.name, req.rtype, ListMaxItems)]), Ok(listed));
    assert DeleteEvalHealth(listed, req.evaluateTargetHealth) == Ok(DeleteFlag(w, req));
  }

  /** With the key stored as an alias record set, the DELETE is sent with the
      stored flag and carries exactly the stored record set. */
  lemma DeleteOfStoredSendsIt(w: World, req: Request)
    requires ValidZones(w.zones)
    requires req.action == Delete.Value() && req.hostedZoneId in w.zones
    requires Find(w.zones[req.hostedZoneId], Key(req.name, req.rtype)).Some?
    requires Find(w.zones[req.hostedZoneId], Key(req.name, req.rtype)).value.aliasTarget.Some?
    ensures var stored := Find(w.zones[req.hostedZoneId], Key(req.name, req.rtype)).value;
      var f := stored.aliasTarget.value.evaluateTargetHealth;
      && DeleteFlag(w, req) == f
      && BatchFor(req, f).changes == [Change(Delete.Value(), RecordFor(req, f))]
      && ListFrom(w.zones[req.hostedZoneId], Key(req.name, req.rtype), ListMaxItems) == [stored]
  {
    ListingFindsStored(w.zones[req.hostedZoneId], Key(req.name, req.rtype));
  }

  /** A DELETE of a stored alias record set removes it, whatever flag the
      request carried: the stored flag is the one sent. */
  lemma DeleteRemovesStored(w: World, req: Request)
    requires ValidZones(w.zones)
    requires req.action == Delete.Value() && req.hostedZoneId in w.zones
    requires Find(w.zones[req.hostedZoneId], Key(req.name, req.rtype)).Some?
    requires var stored := Find(w.zones[req.hostedZoneId], Key(req.name, req.rtype)).value;
      stored.aliasTarget.Some? && stored.aliasTarget.value.hostedZoneId == req.aliasHostedZoneId
      && stored.aliasTarget.value.dnsName == req.aliasDnsName
    ensures var hz := req.hostedZoneId;
      var stored := Find(w.zones[hz], Key(req.name, req.rtype)).value;
      var f := stored.aliasTarget.value.evaluateTargetHealth;
      Modify(w, req) == (World(w.zones[hz := Removed(w.zones[hz], Key(req.name, req.rtype))],
                               w.log + [ListCall(hz, req.name, req.rtype, ListMaxItems), ChangeCall(hz, BatchFor(req, f))],
                               w.nextChangeId + 1),
                         Ok(Some(ChangeInfo(w.nextChangeId))))
  {
    FromValueOfValue(Delete);
    var hz := req.hostedZoneId;
    var zone := w.zones[hz];
    var stored := Find(zone, Key(req.name, req.rtype)).value;
    var f := stored.aliasTarget.value.evaluateTargetHealth;
    DeleteOfStoredSendsIt(w, req);
    DeleteAttempt(w, req);
    assert stored == RecordFor(req, f);
    var b := BatchFor(req, f);
    ApplySingle(zone, b.changes[0]);
    assert ApplyChange(zone, b.changes[0]) == Ok(Removed(zone, Key(req.name, req.rtype)));
    var wl := w.(log := w.log + [ListCall(hz, req.name, req.rtype, ListMaxItems)]);
    var w2 := World(w.zones[hz := Removed(zone, Key(req.name, req.rtype))], wl.log + [ChangeCall(hz, b)], w.nextChangeId + 1);
    assert ChangeStep(wl, hz, b) == (w2, Ok(ChangeInfo(w.nextChangeId)));
    ModifyOutcome(w, req);
    assert wl.log + [ChangeCall(hz, b)] == w.log + [ListCall(hz, req.name, req.rtype, ListMaxItems), ChangeCall(hz, b)];
  }

  /** A DELETE of a key that is not stored changes nothing and is reported as
      done, unless the record set listed in its place is a plain one. */
  lemma DeleteOfAbsentIsNoop(w: World, req: Request)
    requires ValidZones(w.zones)
    requires req.action == Delete.Value() && req.hostedZoneId in w.zones
    requires Find(w.zones[req.hostedZoneId], Key(req.name, req.rtype)).None?
    requires var listed := ListFrom(w.zones[req.hostedZoneId], Key(req.name, req.rtype), ListMaxItems);
      |listed| == 0 || listed[0].aliasTarget.Some?
    ensures var hz := req.hostedZoneId;
      Modify(w, req) == (w.(log := w.log + [ListCall(hz, req.name, req.rtype, ListMaxItems),
                                            ChangeCall(hz, BatchFor(req, DeleteFlag(w, req)))]),
                         Ok(None))
  {
    FromValueOfValue(Delete);
    var hz := req.hostedZoneId;
    var zone := w.zones[hz];
    var f := DeleteFlag(w, req);
    DeleteAttempt(w, req);
    var b := BatchFor(req, f);
    assert b.changes == [Change(Delete.Value(), RecordFor(req, f))];
    ApplySingle(zone, b.changes[0]);
    var e := InvalidChangeBatch(DeleteNotFoundMessage(req.name, req.rtype));
    assert ApplyChange(zone, b.changes[0]) == Err(e);
    var wl := w.(log := w.log + [ListCall(hz, req.name, req.rtype, ListMaxItems)]);
    assert ChangeStep(wl, hz, b) == (wl.(log := wl.log + [ChangeCall(hz, b)]), Err(e));
    DeleteNotFoundClassified(req.name, req.rtype);
    ModifyOutcome(w, req);
    assert wl.log + [ChangeCall(hz, b)] == w.log + [ListCall(hz, req.name, req.rtype, ListMaxItems), ChangeCall(hz, b)];
  }

  /** The lookup does not check the name it finds: when a plain record set is
      listed first, the DELETE fails before any change is sent. */
  lemma DeleteBesidePlainRecordFails(w: World, req: Request)
    requires ValidZones(w.zones)
    requires req.action == Delete.Value() && req.hostedZoneId in w.zones
    requires var listed := ListFrom(w.zones[req.hostedZoneId], Key(req.name, req.rtype), ListMaxItems);
      |listed| > 0 && listed[0].aliasTarget.None?
    ensures Modify(w, req) ==
              (w.(log := w.log + [ListCall(req.hostedZoneId, req.name, req.rtype, ListMaxItems)]),
               Err(KeyError("AliasTarget")))
  {
    var hz := req.hostedZoneId;
    var wl := w.(log := w.log + [ListCall(hz, req.name, req.rtype, ListMaxItems)]);
    assert Attempt(w, req) == Attempted(wl, req.evaluateTargetHealth, Err(KeyError("AliasTarget")));
    ModifyOutcome(w, req);
  }

  /** A DELETE of a stored alias record set that points elsewhere is refused,
      and the refusal is passed on. */
  lemma DeleteOfOtherTargetFails(w: World, req: Request)
    requires ValidZones(w.zones)
    requires req.action == Delete.Value() && req.hostedZoneId in w.zones
    requires NoSpaces(req.name) && NoSpaces(req.rtype)
    requires Find(w.zones[req.hostedZoneId], Key(req.name, req.rtype)).Some?
    requires var stored := Find(w.zones[req.hostedZoneId], Key(req.name, req.rtype)).value;
      stored.aliasTarget.Some?
      && (stored.aliasTarget.value.hostedZoneId != req.aliasHostedZoneId
          || stored.aliasTarget.value.dnsName != req.aliasDnsName)
    ensures var hz := req.hostedZoneId;
      var f := Find(w.zones[hz], Key(req.name, req.rtype)).value.aliasTarget.value.evaluateTargetHealth;
      Modify(w, req) == (w.(log := w.log + [ListCall(hz, req.name, req.rtype, ListMaxItems),
                                            ChangeCall(hz, BatchFor(req, f))]),
                         Err(InvalidChangeBatch(DeleteMismatchMessage(req.name, req.rtype))))
  {
    FromValueOfValue(Delete);
    var hz := req.hostedZoneId;
    var zone := w.zones[hz];
    var stored := Find(zone, Key(req.name, req.rtype)).value;
    var f := stored.aliasTarget.value.evaluateTargetHealth;
    DeleteOfStoredSendsIt(w, req);
    DeleteAttempt(w, req);
    assert stored != RecordFor(req, f);
    var b := BatchFor(req, f);
    ApplySingle(zone, b.changes[0]);
    var e := InvalidChangeBatch(DeleteMismatchMessage(req.name, req.rtype));
    assert ApplyChange(zone, b.changes[0]) == Err(e);
    var wl := w.(log := w.log + [ListCall(hz, req.name, req.rtype, ListMaxItems)]);
    assert ChangeStep(wl, hz, b) == (wl.(log := wl.log + [ChangeCall(hz, b)]), Err(e));
    DeleteMismatchUnclassified(req.name, req.rtype);
    ModifyOutcome(w, req);
    assert wl.log + [ChangeCall(hz, b)] == w.log + [ListCall(hz, req.name, req.rtype, ListMaxItems), ChangeCall(hz, b)];
  }

  /** An action string outside the three is refused by the service, and the
      refusal is passed on. */
  lemma UnknownActionFails(w: World, req: Request)
    requires ValidZones(w.zones)
    requires FromValue(req.action).None? && req.hostedZoneId in w.zones
    ensures Modify(w, req) ==
              (w.(log := w.log + [ChangeCall(req.hostedZoneId, BatchFor(req, req.evaluateTargetHealth))]),
               Err(InvalidInput(UnknownActionMessage(req.action))))
  {
    assert req.action != Delete.Value() && req.action != Upsert.Value();
  }

  /** A destination zone that does not exist fails every request, and nothing changes. */
  lemma MissingZoneFails(w: World, req: Request)
    requires ValidZones(w.zones)
    requires req.hostedZoneId !in w.zones
    ensures Modify(w, req).1 == Err(NoSuchHostedZone(req.hostedZoneId))
    ensures Modify(w, req).0.zones == w.zones
  {
  }

  /** Creating a record set that was not there and then deleting it, from
      any state whose zones are those the creation left, restores the zones. */
  lemma CreateThenDeleteRestores(w: World, req: Request, w1: World, deleteFlag: bool)
    requires ValidZones(w.zones)
    requires req.action == Create.Value() && req.hostedZoneId in w.zones
    requires Find(w.zones[req.hostedZoneId], Key(req.name, req.rtype)).None?
    requires w1.zones == Modify(w, req).0.zones
    ensures var del := req.(action := Delete.Value(), evaluateTargetHealth := deleteFlag);
      Modify(w, req).1.Ok? && Modify(w1, del).1.Ok? && Modify(w1, del).0.zones == w.zones
  {
    CreateOfFreeKey(w, req);
    DeleteOfCreated(w, req.(action := Delete.Value(), evaluateTargetHealth := deleteFlag), w1,
                    RecordFor(req, req.evaluateTargetHealth));
  }

  /** The DELETE half: removing a record set stored under a key that was free
      gives back the zones from before. */
  lemma DeleteOfCreated(w: World, del: Request, w1: World, rec: RecordSet)
    requires ValidZones(w.zones)
    requires del.action == Delete.Value() && del.hostedZoneId in w.zones
    requires rec.aliasTarget.Some? && rec.aliasTarget.value.hostedZoneId == del.aliasHostedZoneId
             && rec.aliasTarget.value.dnsName == del.aliasDnsName
    requires KeyOf(rec) == Key(del.name, del.rtype)
    requires Find(w.zones[del.hostedZoneId], Key(del.name, del.rtype)).None?
    requires w1.zones == w.zones[del.hostedZoneId := Upserted(w.zones[del.hostedZoneId], rec)]
    ensures Modify(w1, del).1.Ok? && Modify(w1, del).0.zones == w.zones
  {
    var hz := del.hostedZoneId;
    var zone1 := Upserted(w.zones[hz], rec);
    assert ValidZones(w1.zones);
    assert rec in zone1;
    RemoveAfterUpsert(w.zones[hz], rec);
    DeleteOfStored(w.zones, hz, zone1, del, w1, rec);
  }

  lemma DeleteOfStored(zones: map<string, seq<RecordSet>>, hz: string, zone1: seq<RecordSet>, del: Request,
                       w1: World, rec: RecordSet)
    requires ValidZones(w1.zones) && hz == del.hostedZoneId && hz in zones
    requires del.action == Delete.Value()
    requires rec.aliasTarget.Some? && rec.aliasTarget.value.hostedZoneId == del.aliasHostedZoneId
             && rec.aliasTarget.value.dnsName == del.aliasDnsName
    requires w1.zones == zones[hz := zone1] && Sorted(zone1)
    requires Find(zone1, Key(del.name, del.rtype)) == Some(rec) && Removed(zone1, Key(del.name, del.rtype)) == zones[hz]
    ensures Modify(w1, del).1.Ok? && Modify(w1, del).0.zones == zones
  {
    DeleteRemovesStored(w1, del);
    assert w1.zones[hz := zones[hz]] == zones;
  }

  /** A replicated change whose engine call succeeds, with every change in
      sync within the waiter's budget, maps to `true` and leaves the zones as
      the engine left them. */
  lemma SucceedingChange(config: Config, polls: nat -> nat, w: World, c: EventChange)
    requires ValidZones(w.zones)
    requires Replicated(config, c) && Modify(w, RequestFor(config, c)).1.Ok?
    requires forall id :: polls(id) <= WaiterMaxAttempts
    ensures Process(config, polls, w, [c]).1 == Ok(map[c.resourceRecordSet.name := true])
    ensures Process(config, polls, w, [c]).0.zones == Modify(w, RequestFor(config, c)).0.zones
  {
    assert [c][..0] == [];
    ProcessChangeWaits(config, polls, w, c);
    var out := ProcessChange(config, polls, w, c);
    assert out.1 == Ok(true);
    assert out.0.zones == Modify(w, RequestFor(config, c)).0.zones;
    assert Process(config, polls, w, [c]) == (out.0, Ok(map[][c.resourceRecordSet.name := true]));
  }

  /** One event that creates an alias record set and a later one that deletes
      the record set with the same name, type and alias target, whatever its
      health flag: both map the name to `true`, and the zones end as they began. */
  lemma CreateThenDeleteEvents(config: Config, polls: nat -> nat, w: World, c: EventChange, d: EventChange)
    requires ValidZones(w.zones)
    requires c.action == Create.Value() && d.action == Delete.Value()
    requires d.resourceRecordSet.name == c.resourceRecordSet.name && d.resourceRecordSet.rtype == c.resourceRecordSet.rtype
    requires d.resourceRecordSet.aliasTarget.hostedZoneId == c.resourceRecordSet.aliasTarget.hostedZoneId
    requires d.resourceRecordSet.aliasTarget.dNSName == c.resourceRecordSet.aliasTarget.dNSName
    requires Replicated(config, c) && Replicated(config, d)
    requires config.destHostedZoneId in w.zones
    requires Find(w.zones[config.destHostedZoneId], Key(c.resourceRecordSet.name, c.resourceRecordSet.rtype)).None?
    requires forall id :: polls(id) <= WaiterMaxAttempts
    ensures var (w1, r1) := Process(config, polls, w, [c]);
      var (w2, r2) := Process(config, polls, w1, [d]);
      && r1 == Ok(map[c.resourceRecordSet.name := true])
      && r2 == Ok(map[c.resourceRecordSet.name := true])
      && w2.zones == w.zones
  {
    var req := RequestFor(config, c);
    var del := RequestFor(config, d);
    var f := d.resourceRecordSet.aliasTarget.evaluateTargetHealth;
    assert del == req.(action := Delete.Value(), evaluateTargetHealth := f);
    SucceedingChange(config, polls, w, c);
    var w1 := Process(config, polls, w, [c]).0;
    CreateThenDeleteRestores(w, req, w1, f);
    SucceedingChange(config, polls, w1, d);
  }
}
