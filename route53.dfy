/** The remote DNS service the replication engine talks to, as a deterministic
    model: hosted zones holding alias record sets, the three operations the
    engine uses (list record sets, change record sets, wait for a change to be
    in sync) and a log of every request made. */
module Route53 {
  import opened Wrappers
  import opened Strings
  import opened Actions

  datatype AliasTarget = AliasTarget(hostedZoneId: string, dnsName: string, evaluateTargetHealth: bool)

  /** A record set; `aliasTarget` is `None` for a plain record (one that holds
      resource record values instead of pointing at another resource). */
  datatype RecordSet = RecordSet(name: string, rtype: string, aliasTarget: Option<AliasTarget>)

  /** Name and type identify a record set within a hosted zone. */
  datatype Key = Key(name: string, rtype: string)

  function KeyOf(r: RecordSet): Key
  {
    Key(r.name, r.rtype)
  }

  /** One entry of a change batch; `action` is sent as the string it is given. */
  datatype Change = Change(action: string, recordSet: RecordSet)

  datatype ChangeBatch = ChangeBatch(comment: string, changes: seq<Change>)

  /** What an accepted change batch returns: the id to wait on. */
  datatype ChangeInfo = ChangeInfo(id: nat)

  /** The exceptions that can reach the replication engine. */
  datatype Failure =
    | InvalidChangeBatch(message: string)
    | InvalidInput(message: string)
    | NoSuchHostedZone(hostedZoneId: string)
    | WaiterTimeout(changeId: nat)
      /** raised by client code that reads a field a listed record does not have */
    | KeyError(key: string)

  datatype Result<+T> = Ok(value: T) | Err(error: Failure)

  /** A request as the service receives it. */
  datatype Call =
    | ListCall(hostedZoneId: string, startRecordName: string, startRecordType: string, maxItems: nat)
    | ChangeCall(hostedZoneId: string, changeBatch: ChangeBatch)
    | WaitCall(changeId: nat, delay: nat, maxAttempts: nat)

  /** The whole observable state of the service: its zones, the requests it has
      received, and the id the next accepted change batch gets. */
  datatype World = World(zones: map<string, seq<RecordSet>>, log: seq<Call>, nextChangeId: nat)

  // ---------------------------------------------------------------------------
  // Messages of rejected change batches (name and type quoted as the service
  // quotes them)

  /** A message quoting a record set's name and type between a fixed head and tail. */
  function QuotedMessage(head: string, name: string, rtype: string, tail: string): string
  {
    head + "'" + name + "'" + ", type=" + "'" + rtype + "'" + tail
  }

  function CreateExistsMessage(name: string, rtype: string): string
  {
    QuotedMessage("[" + CreateText + "[name=", name, rtype, "] " + ExistsText + "]")
  }

  function DeleteNotFoundMessage(name: string, rtype: string): string
  {
    QuotedMessage("[" + DeleteText + "[name=", name, rtype, "] " + NotFoundText + "]")
  }

  function DeleteMismatchMessage(name: string, rtype: string): string
  {
    QuotedMessage("[" + DeleteText + "[name=", name, rtype, "] " + MismatchText + "]")
  }

  // The fixed texts, in short pieces only to keep proofs about them small.
  // They are the service's, and kept apart from the texts the engine
  // searches for (module Decisions), which are proved to occur in them.
  const CreateText: string := "Tried to create " + "resource record " + "set "
  const DeleteText: string := "Tried to delete " + "resource record " + "set "
  const ExistsText: string := "but it already " + "exists"
  const NotFoundText: string := "but it was " + "not found"
  const MismatchText: string := "but the values " + "provided do not " + "match the current values"

  function UnknownActionMessage(action: string): string
  {
    "Invalid change action: " + action
  }

  // ---------------------------------------------------------------------------
  // Record sets are kept in the order the service lists them

  predicate KeyBefore(a: Key, b: Key)
  {
    Before(a.name, b.name) || (a.name == b.name && Before(a.rtype, b.rtype))
  }

  lemma KeyBeforeIrreflexive(a: Key)
    ensures !KeyBefore(a, a)
  {
    BeforeIrreflexive(a.name);
    BeforeIrreflexive(a.rtype);
  }

  lemma KeyBeforeTransitive(a: Key, b: Key, c: Key)
    requires KeyBefore(a, b) && KeyBefore(b, c)
    ensures KeyBefore(a, c)
  {
    if Before(a.name, b.name) && Before(b.name, c.name) {
      BeforeTransitive(a.name, b.name, c.name);
    } else if a.name == b.name && b.name == c.name {
      BeforeTransitive(a.rtype, b.rtype, c.rtype);
    }
  }

  lemma KeyBeforeTotal(a: Key, b: Key)
    requires a != b
    ensures KeyBefore(a, b) || KeyBefore(b, a)
  {
    if a.name != b.name {
      BeforeTotal(a.name, b.name);
    } else {
      BeforeTotal(a.rtype, b.rtype);
    }
  }

  /** Strictly increasing keys, so no key occurs twice. */
  ghost predicate Sorted(rs: seq<RecordSet>)
  {
    forall i, j :: 0 <= i < j < |rs| ==> KeyBefore(KeyOf(rs[i]), KeyOf(rs[j]))
  }

  ghost predicate ValidZones(zones: map<string, seq<RecordSet>>)
  {
    forall z :: z in zones ==> Sorted(zones[z])
  }

  /** The position of the first record set whose key is not before `k`. */
  function FirstAtOrAfter(rs: seq<RecordSet>, k: Key): (i: nat)
    ensures i <= |rs|
    ensures forall j :: 0 <= j < i ==> KeyBefore(KeyOf(rs[j]), k)
    ensures i < |rs| ==> !KeyBefore(KeyOf(rs[i]), k)
  {
    if |rs| == 0 || !KeyBefore(KeyOf(rs[0]), k) then 0
    else 1 + FirstAtOrAfter(rs[1..], k)
  }

  /** In a sorted list, everything from that position on is not before `k`. */
  lemma AtOrAfterFromFirst(rs: seq<RecordSet>, k: Key, j: int)
    requires Sorted(rs)
    requires FirstAtOrAfter(rs, k) <= j < |rs|
    ensures !KeyBefore(KeyOf(rs[j]), k)
  {
    var i := FirstAtOrAfter(rs, k);
    if i < j {
      SortedAt(rs, i, j);
      NotBeforeAfterward(KeyOf(rs[i]), KeyOf(rs[j]), k);
    }
  }

  lemma NotBeforeAfterward(ki: Key, kj: Key, k: Key)
    requires !KeyBefore(ki, k) && KeyBefore(ki, kj)
    ensures !KeyBefore(kj, k)
  {
    if KeyBefore(kj, k) {
      KeyBeforeTransitive(ki, kj, k);
    }
  }

  /** The record sets a listing that starts at `start` returns, at most
      `maxItems` of them: the first ones, in order, whose key is not before
      `start`. Their names need not be `start`'s. The contract pins down the
      first item only, which is all the engine's one-item lookup uses. */
  function ListFrom(rs: seq<RecordSet>, start: Key, maxItems: nat): (r: seq<RecordSet>)
    ensures |r| <= maxItems
    ensures forall x :: x in r ==> x in rs
    ensures Sorted(rs) ==> forall x :: x in r ==> !KeyBefore(KeyOf(x), start)
    ensures r == [] <==> maxItems == 0 || forall x :: x in rs ==> KeyBefore(KeyOf(x), start)
    ensures Sorted(rs) && r != [] ==>
              forall x :: x in rs && !KeyBefore(KeyOf(x), start) && x != r[0] ==> KeyBefore(KeyOf(r[0]), KeyOf(x))
  {
    var i := FirstAtOrAfter(rs, start);
    var e := if i + maxItems <= |rs| then i + maxItems else |rs|;
    ListedRunFacts(rs, start, maxItems, i, e);
    rs[i..e]
  }

  lemma ListedRunFacts(rs: seq<RecordSet>, start: Key, maxItems: nat, i: nat, e: nat)
    requires i == FirstAtOrAfter(rs, start)
    requires e == if i + maxItems <= |rs| then i + maxItems else |rs|
    ensures var r := rs[i..e];
      && (forall x :: x in r ==> x in rs)
      && (Sorted(rs) ==> forall x :: x in r ==> !KeyBefore(KeyOf(x), start))
      && (r == [] <==> maxItems == 0 || forall x :: x in rs ==> KeyBefore(KeyOf(x), start))
      && (Sorted(rs) && r != [] ==>
            forall x :: x in rs && !KeyBefore(KeyOf(x), start) && x != r[0] ==> KeyBefore(KeyOf(r[0]), KeyOf(x)))
  {
    var r := rs[i..e];
    assert forall x :: x in r ==> x in rs;
    ListedEmptyIff(rs, start, maxItems, i, e);
    if Sorted(rs) {
      ListedNotBefore(rs, start, i, e);
      if r != [] {
        ListedFirstIsLeast(rs, start, i, e);
      }
    }
  }

  lemma ListedEmptyIff(rs: seq<RecordSet>, start: Key, maxItems: nat, i: nat, e: nat)
    requires i == FirstAtOrAfter(rs, start)
    requires e == if i + maxItems <= |rs| then i + maxItems else |rs|
    ensures rs[i..e] == [] <==> maxItems == 0 || forall x :: x in rs ==> KeyBefore(KeyOf(x), start)
  {
    if maxItems > 0 && i < |rs| {
      assert rs[i] in rs && !KeyBefore(KeyOf(rs[i]), start);
    }
    if maxItems > 0 && i == |rs| {
      forall x | x in rs ensures KeyBefore(KeyOf(x), start) {
        var j :| 0 <= j < |rs| && rs[j] == x;
      }
    }
  }

  lemma ListedNotBefore(rs: seq<RecordSet>, start: Key, i: nat, e: nat)
    requires Sorted(rs) && i == FirstAtOrAfter(rs, start) && i <= e <= |rs|
    ensures forall x :: x in rs[i..e] ==> !KeyBefore(KeyOf(x), start)
  {
    forall x | x in rs[i..e] ensures !KeyBefore(KeyOf(x), start) {
      var j :| 0 <= j < e - i && rs[i..e][j] == x;
      assert rs[i + j] == x;
      AtOrAfterFromFirst(rs, start, i + j);
    }
  }

  lemma ListedFirstIsLeast(rs: seq<RecordSet>, start: Key, i: nat, e: nat)
    requires Sorted(rs) && i == FirstAtOrAfter(rs, start) && i < e <= |rs|
    ensures forall x :: x in rs && !KeyBefore(KeyOf(x), start) && x != rs[i] ==> KeyBefore(KeyOf(rs[i]), KeyOf(x))
  {
    forall x | x in rs && !KeyBefore(KeyOf(x), start) && x != rs[i]
      ensures KeyBefore(KeyOf(rs[i]), KeyOf(x))
    {
      var j :| 0 <= j < |rs| && rs[j] == x;
      assert j != i;
    }
  }

  /** The record set stored under `k`, if any. */
  function Find(rs: seq<RecordSet>, k: Key): (r: Option<RecordSet>)
    requires Sorted(rs)
    ensures r.Some? ==> r.value in rs && KeyOf(r.value) == k
    ensures r.None? ==> forall x :: x in rs ==> KeyOf(x) != k
  {
    var i := FirstAtOrAfter(rs, k);
    if i < |rs| && KeyOf(rs[i]) == k then Some(rs[i])
    else
      AbsentUnlessAtFirst(rs, k);
      None
  }

  /** In a sorted list, a key can only be stored at its first-at-or-after position. */
  lemma AbsentUnlessAtFirst(rs: seq<RecordSet>, k: Key)
    requires Sorted(rs)
    requires var i := FirstAtOrAfter(rs, k); !(i < |rs| && KeyOf(rs[i]) == k)
    ensures forall x :: x in rs ==> KeyOf(x) != k
  {
    forall x | x in rs ensures KeyOf(x) != k {
      var j :| 0 <= j < |rs| && rs[j] == x;
      KeyBeforeIrreflexive(k);
    }
  }

  /** Replacing the stretch `rs[lo..hi]` by one record whose key lies strictly
      between its neighbours keeps the list sorted. */
  lemma SortedSplice(rs: seq<RecordSet>, lo: nat, hi: nat, rec: RecordSet)
    requires Sorted(rs) && lo <= hi <= |rs|
    requires forall j :: 0 <= j < lo ==> KeyBefore(KeyOf(rs[j]), KeyOf(rec))
    requires forall j :: hi <= j < |rs| ==> KeyBefore(KeyOf(rec), KeyOf(rs[j]))
    ensures Sorted(rs[..lo] + [rec] + rs[hi..])
  {
    var r := rs[..lo] + [rec] + rs[hi..];
    assert forall p :: 0 <= p < |r| ==>
      r[p] == (if p < lo then rs[p] else if p == lo then rec else rs[hi + p - lo - 1]);
  }

  /** Dropping one element keeps a list sorted. */
  lemma SortedWithout(rs: seq<RecordSet>, i: nat)
    requires Sorted(rs) && i < |rs|
    ensures Sorted(rs[..i] + rs[i + 1..])
  {
    var r := rs[..i] + rs[i + 1..];
    assert forall p :: 0 <= p < |r| ==> r[p] == (if p < i then rs[p] else rs[p + 1]);
  }

  /** A sorted list holds at most one record set per key. */
  lemma KeysUnique(rs: seq<RecordSet>, i: int, j: int)
    requires Sorted(rs) && 0 <= i < |rs| && 0 <= j < |rs|
    requires KeyOf(rs[i]) == KeyOf(rs[j])
    ensures i == j
  {
    KeyBeforeIrreflexive(KeyOf(rs[i]));
  }

  /** The list after storing `rec` under its key, replacing what was there. */
  function Upserted(rs: seq<RecordSet>, rec: RecordSet): (r: seq<RecordSet>)
    requires Sorted(rs)
    ensures Sorted(r)
    ensures forall x :: x in r <==> x == rec || (x in rs && KeyOf(x) != KeyOf(rec))
  {
    var k := KeyOf(rec);
    var i := FirstAtOrAfter(rs, k);
    var hi := if i < |rs| && KeyOf(rs[i]) == k then i + 1 else i;
    UpsertedFacts(rs, rec, i, hi);
    rs[..i] + [rec] + rs[hi..]
  }

  lemma UpsertedFacts(rs: seq<RecordSet>, rec: RecordSet, i: nat, hi: nat)
    requires Sorted(rs)
    requires i == FirstAtOrAfter(rs, KeyOf(rec))
    requires hi == if i < |rs| && KeyOf(rs[i]) == KeyOf(rec) then i + 1 else i
    ensures var r := rs[..i] + [rec] + rs[hi..];
      Sorted(r) && forall x :: x in r <==> x == rec || (x in rs && KeyOf(x) != KeyOf(rec))
  {
    LaterKeysAfter(rs, rec, i, hi);
    SortedSplice(rs, i, hi, rec);
    forall x ensures x in rs[..i] + [rec] + rs[hi..] <==> x == rec || (x in rs && KeyOf(x) != KeyOf(rec)) {
      SpliceMembers(rs, rec, i, hi, x);
    }
  }

  lemma LaterKeysAfter(rs: seq<RecordSet>, rec: RecordSet, i: nat, hi: nat)
    requires Sorted(rs)
    requires i == FirstAtOrAfter(rs, KeyOf(rec))
    requires hi == if i < |rs| && KeyOf(rs[i]) == KeyOf(rec) then i + 1 else i
    ensures forall j :: hi <= j < |rs| ==> KeyBefore(KeyOf(rec), KeyOf(rs[j]))
  {
    forall j | hi <= j < |rs| ensures KeyBefore(KeyOf(rec), KeyOf(rs[j])) {
      LaterKeyAfter(rs, rec, i, hi, j);
    }
  }

  lemma LaterKeyAfter(rs: seq<RecordSet>, rec: RecordSet, i: nat, hi: nat, j: nat)
    requires Sorted(rs)
    requires i == FirstAtOrAfter(rs, KeyOf(rec))
    requires hi == if i < |rs| && KeyOf(rs[i]) == KeyOf(rec) then i + 1 else i
    requires hi <= j < |rs|
    ensures KeyBefore(KeyOf(rec), KeyOf(rs[j]))
  {
    var k, ki, kj := KeyOf(rec), KeyOf(rs[i]), KeyOf(rs[j]);
    if hi == i + 1 {
      SortedAt(rs, i, j);
    } else if j == i {
      KeyPastFirst(k, ki, ki);
    } else {
      SortedAt(rs, i, j);
      KeyPastFirst(k, ki, kj);
    }
  }

  lemma SortedAt(rs: seq<RecordSet>, i: nat, j: nat)
    requires Sorted(rs) && i < j < |rs|
    ensures KeyBefore(KeyOf(rs[i]), KeyOf(rs[j]))
  {
  }

  /** A key other than `k` and not before it is after `k`, and so is anything
      at or after that key. */
  lemma KeyPastFirst(k: Key, ki: Key, kj: Key)
    requires ki != k && !KeyBefore(ki, k)
    requires ki == kj || KeyBefore(ki, kj)
    ensures KeyBefore(k, kj)
  {
    KeyBeforeTotal(ki, k);
    if ki != kj {
      KeyBeforeTransitive(k, ki, kj);
    }
  }

  /** Membership after a splice, from where the keys around it lie. */
  lemma SpliceMembers(rs: seq<RecordSet>, rec: RecordSet, i: nat, hi: nat, x: RecordSet)
    requires i <= hi <= |rs| && (hi == i || (hi == i + 1 && KeyOf(rs[i]) == KeyOf(rec)))
    requires forall j :: 0 <= j < i ==> KeyBefore(KeyOf(rs[j]), KeyOf(rec))
    requires forall j :: hi <= j < |rs| ==> KeyBefore(KeyOf(rec), KeyOf(rs[j]))
    ensures x in rs[..i] + [rec] + rs[hi..] <==> x == rec || (x in rs && KeyOf(x) != KeyOf(rec))
  {
    var k := KeyOf(rec);
    KeyBeforeIrreflexive(k);
    assert x in rs[..i] + [rec] + rs[hi..] <==> x == rec || x in rs[..i] || x in rs[hi..];
    if x in rs[..i] {
      var q :| 0 <= q < i && rs[..i][q] == x;
      assert rs[q] == x;
    }
    if x in rs[hi..] {
      var q :| 0 <= q < |rs[hi..]| && rs[hi..][q] == x;
      assert rs[hi + q] == x;
    }
    if x in rs && KeyOf(x) != k {
      var j :| 0 <= j < |rs| && rs[j] == x;
      if j < i {
        assert x == rs[..i][j];
      } else {
        assert j >= hi;
        assert x == rs[hi..][j - hi];
      }
    }
  }

  /** The list after removing the record set stored under `k`, if there is one. */
  function Removed(rs: seq<RecordSet>, k: Key): (r: seq<RecordSet>)
    requires Sorted(rs)
    ensures Sorted(r)
    ensures forall x :: x in r <==> x in rs && KeyOf(x) != k
  {
    var i := FirstAtOrAfter(rs, k);
    if i < |rs| && KeyOf(rs[i]) == k then
      RemovedFacts(rs, k, i);
      rs[..i] + rs[i + 1..]
    else
      AbsentUnlessAtFirst(rs, k);
      rs
  }

  lemma RemovedFacts(rs: seq<RecordSet>, k: Key, i: nat)
    requires Sorted(rs) && i < |rs| && KeyOf(rs[i]) == k
    ensures var r := rs[..i] + rs[i + 1..];
      Sorted(r) && forall x :: x in r <==> x in rs && KeyOf(x) != k
  {
    SortedWithout(rs, i);
    forall x ensures x in rs[..i] + rs[i + 1..] <==> x in rs && KeyOf(x) != k {
      RemovedMember(rs, k, i, x);
    }
  }

  lemma RemovedMember(rs: seq<RecordSet>, k: Key, i: nat, x: RecordSet)
    requires Sorted(rs) && i < |rs| && KeyOf(rs[i]) == k
    ensures x in rs[..i] + rs[i + 1..] <==> x in rs && KeyOf(x) != k
  {
    var r := rs[..i] + rs[i + 1..];
    if x in rs && KeyOf(x) != k {
      var j :| 0 <= j < |rs| && rs[j] == x;
      assert j != i;
      assert r[if j < i then j else j - 1] == x;
    }
    if x in r {
      var p :| 0 <= p < |r| && r[p] == x;
      var j := if p < i then p else p + 1;
      assert rs[j] == x;
      if KeyOf(x) == k {
        KeysUnique(rs, i, j);
      }
    }
  }

  /** A one-item listing from a stored key returns the record set stored there. */
  lemma ListingFindsStored(rs: seq<RecordSet>, k: Key)
    requires Sorted(rs)
    requires Find(rs, k).Some?
    ensures ListFrom(rs, k, 1) == [Find(rs, k).value]
  {
  }

  /** Two sorted lists with the same record sets are the same list. */
  lemma {:induction false} SortedSameMembers(a: seq<RecordSet>, b: seq<RecordSet>)
    requires Sorted(a) && Sorted(b)
    requires forall x :: x in a <==> x in b
    ensures a == b
    decreases |a|
  {
    assert |b| > 0 ==> b[0] in a;
    if a != [] {
      assert a[0] in b && b[0] in a;
      var i :| 0 <= i < |a| && a[i] == b[0];
      var j :| 0 <= j < |b| && b[j] == a[0];
      if i > 0 && j > 0 {
        assert KeyBefore(KeyOf(a[0]), KeyOf(b[0]));
        assert KeyBefore(KeyOf(b[0]), KeyOf(a[0]));
        KeyBeforeTransitive(KeyOf(a[0]), KeyOf(b[0]), KeyOf(a[0]));
        KeyBeforeIrreflexive(KeyOf(a[0]));
      }
      assert a[0] == b[0] by {
        if i == 0 {
        } else {
          assert j == 0;
        }
      }
      TailMembers(a);
      TailMembers(b);
      SortedSameMembers(a[1..], b[1..]);
      assert a == [a[0]] + a[1..] && b == [b[0]] + b[1..];
    }
  }

  /** Storing a record set under a free key and then removing that key gives
      back the original list. */
  lemma RemoveAfterUpsert(rs: seq<RecordSet>, rec: RecordSet)
    requires Sorted(rs)
    requires Find(rs, KeyOf(rec)).None?
    ensures Removed(Upserted(rs, rec), KeyOf(rec)) == rs
  {
    var r := Removed(Upserted(rs, rec), KeyOf(rec));
    assert forall x :: x in r <==> x in rs;
    SortedSameMembers(r, rs);
  }

  /** Storing the same record set twice is storing it once. */
  lemma UpsertTwice(rs: seq<RecordSet>, rec: RecordSet)
    requires Sorted(rs)
    ensures Upserted(Upserted(rs, rec), rec) == Upserted(rs, rec)
  {
    SortedSameMembers(Upserted(Upserted(rs, rec), rec), Upserted(rs, rec));
  }

  /** The tail of a sorted list is sorted and holds everything but the head. */
  lemma TailMembers(a: seq<RecordSet>)
    requires Sorted(a) && |a| > 0
    ensures Sorted(a[1..])
    ensures forall x :: x in a[1..] <==> x in a && x != a[0]
  {
    KeyBeforeIrreflexive(KeyOf(a[0]));
    forall x | x in a && x != a[0] ensures x in a[1..] {
      var j :| 0 <= j < |a| && a[j] == x;
      assert a[1..][j - 1] == x;
    }
    forall x | x in a[1..] ensures x != a[0] {
      var j :| 0 <= j < |a[1..]| && a[1..][j] == x;
      assert a[j + 1] == x;
    }
  }

  // ---------------------------------------------------------------------------
  // Applying change batches

  /** One change against a zone's record sets: CREATE needs the key to be free,
      DELETE needs the stored record set to equal the one given, UPSERT always
      stores it. An action string outside the three is refused as invalid input. */
  function ApplyChange(rs: seq<RecordSet>, c: Change): (r: Result<seq<RecordSet>>)
    requires Sorted(rs)
    ensures r.Ok? ==> Sorted(r.value)
    ensures c.action == Upsert.Value() ==> r == Ok(Upserted(rs, c.recordSet))
  {
    var rec := c.recordSet;
    var action := FromValue(c.action);
    if action == Some(Create) then
      if Find(rs, KeyOf(rec)).Some? then Err(InvalidChangeBatch(CreateExistsMessage(rec.name, rec.rtype)))
      else Ok(Upserted(rs, rec))
    else if action == Some(Delete) then
      match Find(rs, KeyOf(rec))
      case None => Err(InvalidChangeBatch(DeleteNotFoundMessage(rec.name, rec.rtype)))
      case Some(stored) =>
        if stored != rec then Err(InvalidChangeBatch(DeleteMismatchMessage(rec.name, rec.rtype)))
        else Ok(Removed(rs, KeyOf(rec)))
    else if action == Some(Upsert) then Ok(Upserted(rs, rec))
    else Err(InvalidInput(UnknownActionMessage(c.action)))
  }

  /** A batch is applied all or nothing: the first refused change refuses it. */
  function ApplyBatch(rs: seq<RecordSet>, cs: seq<Change>): (r: Result<seq<RecordSet>>)
    requires Sorted(rs)
    ensures r.Ok? ==> Sorted(r.value)
    ensures (forall i :: 0 <= i < |cs| ==> cs[i].action == Upsert.Value()) ==> r.Ok?
    decreases |cs|
  {
    if cs == [] then Ok(rs)
    else
      match ApplyChange(rs, cs[0])
      case Err(e) => Err(e)
      case Ok(rs1) => ApplyBatch(rs1, cs[1..])
  }

  /** A batch of one change is that change. */
  lemma ApplySingle(rs: seq<RecordSet>, c: Change)
    requires Sorted(rs)
    ensures ApplyBatch(rs, [c]) == ApplyChange(rs, c)
  {
    assert [c][1..] == [];
  }

  // ---------------------------------------------------------------------------
  // The service's operations on its whole state; every request is logged

  function ListStep(w: World, hostedZoneId: string, startName: string, startType: string, maxItems: nat)
    : (out: (World, Result<seq<RecordSet>>))
    ensures out.0 == w.(log := w.log + [ListCall(hostedZoneId, startName, startType, maxItems)])
    ensures out.1.Ok? <==> hostedZoneId in w.zones
    ensures out.1.Ok? ==> out.1.value == ListFrom(w.zones[hostedZoneId], Key(startName, startType), maxItems)
  {
    var w1 := w.(log := w.log + [ListCall(hostedZoneId, startName, startType, maxItems)]);
    if hostedZoneId in w.zones then (w1, Ok(ListFrom(w.zones[hostedZoneId], Key(startName, startType), maxItems)))
    else (w1, Err(NoSuchHostedZone(hostedZoneId)))
  }

  /** An accepted batch replaces the zone's record sets and gets the next change id. */
  function ChangeStep(w: World, hostedZoneId: string, batch: ChangeBatch): (out: (World, Result<ChangeInfo>))
    requires ValidZones(w.zones)
    ensures ValidZones(out.0.zones)
    ensures out.0.log == w.log + [ChangeCall(hostedZoneId, batch)]
    ensures out.1.Ok? ==> out.1.value.id == w.nextChangeId && out.0.nextChangeId == w.nextChangeId + 1
    ensures out.1.Err? ==> out.0.zones == w.zones && out.0.nextChangeId == w.nextChangeId
    ensures out.0.zones.Keys == w.zones.Keys
    ensures forall z :: z in w.zones && z != hostedZoneId ==> out.0.zones[z] == w.zones[z]
    ensures hostedZoneId in w.zones && (forall i :: 0 <= i < |batch.changes| ==> batch.changes[i].action == Upsert.Value())
            ==> out.1.Ok?
  {
    var w1 := w.(log := w.log + [ChangeCall(hostedZoneId, batch)]);
    if hostedZoneId !in w.zones then (w1, Err(NoSuchHostedZone(hostedZoneId)))
    else
      match ApplyBatch(w.zones[hostedZoneId], batch.changes)
      case Err(e) => (w1, Err(e))
      case Ok(rs) =>
        (w1.(zones := w.zones[hostedZoneId := rs], nextChangeId := w.nextChangeId + 1), Ok(ChangeInfo(w.nextChangeId)))
  }

  /** The propagation waiter polls at most `maxAttempts` times; it succeeds when
      the change is reported in sync within that budget and times out otherwise.
      How many polls a change needs is outside the service's own state. */
  function WaitStep(w: World, pollsUntilInSync: nat -> nat, changeId: nat, delay: nat, maxAttempts: nat)
    : (out: (World, Result<()>))
    ensures out.0 == w.(log := w.log + [WaitCall(changeId, delay, maxAttempts)])
    ensures out.1.Ok? <==> pollsUntilInSync(changeId) <= maxAttempts
    ensures out.1.Err? ==> out.1.error == WaiterTimeout(changeId)
  {
    var w1 := w.(log := w.log + [WaitCall(changeId, delay, maxAttempts)]);
    if pollsUntilInSync(changeId) <= maxAttempts then (w1, Ok(())) else (w1, Err(WaiterTimeout(changeId)))
  }

  /** The service as an object: the zones and the log are updated in place. */
  class Route53Service {
    var zones: map<string, seq<RecordSet>>
    var log: seq<Call>
    var nextChangeId: nat
    /** how many status checks each change needs before it is reported in sync */
    const pollsUntilInSync: nat -> nat

    ghost predicate Valid()
      reads this
    {
      ValidZones(zones)
    }

    function State(): World
      reads this
    {
      World(zones, log, nextChangeId)
    }

    constructor (zones: map<string, seq<RecordSet>>, pollsUntilInSync: nat -> nat)
      requires ValidZones(zones)
      ensures Valid()
      ensures State() == World(zones, [], 0) && this.pollsUntilInSync == pollsUntilInSync
    {
      this.zones := zones;
      this.log := [];
      this.nextChangeId := 0;
      this.pollsUntilInSync := pollsUntilInSync;
    }

    method ListResourceRecordSets(hostedZoneId: string, startRecordName: string, startRecordType: string, maxItems: nat)
      returns (r: Result<seq<RecordSet>>)
      requires Valid()
      modifies this`log
      ensures Valid()
      ensures (State(), r) == ListStep(old(State()), hostedZoneId, startRecordName, startRecordType, maxItems)
    {
      log := log + [ListCall(hostedZoneId, startRecordName, startRecordType, maxItems)];
      if hostedZoneId in zones {
        r := Ok(ListFrom(zones[hostedZoneId], Key(startRecordName, startRecordType), maxItems));
      } else {
        r := Err(NoSuchHostedZone(hostedZoneId));
      }
    }

    method ChangeResourceRecordSets(hostedZoneId: string, changeBatch: ChangeBatch) returns (r: Result<ChangeInfo>)
      requires Valid()
      modifies this`zones, this`log, this`nextChangeId
      ensures Valid()
      ensures (State(), r) == ChangeStep(old(State()), hostedZoneId, changeBatch)
    {
      log := log + [ChangeCall(hostedZoneId, changeBatch)];
      if hostedZoneId !in zones {
        r := Err(NoSuchHostedZone(hostedZoneId));
        return;
      }
      var applied := ApplyBatch(zones[hostedZoneId], changeBatch.changes);
      match applied
      case Err(e) =>
        r := Err(e);
      case Ok(rs) =>
        zones := zones[hostedZoneId := rs];
        r := Ok(ChangeInfo(nextChangeId));
        nextChangeId := nextChangeId + 1;
    }

    method WaitUntilResourceRecordSetsChanged(changeId: nat, delay: nat, maxAttempts: nat) returns (r: Result<()>)
      requires Valid()
      modifies this`log
      ensures Valid()
      ensures (State(), r) == WaitStep(old(State()), pollsUntilInSync, changeId, delay, maxAttempts)
    {
      log := log + [WaitCall(changeId, delay, maxAttempts)];
      if pollsUntilInSync(changeId) <= maxAttempts {
        r := Ok(());
      } else {
        r := Err(WaiterTimeout(changeId));
      }
    }
  }
}
