/**
 * addLocalEvidence of internal/localdiagnosis/diagnose.go: the socket inventory of the local host becomes
 * evidence records, one inventory result and one visibility assessment for each bucket of family and binding.
 */
module LocalDiagnosis {
  import opened Text
  import opened Model
  import opened Sorting
  import opened Procfs
  import ProcAttribution
  import ListenerAbsence

  /** What one collection over procfs yields; `tableComplete` holds the families whose table was read in full. */
  datatype Inventory = Inventory(
    port: nat,
    listeners: seq<Listener>,
    tableComplete: set<string>,
    namespaceInode: nat,
    namespaceComplete: bool,
    attribution: ProcAttribution.Attribution)

  const FAMILIES := ["IPV4", "IPV6"]

  // ---------------------------------------------------------------- collecting

  /** The rows of a family's table; none when the file cannot be read. */
  function RowsFound(tables: map<string, seq<seq<string>>>, family: string, port: nat): seq<Listener>
  {
    if family in tables then StableSort(ListenerLess, FoundIn(tables[family], family, port)) else []
  }

  ghost predicate TableIsComplete(tables: map<string, seq<seq<string>>>, family: string, port: nat)
  {
    family in tables && TableComplete(tables[family], family, port)
  }

  /** The inventory is that of the tables: their LISTEN rows on the port, and which of them were read in full. */
  ghost predicate Collected(tables: map<string, seq<seq<string>>>, namespaceInode: nat, inv: Inventory)
  {
    && multiset(inv.listeners) ==
       multiset(RowsFound(tables, "IPV4", inv.port)) + multiset(RowsFound(tables, "IPV6", inv.port))
    && (forall family :: family in inv.tableComplete <==>
          family in FAMILIES && TableIsComplete(tables, family, inv.port))
    && inv.namespaceInode == namespaceInode && (inv.namespaceComplete <==> namespaceInode != 0)
  }

  /** collectWithProcFS: both tables, the namespace inode (0 when it cannot be read) and the owners. */
  method CollectInventory(
    tables: map<string, seq<seq<string>>>, namespaceInode: nat, fs: Option<ProcAttribution.Snapshot>, port: nat)
    returns (inv: Inventory)
    ensures inv.port == port
    ensures fs.None? || port == 0 ==>
              inv == Inventory(port, [], {}, 0, false, ProcAttribution.Attribution(map[], false))
    ensures fs.Some? && port != 0 ==> Collected(tables, namespaceInode, inv)
  {
    if fs.None? || port == 0 {
      return Inventory(port, [], {}, 0, false, ProcAttribution.Attribution(map[], false));
    }
    var listeners: seq<Listener>, complete: set<string> := [], {};
    for i := 0 to |FAMILIES|
      invariant listeners == ListedIn(tables, port, i)
      invariant forall f :: f in complete <==> f in FAMILIES[..i] && TableIsComplete(tables, f, port)
    {
      var found, whole := ReadTable(tables, FAMILIES[i], port);
      listeners := listeners + found;
      if whole {
        complete := complete + {FAMILIES[i]};
      }
    }
    TwoTables(tables, port);
    StableSortPermutes(ListenerLess, listeners);
    listeners := StableSort(ListenerLess, listeners);
    var attribution := ProcAttribution.Attribute(fs, listeners);
    inv := Inventory(port, listeners, complete, namespaceInode, namespaceInode != 0, attribution);
  }

  method ReadTable(tables: map<string, seq<seq<string>>>, family: string, port: nat)
    returns (listeners: seq<Listener>, complete: bool)
    ensures listeners == RowsFound(tables, family, port)
    ensures complete <==> TableIsComplete(tables, family, port)
  {
    if family !in tables {
      return [], false;
    }
    listeners, complete := ParseTable(tables[family], family, port);
  }

  /** The listeners of the first n tables. */
  function ListedIn(tables: map<string, seq<seq<string>>>, port: nat, n: nat): seq<Listener>
    requires n <= |FAMILIES|
  {
    if n == 0 then [] else ListedIn(tables, port, n - 1) + RowsFound(tables, FAMILIES[n - 1], port)
  }

  lemma TwoTables(tables: map<string, seq<seq<string>>>, port: nat)
    ensures ListedIn(tables, port, 2) == RowsFound(tables, "IPV4", port) + RowsFound(tables, "IPV6", port)
  {
    assert ListedIn(tables, port, 1) == [] + RowsFound(tables, "IPV4", port);
  }

  // ---------------------------------------------------------------- local IDs

  const NAMESPACE: EntityID := "entity-local-network-namespace"
  const VANTAGE: VantageID := "vantage-local-host"

  const BINDINGS := ["LOOPBACK", "WILDCARD", "EXACT"]

  function FamilyToken(family: string): string { if family == "IPV6" then "ipv6" else "ipv4" }

  function BindingToken(binding: string): string
  {
    if binding == "LOOPBACK" then "loopback" else if binding == "WILDCARD" then "wildcard" else "exact"
  }

  /** %03d */
  function Three(n: nat): string { Pad(Itoa(n), 3) }

  function ListenerIdAt(n: nat): EntityID { "entity-local-listener-" + Three(n) }
  function ProcessId(pid: nat): EntityID { "entity-local-process-" + Itoa(pid) }
  function EntryIdAt(n: nat): ObservationID { "observation-local-listener-" + Three(n) }
  function OwnerIdAt(n: nat): ObservationID { "observation-local-owner-" + Three(n) }

  function ResultIdAt(family: string, binding: string, n: nat): ObservationID
  {
    "observation-local-result-" + FamilyToken(family) + "-" + BindingToken(binding) + "-" + Three(n)
  }

  function VisibilityIdAt(family: string, binding: string, n: nat): VisibilityID
  {
    "visibility-local-" + FamilyToken(family) + "-" + BindingToken(binding) + "-" + Three(n)
  }

  function LimitationIdAt(family: string, n: nat): LimitationID
  {
    "limitation-local-procfs-" + FamilyToken(family) + "-" + Three(n)
  }

  lemma NumberOfThree(n: nat)
    ensures AllDigits(Three(n)) && Value(Three(n)) == n
  {
    PadValue(Itoa(n), 3);
    ItoaValue(n);
  }

  lemma LongerNumberDiffers(p: string, x: string, q: string, y: string)
    requires AllDigits(y) && |x| < |y|
    ensures p + "-" + x != q + "-" + y
  {
    var s, t := p + "-" + x, q + "-" + y;
    if |s| == |t| {
      assert s[|p|] == '-';
      assert t[|p|] == y[|p| - |q| - 1] && IsDigit(y[|p| - |q| - 1]);
    }
  }

  /** Behind the last dash there is the number and nothing else. */
  lemma NumberEndsId(p: string, m: nat, q: string, n: nat)
    requires p + "-" + Three(m) == q + "-" + Three(n)
    ensures m == n
  {
    NumberOfThree(m);
    NumberOfThree(n);
    var s, x, y := p + "-" + Three(m), Three(m), Three(n);
    if |x| < |y| {
      LongerNumberDiffers(p, x, q, y);
    } else if |y| < |x| {
      LongerNumberDiffers(q, y, p, x);
    } else {
      assert s[|p| + 1..] == x && s[|q| + 1..] == y;
    }
  }

  /** However long a counter has run, no two results it numbers share an ID, whatever their buckets. */
  lemma ResultIdsDiffer(f: string, b: string, m: nat, g: string, c: string, n: nat)
    requires m != n
    ensures ResultIdAt(f, b, m) != ResultIdAt(g, c, n)
  {
    var p := "observation-local-result-" + FamilyToken(f) + "-" + BindingToken(b);
    var q := "observation-local-result-" + FamilyToken(g) + "-" + BindingToken(c);
    assert ResultIdAt(f, b, m) == p + "-" + Three(m) && ResultIdAt(g, c, n) == q + "-" + Three(n);
    if p + "-" + Three(m) == q + "-" + Three(n) {
      NumberEndsId(p, m, q, n);
    }
  }

  /** localIDs: one counter per kind of record. */
  class LocalIds {
    var listener: nat
    var result: nat
    var entry: nat
    var owner: nat
    var visible: nat
    var limit: nat

    constructor ()
      ensures listener == 0 && result == 0 && entry == 0 && owner == 0 && visible == 0 && limit == 0
    {
      listener, result, entry, owner, visible, limit := 0, 0, 0, 0, 0, 0;
    }

    method ListenerId() returns (id: EntityID)
      modifies this`listener
      ensures listener == old(listener) + 1 && id == ListenerIdAt(listener)
    {
      listener := listener + 1;
      id := ListenerIdAt(listener);
    }

    method ResultId(family: string, binding: string) returns (id: ObservationID)
      modifies this`result
      ensures result == old(result) + 1 && id == ResultIdAt(family, binding, result)
    {
      result := result + 1;
      id := ResultIdAt(family, binding, result);
    }

    method EntryId() returns (id: ObservationID)
      modifies this`entry
      ensures entry == old(entry) + 1 && id == EntryIdAt(entry)
    {
      entry := entry + 1;
      id := EntryIdAt(entry);
    }

    method OwnerId() returns (id: ObservationID)
      modifies this`owner
      ensures owner == old(owner) + 1 && id == OwnerIdAt(owner)
    {
      owner := owner + 1;
      id := OwnerIdAt(owner);
    }

    method VisibilityId(family: string, binding: string) returns (id: VisibilityID)
      modifies this`visible
      ensures visible == old(visible) + 1 && id == VisibilityIdAt(family, binding, visible)
    {
      visible := visible + 1;
      id := VisibilityIdAt(family, binding, visible);
    }

    method LimitationId(family: string) returns (id: LimitationID)
      modifies this`limit
      ensures limit == old(limit) + 1 && id == LimitationIdAt(family, limit)
    {
      limit := limit + 1;
      id := LimitationIdAt(family, limit);
    }
  }

  // ---------------------------------------------------------------- entities

  /** The entities of the first listeners and their owners, and the IDs given to inodes and processes. */
  datatype Registered = Registered(entities: seq<Entity>, listenerIDs: map<nat, EntityID>, processIDs: map<nat, EntityID>)

  function ListenerEntity(l: Listener, id: EntityID): Entity
  {
    Entity(id, "LISTENER", None, Some(Endpoint.Endpoint(l.address, l.port, "TCP")), None, "")
  }

  function ProcessEntity(pid: nat): Entity { Entity(ProcessId(pid), "PROCESS", None, None, None, "") }

  function Register(inv: Inventory, n: nat): Registered
    requires n <= |inv.listeners|
  {
    if n == 0 then Registered([], map[], map[])
    else
      var r, l := Register(inv, n - 1), inv.listeners[n - 1];
      var r' := Registered(r.entities + [ListenerEntity(l, ListenerIdAt(n))], r.listenerIDs[l.inode := ListenerIdAt(n)],
                           r.processIDs);
      if l.inode in inv.attribution.owners && inv.attribution.owners[l.inode] !in r'.processIDs then
        var pid := inv.attribution.owners[l.inode];
        Registered(r'.entities + [ProcessEntity(pid)], r'.listenerIDs, r'.processIDs[pid := ProcessId(pid)])
      else r'
  }

  lemma {:induction false} RegisterKnows(inv: Inventory, n: nat)
    requires n <= |inv.listeners|
    ensures forall i :: 0 <= i < n ==>
              && inv.listeners[i].inode in Register(inv, n).listenerIDs
              && (inv.listeners[i].inode in inv.attribution.owners ==>
                    inv.attribution.owners[inv.listeners[i].inode] in Register(inv, n).processIDs)
  {
    if n > 0 {
      RegisterKnows(inv, n - 1);
    }
  }

  method RegisterListeners(inv: Inventory, ids: LocalIds) returns (r: Registered)
    requires ids.listener == 0
    modifies ids`listener
    ensures r == Register(inv, |inv.listeners|)
  {
    r := Registered([], map[], map[]);
    for i := 0 to |inv.listeners|
      invariant ids.listener == i
      invariant r == Register(inv, i)
    {
      var l := inv.listeners[i];
      var id := ids.ListenerId();
      r := r.(listenerIDs := r.listenerIDs[l.inode := id], entities := r.entities + [ListenerEntity(l, id)]);
      if l.inode in inv.attribution.owners {
        var pid := inv.attribution.owners[l.inode];
        if pid !in r.processIDs {
          r := r.(processIDs := r.processIDs[pid := ProcessId(pid)], entities := r.entities + [ProcessEntity(pid)]);
        }
      }
    }
  }

  // ---------------------------------------------------------------- observations of listeners

  const NO_PAYLOAD := Payload(None, None, None, None, None, "")

  function EntryObservation(l: Listener, listenerID: EntityID, now: int, n: nat): Observation
  {
    Observation(
      EntryIdAt(n), ListenerAbsence.ENTRY, [listenerID, NAMESPACE], Some(VANTAGE), now,
      NO_PAYLOAD.(entry := Some(InventoryEntry(listenerID, NAMESPACE, "TCP", l.family, l.binding, l.port))), [], "")
  }

  function OwnerObservation(listenerID: EntityID, processID: Option<EntityID>, now: int, n: nat): Observation
  {
    Observation(
      OwnerIdAt(n), ListenerAbsence.OWNERSHIP,
      [listenerID, NAMESPACE] + if processID.Some? then [processID.value] else [], Some(VANTAGE), now,
      NO_PAYLOAD.(ownership := Some(OwnershipEntry(
                    listenerID, processID, if processID.Some? then "OWNED" else "UNRESOLVED"))), [], "")
  }

  function OwnerOf(inv: Inventory, r: Registered, l: Listener): Option<EntityID>
  {
    if l.inode in inv.attribution.owners then
      Some(if inv.attribution.owners[l.inode] in r.processIDs then r.processIDs[inv.attribution.owners[l.inode]] else "")
    else None
  }

  function IdOf(r: Registered, l: Listener): EntityID { if l.inode in r.listenerIDs then r.listenerIDs[l.inode] else "" }

  function ListenerObservations(inv: Inventory, r: Registered, now: int, n: nat): seq<Observation>
    requires n <= |inv.listeners|
  {
    if n == 0 then []
    else
      var l := inv.listeners[n - 1];
      ListenerObservations(inv, r, now, n - 1) +
      [EntryObservation(l, IdOf(r, l), now, n), OwnerObservation(IdOf(r, l), OwnerOf(inv, r, l), now, n)]
  }

  method ObserveListeners(inv: Inventory, r: Registered, now: int, ids: LocalIds) returns (observations: seq<Observation>)
    requires ids.entry == 0 && ids.owner == 0
    modifies ids`entry, ids`owner
    ensures observations == ListenerObservations(inv, r, now, |inv.listeners|)
  {
    observations := [];
    for i := 0 to |inv.listeners|
      invariant ids.entry == i && ids.owner == i
      invariant observations == ListenerObservations(inv, r, now, i)
    {
      var l := inv.listeners[i];
      var entryID := ids.EntryId();
      var ownerID := ids.OwnerId();
      var entry := EntryObservation(l, IdOf(r, l), now, i + 1).(observationID := entryID);
      var owner := OwnerObservation(IdOf(r, l), OwnerOf(inv, r, l), now, i + 1).(observationID := ownerID);
      observations := observations + [entry];
      observations := observations + [owner];
    }
  }

  // ---------------------------------------------------------------- buckets

  predicate InBucket(l: Listener, family: string, binding: string) { l.family == family && l.binding == binding }

  /** countListeners */
  function Count(listeners: seq<Listener>, family: string, binding: string): nat
  {
    if listeners == [] then 0
    else Count(listeners[..|listeners| - 1], family, binding) +
         if InBucket(listeners[|listeners| - 1], family, binding) then 1 else 0
  }

  method CountListeners(listeners: seq<Listener>, family: string, binding: string) returns (count: nat)
    ensures count == Count(listeners, family, binding)
  {
    count := 0;
    for i := 0 to |listeners|
      invariant count == Count(listeners[..i], family, binding)
    {
      assert listeners[..i + 1][..i] == listeners[..i];
      if InBucket(listeners[i], family, binding) {
        count := count + 1;
      }
    }
    assert listeners[..|listeners|] == listeners;
  }

  function FamilyAt(k: nat): string
    requires k < 6
  {
    FAMILIES[k / 3]
  }

  function BindingAt(k: nat): string
    requires k < 6
  {
    BINDINGS[k % 3]
  }

  predicate BucketComplete(inv: Inventory, k: nat)
    requires k < 6
  {
    inv.namespaceComplete && FamilyAt(k) in inv.tableComplete
  }

  function BucketScope(inv: Inventory, k: nat): ListenerScope
    requires k < 6
  {
    ListenerScope(NAMESPACE, "TCP", FamilyAt(k), BindingAt(k), inv.port, inv.port, false)
  }

  function ResultObservation(inv: Inventory, now: int, k: nat, n: nat): Observation
    requires k < 6
  {
    Observation(
      ResultIdAt(FamilyAt(k), BindingAt(k), n), ListenerAbsence.RESULT, [NAMESPACE], Some(VANTAGE), now,
      NO_PAYLOAD.(result := Some(InventoryResult(
                    NAMESPACE, "TCP", FamilyAt(k), BindingAt(k), inv.port, inv.port,
                    Count(inv.listeners, FamilyAt(k), BindingAt(k))))), [], "")
  }

  function BucketLimitation(k: nat, n: nat): Limitation
    requires k < 6
  {
    Limitation(LimitationIdAt(FamilyAt(k), n), "partial_visibility", "VISIBILITY", "")
  }

  function BucketVisibility(inv: Inventory, now: int, k: nat, basis: seq<ObservationID>, limitations: seq<Limitation>):
    VisibilityAssessment
    requires k < 6
  {
    VisibilityAssessment(
      VisibilityIdAt(FamilyAt(k), BindingAt(k), k + 1), "LISTENER", VANTAGE,
      VisibilityScope("LISTENER", Some(BucketScope(inv, k))),
      if BucketComplete(inv, k) then "COMPLETE_FOR_SCOPE" else "PARTIAL", basis, limitations, now)
  }

  datatype Buckets = Buckets(
    observations: seq<Observation>, limitations: seq<Limitation>, visibility: seq<VisibilityAssessment>)

  /** The records of bucket k, on top of those of the buckets before it. */
  function NextBucket(inv: Inventory, now: int, k: nat, b: Buckets): Buckets
    requires k < 6
  {
    if BucketComplete(inv, k) then
      var o := ResultObservation(inv, now, k, |b.observations| + 1);
      Buckets(b.observations + [o], b.limitations, b.visibility + [BucketVisibility(inv, now, k, [o.observationID], [])])
    else
      var l := BucketLimitation(k, |b.limitations| + 1);
      Buckets(b.observations, b.limitations + [l], b.visibility + [BucketVisibility(inv, now, k, [], [l])])
  }

  function FillBuckets(inv: Inventory, now: int, k: nat): (b: Buckets)
    requires k <= 6
    ensures |b.visibility| == k && |b.observations| <= k
  {
    if k == 0 then Buckets([], [], []) else NextBucket(inv, now, k - 1, FillBuckets(inv, now, k - 1))
  }

  method AddBucket(inv: Inventory, now: int, k: nat, b: Buckets, ids: LocalIds) returns (b': Buckets)
    requires k < 6
    requires ids.result == |b.observations| && ids.limit == |b.limitations| && ids.visible == k
    modifies ids`result, ids`limit, ids`visible
    ensures b' == NextBucket(inv, now, k, b)
    ensures ids.result == |b'.observations| && ids.limit == |b'.limitations| && ids.visible == k + 1
  {
    var family, binding := FamilyAt(k), BindingAt(k);
    var basis: seq<ObservationID>, limitations: seq<Limitation> := [], [];
    var level := "PARTIAL";
    b' := b;
    if inv.namespaceComplete && family in inv.tableComplete {
      var count := CountListeners(inv.listeners, family, binding);
      var resultID := ids.ResultId(family, binding);
      var result := InventoryResult(NAMESPACE, "TCP", family, binding, inv.port, inv.port, count);
      var o := Observation(resultID, ListenerAbsence.RESULT, [NAMESPACE], Some(VANTAGE), now,
                           NO_PAYLOAD.(result := Some(result)), [], "");
      assert o == ResultObservation(inv, now, k, |b.observations| + 1);
      b' := b'.(observations := b'.observations + [o]);
      basis := basis + [resultID];
      assert basis == [o.observationID];
      level := "COMPLETE_FOR_SCOPE";
    } else {
      var limitationID := ids.LimitationId(family);
      var limitation := Limitation(limitationID, "partial_visibility", "VISIBILITY", "");
      assert limitation == BucketLimitation(k, |b.limitations| + 1);
      limitations := limitations + [limitation];
      assert limitations == [limitation];
      b' := b'.(limitations := b'.limitations + [limitation]);
    }
    var visibilityID := ids.VisibilityId(family, binding);
    var scope := ListenerScope(NAMESPACE, "TCP", family, binding, inv.port, inv.port, false);
    var v := VisibilityAssessment(visibilityID, "LISTENER", VANTAGE, VisibilityScope("LISTENER", Some(scope)), level,
                                  basis, limitations, now);
    assert v == BucketVisibility(inv, now, k, basis, limitations);
    b' := b'.(visibility := b'.visibility + [v]);
  }

  // ---------------------------------------------------------------- the whole evidence

  function Now(e: EvidenceRun): int
  {
    if e.finishedAt.Some? then e.finishedAt.value else if e.startedAt.Some? then e.startedAt.value else 0
  }

  const NAMESPACE_LIMITATION := Limitation("limitation-local-namespace-001", "unknown_vantage", "VANTAGE", VANTAGE)

  function LocalVantage(inv: Inventory): VantagePoint
  {
    if inv.namespaceComplete then VantagePoint(VANTAGE, "HOST_NAMESPACE", Some(inv.namespaceInode), [], "")
    else VantagePoint(VANTAGE, "UNKNOWN_NAMESPACE", None, [NAMESPACE_LIMITATION], "")
  }

  function NamespaceEntity(inv: Inventory): Entity
  {
    Entity(NAMESPACE, "NETWORK_NAMESPACE", Some(inv.namespaceInode), None, None, "")
  }

  function EntityIds(s: seq<Entity>): seq<EntityID>
  {
    if s == [] then [] else EntityIds(s[..|s| - 1]) + [s[|s| - 1].entityID]
  }

  function LocalCapabilities(inv: Inventory): seq<Capability>
  {
    [Capability("capability-local-listener-inventory",
                if inv.namespaceComplete && "IPV4" in inv.tableComplete && "IPV6" in inv.tableComplete
                then "AVAILABLE procfs_tcp_tables"
                else if !inv.namespaceComplete then "UNKNOWN namespace_identity_unavailable" else "UNKNOWN procfs_partial"),
     Capability("capability-local-process-ownership",
                if inv.attribution.complete then "AVAILABLE proc_fd_scan" else "UNKNOWN process_ownership_unavailable")]
  }

  /** The run with the local evidence added. */
  function LocalEvidence(e: EvidenceRun, inv: Inventory): EvidenceRun
  {
    var now, r := Now(e), Register(inv, |inv.listeners|);
    var b, entities := FillBuckets(inv, now, 6), [NamespaceEntity(inv)] + r.entities;
    e.(requestedScope := "LOCAL_ORIGIN",
       vantages := e.vantages + [LocalVantage(inv)],
       capabilities := e.capabilities + LocalCapabilities(inv),
       entities := e.entities + entities,
       nodes := e.nodes + EntityIds(entities),
       observations := e.observations + ListenerObservations(inv, r, now, |inv.listeners|) + b.observations,
       visibility := e.visibility + b.visibility,
       limitations := e.limitations + LocalVantage(inv).limitations + b.limitations)
  }

  /** addLocalEvidence */
  method AddLocalEvidence(e: EvidenceRun, inv: Inventory) returns (out: EvidenceRun)
    ensures out == LocalEvidence(e, inv)
  {
    var now := if e.finishedAt.Some? then e.finishedAt.value else if e.startedAt.Some? then e.startedAt.value else 0;
    var ids := new LocalIds();
    var vantage := LocalVantage(inv);
    var limitations := e.limitations;
    if !inv.namespaceComplete {
      limitations := limitations + [NAMESPACE_LIMITATION];
    }
    assert limitations == e.limitations + vantage.limitations;
    var r := RegisterListeners(inv, ids);
    var entities := [NamespaceEntity(inv)] + r.entities;
    var seen := ObserveListeners(inv, r, now, ids);
    var b := AddBuckets(inv, now, ids);
    out := e.(requestedScope := "LOCAL_ORIGIN",
              vantages := e.vantages + [vantage],
              capabilities := e.capabilities + LocalCapabilities(inv),
              entities := e.entities + entities,
              nodes := e.nodes + EntityIds(entities),
              observations := e.observations + seen + b.observations,
              visibility := e.visibility + b.visibility,
              limitations := limitations + b.limitations);
  }

  method AddBuckets(inv: Inventory, now: int, ids: LocalIds) returns (b: Buckets)
    requires ids.result == 0 && ids.limit == 0 && ids.visible == 0
    modifies ids`result, ids`limit, ids`visible
    ensures b == FillBuckets(inv, now, 6)
  {
    b := Buckets([], [], []);
    for i := 0 to |FAMILIES|
      invariant b == FillBuckets(inv, now, 3 * i) && CountersAt(ids, b, 3 * i)
    {
      b := AddFamily(inv, now, 3 * i, b, ids);
    }
  }

  ghost predicate CountersAt(ids: LocalIds, b: Buckets, k: nat)
    reads ids
  {
    ids.result == |b.observations| && ids.limit == |b.limitations| && ids.visible == k
  }

  method AddFamily(inv: Inventory, now: int, start: nat, before: Buckets, ids: LocalIds) returns (b: Buckets)
    requires start in {0, 3} && before == FillBuckets(inv, now, start) && CountersAt(ids, before, start)
    modifies ids`result, ids`limit, ids`visible
    ensures b == FillBuckets(inv, now, start + 3) && CountersAt(ids, b, start + 3)
  {
    b := before;
    for j := 0 to |BINDINGS|
      invariant b == FillBuckets(inv, now, start + j) && CountersAt(ids, b, start + j)
    {
      b := AddBucket(inv, now, start + j, b, ids);
    }
  }
}
