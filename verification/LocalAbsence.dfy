/**
 * From the socket tables to the conclusion: after addLocalEvidence, absence is proved for a bucket exactly
 * when the namespace and the family's table are complete and no inventoried listener falls in the bucket.
 */
module LocalAbsence {
  import opened Text
  import opened Model
  import opened Ids
  import opened Sorting
  import opened Procfs
  import opened LocalDiagnosis
  import opened ListenerAbsence
  import MissingEvidences

  /** The run does not use the local vantage point or namespace yet. */
  ghost predicate Untouched(e: EvidenceRun)
  {
    && (forall v :: v in e.vantages ==> v.vantageID != VANTAGE)
    && (forall x :: x in e.entities ==> !(x.entityID == NAMESPACE && x.kind == "NETWORK_NAMESPACE"))
    && (forall o :: o in e.observations ==> o.vantageID != Some(VANTAGE))
  }

  ghost predicate BucketEmpty(inv: Inventory, k: nat)
    requires k < 6
  {
    forall l :: l in inv.listeners ==> !InBucket(l, FamilyAt(k), BindingAt(k))
  }

  // ---------------------------------------------------------------- counts

  lemma {:induction false} CountZero(s: seq<Listener>, family: string, binding: string)
    ensures Count(s, family, binding) == 0 <==> forall l :: l in s ==> !InBucket(l, family, binding)
  {
    if s != [] {
      CountZero(s[..|s| - 1], family, binding);
      assert forall l :: l in s <==> l in s[..|s| - 1] || l == s[|s| - 1];
    }
  }

  function SumCounts(s: seq<Listener>, k: nat): nat
    requires k <= 6
  {
    if k == 0 then 0 else SumCounts(s, k - 1) + Count(s, FamilyAt(k - 1), BindingAt(k - 1))
  }

  /** The buckets divide the listeners among them. */
  lemma {:induction false} CountsSumToListeners(s: seq<Listener>)
    requires forall l :: l in s ==> l.family in FAMILIES && l.binding in BINDINGS
    ensures SumCounts(s, 6) == |s|
  {
    if s == [] {
      SumIsSix(s);
    } else {
      var t, l := s[..|s| - 1], s[|s| - 1];
      assert forall x :: x in t ==> x in s;
      CountsSumToListeners(t);
      assert l in s;
      SumIsSix(s);
      SumIsSix(t);
    }
  }

  lemma SumIsSix(s: seq<Listener>)
    ensures SumCounts(s, 6) ==
            Count(s, "IPV4", "LOOPBACK") + Count(s, "IPV4", "WILDCARD") + Count(s, "IPV4", "EXACT") +
            Count(s, "IPV6", "LOOPBACK") + Count(s, "IPV6", "WILDCARD") + Count(s, "IPV6", "EXACT")
  {
    assert SumCounts(s, 1) == Count(s, "IPV4", "LOOPBACK");
    assert SumCounts(s, 2) == SumCounts(s, 1) + Count(s, "IPV4", "WILDCARD");
    assert SumCounts(s, 3) == SumCounts(s, 2) + Count(s, "IPV4", "EXACT");
    assert SumCounts(s, 4) == SumCounts(s, 3) + Count(s, "IPV6", "LOOPBACK");
    assert SumCounts(s, 5) == SumCounts(s, 4) + Count(s, "IPV6", "WILDCARD");
  }

  // ---------------------------------------------------------------- the result IDs are distinct

  lemma {:induction false} PadKeepsEnd(s: string, width: nat)
    requires AllDigits(s) && s != ""
    ensures Pad(s, width) != "" && Pad(s, width)[|Pad(s, width)| - 1] == s[|s| - 1]
    decreases width - |s|
  {
    if |s| < width {
      PadKeepsEnd("0" + s, width);
    }
  }

  function LastChar(s: string): char
    requires s != ""
  {
    s[|s| - 1]
  }

  lemma ResultIdEnds(family: string, binding: string, n: nat)
    requires n < 10
    ensures ResultIdAt(family, binding, n) != "" && LastChar(ResultIdAt(family, binding, n)) == DigitChar(n)
  {
    PadKeepsEnd(Itoa(n), 3);
  }

  ghost predicate FromBucket(inv: Inventory, now: int, o: Observation, n: nat)
  {
    exists k :: 0 <= k < 6 && o == ResultObservation(inv, now, k, n)
  }

  /** The n-th result comes from some bucket, and its ID ends in the digit n. */
  ghost predicate IsResult(inv: Inventory, now: int, o: Observation, n: nat)
    requires n < 10
  {
    FromBucket(inv, now, o, n) && o.observationID != "" && LastChar(o.observationID) == DigitChar(n)
  }

  ghost predicate Numbered(inv: Inventory, now: int, s: seq<Observation>)
    requires |s| <= 6
  {
    forall j :: 0 <= j < |s| ==> IsResult(inv, now, s[j], j + 1)
  }

  lemma {:induction false} ResultsAreNumbered(inv: Inventory, now: int, k: nat)
    requires k <= 6
    ensures Numbered(inv, now, FillBuckets(inv, now, k).observations)
  {
    if k > 0 {
      var b := FillBuckets(inv, now, k - 1);
      ResultsAreNumbered(inv, now, k - 1);
      NextIsNumbered(inv, now, k - 1, b);
    }
  }

  lemma NextIsNumbered(inv: Inventory, now: int, k: nat, b: Buckets)
    requires k < 6 && |b.observations| <= 5 && Numbered(inv, now, b.observations)
    ensures |NextBucket(inv, now, k, b).observations| <= 6 && Numbered(inv, now, NextBucket(inv, now, k, b).observations)
  {
    var n := |b.observations| + 1;
    ResultIdEnds(FamilyAt(k), BindingAt(k), n);
    assert FromBucket(inv, now, ResultObservation(inv, now, k, n), n);
  }

  /** Bucket k's assessment: based on its own result when complete, on nothing otherwise. */
  ghost predicate AssessedBy(inv: Inventory, now: int, b: Buckets, k: nat)
    requires k < 6 && k < |b.visibility|
  {
    if BucketComplete(inv, k) then
      exists j :: 0 <= j < |b.observations| && b.observations[j] == ResultObservation(inv, now, k, j + 1) &&
                  b.visibility[k] == BucketVisibility(inv, now, k, [b.observations[j].observationID], [])
    else exists l :: b.visibility[k] == BucketVisibility(inv, now, k, [], [l])
  }

  lemma AssessmentStays(inv: Inventory, now: int, b: Buckets, m: nat, k: nat)
    requires k < m < 6 && |b.visibility| == m && AssessedBy(inv, now, b, k)
    ensures |NextBucket(inv, now, m, b).visibility| == m + 1 && AssessedBy(inv, now, NextBucket(inv, now, m, b), k)
  {
    var b' := NextBucket(inv, now, m, b);
    assert b'.visibility[k] == b.visibility[k];
    if BucketComplete(inv, k) {
      var j :| 0 <= j < |b.observations| && b.observations[j] == ResultObservation(inv, now, k, j + 1) &&
               b.visibility[k] == BucketVisibility(inv, now, k, [b.observations[j].observationID], []);
      assert b'.observations[j] == b.observations[j];
    } else {
      var l :| b.visibility[k] == BucketVisibility(inv, now, k, [], [l]);
      assert b'.visibility[k] == BucketVisibility(inv, now, k, [], [l]);
    }
  }

  lemma BucketIsAssessed(inv: Inventory, now: int, b: Buckets, k: nat)
    requires k < 6 && |b.visibility| == k
    ensures |NextBucket(inv, now, k, b).visibility| == k + 1 && AssessedBy(inv, now, NextBucket(inv, now, k, b), k)
  {
    var b' := NextBucket(inv, now, k, b);
    if BucketComplete(inv, k) {
      var j := |b.observations|;
      assert b'.observations[j] == ResultObservation(inv, now, k, j + 1);
      assert b'.visibility[k] == BucketVisibility(inv, now, k, [b'.observations[j].observationID], []);
    } else {
      assert b'.visibility[k] == BucketVisibility(inv, now, k, [], [BucketLimitation(k, |b.limitations| + 1)]);
    }
  }

  lemma {:induction false} BucketsAreAssessed(inv: Inventory, now: int, m: nat, k: nat)
    requires k < m <= 6
    ensures AssessedBy(inv, now, FillBuckets(inv, now, m), k)
    decreases m
  {
    var b := FillBuckets(inv, now, m - 1);
    if k < m - 1 {
      BucketsAreAssessed(inv, now, m - 1, k);
      AssessmentStays(inv, now, b, m - 1, k);
    } else {
      BucketIsAssessed(inv, now, b, k);
    }
  }

  // ---------------------------------------------------------------- looking the records up again

  lemma {:induction false} LastObservationWins(before: seq<Observation>, o: Observation, after: seq<Observation>)
    requires forall x :: x in after ==> x.observationID != o.observationID
    ensures o.observationID in ObservationsById(before + [o] + after)
    ensures ObservationsById(before + [o] + after)[o.observationID] == o
  {
    var all := before + [o] + after;
    if after == [] {
      assert all[|all| - 1] == o;
    } else {
      var n := |after| - 1;
      assert all[..|all| - 1] == before + [o] + after[..n] && all[|all| - 1] == after[n];
      assert after[n] in after;
      LastObservationWins(before, o, after[..n]);
    }
  }

  /** The n-th result is what its ID finds again. */
  lemma ResultIsLookedUp(inv: Inventory, now: int, earlier: seq<Observation>, results: seq<Observation>, j: nat)
    requires |results| <= 6 && Numbered(inv, now, results) && j < |results|
    ensures results[j].observationID in ObservationsById(earlier + results)
    ensures ObservationsById(earlier + results)[results[j].observationID] == results[j]
  {
    var o, before, after := results[j], earlier + results[..j], results[j + 1..];
    assert earlier + results == before + [o] + after;
    assert IsResult(inv, now, o, j + 1);
    forall x | x in after
      ensures x.observationID != o.observationID
    {
      var i :| j < i < |results| && results[i] == x;
      assert IsResult(inv, now, results[i], i + 1);
    }
    LastObservationWins(before, o, after);
  }

  /** What the theorem needs of the run with the local evidence. */
  ghost predicate Holds(e: EvidenceRun, inv: Inventory, out: EvidenceRun)
  {
    && out.coherenceWindow == e.coherenceWindow
    && out.vantages == e.vantages + [LocalVantage(inv)]
    && out.entities == e.entities + [NamespaceEntity(inv)] + Register(inv, |inv.listeners|).entities
    && out.observations == e.observations + Listed(e, inv) + Filled(e, inv).observations
    && out.visibility == e.visibility + Filled(e, inv).visibility
  }

  function Listed(e: EvidenceRun, inv: Inventory): seq<Observation>
  {
    ListenerObservations(inv, Register(inv, |inv.listeners|), Now(e), |inv.listeners|)
  }

  function Filled(e: EvidenceRun, inv: Inventory): Buckets { FillBuckets(inv, Now(e), 6) }

  lemma LocalEvidenceHolds(e: EvidenceRun, inv: Inventory)
    ensures Holds(e, inv, LocalEvidence(e, inv))
  {
  }

  lemma {:induction false} NamespaceIsFound(before: seq<Entity>, x: Entity, after: seq<Entity>)
    requires forall y :: y in before ==> !(y.entityID == x.entityID && y.kind == "NETWORK_NAMESPACE")
    requires x.kind == "NETWORK_NAMESPACE"
    ensures NamespaceInode(before + [x] + after, x.entityID) == x.namespaceInode
  {
    var all := before + [x] + after;
    if before != [] {
      assert before[0] in before;
      assert all[1..] == before[1..] + [x] + after;
      NamespaceIsFound(before[1..], x, after);
    }
  }

  lemma {:induction false} VantageIsFound(before: seq<VantagePoint>, v: VantagePoint)
    requires forall y :: y in before ==> y.vantageID != v.vantageID
    ensures HostInode(before + [v], v.vantageID) == if v.kind == "HOST_NAMESPACE" then v.hostInode else None
  {
    if before != [] {
      assert (before + [v])[1..] == before[1..] + [v];
      VantageIsFound(before[1..], v);
    }
  }

  lemma NamespaceIsMatched(e: EvidenceRun, inv: Inventory, out: EvidenceRun)
    requires Untouched(e) && Holds(e, inv, out)
    ensures NamespaceMatches(out, NAMESPACE, VANTAGE) <==> inv.namespaceComplete
  {
    NamespaceIsFound(e.entities, NamespaceEntity(inv), Register(inv, |inv.listeners|).entities);
    VantageIsFound(e.vantages, LocalVantage(inv));
  }

  lemma ScopeIsValid(inv: Inventory, k: nat)
    requires k < 6
    ensures MissingEvidences.ValidListenerScope(BucketScope(inv, k))
  {
    var rest := NAMESPACE[|"entity-"|..];
    assert rest == "local-network-namespace";
    assert forall i :: 0 <= i < |rest| ==> IdCharacter(rest[i]);
    assert rest[0] == 'l';
  }

  // ---------------------------------------------------------------- nothing contradicts an empty bucket

  ghost predicate EntersSome(inv: Inventory, x: InventoryEntry)
  {
    exists l :: l in inv.listeners && InBucket(l, x.family, x.binding)
  }

  lemma {:induction false} ListenerObservationIs(inv: Inventory, r: Registered, now: int, n: nat, o: Observation)
    requires n <= |inv.listeners| && o in ListenerObservations(inv, r, now, n)
    ensures o.kind == OWNERSHIP || (o.kind == ENTRY && o.payload.entry.Some? && EntersSome(inv, o.payload.entry.value))
  {
    var l := inv.listeners[n - 1];
    if o in ListenerObservations(inv, r, now, n - 1) {
      ListenerObservationIs(inv, r, now, n - 1, o);
    } else {
      assert l in inv.listeners;
    }
  }

  lemma NothingContradicts(e: EvidenceRun, inv: Inventory, out: EvidenceRun, k: nat, v: VisibilityAssessment, port: nat,
                           o: Observation)
    requires Untouched(e) && Holds(e, inv, out) && k < 6 && BucketEmpty(inv, k)
    requires v.vantageID == VANTAGE && o in out.observations
    ensures !Contradicts(out, v, BucketScope(inv, k), port, o)
  {
    if o in e.observations {
    } else if o in Listed(e, inv) {
      ListenerObservationIs(inv, Register(inv, |inv.listeners|), Now(e), |inv.listeners|, o);
    } else {
      ResultCountsItsBucket(e, inv, o);
      CountZero(inv.listeners, FamilyAt(k), BindingAt(k));
    }
  }

  lemma ResultCountsItsBucket(e: EvidenceRun, inv: Inventory, o: Observation)
    requires o in Filled(e, inv).observations
    ensures o.kind == RESULT && o.payload.result.Some?
    ensures var p := o.payload.result.value; p.count == Count(inv.listeners, p.family, p.binding)
  {
    var results := Filled(e, inv).observations;
    var j :| 0 <= j < |results| && results[j] == o;
    ResultsAreNumbered(inv, Now(e), 6);
    assert IsResult(inv, Now(e), results[j], j + 1);
  }

  // ---------------------------------------------------------------- the theorem

  /** The assessment of bucket k. */
  function Assessment(e: EvidenceRun, inv: Inventory, k: nat): VisibilityAssessment
    requires k < 6
  {
    LocalEvidence(e, inv).visibility[|e.visibility| + k]
  }

  lemma CompleteBucketIsComplete(e: EvidenceRun, inv: Inventory, out: EvidenceRun, k: nat, n: nat)
    requires Untouched(e) && Holds(e, inv, out) && 0 <= e.coherenceWindow && k < 6 && BucketComplete(inv, k)
    requires var o := ResultObservation(inv, Now(e), k, n);
             o.observationID in ObservationsById(out.observations) && ObservationsById(out.observations)[o.observationID] == o
    ensures var o := ResultObservation(inv, Now(e), k, n);
            && Complete(out, BucketVisibility(inv, Now(e), k, [o.observationID], []))
            && Carried(ObservationsById(out.observations), [o.observationID]).results == [o.payload.result.value]
  {
    var o := ResultObservation(inv, Now(e), k, n);
    var v := BucketVisibility(inv, Now(e), k, [o.observationID], []);
    NamespaceIsMatched(e, inv, out);
    ScopeIsValid(inv, k);
    assert ClaimsComplete(out, v);
    assert Admissible(out, v, BucketScope(inv, k), o);
    assert SoundBasis(out, v, BucketScope(inv, k), v.basis);
    CarriedOne(ObservationsById(out.observations), o);
  }

  lemma CarriedOne(m: map<ObservationID, Observation>, o: Observation)
    requires o.observationID in m && m[o.observationID] == o && o.kind == RESULT && o.payload.result.Some?
    ensures Carried(m, [o.observationID]) == Basis([o.payload.result.value], [], [])
  {
    assert [o.observationID][..0] == [];
    assert Carried(m, [o.observationID]) == Put(Basis([], [], []), o);
  }

  lemma CompleteBucketDecides(e: EvidenceRun, inv: Inventory, out: EvidenceRun, k: nat, port: nat, j: nat)
    requires Untouched(e) && Holds(e, inv, out) && 0 <= e.coherenceWindow && k < 6 && BucketComplete(inv, k)
    requires j < |Filled(e, inv).observations| && Filled(e, inv).observations[j] == ResultObservation(inv, Now(e), k, j + 1)
    ensures var o := ResultObservation(inv, Now(e), k, j + 1);
            AbsenceValid(out, BucketVisibility(inv, Now(e), k, [o.observationID], []), port) <==>
              port == inv.port && BucketEmpty(inv, k)
  {
    var o := ResultObservation(inv, Now(e), k, j + 1);
    var v := BucketVisibility(inv, Now(e), k, [o.observationID], []);
    ResultsAreNumbered(inv, Now(e), 6);
    ResultIsLookedUp(inv, Now(e), e.observations + Listed(e, inv), Filled(e, inv).observations, j);
    CompleteBucketIsComplete(e, inv, out, k, j + 1);
    CountZero(inv.listeners, FamilyAt(k), BindingAt(k));
    if BucketEmpty(inv, k) {
      forall x | x in out.observations
        ensures !Contradicts(out, v, BucketScope(inv, k), port, x)
      {
        NothingContradicts(e, inv, out, k, v, port, x);
      }
    }
  }

  /**
   * The end-to-end theorem: absence of a listener on a port is valid for a bucket exactly when the port is the
   * inventoried one, the namespace and the family's table are complete, and no listener is in the bucket.
   */
  lemma AbsenceExactly(e: EvidenceRun, inv: Inventory, k: nat, port: nat)
    requires Untouched(e) && 0 <= e.coherenceWindow && k < 6
    ensures AbsenceValid(LocalEvidence(e, inv), Assessment(e, inv, k), port) <==>
              port == inv.port && BucketComplete(inv, k) && BucketEmpty(inv, k)
  {
    LocalEvidenceHolds(e, inv);
    AbsenceOf(e, inv, LocalEvidence(e, inv), Assessment(e, inv, k), k, port);
  }

  lemma AbsenceOf(e: EvidenceRun, inv: Inventory, out: EvidenceRun, v: VisibilityAssessment, k: nat, port: nat)
    requires Untouched(e) && Holds(e, inv, out) && 0 <= e.coherenceWindow && k < 6 && v == Filled(e, inv).visibility[k]
    ensures AbsenceValid(out, v, port) <==> port == inv.port && BucketComplete(inv, k) && BucketEmpty(inv, k)
  {
    var b := Filled(e, inv);
    BucketsAreAssessed(inv, Now(e), 6, k);
    if BucketComplete(inv, k) {
      var j :| 0 <= j < |b.observations| && b.observations[j] == ResultObservation(inv, Now(e), k, j + 1) &&
               b.visibility[k] == BucketVisibility(inv, Now(e), k, [b.observations[j].observationID], []);
      CompleteBucketDecides(e, inv, out, k, port, j);
    } else {
      assert v.level == "PARTIAL";
      assert !ClaimsComplete(out, v);
    }
  }

  // ---------------------------------------------------------------- from the tables

  lemma FoundRowsKeepFamily(tables: map<string, seq<seq<string>>>, family: string, port: nat)
    ensures forall l :: l in RowsFound(tables, family, port) ==> l.family == family
    ensures family in tables ==>
              forall l :: l in RowsFound(tables, family, port) <==> l in FoundIn(tables[family], family, port)
  {
    if family in tables {
      var found := FoundIn(tables[family], family, port);
      StableSortPermutes(ListenerLess, found);
      SameElements(StableSort(ListenerLess, found), found);
      forall l | l in found
        ensures l.family == family
      {
        FoundInExact(tables[family], family, port, l);
      }
    }
  }

  lemma ListenersAreFound(tables: map<string, seq<seq<string>>>, namespaceInode: nat, inv: Inventory, l: Listener)
    requires Collected(tables, namespaceInode, inv)
    ensures l in inv.listeners <==> l in RowsFound(tables, "IPV4", inv.port) || l in RowsFound(tables, "IPV6", inv.port)
  {
    SameElements(inv.listeners, RowsFound(tables, "IPV4", inv.port) + RowsFound(tables, "IPV6", inv.port));
  }

  /** The listeners of a family are those of its table. */
  lemma FamilyIsTable(tables: map<string, seq<seq<string>>>, namespaceInode: nat, inv: Inventory, k: nat, l: Listener)
    requires Collected(tables, namespaceInode, inv) && k < 6 && FamilyAt(k) in tables
    ensures l in inv.listeners && l.family == FamilyAt(k) <==> l in FoundIn(tables[FamilyAt(k)], FamilyAt(k), inv.port)
  {
    ListenersAreFound(tables, namespaceInode, inv, l);
    FoundRowsKeepFamily(tables, "IPV4", inv.port);
    FoundRowsKeepFamily(tables, "IPV6", inv.port);
  }

  /** On a complete table an empty bucket is a table without such a row. */
  lemma EmptyBucketIsNoRow(tables: map<string, seq<seq<string>>>, namespaceInode: nat, inv: Inventory, k: nat)
    requires Collected(tables, namespaceInode, inv) && k < 6 && TableIsComplete(tables, FamilyAt(k), inv.port)
    ensures BucketEmpty(inv, k) <==>
              forall row :: row in tables[FamilyAt(k)] ==> !Listens(row, FamilyAt(k), inv.port, BindingAt(k))
  {
    var found := FoundIn(tables[FamilyAt(k)], FamilyAt(k), inv.port);
    forall l
      ensures l in inv.listeners && l.family == FamilyAt(k) <==> l in found
    {
      FamilyIsTable(tables, namespaceInode, inv, k, l);
    }
    assert BucketEmpty(inv, k) <==> forall l :: l in found ==> l.binding != BindingAt(k);
    EmptyBucketMeansNoRow(tables[FamilyAt(k)], FamilyAt(k), inv.port, BindingAt(k));
  }

  lemma FoundIsInBucket(rows: seq<seq<string>>, family: string, port: nat, l: Listener)
    requires l in FoundIn(rows, family, port)
    ensures l.family == family && l.binding in BINDINGS
  {
    FoundInExact(rows, family, port, l);
    assert BINDINGS[0] == "LOOPBACK" && BINDINGS[1] == "WILDCARD" && BINDINGS[2] == "EXACT";
  }

  /** What is read off the tables always falls into one of the six buckets. */
  lemma CollectedFallIntoBuckets(tables: map<string, seq<seq<string>>>, namespaceInode: nat, inv: Inventory)
    requires Collected(tables, namespaceInode, inv)
    ensures forall l :: l in inv.listeners ==> l.family in FAMILIES && l.binding in BINDINGS
  {
    assert FAMILIES[0] == "IPV4" && FAMILIES[1] == "IPV6";
    FoundRowsKeepFamily(tables, "IPV4", inv.port);
    FoundRowsKeepFamily(tables, "IPV6", inv.port);
    forall l | l in inv.listeners
      ensures l.family in FAMILIES && l.binding in BINDINGS
    {
      ListenersAreFound(tables, namespaceInode, inv, l);
      var family := if l in RowsFound(tables, "IPV4", inv.port) then "IPV4" else "IPV6";
      assert l in RowsFound(tables, family, inv.port) && family in tables;
      FoundIsInBucket(tables[family], family, inv.port, l);
    }
  }

  /** The counts that the emitted results carry. */
  function SumResults(results: seq<Observation>): nat
  {
    if results == [] then 0
    else
      var last := results[|results| - 1];
      SumResults(results[..|results| - 1]) + if last.payload.result.Some? then last.payload.result.value.count else 0
  }

  lemma {:induction false} AllBucketsHaveResults(inv: Inventory, now: int, k: nat)
    requires k <= 6 && forall j :: 0 <= j < k ==> BucketComplete(inv, j)
    ensures |FillBuckets(inv, now, k).observations| == k
    ensures SumResults(FillBuckets(inv, now, k).observations) == SumCounts(inv.listeners, k)
  {
    if k > 0 {
      AllBucketsHaveResults(inv, now, k - 1);
      var before, after := FillBuckets(inv, now, k - 1).observations, FillBuckets(inv, now, k).observations;
      assert after == before + [ResultObservation(inv, now, k - 1, k)];
      assert after[..k - 1] == before;
    }
  }

  /**
   * Counting loses nothing: with a known namespace and both tables read in full there are six results, and
   * their counts sum to the number of rows found listening on the port.
   */
  lemma EmittedCountsSumToRows(e: EvidenceRun, tables: map<string, seq<seq<string>>>, namespaceInode: nat, inv: Inventory)
    requires Collected(tables, namespaceInode, inv) && namespaceInode != 0
    requires TableIsComplete(tables, "IPV4", inv.port) && TableIsComplete(tables, "IPV6", inv.port)
    ensures |Filled(e, inv).observations| == 6
    ensures SumResults(Filled(e, inv).observations) == |inv.listeners|
    ensures |inv.listeners| == |FoundIn(tables["IPV4"], "IPV4", inv.port)| + |FoundIn(tables["IPV6"], "IPV6", inv.port)|
  {
    assert FAMILIES[0] == "IPV4" && FAMILIES[1] == "IPV6";
    CollectedFallIntoBuckets(tables, namespaceInode, inv);
    AllBucketsHaveResults(inv, Now(e), 6);
    CountsSumToListeners(inv.listeners);
    SameElements(inv.listeners, RowsFound(tables, "IPV4", inv.port) + RowsFound(tables, "IPV6", inv.port));
    StableSortPermutes(ListenerLess, FoundIn(tables["IPV4"], "IPV4", inv.port));
    StableSortPermutes(ListenerLess, FoundIn(tables["IPV6"], "IPV6", inv.port));
  }

  /**
   * From procfs to the conclusion: nothing is said to listen exactly when the namespace was identified, the
   * family's table was read without a malformed row, and none of its rows listens there.
   */
  lemma AbsenceMeansNoListeningRow(
    e: EvidenceRun, tables: map<string, seq<seq<string>>>, namespaceInode: nat, inv: Inventory, k: nat)
    requires Untouched(e) && 0 <= e.coherenceWindow && k < 6 && Collected(tables, namespaceInode, inv)
    ensures AbsenceValid(LocalEvidence(e, inv), Assessment(e, inv, k), inv.port) <==>
              && namespaceInode != 0
              && TableIsComplete(tables, FamilyAt(k), inv.port)
              && forall row :: row in tables[FamilyAt(k)] ==> !Listens(row, FamilyAt(k), inv.port, BindingAt(k))
  {
    AbsenceExactly(e, inv, k, inv.port);
    if TableIsComplete(tables, FamilyAt(k), inv.port) {
      EmptyBucketIsNoRow(tables, namespaceInode, inv, k);
    }
  }
}
