/**
 * executeTCPStrategies of internal/clientprobe/transport.go as a step system: the caller launches one
 * goroutine per strategy, each sends one fact into a channel with room for all, the caller receives as many
 * facts as there are strategies and sorts them.
 */
module TcpStrategies {
  import opened Text
  import opened Model
  import opened Sorting
  import opened Addresses

  datatype Mode = Normal | Pinned

  datatype EndpointKey = EndpointKey(address: Address, port: nat)

  datatype EndpointPlan = EndpointPlan(key: EndpointKey, retained: bool, pinned: bool, resolved: bool)

  datatype Strategy = Strategy(mode: Mode, endpoint: EndpointKey)

  /** What one attempt reports; `rest` holds the fields nothing here reads. */
  datatype Fact = Fact(mode: Mode, endpoint: EndpointKey, result: string, reason: string, exact: bool, rest: string)

  // ---------------------------------------------------------------- strategies

  const MAX_CONCURRENT_STRATEGIES: nat := 3

  /** The first pinned plan of the family. */
  function FirstPinned(plans: seq<EndpointPlan>, v4: bool): seq<Strategy>
  {
    if plans == [] then []
    else if plans[0].pinned && plans[0].key.address.V4? == v4 then [Strategy(Pinned, plans[0].key)]
    else FirstPinned(plans[1..], v4)
  }

  /** One normal attempt, and one pinned attempt per family that has a pinned plan. */
  function Strategies(plans: seq<EndpointPlan>, port: nat): seq<Strategy>
  {
    if plans == [] then [] else [Strategy(Normal, EndpointKey(NoAddress, port))] + FirstPinned(plans, true) + FirstPinned(plans, false)
  }

  function Cut<T>(s: seq<T>, n: nat): seq<T> { if |s| > n then s[..n] else s }

  /** The cap on concurrent strategies cuts nothing off: there are never more than three. */
  method PlanStrategies(plans: seq<EndpointPlan>, port: nat) returns (strategies: seq<Strategy>)
    ensures strategies == Strategies(plans, port) && |strategies| <= MAX_CONCURRENT_STRATEGIES
  {
    if |plans| == 0 {
      return [];
    }
    strategies := [Strategy(Normal, EndpointKey(NoAddress, port))];
    var families := [true, false];
    for k := 0 to 2
      invariant |strategies| <= k + 1
      invariant strategies == [Strategy(Normal, EndpointKey(NoAddress, port))] +
                (if k > 0 then FirstPinned(plans, true) else []) + (if k > 1 then FirstPinned(plans, false) else [])
    {
      var found := FindPinned(plans, families[k]);
      strategies := strategies + found;
    }
    strategies := Cut(strategies, MAX_CONCURRENT_STRATEGIES);
  }

  method FindPinned(plans: seq<EndpointPlan>, v4: bool) returns (found: seq<Strategy>)
    ensures found == FirstPinned(plans, v4) && |found| <= 1
  {
    for i := 0 to |plans|
      invariant FirstPinned(plans, v4) == FirstPinned(plans[i..], v4)
    {
      assert plans[i..][0] == plans[i] && plans[i..][1..] == plans[i + 1..];
      if plans[i].pinned && plans[i].key.address.V4? == v4 {
        return [Strategy(Pinned, plans[i].key)];
      }
    }
    found := [];
  }

  // ---------------------------------------------------------------- the step system

  /**
   * `launched` goroutines run; those marked in `sent` have sent their fact. The outcome of each attempt is
   * fixed: `outcomes[i]` is what goroutine i sends.
   */
  datatype State = State(launched: nat, sent: seq<bool>, channel: seq<Fact>, received: seq<Fact>)

  function Start(n: nat): State { State(0, seq(n, _ => false), [], []) }

  ghost predicate Launch(outcomes: seq<Fact>, s: State, s': State)
  {
    s.launched < |outcomes| && s' == s.(launched := s.launched + 1)
  }

  /** Goroutine i sends; it would block on a full channel. */
  ghost predicate Send(outcomes: seq<Fact>, s: State, s': State, i: nat)
  {
    && i < s.launched && i < |s.sent| && i < |outcomes| && !s.sent[i]
    && |s.channel| < |outcomes|
    && s' == s.(sent := s.sent[i := true], channel := s.channel + [outcomes[i]])
  }

  /** The caller receives once it has launched all of them. */
  ghost predicate Receive(outcomes: seq<Fact>, s: State, s': State)
  {
    && s.launched == |outcomes| && |s.received| < |outcomes| && s.channel != []
    && s' == s.(channel := s.channel[1..], received := s.received + [s.channel[0]])
  }

  ghost predicate Step(outcomes: seq<Fact>, s: State, s': State)
  {
    Launch(outcomes, s, s') || Receive(outcomes, s, s') || exists i :: Send(outcomes, s, s', i)
  }

  /** Reached after k steps of some interleaving. */
  ghost predicate Reached(outcomes: seq<Fact>, s: State, k: nat)
    decreases k
  {
    if k == 0 then s == Start(|outcomes|) else exists before :: Reached(outcomes, before, k - 1) && Step(outcomes, before, s)
  }

  lemma OneMore(outcomes: seq<Fact>, before: State, s: State, k: nat)
    requires Reached(outcomes, before, k) && Step(outcomes, before, s)
    ensures Reached(outcomes, s, k + 1)
  {
  }

  /** The caller has its facts. */
  predicate Final(outcomes: seq<Fact>, s: State) { |s.received| == |outcomes| }

  // ---------------------------------------------------------------- the invariant

  /** The facts of the goroutines that have not sent. */
  function Unsent(outcomes: seq<Fact>, sent: seq<bool>): seq<Fact>
    requires |sent| == |outcomes|
  {
    if outcomes == [] then []
    else
      var n := |outcomes| - 1;
      Unsent(outcomes[..n], sent[..n]) + if sent[n] then [] else [outcomes[n]]
  }

  /** Every fact is with the caller, in the channel, or still to be sent, and is in one of these places once. */
  ghost predicate Invariant(outcomes: seq<Fact>, s: State)
  {
    && |s.sent| == |outcomes| && s.launched <= |outcomes|
    && (forall i :: 0 <= i < |outcomes| && s.sent[i] ==> i < s.launched)
    && multiset(s.received) + multiset(s.channel) + multiset(Unsent(outcomes, s.sent)) == multiset(outcomes)
  }

  lemma {:induction false} AllUnsent(outcomes: seq<Fact>, sent: seq<bool>)
    requires |sent| == |outcomes| && forall i :: 0 <= i < |sent| ==> !sent[i]
    ensures Unsent(outcomes, sent) == outcomes
  {
    if outcomes != [] {
      AllUnsent(outcomes[..|outcomes| - 1], sent[..|sent| - 1]);
    }
  }

  lemma {:induction false} SendLeaves(outcomes: seq<Fact>, sent: seq<bool>, i: nat)
    requires |sent| == |outcomes| && i < |sent| && !sent[i]
    ensures multiset(Unsent(outcomes, sent)) == multiset(Unsent(outcomes, sent[i := true])) + multiset{outcomes[i]}
  {
    var n := |outcomes| - 1;
    if i < n {
      SendLeaves(outcomes[..n], sent[..n], i);
      assert sent[i := true][..n] == sent[..n][i := true];
    } else {
      assert sent[i := true][..n] == sent[..n];
    }
  }

  lemma SendKeepsInvariant(outcomes: seq<Fact>, s: State, s': State, i: nat)
    requires Invariant(outcomes, s) && Send(outcomes, s, s', i)
    ensures Invariant(outcomes, s')
  {
    SendLeaves(outcomes, s.sent, i);
    assert multiset(s'.channel) == multiset(s.channel) + multiset{outcomes[i]};
  }

  lemma ReceiveKeepsInvariant(outcomes: seq<Fact>, s: State, s': State)
    requires Invariant(outcomes, s) && Receive(outcomes, s, s')
    ensures Invariant(outcomes, s')
  {
    assert s.channel == [s.channel[0]] + s.channel[1..];
    assert multiset(s.channel) == multiset{s.channel[0]} + multiset(s'.channel);
    assert multiset(s'.received) == multiset(s.received) + multiset{s.channel[0]};
  }

  lemma StepKeepsInvariant(outcomes: seq<Fact>, s: State, s': State)
    requires Invariant(outcomes, s) && Step(outcomes, s, s')
    ensures Invariant(outcomes, s')
  {
    if i: nat :| Send(outcomes, s, s', i) {
      SendKeepsInvariant(outcomes, s, s', i);
    } else if Receive(outcomes, s, s') {
      ReceiveKeepsInvariant(outcomes, s, s');
    }
  }

  /** The invariant holds in every state any interleaving reaches. */
  lemma {:induction false} InvariantAlways(outcomes: seq<Fact>, s: State, k: nat)
    requires Reached(outcomes, s, k)
    ensures Invariant(outcomes, s)
    decreases k
  {
    if k == 0 {
      AllUnsent(outcomes, s.sent);
    } else {
      var before :| Reached(outcomes, before, k - 1) && Step(outcomes, before, s);
      InvariantAlways(outcomes, before, k - 1);
      StepKeepsInvariant(outcomes, before, s);
    }
  }

  lemma {:induction false} UnsentCount(outcomes: seq<Fact>, sent: seq<bool>)
    requires |sent| == |outcomes|
    ensures Unsent(outcomes, sent) == [] <==> forall i :: 0 <= i < |sent| ==> sent[i]
  {
    if outcomes != [] {
      UnsentCount(outcomes[..|outcomes| - 1], sent[..|sent| - 1]);
    }
  }

  lemma Places(outcomes: seq<Fact>, s: State)
    requires Invariant(outcomes, s)
    ensures |s.received| + |s.channel| + |Unsent(outcomes, s.sent)| == |outcomes|
  {
    var a, b, c := multiset(s.received), multiset(s.channel), multiset(Unsent(outcomes, s.sent));
    assert |a + b + c| == |a| + |b| + |c|;
    assert |multiset(outcomes)| == |outcomes|;
  }

  /** No send ever blocks. */
  lemma SendNeverBlocks(outcomes: seq<Fact>, s: State, k: nat, i: nat)
    requires Reached(outcomes, s, k) && i < s.launched && i < |s.sent| && !s.sent[i]
    ensures |s.channel| < |outcomes|
  {
    InvariantAlways(outcomes, s, k);
    Places(outcomes, s);
    UnsentCount(outcomes, s.sent);
  }

  /** Until the caller has its facts some step is possible: there is no deadlock. */
  lemma SomeStepIsPossible(outcomes: seq<Fact>, s: State, k: nat) returns (s': State)
    requires Reached(outcomes, s, k) && !Final(outcomes, s)
    ensures Step(outcomes, s, s')
  {
    InvariantAlways(outcomes, s, k);
    Places(outcomes, s);
    UnsentCount(outcomes, s.sent);
    if s.launched < |outcomes| {
      s' := s.(launched := s.launched + 1);
    } else if s.channel != [] {
      s' := s.(channel := s.channel[1..], received := s.received + [s.channel[0]]);
    } else {
      var i :| 0 <= i < |s.sent| && !s.sent[i];
      s' := s.(sent := s.sent[i := true], channel := s.channel + [outcomes[i]]);
      assert Send(outcomes, s, s', i);
    }
  }

  function StepsTaken(outcomes: seq<Fact>, s: State): int
    requires |s.sent| == |outcomes|
  {
    s.launched + (|outcomes| - |Unsent(outcomes, s.sent)|) + |s.received|
  }

  /** Every step is progress: a run of k steps has done k launches, sends and receives, so it has at most 3n. */
  lemma {:induction false} RunsAreShort(outcomes: seq<Fact>, s: State, k: nat)
    requires Reached(outcomes, s, k)
    ensures |s.sent| == |outcomes| && StepsTaken(outcomes, s) == k && k <= 3 * |outcomes|
    decreases k
  {
    InvariantAlways(outcomes, s, k);
    Places(outcomes, s);
    if k == 0 {
      AllUnsent(outcomes, s.sent);
    } else {
      var before :| Reached(outcomes, before, k - 1) && Step(outcomes, before, s);
      RunsAreShort(outcomes, before, k - 1);
      StepIsProgress(outcomes, before, s);
    }
  }

  lemma SendIsProgress(outcomes: seq<Fact>, s: State, s': State, i: nat)
    requires |s.sent| == |outcomes| && Send(outcomes, s, s', i)
    ensures StepsTaken(outcomes, s') == StepsTaken(outcomes, s) + 1
  {
    SendLeaves(outcomes, s.sent, i);
    var m, m' := multiset(Unsent(outcomes, s.sent)), multiset(Unsent(outcomes, s'.sent));
    assert |m| == |m'| + 1;
  }

  lemma StepIsProgress(outcomes: seq<Fact>, s: State, s': State)
    requires |s.sent| == |outcomes| && Step(outcomes, s, s')
    ensures |s'.sent| == |outcomes| && StepsTaken(outcomes, s') == StepsTaken(outcomes, s) + 1
  {
    if i: nat :| Send(outcomes, s, s', i) {
      SendIsProgress(outcomes, s, s', i);
    }
  }

  /** The caller ends up with exactly one fact per strategy, and nothing is left in the channel. */
  lemma OneFactPerStrategy(outcomes: seq<Fact>, s: State, k: nat)
    requires Reached(outcomes, s, k) && Final(outcomes, s)
    ensures multiset(s.received) == multiset(outcomes) && s.channel == [] && forall i :: 0 <= i < |s.sent| ==> s.sent[i]
  {
    InvariantAlways(outcomes, s, k);
    Places(outcomes, s);
    UnsentCount(outcomes, s.sent);
  }

  // ---------------------------------------------------------------- the order of the facts

  predicate EndpointLess(a: EndpointKey, b: EndpointKey)
  {
    if a.address.V4? != b.address.V4? then a.address.V4?
    else if a.address != b.address then AddressLess(a.address, b.address)
    else a.port < b.port
  }

  function ModeOrder(m: Mode): nat { if m == Normal then 0 else 1 }

  predicate FactLess(a: Fact, b: Fact)
  {
    if a.endpoint != b.endpoint then EndpointLess(a.endpoint, b.endpoint) else ModeOrder(a.mode) < ModeOrder(b.mode)
  }

  predicate Ties(a: Fact, b: Fact) { a.endpoint == b.endpoint && a.mode == b.mode }

  lemma EndpointOrder(a: EndpointKey, b: EndpointKey, c: EndpointKey)
    ensures !EndpointLess(a, a)
    ensures EndpointLess(a, b) && EndpointLess(b, c) ==> EndpointLess(a, c)
    ensures a == b || EndpointLess(a, b) || EndpointLess(b, a)
    ensures !(EndpointLess(a, b) && EndpointLess(b, a))
  {
    AddressOrder(a.address, b.address, c.address);
  }

  lemma FactOrder(a: Fact, b: Fact, c: Fact)
    ensures !FactLess(a, a)
    ensures FactLess(a, b) && FactLess(b, c) ==> FactLess(a, c)
    ensures Ties(a, b) <==> !FactLess(a, b) && !FactLess(b, a)
  {
    EndpointOrder(a.endpoint, b.endpoint, c.endpoint);
    EndpointOrder(b.endpoint, a.endpoint, c.endpoint);
  }

  /** No two different facts share endpoint and mode. */
  ghost predicate NoTies(outcomes: seq<Fact>)
  {
    forall a, b :: a in outcomes && b in outcomes && Ties(a, b) ==> a == b
  }

  lemma NoTiesIsTotal(outcomes: seq<Fact>)
    requires NoTies(outcomes)
    ensures Total(FactLess, outcomes)
  {
    forall x
      ensures !FactLess(x, x)
    {
      FactOrder(x, x, x);
    }
    forall x, y, z | FactLess(x, y) && FactLess(y, z)
      ensures FactLess(x, z)
    {
      FactOrder(x, y, z);
    }
    forall x, y | x in outcomes && y in outcomes && x != y
      ensures FactLess(x, y) || FactLess(y, x)
    {
      FactOrder(x, y, x);
    }
  }

  /** What executeTCPStrategies returns. */
  function Returned(s: State): seq<Fact> { StableSort(FactLess, s.received) }

  /** Every interleaving returns the same facts in the same order. */
  ghost predicate Deterministic(outcomes: seq<Fact>)
  {
    forall s, s', k, k' ::
      Reached(outcomes, s, k) && Final(outcomes, s) && Reached(outcomes, s', k') && Final(outcomes, s') ==>
        Returned(s) == Returned(s')
  }

  // ---------------------------------------------------------------- any order can arrive

  /** The facts in the order of the indices. */
  function Pick(outcomes: seq<Fact>, order: seq<nat>): (r: seq<Fact>)
    requires forall i :: i in order ==> i < |outcomes|
    ensures |r| == |order|
  {
    seq(|order|, j requires 0 <= j < |order| => assert order[j] in order; outcomes[order[j]])
  }

  ghost predicate IsOrder(order: seq<nat>, n: nat)
  {
    NoRepeats(order) && |order| == n && (forall i :: i in order ==> i < n) && forall i: nat :: i < n ==> i in order
  }

  function Marks(order: seq<nat>, n: nat): seq<bool> { seq(n, i => i in order) }

  lemma {:induction false} LaunchAll(outcomes: seq<Fact>, m: nat)
    requires m <= |outcomes|
    ensures Reached(outcomes, Start(|outcomes|).(launched := m), m)
  {
    if m > 0 {
      LaunchAll(outcomes, m - 1);
      var before, s := Start(|outcomes|).(launched := m - 1), Start(|outcomes|).(launched := m);
      assert Launch(outcomes, before, s);
      OneMore(outcomes, before, s, m - 1);
    } else {
      assert Start(|outcomes|).(launched := 0) == Start(|outcomes|);
    }
  }

  function AfterSends(outcomes: seq<Fact>, order: seq<nat>, j: nat): State
    requires j <= |order| && forall i :: i in order ==> i < |outcomes|
  {
    State(|outcomes|, Marks(order[..j], |outcomes|), Pick(outcomes, order)[..j], [])
  }

  lemma {:induction false} SendInOrder(outcomes: seq<Fact>, order: seq<nat>, j: nat)
    requires IsOrder(order, |outcomes|) && j <= |order|
    ensures Reached(outcomes, AfterSends(outcomes, order, j), |outcomes| + j)
  {
    if j == 0 {
      LaunchAll(outcomes, |outcomes|);
      assert Marks(order[..0], |outcomes|) == seq(|outcomes|, _ => false);
    } else {
      var i, s, s' := order[j - 1], AfterSends(outcomes, order, j - 1), AfterSends(outcomes, order, j);
      SendInOrder(outcomes, order, j - 1);
      assert order[..j] == order[..j - 1] + [i] && i in order;
      assert i !in order[..j - 1];
      assert s'.sent == s.sent[i := true] && s'.channel == s.channel + [outcomes[i]];
      assert Send(outcomes, s, s', i);
      OneMore(outcomes, s, s', |outcomes| + j - 1);
    }
  }

  function AfterReceives(outcomes: seq<Fact>, order: seq<nat>, j: nat): State
    requires j <= |order| && forall i :: i in order ==> i < |outcomes|
  {
    State(|outcomes|, Marks(order, |outcomes|), Pick(outcomes, order)[j..], Pick(outcomes, order)[..j])
  }

  /** Any order of the facts can arrive. */
  lemma {:induction false} ReceiveInOrder(outcomes: seq<Fact>, order: seq<nat>, j: nat)
    requires IsOrder(order, |outcomes|) && j <= |order|
    ensures Reached(outcomes, AfterReceives(outcomes, order, j), 2 * |outcomes| + j)
  {
    if j == 0 {
      SendInOrder(outcomes, order, |order|);
      assert order[..|order|] == order;
      assert AfterReceives(outcomes, order, 0) == AfterSends(outcomes, order, |order|);
    } else {
      var s, s' := AfterReceives(outcomes, order, j - 1), AfterReceives(outcomes, order, j);
      ReceiveInOrder(outcomes, order, j - 1);
      assert s.channel[1..] == s'.channel && s.received + [s.channel[0]] == s'.received;
      assert Receive(outcomes, s, s');
      OneMore(outcomes, s, s', 2 * |outcomes| + j - 1);
    }
  }

  // ---------------------------------------------------------------- ties keep their order of arrival

  function Tied(f: Fact, s: seq<Fact>): seq<Fact>
  {
    if s == [] then [] else (if Ties(f, s[0]) then [s[0]] else []) + Tied(f, s[1..])
  }

  lemma {:induction false} InsertKeepsTies(f: Fact, x: Fact, s: seq<Fact>)
    ensures Tied(f, Insert(FactLess, x, s)) == (if Ties(f, x) then [x] else []) + Tied(f, s)
  {
    if s != [] && FactLess(s[0], x) {
      InsertKeepsTies(f, x, s[1..]);
      FactOrder(s[0], x, f);
      var r := Insert(FactLess, x, s);
      assert r[0] == s[0] && r[1..] == Insert(FactLess, x, s[1..]);
    } else {
      var r := Insert(FactLess, x, s);
      assert r[0] == x && r[1..] == s;
    }
  }

  lemma {:induction false} SortKeepsTies(f: Fact, s: seq<Fact>)
    ensures Tied(f, StableSort(FactLess, s)) == Tied(f, s)
  {
    if s != [] {
      SortKeepsTies(f, s[1..]);
      InsertKeepsTies(f, s[0], StableSort(FactLess, s[1..]));
    }
  }

  /** All indices, i and j first. */
  function Rest(n: nat, i: nat, j: nat, m: nat): (r: seq<nat>)
    requires m <= n
    ensures forall x: nat :: x in r <==> x < m && x != i && x != j
    ensures NoRepeats(r)
  {
    if m == 0 then []
    else
      var r := Rest(n, i, j, m - 1);
      assert forall k :: 0 <= k < |r| ==> r[k] in r;
      if m - 1 == i || m - 1 == j then r else r + [m - 1]
  }

  lemma {:induction false} RestLength(n: nat, i: nat, j: nat, m: nat)
    requires m <= n && i != j
    ensures |Rest(n, i, j, m)| == m - (if i < m then 1 else 0) - (if j < m then 1 else 0)
  {
    if m > 0 {
      RestLength(n, i, j, m - 1);
    }
  }

  lemma TwoFirstIsOrder(n: nat, i: nat, j: nat, rest: seq<nat>)
    requires i < n && j < n && i != j && |rest| == n - 2 && NoRepeats(rest)
    requires forall x: nat :: x in rest <==> x < n && x != i && x != j
    ensures IsOrder([i, j] + rest, n)
  {
    var order := [i, j] + rest;
    assert forall k :: 0 <= k < |rest| ==> rest[k] in rest && order[k + 2] == rest[k];
    forall x: nat | x < n
      ensures x in order
    {
      assert order[0] == i && order[1] == j;
      assert x in rest ==> x in order;
    }
    forall a, b | 0 <= a < b < |order|
      ensures order[a] != order[b]
    {
      assert b >= 2 ==> order[b] == rest[b - 2] && rest[b - 2] in rest;
      assert a >= 2 ==> order[a] == rest[a - 2];
    }
  }

  lemma FirstTwo(outcomes: seq<Fact>, i: nat, j: nat) returns (s: State, k: nat)
    requires i < |outcomes| && j < |outcomes| && i != j
    ensures Reached(outcomes, s, k) && Final(outcomes, s) && |s.received| >= 1 && s.received[0] == outcomes[i]
  {
    var n := |outcomes|;
    var order := [i, j] + Rest(n, i, j, n);
    RestLength(n, i, j, n);
    TwoFirstIsOrder(n, i, j, Rest(n, i, j, n));
    ReceiveInOrder(outcomes, order, n);
    s, k := AfterReceives(outcomes, order, n), 2 * n + n;
    assert order[0] == i;
    assert s.received == Pick(outcomes, order);
  }

  /**
   * The result is the same for every interleaving exactly when no two different facts share endpoint and
   * mode: the sort is stable, so such a pair comes out in the order it arrived.
   */
  lemma DeterministicExactly(outcomes: seq<Fact>)
    ensures Deterministic(outcomes) <==> NoTies(outcomes)
  {
    if NoTies(outcomes) {
      NoTiesIsTotal(outcomes);
      forall s, s', k, k' | Reached(outcomes, s, k) && Final(outcomes, s) && Reached(outcomes, s', k') && Final(outcomes, s')
        ensures Returned(s) == Returned(s')
      {
        OneFactPerStrategy(outcomes, s, k);
        OneFactPerStrategy(outcomes, s', k');
        SortOfPermutation(FactLess, outcomes, s.received);
        SortOfPermutation(FactLess, outcomes, s'.received);
      }
    } else {
      var a, b :| a in outcomes && b in outcomes && Ties(a, b) && a != b;
      var i :| 0 <= i < |outcomes| && outcomes[i] == a;
      var j :| 0 <= j < |outcomes| && outcomes[j] == b;
      var s, k := FirstTwo(outcomes, i, j);
      var s', k' := FirstTwo(outcomes, j, i);
      SortKeepsTies(a, s.received);
      SortKeepsTies(a, s'.received);
      assert Tied(a, s.received)[0] == a && Tied(a, s'.received)[0] == b;
      assert Returned(s) != Returned(s');
    }
  }
}
