/** The append-only audit trail, its durable store, and what a reader can rely on. */
module Audit {
  import opened Wrappers
  import opened Sequences
  import opened LedgerState
  import opened Nodes
  import opened Consensus
  import opened Voting

  datatype VoteStatus = Honest | HashFault | SigFault

  datatype NodeVote = NodeVote(nodeId: string, stateHash: string, signature: Option<Signature>, status: VoteStatus)

  datatype AuditEvent = AuditEvent(
    roundId: int,
    timestamp: int,
    transaction: Transaction,
    votes: seq<NodeVote>,
    agreedHash: Option<string>,
    consensusReached: bool,
    honestNodes: seq<string>,
    faultyNodes: seq<string>,
    invalidSigNodes: seq<string>,
    voteCounts: map<string, nat>)
  {
    predicate HasFault() {
      |faultyNodes| > 0
    }
  }

  // ------------------------------------------------------------------
  // Specification
  // ------------------------------------------------------------------

  /** Classification by looking the node up in the round's lists. */
  function Classify(r: NodeResult, cr: ConsensusResult): NodeVote {
    NodeVote(r.nodeId, r.stateHash, r.signature,
             if r.nodeId in cr.invalidSigNodes then SigFault
             else if r.nodeId in cr.faultyNodes then HashFault
             else Honest)
  }

  function Classifying(cr: ConsensusResult): NodeResult -> NodeVote {
    (r: NodeResult) => Classify(r, cr)
  }

  function MakeEvent(roundId: int, now: int, tx: Transaction, results: seq<NodeResult>, cr: ConsensusResult): AuditEvent {
    AuditEvent(roundId, now, tx, Map(Classifying(cr), results), cr.agreedHash, cr.consensusReached,
               cr.honestNodes, cr.faultyNodes, cr.invalidSigNodes, cr.voteCounts)
  }

  function Recorded(events: seq<AuditEvent>, now: int, tx: Transaction, results: seq<NodeResult>, cr: ConsensusResult): seq<AuditEvent> {
    events + [MakeEvent(|events| + 1, now, tx, results, cr)]
  }

  function Rows(rows: map<string, seq<AuditEvent>>, tenant: string): seq<AuditEvent> {
    if tenant in rows then rows[tenant] else []
  }

  lemma {:induction false} ClassifyOne(results: seq<NodeResult>, r: NodeResult, cr: ConsensusResult)
    ensures Map(Classifying(cr), results + [r]) == Map(Classifying(cr), results) + [Classify(r, cr)]
  {
    MapConcat(Classifying(cr), results, [r]);
  }

  // ------------------------------------------------------------------
  // Implementation
  // ------------------------------------------------------------------

  /** The durable store: one append-only sequence of events per tenant. */
  class AuditStore {
    var rows: map<string, seq<AuditEvent>>

    constructor ()
      ensures rows == map[]
    {
      rows := map[];
    }

    method Append(event: AuditEvent, tenant: string)
      modifies this
      ensures rows == old(rows)[tenant := Rows(old(rows), tenant) + [event]]
    {
      rows := rows[tenant := Rows(rows, tenant) + [event]];
    }
  }

  class AuditLog {
    const store: AuditStore?
    const tenant: string
    var events: seq<AuditEvent>

    /** Memory and the tenant's stored rows. */
    ghost function Durable(): AuditState
      reads this, store
      requires store != null
    {
      AuditState(events, Rows(store.rows, tenant))
    }

    constructor (store: AuditStore?, tenant: string)
      ensures this.store == store && this.tenant == tenant
      ensures store == null ==> events == []
      ensures store != null ==> Durable() == AuditStep(AuditState([], Rows(store.rows, tenant)), Restart)
    {
      this.store := store;
      this.tenant := tenant;
      events := [];
      new;
      if store != null {
        LoadFromStore();
      }
    }

    /** `_load_from_store`: rebuild the events one by one. */
    method LoadFromStore()
      requires store != null && events == []
      modifies this
      ensures events == Rows(store.rows, tenant)
    {
      var raw := Rows(store.rows, tenant);
      for i := 0 to |raw|
        invariant events == raw[..i]
      {
        events := events + [raw[i]];
      }
    }

    static method ClassifyVotes(results: seq<NodeResult>, cr: ConsensusResult) returns (votes: seq<NodeVote>)
      ensures votes == Map(Classifying(cr), results)
    {
      votes := [];
      for i := 0 to |results|
        invariant votes == Map(Classifying(cr), results[..i])
      {
        var r := results[i];
        assert results[..i + 1] == results[..i] + [r];
        ClassifyOne(results[..i], r, cr);
        var status := Honest;
        if r.nodeId in cr.invalidSigNodes {
          status := SigFault;
        } else if r.nodeId in cr.faultyNodes {
          status := HashFault;
        }
        votes := votes + [NodeVote(r.nodeId, r.stateHash, r.signature, status)];
      }
      assert results[..|results|] == results;
    }

    method Record(now: int, tx: Transaction, results: seq<NodeResult>, cr: ConsensusResult) returns (event: AuditEvent)
      modifies this, store
      ensures events == Recorded(old(events), now, tx, results, cr)
      ensures event == events[|events| - 1]
      ensures store != null ==> Durable() == AuditStep(old(Durable()), Round(now, tx, results, cr))
      ensures store != null ==> forall other :: other != tenant ==> Rows(store.rows, other) == Rows(old(store.rows), other)
    {
      var roundId := |events| + 1;
      var votes := ClassifyVotes(results, cr);
      event := AuditEvent(roundId, now, tx, votes, cr.agreedHash, cr.consensusReached,
                          cr.honestNodes, cr.faultyNodes, cr.invalidSigNodes, cr.voteCounts);
      events := events + [event];
      if store != null {
        store.Append(event, tenant);
      }
    }

    /** The event of a round, counted from one. */
    function GetEvent(roundId: int): (r: Option<AuditEvent>)
      reads this
      ensures r.Some? <==> 1 <= roundId <= |events|
      ensures r.Some? ==> r.value in events
      ensures r.Some? && Numbered(events) ==> r.value.roundId == roundId
    {
      if 0 <= roundId - 1 < |events| then Some(events[roundId - 1]) else None
    }

    /** The counting loop of `summary`, and the order in which its dictionary meets the nodes. */
    static method CountFaults(allFaulty: seq<string>) returns (faultCounts: map<string, nat>, order: seq<string>)
      ensures faultCounts == Tally(allFaulty) && order == FirstSeen(allFaulty)
    {
      faultCounts, order := map[], [];
      for i := 0 to |allFaulty|
        invariant faultCounts == Tally(allFaulty[..i]) && order == FirstSeen(allFaulty[..i])
      {
        assert allFaulty[..i + 1] == allFaulty[..i] + [allFaulty[i]];
        TallyAppend(allFaulty[..i], allFaulty[i]);
        FirstSeenAppend(allFaulty[..i], allFaulty[i]);
        FirstSeenOnce(allFaulty[..i]);
        if allFaulty[i] !in faultCounts {
          order := order + [allFaulty[i]];
        }
        faultCounts := Bump(faultCounts, allFaulty[i]);
      }
      assert allFaulty[..|allFaulty|] == allFaulty;
    }

    /** `summary`: totals, the rate of rounds with a fault, and the faulty nodes, most often faulty first. */
    method Summary() returns (sum: AuditSummary)
      ensures sum == SummaryOf(events)
    {
      var total := |events|;
      var faultRounds, undecided := |Filter(FAULTY, events)|, |Filter(UNDECIDED, events)|;
      var allFaulty: seq<string> := [];
      for i := 0 to |events|
        invariant allFaulty == AllFaulty(events[..i])
      {
        assert events[..i + 1] == events[..i] + [events[i]];
        AllFaultyAppend(events[..i], events[i]);
        allFaulty := allFaulty + events[i].faultyNodes;
      }
      assert events[..|events|] == events;
      var faultCounts, order := CountFaults(allFaulty);
      FirstSeenOnce(allFaulty);
      assert forall id :: id in order ==> id in faultCounts;
      sum := AuditSummary(total, faultRounds, undecided,
                          if total > 0 then faultRounds as real / total as real else 0.0,
                          Ranked(Items(faultCounts, order)));
    }
  }

  type Ranking = seq<(string, nat)>

  datatype AuditSummary = AuditSummary(
    totalRounds: nat,
    faultRounds: nat,
    consensusFailureRounds: nat,
    faultRate: real,
    topFaultyNodes: Ranking)

  function SummaryOf(events: seq<AuditEvent>): AuditSummary {
    FirstSeenOnce(AllFaulty(events));
    AuditSummary(
      |events|, |Filter(FAULTY, events)|, |Filter(UNDECIDED, events)|,
      if events != [] then |Filter(FAULTY, events)| as real / |events| as real else 0.0,
      Ranked(Items(Tally(AllFaulty(events)), FirstSeen(AllFaulty(events)))))
  }

  /** The keys of a dictionary filled from `xs`, in insertion order. */
  function FirstSeen(xs: seq<string>): seq<string> {
    if xs == [] then []
    else
      var seen := FirstSeen(xs[..|xs| - 1]);
      if xs[|xs| - 1] in seen then seen else seen + [xs[|xs| - 1]]
  }

  lemma {:induction false} FirstSeenAppend(xs: seq<string>, x: string)
    ensures FirstSeen(xs + [x]) == if x in FirstSeen(xs) then FirstSeen(xs) else FirstSeen(xs) + [x]
  {
    assert (xs + [x])[..|xs|] == xs;
  }

  lemma {:induction false} FirstSeenOnce(xs: seq<string>)
    ensures forall x :: x in FirstSeen(xs) <==> x in xs
    ensures forall i, j :: 0 <= i < j < |FirstSeen(xs)| ==> FirstSeen(xs)[i] != FirstSeen(xs)[j]
    decreases |xs|
  {
    if xs != [] {
      var n := |xs| - 1;
      FirstSeenOnce(xs[..n]);
      assert xs == xs[..n] + [xs[n]];
    }
  }

  /** `d.items()` for a dictionary with its keys in insertion order. */
  function Items(counts: map<string, nat>, order: seq<string>): (items: Ranking)
    requires forall id :: id in order ==> id in counts
    ensures |items| == |order| && forall i :: 0 <= i < |items| ==> items[i] == (order[i], counts[order[i]])
  {
    seq(|order|, i requires 0 <= i < |order| => (order[i], counts[order[i]]))
  }

  function InsertRanked(x: (string, nat), r: Ranking): (t: Ranking)
    ensures multiset(t) == multiset(r) + multiset{x}
  {
    if r != [] && r[0].1 >= x.1 then
      assert r == [r[0]] + r[1..];
      [r[0]] + InsertRanked(x, r[1..])
    else [x] + r
  }

  /** `sorted(items, key=lambda x: -x[1])` */
  function Ranked(items: Ranking): Ranking {
    if items == [] then [] else InsertRanked(items[|items| - 1], Ranked(items[..|items| - 1]))
  }

  predicate Descending(r: Ranking) {
    forall i, j :: 0 <= i < j < |r| ==> r[i].1 >= r[j].1
  }

  function WithCount(c: nat): ((string, nat)) -> bool {
    (x: (string, nat)) => x.1 == c
  }

  lemma {:induction false} InsertDescends(x: (string, nat), r: Ranking)
    requires Descending(r)
    ensures Descending(InsertRanked(x, r))
  {
    if r != [] && r[0].1 >= x.1 {
      InsertDescends(x, r[1..]);
      var t := InsertRanked(x, r[1..]);
      forall y | y in t ensures r[0].1 >= y.1 {
        assert y in multiset(t);
      }
    }
  }

  lemma {:induction false} InsertKeepsTies(x: (string, nat), r: Ranking, c: nat)
    requires Descending(r)
    ensures Filter(WithCount(c), InsertRanked(x, r)) == Filter(WithCount(c), r) + if x.1 == c then [x] else []
  {
    if r != [] && r[0].1 >= x.1 {
      InsertKeepsTies(x, r[1..], c);
      assert InsertRanked(x, r)[0] == r[0] && InsertRanked(x, r)[1..] == InsertRanked(x, r[1..]);
    } else if x.1 == c {
      FilterNone(WithCount(c), r);
    }
  }

  lemma {:induction false} RankedDescends(items: Ranking)
    ensures Descending(Ranked(items)) && multiset(Ranked(items)) == multiset(items)
    decreases |items|
  {
    if items != [] {
      hide Descending, InsertRanked;
      var n := |items| - 1;
      RankedDescends(items[..n]);
      InsertDescends(items[n], Ranked(items[..n]));
      SplitLast(items, n);
    }
  }

  lemma {:induction false} RankedKeepsTies(items: Ranking, c: nat)
    ensures Filter(WithCount(c), Ranked(items)) == Filter(WithCount(c), items)
    decreases |items|
  {
    if items != [] {
      hide Descending, InsertRanked, Filter;
      var n := |items| - 1;
      RankedKeepsTies(items[..n], c);
      RankedDescends(items[..n]);
      InsertKeepsTies(items[n], Ranked(items[..n]), c);
      SplitLast(items, n);
      FilterAppend(WithCount(c), items[..n], items[n]);
    }
  }

  /** Ranking permutes, puts higher counts first, and keeps the order of nodes with equal counts. */
  lemma {:induction false} RankedStably(items: Ranking, c: nat)
    ensures Descending(Ranked(items)) && multiset(Ranked(items)) == multiset(items)
    ensures Filter(WithCount(c), Ranked(items)) == Filter(WithCount(c), items)
  {
    RankedDescends(items);
    RankedKeepsTies(items, c);
  }

  /** How many indices of a log satisfy a property. */
  ghost function Rounds(events: seq<AuditEvent>, p: AuditEvent -> bool): set<int> {
    set k | 0 <= k < |events| && p(events[k])
  }

  lemma {:induction false} RoundsCounted(events: seq<AuditEvent>, p: AuditEvent -> bool)
    ensures |Rounds(events, p)| == |Filter(p, events)|
    decreases |events|
  {
    if events == [] {
      assert Rounds(events, p) == {};
    } else {
      var n := |events| - 1;
      RoundsCounted(events[..n], p);
      SplitLast(events, n);
      FilterAppend(p, events[..n], events[n]);
      RoundsNext(events, p, n);
    }
  }

  lemma RoundsNext(events: seq<AuditEvent>, p: AuditEvent -> bool, n: nat)
    requires |events| == n + 1
    ensures |Rounds(events, p)| == |Rounds(events[..n], p)| + if p(events[n]) then 1 else 0
  {
    var before := Rounds(events[..n], p);
    assert n !in before;
    assert Rounds(events, p) == if p(events[n]) then before + {n} else before;
  }

  /** The totals of a summary are numbers of rounds, and the rate is their quotient. */
  lemma SummaryExactly(events: seq<AuditEvent>)
    ensures
      var sum := SummaryOf(events);
      && sum.totalRounds == |events|
      && sum.faultRounds == |set k | 0 <= k < |events| && events[k].faultyNodes != []|
      && sum.consensusFailureRounds == |set k | 0 <= k < |events| && !events[k].consensusReached|
      && sum.faultRate * sum.totalRounds as real == sum.faultRounds as real
      && (events == [] ==> sum.faultRate == 0.0)
  {
    hide Filter, Ranked, Items, FirstSeen, AllFaulty;
    FaultRounds(events);
    UndecidedRounds(events);
    if events != [] {
      RateTimes(|Filter(FAULTY, events)| as real, |events| as real);
    }
  }

  lemma {:induction false} FaultRounds(events: seq<AuditEvent>)
    ensures |Filter(FAULTY, events)| == |set k | 0 <= k < |events| && events[k].faultyNodes != []|
  {
    RoundsCounted(events, FAULTY);
    assert Rounds(events, FAULTY) == set k | 0 <= k < |events| && events[k].faultyNodes != [];
  }

  lemma {:induction false} UndecidedRounds(events: seq<AuditEvent>)
    ensures |Filter(UNDECIDED, events)| == |set k | 0 <= k < |events| && !events[k].consensusReached|
  {
    RoundsCounted(events, UNDECIDED);
    assert Rounds(events, UNDECIDED) == set k | 0 <= k < |events| && !events[k].consensusReached;
  }

  lemma RateTimes(a: real, n: real)
    requires n > 0.0
    ensures a / n * n == a
  {
  }

  /** The listing names every node ever found faulty once, with its number of faulty rounds, highest first. */
  lemma {:induction false} TopFaultyNodes(events: seq<AuditEvent>, id: string, count: nat)
    ensures
      var top := SummaryOf(events).topFaultyNodes;
      && Descending(top)
      && ((id, count) in top <==> count > 0 && count == multiset(AllFaulty(events))[id])
      && multiset(top)[(id, count)] <= 1
  {
    var all := AllFaulty(events);
    FirstSeenOnce(all);
    var items := Items(Tally(all), FirstSeen(all));
    RankedStably(items, 0);
    ItemsOnce(all, id, count);
    assert (id, count) in Ranked(items) <==> (id, count) in multiset(Ranked(items));
  }

  lemma {:induction false} ItemsOnce(all: seq<string>, id: string, count: nat)
    requires forall x :: x in FirstSeen(all) ==> x in Tally(all)
    ensures multiset(Items(Tally(all), FirstSeen(all)))[(id, count)]
         == if count > 0 && count == multiset(all)[id] then 1 else 0
  {
    FirstSeenOnce(all);
    var items := Items(Tally(all), FirstSeen(all));
    assert id in all <==> multiset(all)[id] > 0;
    if count > 0 && count == multiset(all)[id] {
      var k :| 0 <= k < |FirstSeen(all)| && FirstSeen(all)[k] == id;
      OccursOnce(items, k);
    } else if (id, count) in items {
      assert false;
    }
  }

  lemma OccursOnce(items: Ranking, k: nat)
    requires k < |items| && forall i, j :: 0 <= i < j < |items| ==> items[i] != items[j]
    ensures multiset(items)[items[k]] == 1
  {
    var x := items[k];
    assert items == items[..k] + [x] + items[k + 1..];
    assert x !in items[..k] && x !in items[k + 1..];
  }

  const FAULTY: AuditEvent -> bool := (e: AuditEvent) => e.HasFault()
  const UNDECIDED: AuditEvent -> bool := (e: AuditEvent) => !e.consensusReached

  /** The faulty lists of all events, one after the other. */
  function AllFaulty(events: seq<AuditEvent>): seq<string> {
    if events == [] then [] else events[0].faultyNodes + AllFaulty(events[1..])
  }

  lemma {:induction false} AllFaultyAppend(events: seq<AuditEvent>, e: AuditEvent)
    ensures AllFaulty(events + [e]) == AllFaulty(events) + e.faultyNodes
  {
    if events == [] {
      assert [e][1..] == [];
    } else {
      assert (events + [e])[1..] == events[1..] + [e];
      AllFaultyAppend(events[1..], e);
    }
  }

  function TotalFaulty(events: seq<AuditEvent>): nat {
    if events == [] then 0 else |events[0].faultyNodes| + TotalFaulty(events[1..])
  }

  /** The per-node fault counts of a summary add up to the lengths of all faulty lists. */
  lemma {:induction false} FaultCountsAddUp(events: seq<AuditEvent>)
    ensures Sum(Widen(Tally(AllFaulty(events)))) == TotalFaulty(events)
  {
    FaultyLength(events);
    TallySum(AllFaulty(events));
  }

  lemma {:induction false} FaultyLength(events: seq<AuditEvent>)
    ensures |AllFaulty(events)| == TotalFaulty(events)
  {
    if events != [] {
      FaultyLength(events[1..]);
    }
  }

  /** The concatenation holds every faulty list at its place, and nothing else. */
  lemma {:induction false} AllFaultyAt(events: seq<AuditEvent>, k: nat, p: nat)
    requires k < |events| && p < |events[k].faultyNodes|
    ensures
      var i := TotalFaulty(events[..k]) + p;
      i < |AllFaulty(events)| == TotalFaulty(events) && AllFaulty(events)[i] == events[k].faultyNodes[p]
    decreases k
  {
    FaultyLength(events);
    if k > 0 {
      AllFaultyAt(events[1..], k - 1, p);
      assert events[..k][1..] == events[1..][..k - 1];
    }
  }

  /** Where a string first stands. */
  function FirstAt(xs: seq<string>, x: string): nat {
    if xs == [] || xs[0] == x then 0 else 1 + FirstAt(xs[1..], x)
  }

  lemma {:induction false} FirstAtAppend(xs: seq<string>, x: string, y: string)
    ensures y in xs ==> FirstAt(xs + [x], y) == FirstAt(xs, y) < |xs|
    ensures y !in xs && y == x ==> FirstAt(xs + [x], y) == |xs|
  {
    if xs != [] {
      assert (xs + [x])[1..] == xs[1..] + [x];
      FirstAtAppend(xs[1..], x, y);
    }
  }

  lemma {:induction false} FirstSeenInOrder(xs: seq<string>)
    ensures forall i, j :: 0 <= i < j < |FirstSeen(xs)| ==> FirstAt(xs, FirstSeen(xs)[i]) < FirstAt(xs, FirstSeen(xs)[j])
    decreases |xs|
  {
    if xs != [] {
      var n := |xs| - 1;
      FirstSeenInOrder(xs[..n]);
      FirstSeenOnce(xs[..n]);
      assert xs == xs[..n] + [xs[n]];
      forall y | y in FirstSeen(xs) ensures FirstAt(xs, y) == if y in xs[..n] then FirstAt(xs[..n], y) else n {
        FirstAtAppend(xs[..n], xs[n], y);
      }
      forall y | y in xs[..n] ensures FirstAt(xs[..n], y) < n {
        FirstAtAppend(xs[..n], xs[n], y);
      }
    }
  }

  /** Higher counts first, and among equal ones those first found earlier. */
  predicate InOrder(r: Ranking, all: seq<string>) {
    forall i, j :: 0 <= i < j < |r| ==>
      r[i].1 > r[j].1 || (r[i].1 == r[j].1 && FirstAt(all, r[i].0) < FirstAt(all, r[j].0))
  }

  lemma {:induction false} InsertInOrder(x: (string, nat), r: Ranking, all: seq<string>)
    requires InOrder(r, all) && forall y :: y in r ==> FirstAt(all, y.0) < FirstAt(all, x.0)
    ensures InOrder(InsertRanked(x, r), all)
  {
    hide FirstAt;
    if r != [] && r[0].1 >= x.1 {
      InsertInOrder(x, r[1..], all);
      var t := InsertRanked(x, r[1..]);
      forall y | y in t ensures r[0].1 > y.1 || (r[0].1 == y.1 && FirstAt(all, r[0].0) < FirstAt(all, y.0)) {
        assert y in multiset(t);
      }
    }
  }

  lemma {:induction false} RankedInOrder(items: Ranking, all: seq<string>)
    requires forall i, j :: 0 <= i < j < |items| ==> FirstAt(all, items[i].0) < FirstAt(all, items[j].0)
    ensures InOrder(Ranked(items), all)
    decreases |items|
  {
    if items != [] {
      hide InOrder, InsertRanked, FirstAt;
      var n := |items| - 1;
      RankedInOrder(items[..n], all);
      RankedDescends(items[..n]);
      forall y | y in Ranked(items[..n]) ensures FirstAt(all, y.0) < FirstAt(all, items[n].0) {
        assert y in multiset(items[..n]);
      }
      InsertInOrder(items[n], Ranked(items[..n]), all);
    } else {
      assert InOrder([], all);
    }
  }

  /** Nodes found faulty equally often are listed in the order in which they were first found so. */
  lemma {:induction false} TiesByFirstFault(events: seq<AuditEvent>)
    ensures InOrder(SummaryOf(events).topFaultyNodes, AllFaulty(events))
  {
    var all := AllFaulty(events);
    FirstSeenOnce(all);
    FirstSeenInOrder(all);
    RankedInOrder(Items(Tally(all), FirstSeen(all)), all);
  }

  // ------------------------------------------------------------------
  // Properties
  // ------------------------------------------------------------------

  /** With distinct ids, the recorded status is the truth about signature and hash. */
  lemma StatusExact(roundId: int, now: int, tx: Transaction, results: seq<NodeResult>, keys: map<string, nat>, t: Threshold, i: nat)
    requires DistinctIds(results) && i < |results|
    ensures
      var cr := Decide(results, keys, t);
      var vote := MakeEvent(roundId, now, tx, results, cr).votes[i];
      && vote.nodeId == results[i].nodeId && vote.stateHash == results[i].stateHash && vote.signature == results[i].signature
      && (vote.status == Honest <==> Accepts(keys, results[i]) && cr.agreedHash == Some(results[i].stateHash))
      && (vote.status == SigFault <==> !Accepts(keys, results[i]))
  {
    FlaggedExactly(results, keys, t, results[i]);
  }

  function WithStatus(status: VoteStatus): NodeVote -> bool {
    (v: NodeVote) => v.status == status
  }

  /** Votes that were counted for a hash. */
  function CountedFor(hash: string): NodeVote -> bool {
    (v: NodeVote) => v.status != SigFault && v.stateHash == hash
  }

  const VOTER_ID: NodeVote -> string := (v: NodeVote) => v.nodeId

  function VoterIds(votes: seq<NodeVote>): seq<string> {
    Map(VOTER_ID, votes)
  }

  /** Votes picked by a status, seen as results picked by what the status means. */
  lemma {:induction false} PickedVotes(results: seq<NodeResult>, cr: ConsensusResult, p: NodeVote -> bool, q: NodeResult -> bool)
    requires forall r :: r in results ==> p(Classify(r, cr)) == q(r)
    ensures Filter(p, Map(Classifying(cr), results)) == Map(Classifying(cr), Filter(q, results))
    ensures VoterIds(Filter(p, Map(Classifying(cr), results))) == Ids(Filter(q, results))
  {
    FilterMapped(Classifying(cr), p, q, results);
    MapTwice(Classifying(cr), VOTER_ID, NODE_ID, Filter(q, results));
  }

  /** The results a status stands for: accepted or not, with the agreed hash or another one. */
  function Meaning(status: VoteStatus, keys: map<string, nat>, agreed: Option<string>): NodeResult -> bool {
    (r: NodeResult) =>
      match status
      case Honest => Accepts(keys, r) && agreed == Some(r.stateHash)
      case HashFault => Accepts(keys, r) && agreed != Some(r.stateHash)
      case SigFault => !Accepts(keys, r)
  }

  lemma StatusMeans(results: seq<NodeResult>, keys: map<string, nat>, t: Threshold, status: VoteStatus)
    requires DistinctIds(results)
    ensures
      var cr := Decide(results, keys, t);
      forall r :: r in results ==> WithStatus(status)(Classify(r, cr)) == Meaning(status, keys, cr.agreedHash)(r)
  {
    var cr := Decide(results, keys, t);
    forall r | r in results ensures WithStatus(status)(Classify(r, cr)) == Meaning(status, keys, cr.agreedHash)(r) {
      FlaggedExactly(results, keys, t, r);
    }
  }

  /** The ids of the votes of each status are those of the results it stands for. */
  lemma {:induction false} IdsByStatus(results: seq<NodeResult>, keys: map<string, nat>, t: Threshold, status: VoteStatus)
    requires DistinctIds(results)
    ensures
      var cr := Decide(results, keys, t);
      VoterIds(Filter(WithStatus(status), Map(Classifying(cr), results)))
      == Ids(Filter(Meaning(status, keys, cr.agreedHash), results))
  {
    var cr := Decide(results, keys, t);
    StatusMeans(results, keys, t, status);
    PickedVotes(results, cr, WithStatus(status), Meaning(status, keys, cr.agreedHash));
  }

  /** A round's lists in terms of the meanings of the statuses. */
  lemma {:induction false} ListsByMeaning(results: seq<NodeResult>, keys: map<string, nat>, t: Threshold)
    ensures
      var cr := Decide(results, keys, t);
      && cr.honestNodes == Ids(Filter(Meaning(Honest, keys, cr.agreedHash), results))
      && cr.invalidSigNodes == Ids(Filter(Meaning(SigFault, keys, cr.agreedHash), results))
      && cr.faultyNodes == Ids(Filter(Meaning(HashFault, keys, cr.agreedHash), results)) + cr.invalidSigNodes
  {
    var cr := Decide(results, keys, t);
    FilterSame(Refusing(keys), Meaning(SigFault, keys, cr.agreedHash), results);
    if cr.agreedHash.Some? {
      var h := cr.agreedHash.value;
      FilterTwice(Accepting(keys), VotingFor(h), Meaning(Honest, keys, Some(h)), results);
      FilterTwice(Accepting(keys), VotingAgainst(h), Meaning(HashFault, keys, Some(h)), results);
    } else {
      NoneVerified(results, keys);
    }
  }

  lemma {:induction false} NoneVerified(results: seq<NodeResult>, keys: map<string, nat>)
    requires Verified(keys, results) == []
    ensures Filter(Refusing(keys), results) == results
    ensures Filter(Meaning(Honest, keys, None), results) == [] == Filter(Meaning(HashFault, keys, None), results)
  {
    assert forall r :: r in results ==> Accepts(keys, r) ==> r in Verified(keys, results);
    FilterAll(Refusing(keys), results);
    FilterNone(Meaning(Honest, keys, None), results);
    FilterNone(Meaning(HashFault, keys, None), results);
  }

  /** Counted votes are verified results with that hash. */
  lemma {:induction false} CountFromVotes(results: seq<NodeResult>, keys: map<string, nat>, t: Threshold, hash: string)
    requires DistinctIds(results)
    ensures |Filter(CountedFor(hash), Map(Classifying(Decide(results, keys, t)), results))| == Count(keys, results, hash)
  {
    var cr := Decide(results, keys, t);
    var q := (r: NodeResult) => Accepts(keys, r) && r.stateHash == hash;
    StatusMeans(results, keys, t, SigFault);
    forall r | r in results ensures CountedFor(hash)(Classify(r, cr)) == q(r) {
      assert WithStatus(SigFault)(Classify(r, cr)) == Meaning(SigFault, keys, cr.agreedHash)(r);
    }
    PickedVotes(results, cr, CountedFor(hash), q);
    FilterTwice(Accepting(keys), VotingFor(hash), q, results);
  }

  /**
    With distinct ids an event's lists and counts can be recomputed from its
    votes alone, and so can the agreed hash.
   */
  lemma ListsFromVotes(roundId: int, now: int, tx: Transaction, results: seq<NodeResult>, keys: map<string, nat>, t: Threshold)
    requires DistinctIds(results)
    ensures
      var e := MakeEvent(roundId, now, tx, results, Decide(results, keys, t));
      && e.honestNodes == VoterIds(Filter(WithStatus(Honest), e.votes))
      && e.invalidSigNodes == VoterIds(Filter(WithStatus(SigFault), e.votes))
      && e.faultyNodes == VoterIds(Filter(WithStatus(HashFault), e.votes)) + VoterIds(Filter(WithStatus(SigFault), e.votes))
      && (forall h :: h in e.voteCounts <==> |Filter(CountedFor(h), e.votes)| > 0)
      && (forall h :: h in e.voteCounts ==> e.voteCounts[h] == |Filter(CountedFor(h), e.votes)|)
      && (forall v :: v in e.votes && v.status == Honest ==> e.agreedHash == Some(v.stateHash))
      && (e.agreedHash.Some? <==> e.honestNodes != [])
      && (e.consensusReached <==>
            && e.honestNodes != []
            && MeetsShare(|e.honestNodes|, |e.votes| - |e.invalidSigNodes|, t))
  {
    hide Decide, Filter, Classifying, MeetsShare;
    VerdictFromLists(results, keys, t);
    ListsByMeaning(results, keys, t);
    IdsByStatus(results, keys, t, Honest);
    IdsByStatus(results, keys, t, HashFault);
    IdsByStatus(results, keys, t, SigFault);
    CountsFromVotes(results, keys, t);
    HonestShowHash(results, keys, t);
  }

  lemma VerdictFromLists(results: seq<NodeResult>, keys: map<string, nat>, t: Threshold)
    ensures
      var cr := Decide(results, keys, t);
      && (cr.agreedHash.Some? <==> cr.honestNodes != [])
      && (cr.consensusReached <==>
            cr.honestNodes != [] && MeetsShare(|cr.honestNodes|, |results| - |cr.invalidSigNodes|, t))
  {
    var cr := Decide(results, keys, t);
    NobodyHonest(results, keys, t);
    InvalidCount(results, keys, t);
    hide Decide, Wins, Count;
    ReportedCounts(results, keys, t);
    QuorumExact(results, keys, t);
    if cr.agreedHash.Some? {
      WinnerExact(results, keys, t, cr.agreedHash.value);
      WinnerCounts(results, keys, cr.agreedHash.value);
    }
  }

  lemma WinnerCounts(results: seq<NodeResult>, keys: map<string, nat>, h: string)
    requires Wins(keys, results, h)
    ensures Count(keys, results, h) > 0
  {
  }

  lemma NobodyHonest(results: seq<NodeResult>, keys: map<string, nat>, t: Threshold)
    ensures Decide(results, keys, t).agreedHash.None? ==> Decide(results, keys, t).honestNodes == []
  {
  }

  lemma InvalidCount(results: seq<NodeResult>, keys: map<string, nat>, t: Threshold)
    ensures |Verified(keys, results)| == |results| - |Decide(results, keys, t).invalidSigNodes|
  {
    hide SelectWinner, Votes;
    FilterSplit(Accepting(keys), Refusing(keys), results);
  }

  lemma {:induction false} CountsFromVotes(results: seq<NodeResult>, keys: map<string, nat>, t: Threshold)
    requires DistinctIds(results)
    ensures
      var cr := Decide(results, keys, t);
      var votes := Map(Classifying(cr), results);
      && (forall h :: h in cr.voteCounts <==> |Filter(CountedFor(h), votes)| > 0)
      && (forall h :: h in cr.voteCounts ==> cr.voteCounts[h] == |Filter(CountedFor(h), votes)|)
  {
    var cr := Decide(results, keys, t);
    var votes := Map(Classifying(cr), results);
    ReportedCounts(results, keys, t);
    forall h ensures |Filter(CountedFor(h), votes)| == Count(keys, results, h) {
      CountFromVotes(results, keys, t, h);
    }
  }

  lemma {:induction false} HonestShowHash(results: seq<NodeResult>, keys: map<string, nat>, t: Threshold)
    requires DistinctIds(results)
    ensures
      var cr := Decide(results, keys, t);
      forall v :: v in Map(Classifying(cr), results) && v.status == Honest ==> cr.agreedHash == Some(v.stateHash)
  {
    var cr := Decide(results, keys, t);
    StatusMeans(results, keys, t, Honest);
    forall v | v in Map(Classifying(cr), results) && v.status == Honest ensures cr.agreedHash == Some(v.stateHash) {
      var i :| 0 <= i < |results| && Map(Classifying(cr), results)[i] == v;
      assert results[i] in results && v == Classify(results[i], cr);
    }
  }

  /** A use of the log: record a round, or restart the process and reload. */
  datatype AuditOp = Round(now: int, tx: Transaction, results: seq<NodeResult>, cr: ConsensusResult) | Restart

  datatype AuditState = AuditState(events: seq<AuditEvent>, stored: seq<AuditEvent>)

  function AuditStep(s: AuditState, op: AuditOp): AuditState {
    match op
    case Round(now, tx, results, cr) =>
      var events := Recorded(s.events, now, tx, results, cr);
      AuditState(events, s.stored + [events[|events| - 1]])
    case Restart => s.(events := s.stored)
  }

  function AuditRun(s: AuditState, ops: seq<AuditOp>): AuditState
    decreases |ops|
  {
    if ops == [] then s else AuditRun(AuditStep(s, ops[0]), ops[1..])
  }

  predicate Numbered(events: seq<AuditEvent>) {
    forall k :: 0 <= k < |events| ==> events[k].roundId == k + 1
  }

  function Submitted(ops: seq<AuditOp>): seq<Transaction> {
    if ops == [] then []
    else if ops[0].Round? then [ops[0].tx] + Submitted(ops[1..])
    else Submitted(ops[1..])
  }

  /** When the rounds of a mix of operations were recorded. */
  function RecordedAt(ops: seq<AuditOp>): seq<int> {
    if ops == [] then []
    else if ops[0].Round? then [ops[0].now] + RecordedAt(ops[1..])
    else RecordedAt(ops[1..])
  }

  function TimesOf(events: seq<AuditEvent>): (times: seq<int>)
    ensures |times| == |events|
    ensures forall i :: 0 <= i < |events| ==> times[i] == events[i].timestamp
  {
    if events == [] then [] else [events[0].timestamp] + TimesOf(events[1..])
  }

  function TransactionsOf(events: seq<AuditEvent>): (txs: seq<Transaction>)
    ensures |txs| == |events|
    ensures forall i :: 0 <= i < |events| ==> txs[i] == events[i].transaction
  {
    if events == [] then [] else [events[0].transaction] + TransactionsOf(events[1..])
  }

  lemma {:induction false} RecordedTransaction(events: seq<AuditEvent>, now: int, tx: Transaction, results: seq<NodeResult>, cr: ConsensusResult)
    ensures TransactionsOf(Recorded(events, now, tx, results, cr)) == TransactionsOf(events) + [tx]
  {
  }

  lemma RecordedNumber(events: seq<AuditEvent>, now: int, tx: Transaction, results: seq<NodeResult>, cr: ConsensusResult)
    requires Numbered(events)
    ensures Numbered(Recorded(events, now, tx, results, cr))
  {
  }

  lemma {:induction false} RecordedTime(events: seq<AuditEvent>, now: int, tx: Transaction, results: seq<NodeResult>, cr: ConsensusResult)
    ensures TimesOf(Recorded(events, now, tx, results, cr)) == TimesOf(events) + [now]
  {
  }

  lemma AuditStepKeeps(s: AuditState, op: AuditOp)
    requires s.events == s.stored && Numbered(s.events)
    ensures
      var t := AuditStep(s, op);
      && t.events == t.stored && Numbered(t.events) && s.events <= t.events
      && TransactionsOf(t.events) == TransactionsOf(s.events) + (if op.Round? then [op.tx] else [])
      && TimesOf(t.events) == TimesOf(s.events) + (if op.Round? then [op.now] else [])
  {
    hide MakeEvent, TimesOf, TransactionsOf;
    if op.Round? {
      RecordedTime(s.events, op.now, op.tx, op.results, op.cr);
      RecordedTransaction(s.events, op.now, op.tx, op.results, op.cr);
      RecordedNumber(s.events, op.now, op.tx, op.results, op.cr);
    }
  }

  lemma {:induction false} RecordedAtFirst(before: seq<int>, ops: seq<AuditOp>)
    requires ops != []
    ensures before + (if ops[0].Round? then [ops[0].now] else []) + RecordedAt(ops[1..]) == before + RecordedAt(ops)
  {
  }

  lemma {:induction false} SubmittedFirst(before: seq<Transaction>, ops: seq<AuditOp>)
    requires ops != []
    ensures before + (if ops[0].Round? then [ops[0].tx] else []) + Submitted(ops[1..]) == before + Submitted(ops)
  {
  }

  /** Over any mix of rounds and restarts, memory and store agree, numbering is gapless and no round is lost. */
  lemma {:induction false} RestartsLoseNothing(s: AuditState, ops: seq<AuditOp>)
    requires s.events == s.stored && Numbered(s.events)
    ensures
      var end := AuditRun(s, ops);
      && end.events == end.stored
      && Numbered(end.events)
      && TransactionsOf(end.events) == TransactionsOf(s.events) + Submitted(ops)
      && TimesOf(end.events) == TimesOf(s.events) + RecordedAt(ops)
      && s.events <= end.events
    decreases |ops|
  {
    hide AuditStep, TransactionsOf, TimesOf, Numbered;
    if ops == [] {
      assert TransactionsOf(s.events) + [] == TransactionsOf(s.events) && TimesOf(s.events) + [] == TimesOf(s.events);
    } else {
      AuditStepKeeps(s, ops[0]);
      RestartsLoseNothing(AuditStep(s, ops[0]), ops[1..]);
      SubmittedFirst(TransactionsOf(s.events), ops);
      RecordedAtFirst(TimesOf(s.events), ops);
      RunFirst(s, ops);
    }
  }

  lemma {:induction false} RunFirst(s: AuditState, ops: seq<AuditOp>)
    requires ops != []
    ensures AuditRun(s, ops) == AuditRun(AuditStep(s, ops[0]), ops[1..])
  {
  }
}
