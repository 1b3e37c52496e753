/** Usage counters, billing ledger and SLA statistics: three books about the same rounds. */
module Billing {
  import opened Sequences

  datatype Tier = Basic | Standard | Critical

  /** Price per RMAE in millionths of a dollar: $0.001, $0.005 and $0.020. */
  function PricePerRmae(tier: Tier): int {
    match tier
    case Basic => 1000
    case Standard => 5000
    case Critical => 20000
  }

  /** SLA thresholds in ten-thousandths: 95%, 99% and 99.99%. */
  function SlaThreshold(tier: Tier): int {
    match tier
    case Basic => 9500
    case Standard => 9900
    case Critical => 9999
  }

  /** Recommended quorum thresholds in hundredths: 51%, 67% and 80%. */
  function QuorumThreshold(tier: Tier): int {
    match tier
    case Basic => 51
    case Standard => 67
    case Critical => 80
  }

  /** The tiers in dollars and in fractions of all rounds. */
  lemma TierTable()
    ensures PricePerRmae(Basic) as real / 1000000.0 == 0.001
    ensures PricePerRmae(Standard) as real / 1000000.0 == 0.005
    ensures PricePerRmae(Critical) as real / 1000000.0 == 0.020
    ensures SlaThreshold(Basic) as real / 10000.0 == 0.95
    ensures SlaThreshold(Standard) as real / 10000.0 == 0.99
    ensures SlaThreshold(Critical) as real / 10000.0 == 0.9999
    ensures QuorumThreshold(Basic) as real / 100.0 == 0.51
    ensures QuorumThreshold(Standard) as real / 100.0 == 0.67
    ensures QuorumThreshold(Critical) as real / 100.0 == 0.80
  {
  }

  /** `round(node_count * price, 6)`, exact in millionths of a dollar. */
  function ComputeBilledAmount(nodeCount: int, tier: Tier): int {
    nodeCount * PricePerRmae(tier)
  }

  datatype LedgerEntry = LedgerEntry(
    ledgerId: int,
    txId: string,
    tenantId: string,
    period: string,
    nodeRoundCount: int,
    billedAmount: int,
    consensusReached: bool,
    recordedAt: int)

  type UsageKey = (string, string)

  function Get<K(==)>(m: map<K, nat>, k: K): nat {
    if k in m then m[k] else 0
  }

  // ------------------------------------------------------------------
  // Implementation
  // ------------------------------------------------------------------

  class InMemoryCounts {
    var counts: map<UsageKey, nat>

    constructor ()
      ensures counts == map[]
    {
      counts := map[];
    }

    method Increment(tenant: string, period: string)
      modifies this
      ensures counts == Bump(old(counts), (tenant, period))
    {
      var key := (tenant, period);
      counts := counts[key := Get(counts, key) + 1];
    }
  }

  class InMemoryLedger {
    var entries: seq<LedgerEntry>
    var lastId: int

    constructor ()
      ensures entries == [] && lastId == 0
    {
      entries, lastId := [], 0;
    }

    method AppendEntry(txId: string, tenant: string, period: string, nodeRoundCount: int, billedAmount: int, reached: bool, now: int)
      modifies this
      ensures lastId == old(lastId) + 1
      ensures entries == old(entries) + [LedgerEntry(lastId, txId, tenant, period, nodeRoundCount, billedAmount, reached, now)]
    {
      lastId := lastId + 1;
      entries := entries + [LedgerEntry(lastId, txId, tenant, period, nodeRoundCount, billedAmount, reached, now)];
    }
  }

  class InMemorySLATracker {
    var total: map<string, nat>
    var faults: map<string, nat>

    constructor ()
      ensures total == map[] && faults == map[]
    {
      total, faults := map[], map[];
    }

    method Record(tenant: string, reached: bool)
      modifies this
      ensures total == Bump(old(total), tenant)
      ensures faults == if reached then old(faults) else Bump(old(faults), tenant)
    {
      total := total[tenant := Get(total, tenant) + 1];
      if !reached {
        faults := faults[tenant := Get(faults, tenant) + 1];
      }
    }
  }

  /** The three books as a value. */
  datatype Books = Books(
    counts: map<UsageKey, nat>,
    entries: seq<LedgerEntry>,
    lastId: int,
    total: map<string, nat>,
    faults: map<string, nat>)

  const NO_BOOKS := Books(map[], [], 0, map[], map[])

  /** A completed round to bill, with the period, tier and time at which it is billed. */
  datatype Charge = Charge(tenant: string, txId: string, period: string, tier: Tier, nodeCount: int, reached: bool, now: int)

  function BookCharge(b: Books, c: Charge): Books {
    Books(
      Bump(b.counts, (c.tenant, c.period)),
      b.entries + [LedgerEntry(b.lastId + 1, c.txId, c.tenant, c.period, c.nodeCount, ComputeBilledAmount(c.nodeCount, c.tier), c.reached, c.now)],
      b.lastId + 1,
      Bump(b.total, c.tenant),
      if c.reached then b.faults else Bump(b.faults, c.tenant))
  }

  class BillingTracker {
    const mem: InMemoryCounts
    const ledger: InMemoryLedger
    const sla: InMemorySLATracker

    function View(): Books
      reads mem, ledger, sla
    {
      Books(mem.counts, ledger.entries, ledger.lastId, sla.total, sla.faults)
    }

    constructor ()
      ensures fresh(mem) && fresh(ledger) && fresh(sla)
      ensures View() == NO_BOOKS
    {
      mem := new InMemoryCounts();
      ledger := new InMemoryLedger();
      sla := new InMemorySLATracker();
    }

    /** `period` and `tier` are read from the clock and the environment at the time of the call. */
    method RecordRound(tenant: string, txId: string, nodeCount: int, reached: bool, period: string, tier: Tier, now: int) returns (billed: int)
      modifies mem, ledger, sla
      ensures View() == BookCharge(old(View()), Charge(tenant, txId, period, tier, nodeCount, reached, now))
      ensures billed == nodeCount * PricePerRmae(tier)
    {
      billed := ComputeBilledAmount(nodeCount, tier);
      mem.Increment(tenant, period);
      ledger.AppendEntry(txId, tenant, period, nodeCount, billed, reached, now);
      sla.Record(tenant, reached);
    }

    /** `get_sla`, under the tier in force. */
    method GetSla(tenant: string, tier: Tier) returns (r: SlaReport)
      ensures r.tenantId == tenant && r.tier == tier
      ensures r.slaThreshold == SlaThreshold(tier) && r.pricePerRmae == PricePerRmae(tier)
      ensures r.quorumThreshold == QuorumThreshold(tier) && r.creditsEarned == 0
      ensures r.totalRounds == Get(sla.total, tenant) && r.faultRounds == Get(sla.faults, tenant)
      ensures r.slaMet == SlaMet(r.totalRounds, r.faultRounds, tier)
      ensures if r.totalRounds > 0 then r.faultRate * r.totalRounds as real == r.faultRounds as real else r.faultRate == 0.0
      ensures r.consensusRate + r.faultRate == 1.0
      ensures r.slaMet <==> r.consensusRate * 10000.0 >= SlaThreshold(tier) as real
    {
      var total: int, faultRounds: int := Get(sla.total, tenant), Get(sla.faults, tenant);
      var consensusRate := if total > 0 then (total - faultRounds) as real / total as real else 1.0;
      var faultRate := if total > 0 then faultRounds as real / total as real else 0.0;
      var met := consensusRate * 10000.0 >= SlaThreshold(tier) as real;
      if total > 0 {
        RateMeets(total - faultRounds, total, SlaThreshold(tier));
        RatesAddUp(faultRounds, total);
        ghost var rate := Quotient(faultRounds as real, total as real);
      }
      r := SlaReport(tenant, tier, SlaThreshold(tier), QuorumThreshold(tier), PricePerRmae(tier),
                     total, faultRounds, faultRate, consensusRate, met, 0);
    }
  }

  datatype SlaReport = SlaReport(
    tenantId: string,
    tier: Tier,
    slaThreshold: int,
    quorumThreshold: int,
    pricePerRmae: int,
    totalRounds: nat,
    faultRounds: nat,
    faultRate: real,
    consensusRate: real,
    slaMet: bool,
    creditsEarned: int)

  /** Comparing rates is comparing rounds. */
  lemma RateMeets(good: int, total: int, threshold: int)
    requires total > 0
    ensures good as real / total as real * 10000.0 >= threshold as real <==> good * 10000 >= threshold * total
  {
    var rate := Quotient(good as real, total as real);
    ScaleRates(rate * 10000.0, threshold as real, total as real);
    assert rate * 10000.0 * total as real == 10000.0 * (rate * total as real);
    assert 10000.0 * good as real == (good * 10000) as real;
    assert threshold as real * total as real == (threshold * total) as real;
  }

  lemma RatesAddUp(faultRounds: int, total: int)
    requires total > 0
    ensures (total - faultRounds) as real / total as real + faultRounds as real / total as real == 1.0
  {
    var good := Quotient((total - faultRounds) as real, total as real);
    var bad := Quotient(faultRounds as real, total as real);
    SumOfRates((total - faultRounds) as real, faultRounds as real, total as real, good, bad);
  }

  lemma Quotient(a: real, n: real) returns (q: real)
    requires n > 0.0
    ensures q == a / n && q * n == a
  {
    q := a / n;
  }

  lemma SumOfRates(a: real, b: real, n: real, x: real, y: real)
    requires n > 0.0 && a + b == n && x * n == a && y * n == b
    ensures x + y == 1.0
  {
    assert (x + y - 1.0) * n == 0.0;
  }

  lemma ScaleRates(a: real, b: real, n: real)
    requires n > 0.0
    ensures a >= b <==> a * n >= b * n
  {
    if a >= b {
      assert (a - b) * n >= 0.0;
    } else {
      assert (b - a) * n > 0.0;
    }
  }

  /** `(total - faults) / total >= threshold`, and met when there were no rounds. */
  predicate SlaMet(total: nat, faultRounds: nat, tier: Tier) {
    total > 0 ==> (total - faultRounds) * 10000 >= SlaThreshold(tier) * total
  }

  // ------------------------------------------------------------------
  // The books as functions of the rounds
  // ------------------------------------------------------------------

  function BookAll(charges: seq<Charge>): Books {
    if charges == [] then NO_BOOKS
    else BookCharge(BookAll(charges[..|charges| - 1]), charges[|charges| - 1])
  }

  function OfTenant(tenant: string): Charge -> bool {
    (c: Charge) => c.tenant == tenant
  }

  function ChargesOf(charges: seq<Charge>, tenant: string): seq<Charge> {
    Filter(OfTenant(tenant), charges)
  }

  function EntryOf(tenant: string): LedgerEntry -> bool {
    (e: LedgerEntry) => e.tenantId == tenant
  }

  /** `load_entries` */
  function EntriesFor(entries: seq<LedgerEntry>, tenant: string): seq<LedgerEntry> {
    Filter(EntryOf(tenant), entries)
  }

  const UNREACHED: LedgerEntry -> bool := (e: LedgerEntry) => !e.consensusReached

  function BilledTotal(entries: seq<LedgerEntry>): int {
    if entries == [] then 0 else BilledTotal(entries[..|entries| - 1]) + entries[|entries| - 1].billedAmount
  }

  /** What the rounds are worth at the prices in force when they were billed. */
  function Worth(charges: seq<Charge>): int {
    if charges == [] then 0
    else
      var c := charges[|charges| - 1];
      Worth(charges[..|charges| - 1]) + c.nodeCount * PricePerRmae(c.tier)
  }

  /** The usage counters of one tenant, all periods. */
  function PeriodsOf(counts: map<UsageKey, nat>, tenant: string): map<UsageKey, int> {
    map k | k in counts && k.0 == tenant :: counts[k]
  }

  /** The books of a tenant agree with each other and with the tenant's rounds. */
  ghost predicate Agrees(b: Books, charges: seq<Charge>, tenant: string) {
    var mine := EntriesFor(b.entries, tenant);
    && |mine| == |ChargesOf(charges, tenant)|
    && Sum(PeriodsOf(b.counts, tenant)) == |mine|
    && Get(b.total, tenant) == |mine|
    && Get(b.faults, tenant) == |Filter(UNREACHED, mine)|
    && BilledTotal(mine) == Worth(ChargesOf(charges, tenant))
  }

  lemma PeriodsBump(counts: map<UsageKey, nat>, key: UsageKey, tenant: string)
    ensures Sum(PeriodsOf(Bump(counts, key), tenant)) == Sum(PeriodsOf(counts, tenant)) + if key.0 == tenant then 1 else 0
  {
    var m := PeriodsOf(counts, tenant);
    if key.0 == tenant {
      SumUpdate(m, key, Get(counts, key) + 1);
      assert PeriodsOf(Bump(counts, key), tenant) == m[key := Get(counts, key) + 1];
    } else {
      assert PeriodsOf(Bump(counts, key), tenant) == m;
    }
  }

  lemma {:induction false} WorthAppend(charges: seq<Charge>, c: Charge)
    ensures Worth(charges + [c]) == Worth(charges) + c.nodeCount * PricePerRmae(c.tier)
  {
    assert (charges + [c])[..|charges|] == charges;
  }

  lemma {:induction false} BilledAppend(entries: seq<LedgerEntry>, e: LedgerEntry)
    ensures BilledTotal(entries + [e]) == BilledTotal(entries) + e.billedAmount
  {
    assert (entries + [e])[..|entries|] == entries;
  }

  /** The tenant's entries and rounds after one more charge, for this tenant or another. */
  lemma MineNext(b: Books, charges: seq<Charge>, c: Charge, tenant: string)
    ensures
      var d := BookCharge(b, c);
      var e := d.entries[|b.entries|];
      && EntriesFor(d.entries, tenant) == EntriesFor(b.entries, tenant) + (if c.tenant == tenant then [e] else [])
      && ChargesOf(charges + [c], tenant) == ChargesOf(charges, tenant) + (if c.tenant == tenant then [c] else [])
  {
    FilterAppend(OfTenant(tenant), charges, c);
    FilterAppend(EntryOf(tenant), b.entries, BookCharge(b, c).entries[|b.entries|]);
  }

  lemma AgreesOwn(b: Books, charges: seq<Charge>, c: Charge)
    requires Agrees(b, charges, c.tenant)
    ensures Agrees(BookCharge(b, c), charges + [c], c.tenant)
  {
    hide EntriesFor, ChargesOf, PeriodsOf, BilledTotal, Worth, Sum, Filter;
    var e := BookCharge(b, c).entries[|b.entries|];
    var mine := EntriesFor(b.entries, c.tenant);
    MineNext(b, charges, c, c.tenant);
    PeriodsBump(b.counts, (c.tenant, c.period), c.tenant);
    FilterAppend(UNREACHED, mine, e);
    BilledAppend(mine, e);
    WorthAppend(ChargesOf(charges, c.tenant), c);
  }

  lemma AgreesOther(b: Books, charges: seq<Charge>, c: Charge, tenant: string)
    requires Agrees(b, charges, tenant) && c.tenant != tenant
    ensures Agrees(BookCharge(b, c), charges + [c], tenant)
  {
    MineNext(b, charges, c, tenant);
    PeriodsBump(b.counts, (c.tenant, c.period), tenant);
    assert EntriesFor(BookCharge(b, c).entries, tenant) == EntriesFor(b.entries, tenant);
    assert ChargesOf(charges + [c], tenant) == ChargesOf(charges, tenant);
  }

  /** For every tenant and any rounds, under changing periods and tiers, the three books agree. */
  lemma {:induction false} BooksAgree(charges: seq<Charge>, tenant: string)
    ensures Agrees(BookAll(charges), charges, tenant)
    decreases |charges|
  {
    if charges == [] {
      assert PeriodsOf(map[], tenant).Keys == {};
    } else {
      var n := |charges| - 1;
      BooksAgree(charges[..n], tenant);
      assert charges == charges[..n] + [charges[n]];
      if charges[n].tenant == tenant {
        AgreesOwn(BookAll(charges[..n]), charges[..n], charges[n]);
      } else {
        AgreesOther(BookAll(charges[..n]), charges[..n], charges[n], tenant);
      }
    }
  }

  /** Counters are per period: each holds the number of the tenant's rounds in it. */
  lemma {:induction false} CountsPerPeriod(charges: seq<Charge>, tenant: string, period: string)
    ensures Get(BookAll(charges).counts, (tenant, period)) == |Filter((c: Charge) => c.tenant == tenant && c.period == period, charges)|
    decreases |charges|
  {
    if charges != [] {
      var n := |charges| - 1;
      CountsPerPeriod(charges[..n], tenant, period);
      assert charges == charges[..n] + [charges[n]];
      FilterAppend((c: Charge) => c.tenant == tenant && c.period == period, charges[..n], charges[n]);
    }
  }

  /** The ledger entry of round `k`. */
  function EntryOfRound(k: nat, c: Charge): LedgerEntry {
    LedgerEntry(k + 1, c.txId, c.tenant, c.period, c.nodeCount, c.nodeCount * PricePerRmae(c.tier), c.reached, c.now)
  }

  /** One entry per round, in order, with ids counting from one. */
  lemma {:induction false} LedgerDescribesRounds(charges: seq<Charge>)
    ensures
      var b := BookAll(charges);
      |b.entries| == |charges| == b.lastId
      && forall k :: 0 <= k < |charges| ==> b.entries[k] == EntryOfRound(k, charges[k])
    decreases |charges|
  {
    if charges != [] {
      LedgerDescribesRounds(charges[..|charges| - 1]);
    }
  }

  /** The ledger is append-only: more rounds leave the entries of earlier ones as they are. */
  lemma {:induction false} LedgerIsImmutable(charges: seq<Charge>, more: seq<Charge>)
    ensures BookAll(charges).entries <= BookAll(charges + more).entries
  {
    LedgerDescribesRounds(charges);
    LedgerDescribesRounds(charges + more);
  }

  /** Billing one tenant leaves the books of the others alone. */
  lemma OthersUnchanged(b: Books, c: Charge, other: string)
    requires other != c.tenant
    ensures
      var d := BookCharge(b, c);
      && EntriesFor(d.entries, other) == EntriesFor(b.entries, other)
      && PeriodsOf(d.counts, other) == PeriodsOf(b.counts, other)
      && Get(d.total, other) == Get(b.total, other)
      && Get(d.faults, other) == Get(b.faults, other)
  {
    FilterAppend(EntryOf(other), b.entries, BookCharge(b, c).entries[|b.entries|]);
    assert PeriodsOf(BookCharge(b, c).counts, other) == PeriodsOf(b.counts, other);
  }

  /** The SLA verdict can be checked from the ledger alone. */
  lemma {:induction false} SlaFromLedger(charges: seq<Charge>, tenant: string, tier: Tier)
    ensures
      var b := BookAll(charges);
      var mine := EntriesFor(b.entries, tenant);
      SlaMet(Get(b.total, tenant), Get(b.faults, tenant), tier) <==>
      (mine != [] ==> |Filter((e: LedgerEntry) => e.consensusReached, mine)| * 10000 >= SlaThreshold(tier) * |mine|)
  {
    BooksAgree(charges, tenant);
    FilterSplit(UNREACHED, (e: LedgerEntry) => e.consensusReached, EntriesFor(BookAll(charges).entries, tenant));
  }
}
