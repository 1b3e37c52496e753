/** The event bus: a ring buffer per topic that stands for a full log, and its polling consumers. */
module Stream {
  import opened Wrappers
  import opened Sequences

  datatype Event<P> = Event(offset: nat, payload: P)

  datatype BusError = UnknownTopic

  /** The two topics the bus knows, and any other name. */
  datatype Topic = TransactionsTopic | FaultsTopic | OtherTopic(name: string)

  const ALL_TOPICS := {TransactionsTopic, FaultsTopic}

  // ------------------------------------------------------------------
  // Specification: windows of a full log
  // ------------------------------------------------------------------

  function Min(a: int, b: int): int {
    if a < b then a else b
  }

  function Max(a: int, b: int): int {
    if a < b then b else a
  }

  /** `log[start..]`, numbered. */
  function NumberedFrom<P>(log: seq<P>, start: nat): (es: seq<Event<P>>)
    requires start <= |log|
    ensures |es| == |log| - start
    ensures forall i :: 0 <= i < |es| ==> es[i] == Event(start + i, log[start + i])
  {
    seq(|log| - start, i requires 0 <= i < |log| - start => Event(start + i, log[start + i]))
  }

  /** Offset of the oldest event still held. */
  function Oldest<P>(log: seq<P>, maxlen: nat): nat {
    Max(0, |log| - maxlen)
  }

  /** The last `min(maxlen, |log|)` events. */
  function Window<P>(log: seq<P>, maxlen: nat): seq<Event<P>> {
    NumberedFrom(log, Oldest(log, maxlen))
  }

  /** `deque(maxlen=m).append(e)` */
  function PushBounded<P>(buffer: seq<Event<P>>, e: Event<P>, maxlen: nat): seq<Event<P>> {
    var all := buffer + [e];
    if |all| > maxlen then all[|all| - maxlen..] else all
  }

  /** The buffer is the last events of the log, as many as there are up to `maxlen`, each under its place in the log. */
  lemma WindowExactly<P>(log: seq<P>, maxlen: nat)
    ensures
      var w := Window(log, maxlen);
      && |w| == (if |log| < maxlen then |log| else maxlen)
      && forall i :: 0 <= i < |w| ==> w[i].offset == |log| - |w| + i && w[i].payload == log[|log| - |w| + i]
  {
    hide NumberedFrom;
  }

  /** Appending to the ring is appending to the log. */
  lemma RingRefinesLog<P>(log: seq<P>, maxlen: nat, p: P)
    ensures PushBounded(Window(log, maxlen), Event(|log|, p), maxlen) == Window(log + [p], maxlen)
  {
    hide NumberedFrom;
    var pushed, window := PushBounded(Window(log, maxlen), Event(|log|, p), maxlen), Window(log + [p], maxlen);
    assert |pushed| == |window| == Min(maxlen, |log| + 1);
    forall i | 0 <= i < |window| ensures pushed[i] == window[i] {
      assert window[i] == Event(Oldest(log + [p], maxlen) + i, (log + [p])[Oldest(log + [p], maxlen) + i]);
    }
  }

  function AtOrAfter<P>(offset: int): Event<P> -> bool {
    (e: Event<P>) => e.offset >= offset
  }

  /** The loop appends before it looks at the limit, so it returns at least one event if there is one. */
  function Consumed<P>(buffer: seq<Event<P>>, offset: int, limit: int): seq<Event<P>> {
    var found := Filter(AtOrAfter(offset), buffer);
    found[..Min(|found|, Max(1, limit))]
  }

  /** Once enough events are found in a prefix, the rest of the buffer does not matter. */
  lemma ScanStops<P>(buffer: seq<Event<P>>, offset: int, limit: int, n: nat)
    requires n <= |buffer| && |Filter(AtOrAfter(offset), buffer[..n])| == Max(1, limit)
    ensures Consumed(buffer, offset, limit) == Filter(AtOrAfter(offset), buffer[..n])
  {
    FilterConcat(AtOrAfter(offset), buffer[..n], buffer[n..]);
    assert buffer == buffer[..n] + buffer[n..];
  }

  /** `(events[-1]["seq"] + 1) if events else offset` */
  function NextCursor<P>(events: seq<Event<P>>, offset: int): int {
    if events != [] then events[|events| - 1].offset + 1 else offset
  }

  // ------------------------------------------------------------------
  // Implementation
  // ------------------------------------------------------------------

  class EventBus<P> {
    const maxlen: nat
    var buffers: map<Topic, seq<Event<P>>>
    var sequence: map<Topic, nat>
    /** Everything ever published, per topic. */
    ghost var log: map<Topic, seq<P>>

    /** The buffer of a topic is the window of its log, and its counter the log's length. */
    ghost predicate Follows(t: Topic)
      reads this
    {
      && t in buffers && t in sequence && t in log
      && sequence[t] == |log[t]| && buffers[t] == Window(log[t], maxlen)
    }

    ghost predicate Valid()
      reads this
    {
      && buffers.Keys == sequence.Keys == log.Keys == ALL_TOPICS
      && Follows(TransactionsTopic) && Follows(FaultsTopic)
    }

    constructor (maxlen: nat)
      ensures Valid() && this.maxlen == maxlen
      ensures log == map t | t in ALL_TOPICS :: []
    {
      this.maxlen := maxlen;
      buffers := map t | t in ALL_TOPICS :: [];
      sequence := map t | t in ALL_TOPICS :: 0;
      log := map t | t in ALL_TOPICS :: [];
    }

    method Publish(topic: Topic, payload: P) returns (r: Result<nat, BusError>)
      requires Valid()
      modifies this
      ensures Valid()
      ensures topic !in ALL_TOPICS ==> r == Err(UnknownTopic) && log == old(log)
      ensures topic in ALL_TOPICS ==> r == Ok(|old(log)[topic]|) && log == old(log)[topic := old(log)[topic] + [payload]]
    {
      if topic !in buffers {
        return Err(UnknownTopic);
      }
      var n := Append(topic, payload);
      r := Ok(n);
    }

    /** Appends to a known topic's ring and bumps its counter. */
    method Append(topic: Topic, payload: P) returns (n: nat)
      requires Valid() && topic in ALL_TOPICS
      modifies this
      ensures Valid()
      ensures n == |old(log)[topic]| && log == old(log)[topic := old(log)[topic] + [payload]]
    {
      n := sequence[topic];
      RingRefinesLog(log[topic], maxlen, payload);
      buffers := buffers[topic := PushBounded(buffers[topic], Event(n, payload), maxlen)];
      sequence := sequence[topic := n + 1];
      log := log[topic := log[topic] + [payload]];
    }

    method Consume(topic: Topic, offset: int, limit: int) returns (r: Result<seq<Event<P>>, BusError>)
      requires Valid()
      ensures topic !in ALL_TOPICS ==> r == Err(UnknownTopic)
      ensures topic in ALL_TOPICS ==> r == Ok(Consumed(Window(log[topic], maxlen), offset, limit))
    {
      if topic !in buffers {
        return Err(UnknownTopic);
      }
      var found := Scan(buffers[topic], offset, limit);
      r := Ok(found);
    }

    /** The loop of `consume` over one buffer, with its early exit. */
    static method Scan(buffer: seq<Event<P>>, offset: int, limit: int) returns (results: seq<Event<P>>)
      ensures results == Consumed(buffer, offset, limit)
    {
      results := [];
      for i := 0 to |buffer|
        invariant results == Filter(AtOrAfter(offset), buffer[..i])
        invariant |results| < Max(1, limit)
      {
        var e := buffer[i];
        assert buffer[..i + 1] == buffer[..i] + [e];
        FilterAppend(AtOrAfter(offset), buffer[..i], e);
        if e.offset < offset {
          continue;
        }
        results := results + [e];
        if |results| >= limit {
          ScanStops(buffer, offset, limit, i + 1);
          return;
        }
      }
      assert buffer[..|buffer|] == buffer;
    }

    /** `GET /stream/topics/{topic}`: events from the offset and the cursor for the next poll. */
    method PollTopic(topic: Topic, offset: nat, limit: nat) returns (r: Result<(seq<Event<P>>, int), BusError>)
      requires Valid() && 1 <= limit <= 500
      ensures topic !in ALL_TOPICS ==> r == Err(UnknownTopic)
      ensures topic in ALL_TOPICS ==>
                var events := Consumed(Window(log[topic], maxlen), offset, limit);
                r == Ok((events, NextCursor(events, offset)))
    {
      var found := Consume(topic, offset, limit);
      if found.Err? {
        return Err(found.error);
      }
      r := Ok((found.value, NextCursor(found.value, offset)));
    }
  }

  // ------------------------------------------------------------------
  // What a poll returns
  // ------------------------------------------------------------------

  lemma {:induction false} FilterSuffix<P>(log: seq<P>, start: nat, offset: int)
    requires start <= |log|
    ensures Filter(AtOrAfter(offset), NumberedFrom(log, start)) == NumberedFrom(log, Min(|log|, Max(start, offset)))
    decreases |log| - start
  {
    hide NumberedFrom;
    if start < |log| {
      NumberedTail(log, start);
      FilterSuffix(log, start + 1, offset);
    } else {
      assert NumberedFrom(log, start) == [];
    }
  }

  lemma NumberedTail<P>(log: seq<P>, start: nat)
    requires start < |log|
    ensures
      var es, rest := NumberedFrom(log, start), NumberedFrom(log, start + 1);
      es == [Event(start, log[start])] + rest && es[0] == Event(start, log[start]) && es[1..] == rest
  {
    hide NumberedFrom;
    var es, rest := NumberedFrom(log, start), NumberedFrom(log, start + 1);
    assert es[1..] == rest;
    assert es == [es[0]] + es[1..];
  }

  /** A poll reads the log from the cursor, or from the oldest event still held, up to the limit. */
  lemma PollReadsLog<P>(log: seq<P>, maxlen: nat, offset: int, limit: int)
    ensures
      var start := Min(|log|, Max(Oldest(log, maxlen), offset));
      Consumed(Window(log, maxlen), offset, limit) == NumberedFrom(log, start)[..Min(if limit < 1 then 1 else limit, |log| - start)]
  {
    FilterSuffix(log, Oldest(log, maxlen), offset);
  }

  // ------------------------------------------------------------------
  // A consumer among publishers
  // ------------------------------------------------------------------

  datatype BusOp<P> = Publish(payload: P) | Poll(limit: int)

  /** A poll: cursor before and number of events published by then. */
  datatype PollRecord = PollRecord(cursor: nat, published: nat)

  datatype Consumer<P> = Consumer(log: seq<P>, cursor: nat, received: seq<Event<P>>, polls: seq<PollRecord>)

  function ConsumerStep<P>(maxlen: nat, c: Consumer<P>, op: BusOp<P>): Consumer<P> {
    match op
    case Publish(p) => c.(log := c.log + [p])
    case Poll(limit) =>
      var events := Consumed(Window(c.log, maxlen), c.cursor, limit);
      c.(cursor := NextCursor(events, c.cursor), received := c.received + events,
         polls := c.polls + [PollRecord(c.cursor, |c.log|)])
  }

  function ConsumerRun<P>(maxlen: nat, c: Consumer<P>, ops: seq<BusOp<P>>): Consumer<P>
    decreases |ops|
  {
    if ops == [] then c else ConsumerRun(maxlen, ConsumerStep(maxlen, c, ops[0]), ops[1..])
  }

  /** Strictly increasing offsets below the cursor, each with the payload published there. */
  predicate Correct<P(==)>(c: Consumer<P>) {
    && c.cursor <= |c.log|
    && (forall i :: 0 <= i < |c.received| ==> c.received[i].offset < c.cursor)
    && (forall i :: 0 <= i < |c.received| ==> c.received[i].payload == c.log[c.received[i].offset])
    && (forall i, j :: 0 <= i < j < |c.received| ==> c.received[i].offset < c.received[j].offset)
  }

  predicate WasReceived<P>(c: Consumer<P>, offset: nat) {
    exists i :: 0 <= i < |c.received| && c.received[i].offset == offset
  }

  /** Some poll came when the event lay before the oldest one held. */
  predicate EvictedBeforePoll<P>(maxlen: nat, c: Consumer<P>, offset: nat) {
    exists k :: 0 <= k < |c.polls| && c.polls[k].cursor <= offset < c.polls[k].published - maxlen
  }

  predicate Complete<P>(maxlen: nat, c: Consumer<P>) {
    forall s :: 0 <= s < c.cursor ==> WasReceived(c, s) || EvictedBeforePoll(maxlen, c, s)
  }

  predicate NeverBehind<P>(maxlen: nat, c: Consumer<P>) {
    forall k :: 0 <= k < |c.polls| ==> c.polls[k].published - c.polls[k].cursor <= maxlen
  }

  /** What one poll adds: a stretch of the log from where the consumer stands or where the buffer begins. */
  lemma PollAdds<P>(maxlen: nat, c: Consumer<P>, limit: int) returns (start: nat, count: nat)
    requires limit >= 1 && c.cursor <= |c.log|
    ensures c.cursor <= start && start + count <= |c.log|
    ensures start > c.cursor ==> start == |c.log| - maxlen
    ensures
      var d := ConsumerStep(maxlen, c, Poll(limit));
      && d.log == c.log
      && d.received == c.received + NumberedFrom(c.log, start)[..count]
      && d.cursor == (if count == 0 then c.cursor else start + count)
      && d.polls == c.polls + [PollRecord(c.cursor, |c.log|)]
  {
    start := Max(Oldest(c.log, maxlen), c.cursor);
    count := Min(limit, |c.log| - start);
    PollReadsLog(c.log, maxlen, c.cursor, limit);
  }

  lemma PublishKeeps<P>(maxlen: nat, c: Consumer<P>, p: P)
    requires Correct(c) && Complete(maxlen, c)
    ensures Correct(ConsumerStep(maxlen, c, Publish(p))) && Complete(maxlen, ConsumerStep(maxlen, c, Publish(p)))
  {
    var d := ConsumerStep(maxlen, c, Publish(p));
    forall s | 0 <= s < d.cursor ensures WasReceived(d, s) || EvictedBeforePoll(maxlen, d, s) {
      assert WasReceived(c, s) || EvictedBeforePoll(maxlen, c, s);
    }
  }

  lemma PollKeepsCorrect<P>(maxlen: nat, c: Consumer<P>, limit: int)
    requires limit >= 1 && Correct(c)
    ensures Correct(ConsumerStep(maxlen, c, Poll(limit)))
  {
    var start, count := PollAdds(maxlen, c, limit);
    ReceivedGrows(c, ConsumerStep(maxlen, c, Poll(limit)), start, count);
  }

  lemma ReceivedGrows<P>(c: Consumer<P>, d: Consumer<P>, start: nat, count: nat)
    requires Correct(c) && c.cursor <= start && start + count <= |c.log| && d.log == c.log
    requires d.received == c.received + NumberedFrom(c.log, start)[..count]
    requires d.cursor == (if count == 0 then c.cursor else start + count)
    ensures Correct(d)
  {
    var n := |c.received|;
    forall i | 0 <= i < |d.received|
      ensures d.received[i].offset < d.cursor && d.received[i].payload == d.log[d.received[i].offset]
      ensures i >= n ==> d.received[i].offset == start + (i - n)
    {
      if i < n { assert d.received[i] == c.received[i]; }
    }
  }

  lemma PollKeepsComplete<P>(maxlen: nat, c: Consumer<P>, limit: int)
    requires limit >= 1 && Correct(c) && Complete(maxlen, c)
    ensures Complete(maxlen, ConsumerStep(maxlen, c, Poll(limit)))
  {
    var d := ConsumerStep(maxlen, c, Poll(limit));
    var start, count := PollAdds(maxlen, c, limit);
    forall s | 0 <= s < d.cursor ensures WasReceived(d, s) || EvictedBeforePoll(maxlen, d, s) {
      if s < c.cursor {
        EarlierOffset(maxlen, c, d, s);
      } else if s < start {
        assert d.polls[|c.polls|] == PollRecord(c.cursor, |c.log|);
      } else {
        assert d.received[|c.received| + (s - start)].offset == s;
      }
    }
  }

  /** What was received or evicted stays so when the consumer's lists grow. */
  lemma EarlierOffset<P>(maxlen: nat, c: Consumer<P>, d: Consumer<P>, s: nat)
    requires c.received <= d.received && c.polls <= d.polls
    requires WasReceived(c, s) || EvictedBeforePoll(maxlen, c, s)
    ensures WasReceived(d, s) || EvictedBeforePoll(maxlen, d, s)
  {
    if WasReceived(c, s) {
      var i :| 0 <= i < |c.received| && c.received[i].offset == s;
      assert d.received[i].offset == s;
    } else {
      var k :| 0 <= k < |c.polls| && c.polls[k].cursor <= s < c.polls[k].published - maxlen;
      assert d.polls[k] == c.polls[k];
    }
  }

  /**
    Under any interleaving of publishes and cursor-following polls, a consumer
    gets strictly increasing, duplicate-free, correct events, and an event it
    passed over was evicted before the poll that passed over it.
   */
  lemma {:induction false} ConsumerSound<P>(maxlen: nat, c: Consumer<P>, ops: seq<BusOp<P>>)
    requires Correct(c) && Complete(maxlen, c)
    requires forall k :: 0 <= k < |ops| && ops[k].Poll? ==> ops[k].limit >= 1
    ensures Correct(ConsumerRun(maxlen, c, ops)) && Complete(maxlen, ConsumerRun(maxlen, c, ops))
    decreases |ops|
  {
    if ops != [] {
      match ops[0] {
        case Publish(p) => PublishKeeps(maxlen, c, p);
        case Poll(limit) => PollKeepsCorrect(maxlen, c, limit); PollKeepsComplete(maxlen, c, limit);
      }
      ConsumerSound(maxlen, ConsumerStep(maxlen, c, ops[0]), ops[1..]);
    }
  }

  lemma {:induction false} PollsGrow<P>(maxlen: nat, c: Consumer<P>, ops: seq<BusOp<P>>)
    ensures c.polls <= ConsumerRun(maxlen, c, ops).polls
    decreases |ops|
  {
    if ops != [] {
      PollsGrow(maxlen, ConsumerStep(maxlen, c, ops[0]), ops[1..]);
    }
  }

  /** A consumer never more than the buffer behind receives exactly the log prefix. */
  predicate Prefix<P(==)>(c: Consumer<P>) {
    c.cursor <= |c.log| && c.received == NumberedFrom(c.log, 0)[..c.cursor]
  }

  lemma {:induction false} KeepingUpLosesNothing<P>(maxlen: nat, c: Consumer<P>, ops: seq<BusOp<P>>)
    requires Prefix(c)
    requires forall k :: 0 <= k < |ops| && ops[k].Poll? ==> ops[k].limit >= 1
    requires NeverBehind(maxlen, ConsumerRun(maxlen, c, ops))
    ensures Prefix(ConsumerRun(maxlen, c, ops))
    decreases |ops|
  {
    if ops != [] {
      var d := ConsumerStep(maxlen, c, ops[0]);
      if ops[0].Poll? {
        PollsGrow(maxlen, d, ops[1..]);
        assert d.polls[|c.polls|] == PollRecord(c.cursor, |c.log|);
        assert ConsumerRun(maxlen, c, ops).polls[|c.polls|] == PollRecord(c.cursor, |c.log|);
        var start, count := PollAdds(maxlen, c, ops[0].limit);
        assert start == c.cursor;
      }
      assert Prefix(d);
      KeepingUpLosesNothing(maxlen, d, ops[1..]);
    }
  }
}
