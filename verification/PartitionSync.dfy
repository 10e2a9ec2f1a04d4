/** SyncPartitions of pkg/catalog/partition.go over Glue's partition calls
    (pkg/catalog/glue_partition.go): two levels of batching, and a service that may refuse any call or
    any single partition. */
module PartitionSync {
  import opened Common
  import opened PartitionDiff

  const DefaultBatch := 1000
  const MaxCreate := 100
  const MaxDelete := 25

  // ---------------------------------------------------------------------------------------
  // Batches
  // ---------------------------------------------------------------------------------------

  /** Consecutive pieces of the list, none empty, every one but the last of full size. */
  ghost predicate IsBatching(parts: seq<Partition>, size: int, batches: seq<seq<Partition>>)
  {
    && Flatten(batches) == parts
    && (forall i :: 0 <= i < |batches| ==> 0 < |batches[i]| <= size)
    && (forall i :: 0 <= i < |batches| - 1 ==> |batches[i]| == size)
  }

  method InBatches(parts: seq<Partition>, size: int) returns (batches: seq<seq<Partition>>)
    requires size > 0
    ensures IsBatching(parts, size, batches)
  {
    batches := [];
    var start := 0;
    while start < |parts|
      invariant 0 <= start
      invariant IsBatching(parts[..Min(start, |parts|)], size, batches)
      invariant start <= |parts| ==> forall i :: 0 <= i < |batches| ==> |batches[i]| == size
    {
      var end := Min(start + size, |parts|);
      FlattenConcat(batches, [parts[start..end]]);
      FlattenOne(parts[start..end]);
      assert parts[..end] == parts[..start] + parts[start..end];
      batches := batches + [parts[start..end]];
      start := start + size;
    }
    assert parts[..|parts|] == parts;
  }

  // ---------------------------------------------------------------------------------------
  // Calls and their effects
  // ---------------------------------------------------------------------------------------

  datatype Call = Describe | Create(batch: seq<Partition>) | Rewrite(partition: Partition) | Delete(batch: seq<Partition>)

  /** What the service answers to the n-th call: whether it finds the table, and which partitions it
      accepts. */
  datatype Service = Service(describes: nat -> bool, accepts: (nat, string) -> bool)

  function EventsOf(kind: Kind, parts: seq<Partition>): seq<Event>
  {
    seq(|parts|, i requires 0 <= i < |parts| => Event(kind, parts[i]))
  }

  function EventsIn(c: Call): seq<Event>
  {
    match c
    case Describe => []
    case Create(batch) => EventsOf(Add, batch)
    case Rewrite(p) => [Event(Update, p)]
    case Delete(batch) => EventsOf(Drop, batch)
  }

  /** Everything asked of the service, in order. */
  function Asked(calls: seq<Call>): seq<Event> { Flatten(AskedLists(calls)) }

  function AskedLists(calls: seq<Call>): seq<seq<Event>>
  {
    seq(|calls|, i requires 0 <= i < |calls| => EventsIn(calls[i]))
  }

  function Taken(s: Service, at: nat, events: seq<Event>): seq<Event>
  {
    if events == [] then []
    else
      var rest := Taken(s, at, events[..|events| - 1]);
      if s.accepts(at, Key(Last(events).partition)) then rest + [Last(events)] else rest
  }

  function TakenOf(s: Service, at: nat, c: Call): seq<Event> { Taken(s, at, EventsIn(c)) }

  /** The part of it that took effect; `at` is the number of the first call. */
  function Done(s: Service, at: nat, calls: seq<Call>): seq<Event> { Flatten(DoneLists(s, at, calls)) }

  function DoneLists(s: Service, at: nat, calls: seq<Call>): seq<seq<Event>>
  {
    seq(|calls|, i requires 0 <= i < |calls| => TakenOf(s, at + i, calls[i]))
  }

  ghost predicate CallOk(s: Service, at: nat, c: Call)
  {
    (c.Describe? ==> s.describes(at)) && forall e :: e in EventsIn(c) ==> s.accepts(at, Key(e.partition))
  }

  predicate WithinLimits(c: Call)
  {
    (c.Create? ==> 0 < |c.batch| <= MaxCreate) && (c.Delete? ==> 0 < |c.batch| <= MaxDelete)
  }

  /** Every call succeeded whole. */
  ghost predicate AllOk(s: Service, at: nat, calls: seq<Call>)
  {
    calls == [] || (AllOk(s, at, calls[..|calls| - 1]) && CallOk(s, at + |calls| - 1, Last(calls)))
  }

  ghost predicate AllWithin(calls: seq<Call>)
  {
    calls == [] || (AllWithin(calls[..|calls| - 1]) && WithinLimits(Last(calls)))
  }

  lemma {:induction false} AllConcat(s: Service, at: nat, a: seq<Call>, b: seq<Call>)
    ensures AllOk(s, at, a + b) <==> AllOk(s, at, a) && AllOk(s, at + |a|, b)
    ensures AllWithin(a + b) <==> AllWithin(a) && AllWithin(b)
    ensures Described(s, at, a + b) <==> Described(s, at, a) && Described(s, at + |a|, b)
  {
    if b == [] {
      assert a + b == a;
    } else {
      AllConcat(s, at, a, b[..|b| - 1]);
      assert (a + b)[..|a + b| - 1] == a + b[..|b| - 1] && Last(a + b) == Last(b);
      assert at + |a + b| - 1 == (at + |a|) + |b| - 1;
    }
  }

  lemma {:induction false} AskedConcat(a: seq<Call>, b: seq<Call>)
    ensures Asked(a + b) == Asked(a) + Asked(b)
  {
    assert AskedLists(a + b) == AskedLists(a) + AskedLists(b);
    FlattenConcat(AskedLists(a), AskedLists(b));
  }

  lemma {:induction false} DoneConcat(s: Service, at: nat, a: seq<Call>, b: seq<Call>)
    ensures Done(s, at, a + b) == Done(s, at, a) + Done(s, at + |a|, b)
  {
    assert DoneLists(s, at, a + b) == DoneLists(s, at, a) + DoneLists(s, at + |a|, b);
    FlattenConcat(DoneLists(s, at, a), DoneLists(s, at + |a|, b));
  }

  lemma {:induction false} AskedOne(c: Call)
    ensures Asked([c]) == EventsIn(c)
  {
    assert AskedLists([c]) == [EventsIn(c)];
    FlattenOne(EventsIn(c));
  }

  lemma {:induction false} DoneOne(s: Service, at: nat, c: Call)
    ensures Done(s, at, [c]) == TakenOf(s, at, c)
  {
    assert DoneLists(s, at, [c]) == [TakenOf(s, at, c)];
    FlattenOne(TakenOf(s, at, c));
  }

  lemma {:induction false} TakenBelow(s: Service, at: nat, events: seq<Event>)
    ensures multiset(Taken(s, at, events)) <= multiset(events)
    ensures (forall e :: e in events ==> s.accepts(at, Key(e.partition))) ==> Taken(s, at, events) == events
  {
    if events != [] {
      TakenBelow(s, at, events[..|events| - 1]);
      assert events == events[..|events| - 1] + [Last(events)];
    }
  }

  lemma {:induction false} BelowConcat(a: seq<Event>, b: seq<Event>, c: seq<Event>, d: seq<Event>)
    requires multiset(a) <= multiset(c) && multiset(b) <= multiset(d)
    ensures multiset(a + b) <= multiset(c + d)
  {
  }

  lemma {:induction false} AskedSnoc(calls: seq<Call>, c: Call)
    ensures Asked(calls + [c]) == Asked(calls) + EventsIn(c)
  {
    AskedConcat(calls, [c]);
    AskedOne(c);
  }

  lemma {:induction false} DoneSnoc(s: Service, at: nat, calls: seq<Call>, c: Call)
    ensures Done(s, at, calls + [c]) == Done(s, at, calls) + TakenOf(s, at + |calls|, c)
  {
    DoneConcat(s, at, calls, [c]);
    DoneOne(s, at + |calls|, c);
  }

  ghost predicate Below(s: Service, at: nat, calls: seq<Call>)
  {
    multiset(Done(s, at, calls)) <= multiset(Asked(calls))
  }

  lemma {:induction false} BelowSnoc(s: Service, at: nat, calls: seq<Call>, c: Call)
    requires Below(s, at, calls)
    ensures Below(s, at, calls + [c])
  {
    DoneSnoc(s, at, calls, c);
    AskedSnoc(calls, c);
    TakenOfBelow(s, at + |calls|, c);
    BelowConcat(Done(s, at, calls), TakenOf(s, at + |calls|, c), Asked(calls), EventsIn(c));
  }

  lemma {:induction false} TakenOfBelow(s: Service, at: nat, c: Call)
    ensures multiset(TakenOf(s, at, c)) <= multiset(EventsIn(c))
  {
    TakenBelow(s, at, EventsIn(c));
  }

  lemma {:induction false} DoneBelow(s: Service, at: nat, calls: seq<Call>)
    ensures Below(s, at, calls)
  {
    if calls != [] {
      var init, last := calls[..|calls| - 1], Last(calls);
      DoneBelow(s, at, init);
      assert calls == init + [last];
      BelowSnoc(s, at, init, last);
    }
  }

  lemma {:induction false} AllTaken(s: Service, at: nat, c: Call)
    requires CallOk(s, at, c)
    ensures TakenOf(s, at, c) == EventsIn(c)
  {
    TakenBelow(s, at, EventsIn(c));
  }

  lemma {:induction false} SameSnoc(s: Service, at: nat, calls: seq<Call>, c: Call)
    requires Done(s, at, calls) == Asked(calls) && CallOk(s, at + |calls|, c)
    ensures Done(s, at, calls + [c]) == Asked(calls + [c])
  {
    DoneSnoc(s, at, calls, c);
    AskedSnoc(calls, c);
    AllTaken(s, at + |calls|, c);
  }

  lemma {:induction false} DoneIsAsked(s: Service, at: nat, calls: seq<Call>)
    requires AllOk(s, at, calls)
    ensures Done(s, at, calls) == Asked(calls)
  {
    if calls != [] {
      var init, last := calls[..|calls| - 1], Last(calls);
      DoneIsAsked(s, at, init);
      SameSnoc(s, at, init, last);
      assert calls == init + [last];
    }
  }

  lemma {:induction false} OkIsDescribed(s: Service, at: nat, calls: seq<Call>)
    requires AllOk(s, at, calls)
    ensures Described(s, at, calls)
  {
    if calls != [] {
      OkIsDescribed(s, at, calls[..|calls| - 1]);
    }
  }

  /** No lookup of the table failed among these calls. */
  ghost predicate Described(s: Service, at: nat, calls: seq<Call>)
  {
    calls == [] || (Described(s, at, calls[..|calls| - 1]) && (Last(calls) == Describe ==> s.describes(at + |calls| - 1)))
  }

  /** a is b with some elements left out. */
  ghost predicate Subsequence(a: seq<Event>, b: seq<Event>)
    decreases |b|
  {
    a == [] || (b != [] && (if Last(a) == Last(b) then Subsequence(a[..|a| - 1], b[..|b| - 1]) else Subsequence(a, b[..|b| - 1])))
  }

  lemma {:induction false} SubsequenceSelf(a: seq<Event>)
    ensures Subsequence(a, a)
  {
    if a != [] {
      SubsequenceSelf(a[..|a| - 1]);
    }
  }

  lemma {:induction false} SubsequenceBelow(a: seq<Event>, b: seq<Event>)
    requires Subsequence(a, b)
    ensures multiset(a) <= multiset(b)
    decreases |b|
  {
    if a != [] {
      assert a == a[..|a| - 1] + [Last(a)] && b == b[..|b| - 1] + [Last(b)];
      if Last(a) == Last(b) {
        SubsequenceBelow(a[..|a| - 1], b[..|b| - 1]);
      } else {
        SubsequenceBelow(a, b[..|b| - 1]);
      }
    }
  }

  lemma {:induction false} SubsequenceShorter(a: seq<Event>, b: seq<Event>)
    requires a != [] && Subsequence(a, b)
    ensures Subsequence(a[..|a| - 1], b)
    decreases |b|
  {
    if |a| > 1 {
      var init := a[..|a| - 1];
      if Last(a) == Last(b) {
        if Last(init) == Last(b) {
          SubsequenceShorter(init, b[..|b| - 1]);
        }
      } else {
        SubsequenceShorter(a, b[..|b| - 1]);
        if Last(init) == Last(b) {
          SubsequenceShorter(init, b[..|b| - 1]);
        }
      }
    }
  }

  lemma {:induction false} SubsequenceLonger(a: seq<Event>, b: seq<Event>, x: Event)
    requires Subsequence(a, b)
    ensures Subsequence(a, b + [x])
  {
    assert (b + [x])[..|b|] == b;
    if a != [] && Last(a) == x {
      SubsequenceShorter(a, b);
    }
  }

  lemma {:induction false} SubsequenceConcat(a: seq<Event>, b: seq<Event>, c: seq<Event>, d: seq<Event>)
    requires Subsequence(a, b) && Subsequence(c, d)
    ensures Subsequence(a + c, b + d)
    decreases |d|
  {
    if d == [] {
      assert a + c == a && b + d == b;
    } else {
      var init := d[..|d| - 1];
      assert (b + d)[..|b + d| - 1] == b + init;
      assert b + d == (b + init) + [Last(d)];
      if c != [] && Last(c) == Last(d) {
        SubsequenceConcat(a, b, c[..|c| - 1], init);
        assert (a + c)[..|a + c| - 1] == a + c[..|c| - 1];
      } else {
        SubsequenceConcat(a, b, c, init);
        SubsequenceLonger(a + c, b + init, Last(d));
      }
    }
  }

  // ---------------------------------------------------------------------------------------
  // The client
  // ---------------------------------------------------------------------------------------

  lemma {:induction false} EventsConcat(kind: Kind, a: seq<Partition>, b: seq<Partition>)
    ensures EventsOf(kind, a + b) == EventsOf(kind, a) + EventsOf(kind, b)
  {
  }

  function AskedOf(kind: Kind, batches: seq<seq<Partition>>): seq<Event> { EventsOf(kind, Flatten(batches)) }

  lemma {:induction false} NextEvents(kind: Kind, batches: seq<seq<Partition>>, b: seq<Partition>)
    ensures AskedOf(kind, batches + [b]) == AskedOf(kind, batches) + EventsOf(kind, b)
  {
    FlattenConcat(batches, [b]);
    FlattenOne(b);
    EventsConcat(kind, Flatten(batches), b);
  }

  /** A run of calls: each within its limit, asking for these events in this order, a success exactly when
      every call succeeded whole. */
  ghost predicate Sends(s: Service, at: nat, calls: seq<Call>, ok: bool, events: seq<Event>)
  {
    ok == AllOk(s, at, calls) && AllWithin(calls) && Asked(calls) == events
  }

  lemma {:induction false} SendsThen(s: Service, at: nat, a: seq<Call>, ok1: bool, ea: seq<Event>, b: seq<Call>, ok2: bool, eb: seq<Event>)
    requires Sends(s, at, a, ok1, ea) && Sends(s, at + |a|, b, ok2, eb)
    ensures Sends(s, at, a + b, ok1 && ok2, ea + eb)
    ensures Described(s, at, a + b) <==> Described(s, at, a) && Described(s, at + |a|, b)
  {
    AskedConcat(a, b);
    AllConcat(s, at, a, b);
  }

  lemma {:induction false} SendsOne(s: Service, at: nat, c: Call)
    requires WithinLimits(c)
    ensures forall ok: bool :: ok == CallOk(s, at, c) ==> Sends(s, at, [c], ok, EventsIn(c))
    ensures Described(s, at, [c]) <==> (c == Describe ==> s.describes(at))
  {
    assert [c][..0] == [];
    AskedOne(c);
    assert AllOk(s, at, []) && AllWithin([]) && Described(s, at, []);
  }

  function CallFor(kind: Kind, batch: seq<Partition>): Call
  {
    match kind
    case Add => Create(batch)
    case Drop => Delete(batch)
    case Update => if batch == [] then Describe else Rewrite(batch[0])
  }

  ghost predicate Sendable(kind: Kind, batch: seq<Partition>)
  {
    batch != [] && |batch| <= match kind case Add => MaxCreate case Drop => MaxDelete case Update => 1
  }

  lemma {:induction false} SendableCall(kind: Kind, batch: seq<Partition>)
    requires Sendable(kind, batch)
    ensures WithinLimits(CallFor(kind, batch)) && CallFor(kind, batch) != Describe && EventsIn(CallFor(kind, batch)) == EventsOf(kind, batch)
  {
  }

  /** What one operation asked for: its events, or nothing after a failed lookup. */
  ghost predicate Operated(s: Service, at: nat, calls: seq<Call>, ok: bool, kind: Kind, parts: seq<Partition>, chosen: seq<Partition>)
  {
    && Sends(s, at, calls, ok, EventsOf(kind, chosen))
    && (chosen == parts || (chosen == [] && !Described(s, at, calls)))
  }

  lemma {:induction false} NextSent(s: Service, at: nat, sent: seq<Call>, ok: bool, kind: Kind, before: seq<seq<Partition>>, batch: seq<Partition>,
                                    more: seq<Call>, one: bool)
    requires Sends(s, at, sent, ok, AskedOf(kind, before)) && Sends(s, at + |sent|, more, one, EventsOf(kind, batch))
    ensures Sends(s, at, sent + more, ok && one, AskedOf(kind, before + [batch]))
    ensures Described(s, at, sent + more) <==> Described(s, at, sent) && Described(s, at + |sent|, more)
  {
    SendsThen(s, at, sent, ok, AskedOf(kind, before), more, one, EventsOf(kind, batch));
    NextEvents(kind, before, batch);
  }

  ghost predicate AllSendable(kind: Kind, batches: seq<seq<Partition>>)
  {
    forall i :: 0 <= i < |batches| ==> Sendable(kind, batches[i])
  }

  /** A run of calls without a failed lookup that asked for these batches. */
  ghost predicate SentAll(s: Service, at: nat, sent: seq<Call>, ok: bool, kind: Kind, batches: seq<seq<Partition>>)
  {
    Sends(s, at, sent, ok, AskedOf(kind, batches)) && Described(s, at, sent)
  }

  lemma {:induction false} SentNone(s: Service, at: nat, kind: Kind, batches: seq<seq<Partition>>)
    requires batches == []
    ensures SentAll(s, at, [], true, kind, batches)
  {
    assert AskedOf(kind, batches) == [];
  }

  lemma {:induction false} NextSentAll(s: Service, at: nat, sent: seq<Call>, ok: bool, kind: Kind, batches: seq<seq<Partition>>, i: nat, c: Call, one: bool)
    requires i < |batches| && SentAll(s, at, sent, ok, kind, batches[..i])
    requires c != Describe && EventsIn(c) == EventsOf(kind, batches[i]) && WithinLimits(c)
    requires Sends(s, at + |sent|, [c], one, EventsIn(c))
    ensures SentAll(s, at, sent + [c], ok && one, kind, batches[..i + 1])
  {
    NextSent(s, at, sent, ok, kind, batches[..i], batches[i], [c], one);
    SendsOne(s, at + |sent|, c);
    assert batches[..i + 1] == batches[..i] + [batches[i]];
  }

  /** Some of the batches, the others left empty. */
  ghost predicate Chosen(chosen: seq<seq<Partition>>, batches: seq<seq<Partition>>)
  {
    |chosen| == |batches| && forall i :: 0 <= i < |chosen| ==> chosen[i] == batches[i] || chosen[i] == []
  }

  /** What the outer batches of one kind asked for: a subsequence of the events, and all of them when no
      lookup failed. */
  ghost predicate OperatedAll(s: Service, at: nat, calls: seq<Call>, ok: bool, kind: Kind, batches: seq<seq<Partition>>, chosen: seq<seq<Partition>>)
  {
    && Sends(s, at, calls, ok, AskedOf(kind, chosen)) && Chosen(chosen, batches)
    && (Described(s, at, calls) ==> chosen == batches)
  }

  lemma {:induction false} NextOperated(s: Service, at: nat, calls: seq<Call>, ok: bool, kind: Kind, before: seq<seq<Partition>>, chosen: seq<seq<Partition>>,
                                        batch: seq<Partition>, more: seq<Call>, one: bool, kept: seq<Partition>)
    requires OperatedAll(s, at, calls, ok, kind, before, chosen) && Operated(s, at + |calls|, more, one, kind, batch, kept)
    ensures OperatedAll(s, at, calls + more, ok && one, kind, before + [batch], chosen + [kept])
  {
    NextSent(s, at, calls, ok, kind, chosen, kept, more, one);
  }

  // ---------------------------------------------------------------------------------------
  // The calls themselves
  // ---------------------------------------------------------------------------------------

  function CallsFor(kind: Kind, batches: seq<seq<Partition>>): seq<Call>
  {
    seq(|batches|, i requires 0 <= i < |batches| => CallFor(kind, batches[i]))
  }

  /** One operation's calls: none without partitions; the table is looked up first, except for drops, and nothing follows
      if it is not found; then one call per 100 additions, per single update, per 25 drops. */
  ghost predicate Made(s: Service, at: nat, kind: Kind, parts: seq<Partition>, sent: seq<Call>)
  {
    if parts == [] then sent == []
    else if kind != Drop && !s.describes(at) then sent == [Describe]
    else exists batches :: MadeOf(kind, parts, batches, sent)
  }

  ghost predicate MadeOf(kind: Kind, parts: seq<Partition>, batches: seq<seq<Partition>>, sent: seq<Call>)
  {
    && IsBatching(parts, match kind case Add => 100 case Update => 1 case Drop => 25, batches)
    && sent == (if kind == Drop then [] else [Describe]) + CallsFor(kind, batches)
  }

  /** One operation per outer batch, each after the calls of those before it. */
  ghost predicate MadeEach(s: Service, at: nat, kind: Kind, batches: seq<seq<Partition>>, sents: seq<seq<Call>>)
  {
    |sents| == |batches| && forall i :: 0 <= i < |sents| ==> MadeAt(s, at, kind, batches, sents, i)
  }

  ghost predicate MadeAt(s: Service, at: nat, kind: Kind, batches: seq<seq<Partition>>, sents: seq<seq<Call>>, i: nat)
    requires i < |sents| && |sents| == |batches|
  {
    Made(s, at + |Flatten(sents[..i])|, kind, batches[i], sents[i])
  }

  /** The calls for one kind of event, in outer batches of the given size. */
  ghost predicate MadeInBatches(s: Service, at: nat, kind: Kind, parts: seq<Partition>, size: int, sent: seq<Call>)
  {
    exists batches, sents :: MadeIn(s, at, kind, parts, size, sent, batches, sents)
  }

  ghost predicate MadeIn(s: Service, at: nat, kind: Kind, parts: seq<Partition>, size: int, sent: seq<Call>, batches: seq<seq<Partition>>, sents: seq<seq<Call>>)
  {
    IsBatching(parts, size, batches) && MadeEach(s, at, kind, batches, sents) && sent == Flatten(sents)
  }

  /** The calls of a whole sync: additions, then updates, then drops. */
  ghost predicate MadeAll(s: Service, at: nat, adds: seq<Partition>, updates: seq<Partition>, drops: seq<Partition>, size: int, sent: seq<Call>)
  {
    exists a, b, c :: InTurn(s, at, adds, updates, drops, size, a, b, c) && sent == a + b + c
  }

  ghost predicate InTurn(s: Service, at: nat, adds: seq<Partition>, updates: seq<Partition>, drops: seq<Partition>, size: int,
                         a: seq<Call>, b: seq<Call>, c: seq<Call>)
  {
    && MadeInBatches(s, at, Add, adds, size, a) && MadeInBatches(s, at + |a|, Update, updates, size, b)
    && MadeInBatches(s, at + |a| + |b|, Drop, drops, size, c)
  }

  lemma {:induction false} MadeNext(s: Service, at: nat, kind: Kind, batches: seq<seq<Partition>>, i: nat, sents: seq<seq<Call>>, more: seq<Call>)
    requires i < |batches| && MadeEach(s, at, kind, batches[..i], sents) && Made(s, at + |Flatten(sents)|, kind, batches[i], more)
    ensures MadeEach(s, at, kind, batches[..i + 1], sents + [more])
    ensures Flatten(sents + [more]) == Flatten(sents) + more
  {
    var all, upTo := sents + [more], batches[..i + 1];
    FlattenConcat(sents, [more]);
    FlattenOne(more);
    assert all[..i] == sents;
    forall k | 0 <= k < |all| ensures MadeAt(s, at, kind, upTo, all, k) {
      if k < i {
        assert MadeAt(s, at, kind, batches[..i], sents, k);
        assert all[..k] == sents[..k];
      }
    }
  }

  /** All calls for one kind of event: which they are, and what they asked for. */
  ghost predicate Phase(s: Service, at: nat, kind: Kind, parts: seq<Partition>, size: int, sent: seq<Call>, ok: bool, asked: seq<Event>)
  {
    Covered(s, at, sent, ok, EventsOf(kind, parts), asked) && MadeInBatches(s, at, kind, parts, size, sent)
  }

  /** The same for all kinds. */
  ghost predicate Phases(s: Service, at: nat, adds: seq<Partition>, updates: seq<Partition>, drops: seq<Partition>, size: int,
                         sent: seq<Call>, ok: bool, asked: seq<Event>)
  {
    && Covered(s, at, sent, ok, EventsOf(Add, adds) + EventsOf(Update, updates) + EventsOf(Drop, drops), asked)
    && MadeAll(s, at, adds, updates, drops, size, sent)
  }

  lemma {:induction false} ThreePhases(s: Service, c0: seq<Call>, c1: seq<Call>, c2: seq<Call>, adds: seq<Partition>, updates: seq<Partition>, drops: seq<Partition>,
                                       size: int, s1: seq<Call>, ok1: bool, x1: seq<Event>, s2: seq<Call>, ok2: bool, x2: seq<Event>,
                                       s3: seq<Call>, ok3: bool, x3: seq<Event>)
    requires c1 == c0 + s1 && c2 == c1 + s2
    requires Phase(s, |c0|, Add, adds, size, s1, ok1, x1) && Phase(s, |c1|, Update, updates, size, s2, ok2, x2)
    requires Phase(s, |c2|, Drop, drops, size, s3, ok3, x3)
    ensures c2 + s3 == c0 + (s1 + s2 + s3)
    ensures Phases(s, |c0|, adds, updates, drops, size, s1 + s2 + s3, ok1 && ok2 && ok3, x1 + x2 + x3)
  {
    var at := |c0|;
    CoveredThen(s, at, s1, ok1, EventsOf(Add, adds), x1, s2, ok2, EventsOf(Update, updates), x2);
    CoveredThen(s, at, s1 + s2, ok1 && ok2, EventsOf(Add, adds) + EventsOf(Update, updates), x1 + x2, s3, ok3, EventsOf(Drop, drops), x3);
    assert InTurn(s, at, adds, updates, drops, size, s1, s2, s3);
  }

  class Glue {
    const service: Service
    const initial: map<string, Partition>
    var calls: seq<Call>

    constructor (service: Service, initial: map<string, Partition>)
      ensures this.service == service && this.initial == initial && calls == []
    {
      this.service := service;
      this.initial := initial;
      this.calls := [];
    }

    /** What the catalog holds: the accepted part of everything asked so far. */
    function Catalog(): map<string, Partition>
      reads this
    {
      PutAll(initial, Done(service, 0, calls))
    }

    method Send(c: Call) returns (ok: bool)
      requires WithinLimits(c)
      modifies this
      ensures calls == old(calls) + [c] && Sends(service, |old(calls)|, [c], ok, EventsIn(c))
      ensures Described(service, |old(calls)|, [c]) <==> (c == Describe ==> ok)
    {
      var at := |calls|;
      ok := (c.Describe? ==> service.describes(at)) && forall e :: e in EventsIn(c) ==> service.accepts(at, Key(e.partition));
      calls := calls + [c];
      SendsOne(service, at, c);
    }

    /** One call per batch, going on past failures. */
    method SendEach(kind: Kind, batches: seq<seq<Partition>>) returns (ok: bool, ghost sent: seq<Call>)
      requires AllSendable(kind, batches)
      modifies this
      ensures calls == old(calls) + sent && sent == CallsFor(kind, batches)
      ensures SentAll(service, |old(calls)|, sent, ok, kind, batches)
    {
      ok, sent := true, [];
      ghost var at := |calls|;
      SentNone(service, at, kind, batches[..0]);
      for i := 0 to |batches|
        invariant calls == old(calls) + sent && sent == CallsFor(kind, batches[..i])
        invariant SentAll(service, at, sent, ok, kind, batches[..i])
      {
        var c := CallFor(kind, batches[i]);
        SendableCall(kind, batches[i]);
        var one := Send(c);
        NextSentAll(service, at, sent, ok, kind, batches, i, c, one);
        sent, ok := sent + [c], ok && one;
      }
      assert batches[..|batches|] == batches;
    }

    /** Finds the table, then sends the batches; when the table is not found nothing is sent. */
    method FindAndSend(kind: Kind, ghost parts: seq<Partition>, batches: seq<seq<Partition>>) returns (ok: bool, ghost sent: seq<Call>, ghost chosen: seq<Partition>)
      requires AllSendable(kind, batches) && Flatten(batches) == parts
      modifies this
      ensures calls == old(calls) + sent && sent == [Describe] + (if service.describes(|old(calls)|) then CallsFor(kind, batches) else [])
      ensures Operated(service, |old(calls)|, sent, ok, kind, parts, chosen)
    {
      ghost var at := |calls|;
      ok := Send(Describe);
      sent, chosen := [Describe], [];
      if !ok {
        return;
      }
      ghost var more;
      ok, more := SendEach(kind, batches);
      SendsThen(service, at, sent, true, [], more, ok, AskedOf(kind, batches));
      assert [] + AskedOf(kind, batches) == AskedOf(kind, batches);
      sent, chosen := sent + more, parts;
    }

    method AddPartitions(parts: seq<Partition>) returns (ok: bool, ghost sent: seq<Call>, ghost chosen: seq<Partition>)
      modifies this
      ensures calls == old(calls) + sent && Made(service, |old(calls)|, Add, parts, sent)
      ensures Operated(service, |old(calls)|, sent, ok, Add, parts, chosen)
    {
      if parts == [] {
        return true, [], [];
      }
      var batches := InBatches(parts, MaxCreate);
      ok, sent, chosen := FindAndSend(Add, parts, batches);
      assert sent != [Describe] ==> MadeOf(Add, parts, batches, sent);
    }

    /** One call per partition: there is no batch update. */
    method UpdatePartitions(parts: seq<Partition>) returns (ok: bool, ghost sent: seq<Call>, ghost chosen: seq<Partition>)
      modifies this
      ensures calls == old(calls) + sent && Made(service, |old(calls)|, Update, parts, sent)
      ensures Operated(service, |old(calls)|, sent, ok, Update, parts, chosen)
    {
      if parts == [] {
        return true, [], [];
      }
      var batches := InBatches(parts, 1);
      ok, sent, chosen := FindAndSend(Update, parts, batches);
      assert sent != [Describe] ==> MadeOf(Update, parts, batches, sent);
    }

    method DropPartitions(parts: seq<Partition>) returns (ok: bool, ghost sent: seq<Call>, ghost chosen: seq<Partition>)
      modifies this
      ensures calls == old(calls) + sent && Made(service, |old(calls)|, Drop, parts, sent)
      ensures Operated(service, |old(calls)|, sent, ok, Drop, parts, chosen)
    {
      if parts == [] {
        return true, [], [];
      }
      var batches := InBatches(parts, MaxDelete);
      chosen := parts;
      ok, sent := SendEach(Drop, batches);
      assert MadeOf(Drop, parts, batches, sent);
    }

    method Operate(kind: Kind, batch: seq<Partition>) returns (ok: bool, ghost sent: seq<Call>, ghost chosen: seq<Partition>)
      modifies this
      ensures calls == old(calls) + sent && OperatedOnce(service, |old(calls)|, sent, ok, kind, batch, chosen)
    {
      match kind
      case Add => ok, sent, chosen := AddPartitions(batch);
      case Update => ok, sent, chosen := UpdatePartitions(batch);
      case Drop => ok, sent, chosen := DropPartitions(batch);
    }

    /** Every batch attempted. */
    method OperateEach(kind: Kind, batches: seq<seq<Partition>>)
      returns (ok: bool, ghost sent: seq<Call>, ghost chosen: seq<seq<Partition>>, ghost sents: seq<seq<Call>>)
      modifies this
      ensures calls == old(calls) + sent
      ensures OperatedEach(service, |old(calls)|, sent, ok, kind, batches, chosen, sents)
    {
      ok, sent, chosen, sents := true, [], [], [];
      ghost var c0 := calls;
      OperatedNone(service, |c0|, kind, batches[..0]);
      for i := 0 to |batches|
        invariant calls == c0 + sent
        invariant OperatedEach(service, |c0|, sent, ok, kind, batches[..i], chosen, sents)
      {
        ghost var more, kept;
        var one;
        assert |calls| == |c0| + |sent|;
        one, more, kept := Operate(kind, batches[i]);
        NextBatchOperated(service, |c0|, sent, ok, kind, batches, i, chosen, sents, more, one, kept);
        InARow(c0, sent, more);
        sent, ok, chosen, sents := sent + more, ok && one, chosen + [kept], sents + [more];
      }
      assert batches[..|batches|] == batches;
    }

    /** The outer batches of one kind of event. */
    method OperateInBatches(kind: Kind, parts: seq<Partition>, size: int) returns (ok: bool, ghost sent: seq<Call>, ghost asked: seq<Event>)
      requires size > 0
      modifies this
      ensures calls == old(calls) + sent
      ensures Phase(service, |old(calls)|, kind, parts, size, sent, ok, asked)
    {
      var batches := InBatches(parts, size);
      ghost var at, chosen, sents := |calls|, [], [];
      ok, sent, chosen, sents := OperateEach(kind, batches);
      asked := AskedOf(kind, chosen);
      ChosenIsCovered(service, at, sent, ok, kind, parts, batches, chosen);
      assert MadeIn(service, at, kind, parts, size, sent, batches, sents);
    }

    /** Every partition the catalog holds, in any order. */
    method GetAllPartitions() returns (parts: seq<Partition>)
      requires Keyed(initial)
      ensures ByKey(parts) == Catalog()
    {
      PutAllKeyed(initial, Done(service, 0, calls));
      parts := Listed(Catalog());
    }

    /** Adds, then updates, then drops, each in outer batches; every batch is attempted. */
    method Reconcile(adds: seq<Partition>, updates: seq<Partition>, drops: seq<Partition>, size: int)
      returns (ok: bool, ghost sent: seq<Call>, ghost asked: seq<Event>)
      requires size > 0
      modifies this
      ensures calls == old(calls) + sent
      ensures Phases(service, |old(calls)|, adds, updates, drops, size, sent, ok, asked)
    {
      ghost var s1, s2, s3, x1, x2, x3;
      var added, updated, dropped;
      ghost var c0 := calls;
      added, s1, x1 := OperateInBatches(Add, adds, size);
      ghost var c1 := calls;
      updated, s2, x2 := OperateInBatches(Update, updates, size);
      ghost var c2 := calls;
      dropped, s3, x3 := OperateInBatches(Drop, drops, size);
      ThreePhases(service, c0, c1, c2, adds, updates, drops, size, s1, added, x1, s2, updated, x2, s3, dropped, x3);
      ok, sent, asked := added && updated && dropped, s1 + s2 + s3, x1 + x2 + x3;
    }

    /** Success means the catalog is where the table is. Whatever happened, a later sync finds exactly the
        events that did not take effect. */
    method SyncPartitions(desired: seq<Partition>, batchSize: int, listable: bool)
      returns (ok: bool, ghost sent: seq<Call>, ghost events: seq<Event>, ghost asked: seq<Event>)
      requires Keyed(initial)
      modifies this
      ensures calls == old(calls) + sent && (!listable ==> !ok && sent == [])
      ensures listable ==> IsEvents(old(Catalog()), ByKey(desired), events)
      ensures listable ==> Covered(service, |old(calls)|, sent, ok, InOrder(events), asked)
      ensures listable ==> MadeAll(service, |old(calls)|, Of(Add, events), Of(Update, events), Of(Drop, events), if batchSize <= 0 then 1000 else batchSize, sent)
      ensures ok ==> SameLocations(Catalog(), ByKey(desired))
      ensures listable ==> forall e :: IsEvent(Catalog(), ByKey(desired), e) <==> e in events && e !in Done(service, |old(calls)|, sent)
    {
      ok, sent, events, asked := false, [], [], [];
      if !listable {
        return;
      }
      var size := if batchSize <= 0 then DefaultBatch else batchSize;
      var existing := GetAllPartitions();
      var diff := DiffPartitions(existing, desired);
      var adds, updates, drops := Split(diff);
      ghost var have, c0 := Catalog(), calls;
      ok, sent, asked := Reconcile(adds, updates, drops, size);
      events := diff;
      PutAllKeyed(initial, Done(service, 0, c0));
      ByKeyKeyed(desired);
      SyncOutcome(have, ByKey(desired), events, service, |c0|, sent, ok, asked);
      CatalogAfter(initial, service, c0, sent);
    }
  }

  /** The values of a map, in any order. */
  method Listed(catalog: map<string, Partition>) returns (parts: seq<Partition>)
    requires Keyed(catalog)
    ensures ByKey(parts) == catalog
  {
    parts := [];
    var keys := catalog.Keys;
    while keys != {}
      invariant keys <= catalog.Keys
      invariant ByKey(parts) == catalog - keys
    {
      var k :| k in keys;
      ByKeySnoc(parts, catalog[k]);
      assert catalog - (keys - {k}) == (catalog - keys)[k := catalog[k]];
      parts := parts + [catalog[k]];
      keys := keys - {k};
    }
    assert catalog - {} == catalog;
  }

  lemma {:induction false} ByKeySnoc(parts: seq<Partition>, p: Partition)
    ensures ByKey(parts + [p]) == ByKey(parts)[Key(p) := p]
  {
    assert (parts + [p])[..|parts|] == parts;
  }

  /** The order SyncPartitions works in. */
  function InOrder(events: seq<Event>): seq<Event>
  {
    EventsOf(Add, Of(Add, events)) + EventsOf(Update, Of(Update, events)) + EventsOf(Drop, Of(Drop, events))
  }

  function Of(kind: Kind, events: seq<Event>): seq<Partition>
  {
    if events == [] then []
    else
      var rest := Of(kind, events[..|events| - 1]);
      if Last(events).kind == kind then rest + [Last(events).partition] else rest
  }

  method Split(events: seq<Event>) returns (adds: seq<Partition>, updates: seq<Partition>, drops: seq<Partition>)
    ensures adds == Of(Add, events) && updates == Of(Update, events) && drops == Of(Drop, events)
  {
    adds, updates, drops := [], [], [];
    for i := 0 to |events|
      invariant adds == Of(Add, events[..i]) && updates == Of(Update, events[..i]) && drops == Of(Drop, events[..i])
    {
      assert events[..i + 1][..i] == events[..i];
      match events[i].kind
      case Add => adds := adds + [events[i].partition];
      case Update => updates := updates + [events[i].partition];
      case Drop => drops := drops + [events[i].partition];
    }
    assert events[..|events|] == events;
  }

  ghost function Each(kind: Kind, events: seq<Event>): multiset<Event> { multiset(EventsOf(kind, Of(kind, events))) }

  lemma {:induction false} EachSnoc(kind: Kind, events: seq<Event>, e: Event)
    ensures Each(kind, events + [e]) == Each(kind, events) + (if e.kind == kind then multiset{e} else multiset{})
  {
    assert (events + [e])[..|events|] == events;
    if e.kind == kind {
      EventsConcat(kind, Of(kind, events), [e.partition]);
      assert EventsOf(kind, [e.partition]) == [e];
    }
  }

  lemma {:induction false} InOrderSame(events: seq<Event>)
    ensures multiset(InOrder(events)) == multiset(events)
  {
    if events != [] {
      var init, e := events[..|events| - 1], Last(events);
      InOrderSame(init);
      assert events == init + [e];
      EachSnoc(Add, init, e);
      EachSnoc(Update, init, e);
      EachSnoc(Drop, init, e);
    }
  }

  lemma {:induction false} PutAllSplit(m: map<string, Partition>, d: seq<Event>, a: seq<Event>, b: seq<Event>)
    requires d == a + b
    ensures PutAll(m, d) == PutAll(PutAll(m, a), b)
  {
    PutAllConcat(m, a, b);
  }

  lemma {:induction false} CatalogAfter(initial: map<string, Partition>, s: Service, before: seq<Call>, sent: seq<Call>)
    ensures PutAll(initial, Done(s, 0, before + sent)) == PutAll(PutAll(initial, Done(s, 0, before)), Done(s, |before|, sent))
  {
    DoneConcat(s, 0, before, sent);
    PutAllSplit(initial, Done(s, 0, before + sent), Done(s, 0, before), Done(s, 0 + |before|, sent));
  }

  lemma {:induction false} SyncOutcome(have: map<string, Partition>, want: map<string, Partition>, events: seq<Event>,
                                       s: Service, at: nat, sent: seq<Call>, ok: bool, asked: seq<Event>)
    requires Keyed(have) && Keyed(want) && IsEvents(have, want, events) && Covered(s, at, sent, ok, InOrder(events), asked)
    ensures multiset(Done(s, at, sent)) <= multiset(events)
    ensures ok ==> SameLocations(PutAll(have, Done(s, at, sent)), want)
    ensures forall e :: IsEvent(PutAll(have, Done(s, at, sent)), want, e) <==> e in events && e !in Done(s, at, sent)
  {
    var done := Done(s, at, sent);
    assert multiset(done) <= multiset(events) by {
      DoneBelow(s, at, sent);
      SubsequenceBelow(asked, InOrder(events));
      InOrderSame(events);
    }
    forall e ensures IsEvent(PutAll(have, done), want, e) <==> e in events && e !in done {
      RetryAsksForTheRest(have, want, events, done, e);
    }
    if ok {
      assert multiset(done) == multiset(events) by {
        OkIsDescribed(s, at, sent);
        DoneIsAsked(s, at, sent);
        InOrderSame(events);
      }
      Reconciles(have, want, events, done);
    }
  }

  /** One operation: what it asked for, and its calls. */
  ghost predicate OperatedOnce(s: Service, at: nat, calls: seq<Call>, ok: bool, kind: Kind, batch: seq<Partition>, chosen: seq<Partition>)
  {
    Operated(s, at, calls, ok, kind, batch, chosen) && Made(s, at, kind, batch, calls)
  }

  /** The outer batches so far: what they asked for, and their calls. */
  ghost predicate OperatedEach(s: Service, at: nat, calls: seq<Call>, ok: bool, kind: Kind, batches: seq<seq<Partition>>,
                               chosen: seq<seq<Partition>>, sents: seq<seq<Call>>)
  {
    && OperatedAll(s, at, calls, ok, kind, batches, chosen)
    && MadeEach(s, at, kind, batches, sents) && calls == Flatten(sents)
  }

  lemma {:induction false} NextBatchOperated(s: Service, at: nat, calls: seq<Call>, ok: bool, kind: Kind, batches: seq<seq<Partition>>, i: nat,
                                             chosen: seq<seq<Partition>>, sents: seq<seq<Call>>, more: seq<Call>, one: bool, kept: seq<Partition>)
    requires i < |batches| && OperatedEach(s, at, calls, ok, kind, batches[..i], chosen, sents)
    requires OperatedOnce(s, at + |calls|, more, one, kind, batches[i], kept)
    ensures OperatedEach(s, at, calls + more, ok && one, kind, batches[..i + 1], chosen + [kept], sents + [more])
  {
    NextOperated(s, at, calls, ok, kind, batches[..i], chosen, batches[i], more, one, kept);
    MadeNext(s, at, kind, batches, i, sents, more);
    assert batches[..i + 1] == batches[..i] + [batches[i]];
  }

  lemma {:induction false} InARow(a: seq<Call>, b: seq<Call>, c: seq<Call>)
    ensures (a + b) + c == a + (b + c)
  {
  }

  lemma {:induction false} OperatedNone(s: Service, at: nat, kind: Kind, none: seq<seq<Partition>>)
    requires none == []
    ensures OperatedEach(s, at, [], true, kind, none, [], [])
  {
    assert AskedOf(kind, none) == [];
  }

  /** A run of calls that asked for a subsequence of the events, for all of them when no lookup failed. */
  ghost predicate Covered(s: Service, at: nat, calls: seq<Call>, ok: bool, events: seq<Event>, asked: seq<Event>)
  {
    && Sends(s, at, calls, ok, asked) && Subsequence(asked, events)
    && (Described(s, at, calls) ==> asked == events)
  }

  lemma {:induction false} ChosenSubsequence(kind: Kind, batches: seq<seq<Partition>>, chosen: seq<seq<Partition>>)
    requires Chosen(chosen, batches)
    ensures Subsequence(AskedOf(kind, chosen), AskedOf(kind, batches))
    decreases |batches|
  {
    if batches != [] {
      var b, c := batches[..|batches| - 1], chosen[..|batches| - 1];
      ChosenSubsequence(kind, b, c);
      assert batches == b + [Last(batches)] && chosen == c + [Last(chosen)];
      NextEvents(kind, b, Last(batches));
      NextEvents(kind, c, Last(chosen));
      SubsequenceSelf(EventsOf(kind, Last(batches)));
      SubsequenceConcat(AskedOf(kind, c), AskedOf(kind, b), EventsOf(kind, Last(chosen)), EventsOf(kind, Last(batches)));
    }
  }

  lemma {:induction false} ChosenIsCovered(s: Service, at: nat, calls: seq<Call>, ok: bool, kind: Kind, parts: seq<Partition>,
                                           batches: seq<seq<Partition>>, chosen: seq<seq<Partition>>)
    requires OperatedAll(s, at, calls, ok, kind, batches, chosen) && Flatten(batches) == parts
    ensures Covered(s, at, calls, ok, EventsOf(kind, parts), AskedOf(kind, chosen))
  {
    ChosenSubsequence(kind, batches, chosen);
  }

  lemma {:induction false} CoveredThen(s: Service, at: nat, a: seq<Call>, ok1: bool, ea: seq<Event>, xa: seq<Event>,
                                       b: seq<Call>, ok2: bool, eb: seq<Event>, xb: seq<Event>)
    requires Covered(s, at, a, ok1, ea, xa) && Covered(s, at + |a|, b, ok2, eb, xb)
    ensures Covered(s, at, a + b, ok1 && ok2, ea + eb, xa + xb)
  {
    SendsThen(s, at, a, ok1, xa, b, ok2, xb);
    SubsequenceConcat(xa, ea, xb, eb);
  }

  // ---------------------------------------------------------------------------------------
  // Limits and order
  // ---------------------------------------------------------------------------------------

  /** Every call of a run within the limits creates 1 to 100 partitions, deletes 1 to 25, or changes one. */
  lemma {:induction false} LimitsMean(calls: seq<Call>, c: Call)
    requires AllWithin(calls) && c in calls
    ensures c.Create? ==> 1 <= |c.batch| <= 100
    ensures c.Delete? ==> 1 <= |c.batch| <= 25
  {
    if c != Last(calls) {
      assert calls == calls[..|calls| - 1] + [Last(calls)];
      LimitsMean(calls[..|calls| - 1], c);
    }
  }

  /** The order SyncPartitions works in: additions, then updates, then drops, each kind as in the diff. */
  lemma {:induction false} WorkOrder(events: seq<Event>, i: nat, j: nat)
    requires i < j < |InOrder(events)|
    ensures var x, y := InOrder(events)[i].kind, InOrder(events)[j].kind; x == y || x == Add || y == Drop
    ensures forall kind :: Of(kind, InOrder(events)) == Of(kind, events)
  {
    forall kind ensures Of(kind, InOrder(events)) == Of(kind, events) {
      KindInOrder(kind, events);
    }
  }

  lemma {:induction false} KindInOrder(kind: Kind, events: seq<Event>)
    ensures Of(kind, InOrder(events)) == Of(kind, events)
  {
    var a, b, c := EventsOf(Add, Of(Add, events)), EventsOf(Update, Of(Update, events)), EventsOf(Drop, Of(Drop, events));
    OfConcat(kind, a + b, c);
    OfConcat(kind, a, b);
    OfKind(kind, Add, Of(Add, events));
    OfKind(kind, Update, Of(Update, events));
    OfKind(kind, Drop, Of(Drop, events));
  }

  lemma {:induction false} OfConcat(kind: Kind, a: seq<Event>, b: seq<Event>)
    ensures Of(kind, a + b) == Of(kind, a) + Of(kind, b)
  {
    if b == [] {
      assert a + b == a;
    } else {
      OfConcat(kind, a, b[..|b| - 1]);
      assert (a + b)[..|a + b| - 1] == a + b[..|b| - 1];
    }
  }

  lemma {:induction false} OfKind(kind: Kind, other: Kind, parts: seq<Partition>)
    ensures Of(kind, EventsOf(other, parts)) == if kind == other then parts else []
  {
    var events := EventsOf(other, parts);
    if parts != [] {
      OfKind(kind, other, parts[..|parts| - 1]);
      assert events[..|events| - 1] == EventsOf(other, parts[..|parts| - 1]);
      assert parts == parts[..|parts| - 1] + [Last(parts)];
    }
  }
}
