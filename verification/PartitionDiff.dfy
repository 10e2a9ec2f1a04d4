/** Reconciling a catalog's partitions with a table's: the events DiffPartitions computes
    (pkg/catalog/partition.go), and what the catalog holds once any part of them took effect. */
module PartitionDiff {
  import opened Common

  datatype Partition = Partition(values: seq<string>, location: string)

  const Separator := '\U{001F}'

  function Join(values: seq<string>): string
  {
    if values == [] then []
    else if |values| == 1 then values[0]
    else values[0] + [Separator] + Join(values[1..])
  }

  function Key(p: Partition): string { Join(p.values) }

  lemma {:induction false} NotShorter(v: string, t: string, u: string, s: string)
    ensures |v| < |u| && Separator !in u ==> v + [Separator] + t != u + [Separator] + s
  {
    if |v| < |u| {
      assert (v + [Separator] + t)[|v|] == Separator;
      assert (u + [Separator] + s)[|v|] == u[|v|];
    }
  }

  lemma {:induction false} SplitUnique(v: string, t: string, u: string, s: string)
    requires v + [Separator] + t == u + [Separator] + s && Separator !in u && Separator !in v
    ensures v == u && t == s
  {
    NotShorter(v, t, u, s);
    NotShorter(u, s, v, t);
    var x, y := v + [Separator] + t, u + [Separator] + s;
    assert v == x[..|v|] && u == y[..|u|];
    assert t == x[|v| + 1..] && s == y[|u| + 1..];
  }

  lemma {:induction false} SeparatorIn(a: seq<string>)
    requires |a| > 1
    ensures Separator in Join(a)
  {
    assert Join(a)[|a[0]|] == Separator;
  }

  /** Keys tell apart value lists that are not empty and do not contain the separator ... */
  lemma {:induction false} KeyInjective(a: seq<string>, b: seq<string>)
    requires a != [] && b != []
    requires (forall v :: v in a ==> Separator !in v) && (forall v :: v in b ==> Separator !in v)
    ensures Join(a) == Join(b) <==> a == b
  {
    assert a[0] in a && b[0] in b;
    if |a| > 1 {
      SeparatorIn(a);
    }
    if |b| > 1 {
      SeparatorIn(b);
    }
    if |a| > 1 && |b| > 1 && Join(a) == Join(b) {
      SplitUnique(a[0], Join(a[1..]), b[0], Join(b[1..]));
      KeyInjective(a[1..], b[1..]);
      assert a == [a[0]] + a[1..] && b == [b[0]] + b[1..];
    }
  }

  /** ... but an empty list looks like an empty value, and a separator inside a value like two values. */
  lemma {:induction false} KeyCollisions()
    ensures Join([]) == Join([""])
    ensures Join(["\U{001F}"]) == Join(["", ""])
  {
    assert ["", ""][1..] == [""];
    assert Join(["", ""]) == [Separator];
  }

  /** A string cut at every separator. */
  function Cut(s: string): (r: seq<string>)
    ensures r != []
  {
    if s == "" then [""]
    else if s[0] == Separator then [""] + Cut(s[1..])
    else var rest := Cut(s[1..]); [[s[0]] + rest[0]] + rest[1..]
  }

  /** What a key keeps of its values: every value cut at the separators, and no values read as one empty value. */
  function Pieces(values: seq<string>): (r: seq<string>)
    ensures r != []
  {
    if values == [] then [""]
    else if |values| == 1 then Cut(values[0])
    else Cut(values[0]) + Pieces(values[1..])
  }

  ghost predicate Uncut(values: seq<string>) { forall v :: v in values ==> Separator !in v }

  lemma {:induction false} UncutSplits(a: seq<string>, b: seq<string>)
    ensures Uncut(a + b) <==> Uncut(a) && Uncut(b)
  {
    assert forall v :: v in a + b <==> v in a || v in b;
  }

  lemma {:induction false} JoinConcat(a: seq<string>, b: seq<string>)
    requires a != [] && b != []
    ensures Join(a + b) == Join(a) + [Separator] + Join(b)
  {
    assert (a + b)[1..] == a[1..] + b && (a + b)[0] == a[0];
    if |a| > 1 {
      JoinConcat(a[1..], b);
      assert a[0] + [Separator] + (Join(a[1..]) + [Separator] + Join(b)) == (a[0] + [Separator] + Join(a[1..])) + [Separator] + Join(b);
    } else {
      assert a[1..] + b == b;
    }
  }

  /** A character in front of the first value stands in front of the key. */
  lemma {:induction false} JoinCons(c: char, values: seq<string>)
    requires values != []
    ensures Join([[c] + values[0]] + values[1..]) == [c] + Join(values)
  {
    var longer := [[c] + values[0]] + values[1..];
    assert longer[1..] == values[1..];
    if |values| > 1 {
      assert ([c] + values[0]) + [Separator] + Join(values[1..]) == [c] + (values[0] + [Separator] + Join(values[1..]));
    }
  }

  lemma {:induction false} CutJoins(s: string)
    ensures Join(Cut(s)) == s && Uncut(Cut(s))
  {
    if s != "" {
      var rest := Cut(s[1..]);
      CutJoins(s[1..]);
      assert s == [s[0]] + s[1..];
      if s[0] == Separator {
        JoinConcat([""], rest);
        UncutSplits([""], rest);
        assert [Separator] + s[1..] == "" + [Separator] + s[1..];
      } else {
        JoinCons(s[0], rest);
        UncutSplits([rest[0]], rest[1..]);
        assert rest == [rest[0]] + rest[1..] && rest[0] in rest;
        UncutSplits([[s[0]] + rest[0]], rest[1..]);
      }
    }
  }

  lemma {:induction false} PiecesJoin(values: seq<string>)
    ensures Join(Pieces(values)) == Join(values) && Uncut(Pieces(values))
  {
    if values != [] {
      CutJoins(values[0]);
      if |values| > 1 {
        PiecesJoin(values[1..]);
        JoinConcat(Cut(values[0]), Pieces(values[1..]));
        UncutSplits(Cut(values[0]), Pieces(values[1..]));
      }
    }
  }

  /** For all value lists: two keys are equal if and only if the pieces are. */
  lemma {:induction false} KeyIff(a: seq<string>, b: seq<string>)
    ensures Join(a) == Join(b) <==> Pieces(a) == Pieces(b)
  {
    PiecesJoin(a);
    PiecesJoin(b);
    KeyInjective(Pieces(a), Pieces(b));
  }

  function ByKey(parts: seq<Partition>): map<string, Partition>
  {
    if parts == [] then map[] else ByKey(parts[..|parts| - 1])[Key(Last(parts)) := Last(parts)]
  }

  ghost predicate Keyed(m: map<string, Partition>)
  {
    forall k :: k in m ==> Key(m[k]) == k
  }

  lemma {:induction false} ByKeyKeyed(parts: seq<Partition>)
    ensures Keyed(ByKey(parts))
  {
    if parts != [] {
      ByKeyKeyed(parts[..|parts| - 1]);
    }
  }

  // ---------------------------------------------------------------------------------------
  // Events
  // ---------------------------------------------------------------------------------------

  datatype Kind = Add | Drop | Update

  datatype Event = Event(kind: Kind, partition: Partition)

  /** "ADD" before "DROP" before "UPDATE". */
  function Rank(k: Kind): int { if k == Add then 0 else if k == Drop then 1 else 2 }

  function EventLe(a: Event, b: Event): bool
  {
    Rank(a.kind) < Rank(b.kind) || (a.kind == b.kind && StrLe(Key(a.partition), Key(b.partition)))
  }

  lemma {:induction false} EventOrder()
    ensures TotalPreorder(EventLe)
  {
    forall x: Event, y: Event ensures EventLe(x, y) || EventLe(y, x) {
      StrLeTotal(Key(x.partition), Key(y.partition));
    }
    forall x: Event, y: Event, z: Event | EventLe(x, y) && EventLe(y, z) ensures EventLe(x, z) {
      if x.kind == z.kind {
        StrLeTransitive(Key(x.partition), Key(y.partition), Key(z.partition));
      }
    }
  }

  /** What must happen for the catalog to hold the desired partition of a key at the desired place. */
  ghost predicate IsEvent(have: map<string, Partition>, want: map<string, Partition>, e: Event)
  {
    var k := Key(e.partition);
    match e.kind
    case Add => k in want && k !in have && e.partition == want[k]
    case Update => k in want && k in have && have[k].location != want[k].location && e.partition == want[k]
    case Drop => k in have && k !in want && e.partition == have[k]
  }

  /** Every key has at most one event, counted once. */
  ghost predicate KeysOnce(ms: multiset<Event>)
  {
    && (forall e :: e in ms ==> ms[e] == 1)
    && (forall e, f :: e in ms && f in ms && Key(e.partition) == Key(f.partition) ==> e == f)
  }

  /** The events of a diff: those needed, each once, in order of type and key. */
  ghost predicate IsEvents(have: map<string, Partition>, want: map<string, Partition>, events: seq<Event>)
  {
    && (forall e :: e in events <==> IsEvent(have, want, e))
    && KeysOnce(multiset(events))
    && SortedBy(events, EventLe)
  }

  /** Map iteration order leaves no trace: the list of events is determined. */
  lemma {:induction false} EventsUnique(have: map<string, Partition>, want: map<string, Partition>, a: seq<Event>, b: seq<Event>)
    requires IsEvents(have, want, a) && IsEvents(have, want, b)
    ensures a == b
  {
    forall e ensures multiset(a)[e] == multiset(b)[e] {
      assert e in a <==> e in multiset(a);
      assert e in b <==> e in multiset(b);
    }
    forall x, y | x in a && y in a && EventLe(x, y) && EventLe(y, x) ensures x == y {
      StrLeAntisymmetric(Key(x.partition), Key(y.partition));
      assert x in multiset(a) && y in multiset(a);
    }
    SortUnique(a, b, EventLe);
  }

  method Index(parts: seq<Partition>) returns (m: map<string, Partition>)
    ensures m == ByKey(parts)
  {
    m := map[];
    for i := 0 to |parts|
      invariant m == ByKey(parts[..i])
    {
      assert parts[..i + 1][..i] == parts[..i];
      m := m[Key(parts[i]) := parts[i]];
    }
    assert parts[..|parts|] == parts;
  }

  /** The event a desired key calls for, if any. */
  function Wanted(have: map<string, Partition>, want: map<string, Partition>, k: string): Option<Event>
    requires k in want
  {
    if k !in have then Some(Event(Add, want[k]))
    else if have[k].location != want[k].location then Some(Event(Update, want[k]))
    else None
  }

  /** Collected so far: exactly the events of the keys visited, each once. */
  ghost predicate Collected(have: map<string, Partition>, want: map<string, Partition>, wanted: set<string>, gone: set<string>, events: seq<Event>)
  {
    && KeysOnce(multiset(events))
    && (forall e :: e in events <==> IsEvent(have, want, e) && Key(e.partition) in if e.kind == Drop then gone else wanted)
  }

  lemma {:induction false} CollectOne(have: map<string, Partition>, want: map<string, Partition>, wanted: set<string>, gone: set<string>,
                                      events: seq<Event>, e: Event, wanted': set<string>, gone': set<string>)
    requires Keyed(have) && Keyed(want) && Collected(have, want, wanted, gone, events) && IsEvent(have, want, e)
    requires if e.kind == Drop then Key(e.partition) !in gone && wanted' == wanted && gone' == gone + {Key(e.partition)}
             else Key(e.partition) !in wanted && wanted' == wanted + {Key(e.partition)} && gone' == gone
    ensures Collected(have, want, wanted', gone', events + [e])
  {
    assert e !in events;
    var ms := multiset(events + [e]);
    assert ms == multiset(events) + multiset{e};
    forall f | f in events ensures Key(f.partition) != Key(e.partition) {
    }
    forall f, g | f in ms && g in ms && Key(f.partition) == Key(g.partition) ensures f == g {
      assert f in events || f == e;
      assert g in events || g == e;
      assert f in events && g in events ==> f in multiset(events) && g in multiset(events);
    }
    forall f | f in ms ensures ms[f] == 1 {
      assert f in events ==> f in multiset(events);
    }
  }

  /** The loop over the desired keys, in whatever order the map yields them. */
  method CollectWanted(have: map<string, Partition>, want: map<string, Partition>) returns (events: seq<Event>)
    requires Keyed(have) && Keyed(want)
    ensures Collected(have, want, want.Keys, {}, events)
  {
    events := [];
    var keys := want.Keys;
    while keys != {}
      invariant keys <= want.Keys
      invariant Collected(have, want, want.Keys - keys, {}, events)
    {
      var k :| k in keys;
      var e := Wanted(have, want, k);
      if e.Some? {
        CollectOne(have, want, want.Keys - keys, {}, events, e.value, want.Keys - (keys - {k}), {});
        events := events + [e.value];
      }
      keys := keys - {k};
    }
    assert want.Keys - keys == want.Keys;
  }

  /** The loop over the existing keys. */
  method CollectGone(have: map<string, Partition>, want: map<string, Partition>, before: seq<Event>) returns (events: seq<Event>)
    requires Keyed(have) && Keyed(want) && Collected(have, want, want.Keys, {}, before)
    ensures Collected(have, want, want.Keys, have.Keys, events)
  {
    events := before;
    var keys := have.Keys;
    assert have.Keys - keys == {};
    while keys != {}
      invariant keys <= have.Keys
      invariant Collected(have, want, want.Keys, have.Keys - keys, events)
    {
      var k :| k in keys;
      if k !in want {
        CollectOne(have, want, want.Keys, have.Keys - keys, events, Event(Drop, have[k]), want.Keys, have.Keys - (keys - {k}));
        events := events + [Event(Drop, have[k])];
      }
      keys := keys - {k};
    }
    assert have.Keys - keys == have.Keys;
  }

  method DiffPartitions(existing: seq<Partition>, desired: seq<Partition>) returns (events: seq<Event>)
    ensures IsEvents(ByKey(existing), ByKey(desired), events)
  {
    var have := Index(existing);
    var want := Index(desired);
    ByKeyKeyed(existing);
    ByKeyKeyed(desired);
    var wanted := CollectWanted(have, want);
    var found := CollectGone(have, want, wanted);
    EventOrder();
    SortIsSort(found, EventLe);
    events := Sort(found, EventLe);
    SameMembers(events, found);
  }

  // ---------------------------------------------------------------------------------------
  // Effects
  // ---------------------------------------------------------------------------------------

  function Put(m: map<string, Partition>, e: Event): map<string, Partition>
  {
    if e.kind == Drop then m - {Key(e.partition)} else m[Key(e.partition) := e.partition]
  }

  function PutAll(m: map<string, Partition>, events: seq<Event>): map<string, Partition>
  {
    if events == [] then m else Put(PutAll(m, events[..|events| - 1]), Last(events))
  }

  lemma {:induction false} PutAllConcat(m: map<string, Partition>, a: seq<Event>, b: seq<Event>)
    ensures PutAll(m, a + b) == PutAll(PutAll(m, a), b)
  {
    if b == [] {
      assert a + b == a;
    } else {
      PutAllConcat(m, a, b[..|b| - 1]);
      assert (a + b)[..|a + b| - 1] == a + b[..|b| - 1];
    }
  }

  lemma {:induction false} OnceBelow(a: multiset<Event>, b: multiset<Event>)
    requires a <= b && KeysOnce(b)
    ensures KeysOnce(a)
  {
    forall e | e in a ensures a[e] == 1 {
      assert e in b;
    }
  }

  /** Each key ends as its own event says; a key without an event is untouched. */
  lemma {:induction false} PutAllAt(m: map<string, Partition>, events: seq<Event>, k: string)
    requires KeysOnce(multiset(events))
    ensures (forall e :: e in events ==> Key(e.partition) != k) ==>
      (k in PutAll(m, events) <==> k in m) && (k in m ==> PutAll(m, events)[k] == m[k])
    ensures forall e :: e in events && Key(e.partition) == k ==>
      if e.kind == Drop then k !in PutAll(m, events) else k in PutAll(m, events) && PutAll(m, events)[k] == e.partition
  {
    if events != [] {
      var init, last := events[..|events| - 1], Last(events);
      assert events == init + [last];
      assert multiset(events) == multiset(init) + multiset{last};
      OnceBelow(multiset(init), multiset(events));
      PutAllAt(m, init, k);
      OnlyLast(init, last);
      PutAt(PutAll(m, init), last, k);
    }
  }

  /** The last event is the only one for its key. */
  lemma {:induction false} OnlyLast(init: seq<Event>, last: Event)
    requires KeysOnce(multiset(init) + multiset{last})
    ensures forall e :: e in init ==> Key(e.partition) != Key(last.partition)
  {
    var ms := multiset(init) + multiset{last};
    forall e | e in init ensures Key(e.partition) != Key(last.partition) {
      assert e in multiset(init) && e in ms && last in ms;
      assert e == last ==> ms[last] >= 2;
    }
  }

  lemma {:induction false} PutAt(m: map<string, Partition>, e: Event, k: string)
    ensures Key(e.partition) != k ==> (k in Put(m, e) <==> k in m) && (k in m ==> Put(m, e)[k] == m[k])
    ensures Key(e.partition) == k ==> if e.kind == Drop then k !in Put(m, e) else k in Put(m, e) && Put(m, e)[k] == e.partition
  {
  }

  ghost predicate SameLocations(a: map<string, Partition>, b: map<string, Partition>)
  {
    a.Keys == b.Keys && forall k :: k in a ==> a[k].location == b[k].location
  }

  /** Nothing to do exactly when every key is where it should be. */
  lemma {:induction false} NoEventsIff(have: map<string, Partition>, want: map<string, Partition>)
    requires Keyed(have) && Keyed(want)
    ensures (forall e :: !IsEvent(have, want, e)) <==> SameLocations(have, want)
  {
    if forall e :: !IsEvent(have, want, e) {
      forall k | k in want ensures k in have && have[k].location == want[k].location {
        assert !IsEvent(have, want, Event(Add, want[k]));
        assert !IsEvent(have, want, Event(Update, want[k]));
      }
      forall k | k in have ensures k in want {
        assert !IsEvent(have, want, Event(Drop, have[k]));
      }
    }
  }

  /** Whatever part of the events took effect, in whatever order, the next diff asks for exactly the
      others. */
  lemma {:induction false} RetryAsksForTheRest(have: map<string, Partition>, want: map<string, Partition>, events: seq<Event>, done: seq<Event>, e: Event)
    requires Keyed(have) && Keyed(want) && IsEvents(have, want, events) && multiset(done) <= multiset(events)
    ensures IsEvent(PutAll(have, done), want, e) <==> e in events && e !in done
  {
    var k, now := Key(e.partition), PutAll(have, done);
    OnceBelow(multiset(done), multiset(events));
    PutAllAt(have, done, k);
    if f :| f in done && Key(f.partition) == k {
      assert f in multiset(done) && f in multiset(events) && f in events;
      assert IsEvent(have, want, f);
      assert e in events ==> e in multiset(events);
    }
  }

  lemma {:induction false} SomeMember(events: seq<Event>)
    ensures events == [] || exists e :: e in events
  {
    if events != [] {
      assert events[0] in events;
    }
  }

  lemma {:induction false} PutAllKeyed(m: map<string, Partition>, events: seq<Event>)
    requires Keyed(m)
    ensures Keyed(PutAll(m, events))
  {
    if events != [] {
      PutAllKeyed(m, events[..|events| - 1]);
    }
  }

  /** All of them, in any order: the catalog is where the table is, and a second diff is empty. */
  lemma {:induction false} Reconciles(have: map<string, Partition>, want: map<string, Partition>, events: seq<Event>, done: seq<Event>)
    requires Keyed(have) && Keyed(want) && IsEvents(have, want, events) && multiset(done) == multiset(events)
    ensures SameLocations(PutAll(have, done), want)
    ensures forall again :: IsEvents(PutAll(have, done), want, again) ==> again == []
  {
    var now := PutAll(have, done);
    PutAllKeyed(have, done);
    forall e ensures !IsEvent(now, want, e) {
      RetryAsksForTheRest(have, want, events, done, e);
      assert e in events <==> e in multiset(events);
      assert e in done <==> e in multiset(done);
    }
    NoEventsIff(now, want);
    forall again | IsEvents(now, want, again) ensures again == [] {
      SomeMember(again);
    }
  }

  // ---------------------------------------------------------------------------------------
  // Desired partitions that share a key
  // ---------------------------------------------------------------------------------------

  lemma {:induction false} ByKeyMembers(parts: seq<Partition>)
    ensures forall k :: k in ByKey(parts) <==> exists p :: p in parts && Key(p) == k
    ensures forall k :: k in ByKey(parts) ==> ByKey(parts)[k] in parts
  {
    if parts != [] {
      var init, last := parts[..|parts| - 1], Last(parts);
      ByKeyMembers(init);
      assert parts == init + [last];
      forall k ensures k in ByKey(parts) <==> exists p :: p in parts && Key(p) == k {
        if p :| p in parts && Key(p) == k {
          assert p in init || p == last;
        }
        if q :| q in init && Key(q) == k {
          assert q in parts;
        }
        assert last in parts;
      }
    }
  }

  /** Of two different desired partitions with one key, the one the index dropped gets no event, and once all
      events took effect the catalog has its key at the other's location. */
  lemma {:induction false} CollisionLoses(have: map<string, Partition>, desired: seq<Partition>, events: seq<Event>, done: seq<Event>, p: Partition)
    requires Keyed(have) && IsEvents(have, ByKey(desired), events) && multiset(done) == multiset(events)
    requires p in desired && p !in ByKey(desired).Values
    ensures Event(Add, p) !in events && Event(Update, p) !in events
    ensures var now, k := PutAll(have, done), Key(p);
      k in ByKey(desired) && ByKey(desired)[k] in desired && ByKey(desired)[k] != p && k in now && now[k].location == ByKey(desired)[k].location
  {
    ByKeyKeyed(desired);
    ByKeyMembers(desired);
    assert !IsEvent(have, ByKey(desired), Event(Add, p)) && !IsEvent(have, ByKey(desired), Event(Update, p));
    Reconciles(have, ByKey(desired), events, done);
    assert Key(p) in ByKey(desired);
  }

  /** Desired partitions that one catalog entry can serve. */
  ghost predicate Compatible(desired: seq<Partition>)
  {
    forall p, q :: p in desired && q in desired && Pieces(p.values) == Pieces(q.values) ==> p.location == q.location
  }

  ghost predicate Located(now: map<string, Partition>, p: Partition) { Key(p) in now && now[Key(p)].location == p.location }

  /** A full reconciliation brings every desired partition to its own location if and only if those with the same
      pieces name the same one. */
  lemma {:induction false} AllLocatedIff(have: map<string, Partition>, desired: seq<Partition>, events: seq<Event>, done: seq<Event>)
    requires Keyed(have) && IsEvents(have, ByKey(desired), events) && multiset(done) == multiset(events)
    ensures (forall p :: p in desired ==> Located(PutAll(have, done), p)) <==> Compatible(desired)
  {
    var now, want := PutAll(have, done), ByKey(desired);
    ByKeyKeyed(desired);
    ByKeyMembers(desired);
    Reconciles(have, want, events, done);
    if Compatible(desired) {
      forall p | p in desired ensures Located(now, p) {
        assert Key(p) in want && want[Key(p)] in desired;
        KeyIff(p.values, want[Key(p)].values);
      }
    }
    if forall p :: p in desired ==> Located(now, p) {
      forall p, q | p in desired && q in desired && Pieces(p.values) == Pieces(q.values) ensures p.location == q.location {
        KeyIff(p.values, q.values);
        assert Located(now, p) && Located(now, q);
      }
    }
  }

  // ---------------------------------------------------------------------------------------
  // Order
  // ---------------------------------------------------------------------------------------

  /** Additions come before drops, drops before updates, and those of one kind in ascending order of key. */
  lemma {:induction false} EventsAscend(have: map<string, Partition>, want: map<string, Partition>, events: seq<Event>, i: nat, j: nat)
    requires IsEvents(have, want, events) && i < j < |events|
    ensures events[i].kind != events[j].kind ==> events[i].kind == Add || events[j].kind == Update
    ensures events[i].kind == events[j].kind ==> Smaller(Key(events[i].partition), Key(events[j].partition))
  {
    var x, y := events[i], events[j];
    assert EventLe(x, y);
    if x.kind == y.kind {
      SmallerMeans(Key(x.partition), Key(y.partition));
      if StrLe(Key(y.partition), Key(x.partition)) {
        StrLeAntisymmetric(Key(x.partition), Key(y.partition));
        TwiceThere(events, i, j);
      }
    }
  }

  lemma {:induction false} TwiceThere(events: seq<Event>, i: nat, j: nat)
    requires i < j < |events| && KeysOnce(multiset(events))
    ensures Key(events[i].partition) != Key(events[j].partition)
  {
    var x, y := events[i], events[j];
    assert x in multiset(events) && y in multiset(events);
    assert events == events[..j] + [y] + events[j + 1..];
    assert multiset(events) == multiset(events[..j]) + multiset{y} + multiset(events[j + 1..]);
    assert events[..j][i] == x && x in events[..j];
  }
}
