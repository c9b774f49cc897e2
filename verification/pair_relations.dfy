/** Direct relations between scholars, aggregated from rows that name several people. */
module PairRelations {
  import opened Dicts
  import opened Options
  import opened TextOps

  // ---------------------------------------------------------------------------
  // Names, scholars and source rows
  // ---------------------------------------------------------------------------

  /** An active scholar row; absent names are empty. `profile` stands for the fields copied into results. */
  datatype Scholar = Scholar(id: string, nameZh: string, nameEn: string, profile: string)
  {
    function Name(): string { if nameZh != "" then nameZh else if nameEn != "" then nameEn else id }
  }

  /** Foreign text functions: person-name trimming, and lower-casing. */
  datatype Text = Text(person: string -> string, lower: string -> string)
  {
    function Key(s: string): string { lower(Strip(s)) }
  }

  /** What is extracted from a patent or project row; an absent time is `None`. */
  datatype Payload = Payload(people: seq<string>, time: Option<string>, institution: string,
                             institutionText: string, title: string)

  datatype Query = Query(expertA: string, expertB: string, institution: string, start: string, end: string)
  {
    /** The expert keywords; one of white space only is none. */
    function A(): string { Strip(expertA) }

    function B(): string { Strip(expertB) }
  }

  /** The first ten characters of the time lie within the queried dates. */
  predicate WithinTimeRange(q: Query, time: Option<string>) {
    if time.None? then q.start == "" && q.end == ""
    else
      var day := if |time.value| <= 10 then time.value else time.value[..10];
      (q.start == "" || !Less(day, q.start)) && (q.end == "" || !Less(q.end, day))
  }

  predicate Contains(text: string, part: string) {
    part <= text || (text != "" && Contains(text[1..], part))
  }

  predicate RowMatches(t: Text, q: Query, p: Payload) {
    && (t.Key(q.institution) == "" || Contains(t.lower(p.institutionText), t.Key(q.institution)))
    && WithinTimeRange(q, p.time)
  }

  // ---------------------------------------------------------------------------
  // What the filters of a row mean
  // ---------------------------------------------------------------------------

  /** The row's institution text contains the keyword, both in lower case; no keyword, no condition. */
  ghost predicate MentionsInstitution(t: Text, keyword: string, text: string) {
    var wanted, found := t.lower(Strip(keyword)), t.lower(text);
    wanted != "" ==> exists i, j :: 0 <= i <= j <= |found| && found[i..j] == wanted
  }

  /** The row's day, the first ten characters of its time, is not before the start and not after the end,
      where these are given; a row without time passes only if neither is. */
  ghost predicate InPeriod(time: Option<string>, start: string, end: string) {
    if time.None? then start == "" && end == ""
    else
      var day := if |time.value| < 10 then time.value else time.value[..10];
      (start != "" ==> !Less(day, start)) && (end != "" ==> !Less(end, day))
  }

  lemma SliceOfRest(text: string, i: nat, j: nat)
    requires i <= j < |text|
    ensures text[1..][i..j] == text[i + 1..j + 1]
  {
  }

  lemma {:induction false} ContainsIff(text: string, part: string)
    ensures Contains(text, part) <==> exists i, j :: 0 <= i <= j <= |text| && text[i..j] == part
  {
    if part <= text {
      assert text[0..|part|] == part;
    } else if text != "" {
      var rest := text[1..];
      ContainsIff(rest, part);
      if i, j :| 0 <= i <= j <= |rest| && rest[i..j] == part {
        SliceOfRest(text, i, j);
      }
      if i, j :| 0 <= i <= j <= |text| && text[i..j] == part {
        assert i > 0;
        SliceOfRest(text, i - 1, j - 1);
      }
    }
  }

  /** A row passes iff it mentions the queried institution and lies in the queried period. */
  lemma RowMatchesIff(t: Text, q: Query, p: Payload)
    ensures RowMatches(t, q, p) <==> MentionsInstitution(t, q.institution, p.institutionText) && InPeriod(p.time, q.start, q.end)
  {
    hide Contains, Less, Strip;
    ContainsIff(t.lower(p.institutionText), t.Key(q.institution));
    assert p.time.Some? && |p.time.value| == 10 ==> p.time.value[..10] == p.time.value;
  }

  // ---------------------------------------------------------------------------
  // From names to scholars
  // ---------------------------------------------------------------------------

  type NameMap = map<string, seq<Scholar>>

  function Lookup(m: NameMap, key: string): seq<Scholar> { if key in m then m[key] else [] }

  /** A scholar is listed once for each of its two names that has this key. */
  function Listings(t: Text, key: string): Scholar -> seq<Scholar> {
    (s: Scholar) => (if t.person(s.nameZh) == key then [s] else []) + (if t.person(s.nameEn) == key then [s] else [])
  }

  function Listed(t: Text, scholars: seq<Scholar>, key: string): seq<Scholar> { FlatMap(scholars, Listings(t, key)) }

  ghost predicate Maps(t: Text, scholars: seq<Scholar>, m: NameMap) {
    forall key :: Lookup(m, key) == if key == "" then [] else Listed(t, scholars, key)
  }

  method LoadExactNameMap(t: Text, scholars: seq<Scholar>) returns (m: NameMap)
    ensures Maps(t, scholars, m)
  {
    m := map[];
    for i := 0 to |scholars|
      invariant Maps(t, scholars[..i], m)
    {
      assert scholars[..i + 1][..i] == scholars[..i];
      m := AddScholar(t, m, scholars[i]);
    }
    assert scholars[..|scholars|] == scholars;
  }

  method AddScholar(t: Text, m0: NameMap, s: Scholar) returns (m: NameMap)
    ensures forall key :: Lookup(m, key) == Lookup(m0, key) + if key == "" then [] else Listings(t, key)(s)
  {
    m := m0;
    var zh, en := t.person(s.nameZh), t.person(s.nameEn);
    if zh != "" {
      m := m[zh := Lookup(m, zh) + [s]];
    }
    if en != "" {
      m := m[en := Lookup(m, en) + [s]];
    }
  }

  /** The scholar of a person name, if the name is listed exactly once. */
  function Mapped(t: Text, scholars: seq<Scholar>): string -> seq<Scholar> {
    (person: string) =>
      var listed := Listed(t, scholars, t.person(person));
      if t.person(person) != "" && |listed| == 1 then listed else []
  }

  function IdOf(s: Scholar): string { s.id }

  /** One scholar per id: the last one found, at the position of the first. */
  function Unique(people: seq<Scholar>): seq<Scholar> { Dict(people, IdOf) }

  method MapPeopleToScholars(t: Text, ghost scholars: seq<Scholar>, m: NameMap, people: seq<string>)
    returns (mapped: seq<Scholar>)
    requires Maps(t, scholars, m)
    ensures mapped == FlatMap(people, Mapped(t, scholars))
  {
    hide Listed;
    mapped := [];
    assert people[..0] == [];
    for i := 0 to |people|
      invariant mapped == FlatMap(people[..i], Mapped(t, scholars))
    {
      assert people[..i + 1][..i] == people[..i];
      var normalized := t.person(people[i]);
      if normalized != "" {
        var candidates := Lookup(m, normalized);
        if |candidates| == 1 {
          mapped := mapped + [candidates[0]];
        }
      }
    }
    assert people[..|people|] == people;
  }

  /** A scholar whose two names have one key is listed twice and can never be found by it. */
  lemma EqualNamesNeverResolve(t: Text, scholars: seq<Scholar>, s: Scholar, person: string)
    requires s in scholars
    requires t.person(s.nameZh) == t.person(s.nameEn) == t.person(person)
    ensures Mapped(t, scholars)(person) == []
  {
    var key := t.person(person);
    if key != "" {
      ListedTwice(t, scholars, s, key);
    }
  }

  lemma {:induction false} ListedTwice(t: Text, scholars: seq<Scholar>, s: Scholar, key: string)
    requires s in scholars && t.person(s.nameZh) == t.person(s.nameEn) == key
    ensures |Listed(t, scholars, key)| >= 2
  {
    var before, last := scholars[..|scholars| - 1], scholars[|scholars| - 1];
    assert scholars == before + [last];
    if last != s {
      ListedTwice(t, before, s, key);
    }
  }

  /** One name of scholar `i`: the Chinese one if `zh`, else the English one. */
  function NameOf(s: Scholar, zh: bool): string { if zh then s.nameZh else s.nameEn }

  predicate Bears(t: Text, scholars: seq<Scholar>, key: string, i: int, zh: bool) {
    0 <= i < |scholars| && t.person(NameOf(scholars[i], zh)) == key
  }

  /** That name is the only one of all names of all scholars that has this key. */
  ghost predicate OnlyBearer(t: Text, scholars: seq<Scholar>, key: string, i: int, zh: bool) {
    Bears(t, scholars, key, i, zh) && forall j, y | Bears(t, scholars, key, j, y) :: j == i && y == zh
  }

  lemma {:induction false} NotListed(t: Text, scholars: seq<Scholar>, key: string)
    ensures Listed(t, scholars, key) == [] <==> forall i, zh :: !Bears(t, scholars, key, i, zh)
  {
    if scholars != [] {
      var before, last := scholars[..|scholars| - 1], |scholars| - 1;
      NotListed(t, before, key);
      assert forall i, zh | i != last :: Bears(t, scholars, key, i, zh) <==> Bears(t, before, key, i, zh);
      assert Listings(t, key)(scholars[last]) == [] <==> !Bears(t, scholars, key, last, true) && !Bears(t, scholars, key, last, false);
    }
  }

  lemma {:induction false} ListedOnce(t: Text, scholars: seq<Scholar>, key: string)
    ensures |Listed(t, scholars, key)| == 1 <==> exists i, zh :: OnlyBearer(t, scholars, key, i, zh)
    ensures forall i, zh | OnlyBearer(t, scholars, key, i, zh) :: Listed(t, scholars, key) == [scholars[i]]
  {
    hide Listings;
    if scholars != [] {
      var before, last := scholars[..|scholars| - 1], |scholars| - 1;
      ListedOnce(t, before, key);
      NotListed(t, before, key);
      LastListings(t, scholars, key);
      assert forall i, zh | i != last :: Bears(t, scholars, key, i, zh) <==> Bears(t, before, key, i, zh);
      if !Bears(t, scholars, key, last, true) && !Bears(t, scholars, key, last, false) {
        SameBearers(t, scholars, key);
        assert Listed(t, scholars, key) == Listed(t, before, key);
        assert forall i, zh | OnlyBearer(t, before, key, i, zh) :: before[i] == scholars[i];
        if i, zh :| OnlyBearer(t, before, key, i, zh) {
          assert OnlyBearer(t, scholars, key, i, zh);
        }
        if i, zh :| OnlyBearer(t, scholars, key, i, zh) {
          assert OnlyBearer(t, before, key, i, zh);
        }
      } else if Listed(t, before, key) == [] {
        var zh := Bears(t, scholars, key, last, true);
        assert OnlyBearer(t, scholars, key, last, zh) <==> !(Bears(t, scholars, key, last, true) && Bears(t, scholars, key, last, false));
        assert OnlyBearer(t, scholars, key, last, !zh) ==> false;
      } else {
        var j, y :| Bears(t, before, key, j, y);
        assert Bears(t, scholars, key, j, y);
      }
    }
  }

  lemma LastListings(t: Text, scholars: seq<Scholar>, key: string)
    requires scholars != []
    ensures var last := |scholars| - 1;
            Listings(t, key)(scholars[last])
            == (if Bears(t, scholars, key, last, true) then [scholars[last]] else [])
               + (if Bears(t, scholars, key, last, false) then [scholars[last]] else [])
  {
  }

  lemma SameBearers(t: Text, scholars: seq<Scholar>, key: string)
    requires scholars != []
    requires !Bears(t, scholars, key, |scholars| - 1, true) && !Bears(t, scholars, key, |scholars| - 1, false)
    ensures forall i, zh :: OnlyBearer(t, scholars, key, i, zh) <==> OnlyBearer(t, scholars[..|scholars| - 1], key, i, zh)
  {
    var before := scholars[..|scholars| - 1];
    assert forall i, zh :: Bears(t, scholars, key, i, zh) <==> Bears(t, before, key, i, zh);
  }

  /** A person name resolves iff exactly one of all the names in the table has its key, and then to the
      scholar who bears that name. */
  lemma ResolvesIff(t: Text, scholars: seq<Scholar>, person: string)
    ensures var key := t.person(person);
            && (Mapped(t, scholars)(person) != [] <==> key != "" && exists i, zh :: OnlyBearer(t, scholars, key, i, zh))
            && forall i, zh | key != "" && OnlyBearer(t, scholars, key, i, zh) :: Mapped(t, scholars)(person) == [scholars[i]]
  {
    hide Listed;
    ListedOnce(t, scholars, t.person(person));
  }

  /** A key that no other scholar bears resolves to its scholar iff exactly one of the scholar's two names
      has it. */
  lemma OwnNameResolvesIff(t: Text, scholars: seq<Scholar>, i: nat, person: string)
    requires i < |scholars| && t.person(person) != ""
    requires forall j, zh | j != i :: !Bears(t, scholars, t.person(person), j, zh)
    ensures Mapped(t, scholars)(person) == [scholars[i]] <==>
              Bears(t, scholars, t.person(person), i, true) != Bears(t, scholars, t.person(person), i, false)
  {
    hide Mapped, Bears;
    var key := t.person(person);
    ResolvesIff(t, scholars, person);
    if Bears(t, scholars, key, i, true) != Bears(t, scholars, key, i, false) {
      assert OnlyBearer(t, scholars, key, i, Bears(t, scholars, key, i, true));
    }
  }

  // ---------------------------------------------------------------------------
  // Pairs
  // ---------------------------------------------------------------------------

  /** All unordered pairs, the earlier person on the left. */
  function Pairs(people: seq<Scholar>): seq<(Scholar, Scholar)> {
    if people == [] then []
    else seq(|people| - 1, k requires 0 <= k < |people| - 1 => (people[0], people[k + 1])) + Pairs(people[1..])
  }

  predicate Matches(t: Text, s: Scholar, keyword: string) {
    t.Key(keyword) == t.Key(s.id) || t.Key(keyword) == t.Key(s.Name())
  }

  predicate PairMatches(t: Text, q: Query, left: Scholar, right: Scholar) {
    var a, b := q.A(), q.B();
    && (a != "" ==> Matches(t, left, a) || Matches(t, right, a))
    && (b != "" ==> Matches(t, left, b) || Matches(t, right, b))
    && (a != "" && b != "" ==>
          || (Matches(t, left, a) && Matches(t, right, b))
          || (Matches(t, left, b) && Matches(t, right, a)))
  }

  function OrderPair(t: Text, q: Query, left: Scholar, right: Scholar): (Scholar, Scholar) {
    if q.A() != "" && Matches(t, right, q.A()) then (right, left) else (left, right)
  }

  type PairKey = (string, string)

  /** One accepted pair of one row, in its final order. */
  datatype Event = Event(a: Scholar, b: Scholar, payload: Payload)
  {
    function Key(): PairKey { (a.id, b.id) }
  }

  function PairEvent(t: Text, q: Query, p: Payload): ((Scholar, Scholar)) -> seq<Event> {
    (pair: (Scholar, Scholar)) =>
      if PairMatches(t, q, pair.0, pair.1)
      then [Event(OrderPair(t, q, pair.0, pair.1).0, OrderPair(t, q, pair.0, pair.1).1, p)]
      else []
  }

  /** The accepted pairs of one row. */
  function RowEvents(t: Text, q: Query, scholars: seq<Scholar>): Payload -> seq<Event> {
    (p: Payload) =>
      if !RowMatches(t, q, p) then []
      else FlatMap(Pairs(Unique(FlatMap(p.people, Mapped(t, scholars)))), PairEvent(t, q, p))
  }

  // ---------------------------------------------------------------------------
  // Buckets
  // ---------------------------------------------------------------------------

  datatype Bucket = Bucket(a: Scholar, b: Scholar, count: nat, titles: seq<string>, time: Option<string>, institution: string)

  /** Buckets by ordered pair, with the keys in insertion order. */
  datatype Table = Table(order: seq<PairKey>, buckets: map<PairKey, Bucket>)

  predicate IsTime(time: Option<string>) { time.Some? && time.value != "" }

  function Updated(b: Bucket, p: Payload): Bucket {
    b.(count := b.count + 1, titles := b.titles + [p.title],
       time := if IsTime(p.time) && (b.time.None? || Less(b.time.value, p.time.value)) then p.time else b.time,
       institution := if b.institution == "" then p.institution else b.institution)
  }

  function Opened(e: Event): Bucket {
    Bucket(e.a, e.b, 0, [], e.payload.time, e.payload.institution)
  }

  function Add(table: Table, e: Event): Table {
    if e.Key() in table.buckets then
      table.(buckets := table.buckets[e.Key() := Updated(table.buckets[e.Key()], e.payload)])
    else
      Table(table.order + [e.Key()], table.buckets[e.Key() := Updated(Opened(e), e.payload)])
  }

  function Tally(events: seq<Event>): Table {
    if events == [] then Table([], map[]) else Add(Tally(events[..|events| - 1]), events[|events| - 1])
  }

  /** The events of one ordered pair. */
  function OfPair(events: seq<Event>, key: PairKey): seq<Event> {
    if events == [] then []
    else
      var before, e := OfPair(events[..|events| - 1], key), events[|events| - 1];
      if e.Key() == key then before + [e] else before
  }

  method CollectPairs(t: Text, q: Query, scholars: seq<Scholar>, rows: seq<Payload>) returns (table: Table)
    ensures table == Tally(FlatMap(rows, RowEvents(t, q, scholars)))
  {
    hide RowMatches, PairMatches, OrderPair, Add, Pairs, Unique, Mapped, Maps;
    var names := LoadExactNameMap(t, scholars);
    table := Table([], map[]);
    ghost var events: seq<Event> := [];
    for i := 0 to |rows|
      invariant events == FlatMap(rows[..i], RowEvents(t, q, scholars)) && table == Tally(events)
    {
      assert rows[..i + 1][..i] == rows[..i];
      var payload := rows[i];
      if RowMatches(t, q, payload) {
        var mapped := MapPeopleToScholars(t, scholars, names, payload.people);
        var people := Unique(mapped);
        ghost var more: seq<Event>;
        table, more := AddPairs(t, q, payload, Pairs(people), table, events);
        events := events + more;
      } else {
        assert events + [] == events;
      }
    }
    assert rows[..|rows|] == rows;
  }

  /** The loop over the pairs of one row. */
  method AddPairs(t: Text, q: Query, payload: Payload, pairs: seq<(Scholar, Scholar)>, start: Table, ghost events: seq<Event>)
    returns (table: Table, ghost more: seq<Event>)
    requires start == Tally(events)
    ensures more == FlatMap(pairs, PairEvent(t, q, payload)) && table == Tally(events + more)
  {
    hide PairMatches, OrderPair, Add;
    table, more := start, [];
    assert events + [] == events;
    for i := 0 to |pairs|
      invariant more == FlatMap(pairs[..i], PairEvent(t, q, payload)) && table == Tally(events + more)
    {
      assert pairs[..i + 1][..i] == pairs[..i];
      var (left, right) := pairs[i];
      if PairMatches(t, q, left, right) {
        var (a, b) := OrderPair(t, q, left, right);
        var e := Event(a, b, payload);
        table := Add(table, e);
        assert (events + (more + [e]))[..|events + more|] == events + more;
        more := more + [e];
      } else {
        assert more + [] == more;
      }
    }
    assert pairs[..|pairs|] == pairs;
  }

  // ---------------------------------------------------------------------------
  // What the buckets hold
  // ---------------------------------------------------------------------------

  ghost predicate Greatest(time: Option<string>, events: seq<Event>) {
    forall e | e in events && IsTime(e.payload.time) :: time.Some? && !Less(time.value, e.payload.time.value)
  }

  /** The first institution that is not empty. */
  function FirstInstitution(events: seq<Event>): string {
    if events == [] then ""
    else
      var before := FirstInstitution(events[..|events| - 1]);
      if before != "" then before else events[|events| - 1].payload.institution
  }

  /** A bucket agrees with the events of its pair. */
  ghost predicate Faithful(b: Bucket, events: seq<Event>) {
    && b.count == |b.titles| == |events|
    && (forall i | 0 <= i < |events| :: b.titles[i] == events[i].payload.title)
    && b.institution == FirstInstitution(events)
    && Greatest(b.time, events)
    && (if IsTime(b.time) then exists e | e in events :: e.payload.time == b.time
        else events != [] && b.time == events[0].payload.time)
  }

  lemma {:induction false} TallyKeys(events: seq<Event>)
    ensures forall k :: k in Tally(events).buckets <==> OfPair(events, k) != []
    ensures forall k :: k in Tally(events).buckets <==> k in Tally(events).order
    ensures forall i, j | 0 <= i < j < |Tally(events).order| :: Tally(events).order[i] != Tally(events).order[j]
  {
    if events != [] {
      TallyKeys(events[..|events| - 1]);
    }
  }

  /** First-occurrence order: more events never reorder the keys already there. */
  lemma {:induction false} OrderGrows(events: seq<Event>, n: nat)
    requires n <= |events|
    ensures Tally(events[..n]).order <= Tally(events).order
  {
    if n < |events| {
      var last := |events| - 1;
      assert events[..last][..n] == events[..n];
      OrderGrows(events[..last], n);
    } else {
      assert events[..n] == events;
    }
  }

  lemma UpdatedIsFaithful(b: Bucket, events: seq<Event>, e: Event)
    requires Faithful(b, events) || (events == [] && b == Opened(e))
    ensures Faithful(Updated(b, e.payload), events + [e])
  {
    var now := Updated(b, e.payload);
    assert e in events + [e];
    forall x | x in events + [e] && IsTime(x.payload.time)
      ensures now.time.Some? && !Less(now.time.value, x.payload.time.value)
    {
      if now.time.Some? && b.time.Some? {
        LessIsTotal(b.time.value, now.time.value);
        LessIsTotal(now.time.value, x.payload.time.value);
        if x in events {
          LessTransitive(x.payload.time.value, b.time.value, now.time.value);
        }
      } else {
        LessIsTotal(x.payload.time.value, x.payload.time.value);
      }
    }
  }

  /** Before the limit, every bucket counts and lists exactly the accepted rows of its ordered pair,
      and carries the greatest of their times. */
  lemma {:induction false} BucketsAreFaithful(events: seq<Event>, k: PairKey)
    requires k in Tally(events).buckets
    ensures Faithful(Tally(events).buckets[k], OfPair(events, k))
    ensures Tally(events).buckets[k].a.id == k.0 && Tally(events).buckets[k].b.id == k.1
  {
    hide Faithful, Updated;
    var before, e := events[..|events| - 1], events[|events| - 1];
    TallyKeys(before);
    if k in Tally(before).buckets {
      BucketsAreFaithful(before, k);
    }
    if k == e.Key() {
      UpdatedIsFaithful(if k in Tally(before).buckets then Tally(before).buckets[k] else Opened(e), OfPair(before, k), e);
      UpdatedKeepsPair(if k in Tally(before).buckets then Tally(before).buckets[k] else Opened(e), e.payload);
    }
  }

  lemma UpdatedKeepsPair(b: Bucket, p: Payload)
    ensures Updated(b, p).a == b.a && Updated(b, p).b == b.b && Updated(b, p).count == b.count + 1
  {
  }

  function CountOf(order: seq<PairKey>, buckets: map<PairKey, Bucket>): nat
    requires forall k | k in order :: k in buckets
  {
    if order == [] then 0
    else
      assert order[|order| - 1] in order;
      CountOf(order[..|order| - 1], buckets) + buckets[order[|order| - 1]].count
  }

  lemma {:induction false} CountAfterUpdate(order: seq<PairKey>, buckets: map<PairKey, Bucket>, k: PairKey, b: Bucket)
    requires forall key | key in order :: key in buckets
    requires forall i, j | 0 <= i < j < |order| :: order[i] != order[j]
    ensures k !in order ==> CountOf(order, buckets[k := b]) == CountOf(order, buckets)
    ensures k in order ==> CountOf(order, buckets[k := b]) == CountOf(order, buckets) - buckets[k].count + b.count
  {
    if order != [] {
      assert order[|order| - 1] in order;
      assert order == order[..|order| - 1] + [order[|order| - 1]];
      CountAfterUpdate(order[..|order| - 1], buckets, k, b);
    }
  }

  /** Keys in insertion order, each once. */
  ghost predicate Ordered(table: Table) {
    && (forall k :: k in table.buckets <==> k in table.order)
    && forall i, j | 0 <= i < j < |table.order| :: table.order[i] != table.order[j]
  }

  lemma AddCounts(table: Table, e: Event)
    requires Ordered(table) && Ordered(Add(table, e))
    ensures CountOf(Add(table, e).order, Add(table, e).buckets) == CountOf(table.order, table.buckets) + 1
  {
    hide Updated;
    var k := e.Key();
    var was := if k in table.buckets then table.buckets[k] else Opened(e);
    UpdatedKeepsPair(was, e.payload);
    CountAfterUpdate(table.order, table.buckets, k, Updated(was, e.payload));
    if k !in table.buckets {
      assert (table.order + [k])[..|table.order|] == table.order;
    }
  }

  /** The counts of all buckets add up to the number of accepted pairs. */
  lemma {:induction false} CountsAddUp(events: seq<Event>)
    ensures Ordered(Tally(events)) && CountOf(Tally(events).order, Tally(events).buckets) == |events|
  {
    hide Add;
    TallyKeys(events);
    if events != [] {
      CountsAddUp(events[..|events| - 1]);
      AddCounts(Tally(events[..|events| - 1]), events[|events| - 1]);
    }
  }

  // ---------------------------------------------------------------------------
  // The shape of an accepted pair
  // ---------------------------------------------------------------------------

  lemma UniqueMembers(people: seq<Scholar>)
    ensures forall s | s in Unique(people) :: s in people
    ensures forall i, j | 0 <= i < j < |Unique(people)| :: Unique(people)[i].id != Unique(people)[j].id
  {
    hide Dict;
    DictMembers(people, IdOf);
    assert forall i, j | 0 <= i < j < |Unique(people)| :: IdOf(Unique(people)[i]) != IdOf(Unique(people)[j]);
  }

  lemma {:induction false} PairMembers(people: seq<Scholar>, pair: (Scholar, Scholar))
    requires pair in Pairs(people)
    requires forall i, j | 0 <= i < j < |people| :: people[i].id != people[j].id
    ensures pair.0 in people && pair.1 in people && pair.0.id != pair.1.id
  {
    if pair in Pairs(people[1..]) {
      PairMembers(people[1..], pair);
    } else {
      var k :| 0 <= k < |people| - 1 && pair == (people[0], people[k + 1]);
    }
  }

  lemma PairEventShape(t: Text, q: Query, p: Payload, pair: (Scholar, Scholar), e: Event)
    requires e in PairEvent(t, q, p)(pair)
    ensures (e.a, e.b) == pair || (e.b, e.a) == pair
    ensures q.A() != "" ==> Matches(t, e.a, q.A())
    ensures PairMatches(t, q, e.a, e.b)
  {
    hide Matches, Strip;
  }

  /** An accepted pair joins two different scholars of the table, and side A matches expert A. */
  lemma EventShape(t: Text, q: Query, scholars: seq<Scholar>, rows: seq<Payload>, e: Event)
    requires e in FlatMap(rows, RowEvents(t, q, scholars))
    ensures e.a in scholars && e.b in scholars && e.a.id != e.b.id
    ensures q.A() != "" ==> Matches(t, e.a, q.A())
    ensures PairMatches(t, q, e.a, e.b)
  {
    hide Pairs, Unique, RowMatches, Matches, Listed, PairEvent, PairMatches, Strip, Mapped;
    var p := FlatMapSource(rows, RowEvents(t, q, scholars), e);
    var found := FlatMap(p.people, Mapped(t, scholars));
    var people := Unique(found);
    var pair := FlatMapSource(Pairs(people), PairEvent(t, q, p), e);
    UniqueMembers(found);
    PairMembers(people, pair);
    PairEventShape(t, q, p, pair, e);
    FoundAreListed(t, scholars, p.people);
  }

  lemma FoundAreListed(t: Text, scholars: seq<Scholar>, people: seq<string>)
    ensures forall s | s in FlatMap(people, Mapped(t, scholars)) :: s in scholars
  {
    hide Mapped;
    forall s | s in FlatMap(people, Mapped(t, scholars))
      ensures s in scholars
    {
      var name := FlatMapSource(people, Mapped(t, scholars), s);
      MappedIsListed(t, scholars, name, s);
    }
  }

  lemma MappedIsListed(t: Text, scholars: seq<Scholar>, name: string, s: Scholar)
    requires s in Mapped(t, scholars)(name)
    ensures s in scholars
  {
    var key := t.person(name);
    assert s in Listed(t, scholars, key);
    var source := FlatMapSource(scholars, Listings(t, key), s);
  }

  lemma {:induction false} OfPairMembers(events: seq<Event>, k: PairKey)
    ensures forall e :: e in OfPair(events, k) <==> e in events && e.Key() == k
  {
    if events != [] {
      OfPairMembers(events[..|events| - 1], k);
      assert events == events[..|events| - 1] + [events[|events| - 1]];
    }
  }

  ghost predicate DistinctScholars(scholars: seq<Scholar>) {
    forall i, j | 0 <= i < j < |scholars| :: scholars[i].id != scholars[j].id
  }

  // ---------------------------------------------------------------------------
  // A bucket counts rows
  // ---------------------------------------------------------------------------

  function Ids(pair: (Scholar, Scholar)): set<string> { {pair.0.id, pair.1.id} }

  ghost predicate AllDiffer(pairs: seq<(Scholar, Scholar)>) {
    forall i, j | 0 <= i < j < |pairs| :: Ids(pairs[i]) != Ids(pairs[j])
  }

  /** The pairs of the first person, then those among the others. */
  lemma PairAt(people: seq<Scholar>, i: nat)
    requires people != [] && i < |Pairs(people)|
    ensures Pairs(people)[i] == if i < |people| - 1 then (people[0], people[i + 1]) else Pairs(people[1..])[i - (|people| - 1)]
    ensures |Pairs(people)| == |people| - 1 + |Pairs(people[1..])|
  {
  }

  lemma PairDiffers(people: seq<Scholar>, i: nat, j: nat)
    requires DistinctScholars(people) && people != [] && AllDiffer(Pairs(people[1..])) && i < j < |Pairs(people)|
    ensures Ids(Pairs(people)[i]) != Ids(Pairs(people)[j])
  {
    hide Pairs;
    PairAt(people, i);
    PairAt(people, j);
    var n, rest := |people| - 1, people[1..];
    if j < n {
      assert people[j + 1].id in Ids(Pairs(people)[j]) && people[j + 1].id !in Ids(Pairs(people)[i]);
    } else if i < n {
      assert Pairs(people)[j] in Pairs(rest);
      PairMembers(rest, Pairs(people)[j]);
      assert people[0].id in Ids(Pairs(people)[i]) && people[0].id !in Ids(Pairs(people)[j]);
    }
  }

  lemma {:induction false} PairsDiffer(people: seq<Scholar>)
    requires DistinctScholars(people)
    ensures AllDiffer(Pairs(people))
  {
    hide Ids;
    if people != [] {
      PairsDiffer(people[1..]);
      forall i, j | 0 <= i < j < |Pairs(people)|
        ensures Ids(Pairs(people)[i]) != Ids(Pairs(people)[j])
      {
        PairDiffers(people, i, j);
      }
    }
  }

  lemma EventIds(t: Text, q: Query, p: Payload, pair: (Scholar, Scholar), e: Event)
    requires e in PairEvent(t, q, p)(pair)
    ensures Ids(pair) == {e.Key().0, e.Key().1}
  {
    hide PairMatches, Matches;
  }

  lemma FirstDiffer(pairs: seq<(Scholar, Scholar)>)
    requires AllDiffer(pairs) && pairs != []
    ensures AllDiffer(pairs[..|pairs| - 1])
  {
    hide Ids;
  }

  lemma DiffersFromLast(pairs: seq<(Scholar, Scholar)>, pair: (Scholar, Scholar))
    requires AllDiffer(pairs) && pairs != [] && pair in pairs[..|pairs| - 1]
    ensures Ids(pair) != Ids(pairs[|pairs| - 1])
  {
    hide Ids;
    var i :| 0 <= i < |pairs| - 1 && pairs[i] == pair;
  }

  lemma {:induction false} AtMostOneEvent(t: Text, q: Query, p: Payload, pairs: seq<(Scholar, Scholar)>, k: PairKey)
    requires AllDiffer(pairs)
    ensures |OfPair(FlatMap(pairs, PairEvent(t, q, p)), k)| <= 1
  {
    hide PairMatches, OrderPair, Ids, AllDiffer;
    if pairs != [] {
      var before, last, f := pairs[..|pairs| - 1], pairs[|pairs| - 1], PairEvent(t, q, p);
      var earlier := FlatMap(before, f);
      FirstDiffer(pairs);
      AtMostOneEvent(t, q, p, before, k);
      OfPairMembers(earlier, k);
      var more := f(last);
      OfPairAppend(earlier, more, k);
      if more != [] && more[0].Key() == k && OfPair(earlier, k) != [] {
        var other := OfPair(earlier, k)[0];
        assert other in OfPair(earlier, k) && more[0] in more;
        var pair := FlatMapSource(before, f, other);
        DiffersFromLast(pairs, pair);
        EventIds(t, q, p, pair, other);
        EventIds(t, q, p, last, more[0]);
        assert false;
      }
    }
  }

  lemma OfPairAppend(events: seq<Event>, more: seq<Event>, k: PairKey)
    requires |more| <= 1
    ensures OfPair(events + more, k) == OfPair(events, k) + if more != [] && more[0].Key() == k then more else []
  {
    if more == [] {
      assert events + more == events;
    } else {
      assert (events + more)[..|events|] == events && more == [more[0]];
    }
  }

  lemma {:induction false} OfPairConcat(a: seq<Event>, b: seq<Event>, k: PairKey)
    ensures OfPair(a + b, k) == OfPair(a, k) + OfPair(b, k)
  {
    if b == [] {
      assert a + b == a;
    } else {
      OfPairConcat(a, b[..|b| - 1], k);
      assert (a + b)[..|a + b| - 1] == a + b[..|b| - 1];
    }
  }

  /** How many of the rows count for this ordered pair. */
  ghost function CountingRows(t: Text, q: Query, scholars: seq<Scholar>, rows: seq<Payload>, k: PairKey): nat {
    if rows == [] then 0
    else CountingRows(t, q, scholars, rows[..|rows| - 1], k) + if CountsFor(t, q, scholars, rows[|rows| - 1], k) then 1 else 0
  }

  /** A row names a pair at most once, so the events of a pair are as many as the rows that accept it. */
  lemma {:induction false} EventsAreRows(t: Text, q: Query, scholars: seq<Scholar>, rows: seq<Payload>, k: PairKey)
    ensures |OfPair(FlatMap(rows, RowEvents(t, q, scholars)), k)| == CountingRows(t, q, scholars, rows, k)
  {
    hide OfPair, PairEvent, RowMatches, Unique, Pairs, CountsFor;
    if rows == [] {
      NoEvents(k);
    } else {
      var f, p := RowEvents(t, q, scholars), rows[|rows| - 1];
      EventsAreRows(t, q, scholars, rows[..|rows| - 1], k);
      OfPairConcat(FlatMap(rows[..|rows| - 1], f), f(p), k);
      NoEvents(k);
      var people := Unique(FlatMap(p.people, Mapped(t, scholars)));
      UniqueMembers(FlatMap(p.people, Mapped(t, scholars)));
      PairsDiffer(people);
      AtMostOneEvent(t, q, p, Pairs(people), k);
      RowCountsIff(t, q, scholars, p, k);
    }
  }

  lemma NoEvents(k: PairKey)
    ensures OfPair([], k) == []
  {
  }

  // ---------------------------------------------------------------------------
  // Which side
  // ---------------------------------------------------------------------------

  /** Every bucket has its expert A on side A; and when the other side does not match, the reversed
      pair has no bucket of its own. */
  lemma OneBucketPerPair(t: Text, q: Query, scholars: seq<Scholar>, rows: seq<Payload>, k: PairKey)
    requires q.A() != ""
    requires k in Tally(FlatMap(rows, RowEvents(t, q, scholars))).buckets
    ensures exists a | a in scholars :: a.id == k.0 && Matches(t, a, q.A())
    ensures (forall b | b in scholars && b.id == k.1 :: !Matches(t, b, q.A())) ==>
              (k.1, k.0) !in Tally(FlatMap(rows, RowEvents(t, q, scholars))).buckets
  {
    hide Tally, RowEvents, Matches;
    var events := FlatMap(rows, RowEvents(t, q, scholars));
    TallyKeys(events);
    OfPairMembers(events, k);
    var e := OfPair(events, k)[0];
    assert e in OfPair(events, k);
    EventShape(t, q, scholars, rows, e);
    var reversed := (k.1, k.0);
    if reversed in Tally(events).buckets {
      OfPairMembers(events, reversed);
      var r := OfPair(events, reversed)[0];
      assert r in OfPair(events, reversed);
      EventShape(t, q, scholars, rows, r);
    }
  }

  /** Two rows that name a pair in opposite orders share a bucket iff exactly one of the two matches expert A. */
  lemma OneOrderIff(t: Text, q: Query, left: Scholar, right: Scholar)
    requires left.id != right.id
    ensures OrderPair(t, q, left, right) == OrderPair(t, q, right, left) <==>
            q.A() != "" && Matches(t, left, q.A()) != Matches(t, right, q.A())
  {
  }

  // ---------------------------------------------------------------------------
  // When a pair has a bucket, said of the rows
  // ---------------------------------------------------------------------------

  /** The scholars that a row's names resolve to, one per id. */
  function RowPeople(t: Text, scholars: seq<Scholar>, p: Payload): seq<Scholar> {
    Unique(FlatMap(p.people, Mapped(t, scholars)))
  }

  /** The keyword is given and is the scholar's id or displayed name, ignoring case and outer white space. */
  ghost predicate IsExpert(t: Text, keyword: string, s: Scholar) {
    && Strip(keyword) != ""
    && t.lower(Strip(keyword)) in {t.lower(Strip(s.id)),
                                   t.lower(Strip(if s.nameZh != "" then s.nameZh else if s.nameEn != "" then s.nameEn else s.id))}
  }

  /** One of the two can be expert A and the other expert B, where these are given. */
  ghost predicate Suits(t: Text, q: Query, left: Scholar, right: Scholar) {
    || ((Strip(q.expertA) == "" || IsExpert(t, q.expertA, left)) && (Strip(q.expertB) == "" || IsExpert(t, q.expertB, right)))
    || ((Strip(q.expertA) == "" || IsExpert(t, q.expertA, right)) && (Strip(q.expertB) == "" || IsExpert(t, q.expertB, left)))
  }

  ghost predicate Before(people: seq<Scholar>, left: Scholar, right: Scholar) {
    exists i, j :: 0 <= i < j < |people| && people[i] == left && people[j] == right
  }

  /** The row passes the filters and names the two scholars, in this order. */
  ghost predicate Names(t: Text, q: Query, scholars: seq<Scholar>, p: Payload, left: Scholar, right: Scholar) {
    && MentionsInstitution(t, q.institution, p.institutionText) && InPeriod(p.time, q.start, q.end)
    && Before(RowPeople(t, scholars, p), left, right) && Suits(t, q, left, right)
  }

  /** The pair's ids, with the right scholar first if it is expert A. */
  ghost function Placed(t: Text, q: Query, left: Scholar, right: Scholar): PairKey {
    if IsExpert(t, q.expertA, right) then (right.id, left.id) else (left.id, right.id)
  }

  lemma ExpertIff(t: Text, keyword: string, s: Scholar)
    ensures IsExpert(t, keyword, s) <==> Strip(keyword) != "" && Matches(t, s, Strip(keyword))
  {
    hide Strip;
    StripTwice(keyword);
  }

  lemma SuitsIff(t: Text, q: Query, left: Scholar, right: Scholar)
    ensures PairMatches(t, q, left, right) <==> Suits(t, q, left, right)
    ensures EventIdsOf(t, q, left, right) == Placed(t, q, left, right)
  {
    hide IsExpert, Matches, Strip;
    ExpertIff(t, q.expertA, left);
    ExpertIff(t, q.expertA, right);
    ExpertIff(t, q.expertB, left);
    ExpertIff(t, q.expertB, right);
  }

  function EventIdsOf(t: Text, q: Query, left: Scholar, right: Scholar): PairKey {
    (OrderPair(t, q, left, right).0.id, OrderPair(t, q, left, right).1.id)
  }

  lemma PairsNext(people: seq<Scholar>, left: Scholar, right: Scholar)
    requires people != []
    ensures (left, right) in Pairs(people) <==> (left == people[0] && right in people[1..]) || (left, right) in Pairs(people[1..])
  {
    var first := seq(|people| - 1, k requires 0 <= k < |people| - 1 => (people[0], people[k + 1]));
    assert Pairs(people) == first + Pairs(people[1..]);
    if left == people[0] && right in people[1..] {
      var k :| 0 <= k < |people| - 1 && people[1..][k] == right;
      assert first[k] == (left, right);
    }
  }

  lemma BeforeNext(people: seq<Scholar>, left: Scholar, right: Scholar)
    requires people != []
    ensures Before(people, left, right) <==> (left == people[0] && right in people[1..]) || Before(people[1..], left, right)
  {
    var rest := people[1..];
    if left == people[0] && right in rest {
      var k :| 0 <= k < |rest| && rest[k] == right;
      assert people[0] == left && people[k + 1] == right;
    }
    if i, j :| 0 <= i < j < |rest| && rest[i] == left && rest[j] == right {
      assert people[i + 1] == left && people[j + 1] == right;
    }
    if i, j :| 0 <= i < j < |people| && people[i] == left && people[j] == right {
      assert rest[j - 1] == right && (i > 0 ==> rest[i - 1] == left);
    }
  }

  lemma {:induction false} PairsIff(people: seq<Scholar>, left: Scholar, right: Scholar)
    ensures (left, right) in Pairs(people) <==> Before(people, left, right)
  {
    hide Before, Pairs;
    if people == [] {
      NoPairs(left, right);
    } else {
      PairsIff(people[1..], left, right);
      PairsNext(people, left, right);
      BeforeNext(people, left, right);
    }
  }

  lemma NoPairs(left: Scholar, right: Scholar)
    ensures Pairs([]) == [] && !Before([], left, right)
  {
  }

  function EventOf(t: Text, q: Query, p: Payload, left: Scholar, right: Scholar): Event {
    Event(OrderPair(t, q, left, right).0, OrderPair(t, q, left, right).1, p)
  }

  lemma RowEventsAre(t: Text, q: Query, scholars: seq<Scholar>, p: Payload, e: Event)
    ensures e in RowEvents(t, q, scholars)(p) <==>
              exists left, right :: Names(t, q, scholars, p, left, right) && e == EventOf(t, q, p, left, right)
  {
    hide Pairs, Unique, RowMatches, PairMatches, OrderPair, Mapped, Before, Suits, MentionsInstitution, InPeriod;
    var pairs, f := Pairs(RowPeople(t, scholars, p)), PairEvent(t, q, p);
    RowMatchesIff(t, q, p);
    if e in RowEvents(t, q, scholars)(p) {
      var pair := FlatMapSource(pairs, f, e);
      var (left, right) := pair;
      PairsIff(RowPeople(t, scholars, p), left, right);
      SuitsIff(t, q, left, right);
      assert Names(t, q, scholars, p, left, right);
    }
    if left, right :| Names(t, q, scholars, p, left, right) && e == EventOf(t, q, p, left, right) {
      PairsIff(RowPeople(t, scholars, p), left, right);
      SuitsIff(t, q, left, right);
      FlatMapHas(pairs, f, (left, right), e);
    }
  }

  /** The row counts for the pair of ids. */
  ghost predicate CountsFor(t: Text, q: Query, scholars: seq<Scholar>, p: Payload, k: PairKey) {
    exists left, right :: Names(t, q, scholars, p, left, right) && Placed(t, q, left, right) == k
  }

  lemma RowCountsIff(t: Text, q: Query, scholars: seq<Scholar>, p: Payload, k: PairKey)
    ensures OfPair(RowEvents(t, q, scholars)(p), k) != [] <==> CountsFor(t, q, scholars, p, k)
  {
    hide RowEvents, Names, EventOf, Placed;
    var events := RowEvents(t, q, scholars)(p);
    OfPairMembers(events, k);
    if OfPair(events, k) != [] {
      var e := OfPair(events, k)[0];
      assert e in OfPair(events, k);
      RowEventsAre(t, q, scholars, p, e);
      var left, right :| Names(t, q, scholars, p, left, right) && e == EventOf(t, q, p, left, right);
      EventKey(t, q, p, left, right);
    }
    if left, right :| Names(t, q, scholars, p, left, right) && Placed(t, q, left, right) == k {
      var e := EventOf(t, q, p, left, right);
      EventKey(t, q, p, left, right);
      RowEventsAre(t, q, scholars, p, e);
      assert e in OfPair(events, k);
    }
  }

  lemma EventKey(t: Text, q: Query, p: Payload, left: Scholar, right: Scholar)
    ensures EventOf(t, q, p, left, right).Key() == Placed(t, q, left, right)
  {
    hide OrderPair, Placed;
    SuitsIff(t, q, left, right);
  }

  /** A pair of ids has a bucket iff some row counts for it: the row passes the institution and the period,
      and names two scholars that suit the expert keywords and come out in this order. */
  lemma BucketIff(t: Text, q: Query, scholars: seq<Scholar>, rows: seq<Payload>, k: PairKey)
    ensures k in Tally(FlatMap(rows, RowEvents(t, q, scholars))).buckets <==>
              exists p :: p in rows && CountsFor(t, q, scholars, p, k)
  {
    hide Tally, RowEvents, CountsFor;
    var f := RowEvents(t, q, scholars);
    var events := FlatMap(rows, f);
    TallyKeys(events);
    OfPairMembers(events, k);
    if k in Tally(events).buckets {
      var e := OfPair(events, k)[0];
      assert e in OfPair(events, k);
      var p := FlatMapSource(rows, f, e);
      OfPairMembers(f(p), k);
      RowCountsIff(t, q, scholars, p, k);
    }
    if p :| p in rows && CountsFor(t, q, scholars, p, k) {
      RowCountsIff(t, q, scholars, p, k);
      OfPairMembers(f(p), k);
      var e := OfPair(f(p), k)[0];
      assert e in OfPair(f(p), k);
      FlatMapHas(rows, f, p, e);
      assert e in OfPair(events, k);
    }
  }

  /** Of the scholars of one id the last one stays, at the place of the first. */
  lemma UniqueIff(people: seq<Scholar>, s: Scholar, more: Scholar)
    ensures s in Unique(people) <==>
              exists i | 0 <= i < |people| && people[i] == s :: forall j | i < j < |people| :: people[j].id != s.id
    ensures var now := Unique(people + [more]);
            |Unique(people)| <= |now| && forall i | 0 <= i < |Unique(people)| :: now[i].id == Unique(people)[i].id
  {
    hide Dict;
    DictIff(people, IdOf, s);
    DictGrows(people, IdOf, more);
    if i :| 0 <= i < |people| && people[i] == s && forall j | i < j < |people| :: people[j].id != s.id {
      assert LastOfKey(people, IdOf, i);
    }
  }

  /** The people of a row are the scholars that one of its names resolves to: the name has a key that is
      exactly one of all the scholars' names. Of several with one id the last one found stays. */
  lemma RowPeopleIff(t: Text, scholars: seq<Scholar>, p: Payload, s: Scholar)
    ensures s in RowPeople(t, scholars, p) ==>
              exists person, i, zh :: person in p.people && t.person(person) != ""
                && OnlyBearer(t, scholars, t.person(person), i, zh) && BearsAt(scholars, i, s)
    ensures (exists person, i, zh :: person in p.people && t.person(person) != ""
               && OnlyBearer(t, scholars, t.person(person), i, zh) && BearsAt(scholars, i, s)) ==>
              exists other | other in RowPeople(t, scholars, p) :: other.id == s.id
  {
    hide Mapped, Dict, OnlyBearer, FlatMap;
    var f := Mapped(t, scholars);
    var found := FlatMap(p.people, f);
    if s in RowPeople(t, scholars, p) {
      UniqueMembers(found);
      var person := FlatMapSource(p.people, f, s);
      ResolvesIff(t, scholars, person);
      var i, zh :| OnlyBearer(t, scholars, t.person(person), i, zh);
      BearerAt(t, scholars, t.person(person), i, zh);
    }
    if person, i, zh :| person in p.people && t.person(person) != "" && OnlyBearer(t, scholars, t.person(person), i, zh)
                        && BearsAt(scholars, i, s) {
      BearerAt(t, scholars, t.person(person), i, zh);
      ResolvesIff(t, scholars, person);
      FlatMapHas(p.people, f, person, s);
      var last := LastExists(found, IdOf, s);
      DictIff(found, IdOf, found[last]);
      assert IsLast(found, IdOf, found[last]) && IdOf(found[last]) == IdOf(s);
      assert found[last] in RowPeople(t, scholars, p) && found[last].id == s.id;
    }
  }

  ghost predicate BearsAt(scholars: seq<Scholar>, i: int, s: Scholar) { 0 <= i < |scholars| && scholars[i] == s }

  lemma BearerAt(t: Text, scholars: seq<Scholar>, key: string, i: int, zh: bool)
    requires OnlyBearer(t, scholars, key, i, zh)
    ensures 0 <= i < |scholars|
  {
  }

  /** No other scholar row has this id. */
  ghost predicate OwnsId(scholars: seq<Scholar>, s: Scholar) {
    forall other | other in scholars && other.id == s.id :: other == s
  }

  lemma NamedAreScholars(t: Text, q: Query, scholars: seq<Scholar>, p: Payload, left: Scholar, right: Scholar)
    requires Names(t, q, scholars, p, left, right)
    ensures left in scholars && right in scholars
  {
    hide Unique, Mapped, Suits, MentionsInstitution, InPeriod;
    var found := FlatMap(p.people, Mapped(t, scholars));
    UniqueMembers(found);
    FoundAreListed(t, scholars, p.people);
  }

  lemma KeyNamesPair(t: Text, q: Query, scholars: seq<Scholar>, p: Payload, left: Scholar, right: Scholar, a: Scholar, b: Scholar)
    requires OwnsId(scholars, a) && OwnsId(scholars, b)
    requires Names(t, q, scholars, p, left, right) && Placed(t, q, left, right) == (a.id, b.id)
    ensures (left, right) == (a, b) || (left, right) == (b, a)
  {
    hide Names, IsExpert;
    NamedAreScholars(t, q, scholars, p, left, right);
  }

  /** Some accepted row names `a` before `b`. */
  ghost predicate NamesInOrder(t: Text, q: Query, scholars: seq<Scholar>, rows: seq<Payload>, a: Scholar, b: Scholar) {
    exists p :: p in rows && Names(t, q, scholars, p, a, b)
  }

  /** The pair is counted in two buckets iff rows name it in both orders and expert A does not tell the two
      scholars apart. */
  lemma BothOrdersIff(t: Text, q: Query, scholars: seq<Scholar>, rows: seq<Payload>, a: Scholar, b: Scholar)
    requires OwnsId(scholars, a) && OwnsId(scholars, b) && a.id != b.id
    ensures var buckets := Tally(FlatMap(rows, RowEvents(t, q, scholars))).buckets;
            (a.id, b.id) in buckets && (b.id, a.id) in buckets <==>
              && NamesInOrder(t, q, scholars, rows, a, b) && NamesInOrder(t, q, scholars, rows, b, a)
              && IsExpert(t, q.expertA, a) == IsExpert(t, q.expertA, b)
  {
    hide Tally, RowEvents, Names, IsExpert;
    var buckets := Tally(FlatMap(rows, RowEvents(t, q, scholars))).buckets;
    BucketIff(t, q, scholars, rows, (a.id, b.id));
    BucketIff(t, q, scholars, rows, (b.id, a.id));
    if (a.id, b.id) in buckets && (b.id, a.id) in buckets {
      var p :| p in rows && CountsFor(t, q, scholars, p, (a.id, b.id));
      var left, right :| Names(t, q, scholars, p, left, right) && Placed(t, q, left, right) == (a.id, b.id);
      var r :| r in rows && CountsFor(t, q, scholars, r, (b.id, a.id));
      var left', right' :| Names(t, q, scholars, r, left', right') && Placed(t, q, left', right') == (b.id, a.id);
      KeyNamesPair(t, q, scholars, p, left, right, a, b);
      KeyNamesPair(t, q, scholars, r, left', right', b, a);
    }
    if NamesInOrder(t, q, scholars, rows, a, b) && NamesInOrder(t, q, scholars, rows, b, a) {
      var p :| p in rows && Names(t, q, scholars, p, a, b);
      var r :| r in rows && Names(t, q, scholars, r, b, a);
      assert CountsFor(t, q, scholars, p, Placed(t, q, a, b)) && CountsFor(t, q, scholars, r, Placed(t, q, b, a));
    }
  }

  /** Two rows that name the same two scholars in opposite orders, and no expert keyword: two buckets. */
  lemma PairIsSplit(t: Text, a: Scholar, b: Scholar)
    requires a == Scholar("1", "A", "", "") && b == Scholar("2", "B", "", "") && t == Text(s => s, s => s)
    ensures var rows := [Payload(["A", "B"], None, "", "", ""), Payload(["B", "A"], None, "", "", "")];
            var buckets := Tally(FlatMap(rows, RowEvents(t, Query("", "", "", "", ""), [a, b]))).buckets;
            ("1", "2") in buckets && ("2", "1") in buckets
  {
    hide Tally, RowEvents, Mapped, Names, Unique, FlatMap;
    var scholars, q := [a, b], Query("", "", "", "", "");
    var ab, ba := Payload(["A", "B"], None, "", "", ""), Payload(["B", "A"], None, "", "", "");
    TwoPeople(t, scholars, ab.people, 0, 1);
    TwoPeople(t, scholars, ba.people, 1, 0);
    NoFilter(t, q, scholars, ab, a, b);
    NoFilter(t, q, scholars, ba, b, a);
    assert ab in [ab, ba] && ba in [ab, ba];
    BothOrdersIff(t, q, scholars, [ab, ba], a, b);
  }

  lemma NoFilter(t: Text, q: Query, scholars: seq<Scholar>, p: Payload, a: Scholar, b: Scholar)
    requires q == Query("", "", "", "", "") && p.time == None && t.lower("") == ""
    requires RowPeople(t, scholars, p) == [a, b]
    ensures Names(t, q, scholars, p, a, b) && !IsExpert(t, q.expertA, a) && !IsExpert(t, q.expertA, b)
  {
    hide Unique, Mapped, FlatMap;
    assert [a, b][0] == a && [a, b][1] == b;
    assert Strip("") == "";
  }

  lemma TwoPeople(t: Text, scholars: seq<Scholar>, people: seq<string>, i: nat, j: nat)
    requires |people| == 2 && i < |scholars| && j < |scholars| && scholars[i].id != scholars[j].id
    requires t.person(people[0]) != "" && OnlyBearer(t, scholars, t.person(people[0]), i, true)
    requires t.person(people[1]) != "" && OnlyBearer(t, scholars, t.person(people[1]), j, true)
    ensures Unique(FlatMap(people, Mapped(t, scholars))) == [scholars[i], scholars[j]]
  {
    hide Mapped, OnlyBearer, FlatMap, Unique;
    var f := Mapped(t, scholars);
    ResolvesIff(t, scholars, people[0]);
    ResolvesIff(t, scholars, people[1]);
    assert people == [people[0], people[1]];
    FlatMapOfTwo(people[0], people[1], f);
    UniqueOfTwo(scholars[i], scholars[j]);
    assert [scholars[i]] + [scholars[j]] == [scholars[i], scholars[j]];
  }

  lemma FlatMapOfTwo<A, B>(x: A, y: A, f: A -> seq<B>)
    ensures FlatMap([x, y], f) == f(x) + f(y)
  {
    assert [x, y][..1] == [x] && [x][..0] == [];
    assert FlatMap([x], f) == f(x);
  }

  lemma UniqueOfTwo(a: Scholar, b: Scholar)
    requires a.id != b.id
    ensures Unique([a, b]) == [a, b]
  {
    assert [a, b][0] == a && [a, b][1] == b;
    DictOfDistinct([a, b], IdOf);
  }

  // ---------------------------------------------------------------------------
  // Ranking and the limit
  // ---------------------------------------------------------------------------

  function TimeOrEmpty(b: Bucket): string { if b.time.None? then "" else b.time.value }

  /** `a` ranks below `b`: fewer rows, or as many and an earlier time. */
  predicate Below(a: Bucket, b: Bucket) {
    a.count < b.count || (a.count == b.count && Less(TimeOrEmpty(a), TimeOrEmpty(b)))
  }

  lemma BelowOrder(a: Bucket, b: Bucket, c: Bucket)
    ensures !(Below(a, b) && Below(b, a))
    ensures !Below(a, b) && !Below(b, c) ==> !Below(a, c)
  {
    LessIsTotal(TimeOrEmpty(a), TimeOrEmpty(b));
    if !Less(TimeOrEmpty(a), TimeOrEmpty(b)) && !Less(TimeOrEmpty(b), TimeOrEmpty(c)) {
      LessTransitive(TimeOrEmpty(c), TimeOrEmpty(b), TimeOrEmpty(a));
    }
  }

  /** Inserts behind the buckets that do not rank below it. */
  function Insert(b: Bucket, ranked: seq<Bucket>): seq<Bucket> {
    if ranked == [] then [b]
    else
      var last := |ranked| - 1;
      if Below(ranked[last], b) then Insert(b, ranked[..last]) + [ranked[last]] else ranked + [b]
  }

  /** The stable descending sort. */
  function Ranked(buckets: seq<Bucket>): seq<Bucket> {
    if buckets == [] then [] else Insert(buckets[|buckets| - 1], Ranked(buckets[..|buckets| - 1]))
  }

  ghost predicate InRankOrder(buckets: seq<Bucket>) {
    forall i, j | 0 <= i < j < |buckets| :: !Below(buckets[i], buckets[j])
  }

  lemma InOrderAppend(buckets: seq<Bucket>, x: Bucket)
    requires InRankOrder(buckets) && forall y | y in buckets :: !Below(y, x)
    ensures InRankOrder(buckets + [x])
  {
  }

  lemma {:induction false} InsertMultiset(b: Bucket, ranked: seq<Bucket>)
    ensures multiset(Insert(b, ranked)) == multiset(ranked) + multiset{b}
  {
    hide Below;
    if ranked != [] {
      var before := ranked[..|ranked| - 1];
      assert ranked == before + [ranked[|ranked| - 1]];
      InsertMultiset(b, before);
    }
  }

  lemma {:induction false} InsertInOrder(b: Bucket, ranked: seq<Bucket>)
    requires InRankOrder(ranked)
    ensures InRankOrder(Insert(b, ranked))
  {
    hide Below;
    if ranked != [] {
      var last := |ranked| - 1;
      var before, x := ranked[..last], ranked[last];
      if Below(x, b) {
        InsertInOrder(b, before);
        InsertMultiset(b, before);
        BelowOrder(x, b, b);
        forall y | y in Insert(b, before)
          ensures !Below(y, x)
        {
          assert y in multiset(Insert(b, before));
        }
        InOrderAppend(Insert(b, before), x);
      } else {
        forall y | y in ranked
          ensures !Below(y, b)
        {
          BelowOrder(y, x, b);
        }
        InOrderAppend(ranked, b);
      }
    }
  }

  lemma {:induction false} RankedInOrder(buckets: seq<Bucket>)
    ensures InRankOrder(Ranked(buckets)) && multiset(Ranked(buckets)) == multiset(buckets)
  {
    if buckets != [] {
      var before, b := buckets[..|buckets| - 1], buckets[|buckets| - 1];
      assert buckets == before + [b];
      RankedInOrder(before);
      InsertInOrder(b, Ranked(before));
      InsertMultiset(b, Ranked(before));
    }
  }

  /** More rows, or as many and no earlier a time; no time is earlier than any. */
  ghost predicate AtLeast(a: Bucket, b: Bucket) {
    a.count > b.count || (a.count == b.count && !Less(if a.time.None? then "" else a.time.value, if b.time.None? then "" else b.time.value))
  }

  lemma RankedDescending(buckets: seq<Bucket>)
    ensures forall i, j | 0 <= i < j < |Ranked(buckets)| :: AtLeast(Ranked(buckets)[i], Ranked(buckets)[j])
    ensures multiset(Ranked(buckets)) == multiset(buckets)
  {
    hide Ranked;
    RankedInOrder(buckets);
  }

  /** Buckets of the given count and time, in order. */
  function OfRank(buckets: seq<Bucket>, count: nat, time: string): seq<Bucket> {
    if buckets == [] then []
    else
      var before, b := OfRank(buckets[..|buckets| - 1], count, time), buckets[|buckets| - 1];
      if b.count == count && TimeOrEmpty(b) == time then before + [b] else before
  }

  lemma {:induction false} OfRankConcat(a: seq<Bucket>, b: seq<Bucket>, count: nat, time: string)
    ensures OfRank(a + b, count, time) == OfRank(a, count, time) + OfRank(b, count, time)
  {
    if b == [] {
      assert a + b == a;
    } else {
      OfRankConcat(a, b[..|b| - 1], count, time);
      assert (a + b)[..|a + b| - 1] == a + b[..|b| - 1];
    }
  }

  lemma {:induction false} InsertStable(b: Bucket, ranked: seq<Bucket>, count: nat, time: string)
    ensures OfRank(Insert(b, ranked), count, time) == OfRank(ranked + [b], count, time)
  {
    hide OfRank;
    if ranked == [] {
      assert ranked + [b] == [b];
    } else {
      var last := |ranked| - 1;
      var before, x := ranked[..last], ranked[last];
      if Below(x, b) {
        InsertStable(b, before, count, time);
        LessIsTotal(TimeOrEmpty(x), TimeOrEmpty(b));
        RankOfTwo(x, b, count, time);
        OfRankConcat(Insert(b, before), [x], count, time);
        OfRankConcat(before, [b], count, time);
        OfRankConcat(before, [x], count, time);
        OfRankConcat(before + [x], [b], count, time);
        assert ranked == before + [x];
      }
    }
  }

  lemma RankOfTwo(x: Bucket, b: Bucket, count: nat, time: string)
    requires x.count != b.count || TimeOrEmpty(x) != TimeOrEmpty(b)
    ensures OfRank([x], count, time) == [] || OfRank([b], count, time) == []
  {
    assert [x][..0] == [] && [b][..0] == [];
  }

  /** Buckets of equal rank keep their order. */
  lemma {:induction false} RankedStable(buckets: seq<Bucket>, count: nat, time: string)
    ensures OfRank(Ranked(buckets), count, time) == OfRank(buckets, count, time)
  {
    hide OfRank;
    if buckets != [] {
      var before, b := buckets[..|buckets| - 1], buckets[|buckets| - 1];
      RankedStable(before, count, time);
      InsertStable(b, Ranked(before), count, time);
      OfRankConcat(Ranked(before), [b], count, time);
      OfRankConcat(before, [b], count, time);
      assert buckets == before + [b];
    }
  }

  /** The first `limit` buckets of the ranking rank at least as high as every bucket left out. */
  lemma TopByRank(buckets: seq<Bucket>, limit: nat)
    ensures var ranked := Ranked(buckets);
            var n := if limit < |ranked| then limit else |ranked|;
            && |ranked| == |buckets|
            && multiset(ranked[..n]) + multiset(ranked[n..]) == multiset(buckets)
            && forall x, y | x in ranked[..n] && y in ranked[n..] :: AtLeast(x, y)
  {
    hide AtLeast, Ranked;
    RankedDescending(buckets);
    var ranked := Ranked(buckets);
    assert |multiset(ranked)| == |multiset(buckets)|;
    var n := if limit < |ranked| then limit else |ranked|;
    assert ranked == ranked[..n] + ranked[n..];
    forall x, y | x in ranked[..n] && y in ranked[n..]
      ensures AtLeast(x, y)
    {
      var i :| 0 <= i < n && ranked[i] == x;
      var j :| n <= j < |ranked| && ranked[j] == y;
    }
  }

  function InOrder(table: Table): seq<Bucket>
    requires forall k | k in table.order :: k in table.buckets
  {
    seq(|table.order|, i requires 0 <= i < |table.order| => table.buckets[table.order[i]])
  }

  method BuildPairRelations(t: Text, q: Query, scholars: seq<Scholar>, rows: seq<Payload>, limit: nat)
    returns (results: seq<Bucket>)
    ensures var table := Tally(FlatMap(rows, RowEvents(t, q, scholars)));
            && (forall k | k in table.order :: k in table.buckets)
            && var ranked := Ranked(InOrder(table));
               results == ranked[..if limit < |ranked| then limit else |ranked|]
  {
    hide Tally, Ranked, RowEvents;
    var table := CollectPairs(t, q, scholars, rows);
    TallyKeys(FlatMap(rows, RowEvents(t, q, scholars)));
    var ranked := Ranked(InOrder(table));
    results := ranked[..if limit < |ranked| then limit else |ranked|];
  }
}
