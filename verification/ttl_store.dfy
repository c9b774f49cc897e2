/** The in-memory JSON store with time-to-live and lazy eviction. */
module TtlStore {
  import opened Options

  type Json = string

  /** When an entry expires, and its value. */
  type Entries = map<string, (real, Json)>

  datatype Op =
    | Get(key: string)
    | Set(key: string, value: Json, ttl: int)
    | Touch(key: string, ttl: int)
    | Replace(key: string, value: Json, ttl: int)
    | Pop(key: string)
    | Delete(key: string)
    | Close

  datatype Answer = Done | Flag(yes: bool) | Found(value: Option<Json>)

  predicate Live(entries: Entries, key: string, now: real) {
    key in entries && entries[key].0 > now
  }

  // ---------------------------------------------------------------------------
  // The store as implemented: an expired entry is only dropped when it is met
  // ---------------------------------------------------------------------------

  function Lazy(entries: Entries, now: real, op: Op): (Entries, Answer) {
    match op
    case Get(key) =>
      if key !in entries then (entries, Found(None))
      else if entries[key].0 <= now then (entries - {key}, Found(None))
      else (entries, Found(Some(entries[key].1)))
    case Set(key, value, ttl) => (entries[key := (now + ttl as real, value)], Done)
    case Touch(key, ttl) =>
      if key !in entries || entries[key].0 <= now then (entries - {key}, Flag(false))
      else (entries[key := (now + ttl as real, entries[key].1)], Flag(true))
    case Replace(key, value, ttl) =>
      if key !in entries || entries[key].0 <= now then (entries - {key}, Flag(false))
      else (entries[key := (now + ttl as real, value)], Flag(true))
    case Pop(key) =>
      (entries - {key},
       Found(if key !in entries || entries[key].0 <= now then None else Some(entries[key].1)))
    case Delete(key) => (entries - {key}, Done)
    case Close => (map[], Done)
  }

  class MemoryJsonStore {
    var values: Entries

    constructor ()
      ensures values == map[]
    {
      values := map[];
    }

    method GetJson(key: string, now: real) returns (result: Option<Json>)
      modifies this
      ensures (values, Found(result)) == Lazy(old(values), now, Get(key))
    {
      if key !in values {
        return None;
      }
      var (expiresAt, value) := values[key];
      if expiresAt <= now {
        values := values - {key};
        return None;
      }
      return Some(value);
    }

    method SetJson(key: string, value: Json, ttl: int, now: real)
      modifies this
      ensures (values, Done) == Lazy(old(values), now, Set(key, value, ttl))
    {
      values := values[key := (now + ttl as real, value)];
    }

    method TouchKey(key: string, ttl: int, now: real) returns (ok: bool)
      modifies this
      ensures (values, Flag(ok)) == Lazy(old(values), now, Touch(key, ttl))
    {
      if key !in values || values[key].0 <= now {
        values := values - {key};
        return false;
      }
      values := values[key := (now + ttl as real, values[key].1)];
      return true;
    }

    method ReplaceJson(key: string, value: Json, ttl: int, now: real) returns (ok: bool)
      modifies this
      ensures (values, Flag(ok)) == Lazy(old(values), now, Replace(key, value, ttl))
    {
      if key !in values || values[key].0 <= now {
        values := values - {key};
        return false;
      }
      values := values[key := (now + ttl as real, value)];
      return true;
    }

    method PopJson(key: string, now: real) returns (result: Option<Json>)
      modifies this
      ensures (values, Found(result)) == Lazy(old(values), now, Pop(key))
    {
      if key !in values {
        assert values - {key} == values;
        return None;
      }
      var (expiresAt, value) := values[key];
      values := values - {key};
      result := if expiresAt <= now then None else Some(value);
    }

    method DeleteKey(key: string, now: real)
      modifies this
      ensures (values, Done) == Lazy(old(values), now, Delete(key))
    {
      values := values - {key};
    }

    method CloseStore(now: real)
      modifies this
      ensures (values, Done) == Lazy(old(values), now, Close)
    {
      values := map[];
    }
  }

  // ---------------------------------------------------------------------------
  // The reference: every entry disappears at its expiry
  // ---------------------------------------------------------------------------

  /** What is left of the entries at a time. */
  function Expire(entries: Entries, now: real): Entries {
    map k | k in entries && entries[k].0 > now :: entries[k]
  }

  /** Plain map operations. */
  function Plain(entries: Entries, now: real, op: Op): (Entries, Answer) {
    match op
    case Get(key) => (entries, Found(if key in entries then Some(entries[key].1) else None))
    case Set(key, value, ttl) => (entries[key := (now + ttl as real, value)], Done)
    case Touch(key, ttl) =>
      if key in entries then (entries[key := (now + ttl as real, entries[key].1)], Flag(true)) else (entries, Flag(false))
    case Replace(key, value, ttl) =>
      if key in entries then (entries[key := (now + ttl as real, value)], Flag(true)) else (entries, Flag(false))
    case Pop(key) => (entries - {key}, Found(if key in entries then Some(entries[key].1) else None))
    case Delete(key) => (entries - {key}, Done)
    case Close => (map[], Done)
  }

  function Eager(entries: Entries, now: real, op: Op): (Entries, Answer) {
    Plain(Expire(entries, now), now, op)
  }

  // ---------------------------------------------------------------------------
  // Traces
  // ---------------------------------------------------------------------------

  type Trace = seq<(real, Op)>

  ghost predicate Chronological(trace: Trace) {
    forall i, j | 0 <= i < j < |trace| :: trace[i].0 <= trace[j].0
  }

  /** The entries after a trace, and the answer of its last operation. */
  function LazyRun(trace: Trace): Entries {
    if trace == [] then map[]
    else Lazy(LazyRun(trace[..|trace| - 1]), trace[|trace| - 1].0, trace[|trace| - 1].1).0
  }

  function EagerRun(trace: Trace): Entries {
    if trace == [] then map[]
    else Eager(EagerRun(trace[..|trace| - 1]), trace[|trace| - 1].0, trace[|trace| - 1].1).0
  }

  function LazyAnswer(trace: Trace, i: nat): Answer
    requires i < |trace|
  {
    Lazy(LazyRun(trace[..i]), trace[i].0, trace[i].1).1
  }

  function EagerAnswer(trace: Trace, i: nat): Answer
    requires i < |trace|
  {
    Eager(EagerRun(trace[..i]), trace[i].0, trace[i].1).1
  }

  /** Two stores that agree about a key at a time. */
  ghost predicate AgreeAt(a: Entries, b: Entries, now: real, key: string) {
    Live(a, key, now) == Live(b, key, now) && (Live(a, key, now) ==> a[key] == b[key])
  }

  lemma ExpireGivesAgreement(a: Entries, b: Entries, now: real, key: string)
    requires Expire(a, now) == Expire(b, now)
    ensures AgreeAt(a, b, now, key)
  {
    assert Live(a, key, now) <==> key in Expire(a, now);
    assert Live(b, key, now) <==> key in Expire(b, now);
    if Live(a, key, now) {
      assert Expire(a, now)[key] == Expire(b, now)[key];
    }
  }

  lemma AgreementGivesExpire(a: Entries, b: Entries, now: real)
    requires forall k :: AgreeAt(a, b, now, k)
    ensures Expire(a, now) == Expire(b, now)
  {
    var x, y := Expire(a, now), Expire(b, now);
    forall k
      ensures k in x <==> k in y
      ensures k in x ==> x[k] == y[k]
    {
      assert AgreeAt(a, b, now, k);
    }
  }

  /** One step at one key, on a store that holds live entries only. */
  lemma StepAtKey(lazy: Entries, live: Entries, now: real, op: Op, key: string)
    requires forall k :: AgreeAt(lazy, live, now, k)
    requires forall k | k in live :: live[k].0 > now
    ensures AgreeAt(Lazy(lazy, now, op).0, Plain(live, now, op).0, now, key)
    ensures Lazy(lazy, now, op).1 == Plain(live, now, op).1
  {
    assert AgreeAt(lazy, live, now, key);
    if !op.Close? {
      assert AgreeAt(lazy, live, now, op.key);
    }
  }

  lemma StepRefines(lazy: Entries, eager: Entries, now: real, op: Op)
    requires Expire(lazy, now) == Expire(eager, now)
    ensures Lazy(lazy, now, op).1 == Eager(eager, now, op).1
    ensures Expire(Lazy(lazy, now, op).0, now) == Expire(Eager(eager, now, op).0, now)
  {
    hide Lazy, Plain, AgreeAt;
    var live := Expire(eager, now);
    assert Expire(live, now) == live;
    forall k
      ensures AgreeAt(lazy, live, now, k)
    {
      ExpireGivesAgreement(lazy, live, now, k);
    }
    StepAtKey(lazy, live, now, op, "");
    forall k
      ensures AgreeAt(Lazy(lazy, now, op).0, Plain(live, now, op).0, now, k)
    {
      StepAtKey(lazy, live, now, op, k);
    }
    AgreementGivesExpire(Lazy(lazy, now, op).0, Plain(live, now, op).0, now);
  }

  lemma ExpireLater(a: Entries, b: Entries, now: real, later: real)
    requires now <= later && Expire(a, now) == Expire(b, now)
    ensures Expire(a, later) == Expire(b, later)
  {
    assert Expire(a, later) == Expire(Expire(a, now), later);
    assert Expire(b, later) == Expire(Expire(b, now), later);
  }

  lemma {:induction false} RunsAgree(trace: Trace, later: real)
    requires Chronological(trace) && (trace != [] ==> trace[|trace| - 1].0 <= later)
    ensures Expire(LazyRun(trace), later) == Expire(EagerRun(trace), later)
  {
    if trace != [] {
      var before := trace[..|trace| - 1];
      var (now, op) := trace[|trace| - 1];
      RunsAgree(before, now);
      StepRefines(LazyRun(before), EagerRun(before), now, op);
      ExpireLater(LazyRun(trace), EagerRun(trace), now, later);
    }
  }

  /** At non-decreasing times, lazy eviction cannot be told from eager expiry by any answer. */
  lemma LazyRefinesEager(trace: Trace, i: nat)
    requires Chronological(trace) && i < |trace|
    ensures LazyAnswer(trace, i) == EagerAnswer(trace, i)
  {
    hide Lazy, Eager, Expire;
    var (now, op) := trace[i];
    RunsAgree(trace[..i], now);
    StepRefines(LazyRun(trace[..i]), EagerRun(trace[..i]), now, op);
  }

  /** Only `Set` can make a dead key live. */
  lemma OnlySetRevives(entries: Entries, now: real, op: Op, key: string)
    requires !Live(entries, key, now) && !(op.Set? && op.key == key)
    ensures !Live(Lazy(entries, now, op).0, key, now)
    ensures (op.Touch? || op.Replace?) && op.key == key ==> Lazy(entries, now, op).1 == Flag(false)
    ensures (op.Get? || op.Pop?) && op.key == key ==> Lazy(entries, now, op).1 == Found(None)
  {
  }

  /** Dead at one moment, a key stays dead until it is set again. */
  lemma {:induction false} DeadUntilSet(trace: Trace, key: string, i: nat, j: nat, now: real)
    requires Chronological(trace) && i <= j <= |trace|
    requires forall k | i <= k < j :: !(trace[k].1.Set? && trace[k].1.key == key)
    requires forall k | i <= k < j :: now <= trace[k].0
    requires !Live(LazyRun(trace[..i]), key, now)
    ensures forall later: real | now <= later && (j > i ==> trace[j - 1].0 <= later) :: !Live(LazyRun(trace[..j]), key, later)
    decreases j - i
  {
    if i < j {
      DeadUntilSet(trace, key, i, j - 1, now);
      assert trace[..j][..j - 1] == trace[..j - 1];
      var (at, op) := trace[j - 1];
      OnlySetRevives(LazyRun(trace[..j - 1]), at, op, key);
    }
  }

  /** Between two writes of a key at most one `pop` returns a value. */
  lemma PopOnce(trace: Trace, key: string, i: nat, j: nat)
    requires Chronological(trace) && i < j < |trace|
    requires trace[i].1 == Pop(key) && trace[j].1 == Pop(key)
    requires forall k | i < k < j :: !(trace[k].1.Set? && trace[k].1.key == key)
    ensures LazyAnswer(trace, j) == Found(None)
  {
    assert trace[..i + 1][..i] == trace[..i];
    assert !Live(LazyRun(trace[..i + 1]), key, trace[i].0);
    DeadUntilSet(trace, key, i + 1, j, trace[i].0);
    assert !Live(LazyRun(trace[..j]), key, trace[j].0);
  }

  // ---------------------------------------------------------------------------
  // How long a value is answered
  // ---------------------------------------------------------------------------

  /** The operation neither writes nor removes the key; a read may evict it. */
  predicate Spares(op: Op, key: string) { op.Get? || (!op.Close? && op.key != key) }

  ghost predicate SparedBetween(trace: Trace, key: string, i: nat, j: nat) {
    forall k | i < k < j && k < |trace| :: Spares(trace[k].1, key)
  }

  lemma {:induction false} EntryStays(trace: Trace, key: string, i: nat, j: nat)
    requires Chronological(trace) && i < j <= |trace| && SparedBetween(trace, key, i, j)
    requires key in LazyRun(trace[..i + 1])
    ensures var entry, now := LazyRun(trace[..i + 1])[key], LazyRun(trace[..j]);
            if key in now then now[key] == entry else entry.0 <= trace[j - 1].0
    decreases j
  {
    if i + 1 < j {
      EntryStays(trace, key, i, j - 1);
      assert trace[..j][..j - 1] == trace[..j - 1];
      assert trace[j - 2].0 <= trace[j - 1].0;
    }
  }

  lemma AnswersUntil(trace: Trace, key: string, i: nat, j: nat)
    requires Chronological(trace) && i < j < |trace| && SparedBetween(trace, key, i, j)
    requires key in LazyRun(trace[..i + 1]) && trace[j].1 == Get(key)
    ensures var entry := LazyRun(trace[..i + 1])[key];
            LazyAnswer(trace, j) == Found(if trace[j].0 < entry.0 then Some(entry.1) else None)
  {
    hide LazyRun;
    EntryStays(trace, key, i, j);
    assert trace[j - 1].0 <= trace[j].0;
  }

  /** A value that was set is answered before its time to live is over, and not at the end of it. */
  lemma SetLasts(trace: Trace, key: string, value: Json, ttl: int, i: nat, j: nat)
    requires Chronological(trace) && i < j < |trace| && SparedBetween(trace, key, i, j)
    requires trace[i].1 == Set(key, value, ttl) && trace[j].1 == Get(key)
    ensures LazyAnswer(trace, j) == Found(if trace[j].0 < trace[i].0 + ttl as real then Some(value) else None)
  {
    assert trace[..i + 1][..i] == trace[..i];
    AnswersUntil(trace, key, i, j);
  }

  /** A renewal succeeds iff a read at its moment would answer a value. The key then lives on from that moment,
      with the new value if the renewal brings one. */
  lemma RenewalLasts(trace: Trace, key: string, ttl: int, i: nat, j: nat)
    requires Chronological(trace) && i < j < |trace| && SparedBetween(trace, key, i, j) && trace[j].1 == Get(key)
    requires trace[i].1 == Touch(key, ttl) || (trace[i].1.Replace? && trace[i].1.key == key && trace[i].1.ttl == ttl)
    ensures var answer := LazyAnswer(trace[..i] + [(trace[i].0, Get(key))], i);
            && answer.Found? && LazyAnswer(trace, i) == Flag(answer.value.Some?)
            && LazyAnswer(trace, j) == Found(
                 if answer.value.None? || trace[j].0 >= trace[i].0 + ttl as real then None
                 else if trace[i].1.Touch? then answer.value else Some(trace[i].1.value))
  {
    var asked := trace[..i] + [(trace[i].0, Get(key))];
    assert asked[..i] == trace[..i] && trace[..i + 1][..i] == trace[..i];
    if LazyAnswer(asked, i).value.Some? {
      AnswersUntil(trace, key, i, j);
    } else {
      assert !Live(LazyRun(trace[..i + 1]), key, trace[i].0);
      DeadUntilSet(trace, key, i + 1, j, trace[i].0);
      assert !Live(LazyRun(trace[..j]), key, trace[j].0);
    }
  }

  /** After a pop, a deletion or a close nothing is answered until the key is set again. */
  lemma RemovalLasts(trace: Trace, key: string, i: nat, j: nat)
    requires Chronological(trace) && i < j < |trace| && trace[j].1 == Get(key)
    requires trace[i].1 == Pop(key) || trace[i].1 == Delete(key) || trace[i].1 == Close
    requires forall k | i < k < j :: !(trace[k].1.Set? && trace[k].1.key == key)
    ensures LazyAnswer(trace, j) == Found(None)
  {
    assert trace[..i + 1][..i] == trace[..i];
    assert !Live(LazyRun(trace[..i + 1]), key, trace[i].0);
    DeadUntilSet(trace, key, i + 1, j, trace[i].0);
    assert !Live(LazyRun(trace[..j]), key, trace[j].0);
  }
}
