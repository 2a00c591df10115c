/**
 The in-process store with time-to-live of app/services/otp_store.py. The clock is a
 parameter of every call.
 */
module TtlStore {
  import opened Wrappers
  import opened Windows

  datatype Scope = ByPhone | ByAddress

  datatype Period = Hour | Day

  /** The keys the application uses; `StoreKeys` shows their texts are all different. */
  datatype Key =
    | OtpCode(phone: string)
    | OtpAttempts(phone: string)
    | OtpCooldown(phone: string)
    | Quota(period: Period, scope: Scope, ident: string)
    | RateBucket(name: string, windowS: nat, client: string)
    | Slot(name: string, number: int)
    | RouteMinutes(origin: string, dest: string, kind: string)
    | HealthProbe

  datatype Value = Text(text: string) | Count(n: nat)

  datatype Entry = Entry(value: Value, expires: real)

  type Data = map<Key, Entry>

  /** What a reader sees: an entry is live up to and including its expiry. */
  function Live(data: Data, key: Key, now: real): Option<Value> {
    if key in data && now <= data[key].expires then Some(data[key].value) else None
  }

  /** Reading an expired entry removes it. */
  function Purged(data: Data, key: Key, now: real): Data {
    if key in data && now > data[key].expires then data - {key} else data
  }

  function AfterSet(data: Data, key: Key, value: Value, ttl: real, now: real): Data {
    data[key := Entry(value, now + ttl)]
  }

  /** The incremented count, or None when the value is not a number. */
  function Incremented(data: Data, key: Key, now: real): Option<nat> {
    match Live(data, key, now)
    case None => Some(1)
    case Some(Count(n)) => Some(n + 1)
    case Some(Text(t)) => if t == "" then Some(1) else None
  }

  /** Incrementing keeps a live entry's expiry and gives a new one `now + ttl`. */
  function AfterIncr(data: Data, key: Key, ttl: real, now: real): Data {
    var purged := Purged(data, key, now);
    match Incremented(data, key, now)
    case None => purged
    case Some(n) => purged[key := Entry(Count(n), if key in purged then purged[key].expires else now + ttl)]
  }

  class MemoryStore {
    var data: Data

    constructor ()
      ensures data == map[]
    {
      data := map[];
    }

    method Get(key: Key, now: real) returns (value: Option<Value>)
      modifies this
      ensures value == Live(old(data), key, now)
      ensures data == Purged(old(data), key, now)
    {
      if key !in data {
        return None;
      }
      var item := data[key];
      if now > item.expires {
        data := data - {key};
        return None;
      }
      return Some(item.value);
    }

    method Set(key: Key, value: Value, ttl: real, now: real)
      modifies this
      ensures data == AfterSet(old(data), key, value, ttl, now)
    {
      data := data[key := Entry(value, now + ttl)];
    }

    method Delete(key: Key)
      modifies this
      ensures data == old(data) - {key}
    {
      data := data - {key};
    }

    method Incr(key: Key, ttl: real, now: real) returns (count: Option<nat>)
      modifies this
      ensures count == Incremented(old(data), key, now)
      ensures data == AfterIncr(old(data), key, ttl, now)
    {
      var current := Get(key, now);
      var nxt;
      match current {
        case None => nxt := 1;
        case Some(Count(n)) => nxt := n + 1;
        case Some(Text(t)) =>
          if t != "" {
            return None;
          }
          nxt := 1;
      }
      // Get has removed a lapsed entry, so what is there is live.
      var expires := if key in data then data[key].expires else now + ttl;
      data := data[key := Entry(Count(nxt), expires)];
      return Some(nxt);
    }
  }

  /** Lazy removal is invisible: no later reader or counter can tell. */
  lemma LazyRemovalInvisible(data: Data, key: Key, now: real, other: Key, later: real)
    requires now <= later
    ensures Live(Purged(data, key, now), other, later) == Live(data, other, later)
    ensures Incremented(Purged(data, key, now), other, later) == Incremented(data, other, later)
    ensures forall ttl: real ::
              Live(AfterIncr(Purged(data, key, now), other, ttl, later), other, later)
              == Live(AfterIncr(data, other, ttl, later), other, later)
  {
  }

  /** What is set is read until its time is up, and other keys are as before. */
  lemma SetIsRead(data: Data, key: Key, value: Value, ttl: real, now: real, other: Key, later: real)
    ensures Live(AfterSet(data, key, value, ttl, now), key, later) == if later <= now + ttl then Some(value) else None
    ensures other != key ==> Live(AfterSet(data, key, value, ttl, now), other, later) == Live(data, other, later)
  {
  }

  /** The entry can still be read. */
  predicate Lasting(data: Data, key: Key, now: real) {
    key in data && data[key].expires >= now
  }

  /** One more than a number still there, else one; its expiry stays or is set; a text that is no number is an error. */
  lemma IncrIs(data: Data, key: Key, ttl: real, now: real)
    ensures var live, count := Lasting(data, key, now), Incremented(data, key, now);
            var after := AfterIncr(data, key, ttl, now);
            && (count == None <==> live && data[key].value.Text? && data[key].value.text != "")
            && (live && data[key].value.Count? ==> count == Some(data[key].value.n + 1))
            && (!live || data[key].value == Text("") ==> count == Some(1))
            && (count.Some? ==>
                  after == data[key := Entry(Count(count.value), if live then data[key].expires else now + ttl)])
            && (count.None? ==> after == data)
  {
  }

  // ------------------------------------------------------------ any traffic

  datatype Op =
    | GetOp(key: Key)
    | SetOp(key: Key, value: Value, ttl: real)
    | DeleteOp(key: Key)
    | IncrOp(key: Key, ttl: real)

  datatype Timed = Timed(time: real, op: Op)

  function Apply(data: Data, t: Timed): Data {
    match t.op
    case GetOp(k) => Purged(data, k, t.time)
    case SetOp(k, v, ttl) => AfterSet(data, k, v, ttl, t.time)
    case DeleteOp(k) => data - {k}
    case IncrOp(k, ttl) => AfterIncr(data, k, ttl, t.time)
  }

  /** The store after a run of operations from empty. */
  function Run(ops: seq<Timed>): Data {
    if ops == [] then map[] else Apply(Run(ops[..|ops| - 1]), ops[|ops| - 1])
  }

  ghost predicate InTimeOrder(ops: seq<Timed>) {
    forall i, j | 0 <= i < j < |ops| :: ops[i].time <= ops[j].time
  }

  /** The key is only ever read, or incremented with one time-to-live. */
  ghost predicate IsCounter(ops: seq<Timed>, key: Key, ttl: real) {
    forall i | 0 <= i < |ops| && ops[i].op.key == key ::
      ops[i].op == GetOp(key) || ops[i].op == IncrOp(key, ttl)
  }

  /** When the key was incremented. */
  function Hits(ops: seq<Timed>, key: Key, ttl: real): seq<real> {
    if ops == [] then []
    else
      var last := ops[|ops| - 1];
      Hits(ops[..|ops| - 1], key, ttl) + if last.op == IncrOp(key, ttl) then [last.time] else []
  }

  /** The entry of a counter tells its last hit, as long as that hit's window lasts. */
  predicate Shows(data: Data, key: Key, hits: seq<Stamp>, ttl: real, now: real) {
    if hits == [] then key !in data
    else
      var last := hits[|hits| - 1];
      if key in data then data[key] == Entry(Count(last.count), last.start + ttl)
      else now > last.start + ttl
  }

  /** Whatever else happens in the store, a counter's entry shows its hits. */
  lemma {:induction false} CounterShowsHits(ops: seq<Timed>, key: Key, ttl: real, now: real)
    requires InTimeOrder(ops) && IsCounter(ops, key, ttl)
    requires ops != [] ==> ops[|ops| - 1].time <= now
    ensures Shows(Run(ops), key, Stamps(Hits(ops, key, ttl), ttl), ttl, now)
  {
    if ops != [] {
      var k := |ops| - 1;
      CounterShowsHits(ops[..k], key, ttl, ops[k].time);
      CounterStep(Run(ops[..k]), ops[k], key, Hits(ops[..k], key, ttl), ttl);
    }
  }

  lemma CounterStep(data: Data, t: Timed, key: Key, hits: seq<real>, ttl: real)
    requires Shows(data, key, Stamps(hits, ttl), ttl, t.time)
    requires t.op.key == key ==> t.op == GetOp(key) || t.op == IncrOp(key, ttl)
    ensures Shows(Apply(data, t), key,
                  Stamps(hits + if t.op == IncrOp(key, ttl) then [t.time] else [], ttl), ttl, t.time)
  {
    if t.op == IncrOp(key, ttl) {
      assert (hits + [t.time])[..|hits|] == hits;
    } else {
      assert hits + [] == hits;
    }
  }

  /** The count an increment returns is the rank of its hit. */
  lemma IncrementReturnsRank(ops: seq<Timed>, key: Key, ttl: real, now: real)
    requires InTimeOrder(ops) && IsCounter(ops, key, ttl)
    requires ops != [] ==> ops[|ops| - 1].time <= now
    ensures var hits := Stamps(Hits(ops, key, ttl), ttl);
            Incremented(Run(ops), key, now) == Some(Next(hits, now, ttl).count)
  {
    CounterShowsHits(ops, key, ttl, now);
    ShownCount(Run(ops), key, Stamps(Hits(ops, key, ttl), ttl), ttl, now);
  }

  lemma ShownCount(data: Data, key: Key, hits: seq<Stamp>, ttl: real, now: real)
    requires Shows(data, key, hits, ttl, now)
    ensures Incremented(data, key, now) == Some(Next(hits, now, ttl).count)
  {
  }

  lemma {:induction false} HitsInOrder(ops: seq<Timed>, key: Key, ttl: real)
    requires InTimeOrder(ops)
    ensures NonDecreasing(Hits(ops, key, ttl))
    ensures forall i | 0 <= i < |Hits(ops, key, ttl)| ::
              ops != [] && Hits(ops, key, ttl)[i] <= ops[|ops| - 1].time
  {
    if ops != [] {
      HitsInOrder(ops[..|ops| - 1], key, ttl);
    }
  }
}
