/** The TTL cache: a dictionary that drops expired entries when it happens to look at them, against a plain map in
    which expired entries are simply absent. */
module TimedMap {
  import opened Options

  datatype Entry<V> = Entry(value: V, expires: Option<real>)

  type Table<V> = map<string, Entry<V>>

  /** How stored values are read as counters and counters stored; int(value) may fail. */
  datatype Numbers<!V> = Numbers(toInt: V -> Option<int>, ofInt: int -> V)

  datatype Op<V> = Get(key: string) | Set(key: string, value: V, ttl: Option<real>)
                 | Incr(key: string, amount: int, ttl: Option<real>) | Expire(key: string, after: real)
                 | Delete(key: string) | Stats | Clear

  datatype Answer<V> = Found(value: Option<V>) | Counted(n: int) | Answered(ok: bool)
                     | Report(size: nat, hits: nat, misses: nat) | Failed | Done

  predicate Expired<V>(e: Entry<V>, now: real) {
    e.expires.Some? && e.expires.value <= now
  }

  /** The entry for key as far as anyone may see it. */
  function Live<V>(data: Table<V>, key: string, now: real): Option<Entry<V>> {
    if key in data && !Expired(data[key], now) then Some(data[key]) else None
  }

  function LiveKeys<V>(data: Table<V>, now: real): set<string> {
    set key | key in data && !Expired(data[key], now)
  }

  function Until(now: real, ttl: Option<real>): Option<real> {
    if ttl.Some? then Some(now + ttl.value) else None
  }

  /** The plain timed map: nothing is ever dropped behind the caller's back. */
  datatype Plain<V> = Plain(entries: Table<V>, hits: nat, misses: nat)

  function PlainStep<V>(ns: Numbers<V>, s: Plain<V>, op: Op<V>, now: real): (Plain<V>, Answer<V>) {
    match op
    case Get(key) =>
      (match Live(s.entries, key, now)
       case Some(e) => (s.(hits := s.hits + 1), Found(Some(e.value)))
       case None => (s.(misses := s.misses + 1), Found(None)))
    case Set(key, value, ttl) => (s.(entries := s.entries[key := Entry(value, Until(now, ttl))]), Done)
    case Incr(key, amount, ttl) =>
      (match Live(s.entries, key, now)
       case None => (s.(entries := s.entries[key := Entry(ns.ofInt(amount), Until(now, ttl))]), Counted(amount))
       case Some(e) =>
         match ns.toInt(e.value)
         case None => (s, Failed)
         case Some(n) => (s.(entries := s.entries[key := Entry(ns.ofInt(n + amount), e.expires)]), Counted(n + amount)))
    case Expire(key, after) =>
      (match Live(s.entries, key, now)
       case None => (s, Answered(false))
       case Some(e) => (s.(entries := s.entries[key := Entry(e.value, Some(now + after))]), Answered(true)))
    case Delete(key) => (s.(entries := s.entries - {key}), Answered(Live(s.entries, key, now).Some?))
    case Stats => (s, Report(|LiveKeys(s.entries, now)|, s.hits, s.misses))
    case Clear => (Plain(map[], 0, 0), Done)
  }

  /** Two tables that nobody can tell apart from now on. */
  ghost predicate Alike<V>(a: Table<V>, b: Table<V>, now: real) {
    forall key: string :: Live(a, key, now) == Live(b, key, now)
  }

  lemma AlikeLater<V>(a: Table<V>, b: Table<V>, now: real, later: real)
    requires Alike(a, b, now) && now <= later
    ensures Alike(a, b, later)
  {
    forall key: string ensures Live(a, key, later) == Live(b, key, later) {
      assert Live(a, key, now) == Live(b, key, now);
    }
  }

  lemma AlikeKeys<V>(a: Table<V>, b: Table<V>, now: real)
    requires Alike(a, b, now)
    ensures LiveKeys(a, now) == LiveKeys(b, now)
  {
    forall key: string ensures key in LiveKeys(a, now) <==> key in LiveKeys(b, now) {
      assert Live(a, key, now) == Live(b, key, now);
    }
  }
}

module MemoryCache {
  import opened Options
  import opened TimedMap

  function Purged<V>(data: Table<V>, now: real): (left: Table<V>)
    ensures forall key :: key in left <==> key in data && !Expired(data[key], now)
    ensures forall key :: key in left ==> left[key] == data[key]
  {
    map key | key in data && !Expired(data[key], now) :: data[key]
  }

  /** The dictionary after an operation, with its lazy drops and its purge whenever a multiple of 256 entries is
      stored. */
  function StepData<V>(ns: Numbers<V>, data: Table<V>, op: Op<V>, now: real): Table<V> {
    match op
    case Get(key) => if key in data && Expired(data[key], now) then data - {key} else data
    case Set(key, value, ttl) =>
      var d := data[key := Entry(value, Until(now, ttl))];
      if |d| % 256 == 0 then Purged(d, now) else d
    case Incr(key, amount, ttl) =>
      (match Live(data, key, now)
       case None => data[key := Entry(ns.ofInt(amount), Until(now, ttl))]
       case Some(e) =>
         match ns.toInt(e.value)
         case None => data
         case Some(n) => data[key := Entry(ns.ofInt(n + amount), e.expires)])
    case Expire(key, after) =>
      (match Live(data, key, now)
       case None => data
       case Some(e) => data[key := Entry(e.value, Some(now + after))])
    case Delete(key) => data - {key}
    case Stats => Purged(data, now)
    case Clear => map[]
  }

  function StepHits<V>(data: Table<V>, hits: nat, op: Op<V>, now: real): nat {
    if op.Clear? then 0 else if op.Get? && Live(data, op.key, now).Some? then hits + 1 else hits
  }

  function StepMisses<V>(data: Table<V>, misses: nat, op: Op<V>, now: real): nat {
    if op.Clear? then 0 else if op.Get? && Live(data, op.key, now).None? then misses + 1 else misses
  }

  function StepAnswer<V>(ns: Numbers<V>, data: Table<V>, hits: nat, misses: nat, op: Op<V>, now: real): Answer<V> {
    match op
    case Get(key) => Found(match Live(data, key, now) case Some(e) => Some(e.value) case None => None)
    case Set(_, _, _) => Done
    case Incr(key, amount, _) =>
      (match Live(data, key, now)
       case None => Counted(amount)
       case Some(e) => match ns.toInt(e.value) case None => Failed case Some(n) => Counted(n + amount))
    case Expire(key, _) => Answered(Live(data, key, now).Some?)
    case Delete(key) => Answered(key in data)
    case Stats => Report(|Purged(data, now)|, hits, misses)
    case Clear => Done
  }

  class MemoryCache<V> {
    const ns: Numbers<V>
    var data: Table<V>
    var hits: nat
    var misses: nat

    constructor (ns: Numbers<V>)
      ensures this.ns == ns && data == map[] && hits == 0 && misses == 0
    {
      this.ns, data, hits, misses := ns, map[], 0, 0;
    }

    /** What the operation op, done at time now, leaves behind. */
    twostate predicate Did(op: Op<V>, now: real)
      reads this
    {
      && data == StepData(ns, old(data), op, now)
      && hits == StepHits(old(data), old(hits), op, now)
      && misses == StepMisses(old(data), old(misses), op, now)
    }

    method Purge(now: real)
      modifies this`data
      ensures data == Purged(old(data), now)
    {
      data := Purged(data, now);
    }

    method Get(key: string, now: real) returns (value: Option<V>)
      modifies this
      ensures Did(Op.Get(key), now)
      ensures Found(value) == StepAnswer(ns, old(data), old(hits), old(misses), Op.Get(key), now)
    {
      if key !in data {
        misses := misses + 1;
        return None;
      }
      var e := data[key];
      if Expired(e, now) {
        data := data - {key};
        misses := misses + 1;
        return None;
      }
      hits := hits + 1;
      value := Some(e.value);
    }

    method Set(key: string, value: V, ttl: Option<real>, now: real)
      modifies this`data
      ensures Did(Op.Set(key, value, ttl), now)
    {
      data := data[key := Entry(value, Until(now, ttl))];
      if |data| % 256 == 0 { Purge(now); }
    }

    /** None when int(value) fails; nothing changes then. */
    method Incr(key: string, amount: int, ttl: Option<real>, now: real) returns (count: Option<int>)
      modifies this`data
      ensures Did(Op.Incr(key, amount, ttl), now)
      ensures (if count.Some? then Counted(count.value) else Failed)
              == StepAnswer(ns, old(data), hits, misses, Op.Incr(key, amount, ttl), now)
    {
      if key !in data || Expired(data[key], now) {
        data := data[key := Entry(ns.ofInt(amount), Until(now, ttl))];
        return Some(amount);
      }
      var e := data[key];
      var n := ns.toInt(e.value);
      if n.None? { return None; }
      data := data[key := Entry(ns.ofInt(n.value + amount), e.expires)];
      count := Some(n.value + amount);
    }

    method Expire(key: string, after: real, now: real) returns (ok: bool)
      modifies this`data
      ensures Did(Op.Expire(key, after), now)
      ensures Answered(ok) == StepAnswer(ns, old(data), hits, misses, Op.Expire(key, after), now)
    {
      if key !in data || Expired(data[key], now) { return false; }
      data := data[key := Entry(data[key].value, Some(now + after))];
      ok := true;
    }

    method Delete(key: string, now: real) returns (ok: bool)
      modifies this`data
      ensures Did(Op.Delete(key), now)
      ensures Answered(ok) == StepAnswer(ns, old(data), hits, misses, Op.Delete(key), now)
    {
      ok := key in data;
      data := data - {key};
    }

    method Stats(now: real) returns (size: nat, hitCount: nat, missCount: nat)
      modifies this`data
      ensures Did(Op.Stats, now)
      ensures Report(size, hitCount, missCount) == StepAnswer(ns, old(data), hits, misses, Op.Stats, now)
    {
      Purge(now);
      size, hitCount, missCount := |data|, hits, misses;
    }

    method Clear(now: real)
      modifies this
      ensures Did(Op.Clear, now)
    {
      data, hits, misses := map[], 0, 0;
    }
  }

  // --- refinement ---------------------------------------------------------------------------------

  /** A cache state as a value. */
  datatype State<V> = State(data: Table<V>, hits: nat, misses: nat)

  function Step<V>(ns: Numbers<V>, s: State<V>, op: Op<V>, now: real): (State<V>, Answer<V>) {
    (State(StepData(ns, s.data, op, now), StepHits(s.data, s.hits, op, now), StepMisses(s.data, s.misses, op, now)),
     StepAnswer(ns, s.data, s.hits, s.misses, op, now))
  }

  ghost predicate Refines<V>(c: State<V>, p: Plain<V>, now: real) {
    Alike(c.data, p.entries, now) && c.hits == p.hits && c.misses == p.misses
  }

  /** The operation deletes an expired entry that is still stored. */
  predicate Leftover<V>(data: Table<V>, op: Op<V>, now: real) {
    op.Delete? && op.key in data && Expired(data[op.key], now)
  }

  /** Answers agree, except that deleting may report success where the map has nothing. */
  ghost predicate Agree<V>(op: Op<V>, a: Answer<V>, b: Answer<V>) {
    if op.Delete? then a.Answered? && b.Answered? && (b.ok ==> a.ok) else a == b
  }

  lemma PurgedAlike<V>(data: Table<V>, now: real)
    ensures Alike(Purged(data, now), data, now)
    ensures Purged(data, now).Keys == LiveKeys(data, now) && |Purged(data, now)| == |LiveKeys(data, now)|
  {
    assert |Purged(data, now)| == |Purged(data, now).Keys|;
  }

  lemma StoreAlike<V>(a: Table<V>, b: Table<V>, key: string, e: Entry<V>, now: real)
    requires Alike(a, b, now)
    ensures Alike(a[key := e], b[key := e], now) && Alike(Purged(a[key := e], now), b[key := e], now)
  {
    var more, other := a[key := e], b[key := e];
    forall k: string ensures Live(more, k, now) == Live(other, k, now) {
      assert Live(a, k, now) == Live(b, k, now);
    }
    PurgedAlike(a[key := e], now);
  }

  lemma RemoveAlike<V>(a: Table<V>, b: Table<V>, key: string, now: real)
    requires Alike(a, b, now)
    ensures Alike(a - {key}, b - {key}, now)
    ensures Live(b, key, now).None? ==> Alike(a - {key}, b, now)
  {
    var fewer, other := a - {key}, b - {key};
    forall k: string ensures Live(fewer, k, now) == Live(other, k, now) {
      assert Live(a, k, now) == Live(b, k, now);
    }
    if Live(b, key, now).None? {
      forall k: string ensures Live(fewer, k, now) == Live(b, k, now) {
        assert Live(a, k, now) == Live(b, k, now);
      }
    }
  }

  lemma DataRefines<V>(ns: Numbers<V>, data: Table<V>, p: Plain<V>, op: Op<V>, now: real)
    requires Alike(data, p.entries, now)
    ensures Alike(StepData(ns, data, op, now), PlainStep(ns, p, op, now).0.entries, now)
  {
    match op
    case Get(key) =>
      assert Live(data, key, now) == Live(p.entries, key, now);
      RemoveAlike(data, p.entries, key, now);
    case Set(key, value, ttl) => StoreAlike(data, p.entries, key, Entry(value, Until(now, ttl)), now);
    case Incr(key, amount, ttl) =>
      var l := Live(data, key, now);
      assert l == Live(p.entries, key, now);
      if l.None? {
        StoreAlike(data, p.entries, key, Entry(ns.ofInt(amount), Until(now, ttl)), now);
      } else if ns.toInt(l.value.value).Some? {
        var e := Entry(ns.ofInt(ns.toInt(l.value.value).value + amount), l.value.expires);
        StoreAlike(data, p.entries, key, e, now);
      }
    case Expire(key, after) =>
      var l := Live(data, key, now);
      assert l == Live(p.entries, key, now);
      if l.Some? { StoreAlike(data, p.entries, key, Entry(l.value.value, Some(now + after)), now); }
    case Delete(key) => RemoveAlike(data, p.entries, key, now);
    case Stats => PurgedAlike(data, now);
    case Clear =>
  }

  lemma StepRefines<V>(ns: Numbers<V>, c: State<V>, p: Plain<V>, op: Op<V>, now: real)
    requires Refines(c, p, now)
    ensures Refines(Step(ns, c, op, now).0, PlainStep(ns, p, op, now).0, now)
    ensures Agree(op, Step(ns, c, op, now).1, PlainStep(ns, p, op, now).1)
    ensures Step(ns, c, op, now).1 == PlainStep(ns, p, op, now).1 <==> !Leftover(c.data, op, now)
  {
    DataRefines(ns, c.data, p, op, now);
    PurgedAlike(c.data, now);
    AlikeKeys(c.data, p.entries, now);
    if op.Get? || op.Set? || op.Incr? || op.Expire? || op.Delete? {
      assert Live(c.data, op.key, now) == Live(p.entries, op.key, now);
    }
  }

  datatype Call<V> = Call(op: Op<V>, time: real)

  ghost predicate InOrder<V>(calls: seq<Call<V>>, from: real) {
    && (forall i :: 0 <= i < |calls| ==> from <= calls[i].time)
    && (forall i, j :: 0 <= i < j < |calls| ==> calls[i].time <= calls[j].time)
  }

  function Answers<V>(ns: Numbers<V>, s: State<V>, calls: seq<Call<V>>): (r: seq<Answer<V>>)
    ensures |r| == |calls|
    decreases |calls|
  {
    if calls == [] then []
    else
      var (next, a) := Step(ns, s, calls[0].op, calls[0].time);
      [a] + Answers(ns, next, calls[1..])
  }

  function PlainAnswers<V>(ns: Numbers<V>, s: Plain<V>, calls: seq<Call<V>>): (r: seq<Answer<V>>)
    ensures |r| == |calls|
    decreases |calls|
  {
    if calls == [] then []
    else
      var (next, a) := PlainStep(ns, s, calls[0].op, calls[0].time);
      [a] + PlainAnswers(ns, next, calls[1..])
  }

  function After<V>(ns: Numbers<V>, s: State<V>, calls: seq<Call<V>>): State<V>
    decreases |calls|
  {
    if calls == [] then s else After(ns, Step(ns, s, calls[0].op, calls[0].time).0, calls[1..])
  }

  /** Answer i is the plain map's, unless the call deletes an expired entry that the cache has not dropped yet: exactly
      then it reports success and the map does not. */
  ghost predicate AgreesAt<V>(ns: Numbers<V>, c: State<V>, p: Plain<V>, calls: seq<Call<V>>, i: nat)
    requires i < |calls|
  {
    var a, b := Answers(ns, c, calls)[i], PlainAnswers(ns, p, calls)[i];
    && Agree(calls[i].op, a, b)
    && (a == b <==> !Leftover(After(ns, c, calls[..i]).data, calls[i].op, calls[i].time))
  }

  /** For every sequence of calls at non-decreasing times, the cache answers like the plain timed map, whatever it
      dropped on the way. */
  lemma {:induction false} CacheRefinesMap<V>(ns: Numbers<V>, c: State<V>, p: Plain<V>, calls: seq<Call<V>>, from: real)
    requires Refines(c, p, from) && InOrder(calls, from)
    ensures forall i :: 0 <= i < |calls| ==> AgreesAt(ns, c, p, calls, i)
    decreases |calls|
  {
    if calls != [] {
      var op, now := calls[0].op, calls[0].time;
      AlikeLater(c.data, p.entries, from, now);
      StepRefines(ns, c, p, op, now);
      var rest := calls[1..];
      forall i | 0 <= i < |rest| ensures now <= rest[i].time { assert calls[0].time <= calls[i + 1].time; }
      CacheRefinesMap(ns, Step(ns, c, op, now).0, PlainStep(ns, p, op, now).0, rest, now);
      forall i | 0 <= i < |calls| ensures AgreesAt(ns, c, p, calls, i) {
        if i > 0 { AgreesLater(ns, c, p, calls, i); }
      }
    }
  }

  lemma AgreesLater<V>(ns: Numbers<V>, c: State<V>, p: Plain<V>, calls: seq<Call<V>>, i: nat)
    requires 0 < i < |calls|
    requires AgreesAt(ns, Step(ns, c, calls[0].op, calls[0].time).0, PlainStep(ns, p, calls[0].op, calls[0].time).0,
                      calls[1..], i - 1)
    ensures AgreesAt(ns, c, p, calls, i)
  {
    assert calls[..i][1..] == calls[1..][..i - 1];
    assert calls[1..][i - 1] == calls[i];
  }

  function ReadsNow<V>(op: Op<V>, before: nat): nat {
    if op.Clear? then 0 else if op.Get? then before + 1 else before
  }

  /** The number of reads since the last clear. */
  function ReadsSinceClear<V>(calls: seq<Call<V>>, before: nat): nat {
    if calls == [] then before else ReadsSinceClear(calls[1..], ReadsNow(calls[0].op, before))
  }

  lemma FirstCall<V>(ns: Numbers<V>, s: State<V>, calls: seq<Call<V>>) returns (next: State<V>)
    requires calls != []
    ensures After(ns, s, calls) == After(ns, next, calls[1..])
    ensures next.hits + next.misses == ReadsNow(calls[0].op, s.hits + s.misses)
  {
    next := Step(ns, s, calls[0].op, calls[0].time).0;
  }

  lemma {:induction false} ReadsFrom<V>(ns: Numbers<V>, s: State<V>, calls: seq<Call<V>>, before: nat)
    requires before == s.hits + s.misses
    ensures After(ns, s, calls).hits + After(ns, s, calls).misses == ReadsSinceClear(calls, before)
    decreases |calls|
  {
    if calls != [] {
      var next := FirstCall(ns, s, calls);
      ReadsFrom(ns, next, calls[1..], ReadsNow(calls[0].op, before));
    }
  }

  /** Every read is a hit or a miss. */
  lemma HitsAndMissesAreReads<V>(ns: Numbers<V>, s: State<V>, calls: seq<Call<V>>)
    ensures After(ns, s, calls).hits + After(ns, s, calls).misses == ReadsSinceClear(calls, s.hits + s.misses)
  {
    ReadsFrom(ns, s, calls, s.hits + s.misses);
  }
}
