/**
 The token bucket of internal/ratelimiter/ratelimiter.go: one entry an address, and a garbage collection that drops
 entries not used for a second. Time is a monotone number of nanoseconds.
 */
module RateLimiter {
  import opened Common

  const PACKET_COST := 1_000_000_000 / 20
  const MAX_TOKENS := PACKET_COST * 5
  const GARBAGE_COLLECT_TIME := 1_000_000_000

  /** What `n` packets cost. */
  function Cost(n: nat): (r: nat)
    ensures n == 1 ==> r == PACKET_COST
  {
    n * 50_000_000
  }

  type Addr = nat

  datatype Entry = Entry(lastTime: nat, tokens: int)

  type Table = map<Addr, Entry>

  // ---- One address -----------------------------------------------------------------------------

  /** One request: the entry afterwards, and whether it is allowed. */
  function Request(e: Option<Entry>, now: nat): (Entry, bool) {
    if e.None? then (Entry(now, MAX_TOKENS - PACKET_COST), true)
    else
      var filled := e.value.tokens + now - e.value.lastTime;
      var tokens := if filled > MAX_TOKENS then MAX_TOKENS else filled;
      if tokens > PACKET_COST then (Entry(now, tokens - PACKET_COST), true) else (Entry(now, tokens), false)
  }

  function Answers(e: Option<Entry>, times: seq<nat>): (r: seq<bool>)
    ensures |r| == |times|
    decreases times
  {
    if times == [] then []
    else [Request(e, times[0]).1] + Answers(Some(Request(e, times[0]).0), times[1..])
  }

  ghost predicate Monotone(times: seq<nat>) {
    forall i, j :: 0 <= i <= j < |times| ==> times[i] <= times[j]
  }

  lemma MonotoneTail(times: seq<nat>)
    requires times != [] && Monotone(times)
    ensures Monotone(times[1..])
  {
    var rest := times[1..];
    forall a, b | 0 <= a <= b < |rest| ensures rest[a] <= rest[b] {
      assert times[a + 1] <= times[b + 1];
    }
  }

  lemma MonotoneCons(x: nat, later: seq<nat>)
    requires Monotone(later) && (later != [] ==> x <= later[0])
    ensures Monotone([x] + later)
  {
    var times := [x] + later;
    forall i, j | 0 <= i <= j < |times| ensures times[i] <= times[j] {
      if i > 0 {
        assert later[i - 1] <= later[j - 1];
      } else if j > 0 {
        assert later[0] <= later[j - 1];
      }
    }
  }

  /** There is always a token left, and never a full purse. */
  predicate Solvent(e: Option<Entry>) {
    e.Some? ==> 0 < e.value.tokens <= MAX_TOKENS
  }

  predicate NotAfter(e: Option<Entry>, now: nat) {
    e.Some? ==> e.value.lastTime <= now
  }

  function Count(answers: seq<bool>): nat {
    if answers == [] then 0 else (if answers[0] then 1 else 0) + Count(answers[1..])
  }

  /**
   With `count` packets already allowed since `from`, every later allowed packet keeps the total within the budget.
   */
  lemma {:induction false} Budget(e: Entry, times: seq<nat>, from: nat, count: nat, j: nat)
    requires Monotone(times) && j < |times| && from <= e.lastTime <= times[0]
    requires 0 < e.tokens <= MAX_TOKENS + (e.lastTime - from) - Cost(count)
    requires Answers(Some(e), times)[j]
    ensures Cost(count + Count(Answers(Some(e), times)[..j + 1])) < MAX_TOKENS + (times[j] - from)
    decreases times
  {
    var answers := Answers(Some(e), times);
    var (e', ok) := Request(Some(e), times[0]);
    assert answers[..j + 1][1..] == answers[1..][..j];
    var count' := if ok then count + 1 else count;
    if j > 0 {
      var rest := times[1..];
      MonotoneTail(times);
      assert times[0] <= times[1];
      assert answers[1..] == Answers(Some(e'), rest);
      Budget(e', rest, from, count', j - 1);
    } else {
      assert Count(answers[1..][..0]) == 0;
    }
  }

  /** The bound for a stretch that begins with the first request. */
  lemma StretchFromStart(e: Option<Entry>, times: seq<nat>, j: nat)
    requires Solvent(e) && Monotone(times) && j < |times| && NotAfter(e, times[0])
    requires Answers(e, times)[0] && Answers(e, times)[j]
    ensures Cost(Count(Answers(e, times)[..j + 1])) < MAX_TOKENS + (times[j] - times[0])
  {
    var answers, e', rest := Answers(e, times), Request(e, times[0]).0, times[1..];
    if j > 0 {
      MonotoneTail(times);
      assert times[0] <= times[1];
      Budget(e', rest, times[0], 1, j - 1);
      AnswersTail(e, times, 1, j);
      assert answers[..j + 1][1..] == answers[1..j + 1];
    } else {
      assert answers[..1][1..] == [];
    }
  }

  lemma ConsSlice(x: bool, rest: seq<bool>, i: nat, j: nat)
    requires 0 < i <= j <= |rest|
    ensures ([x] + rest)[i..j + 1] == rest[i - 1..j] && ([x] + rest)[i] == rest[i - 1] && ([x] + rest)[j] == rest[j - 1]
  {}

  lemma AnswersTail(e: Option<Entry>, times: seq<nat>, i: nat, j: nat)
    requires 0 < i <= j < |times|
    ensures var rest := Answers(Some(Request(e, times[0]).0), times[1..]);
            Answers(e, times)[i..j + 1] == rest[i - 1..j] && Answers(e, times)[i] == rest[i - 1]
            && Answers(e, times)[j] == rest[j - 1]
  {
    var (e', ok) := Request(e, times[0]);
    ConsSlice(ok, Answers(Some(e'), times[1..]), i, j);
  }

  lemma RequestKeeps(e: Option<Entry>, now: nat)
    requires Solvent(e) && NotAfter(e, now)
    ensures Solvent(Some(Request(e, now).0)) && Request(e, now).0.lastTime == now
  {}

  /**
   In any stretch of requests from one address, the packets allowed cost less than a full purse plus the time it took.
   */
  lemma {:induction false} RateBound(e: Option<Entry>, times: seq<nat>, i: nat, j: nat)
    requires Solvent(e) && Monotone(times) && i <= j < |times| && NotAfter(e, times[0])
    requires Answers(e, times)[i] && Answers(e, times)[j]
    ensures Cost(Count(Answers(e, times)[i..j + 1])) < MAX_TOKENS + (times[j] - times[i])
    decreases times
  {
    if i > 0 {
      MonotoneTail(times);
      assert times[0] <= times[1];
      AnswersTail(e, times, i, j);
      RequestKeeps(e, times[0]);
      RateBound(Some(Request(e, times[0]).0), times[1..], i - 1, j - 1);
    } else {
      StretchFromStart(e, times, j);
    }
  }

  /** A request at least one packet's cost after the previous one is always allowed, and so is the first of all. */
  lemma {:induction false} SlowEnoughIsAllowed(e: Option<Entry>, times: seq<nat>, i: nat)
    requires Solvent(e) && Monotone(times) && i < |times| && NotAfter(e, times[0])
    requires if i == 0 then e.Some? ==> times[0] >= e.value.lastTime + PACKET_COST
             else times[i] >= times[i - 1] + PACKET_COST
    ensures Answers(e, times)[i]
    decreases times
  {
    if i > 0 {
      var rest := times[1..];
      MonotoneTail(times);
      assert times[0] <= times[1];
      SlowEnoughIsAllowed(Some(Request(e, times[0]).0), rest, i - 1);
    }
  }

  function Elapsed(from: nat, to: nat): int {
    to - from
  }

  /** With one more at its end, the packets allowed in the stretch cost less than a full purse and the time it took. */
  predicate StretchFits(answers: seq<bool>, times: seq<nat>, i: nat, j: nat)
    requires i <= j < |times| == |answers|
  {
    Cost(Count(answers[i..j]) + 1) < MAX_TOKENS + Elapsed(times[i], times[j])
  }

  /** The packets allowed since the entry was made, and one more, cost less than was in its purse and the time since. */
  predicate PurseFits(e: Option<Entry>, count: nat, at: nat) {
    e.Some? ==> Cost(count + 1) < e.value.tokens + Elapsed(e.value.lastTime, at)
  }

  ghost predicate Within(e: Option<Entry>, times: seq<nat>, j: nat)
    requires j < |times|
  {
    && (forall i | 0 <= i <= j :: StretchFits(Answers(e, times), times, i, j))
    && PurseFits(e, Count(Answers(e, times)[0..j]), times[j])
  }

  /** What is left of a stretch without its first request, and what that one adds. */
  lemma WithoutFirst(e: Option<Entry>, times: seq<nat>, j: nat)
    requires 0 < j < |times|
    ensures var (answers, rest) := (Answers(e, times), Answers(Some(Request(e, times[0]).0), times[1..]));
            && answers[j] == rest[j - 1]
            && Count(answers[0..j]) == (if Request(e, times[0]).1 then 1 else 0) + Count(rest[0..j - 1])
            && (forall i | 1 <= i <= j :: answers[i..j] == rest[i - 1..j - 1])
  {
    var answers, rest := Answers(e, times), Answers(Some(Request(e, times[0]).0), times[1..]);
    assert answers == [Request(e, times[0]).1] + rest;
    assert answers[0..j][1..] == rest[0..j - 1];
  }

  lemma WithinStep(e: Option<Entry>, times: seq<nat>, j: nat)
    requires 0 < j < |times|
    ensures Within(e, times, j) <==> Within(Some(Request(e, times[0]).0), times[1..], j - 1)
  {
    var (e', ok) := Request(e, times[0]);
    var answers, rest := Answers(e, times), Answers(Some(e'), times[1..]);
    WithoutFirst(e, times, j);
    FirstStretch(e, times[0], Count(rest[0..j - 1]), times[j]);
    var later, last := times[1..], j - 1;
    if Within(e, times, j) {
      assert StretchFits(answers, times, 0, j);
      forall i | 0 <= i <= last ensures StretchFits(rest, later, i, last) {
        assert StretchFits(answers, times, i + 1, j) && answers[i + 1..j] == rest[i + 1 - 1..j - 1];
      }
    }
    if Within(Some(e'), times[1..], j - 1) {
      forall i | 0 <= i <= j ensures StretchFits(answers, times, i, j) {
        if i > 0 {
          assert StretchFits(rest, times[1..], i - 1, j - 1) && answers[i..j] == rest[i - 1..j - 1];
        }
      }
    }
  }

  /** The stretch that begins with the first request, and the purse it found. */
  lemma FirstStretch(e: Option<Entry>, first: nat, later: nat, at: nat)
    ensures var (e', ok) := Request(e, first);
            var count := (if ok then 1 else 0) + later;
            PurseFits(Some(e'), later, at) <==>
            Cost(count + 1) < MAX_TOKENS + Elapsed(first, at) && PurseFits(e, count, at)
  {}

  /** A request is allowed if and only if it keeps every stretch that ends with it within the bound. */
  lemma {:induction false} AllowedExactly(e: Option<Entry>, times: seq<nat>, j: nat)
    requires j < |times|
    ensures Answers(e, times)[j] <==> Within(e, times, j)
    decreases times
  {
    if j == 0 {
      var answers := Answers(e, times);
      assert answers[0..0] == [] && Cost(Count(answers[0..0]) + 1) == PACKET_COST;
    } else {
      AllowedExactly(Some(Request(e, times[0]).0), times[1..], j - 1);
      WithoutFirst(e, times, j);
      WithinStep(e, times, j);
    }
  }

  // ---- The table -------------------------------------------------------------------------------

  function Get(t: Table, ip: Addr): Option<Entry> {
    if ip in t then Some(t[ip]) else None
  }

  /** What happens to an entry: a request, or a look of the collector. Each reads the clock by itself. */
  datatype Event = Allow(ip: Addr, now: nat) | Look(ip: Addr, now: nat)

  function After(t: Table, ev: Event): Table {
    match ev
    case Allow(ip, now) => t[ip := Request(Get(t, ip), now).0]
    case Look(ip, now) => if ip in t && now - t[ip].lastTime > GARBAGE_COLLECT_TIME then t - {ip} else t
  }

  function Final(t: Table, events: seq<Event>): Table
    decreases events
  {
    if events == [] then t else Final(After(t, events[0]), events[1..])
  }

  /** The answers to the requests. */
  function Replies(t: Table, events: seq<Event>): seq<bool>
    decreases events
  {
    if events == [] then []
    else (if events[0].Allow? then [Request(Get(t, events[0].ip), events[0].now).1] else []) +
         Replies(After(t, events[0]), events[1..])
  }

  function Requests(events: seq<Event>): seq<Event>
    decreases events
  {
    if events == [] then [] else (if events[0].Allow? then [events[0]] else []) + Requests(events[1..])
  }

  /** For each address by itself, time does not go back. */
  ghost predicate Ordered(events: seq<Event>) {
    forall i, j | 0 <= i < j < |events| && events[i].ip == events[j].ip :: events[i].now <= events[j].now
  }

  lemma OrderedTail(events: seq<Event>)
    requires events != [] && Ordered(events)
    ensures Ordered(events[1..])
    ensures forall j | 0 <= j < |events[1..]| && events[1..][j].ip == events[0].ip ::
              events[0].now <= events[1..][j].now
  {
    var rest := events[1..];
    forall i, j | 0 <= i < j < |rest| && rest[i].ip == rest[j].ip ensures rest[i].now <= rest[j].now {
      assert rest[i] == events[i + 1] && rest[j] == events[j + 1];
    }
    forall j | 0 <= j < |rest| && rest[j].ip == events[0].ip ensures events[0].now <= rest[j].now {
      assert rest[j] == events[j + 1];
    }
  }

  /** Everything still to come for this address comes after this time. */
  ghost predicate NothingBefore(events: seq<Event>, ip: Addr, time: int) {
    forall j | 0 <= j < |events| && events[j].ip == ip :: time <= events[j].now
  }

  lemma NothingBeforeTail(events: seq<Event>, ip: Addr, time: int)
    requires events != [] && NothingBefore(events, ip, time)
    ensures NothingBefore(events[1..], ip, time)
  {
    forall j | 0 <= j < |events[1..]| && events[1..][j].ip == ip ensures time <= events[1..][j].now {
      assert events[1..][j] == events[j + 1];
    }
  }

  /**
   The entry of an address in `t` is that in `u`, or it was dropped and would be full again by the time anything comes.
   */
  ghost predicate CleanedFor(t: Table, u: Table, events: seq<Event>, ip: Addr) {
    && (ip in t ==> ip in u && t[ip] == u[ip])
    && (ip in u ==> Solvent(Some(u[ip])) && NothingBefore(events, ip, u[ip].lastTime))
    && (ip in u && ip !in t ==> NothingBefore(events, ip, u[ip].lastTime + GARBAGE_COLLECT_TIME))
  }

  ghost predicate Cleaned(t: Table, u: Table, events: seq<Event>) {
    forall ip :: CleanedFor(t, u, events, ip)
  }

  /** A request meets a dropped entry and one that was kept all the time with the same outcome. */
  lemma RequestUnaffected(t: Table, u: Table, events: seq<Event>)
    requires events != [] && events[0].Allow? && Cleaned(t, u, events)
    ensures Request(Get(t, events[0].ip), events[0].now) == Request(Get(u, events[0].ip), events[0].now)
  {
    var ip, now := events[0].ip, events[0].now;
    assert CleanedFor(t, u, events, ip);
    assert ip in u && ip !in t ==> u[ip].tokens + now - u[ip].lastTime > MAX_TOKENS;
  }

  lemma CleanedAfter(t: Table, u: Table, events: seq<Event>)
    requires events != [] && Ordered(events) && Cleaned(t, u, events)
    ensures Cleaned(After(t, events[0]), if events[0].Allow? then After(u, events[0]) else u, events[1..])
  {
    var ev := events[0];
    var t', u' := After(t, ev), if ev.Allow? then After(u, ev) else u;
    OrderedTail(events);
    if ev.Allow? {
      RequestUnaffected(t, u, events);
    }
    forall ip ensures CleanedFor(t', u', events[1..], ip) {
      assert CleanedFor(t, u, events, ip);
      if ip in u {
        NothingBeforeTail(events, ip, u[ip].lastTime);
        if ip !in t {
          NothingBeforeTail(events, ip, u[ip].lastTime + GARBAGE_COLLECT_TIME);
        }
      }
    }
  }

  /** Any mix of requests and looks of the collector gets the answers of a table that is never cleaned. */
  lemma {:induction false} SweepingIsUnobservable(t: Table, u: Table, events: seq<Event>)
    requires Ordered(events) && Cleaned(t, u, events)
    ensures Replies(t, events) == Replies(u, Requests(events))
    decreases events
  {
    if events != [] {
      OrderedTail(events);
      CleanedAfter(t, u, events);
      if events[0].Allow? {
        RequestUnaffected(t, u, events);
        SweepingIsUnobservable(After(t, events[0]), After(u, events[0]), events[1..]);
        assert Requests(events)[1..] == Requests(events[1..]);
      } else {
        SweepingIsUnobservable(After(t, events[0]), u, events[1..]);
        assert Requests(events) == Requests(events[1..]);
      }
    }
  }

  // ---- Per address through the whole table -----------------------------------------------------

  function TimesOf(events: seq<Event>, ip: Addr): seq<nat>
    decreases events
  {
    if events == [] then []
    else (if events[0].Allow? && events[0].ip == ip then [events[0].now] else []) + TimesOf(events[1..], ip)
  }

  function RepliesFor(t: Table, events: seq<Event>, ip: Addr): seq<bool>
    decreases events
  {
    if events == [] then []
    else (if events[0].Allow? && events[0].ip == ip then [Request(Get(t, ip), events[0].now).1] else []) +
         RepliesFor(After(t, events[0]), events[1..], ip)
  }

  lemma {:induction false} TimesMonotone(events: seq<Event>, ip: Addr, time: nat)
    requires Ordered(events) && NothingBefore(events, ip, time)
    ensures Monotone(TimesOf(events, ip))
    ensures TimesOf(events, ip) != [] ==> time <= TimesOf(events, ip)[0]
    decreases events
  {
    if events != [] {
      var ev, rest := events[0], events[1..];
      OrderedTail(events);
      if ev.Allow? && ev.ip == ip {
        TimesMonotone(rest, ip, ev.now);
        MonotoneCons(ev.now, TimesOf(rest, ip));
      } else {
        NothingBeforeTail(events, ip, time);
        TimesMonotone(rest, ip, time);
        assert TimesOf(events, ip) == TimesOf(rest, ip);
      }
    }
  }

  /** Whatever other addresses do and whatever is dropped, an address is treated as if it were alone. */
  lemma {:induction false} AddressAlone(t: Table, u: Table, events: seq<Event>, ip: Addr)
    requires Ordered(events) && Cleaned(t, u, events)
    ensures RepliesFor(t, events, ip) == Answers(Get(u, ip), TimesOf(events, ip))
    decreases events
  {
    if events != [] {
      var ev, rest := events[0], events[1..];
      OrderedTail(events);
      CleanedAfter(t, u, events);
      if ev.Look? {
        AddressAlone(After(t, ev), u, rest, ip);
        assert TimesOf(events, ip) == TimesOf(rest, ip);
      } else {
        RequestUnaffected(t, u, events);
        AddressAlone(After(t, ev), After(u, ev), rest, ip);
        if ev.ip == ip {
          assert TimesOf(events, ip)[1..] == TimesOf(rest, ip);
        } else {
          assert TimesOf(events, ip) == TimesOf(rest, ip);
        }
      }
    }
  }

  /**
   From an empty table, over any history: the rate bound and the guarantee hold for every address, and a request is
   allowed exactly if it keeps every stretch of that address within the bound.
   */
  lemma LimiterGuarantees(events: seq<Event>, ip: Addr, i: nat, j: nat)
    requires Ordered(events) && i <= j < |RepliesFor(map[], events, ip)|
    ensures var replies, times := RepliesFor(map[], events, ip), TimesOf(events, ip);
            && |replies| == |times| && times[i] <= times[j]
            && (replies[i] && replies[j] ==> Cost(Count(replies[i..j + 1])) < MAX_TOKENS + (times[j] - times[i]))
            && (i == 0 || times[i] >= times[i - 1] + PACKET_COST ==> replies[i])
            && (replies[j] <==> forall k | 0 <= k <= j :: StretchFits(replies, times, k, j))
  {
    AddressAlone(map[], map[], events, ip);
    TimesMonotone(events, ip, 0);
    var times := TimesOf(events, ip);
    if Answers(None, times)[i] && Answers(None, times)[j] {
      RateBound(None, times, i, j);
    }
    if i == 0 || times[i] >= times[i - 1] + PACKET_COST {
      SlowEnoughIsAllowed(None, times, i);
    }
    AllowedExactly(None, times, j);
  }

  // ---- The mutable limiter, one caller at a time -----------------------------------------------

  class EntryObject {
    var lastTime: nat
    var tokens: int

    function Value(): Entry
      reads this
    {
      Entry(lastTime, tokens)
    }

    constructor (lastTime: nat, tokens: int)
      ensures Value() == Entry(lastTime, tokens)
    {
      this.lastTime, this.tokens := lastTime, tokens;
    }

    /** What is done under the lock of the entry. */
    method Spend(now: nat) returns (ok: bool)
      modifies this
      ensures (Value(), ok) == Request(Some(old(Value())), now)
    {
      tokens := tokens + (now - lastTime);
      lastTime := now;
      if tokens > MAX_TOKENS {
        tokens := MAX_TOKENS;
      }
      if tokens > PACKET_COST {
        tokens := tokens - PACKET_COST;
        return true;
      }
      return false;
    }
  }

  class Ratelimiter {
    var table: map<Addr, EntryObject>

    /** No entry serves two addresses. */
    ghost predicate Valid()
      reads this
    {
      forall ip, ip' | ip in table && ip' in table && ip != ip' :: table[ip] != table[ip']
    }

    ghost function Value(): Table
      reads this, table.Values
    {
      map ip | ip in table :: table[ip].Value()
    }

    constructor ()
      ensures Valid() && Value() == map[]
    {
      table := map[];
    }

    method Allow(ip: Addr, now: nat) returns (ok: bool)
      requires Valid()
      modifies this, table.Values
      ensures Valid()
      ensures Value() == After(old(Value()), Event.Allow(ip, now))
      ensures ok == Request(Get(old(Value()), ip), now).1
    {
      if ip !in table {
        var fresh' := new EntryObject(now, MAX_TOKENS - PACKET_COST);
        table := table[ip := fresh'];
        assert Value() == old(Value())[ip := fresh'.Value()];
        return true;
      }
      var entry := table[ip];
      ok := entry.Spend(now);
      forall q | q in table && q != ip ensures table[q].Value() == old(table[q].Value()) {
        assert table[q] != entry;
      }
      assert Value() == old(Value())[ip := entry.Value()];
    }

    lemma SameKeys()
      ensures Value().Keys == table.Keys && |Value()| == |table|
    {
      assert Value().Keys == table.Keys;
    }

    /** What is done with one entry under both locks. */
    method LookAt(ip: Addr, now: nat)
      requires Valid() && ip in table
      modifies this`table
      ensures Valid() && Value() == After(old(Value()), Look(ip, now))
    {
      if now - table[ip].lastTime > GARBAGE_COLLECT_TIME {
        table := table - {ip};
      }
      assert Value() == After(old(Value()), Look(ip, now));
    }

    /** The same as a step of a sweep. */
    method LookNext(key: Addr, clock: seq<nat>, i: nat, ghost t0: Table, ghost looks: seq<Event>, ghost keys: set<Addr>)
      requires Valid() && key in keys && |looks| == i && Sweeping(t0, Value(), looks, clock, keys)
      modifies this`table
      ensures Valid() && i < |clock| && Sweeping(t0, Value(), looks + [Look(key, clock[i])], clock, keys - {key})
    {
      SameKeys();
      SweepStep(t0, Value(), looks, clock, keys, key);
      LookAt(key, clock[i]);
    }

    /** Each entry is judged once, by its own look at the clock, in whatever order the entries come. */
    method Cleanup(clock: seq<nat>) returns (empty: bool, ghost looks: seq<Event>)
      requires Valid() && |clock| == |table|
      modifies this`table
      ensures Valid() && Value() == Final(old(Value()), looks)
      ensures LooksAt(looks, clock) && Addresses(looks) == old(table).Keys && |looks| == |old(table)|
      ensures Swept(old(Value()), Value(), looks, {})
      ensures empty <==> table == map[]
    {
      var keys := table.Keys;
      var i := 0;
      ghost var t0 := Value();
      SameKeys();
      SweepStarts(t0, clock);
      looks := [];
      while keys != {}
        invariant Valid() && |looks| == i && Sweeping(t0, Value(), looks, clock, keys)
        decreases |keys|
      {
        var key :| key in keys;
        LookNext(key, clock, i, t0, looks, keys);
        looks := looks + [Look(key, clock[i])];
        keys := keys - {key};
        i := i + 1;
      }
      SweepEnds(t0, Value(), looks, clock);
      empty := |table| == 0;
    }
  }

  /**
   An entry that was looked at is gone exactly if it had not been used for more than a second then; those that are kept,
   and those still to be looked at, are as they were.
   */
  ghost predicate Swept(t0: Table, t: Table, looks: seq<Event>, keys: set<Addr>) {
    && (forall ip | ip in t :: ip in t0 && t[ip] == t0[ip])
    && (forall ip | ip in keys :: ip in t)
    && (forall i | 0 <= i < |looks| ::
          && looks[i].ip in t0 && looks[i].ip !in keys
          && (looks[i].ip in t <==> looks[i].now - t0[looks[i].ip].lastTime <= GARBAGE_COLLECT_TIME))
  }

  /** Half way through a sweep: `keys` are still to be looked at. */
  ghost predicate Sweeping(t0: Table, t: Table, looks: seq<Event>, clock: seq<nat>, keys: set<Addr>) {
    && t == Final(t0, looks) && keys <= t.Keys && Swept(t0, t, looks, keys)
    && LooksAt(looks, clock) && |looks| + |keys| == |clock| && Addresses(looks) + keys == t0.Keys
  }

  lemma SweepStarts(t: Table, clock: seq<nat>)
    requires |clock| == |t|
    ensures Sweeping(t, t, [], clock, t.Keys)
  {}

  lemma SweepEnds(t0: Table, t: Table, looks: seq<Event>, clock: seq<nat>)
    requires Sweeping(t0, t, looks, clock, {})
    ensures t == Final(t0, looks) && LooksAt(looks, clock) && Addresses(looks) == t0.Keys && |looks| == |clock|
    ensures Swept(t0, t, looks, {})
  {}

  lemma SweepStep(t0: Table, t: Table, looks: seq<Event>, clock: seq<nat>, keys: set<Addr>, key: Addr)
    requires Sweeping(t0, t, looks, clock, keys) && key in keys
    ensures |looks| < |clock|
    ensures var look := Look(key, clock[|looks|]);
            Sweeping(t0, After(t, look), looks + [look], clock, keys - {key})
  {
    FinalAppend(t0, looks, Look(key, clock[|looks|]));
  }

  /** One look after the other, each with the next reading of the clock. */
  ghost predicate LooksAt(looks: seq<Event>, clock: seq<nat>) {
    |looks| <= |clock| && forall i | 0 <= i < |looks| :: looks[i].Look? && looks[i].now == clock[i]
  }

  ghost function Addresses(events: seq<Event>): set<Addr> {
    if events == [] then {} else Addresses(events[..|events| - 1]) + {events[|events| - 1].ip}
  }

  lemma {:induction false} FinalAppend(t: Table, events: seq<Event>, ev: Event)
    ensures Final(t, events + [ev]) == After(Final(t, events), ev)
    ensures Replies(t, events + [ev]) ==
            Replies(t, events) + if ev.Allow? then [Request(Get(Final(t, events), ev.ip), ev.now).1] else []
    decreases events
  {
    if events == [] {
      assert events + [ev] == [ev] && [ev][1..] == [];
    } else {
      assert (events + [ev])[1..] == events[1..] + [ev];
      FinalAppend(After(t, events[0]), events[1..], ev);
    }
  }
}
