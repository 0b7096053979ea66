/**
 The rate limiter under concurrent callers: `Allow` of internal/ratelimiter/ratelimiter.go looks an entry up under the
 table's read lock, then either makes a new entry and puts it in under the write lock, or updates the one it found
 under the entry's own lock. Any number of workers do so while the collector looks at entries. A worker holds on to the
 entry it found, in the table or not.
 */
module LimiterRace {
  import opened Common
  import opened RateLimiter

  /** An entry on the heap, and the address it was made for. */
  datatype Slot = Slot(ip: Addr, entry: Entry)

  /**
   What a worker holds: no entry, and how often the address had been put in; that and its reading of the clock; or an
   entry.
   */
  datatype Worker =
    | Missed(ip: Addr, inserts: nat)
    | Stamped(ip: Addr, inserts: nat, reading: nat)
    | Found(ip: Addr, id: nat)

  /** `events` and `replies` record what took effect, in order. */
  datatype State = State(clock: nat, table: map<Addr, nat>, heap: seq<Slot>, inserts: map<Addr, nat>,
                         workers: map<nat, Worker>,
                         events: seq<Event>, replies: seq<bool>)

  const Initial := State(0, map[], [], map[], map[], [], [])

  datatype Step =
    | Lookup(worker: nat, ip: Addr, now: nat)
    | Read(worker: nat, now: nat)
    | Insert(worker: nat, now: nat)
    | Update(worker: nat, now: nat)
    | Collect(ip: Addr, now: nat)

  function Inserts(s: State, ip: Addr): nat {
    if ip in s.inserts then s.inserts[ip] else 0
  }

  predicate Enabled(s: State, a: Step) {
    && s.clock <= a.now
    && match a
       case Lookup(w, ip, _) => w !in s.workers && (ip in s.table ==> s.table[ip] < |s.heap|)
       case Read(w, _) => w in s.workers && s.workers[w].Missed?
       case Insert(w, _) => w in s.workers && s.workers[w].Stamped?
       case Update(w, _) => w in s.workers && s.workers[w].Found? && s.workers[w].id < |s.heap|
       case Collect(ip, _) => ip in s.table && s.table[ip] < |s.heap|
  }

  function Next(s0: State, a: Step): State
    requires Enabled(s0, a)
  {
    var s := s0.(clock := a.now);
    match a
    case Lookup(w, ip, _) =>
      s.(workers := s.workers[w := if ip in s.table then Found(ip, s.table[ip]) else Missed(ip, Inserts(s, ip))])
    case Read(w, now) => s.(workers := s.workers[w := Stamped(s.workers[w].ip, s.workers[w].inserts, now)])
    case Insert(w, _) =>
      var Stamped(ip, _, reading) := s.workers[w];
      s.(heap := s.heap + [Slot(ip, Entry(reading, MAX_TOKENS - PACKET_COST))], table := s.table[ip := |s.heap|],
      inserts := s.inserts[ip := Inserts(s, ip) + 1], workers := s.workers - {w},
      events := s.events + [Allow(ip, reading)], replies := s.replies + [true])
    case Update(w, now) =>
      var Found(ip, id) := s.workers[w];
      var (entry, ok) := Request(Some(s.heap[id].entry), now);
      s.(heap := s.heap[id := s.heap[id].(entry := entry)], workers := s.workers - {w},
      events := s.events + [Allow(ip, now)], replies := s.replies + [ok])
    case Collect(ip, now) =>
      s.(table := if now - s.heap[s.table[ip]].entry.lastTime > GARBAGE_COLLECT_TIME then s.table - {ip} else s.table,
      events := s.events + [Look(ip, now)])
  }

  function From(s: State, trace: seq<Step>): Option<State> {
    if trace == [] then Some(s)
    else
      var before := From(s, trace[..|trace| - 1]);
      var a := trace[|trace| - 1];
      if before.None? || !Enabled(before.value, a) then None else Some(Next(before.value, a))
  }

  function Run(trace: seq<Step>): Option<State> {
    From(Initial, trace)
  }

  // ---- When the steps are those of the table alone ---------------------------------------------

  /**
   An insert follows a lookup that no other insert of the address came after; an update's entry is still in the table.
   */
  predicate Undisturbed(s: State, a: Step)
    requires Enabled(s, a)
  {
    match a
    case Insert(w, _) => s.workers[w].inserts == Inserts(s, s.workers[w].ip)
    case Update(w, _) => s.workers[w].ip in s.table && s.table[s.workers[w].ip] == s.workers[w].id
    case _ => true
  }

  ghost predicate AllUndisturbed(trace: seq<Step>) {
    forall i | 0 <= i < |trace| :: UndisturbedAt(trace[..i], trace[i])
  }

  predicate UndisturbedAt(before: seq<Step>, a: Step) {
    Run(before).Some? && Enabled(Run(before).value, a) ==> Undisturbed(Run(before).value, a)
  }

  /** Every entry in the table was made for its address. */
  ghost predicate Owned(s: State) {
    forall ip | ip in s.table :: s.table[ip] < |s.heap| && s.heap[s.table[ip]].ip == ip
  }

  /** The table as a value. */
  ghost function Abstract(s: State): Table
    requires Owned(s)
  {
    map ip | ip in s.table :: s.heap[s.table[ip]].entry
  }

  ghost predicate NothingAfter(events: seq<Event>, ip: Addr, time: nat) {
    forall i | 0 <= i < |events| && events[i].ip == ip :: events[i].now <= time
  }

  /** While no insert came after its lookup, the address has no entry, and nothing has happened to it since. */
  ghost predicate WorkerFine(s: State, w: Worker) {
    match w
    case Missed(ip, inserts) => inserts <= Inserts(s, ip) && (inserts == Inserts(s, ip) ==> ip !in s.table)
    case Stamped(ip, inserts, reading) =>
      && inserts <= Inserts(s, ip) && reading <= s.clock
      && (inserts == Inserts(s, ip) ==> ip !in s.table && NothingAfter(s.events, ip, reading))
    case Found(ip, id) => id < |s.heap| && s.heap[id].ip == ip
  }

  ghost predicate WorkersFine(s: State) {
    forall w | w in s.workers :: WorkerFine(s, s.workers[w])
  }

  ghost predicate InTime(s: State) {
    Ordered(s.events) && forall i | 0 <= i < |s.events| :: s.events[i].now <= s.clock
  }

  ghost predicate Refines(s: State) {
    Owned(s) && Abstract(s) == Final(map[], s.events) && s.replies == Replies(map[], s.events)
  }

  lemma OrderedAppend(events: seq<Event>, ev: Event)
    requires Ordered(events) && NothingAfter(events, ev.ip, ev.now)
    ensures Ordered(events + [ev])
  {}

  lemma InsertRefines(s: State, w: nat, now: nat)
    requires Enabled(s, Insert(w, now)) && Refines(s) && WorkersFine(s) && Undisturbed(s, Insert(w, now))
    ensures Refines(Next(s, Insert(w, now)))
  {
    var s', ev := Next(s, Insert(w, now)), Allow(s.workers[w].ip, s.workers[w].reading);
    assert WorkerFine(s, s.workers[w]);
    FinalAppend(map[], s.events, ev);
    assert Abstract(s') == After(Abstract(s), ev);
  }

  lemma UpdateRefines(s: State, w: nat, now: nat)
    requires Enabled(s, Update(w, now)) && Refines(s) && Undisturbed(s, Update(w, now))
    ensures Refines(Next(s, Update(w, now)))
  {
    var s', ev := Next(s, Update(w, now)), Allow(s.workers[w].ip, now);
    FinalAppend(map[], s.events, ev);
    assert Abstract(s') == After(Abstract(s), ev);
  }

  lemma CollectRefines(s: State, ip: Addr, now: nat)
    requires Enabled(s, Collect(ip, now)) && Refines(s)
    ensures Refines(Next(s, Collect(ip, now)))
  {
    var s' := Next(s, Collect(ip, now));
    FinalAppend(map[], s.events, Look(ip, now));
    assert Abstract(s') == After(Abstract(s), Look(ip, now));
    assert s.replies + [] == s.replies;
  }

  lemma RefinesStep(s: State, a: Step)
    requires Enabled(s, a) && Refines(s) && WorkersFine(s) && Undisturbed(s, a)
    ensures Refines(Next(s, a))
  {
    match a
    case Lookup(_, _, _) => assert Abstract(Next(s, a)) == Abstract(s);
    case Read(_, _) => assert Abstract(Next(s, a)) == Abstract(s);
    case Insert(w, now) => InsertRefines(s, w, now);
    case Update(w, now) => UpdateRefines(s, w, now);
    case Collect(ip, now) => CollectRefines(s, ip, now);
  }

  lemma InTimeStep(s: State, a: Step)
    requires Enabled(s, a) && InTime(s) && WorkersFine(s) && Undisturbed(s, a)
    ensures InTime(Next(s, a))
  {
    match a
    case Lookup(_, _, _) =>
    case Read(_, _) =>
    case Insert(w, _) =>
      assert WorkerFine(s, s.workers[w]);
      OrderedAppend(s.events, Allow(s.workers[w].ip, s.workers[w].reading));
    case Update(w, now) => OrderedAppend(s.events, Allow(s.workers[w].ip, now));
    case Collect(ip, now) => OrderedAppend(s.events, Look(ip, now));
  }

  lemma WorkersStep(s: State, a: Step)
    requires Enabled(s, a) && Owned(s) && InTime(s) && WorkersFine(s) && Undisturbed(s, a)
    ensures WorkersFine(Next(s, a))
  {
    var s' := Next(s, a);
    forall w | w in s'.workers ensures WorkerFine(s', s'.workers[w]) {
      assert w in s.workers ==> WorkerFine(s, s.workers[w]);
    }
  }

  lemma {:induction false} UndisturbedRun(trace: seq<Step>)
    requires Run(trace).Some? && AllUndisturbed(trace)
    ensures Refines(Run(trace).value) && InTime(Run(trace).value) && WorkersFine(Run(trace).value)
  {
    if trace != [] {
      var n := |trace| - 1;
      var before, a := trace[..n], trace[n];
      forall i | 0 <= i < |before| ensures UndisturbedAt(before[..i], before[i]) {
        assert before[..i] == trace[..i] && before[i] == trace[i];
      }
      UndisturbedRun(before);
      assert UndisturbedAt(trace[..n], trace[n]);
      var s := Run(before).value;
      RefinesStep(s, a);
      InTimeStep(s, a);
      WorkersStep(s, a);
    }
  }

  // ---- What holds then -------------------------------------------------------------------------

  /**
   If no insert is overtaken by another of its address and no update's entry was dropped before, then the answers are
   those of a table that is never cleaned, and the rate bound and the guarantee hold for every address.
   */
  lemma UndisturbedGuarantees(trace: seq<Step>, ip: Addr, i: nat, j: nat)
    requires Run(trace).Some? && AllUndisturbed(trace) && i <= j < |RepliesFor(map[], Run(trace).value.events, ip)|
    ensures var events := Run(trace).value.events;
            var (replies, times) := (RepliesFor(map[], events, ip), TimesOf(events, ip));
            && Run(trace).value.replies == Replies(map[], Requests(events))
            && |replies| == |times| && times[i] <= times[j]
            && (replies[i] && replies[j] ==> Cost(Count(replies[i..j + 1])) < MAX_TOKENS + (times[j] - times[i]))
            && (i == 0 || times[i] >= times[i - 1] + PACKET_COST ==> replies[i])
  {
    UndisturbedRun(trace);
    var events := Run(trace).value.events;
    SweepingIsUnobservable(map[], map[], events);
    LimiterGuarantees(events, ip, i, j);
  }

  /**
   An insert that meets an entry does what a request would have done, if and only if that entry is full by its reading.
   */
  lemma InsertIsRequest(s: State, w: nat, now: nat)
    requires Owned(s) && Enabled(s, Insert(w, now)) && s.workers[w].ip in s.table
    ensures var (s', ip, reading) := (Next(s, Insert(w, now)), s.workers[w].ip, s.workers[w].reading);
            var e := Abstract(s)[ip];
            && Owned(s')
            && ((Abstract(s') == After(Abstract(s), Allow(ip, reading)) && Request(Some(e), reading).1) <==>
                e.tokens + reading - e.lastTime >= MAX_TOKENS)
  {
    var s', ip, reading := Next(s, Insert(w, now)), s.workers[w].ip, s.workers[w].reading;
    assert Abstract(s') == Abstract(s)[ip := Entry(reading, MAX_TOKENS - PACKET_COST)];
    assert Abstract(s')[ip] == Entry(reading, MAX_TOKENS - PACKET_COST);
    assert After(Abstract(s), Allow(ip, reading))[ip] == Request(Some(Abstract(s)[ip]), reading).0;
  }

  /**
   An update does what a request on the table would have done, in entry and in answer, if and only if its entry is
   still in the table, or both would be turned down and the table's entry would stay as it is.
   */
  lemma UpdateIsRequest(s: State, w: nat, now: nat)
    requires Owned(s) && Enabled(s, Update(w, now)) && s.heap[s.workers[w].id].ip == s.workers[w].ip
    ensures var (s', ip, id) := (Next(s, Update(w, now)), s.workers[w].ip, s.workers[w].id);
            var mine := Request(Some(s.heap[id].entry), now);
            && Owned(s')
            && ((Abstract(s') == After(Abstract(s), Allow(ip, now))
                 && mine.1 == Request(Get(Abstract(s), ip), now).1) <==>
                (|| Undisturbed(s, Update(w, now))
                 || (ip in s.table && Request(Some(Abstract(s)[ip]), now) == (Abstract(s)[ip], false) && !mine.1)))
  {
    var s', ip, id := Next(s, Update(w, now)), s.workers[w].ip, s.workers[w].id;
    if Undisturbed(s, Update(w, now)) {
      assert Abstract(s') == Abstract(s)[ip := Request(Some(s.heap[id].entry), now).0];
    } else {
      OrphanUpdate(s, w, now);
      assert ip in After(Abstract(s), Allow(ip, now));
      if ip in s.table {
        assert After(Abstract(s), Allow(ip, now))[ip] == Request(Some(Abstract(s)[ip]), now).0;
        assert Abstract(s)[ip := Abstract(s)[ip]] == Abstract(s);
      }
    }
  }

  /** An update of an entry that is no longer in the table leaves the table as it is, whatever it answers. */
  lemma OrphanUpdate(s: State, w: nat, now: nat)
    requires Owned(s) && Enabled(s, Update(w, now)) && !Undisturbed(s, Update(w, now))
    requires s.heap[s.workers[w].id].ip == s.workers[w].ip
    ensures Owned(Next(s, Update(w, now))) && Abstract(Next(s, Update(w, now))) == Abstract(s)
  {
    assert forall ip | ip in s.table :: s.table[ip] != s.workers[w].id;
  }

  // ---- What fails otherwise --------------------------------------------------------------------

  lemma FromStep(s: State, trace: seq<Step>, a: Step)
    requires From(s, trace).Some? && Enabled(From(s, trace).value, a)
    ensures From(s, trace + [a]) == Some(Next(From(s, trace).value, a))
  {
    assert (trace + [a])[..|trace + [a]| - 1] == trace;
  }

  function Repeat<T>(x: T, n: nat): (r: seq<T>)
    ensures |r| == n && forall i | 0 <= i < n :: r[i] == x
  {
    if n == 0 then [] else Repeat(x, n - 1) + [x]
  }

  /** `n` workers look up the same new address before any of them puts it in. */
  function Misses(n: nat, ip: Addr, t: nat): seq<Step> {
    if n == 0 then [] else Misses(n - 1, ip, t) + [Lookup(n - 1, ip, t), Read(n - 1, t)]
  }

  /** Then the first `k` of them put it in. */
  function Together(n: nat, k: nat, ip: Addr, t: nat): seq<Step> {
    if k == 0 then Misses(n, ip, t) else Together(n, k - 1, ip, t) + [Insert(k - 1, t)]
  }

  ghost predicate Waiting(s: State, n: nat, k: nat, ip: Addr, t: nat) {
    && s.clock <= t && (k == 0 ==> s.table == map[] && s.inserts == map[])
    && (forall w: nat :: w in s.workers <==> k <= w < n)
    && (forall w | w in s.workers :: s.workers[w] == Stamped(ip, 0, t))
    && s.events == Repeat(Allow(ip, t), k) && s.replies == Repeat(true, k)
  }

  lemma {:induction false} MissesRun(n: nat, ip: Addr, t: nat)
    ensures Run(Misses(n, ip, t)).Some? && Waiting(Run(Misses(n, ip, t)).value, n, 0, ip, t)
  {
    if n > 0 {
      MissesRun(n - 1, ip, t);
      var before := Misses(n - 1, ip, t);
      FromStep(Initial, before, Lookup(n - 1, ip, t));
      FromStep(Initial, before + [Lookup(n - 1, ip, t)], Read(n - 1, t));
      assert before + [Lookup(n - 1, ip, t)] + [Read(n - 1, t)] == Misses(n, ip, t);
    }
  }

  lemma {:induction false} TogetherRun(n: nat, k: nat, ip: Addr, t: nat)
    requires k <= n
    ensures Run(Together(n, k, ip, t)).Some? && Waiting(Run(Together(n, k, ip, t)).value, n, k, ip, t)
  {
    if k == 0 {
      MissesRun(n, ip, t);
    } else {
      TogetherRun(n, k - 1, ip, t);
      FromStep(Initial, Together(n, k - 1, ip, t), Insert(k - 1, t));
    }
  }

  /**
   Workers that miss a new address together are all allowed, however many they are: five break the bound at one
   instant.
   */
  lemma MissingTogether(n: nat, ip: Addr, t: nat)
    ensures Run(Together(n, n, ip, t)).Some?
    ensures var s := Run(Together(n, n, ip, t)).value;
            s.events == Repeat(Allow(ip, t), n) && s.replies == Repeat(true, n)
    ensures n >= 5 ==> Cost(n) >= MAX_TOKENS
  {
    TogetherRun(n, n, ip, t);
  }

  /** Workers 1 to `k` update one after the other. */
  function Spending(k: nat, now: nat): seq<Step> {
    if k == 0 then [] else Spending(k - 1, now) + [Update(k, now)]
  }

  /**
   Four workers found an entry that the collector then drops as stale; a fifth puts in a new one, and the four go on.
   */
  function Orphaned(ip: Addr, now: nat): seq<Step> {
    [Collect(ip, now), Lookup(5, ip, now), Read(5, now), Insert(5, now)] + Spending(4, now)
  }

  ghost predicate Holding(s: State, ip: Addr, id: nat, first: nat) {
    id < |s.heap| && s.heap[id].ip == ip && forall w | first <= w <= 4 ::
      w in s.workers && s.workers[w] == Found(ip, id)
  }

  lemma Dropped(s: State, ip: Addr, now: nat)
    requires Owned(s) && ip in s.table && s.clock <= now
             && now - s.heap[s.table[ip]].entry.lastTime > GARBAGE_COLLECT_TIME
    ensures Enabled(s, Collect(ip, now))
    ensures Next(s, Collect(ip, now)) == s.(clock := now, table := s.table - {ip}, events := s.events + [Look(ip, now)])
  {}

  /** A worker misses the address, reads the clock and puts it in. */
  lemma Replaced(s: State, w: nat, ip: Addr, now: nat)
    requires ip !in s.table && w !in s.workers && s.clock == now
    ensures var s1 := s.(workers := s.workers[w := Missed(ip, Inserts(s, ip))]);
            var s2 := s.(workers := s.workers[w := Stamped(ip, Inserts(s, ip), now)]);
            var s3 := s.(heap := s.heap + [Slot(ip, Entry(now, MAX_TOKENS - PACKET_COST))],
                      table := s.table[ip := |s.heap|],
                      inserts := s.inserts[ip := Inserts(s, ip) + 1], events := s.events + [Allow(ip, now)],
                      replies := s.replies + [true]);
            && Enabled(s, Lookup(w, ip, now)) && Next(s, Lookup(w, ip, now)) == s1
            && Enabled(s1, Read(w, now)) && Next(s1, Read(w, now)) == s2
            && Enabled(s2, Insert(w, now)) && Next(s2, Insert(w, now)) == s3
  {
    var s2 := s.(workers := s.workers[w := Stamped(ip, Inserts(s, ip), now)]);
    assert s2.workers - {w} == s.workers;
  }

  lemma DropAndReplace(s: State, ip: Addr, now: nat)
    requires Owned(s) && ip in s.table && s.clock <= now
             && now - s.heap[s.table[ip]].entry.lastTime > GARBAGE_COLLECT_TIME
    requires Holding(s, ip, s.table[ip], 1) && 5 !in s.workers
    ensures var trace := [Collect(ip, now), Lookup(5, ip, now), Read(5, now), Insert(5, now)];
            && From(s, trace).Some?
            && (var s' := From(s, trace).value;
                && Holding(s', ip, s.table[ip], 1) && s'.clock == now && s'.heap[s.table[ip]] == s.heap[s.table[ip]]
                && s'.events == s.events + [Look(ip, now), Allow(ip, now)] && s'.replies == s.replies + [true])
  {
    var t1 := [Collect(ip, now)];
    var t2 := t1 + [Lookup(5, ip, now)];
    var t3 := t2 + [Read(5, now)];
    assert [] + [Collect(ip, now)] == t1;
    Dropped(s, ip, now);
    Replaced(Next(s, Collect(ip, now)), 5, ip, now);
    FromStep(s, [], Collect(ip, now));
    FromStep(s, t1, Lookup(5, ip, now));
    FromStep(s, t2, Read(5, now));
    FromStep(s, t3, Insert(5, now));
    assert t3 + [Insert(5, now)] == [Collect(ip, now), Lookup(5, ip, now), Read(5, now), Insert(5, now)];
  }

  /** The next of the four. */
  lemma Spend(s: State, ip: Addr, id: nat, k: nat, now: nat)
    requires 0 < k <= 4 && Holding(s, ip, id, k) && s.clock == now
    requires if k == 1 then s.heap[id].entry.tokens + now - s.heap[id].entry.lastTime >= MAX_TOKENS
             else s.heap[id].entry == Entry(now, MAX_TOKENS - Cost(k - 1))
    ensures Enabled(s, Update(k, now))
    ensures var s' := Next(s, Update(k, now));
            && Holding(s', ip, id, k + 1) && s'.clock == now && s'.heap[id].entry == Entry(now, MAX_TOKENS - Cost(k))
            && s'.events == s.events + [Allow(ip, now)] && s'.replies == s.replies + [true]
  {
    assert s.workers[k] == Found(ip, id);
  }

  /** What `k` of them leave. */
  ghost predicate Spent(s: State, s': State, ip: Addr, id: nat, k: nat, now: nat) {
    && Holding(s', ip, id, k + 1) && s'.clock == now
    && (k > 0 ==> s'.heap[id].entry == Entry(now, MAX_TOKENS - Cost(k)))
    && (k == 0 ==> s' == s)
    && s'.events == s.events + Repeat(Allow(ip, now), k) && s'.replies == s.replies + Repeat(true, k)
  }

  lemma SpendNext(s: State, s': State, ip: Addr, id: nat, k: nat, now: nat)
    requires 0 < k <= 4 && Spent(s, s', ip, id, k - 1, now)
    requires s.heap != [] && id < |s.heap| && s.heap[id].entry.tokens + now - s.heap[id].entry.lastTime >= MAX_TOKENS
    ensures Enabled(s', Update(k, now)) && Spent(s, Next(s', Update(k, now)), ip, id, k, now)
  {
    Spend(s', ip, id, k, now);
    assert s.events + Repeat(Allow(ip, now), k - 1) + [Allow(ip, now)] == s.events + Repeat(Allow(ip, now), k);
    assert s.replies + Repeat(true, k - 1) + [true] == s.replies + Repeat(true, k);
  }

  /** A full purse is good for four packets at once. */
  lemma {:induction false} SpendingRun(s: State, ip: Addr, id: nat, k: nat, now: nat)
    requires Holding(s, ip, id, 1) && s.clock == now && k <= 4
    requires s.heap[id].entry.tokens + now - s.heap[id].entry.lastTime >= MAX_TOKENS
    ensures From(s, Spending(k, now)).Some? && Spent(s, From(s, Spending(k, now)).value, ip, id, k, now)
  {
    if k > 0 {
      SpendingRun(s, ip, id, k - 1, now);
      SpendNext(s, From(s, Spending(k - 1, now)).value, ip, id, k, now);
      FromStep(s, Spending(k - 1, now), Update(k, now));
    }
  }

  lemma {:induction false} FromJoined(s: State, first: seq<Step>, then': seq<Step>)
    requires From(s, first).Some? && From(From(s, first).value, then').Some?
    ensures From(s, first + then') == From(From(s, first).value, then')
  {
    if then' == [] {
      assert first + then' == first;
    } else {
      var n := |then'| - 1;
      assert (first + then')[..|first + then'| - 1] == first + then'[..n];
      FromJoined(s, first, then'[..n]);
    }
  }

  /**
   All five are allowed at one instant, though the bound is one packet less: the collector is observed. A table that is
   never cleaned would have turned the fifth down.
   */
  lemma OrphansSpend(s: State, ip: Addr, now: nat)
    requires Owned(s) && ip in s.table && s.clock <= now
             && now - s.heap[s.table[ip]].entry.lastTime > GARBAGE_COLLECT_TIME
    requires Holding(s, ip, s.table[ip], 1) && 5 !in s.workers && Solvent(Some(s.heap[s.table[ip]].entry))
    ensures From(s, Orphaned(ip, now)).Some?
    ensures From(s, Orphaned(ip, now)).value.events == s.events + [Look(ip, now)] + Repeat(Allow(ip, now), 5)
    ensures From(s, Orphaned(ip, now)).value.replies == s.replies + Repeat(true, 5)
    ensures Cost(5) >= MAX_TOKENS
    ensures Answers(Some(s.heap[s.table[ip]].entry), Repeat(now, 5)) == Repeat(true, 4) + [false]
  {
    var first := [Collect(ip, now), Lookup(5, ip, now), Read(5, now), Insert(5, now)];
    DropAndReplace(s, ip, now);
    var s' := From(s, first).value;
    SpendingRun(s', ip, s.table[ip], 4, now);
    FromJoined(s, first, Spending(4, now));
    OneMore(s.events + [Look(ip, now)], Allow(ip, now), 4);
    OneMore(s.replies, true, 4);
    assert s.events + [Look(ip, now), Allow(ip, now)] == s.events + [Look(ip, now)] + [Allow(ip, now)];
    FullPurse(s.heap[s.table[ip]].entry, now);
  }

  lemma OneMore<T>(before: seq<T>, x: T, n: nat)
    ensures before + [x] + Repeat(x, n) == before + Repeat(x, n + 1)
  {}

  lemma FullPurse(e: Entry, now: nat)
    requires e.tokens + now - e.lastTime >= MAX_TOKENS
    ensures Answers(Some(e), Repeat(now, 5)) == Repeat(true, 4) + [false]
  {
    assert Repeat(now, 5) == [now, now, now, now, now] && Repeat(true, 4) + [false] == [true, true, true, true, false];
    var e1, e2, e3, e4 := Entry(now, MAX_TOKENS - Cost(1)), Entry(now, MAX_TOKENS - Cost(2)),
                          Entry(now, MAX_TOKENS - Cost(3)), Entry(now, MAX_TOKENS - Cost(4));
    assert Request(Some(e), now) == (e1, true);
    assert Request(Some(e1), now) == (e2, true) && Request(Some(e2), now) == (e3, true)
           && Request(Some(e3), now) == (e4, true);
    assert !Request(Some(e4), now).1;
    var t5, t4, t3, t2, t1 := [now, now, now, now, now], [now, now, now, now], [now, now, now], [now, now], [now];
    assert t5[1..] == t4 && t4[1..] == t3 && t3[1..] == t2 && t2[1..] == t1 && t1[1..] == [];
    assert Answers(Some(e4), t1) == [false];
    assert Answers(Some(e3), t2) == [true] + Answers(Some(e4), t1);
    assert Answers(Some(e2), t3) == [true] + Answers(Some(e3), t2);
    assert Answers(Some(e1), t4) == [true] + Answers(Some(e2), t3);
    assert Answers(Some(e), t5) == [true] + Answers(Some(e1), t4);
  }

  /** Such a state is reached: an address is put in, and four workers look it up. */
  function Setup(k: nat, ip: Addr): seq<Step> {
    if k == 0 then [Lookup(0, ip, 0), Read(0, 0), Insert(0, 0)] else Setup(k - 1, ip) + [Lookup(k, ip, 0)]
  }

  ghost predicate SetUp(s: State, k: nat, ip: Addr) {
    && s.clock == 0 && s.table == map[ip := 0] && s.heap == [Slot(ip, Entry(0, MAX_TOKENS - PACKET_COST))]
    && (forall w :: w in s.workers <==> 1 <= w <= k) && forall w | w in s.workers :: s.workers[w] == Found(ip, 0)
  }

  lemma {:induction false} SetupRun(k: nat, ip: Addr)
    ensures Run(Setup(k, ip)).Some? && SetUp(Run(Setup(k, ip)).value, k, ip)
  {
    if k == 0 {
      FirstPut(ip);
    } else {
      SetupRun(k - 1, ip);
      FromStep(Initial, Setup(k - 1, ip), Lookup(k, ip, 0));
    }
  }

  lemma FirstPut(ip: Addr)
    ensures Run(Setup(0, ip)).Some? && SetUp(Run(Setup(0, ip)).value, 0, ip)
  {
    var t1 := [Lookup(0, ip, 0)];
    var t2 := t1 + [Read(0, 0)];
    assert [] + [Lookup(0, ip, 0)] == t1 && t2 + [Insert(0, 0)] == Setup(0, ip);
    Replaced(Initial, 0, ip, 0);
    FromStep(Initial, [], Lookup(0, ip, 0));
    FromStep(Initial, t1, Read(0, 0));
    FromStep(Initial, t2, Insert(0, 0));
  }

  lemma OrphansReachable(ip: Addr)
    ensures Run(Setup(4, ip)).Some? && Run(Setup(4, ip) + Orphaned(ip, GARBAGE_COLLECT_TIME + 1)).Some?
    ensures Run(Setup(4, ip) + Orphaned(ip, GARBAGE_COLLECT_TIME + 1)).value.replies ==
            Run(Setup(4, ip)).value.replies + Repeat(true, 5)
  {
    SetupRun(4, ip);
    var s := Run(Setup(4, ip)).value;
    OrphansSpend(s, ip, GARBAGE_COLLECT_TIME + 1);
    FromJoined(Initial, Setup(4, ip), Orphaned(ip, GARBAGE_COLLECT_TIME + 1));
  }

  // ---- Finding no entry is not enough ----------------------------------------------------------

  /** Worker 9 misses an address and reads the clock; another puts it in, and `k` more are answered. */
  function Early(k: nat, ip: Addr): seq<Step> {
    if k == 0 then [Lookup(9, ip, 0), Read(9, 0), Lookup(0, ip, 0), Read(0, 0), Insert(0, 0)]
    else Early(k - 1, ip) + [Lookup(k, ip, 0), Update(k, 0)]
  }

  ghost predicate Overtaken(s: State, k: nat, ip: Addr) {
    && s.clock == 0 && s.table == map[ip := 0] && s.workers == map[9 := Stamped(ip, 0, 0)]
    && s.heap == [Slot(ip, Entry(0, MAX_TOKENS - Cost(k + 1)))] && s.inserts == map[ip := 1]
    && s.events == Repeat(Allow(ip, 0), k + 1) && s.replies == Repeat(true, k + 1)
  }

  lemma EarlyStart(ip: Addr)
    ensures Run(Early(0, ip)).Some? && Overtaken(Run(Early(0, ip)).value, 0, ip)
  {
    var t1 := [Lookup(9, ip, 0)];
    var t2 := t1 + [Read(9, 0)];
    var t3 := t2 + [Lookup(0, ip, 0)];
    var t4 := t3 + [Read(0, 0)];
    assert [] + [Lookup(9, ip, 0)] == t1 && t4 + [Insert(0, 0)] == Early(0, ip);
    FromStep(Initial, [], Lookup(9, ip, 0));
    FromStep(Initial, t1, Read(9, 0));
    assert Run(t2).value.workers == map[9 := Stamped(ip, 0, 0)];
    FromStep(Initial, t2, Lookup(0, ip, 0));
    FromStep(Initial, t3, Read(0, 0));
    assert Run(t4).value.workers == map[9 := Stamped(ip, 0, 0), 0 := Stamped(ip, 0, 0)];
    FromStep(Initial, t4, Insert(0, 0));
    assert Run(Early(0, ip)).value.workers == map[9 := Stamped(ip, 0, 0)];
  }

  lemma {:induction false} EarlyRun(k: nat, ip: Addr)
    requires k <= 3
    ensures Run(Early(k, ip)).Some? && Overtaken(Run(Early(k, ip)).value, k, ip)
  {
    if k == 0 {
      EarlyStart(ip);
    } else {
      EarlyRun(k - 1, ip);
      var before := Early(k - 1, ip);
      OvertakenStep(Run(before).value, k, ip);
      FromStep(Initial, before, Lookup(k, ip, 0));
      FromStep(Initial, before + [Lookup(k, ip, 0)], Update(k, 0));
      assert before + [Lookup(k, ip, 0)] + [Update(k, 0)] == Early(k, ip);
    }
  }

  lemma OvertakenStep(s: State, k: nat, ip: Addr)
    requires 0 < k <= 3 && Overtaken(s, k - 1, ip)
    ensures Enabled(s, Lookup(k, ip, 0)) && Enabled(Next(s, Lookup(k, ip, 0)), Update(k, 0))
    ensures Overtaken(Next(Next(s, Lookup(k, ip, 0)), Update(k, 0)), k, ip)
  {
    assert s.workers[k := Found(ip, 0)] - {k} == s.workers;
  }

  /**
   The entry is dropped before worker 9 puts in its own, so that finds none; still five are allowed with one reading of
   the clock. What fails is that no other insert came after its lookup.
   */
  lemma LateInsert(ip: Addr)
    ensures var before := Early(3, ip) + [Collect(ip, GARBAGE_COLLECT_TIME + 1)];
            var late := Insert(9, GARBAGE_COLLECT_TIME + 1);
            && Run(before).Some? && ip !in Run(before).value.table && Enabled(Run(before).value, late)
            && !Undisturbed(Run(before).value, late)
            && Run(before + [late]).Some?
            && Run(before + [late]).value.events ==
               Repeat(Allow(ip, 0), 4) + [Look(ip, GARBAGE_COLLECT_TIME + 1), Allow(ip, 0)]
            && Run(before + [late]).value.replies == Repeat(true, 5)
  {
    EarlyRun(3, ip);
    var look, late := Collect(ip, GARBAGE_COLLECT_TIME + 1), Insert(9, GARBAGE_COLLECT_TIME + 1);
    FromStep(Initial, Early(3, ip), look);
    FromStep(Initial, Early(3, ip) + [look], late);
  }
}
