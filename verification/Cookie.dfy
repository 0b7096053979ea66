/**
 Cookies: internal/transport/cookie.go. Times are nanoseconds of a monotonic clock; the zero time is `None`.
 The checker and generator are values here and objects at the end of the file.
 */
module Cookie {
  import opened Common
  import opened Noise

  const REFRESH_TIME: nat := 120_000_000_000

  /** A message up to its first MAC, and the two MACs. */
  datatype Message = Message(body: Term, mac1: Term, mac2: Term)

  datatype Reply = Reply(receiver: nat, nonce: Term, box: Term)

  datatype Checker = Checker(mac1Key: Term, secret: Term, secretSet: Option<nat>, sealKey: Term)

  datatype Generator = Generator(mac1Key: Term, cookie: Term, cookieSet: Option<nat>, hasLastMac1: bool, lastMac1: Term,
                                 sealKey: Term)

  function Mac1Key(pk: PublicKey): Term {
    Hash(Cat(Text("mac1----"), Key(pk)))
  }

  function SealKey(pk: PublicKey): Term {
    Hash(Cat(Text("cookie--"), Key(pk)))
  }

  predicate Stale(since: Option<nat>, now: nat) {
    since.None? || now - since.value > REFRESH_TIME
  }

  // ---- Checker ---------------------------------------------------------------------------------

  function CookieFor(c: Checker, src: Term): Term {
    Mac(c.secret, src)
  }

  predicate CheckMac1(c: Checker, m: Message) {
    m.mac1 == Mac(c.mac1Key, m.body)
  }

  predicate CheckMac2(c: Checker, m: Message, src: Term, now: nat) {
    !Stale(c.secretSet, now) && m.mac2 == Mac(CookieFor(c, src), Cat(m.body, m.mac1))
  }

  function Refreshed(c: Checker, secret: Term, now: nat): Checker {
    c.(secret := secret, secretSet := Some(now))
  }

  function ReplyOf(c: Checker, m: Message, receiver: nat, src: Term, nonce: Term): Reply {
    Reply(receiver, nonce, Sealed(c.sealKey, nonce, CookieFor(c, src), m.mac1))
  }

  // ---- Generator -------------------------------------------------------------------------------

  predicate Accepts(g: Generator, r: Reply) {
    g.hasLastMac1 && Open(g.sealKey, r.nonce, r.box, g.lastMac1).Some?
  }

  function AfterReply(g: Generator, r: Reply, now: nat): Generator {
    if !Accepts(g, r) then g
    else g.(cookie := Open(g.sealKey, r.nonce, r.box, g.lastMac1).value, cookieSet := Some(now))
  }

  function Stamped(g: Generator, m: Message, now: nat): Message {
    var m1 := m.(mac1 := Mac(g.mac1Key, m.body));
    if Stale(g.cookieSet, now) then m1 else m1.(mac2 := Mac(g.cookie, Cat(m1.body, m1.mac1)))
  }

  function AfterStamp(g: Generator, m: Message): Generator {
    g.(lastMac1 := Mac(g.mac1Key, m.body), hasLastMac1 := true)
  }

  // ---- Runs ------------------------------------------------------------------------------------

  /**
   `refreshing` is the number of callers of `CreateReply` that found the secret stale and have not yet replaced it.
   */
  datatype World = World(now: nat, checker: Checker, generator: Generator, refreshing: nat)

  /** Making a reply reads the checker and changes nothing, so it is no event once the secret is fresh. */
  datatype Event =
    | Wait(d: nat)
    | Stamp(m: Message)
    | Deliver(r: Reply)
    | Ask // a caller of CreateReply looks at the age of the secret under the read lock
    | Refresh(secret: Term) // one that found it stale replaces it under the write lock

  function Next(w: World, e: Event): (r: Option<World>)
    ensures r.Some? ==> r.value.now >= w.now
  {
    match e
    case Wait(d) => Some(w.(now := w.now + d))
    case Stamp(m) => Some(w.(generator := AfterStamp(w.generator, m)))
    case Deliver(r) => Some(w.(generator := AfterReply(w.generator, r, w.now)))
    case Ask => Some(if Stale(w.checker.secretSet, w.now) then w.(refreshing := w.refreshing + 1) else w)
    case Refresh(secret) =>
      if w.refreshing == 0 then None
      else Some(w.(checker := Refreshed(w.checker, secret, w.now), refreshing := w.refreshing - 1))
  }

  function After(w: World, events: seq<Event>): (r: Option<World>)
    ensures r.Some? ==> r.value.now >= w.now
  {
    if events == [] then Some(w)
    else
      var before := After(w, events[..|events| - 1]);
      if before.None? then None else Next(before.value, events[|events| - 1])
  }

  /** The generator holds the checker's cookie for `src`, and both were initialised with the same key. */
  predicate Holds(w: World, src: Term) {
    && w.generator.mac1Key == w.checker.mac1Key
    && w.generator.sealKey == w.checker.sealKey
    && w.generator.cookie == CookieFor(w.checker, src)
  }

  /** Every reply that is accepted on the way carries this cookie. */
  predicate OnlyCookie(w: World, events: seq<Event>, cookie: Term) {
    forall i | 0 <= i < |events| && events[i].Deliver? ::
      var v := After(w, events[..i]);
      v.Some? && Accepts(v.value.generator, events[i].r) ==> events[i].r.box.plain == cookie
  }

  lemma {:induction false} Prefix(w: World, events: seq<Event>, i: nat)
    requires i <= |events| && After(w, events).Some?
    ensures After(w, events[..i]).Some? && After(w, events[..i]).value.now <= After(w, events).value.now
    decreases |events|
  {
    if i < |events| {
      assert events[..|events| - 1][..i] == events[..i];
      Prefix(w, events[..|events| - 1], i);
    } else {
      assert events[..i] == events;
    }
  }

  lemma OnlyCookiePrefix(w: World, events: seq<Event>, cookie: Term, i: nat)
    requires i <= |events| && OnlyCookie(w, events, cookie)
    ensures OnlyCookie(w, events[..i], cookie)
  {
    forall j | 0 <= j < |events[..i]| ensures events[..i][..j] == events[..j] && events[..i][j] == events[j] {}
  }

  /**
   The reply made for a message is accepted exactly while that message is the generator's latest, and then the generator
   holds the checker's cookie for the source of the message.
   */
  lemma ReplyInstallsCookie(w: World, m: Message, receiver: nat, src: Term, nonce: Term)
    requires w.generator.mac1Key == w.checker.mac1Key && w.generator.sealKey == w.checker.sealKey
    ensures var r := ReplyOf(w.checker, m, receiver, src, nonce);
            && (Accepts(w.generator, r) <==> w.generator.hasLastMac1 && m.mac1 == w.generator.lastMac1)
            && (Accepts(w.generator, r) ==>
                  var w' := Next(w, Deliver(r)).value;
                  Holds(w', src) && !Stale(w'.generator.cookieSet, w'.now) && r.box.plain == CookieFor(w.checker, src))
            && (!Accepts(w.generator, r) ==> Next(w, Deliver(r)).value == w)
  {}

  /** While the secret is fresh and no caller is about to replace it, nothing can: the checker stays as it is. */
  lemma {:induction false} CookieLasts(w: World, events: seq<Event>, src: Term)
    requires Holds(w, src) && w.refreshing == 0 && After(w, events).Some?
    requires OnlyCookie(w, events, CookieFor(w.checker, src))
    requires !Stale(w.checker.secretSet, After(w, events).value.now)
    ensures var v := After(w, events).value;
            v.checker == w.checker && v.refreshing == 0 && Holds(v, src)
  {
    if events != [] {
      var n := |events| - 1;
      OnlyCookiePrefix(w, events, CookieFor(w.checker, src), n);
      CookieLasts(w, events[..n], src);
    }
  }

  /**
   A message stamped at any point of such a run passes the first check at the end of it; and it passes the second one
   for exactly the source the cookie was made for, if and only if the cookie was fresh when it was stamped.
   */
  lemma StampedPasses(w: World, events: seq<Event>, i: nat, src: Term, other: Term)
    requires Holds(w, src) && w.refreshing == 0 && After(w, events).Some?
    requires OnlyCookie(w, events, CookieFor(w.checker, src))
    requires !Stale(w.checker.secretSet, After(w, events).value.now)
    requires i < |events| && events[i].Stamp?
    ensures After(w, events[..i]).Some?
    ensures var (v, u) := (After(w, events[..i]).value, After(w, events).value);
            var p := Stamped(v.generator, events[i].m, v.now);
            && CheckMac1(u.checker, p)
            && (!Stale(v.generator.cookieSet, v.now) ==> (CheckMac2(u.checker, p, other, u.now) <==> other == src))
            && (Stale(v.generator.cookieSet, v.now) && events[i].m.mac2 == Zeros ==>
                  !CheckMac2(u.checker, p, other, u.now))
  {
    Prefix(w, events, i);
    OnlyCookiePrefix(w, events, CookieFor(w.checker, src), i);
    CookieLasts(w, events[..i], src);
    CookieLasts(w, events, src);
  }

  /**
   The condition on `refreshing` is exact. A caller that found the secret stale before another replaced it replaces it
   once more, and then a message stamped with the fresh cookie fails the second check under the fresh secret.
   */
  lemma PendingRefreshBreaksCookie(w: World, m: Message, src: Term, secret: Term)
    requires Holds(w, src) && w.refreshing > 0 && secret != w.checker.secret && !Stale(w.generator.cookieSet, w.now)
    ensures var u := Next(w, Refresh(secret)).value;
            && !Stale(u.checker.secretSet, u.now)
            && !CheckMac2(u.checker, Stamped(u.generator, m, u.now), src, u.now)
  {}

  /**
   So is the one on accepted replies: one that carries another cookie, for another source or another secret, breaks it.
   */
  lemma OtherReplyBreaksCookie(w: World, r: Reply, m: Message, src: Term)
    requires Holds(w, src) && Accepts(w.generator, r) && r.box.plain != CookieFor(w.checker, src)
    ensures var u := Next(w, Deliver(r)).value;
            && !Stale(u.generator.cookieSet, u.now)
            && !CheckMac2(u.checker, Stamped(u.generator, m, u.now), src, u.now)
  {}

  /** Two callers that find the secret stale at once lead to a pending refresh under a fresh secret. */
  lemma OverlappingCallers(w: World, first: Term)
    requires Stale(w.checker.secretSet, w.now)
    ensures After(w, [Ask, Ask, Refresh(first)]) ==
            Some(w.(checker := Refreshed(w.checker, first, w.now), refreshing := w.refreshing + 1))
    ensures !Stale(Refreshed(w.checker, first, w.now).secretSet, w.now)
  {
    var events := [Ask, Ask, Refresh(first)];
    assert events[..2] == [Ask, Ask] && events[..2][..1] == [Ask] && events[..2][..1][..0] == [];
    assert After(w, []) == Some(w);
    assert After(w, [Ask]) == Next(w, Ask);
    assert After(w, [Ask, Ask]) == Next(After(w, [Ask]).value, Ask);
  }

  // ---- Objects ---------------------------------------------------------------------------------

  class Packet {
    var m: Message

    constructor (m: Message)
      ensures this.m == m
    {
      this.m := m;
    }
  }

  class CookieChecker {
    var mac1Key: Term
    var secret: Term
    var secretSet: Option<nat>
    var sealKey: Term

    function Value(): Checker
      reads this
    {
      Checker(mac1Key, secret, secretSet, sealKey)
    }

    constructor (pk: PublicKey)
      ensures Value() == Checker(Mac1Key(pk), Zeros, None, SealKey(pk))
    {
      mac1Key, sealKey, secret, secretSet := Mac1Key(pk), SealKey(pk), Zeros, None;
    }

    /** The old secret stays but is stale. */
    method Init(pk: PublicKey)
      modifies this
      ensures Value() == old(Value()).(mac1Key := Mac1Key(pk), sealKey := SealKey(pk), secretSet := None)
    {
      mac1Key := Hash(Cat(Text("mac1----"), Key(pk)));
      sealKey := Hash(Cat(Text("cookie--"), Key(pk)));
      secretSet := None;
    }

    method CheckMAC1(p: Packet) returns (ok: bool)
      ensures ok <==> CheckMac1(Value(), p.m)
    {
      var mac1 := Mac(mac1Key, p.m.body);
      ok := mac1 == p.m.mac1;
    }

    method CheckMAC2(p: Packet, src: Term, now: nat) returns (ok: bool)
      ensures ok <==> CheckMac2(Value(), p.m, src, now)
    {
      if Stale(secretSet, now) {
        return false;
      }
      var cookie := Mac(secret, src);
      var mac2 := Mac(cookie, Cat(p.m.body, p.m.mac1));
      ok := mac2 == p.m.mac2;
    }

    method CreateReply(p: Packet, receiver: nat, src: Term, now: nat, drawn: Term, nonce: Term) returns (r: Reply)
      modifies this
      ensures Value() == if old(Stale(secretSet, now)) then Refreshed(old(Value()), drawn, now) else old(Value())
      ensures r == ReplyOf(Value(), p.m, receiver, src, nonce)
      ensures !Stale(secretSet, now)
    {
      if Stale(secretSet, now) {
        secret := drawn;
        secretSet := Some(now);
      }
      var cookie := Mac(secret, src);
      r := Reply(receiver, nonce, Sealed(sealKey, nonce, cookie, p.m.mac1));
    }
  }

  class CookieGenerator {
    var mac1Key: Term
    var cookie: Term
    var cookieSet: Option<nat>
    var hasLastMac1: bool
    var lastMac1: Term
    var sealKey: Term

    function Value(): Generator
      reads this
    {
      Generator(mac1Key, cookie, cookieSet, hasLastMac1, lastMac1, sealKey)
    }

    constructor (pk: PublicKey)
      ensures Value() == Generator(Mac1Key(pk), Zeros, None, false, Zeros, SealKey(pk))
    {
      mac1Key, sealKey, cookie, cookieSet := Mac1Key(pk), SealKey(pk), Zeros, None;
      hasLastMac1, lastMac1 := false, Zeros;
    }

    /** The last MAC stays, so a reply to a message stamped before may still be accepted under the new key. */
    method Init(pk: PublicKey)
      modifies this
      ensures Value() == old(Value()).(mac1Key := Mac1Key(pk), sealKey := SealKey(pk), cookieSet := None)
    {
      mac1Key := Hash(Cat(Text("mac1----"), Key(pk)));
      sealKey := Hash(Cat(Text("cookie--"), Key(pk)));
      cookieSet := None;
    }

    method ConsumeReply(r: Reply, now: nat) returns (ok: bool)
      modifies this
      ensures ok <==> old(Accepts(Value(), r))
      ensures Value() == AfterReply(old(Value()), r, now)
    {
      if !hasLastMac1 {
        return false;
      }
      var plain := Open(sealKey, r.nonce, r.box, lastMac1);
      if plain.None? {
        return false;
      }
      cookieSet := Some(now);
      cookie := plain.value;
      ok := true;
    }

    /** Writes the MACs into the packet; the second one is left as it was without a fresh cookie. */
    method AddMacs(p: Packet, now: nat)
      modifies this, p
      ensures p.m == Stamped(old(Value()), old(p.m), now)
      ensures Value() == AfterStamp(old(Value()), old(p.m))
    {
      p.m := p.m.(mac1 := Mac(mac1Key, p.m.body));
      lastMac1 := p.m.mac1;
      hasLastMac1 := true;
      if Stale(cookieSet, now) {
        return;
      }
      p.m := p.m.(mac2 := Mac(cookie, Cat(p.m.body, p.m.mac1)));
    }
  }

  /** The exchange on the objects: after one reply, a message passes both checks for exactly 120 seconds. */
  method Exchange(checker: CookieChecker, generator: CookieGenerator, pk: PublicKey, first: Packet, later: Packet,
                  src: Term,
                  receiver: nat, drawn: Term, nonce: Term, t: nat, t': nat)
    returns (ok1: bool, ok2: bool)
    requires first != later && t <= t'
    modifies checker, generator, first, later
    ensures ok1
    ensures ok2 <==> t' - t <= REFRESH_TIME
  {
    checker.Init(pk);
    generator.Init(pk);
    generator.AddMacs(first, t);
    var reply := checker.CreateReply(first, receiver, src, t, drawn, nonce);
    var accepted := generator.ConsumeReply(reply, t);
    assert accepted;
    generator.AddMacs(later, t');
    ok1 := checker.CheckMAC1(later);
    ok2 := checker.CheckMAC2(later, src, t');
  }
}
