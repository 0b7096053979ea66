/**
 Nonce allocation of internal/transport/send.go: `n` sending goroutines share one 64-bit counter. Each takes a nonce
 with an atomic add; one that drew a nonce past the limit stores the limit back before it adds again. Expiring
 the keypairs stores the limit at any time. The steps of the goroutines interleave freely.
 */
module Nonce {
  import opened Common

  const WORD := 0x1_0000_0000_0000_0000
  const MAX_SENDERS := 0x2000

  /** `pending` are the senders between their add and their store; `issued` are the nonces handed out for use. */
  datatype State = State(counter: nat, pending: set<nat>, issued: seq<nat>)

  datatype Step = Add(sender: nat) | Store(sender: nat) | Expire

  predicate Enabled(n: nat, s: State, a: Step) {
    match a
    case Add(t) => t < n && t !in s.pending
    case Store(t) => t in s.pending
    case Expire => true
  }

  function Next(s: State, a: Step): State {
    match a
    case Add(t) =>
      var s' := s.(counter := (s.counter + 1) % WORD);
      if s.counter >= REJECT_AFTER then s'.(pending := s.pending + {t}) else s'.(issued := s.issued + [s.counter])
    case Store(t) => s.(counter := REJECT_AFTER, pending := s.pending - {t})
    case Expire => s.(counter := REJECT_AFTER)
  }

  function Run(n: nat, trace: seq<Step>): Option<State> {
    if trace == [] then Some(State(0, {}, []))
    else
      var before := Run(n, trace[..|trace| - 1]);
      var a := trace[|trace| - 1];
      if before.None? || !Enabled(n, before.value, a) then None else Some(Next(before.value, a))
  }

  ghost predicate Distinct(s: seq<nat>) {
    forall i, j :: 0 <= i < j < |s| ==> s[i] != s[j]
  }

  ghost predicate Usable(s: seq<nat>) {
    Distinct(s) && forall i :: 0 <= i < |s| ==> s[i] < REJECT_AFTER
  }

  /** The counter runs at most one past the limit for each sender that has yet to store the limit back. */
  ghost predicate Ahead(s: State) {
    s.counter <= REJECT_AFTER + |s.pending| && forall i :: 0 <= i < |s.issued| ==> s.issued[i] < s.counter
  }

  /** The counter has wrapped around, but every sender must store the limit back before it may add again. */
  ghost predicate Stalled(n: nat, s: State) {
    s.counter == 0 && |s.pending| == n
  }

  ghost predicate Inv(n: nat, s: State) {
    && (forall t :: t in s.pending ==> t < n)
    && Usable(s.issued)
    && (Ahead(s) || Stalled(n, s))
  }

  lemma {:induction false} Bounded(s: set<nat>, n: nat)
    requires forall t :: t in s ==> t < n
    ensures |s| <= n
  {
    if n == 0 {
      assert s == {};
    } else {
      Bounded(s - {n - 1}, n - 1);
      assert n - 1 in s ==> s == s - {n - 1} + {n - 1};
      assert n - 1 !in s ==> s == s - {n - 1};
    }
  }

  lemma AddKeeps(n: nat, s: State, t: nat)
    requires n <= MAX_SENDERS + 1 && Inv(n, s) && Enabled(n, s, Add(t))
    ensures Inv(n, Next(s, Add(t)))
    ensures n <= MAX_SENDERS ==> s.counter + 1 < WORD
  {
    Bounded(s.pending + {t}, n);
    assert Ahead(s);
  }

  lemma StepKeeps(n: nat, s: State, a: Step)
    requires n <= MAX_SENDERS + 1 && Inv(n, s) && Enabled(n, s, a)
    ensures Inv(n, Next(s, a))
  {
    match a
    case Add(t) => AddKeeps(n, s, t);
    case Store(t) => assert Ahead(Next(s, a));
    case Expire => assert Ahead(Next(s, a));
  }

  /**
   Over every interleaving, and whatever is expired when: up to 8193 senders never issue a nonce twice or one past
   the limit, and up to 8192 senders never wrap the counter around.
   */
  lemma {:induction false} NonceSafety(n: nat, trace: seq<Step>)
    requires n <= MAX_SENDERS + 1 && Run(n, trace).Some?
    ensures Inv(n, Run(n, trace).value) && Usable(Run(n, trace).value.issued)
    ensures forall i :: 0 <= i < |trace| ==> Run(n, trace[..i]).Some?
    ensures forall i ::
              n <= MAX_SENDERS && 0 <= i < |trace| && trace[i].Add? ==> Run(n, trace[..i]).value.counter + 1 < WORD
  {
    if trace != [] {
      var last := |trace| - 1;
      var before, a := trace[..last], trace[last];
      NonceSafety(n, before);
      StepKeeps(n, Run(n, before).value, a);
      forall i | 0 <= i < |trace|
        ensures Run(n, trace[..i]).Some?
                && (n <= MAX_SENDERS && trace[i].Add? ==> Run(n, trace[..i]).value.counter + 1 < WORD)
      {
        if i < last {
          assert before[i] == trace[i] && before[..i] == trace[..i];
        } else if a.Add? {
          AddKeeps(n, Run(n, before).value, a.sender);
        }
      }
    }
  }

  // ---- Both bounds are sharp -------------------------------------------------------------------

  function UpTo(k: nat): (r: set<nat>)
    ensures forall t: nat :: t in r <==> t < k
  {
    if k == 0 then {} else UpTo(k - 1) + {k - 1}
  }

  /** Issue nonce 0, expire the keypair, then let `k` senders add. */
  function Burst(k: nat): seq<Step> {
    if k == 0 then [Add(0), Expire] else Burst(k - 1) + [Add(k - 1)]
  }

  lemma BurstStart(n: nat)
    requires 0 < n
    ensures Run(n, Burst(0)) == Some(State(REJECT_AFTER, {}, [0]))
  {
    var first := [Add(0)];
    assert first[..0] == [] && Run(n, first[..0]) == Some(State(0, {}, []));
    assert first[|first| - 1] == Add(0) && Run(n, first) == Some(State(1, {}, [] + [0]));
    assert Burst(0) == [Add(0), Expire] && Burst(0)[..|Burst(0)| - 1] == first && Burst(0)[|Burst(0)| - 1] == Expire;
    var issued: seq<nat> := [];
    assert Run(n, Burst(0)) == Some(State(REJECT_AFTER, {}, issued + [0])) && issued + [0] == [0];
  }

  /** The counter after `k` adds past the limit. */
  function Past(k: nat): nat
    requires k <= MAX_SENDERS + 1
  {
    if k <= MAX_SENDERS then REJECT_AFTER + k else 0
  }

  lemma BurstStep(k: nat)
    requires 0 < k <= MAX_SENDERS + 1
    ensures Next(State(Past(k - 1), UpTo(k - 1), [0]), Add(k - 1)) == State(Past(k), UpTo(k), [0])
  {
    assert Past(k - 1) >= REJECT_AFTER;
  }

  lemma {:induction false} BurstRun(n: nat, k: nat)
    requires 0 < n && k <= n && k <= MAX_SENDERS + 1
    ensures Run(n, Burst(k)) == Some(State(Past(k), UpTo(k), [0]))
  {
    if k > 0 {
      BurstRun(n, k - 1);
      BurstStep(k);
      assert Burst(k)[..|Burst(k)| - 1] == Burst(k - 1);
    } else {
      BurstStart(n);
    }
  }

  /** One sender more than 8192: some interleaving reaches the largest counter, and the next add wraps around. */
  lemma OneMoreSenderWraps(n: nat, k: nat)
    requires n > MAX_SENDERS && k == MAX_SENDERS
    ensures Run(n, Burst(k)).Some? && Run(n, Burst(k)).value.counter == WORD - 1
    ensures Run(n, Burst(k + 1)).Some? && Run(n, Burst(k + 1)).value.counter == 0
  {
    BurstRun(n, k);
    BurstRun(n, k + 1);
  }

  /** Two senders more: nonce 0 is issued a second time. */
  lemma TwoMoreSendersReuse(n: nat, k: nat)
    requires n > MAX_SENDERS + 1 && k == MAX_SENDERS + 1
    ensures var trace := Burst(k) + [Add(k)];
            Run(n, trace).Some? && Run(n, trace).value.issued == [0, 0]
  {
    BurstRun(n, k);
    assert (Burst(k) + [Add(k)])[..|Burst(k)|] == Burst(k);
  }
}
