/** The coordinator's cached, backed-off probe of the v2 system-log endpoint. */
module Probing {
  import opened Wrappers

  const PROBE_FAIL_LIMIT: nat := 5
  /** _PROBE_RETRY_AFTER, in milliseconds. */
  const PROBE_RETRY_AFTER: int := 3600000

  /** What one probe request tells: HTTP 200, HTTP 404, or anything else. */
  datatype Outcome = Available | NotImplemented | Transient

  datatype Probe = Probe(has: Option<bool>, fails: nat, backoff: Option<int>)

  const UNPROBED := Probe(None, 0, None)

  /** One use of the probe: when it is consulted, what a request would get, and when that arrives. */
  datatype Use = Use(askedAt: int, outcome: Outcome, answeredAt: int)

  predicate Asks(p: Probe, now: int) {
    p.has.None? || (p.has == Some(false) && p.backoff.Some? && now >= p.backoff.value)
  }

  function Answered(p: Probe, u: Use): Probe {
    match u.outcome
    case Available => Probe(Some(true), 0, None)
    case NotImplemented => p.(has := Some(false), fails := 0)
    case Transient =>
      if p.fails + 1 >= PROBE_FAIL_LIMIT then Probe(Some(false), p.fails + 1, Some(u.answeredAt + PROBE_RETRY_AFTER))
      else p.(fails := p.fails + 1)
  }

  /** An expired backoff is forgotten before the request goes out. */
  function Consulted(p: Probe, u: Use): Probe {
    if Asks(p, u.askedAt) then Answered(if p.has.None? then p else UNPROBED, u) else p
  }

  /** The value the poll gets: v2 or not. */
  predicate SaysV2(p: Probe, u: Use) {
    if Asks(p, u.askedAt) then u.outcome.Available? else p.has == Some(true)
  }

  function After(p: Probe, us: seq<Use>): Probe {
    if us == [] then p else Consulted(After(p, us[..|us| - 1]), us[|us| - 1])
  }

  function Sent(p: Probe, us: seq<Use>): nat {
    if us == [] then 0
    else Sent(p, us[..|us| - 1]) + if Asks(After(p, us[..|us| - 1]), us[|us| - 1].askedAt) then 1 else 0
  }

  /** The shape of every reachable state. */
  predicate Sound(p: Probe) {
    && (p.has == Some(true) ==> p.fails == 0 && p.backoff.None?)
    && (p.has.None? ==> p.fails < PROBE_FAIL_LIMIT && p.backoff.None?)
    && (p.has == Some(false) && p.backoff.None? ==> p.fails == 0)
    && (p.backoff.Some? ==> p.has == Some(false) && p.fails == PROBE_FAIL_LIMIT)
  }

  lemma {:induction false} ReachableIsSound(us: seq<Use>)
    ensures Sound(After(UNPROBED, us))
  {
    if us != [] {
      ReachableIsSound(us[..|us| - 1]);
    }
  }

  lemma {:induction false} Failures(n: nat, at: int) returns (us: seq<Use>)
    requires n < PROBE_FAIL_LIMIT
    ensures After(UNPROBED, us) == Probe(None, n, None)
  {
    us := [];
    if n > 0 {
      var pre := Failures(n - 1, at);
      us := pre + [Use(at, Transient, at)];
      assert us[..|us| - 1] == pre;
    }
  }

  /** The shape is exact: every sound state is reached by some run from the initial one. */
  lemma SoundIsReachable(p: Probe) returns (us: seq<Use>)
    requires Sound(p)
    ensures After(UNPROBED, us) == p
  {
    if p.has.None? {
      us := Failures(p.fails, 0);
    } else if p.backoff.None? {
      us := [Use(0, if p.has.value then Available else NotImplemented, 0)];
      assert After(UNPROBED, us[..0]) == UNPROBED;
    } else {
      var pre := Failures(PROBE_FAIL_LIMIT - 1, 0);
      us := pre + [Use(0, Transient, p.backoff.value - PROBE_RETRY_AFTER)];
      assert us[..|us| - 1] == pre;
    }
  }

  predicate Definitive(p: Probe) {
    p.has.Some? && p.backoff.None?
  }

  /** A definitive answer is absorbing: no later probe is sent, the state and the answer stay, and
      only a definitive answer ends probing for good. */
  lemma {:induction false} DefinitiveIsAbsorbing(p: Probe, us: seq<Use>)
    requires Sound(p)
    ensures Definitive(p) ==> Sent(p, us) == 0 && After(p, us) == p
    ensures Definitive(After(p, us)) ==> Definitive(p) || exists i :: 0 <= i < |us| && !us[i].outcome.Transient?
  {
    if us != [] {
      var pre := us[..|us| - 1];
      DefinitiveIsAbsorbing(p, pre);
      if Definitive(After(p, us)) && !Definitive(p) && Definitive(After(p, pre)) {
        var i :| 0 <= i < |pre| && !pre[i].outcome.Transient?;
        assert us[i] == pre[i];
      } else if us[|us| - 1].outcome.Transient? && Definitive(After(p, us)) {
        assert Definitive(After(p, pre));
      }
    }
  }

  /** Clock readings in order, from `start` on, every request transient. */
  predicate TransientSince(us: seq<Use>, start: int) {
    && (forall i :: 0 <= i < |us| ==> us[i].outcome.Transient? && start <= us[i].askedAt <= us[i].answeredAt)
    && (forall i :: 0 <= i < |us| - 1 ==> us[i].answeredAt <= us[i + 1].askedAt)
  }

  function LastAsked(us: seq<Use>, start: int): int {
    if us == [] then start else us[|us| - 1].askedAt
  }

  /** bursts: how many rounds of five are behind the current one. */
  ghost predicate Budget(p: Probe, sent: nat, bursts: int, start: int, last: int, now: int) {
    && -1 <= bursts
    && start + bursts * PROBE_RETRY_AFTER <= last <= now
    && (p.has.None? ==> bursts >= 0 && sent <= PROBE_FAIL_LIMIT * bursts + p.fails)
    && (p.backoff.Some? ==> sent <= PROBE_FAIL_LIMIT * (bursts + 1))
    && (p.backoff.Some? ==> p.backoff.value >= start + (bursts + 1) * PROBE_RETRY_AFTER || bursts == -1)
    && (Definitive(p) ==> sent == 0)
  }

  lemma BudgetStep(p: Probe, sent: nat, bursts: int, start: int, last: int, now: int, u: Use) returns (next: int)
    requires Sound(p) && Budget(p, sent, bursts, start, last, now)
    requires u.outcome.Transient? && start <= u.askedAt <= u.answeredAt && now <= u.askedAt
    ensures Budget(Consulted(p, u), sent + (if Asks(p, u.askedAt) then 1 else 0), next, start, u.askedAt, u.answeredAt)
  {
    next := if p.backoff.Some? && Asks(p, u.askedAt) then bursts + 1 else bursts;
  }

  lemma {:induction false} BudgetHolds(p: Probe, us: seq<Use>, start: int) returns (bursts: int)
    requires Sound(p) && TransientSince(us, start)
    ensures Sound(After(p, us))
    ensures Budget(After(p, us), Sent(p, us), bursts, start, LastAsked(us, start),
                   if us == [] then start else us[|us| - 1].answeredAt)
  {
    if us == [] {
      bursts := if p.backoff.Some? then -1 else 0;
    } else {
      var pre, u := us[..|us| - 1], us[|us| - 1];
      bursts := BudgetHolds(p, pre, start);
      assert pre != [] ==> us[|us| - 2] == pre[|pre| - 1] && us[|us| - 2].answeredAt <= us[|us| - 2 + 1].askedAt;
      bursts := BudgetStep(After(p, pre), Sent(p, pre), bursts, start, LastAsked(pre, start),
                           if pre == [] then start else pre[|pre| - 1].answeredAt, u);
    }
  }

  /** From any reachable state, with only transient outcomes, wall time `span` sees at most
      5 * (floor(span / 1h) + 1) probe requests. */
  lemma ProbeRateBound(p: Probe, us: seq<Use>, start: int, span: nat)
    requires Sound(p) && TransientSince(us, start)
    requires us != [] ==> us[|us| - 1].askedAt <= start + span
    ensures Sent(p, us) <= 5 * (span / (60 * 60 * 1000) + 1)
  {
    var bursts := BudgetHolds(p, us, start);
    assert bursts * PROBE_RETRY_AFTER <= span;
    assert bursts <= span / PROBE_RETRY_AFTER;
  }

  // ---- the answer a poll gets ----

  /** Some request actually sent in this run, starting from p, was answered 200. */
  predicate Confirmed(p: Probe, us: seq<Use>) {
    us != [] && (var pre, u := us[..|us| - 1], us[|us| - 1];
                 Confirmed(p, pre) || (Asks(After(p, pre), u.askedAt) && u.outcome.Available?))
  }

  lemma {:induction false} KnownExactlyWhenConfirmed(us: seq<Use>)
    ensures After(UNPROBED, us).has == Some(true) <==> Confirmed(UNPROBED, us)
  {
    if us != [] {
      KnownExactlyWhenConfirmed(us[..|us| - 1]);
    }
  }

  /** After any run of an instance a poll is told to use v2 exactly when some request sent by it or
      before it was answered 200. */
  lemma AnswersV2Exactly(us: seq<Use>, u: Use)
    ensures SaysV2(After(UNPROBED, us), u) <==> Confirmed(UNPROBED, us + [u])
  {
    assert (us + [u])[..|us|] == us;
    KnownExactlyWhenConfirmed(us);
  }

  /** The first poll of an instance sends a request, so does every poll until a definitive answer or
      five transient ones in a row, and again once an hour has passed since the fifth. */
  lemma AsksExactly(us: seq<Use>, now: int)
    ensures Asks(After(UNPROBED, us), now) <==>
            !Settled(us) && (InARow(us) == 5 ==> LastAnswered(us) + 60 * 60 * 1000 <= now)
  {
    RowIsCounted(us);
  }

  /** A request of the run got a definitive answer. */
  predicate Settled(us: seq<Use>) {
    us != [] && (var pre, u := us[..|us| - 1], us[|us| - 1];
                 Settled(pre) || (Sends(pre, u) && !u.outcome.Transient?))
  }

  predicate Sends(pre: seq<Use>, u: Use) {
    Sent(UNPROBED, pre + [u]) > Sent(UNPROBED, pre)
  }

  /** Transient answers since the last hour's pause ended: one to five once any request was sent. */
  function InARow(us: seq<Use>): int {
    if us == [] then 0
    else
      var pre, u := us[..|us| - 1], us[|us| - 1];
      if !Sends(pre, u) || !u.outcome.Transient? then InARow(pre) else InARow(pre) % 5 + 1
  }

  /** When the last request sent was answered. */
  function LastAnswered(us: seq<Use>): int {
    if us == [] then 0
    else
      var pre, u := us[..|us| - 1], us[|us| - 1];
      if Sends(pre, u) then u.answeredAt else LastAnswered(pre)
  }

  lemma SendsWhenAsked(pre: seq<Use>, u: Use)
    ensures Sends(pre, u) <==> Asks(After(UNPROBED, pre), u.askedAt)
  {
    assert (pre + [u])[..|pre|] == pre;
  }

  /** The state is what the requests sent so far say. */
  lemma {:induction false} RowIsCounted(us: seq<Use>)
    ensures var p := After(UNPROBED, us);
            && Sound(p) && 0 <= InARow(us) <= 5
            && (Definitive(p) <==> Settled(us))
            && (!Settled(us) ==> p.fails == InARow(us) && (p.backoff.Some? <==> InARow(us) == 5))
            && (p.backoff.Some? ==> p.backoff.value == LastAnswered(us) + 60 * 60 * 1000)
  {
    if us != [] {
      var pre, u := us[..|us| - 1], us[|us| - 1];
      hide Sends;
      RowIsCounted(pre);
      SendsWhenAsked(pre, u);
    }
  }
}
