/** The retransmission timer (RFC 6347, section 4.2.4.1; d1_lib.cc). The clock is
    a parameter of every call that reads it. */
module DtlsTimer {
  import opened Wrappers
  import opened Arith

  const MAX_DURATION := 60000
  const MAX_TIMEOUTS := 12
  const SLACK := 15000

  /** A `timeval`. */
  datatype Time = Time(sec: nat, usec: nat)
  {
    predicate Normalised() {
      usec < 1_000_000
    }

    function Micros(): nat {
      sec * 1_000_000 + usec
    }
  }

  const ZERO := Time(0, 0)

  /** A reading of the clock: normalised and not zero. */
  predicate Clock(now: Time) {
    now.Normalised() && now != ZERO
  }

  /** `next` is ZERO while no timer runs; `duration` is in milliseconds. */
  datatype Timer = Timer(next: Time, duration: nat, timeouts: nat)
  {
    predicate Running() {
      next != ZERO
    }

    /** Less than 15 ms are left. */
    predicate Expired(now: Time) {
      Running() && next.Micros() < now.Micros() + SLACK
    }
  }

  predicate TimerInv(t: Timer) {
    t.next.Normalised() && 1 <= t.duration <= MAX_DURATION
  }

  const INT_MAX := 0x7fff_ffff

  /** A stretch of time as the caller gets it: seconds are clamped to an int. */
  function Clamped(micros: nat): Time {
    var sec := micros / 1_000_000;
    Time(if sec > INT_MAX then INT_MAX else sec, micros % 1_000_000)
  }

  /** The time `ms` milliseconds after `t`. */
  function After(t: Time, ms: nat): (u: Time)
    requires t.Normalised()
    ensures u.Normalised() && u.Micros() == t.Micros() + 1000 * ms
  {
    var sec, usec := t.sec + ms / 1000, t.usec + ms % 1000 * 1000;
    if usec >= 1_000_000 then Time(sec + 1, usec - 1_000_000) else Time(sec, usec)
  }

  function Doubled(ms: nat): nat {
    if 2 * ms > MAX_DURATION then MAX_DURATION else 2 * ms
  }

  class RetransmitTimer {
    const initial: nat
    var next: Time
    var duration: nat
    var timeouts: nat

    ghost function Abs(): Timer
      reads this
    {
      Timer(next, duration, timeouts)
    }

    ghost predicate Valid()
      reads this
    {
      1 <= initial <= MAX_DURATION && TimerInv(Abs())
    }

    constructor (initial: nat)
      requires 1 <= initial <= MAX_DURATION
      ensures Valid() && this.initial == initial && Abs() == Timer(ZERO, initial, 0)
    {
      this.initial := initial;
      next, duration, timeouts := ZERO, initial, 0;
    }

    /** `dtls1_start_timer` */
    method Start(now: Time)
      requires Valid() && Clock(now)
      modifies this
      ensures Valid() && Abs() == Started(old(Abs()), initial, now)
      ensures Abs().Running() && next.Micros() == now.Micros() + 1000 * duration
    {
      if next.sec == 0 && next.usec == 0 {
        duration := initial;
      }
      var sec, usec := now.sec + duration / 1000, now.usec + duration % 1000 * 1000;
      if usec >= 1_000_000 {
        sec, usec := sec + 1, usec - 1_000_000;
      }
      next := Time(sec, usec);
    }

    /** `dtls1_stop_timer` */
    method Stop()
      requires Valid()
      modifies this
      ensures Valid() && Abs() == Timer(ZERO, initial, 0)
    {
      timeouts, next, duration := 0, ZERO, initial;
    }

    /** `DTLSv1_get_timeout`: what is left, rounded to nothing below 15 ms. */
    method TimeLeft(now: Time) returns (left: Option<Time>)
      requires Valid() && Clock(now)
      ensures left.Some? <==> Abs().Running()
      ensures left.Some? ==> left.value == if Abs().Expired(now) then ZERO else Clamped(next.Micros() - now.Micros())
    {
      if next.sec == 0 && next.usec == 0 {
        return None;
      }
      if next.sec < now.sec || (next.sec == now.sec && next.usec <= now.usec) {
        return Some(ZERO);
      }
      var sec, usec := next.sec - now.sec, 0;
      if next.usec >= now.usec {
        usec := next.usec - now.usec;
      } else {
        usec := 1_000_000 + next.usec - now.usec;
        sec := sec - 1;
      }
      if sec == 0 && usec < SLACK {
        return Some(ZERO);
      }
      assert next.Micros() - now.Micros() == 1_000_000 * sec + usec;
      if sec > INT_MAX {
        sec := INT_MAX;
      }
      return Some(Time(sec, usec));
    }

    /** `dtls1_is_timer_expired` */
    method IsExpired(now: Time) returns (expired: bool)
      requires Valid() && Clock(now)
      ensures expired <==> Abs().Expired(now)
    {
      var left := TimeLeft(now);
      return left.Some? && left.value.sec == 0 && left.value.usec == 0;
    }

    /** `dtls1_check_timeout_num` */
    method CountTimeout() returns (ok: bool)
      requires Valid()
      modifies this
      ensures Valid() && Abs() == old(Abs()).(timeouts := old(timeouts) + 1) && (ok <==> timeouts <= MAX_TIMEOUTS)
    {
      timeouts := timeouts + 1;
      return timeouts <= MAX_TIMEOUTS;
    }

    /** `DTLSv1_handle_timeout`, up to the retransmission itself. `later` is the
        clock when the timer is restarted. */
    method HandleTimeout(now: Time, later: Time) returns (verdict: Verdict)
      requires Valid() && Clock(now) && Clock(later)
      modifies this
      ensures Valid() && (Abs(), verdict) == Handled(old(Abs()), initial, now, later)
    {
      var expired := IsExpired(now);
      if !expired {
        return NotExpired;
      }
      var ok := CountTimeout();
      if !ok {
        return GiveUp;
      }
      duration := duration * 2;
      if duration > MAX_DURATION {
        duration := MAX_DURATION;
      }
      Start(later);
      return Retransmit;
    }
  }

  datatype Verdict = NotExpired | GiveUp | Retransmit

  function Started(t: Timer, initial: nat, now: Time): Timer
    requires Clock(now)
  {
    var duration := if t.Running() then t.duration else initial;
    t.(next := After(now, duration), duration := duration)
  }

  function Handled(t: Timer, initial: nat, now: Time, later: Time): (Timer, Verdict)
    requires Clock(later)
  {
    if !t.Expired(now) then (t, NotExpired)
    else if t.timeouts + 1 > MAX_TIMEOUTS then (t.(timeouts := t.timeouts + 1), GiveUp)
    else (Started(t.(timeouts := t.timeouts + 1, duration := Doubled(t.duration)), initial, later), Retransmit)
  }

  // ---------------------------------------------------------------- whole runs

  datatype Event =
    | StartTimer(now: Time)                // a flight is flushed
    | StopTimer                            // a new flight begins, or the handshake ends
    | Timeout(now: Time, later: Time)      // the caller handles a timeout
    | PeerFinishedAgain                    // the peer resends its Finished

  predicate EventOk(ev: Event) {
    match ev
    case StartTimer(now) => Clock(now)
    case Timeout(now, later) => Clock(now) && Clock(later)
    case _ => true
  }

  /** The timer, how often it has expired and how often the flight was resent
      since it was last stopped. */
  datatype History = History(timer: Timer, expiries: nat, resent: nat)

  function Step(h: History, initial: nat, ev: Event): History
    requires EventOk(ev)
  {
    match ev
    case StartTimer(now) => h.(timer := Started(h.timer, initial, now))
    case StopTimer => History(Timer(ZERO, initial, 0), 0, 0)
    case Timeout(now, later) =>
      var (t, verdict) := Handled(h.timer, initial, now, later);
      if verdict.Retransmit? then History(t, h.expiries + 1, h.resent + 1) else h.(timer := t)
    case PeerFinishedAgain =>
      var n := h.timer.timeouts + 1;
      History(h.timer.(timeouts := n), h.expiries, if n <= MAX_TIMEOUTS then h.resent + 1 else h.resent)
  }

  function Run(initial: nat, evs: seq<Event>): History
    requires forall ev | ev in evs :: EventOk(ev)
    decreases |evs|
  {
    if evs == [] then History(Timer(ZERO, initial, 0), 0, 0)
    else Step(Run(initial, evs[..|evs| - 1]), initial, evs[|evs| - 1])
  }

  /** The duration after `k` expiries. */
  function Backoff(initial: nat, k: nat): nat {
    if initial * Pow2(k) > MAX_DURATION then MAX_DURATION else initial * Pow2(k)
  }

  lemma BackoffDoubles(initial: nat, k: nat)
    ensures Doubled(Backoff(initial, k)) == Backoff(initial, k + 1)
  {
    assert initial * Pow2(k + 1) == 2 * (initial * Pow2(k));
  }

  /** Along every run: the timer stays normalised; while it runs its duration is
      the initial one doubled once for each expiry since it was last stopped,
      up to 60 seconds; and between two stops a flight is resent at most 12
      times. */
  lemma {:induction false} TimerBacksOff(initial: nat, evs: seq<Event>)
    requires 1 <= initial <= MAX_DURATION && forall ev | ev in evs :: EventOk(ev)
    ensures var h := Run(initial, evs);
            && TimerInv(h.timer)
            && (h.timer.Running() ==>
                  h.timer.duration == if initial * Pow2(h.expiries) > 60000 then 60000 else initial * Pow2(h.expiries))
            && (!h.timer.Running() ==> h.expiries == 0)
            && h.expiries <= h.resent <= h.timer.timeouts && h.resent <= 12
    decreases |evs|
  {
    if evs == [] {
    } else {
      TimerBacksOff(initial, evs[..|evs| - 1]);
      var h := Run(initial, evs[..|evs| - 1]);
      BackoffDoubles(initial, h.expiries);
      assert Backoff(initial, 0) == initial;
    }
  }

  /** What handling a timeout does, exactly: nothing before less than 15 ms are
      left; otherwise another retransmission, with twice the duration up to a
      minute and a deadline that far ahead; and after twelve the end. */
  lemma HandledExactly(t: Timer, initial: nat, now: Time, later: Time)
    requires TimerInv(t) && Clock(now) && Clock(later)
    ensures var (t', verdict) := Handled(t, initial, now, later);
            var expired := t.next != Time(0, 0) && t.next.Micros() < now.Micros() + 15000;
            && (verdict == NotExpired <==> !expired) && (!expired ==> t' == t)
            && (verdict == GiveUp <==> expired && t.timeouts >= 12)
            && (verdict == Retransmit <==> expired && t.timeouts < 12)
            && (verdict == Retransmit ==>
                  && t'.timeouts == t.timeouts + 1
                  && t'.duration == (if 2 * t.duration > 60000 then 60000 else 2 * t.duration)
                  && t'.next.Micros() == later.Micros() + 1000 * t'.duration)
  {
  }

  /** A timer is started, and then timeouts are handled, each once it has expired. */
  predicate KeepsExpiring(initial: nat, evs: seq<Event>)
    requires forall ev | ev in evs :: EventOk(ev)
    decreases |evs|
  {
    evs != [] &&
    if |evs| == 1 then evs[0].StartTimer?
    else
      var before, last := evs[..|evs| - 1], evs[|evs| - 1];
      KeepsExpiring(initial, before) && last.Timeout? && Run(initial, before).timer.Expired(last.now)
  }

  /** As often as the timer expires the flight is resent, twelve times at most. */
  lemma {:induction false} ResentEachTime(initial: nat, evs: seq<Event>)
    requires 1 <= initial <= 60000 && (forall ev | ev in evs :: EventOk(ev)) && KeepsExpiring(initial, evs)
    ensures var h := Run(initial, evs);
            && h.resent == (if |evs| - 1 <= 12 then |evs| - 1 else 12) && h.timer.timeouts == |evs| - 1
            && h.timer.next != ZERO && TimerInv(h.timer)
    decreases |evs|
  {
    if |evs| == 1 {
      assert Run(initial, evs[..0]) == History(Timer(ZERO, initial, 0), 0, 0);
      assert evs[0] in evs;
      AfterIsLater(evs[0].now, initial);
    } else {
      var before, last := evs[..|evs| - 1], evs[|evs| - 1];
      assert last in evs;
      ResentEachTime(initial, before);
      var t := Run(initial, before).timer;
      HandledExactly(t, initial, last.now, last.later);
      if t.timeouts < 12 {
        AfterIsLater(last.later, Doubled(t.duration));
      }
    }
  }

  lemma AfterIsLater(t: Time, ms: nat)
    requires Clock(t)
    ensures After(t, ms) != ZERO
  {
    assert After(t, ms).Micros() >= t.Micros() > 0;
  }
}
