/** The timing of the TLS certificate renewer (ca/renew.go). Times and durations are in nanoseconds. */
module Renewer {
  import opened Text

  const SECOND: int := 1_000_000_000
  const MINUTE: int := 60 * SECOND

  // ---------------------------------------------------------------------------------------------
  // Arithmetic of the source language

  /** Integer division, which truncates toward zero. */
  function Quo(a: int, b: int): (q: int)
    requires b > 0
    ensures a >= 0 ==> q == a / b
  {
    if a >= 0 then a / b else -((-a) / b)
  }

  /** Duration.Truncate to a second: toward zero. */
  function TruncateToSecond(d: int): (r: int)
    ensures d >= 0 ==> 0 <= r <= d < r + SECOND
    ensures d < 0 ==> r - SECOND < d <= r <= 0
  {
    Quo(d, SECOND) * SECOND
  }

  /** Time.Truncate to a second, for times after the zero time. */
  function StartOfSecond(t: int): (r: int)
    ensures r <= t < r + SECOND && r % SECOND == 0
  {
    t / SECOND * SECOND
  }

  /** rand.Int63n: a value below a bound, which must be positive; `raw` is where the randomness comes from. */
  function Int63n(bound: int, raw: nat): (n: int)
    requires bound > 0
    ensures 0 <= n < bound
  {
    raw % bound
  }

  // ---------------------------------------------------------------------------------------------
  // Delays

  datatype Settings = Settings(renewBefore: int, renewJitter: int) {
    /** Both bounds given to the random generator are positive. */
    predicate Usable() {
      renewJitter > 0 && Quo(renewJitter, 2) > 0
    }
  }

  /** The settings of a renewer; a zero option stands for the default. */
  function SettingsFor(period: int, before: int, jitter: int): (s: Settings)
    ensures if before != 0 then s.renewBefore == before
            else period >= 0 ==> 3 * s.renewBefore <= period < 3 * s.renewBefore + 3
    ensures if jitter != 0 then s.renewJitter == jitter
            else period >= 0 ==> 20 * s.renewJitter <= period < 20 * s.renewJitter + 20
  {
    Settings(if before == 0 then Quo(period, 3) else before, if jitter == 0 then Quo(period, 20) else jitter)
  }

  /** nextRenewDuration before it is cut off at zero. */
  function Lead(s: Settings, notAfter: int, now: int, raw: nat): int
    requires s.Usable()
  {
    TruncateToSecond(notAfter - now) - s.renewBefore - Int63n(s.renewJitter, raw)
  }

  /** The delay leaves the lead before the end of the certificate, with less than a jitter and a second to spare;
      it is cut off at zero only where that time has come. */
  function NextDelay(s: Settings, notAfter: int, now: int, raw: nat): (d: int)
    requires s.Usable()
    ensures d >= 0 && (notAfter >= now ==> InWindow(s, notAfter, now, d))
    ensures notAfter < now && s.renewBefore >= 0 ==> d == 0
  {
    if Lead(s, notAfter, now, raw) < 0 then 0 else Lead(s, notAfter, now, raw)
  }

  /** What is left of the certificate after the delay: the lead and less than a jitter and a second, or less than that
      already now, when there is no delay. */
  predicate InWindow(s: Settings, notAfter: int, now: int, d: int) {
    var left := notAfter - (now + d);
    left < s.renewBefore + s.renewJitter + SECOND && (d > 0 ==> s.renewBefore <= left)
  }

  /** The delay after a failed attempt: between half a jitter and twice that. */
  function RetryDelay(s: Settings, raw: nat): (d: int)
    requires s.Usable()
    ensures 2 * d >= s.renewJitter - 1 && d < s.renewJitter
  {
    Quo(s.renewJitter, 2) + Int63n(Quo(s.renewJitter, 2), raw)
  }

  // ---------------------------------------------------------------------------------------------
  // The renewer

  class TLSRenewer {
    var notAfter: int
    var certNotAfter: int
    var settings: Settings
    var timer: Option<int>

    constructor (notAfter: int, settings: Settings)
      ensures this.notAfter == notAfter && certNotAfter == notAfter - MINUTE && this.settings == settings
      ensures timer == None
    {
      this.notAfter, certNotAfter, this.settings, timer := notAfter, notAfter - MINUTE, settings, None;
    }

    /** NewTLSRenewer; `before` and `jitter` are zero unless set by an option. */
    static method New(notAfter: int, now: int, before: int, jitter: int) returns (r: TLSRenewer?)
      ensures r == null <==> notAfter - StartOfSecond(now) < MINUTE
      ensures r != null ==> fresh(r) && r.notAfter == notAfter && r.certNotAfter == notAfter - MINUTE && r.timer == None
      ensures r != null ==> r.settings == SettingsFor(notAfter - StartOfSecond(now), before, jitter)
      ensures r != null && jitter == 0 ==> r.settings.Usable()
    {
      var renewBefore, renewJitter := before, jitter;
      var period := notAfter - StartOfSecond(now);
      if period < MINUTE {
        return null;
      }
      if renewBefore == 0 {
        renewBefore := Quo(period, 3);
      }
      if renewJitter == 0 {
        renewJitter := Quo(period, 20);
      }
      r := new TLSRenewer(notAfter, Settings(renewBefore, renewJitter));
    }

    /** nextRenewDuration. */
    method NextRenewDuration(notAfter: int, now: int, raw: nat) returns (d: int)
      requires settings.Usable()
      ensures d >= 0 && (notAfter >= now ==> InWindow(settings, notAfter, now, d))
      ensures d == NextDelay(settings, notAfter, now, raw)
    {
      d := TruncateToSecond(notAfter - now) - settings.renewBefore;
      var n := Int63n(settings.renewJitter, raw);
      d := d - n;
      if d < 0 {
        d := 0;
      }
    }

    /** Run: sets the timer for the first attempt. */
    method Run(now: int, raw: nat)
      requires settings.Usable()
      modifies this`timer
      ensures timer.Some? && timer.value >= now
      ensures notAfter >= now ==> InWindow(settings, notAfter, now, timer.value - now)
      ensures timer == Some(now + NextDelay(settings, notAfter, now, raw))
    {
      var next := NextRenewDuration(notAfter, now, raw);
      timer := Some(now + next);
    }

    /** renewCertificate, when the timer fires: `renewed` is the end of the new certificate, if there is one. */
    method RenewCertificate(now: int, renewed: Option<int>, raw: nat)
      requires settings.Usable()
      modifies this`timer, this`notAfter, this`certNotAfter
      ensures timer == Some(Step(settings, Waiting(old(notAfter), now, 0), Attempt(renewed, raw)).timer)
      ensures notAfter == Step(settings, Waiting(old(notAfter), now, 0), Attempt(renewed, raw)).notAfter
      ensures certNotAfter == if renewed.Some? then notAfter - MINUTE else old(certNotAfter)
    {
      var next;
      if renewed.None? {
        next := Quo(settings.renewJitter, 2);
        next := next + Int63n(next, raw);
      } else {
        notAfter := renewed.value;
        certNotAfter := renewed.value - MINUTE;
        next := NextRenewDuration(renewed.value, now, raw);
      }
      timer := Some(now + next);
    }
  }

  // ---------------------------------------------------------------------------------------------
  // Runs of attempts that take no time

  /** What a renewer waits for: the end of its certificate and the next attempt; and how many in a row have failed. */
  datatype Waiting = Waiting(notAfter: int, timer: int, failures: nat)

  /** An attempt ends with a new certificate, valid until some time, or fails. */
  datatype Attempt = Attempt(renewed: Option<int>, raw: nat)

  /** The attempt made when the timer fires. */
  function Step(s: Settings, w: Waiting, a: Attempt): Waiting
    requires s.Usable()
  {
    match a.renewed
    case None => Waiting(w.notAfter, w.timer + RetryDelay(s, a.raw), w.failures + 1)
    case Some(end) => Waiting(end, w.timer + NextDelay(s, end, w.timer, a.raw), 0)
  }

  function Attempts(s: Settings, w: Waiting, run: seq<Attempt>): Waiting
    requires s.Usable()
    decreases |run|
  {
    if run == [] then w else Step(s, Attempts(s, w, run[..|run| - 1]), run[|run| - 1])
  }

  /** Every new certificate still lasts for a third of the period when it is obtained. */
  ghost predicate LongEnough(s: Settings, w: Waiting, run: seq<Attempt>)
    requires s.Usable()
  {
    forall k :: 0 <= k < |run| && run[k].renewed.Some? ==>
      run[k].renewed.value - Attempts(s, w, run[..k]).timer >= s.renewBefore
  }

  /** When the first attempt is not cut off at zero, it comes with at least a third of the period left,
      and not more than a second and the jitter earlier. */
  lemma FirstAttempt(period: int, notAfter: int, now: int, raw: nat)
    requires period >= MINUTE
    ensures var s := SettingsFor(period, 0, 0);
            s.Usable() && (notAfter >= now && Lead(s, notAfter, now, raw) >= 0 ==>
              var left := notAfter - (now + NextDelay(s, notAfter, now, raw));
              period / 3 <= left < period / 3 + period / 20 + SECOND)
  {}

  /** For two minutes and a certificate just issued, the first attempt comes after 74 to 80 seconds. */
  lemma TwoMinutes(now: int, raw: nat)
    ensures var s := SettingsFor(2 * MINUTE, 0, 0);
            s.Usable() && 74 * SECOND < NextDelay(s, now + 2 * MINUTE, now, raw) <= 80 * SECOND
  {}

  lemma RetryIsShort(s: Settings, raw: nat)
    requires s.Usable()
    ensures 0 < Quo(s.renewJitter, 2) <= RetryDelay(s, raw) < s.renewJitter
  {}

  /** A new certificate that lasts for the lead gets its first attempt within it, cut off or not. */
  lemma FirstOfNew(s: Settings, end: int, now: int, raw: nat)
    requires s.Usable() && s.renewBefore >= 0 && end - now >= s.renewBefore
    ensures now <= now + NextDelay(s, end, now, raw) <= end - s.renewBefore
  {}

  /** Over every run: the next attempt comes the lead before the end, plus less than a jitter for every failure in
      a row. */
  lemma {:induction false} AttemptsAreEarly(s: Settings, w: Waiting, run: seq<Attempt>)
    requires s.Usable() && s.renewBefore >= 0 && LongEnough(s, w, run)
    requires w.failures == 0 && w.timer <= w.notAfter - s.renewBefore
    ensures var e := Attempts(s, w, run); e.timer <= e.notAfter - s.renewBefore + e.failures * (s.renewJitter - 1)
  {
    if run != [] {
      var a, before := run[|run| - 1], run[..|run| - 1];
      forall k | 0 <= k < |before| && before[k].renewed.Some?
        ensures before[k].renewed.value - Attempts(s, w, before[..k]).timer >= s.renewBefore {
        assert before[..k] == run[..k] && before[k] == run[k];
      }
      AttemptsAreEarly(s, w, before);
      var m := Attempts(s, w, before);
      if a.renewed.Some? {
        FirstOfNew(s, a.renewed.value, m.timer, a.raw);
      } else {
        RetryIsShort(s, a.raw);
        assert (m.failures + 1) * (s.renewJitter - 1) == m.failures * (s.renewJitter - 1) + (s.renewJitter - 1);
      }
    }
  }

  /** With the default settings, after a first attempt that was not cut off, over every run of attempts:
      up to and including the sixth retry after a failure, an attempt is made before the certificate ends. */
  lemma SixRetriesInTime(period: int, w: Waiting, run: seq<Attempt>)
    requires period >= MINUTE && w.failures == 0 && w.timer <= w.notAfter - period / 3
    requires SettingsFor(period, 0, 0).Usable() && LongEnough(SettingsFor(period, 0, 0), w, run)
    ensures var e := Attempts(SettingsFor(period, 0, 0), w, run); e.failures <= 6 ==> e.timer < e.notAfter
  {
    hide Attempts;
    var s := SettingsFor(period, 0, 0);
    AttemptsAreEarly(s, w, run);
    AtMostSix(Attempts(s, w, run).failures, s.renewJitter - 1);
  }

  lemma AtMostSix(failures: nat, delay: nat)
    ensures failures <= 6 ==> failures * delay <= 6 * delay
  {}

  /** A run of failures in which the randomness is always at its largest. */
  function Slowest(s: Settings, n: nat): seq<Attempt>
    requires s.Usable()
  {
    seq(n, _ => Attempt(None, Quo(s.renewJitter, 2) - 1))
  }

  /** The longest delay after a failure. */
  function Longest(s: Settings): int {
    2 * Quo(s.renewJitter, 2) - 1
  }

  lemma LongestIsReached(s: Settings)
    requires s.Usable()
    ensures RetryDelay(s, Quo(s.renewJitter, 2) - 1) == Longest(s)
  {
    var half := Quo(s.renewJitter, 2);
    assert (half - 1) % half == half - 1;
  }

  lemma OnceMore(n: nat, d: int)
    requires n > 0
    ensures (n - 1) * d + d == n * d
  {}

  lemma {:induction false} SlowestTakes(s: Settings, w: Waiting, n: nat)
    requires s.Usable()
    ensures Attempts(s, w, Slowest(s, n)) == Waiting(w.notAfter, w.timer + n * Longest(s), w.failures + n)
  {
    hide Longest, RetryDelay, Quo;
    if n > 0 {
      var run := Slowest(s, n);
      SlowestTakes(s, w, n - 1);
      assert run[..n - 1] == Slowest(s, n - 1);
      LongestIsReached(s);
      OnceMore(n, Longest(s));
    }
  }

  /** Six is the most that can be promised: the seventh retry may come after the end of the certificate. */
  lemma SeventhMayBeLate(period: int, w: Waiting)
    requires period >= MINUTE && w.failures == 0 && w.timer == w.notAfter - period / 3
    ensures var s := SettingsFor(period, 0, 0);
            && s.Usable() && LongEnough(s, w, Slowest(s, 7))
            && var e := Attempts(s, w, Slowest(s, 7)); e.failures == 7 && e.timer > e.notAfter
  {
    var s := SettingsFor(period, 0, 0);
    SlowestTakes(s, w, 7);
  }
}
