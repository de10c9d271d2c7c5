/** Failure-spike alerts (failed-jobs/failed-job-alert.service.ts): a pruned sliding window per
    severity, compared with the full history of failures. */
module FailedJobAlert {

  const WINDOW_MS: int := 5 * 60 * 1000
  const SPIKE_THRESHOLD: nat := 5

  datatype Severity = Critical | High | Medium | Low

  /** The audit record of a spike. */
  datatype Alert = Alert(count: nat, at: int)

  datatype Window = Window(timestamps: map<Severity, seq<int>>, alerts: seq<Alert>)

  const EMPTY: Window := Window(map[], [])

  function Entries(w: Window, s: Severity): seq<int> {
    if s in w.timestamps then w.timestamps[s] else []
  }

  /** `entries.filter(t => t > cutoff)`. */
  function Newer(entries: seq<int>, cutoff: int): (r: seq<int>)
    ensures |r| <= |entries|
  {
    if entries == [] then []
    else
      var last := entries[|entries| - 1];
      Newer(entries[..|entries| - 1], cutoff) + if last > cutoff then [last] else []
  }

  function Recorded(w: Window, severity: Severity, now: int): Window {
    var pruned := Newer(Entries(w, severity), now - WINDOW_MS) + [now];
    if severity == Critical && |pruned| >= SPIKE_THRESHOLD then
      Window(w.timestamps[severity := []], w.alerts + [Alert(|pruned|, now)])
    else Window(w.timestamps[severity := pruned], w.alerts)
  }

  class FailedJobAlertService {
    var timestamps: map<Severity, seq<int>>
    var alerts: seq<Alert>

    constructor ()
      ensures State() == EMPTY
    {
      timestamps, alerts := map[], [];
    }

    ghost function State(): Window
      reads this
    {
      Window(timestamps, alerts)
    }

    method Prune(entries: seq<int>, cutoff: int) returns (pruned: seq<int>)
      ensures pruned == Newer(entries, cutoff)
    {
      pruned := [];
      for i := 0 to |entries|
        invariant pruned == Newer(entries[..i], cutoff)
      {
        assert entries[..i + 1][..i] == entries[..i];
        if entries[i] > cutoff { pruned := pruned + [entries[i]]; }
      }
      assert entries[..|entries|] == entries;
    }

    /** recordFailure. */
    method RecordFailure(severity: Severity, now: int)
      modifies this
      ensures State() == Recorded(old(State()), severity, now)
    {
      var entries := if severity in timestamps then timestamps[severity] else [];
      var pruned := Prune(entries, now - WINDOW_MS);
      pruned := pruned + [now];
      ghost var before := timestamps;
      timestamps := timestamps[severity := pruned];
      if severity == Critical && |pruned| >= SPIKE_THRESHOLD {
        timestamps := timestamps[severity := []];
        assert timestamps == before[severity := []];
        alerts := alerts + [Alert(|pruned|, now)];
      }
    }
  }

  /** A failure changes only the list of its own severity. Only critical ones raise alerts; for the others the
      list keeps what is newer than five minutes, and the new time. */
  lemma OneListChanges(w: Window, severity: Severity, now: int)
    ensures forall s :: s != severity ==> Entries(Recorded(w, severity, now), s) == Entries(w, s)
    ensures severity != Critical ==>
              && Recorded(w, severity, now).alerts == w.alerts
              && Entries(Recorded(w, severity, now), severity)
                 == Newer(Entries(w, severity), now - 5 * 60000) + [now]
  {
  }

  // ---------------------------------------------------------------- the full history

  datatype Failure = Failure(severity: Severity, at: int)

  ghost predicate InTimeOrder(history: seq<Failure>) {
    forall i, j :: 0 <= i <= j < |history| ==> history[i].at <= history[j].at
  }

  /** The service's window after the first n failures. */
  function WindowAfter(history: seq<Failure>, n: nat): Window
    requires n <= |history|
  {
    if n == 0 then EMPTY
    else Recorded(WindowAfter(history, n - 1), history[n - 1].severity, history[n - 1].at)
  }

  /** The times after `cutoff` of the critical failures at positions lo, ..., hi - 1. */
  function CriticalTimes(history: seq<Failure>, lo: nat, hi: nat, cutoff: int): seq<int>
    requires lo <= hi <= |history|
  {
    if lo == hi then []
    else
      var last := history[hi - 1];
      CriticalTimes(history, lo, hi - 1, cutoff)
      + if last.severity == Critical && last.at > cutoff then [last.at] else []
  }

  /** The position after the last alert before failure n, or 0. */
  function SinceAlert(history: seq<Failure>, n: nat): (k: nat)
    requires n <= |history|
    ensures k <= n
    decreases n, 0
  {
    if n == 0 then 0 else if Spike(history, n - 1) then n else SinceAlert(history, n - 1)
  }

  /** The promise, over the whole history: failure n is critical and at least five critical failures
      since the previous alert, itself included, lie in the last five minutes. */
  predicate Spike(history: seq<Failure>, n: nat)
    requires n < |history|
    decreases n, 1
  {
    history[n].severity == Critical
    && |CriticalTimes(history, SinceAlert(history, n), n + 1, history[n].at - 5 * 60000)| >= 5
  }

  function SpikesBefore(history: seq<Failure>, n: nat): seq<Alert>
    requires n <= |history|
  {
    if n == 0 then []
    else SpikesBefore(history, n - 1) + if Spike(history, n - 1) then [Alert(5, history[n - 1].at)] else []
  }

  // ---------------------------------------------------------------- what is stored, for any clock

  /** Does failure n raise an alert? */
  ghost predicate Raised(history: seq<Failure>, n: nat)
    requires n < |history|
  {
    history[n].severity == Critical && |Pruned(history, n)| >= SPIKE_THRESHOLD
  }

  /** The list of timestamps that failure n, if critical, leaves before the threshold test. */
  ghost function Pruned(history: seq<Failure>, n: nat): seq<int>
    requires n < |history|
  {
    Newer(Entries(WindowAfter(history, n), Critical), history[n].at - WINDOW_MS) + [history[n].at]
  }

  /** The position after the last alert raised before failure n, or 0. */
  ghost function SinceRaised(history: seq<Failure>, n: nat): (k: nat)
    requires n <= |history|
    ensures k <= n
  {
    if n == 0 then 0 else if Raised(history, n - 1) then n else SinceRaised(history, n - 1)
  }

  /** Failure e is critical and less than five minutes older than failure n. */
  predicate InWindow(history: seq<Failure>, e: nat, n: nat)
    requires e < |history| && n < |history|
  {
    history[e].severity == Critical && history[e].at > history[n].at - 5 * 60000
  }

  /** Failure e is critical and less than five minutes older than every later critical failure before
      position n. */
  predicate Kept(history: seq<Failure>, e: nat, n: nat)
    requires e < n <= |history|
  {
    && history[e].severity == Critical
    && forall i :: e < i < n && history[i].severity == Critical ==> InWindow(history, e, i)
  }

  /** The times of the failures at positions lo, ..., hi - 1 that are kept up to position n. */
  function KeptTimes(history: seq<Failure>, lo: nat, hi: nat, n: nat): seq<int>
    requires lo <= hi <= n <= |history|
  {
    if lo == hi then []
    else KeptTimes(history, lo, hi - 1, n) + if Kept(history, hi - 1, n) then [history[hi - 1].at] else []
  }

  lemma NewerAppend(entries: seq<int>, t: int, c: int)
    ensures Newer(entries + [t], c) == Newer(entries, c) + if t > c then [t] else []
  {
    assert (entries + [t])[..|entries|] == entries;
  }

  lemma NewerAppendIf(entries: seq<int>, t: int, present: bool, c: int)
    ensures Newer(entries + (if present then [t] else []), c)
         == Newer(entries, c) + if present && t > c then [t] else []
  {
    if present { NewerAppend(entries, t, c); } else { assert entries + [] == entries; }
  }

  lemma KeptOneMore(history: seq<Failure>, e: nat, n: nat)
    requires e < n < |history| && history[n].severity == Critical
    ensures Kept(history, e, n + 1) <==> Kept(history, e, n) && InWindow(history, e, n)
  {
  }

  lemma {:induction false} KeptPastCritical(history: seq<Failure>, lo: nat, hi: nat, n: nat)
    requires lo <= hi <= n < |history| && history[n].severity == Critical
    ensures KeptTimes(history, lo, hi, n + 1) == Newer(KeptTimes(history, lo, hi, n), history[n].at - WINDOW_MS)
  {
    if lo < hi {
      KeptPastCritical(history, lo, hi - 1, n);
      KeptOneMore(history, hi - 1, n);
      NewerAppendIf(KeptTimes(history, lo, hi - 1, n), history[hi - 1].at, Kept(history, hi - 1, n),
                    history[n].at - WINDOW_MS);
    }
  }

  lemma {:induction false} KeptPastOther(history: seq<Failure>, lo: nat, hi: nat, n: nat)
    requires lo <= hi <= n < |history| && history[n].severity != Critical
    ensures KeptTimes(history, lo, hi, n + 1) == KeptTimes(history, lo, hi, n)
  {
    if lo < hi { KeptPastOther(history, lo, hi - 1, n); }
  }

  ghost predicate AllCountFive(alerts: seq<Alert>) {
    forall k :: 0 <= k < |alerts| ==> alerts[k].count == 5
  }

  ghost predicate StoresKept(history: seq<Failure>, n: nat)
    requires n <= |history|
  {
    var w := WindowAfter(history, n);
    && Entries(w, Critical) == KeptTimes(history, SinceRaised(history, n), n, n)
    && |Entries(w, Critical)| < SPIKE_THRESHOLD
    && AllCountFive(w.alerts)
  }

  lemma PrunedIsKept(history: seq<Failure>, n: nat)
    requires n < |history| && StoresKept(history, n) && history[n].severity == Critical
    ensures Pruned(history, n) == KeptTimes(history, SinceRaised(history, n), n + 1, n + 1)
    ensures |Pruned(history, n)| <= SPIKE_THRESHOLD
  {
    KeptPastCritical(history, SinceRaised(history, n), n, n);
  }

  lemma StoresKeptStep(history: seq<Failure>, n: nat)
    requires n < |history| && StoresKept(history, n)
    ensures StoresKept(history, n + 1)
  {
    var w := WindowAfter(history, n);
    assert WindowAfter(history, n + 1) == Recorded(w, history[n].severity, history[n].at);
    if history[n].severity == Critical {
      PrunedIsKept(history, n);
    } else {
      KeptPastOther(history, SinceRaised(history, n), n, n);
    }
  }

  lemma NothingStored(history: seq<Failure>)
    ensures StoresKept(history, 0)
  {
  }

  lemma {:induction false} StoresKeptAlways(history: seq<Failure>, n: nat)
    requires n <= |history|
    ensures StoresKept(history, n)
  {
    if n == 0 {
      NothingStored(history);
    } else {
      StoresKeptAlways(history, n - 1);
      StoresKeptStep(history, n - 1);
    }
  }

  /** For any clock: the critical timestamps stored are those of the critical failures since the last
      alert that no later critical failure has pruned; they are fewer than five between calls; and every
      alert counts exactly five. */
  lemma StoredAreKept(history: seq<Failure>, n: nat)
    requires n <= |history|
    ensures Entries(WindowAfter(history, n), Critical) == KeptTimes(history, SinceRaised(history, n), n, n)
    ensures |Entries(WindowAfter(history, n), Critical)| < 5
    ensures AllCountFive(WindowAfter(history, n).alerts)
  {
    StoresKeptAlways(history, n);
  }

  lemma RecordedAlerts(w: Window, severity: Severity, now: int)
    ensures var pruned := Newer(Entries(w, severity), now - WINDOW_MS) + [now];
            var raised := severity == Critical && |pruned| >= SPIKE_THRESHOLD;
            Recorded(w, severity, now).alerts == w.alerts + (if raised then [Alert(|pruned|, now)] else [])
  {
  }

  /** For any clock: a failure raises an alert if and only if it is critical and completes five critical
      failures since the last alert, each less than five minutes older than every later one. */
  lemma RaisedIffFiveKept(history: seq<Failure>, n: nat)
    requires n < |history|
    ensures Raised(history, n)
            <==> history[n].severity == Critical
                 && |KeptTimes(history, SinceRaised(history, n), n + 1, n + 1)| >= 5
    ensures WindowAfter(history, n + 1).alerts
         == WindowAfter(history, n).alerts + if Raised(history, n) then [Alert(5, history[n].at)] else []
  {
    StoresKeptAlways(history, n);
    RecordedAlerts(WindowAfter(history, n), history[n].severity, history[n].at);
    if history[n].severity == Critical { PrunedIsKept(history, n); }
  }

  // ---------------------------------------------------------------- agreement with the full history

  /** The critical failures at positions lo, ..., hi - 1 that lie in the window of failure n were pruned
      by no critical failure between: none re-enters the window. */
  ghost predicate NoneReenters(history: seq<Failure>, lo: nat, hi: nat, n: nat)
    requires lo <= hi <= n < |history|
  {
    forall e: nat :: lo <= e < hi && InWindow(history, e, n) ==> Kept(history, e, n)
  }

  lemma AppendBoth(kept: seq<int>, full: seq<int>, t: int, toKept: bool, toFull: bool)
    requires |kept| <= |full| && (toKept ==> toFull)
    ensures kept + (if toKept then [t] else []) == full + (if toFull then [t] else [])
            <==> kept == full && (toFull ==> toKept)
  {
    var k, f := if toKept then [t] else [], if toFull then [t] else [];
    if kept + k == full + f {
      assert |kept| + |k| == |full| + |f|;
      assert (kept + k)[..|kept|] == kept && (full + f)[..|full|] == full;
    }
  }

  lemma {:induction false} KeptVersusFull(history: seq<Failure>, lo: nat, hi: nat, n: nat)
    requires lo <= hi <= n < |history| && history[n].severity == Critical
    ensures var kept := KeptTimes(history, lo, hi, n + 1);
            var full := CriticalTimes(history, lo, hi, history[n].at - WINDOW_MS);
            |kept| <= |full| && (kept == full <==> NoneReenters(history, lo, hi, n))
  {
    if lo < hi {
      KeptVersusFull(history, lo, hi - 1, n);
      KeptOneMore(history, hi - 1, n);
      var inWindow, kept := InWindow(history, hi - 1, n), Kept(history, hi - 1, n);
      AppendBoth(KeptTimes(history, lo, hi - 1, n + 1),
                 CriticalTimes(history, lo, hi - 1, history[n].at - WINDOW_MS),
                 history[hi - 1].at, kept && inWindow, inWindow);
      assert NoneReenters(history, lo, hi, n) <==> (NoneReenters(history, lo, hi - 1, n) && (inWindow ==> kept));
    }
  }

  /** Exactly when pruning loses nothing, for any clock: the pruned list of a critical failure is the
      full history since the last alert, cut at five minutes before the failure, if and only if no
      failure that an earlier call pruned has come back into the window. */
  lemma PrunedIsFullIffNoneReenters(history: seq<Failure>, n: nat)
    requires n < |history| && history[n].severity == Critical
    ensures var cutoff, since := history[n].at - WINDOW_MS, SinceRaised(history, n);
            Newer(Entries(WindowAfter(history, n), Critical), cutoff) == CriticalTimes(history, since, n, cutoff)
            <==> NoneReenters(history, since, n, n)
  {
    StoredAreKept(history, n);
    KeptPastCritical(history, SinceRaised(history, n), n, n);
    KeptVersusFull(history, SinceRaised(history, n), n, n);
  }

  /** A failure at position m that completes a spike of the full history has five failures that were
      never pruned. */
  predicate SpikeIsKept(history: seq<Failure>, m: nat)
    requires m < |history|
  {
    Spike(history, m) ==> |KeptTimes(history, SinceAlert(history, m), m + 1, m + 1)| >= 5
  }

  ghost predicate SpikesAreKept(history: seq<Failure>, n: nat)
    requires n <= |history|
  {
    forall m: nat :: m < n ==> SpikeIsKept(history, m)
  }

  ghost predicate RaisedAreSpikes(history: seq<Failure>, n: nat)
    requires n <= |history|
  {
    forall m: nat :: m < n ==> (Raised(history, m) <==> Spike(history, m))
  }

  lemma {:induction false} SameSince(history: seq<Failure>, n: nat)
    requires n <= |history| && RaisedAreSpikes(history, n)
    ensures SinceRaised(history, n) == SinceAlert(history, n)
  {
    if n > 0 { SameSince(history, n - 1); }
  }

  lemma RaisedIsSpikeIffKept(history: seq<Failure>, n: nat)
    requires n < |history| && SinceRaised(history, n) == SinceAlert(history, n)
    ensures (Raised(history, n) <==> Spike(history, n)) <==> SpikeIsKept(history, n)
  {
    if history[n].severity == Critical {
      StoredAreKept(history, n);
      PrunedIsKept(history, n);
      KeptVersusFull(history, SinceAlert(history, n), n, n);
    }
  }

  lemma {:induction false} RaisedAreSpikesIffKept(history: seq<Failure>, n: nat)
    requires n <= |history|
    ensures RaisedAreSpikes(history, n) <==> SpikesAreKept(history, n)
  {
    if n > 0 {
      RaisedAreSpikesIffKept(history, n - 1);
      if RaisedAreSpikes(history, n - 1) {
        SameSince(history, n - 1);
        RaisedIsSpikeIffKept(history, n - 1);
      }
    }
  }

  ghost predicate AgreeAt(history: seq<Failure>, m: nat)
    requires m <= |history|
  {
    WindowAfter(history, m).alerts == SpikesBefore(history, m)
  }

  ghost predicate AlertsAgree(history: seq<Failure>, n: nat)
    requires n <= |history|
  {
    forall m: nat :: m <= n ==> AgreeAt(history, m)
  }

  lemma AgreeNext(history: seq<Failure>, n: nat)
    requires n < |history| && AgreeAt(history, n)
    ensures AgreeAt(history, n + 1) <==> (Raised(history, n) <==> Spike(history, n))
  {
    RaisedIffFiveKept(history, n);
    var alerts, alert := WindowAfter(history, n).alerts, Alert(5, history[n].at);
    assert |alerts + [alert]| != |alerts + []|;
    assert SpikesBefore(history, n + 1) == alerts + if Spike(history, n) then [alert] else [];
  }

  lemma {:induction false} SpikesAgree(history: seq<Failure>, n: nat)
    requires n <= |history| && RaisedAreSpikes(history, n)
    ensures AgreeAt(history, n)
  {
    if n > 0 {
      SpikesAgree(history, n - 1);
      AgreeNext(history, n - 1);
    }
  }

  lemma AgreeIffRaisedAreSpikes(history: seq<Failure>, n: nat)
    requires n <= |history|
    ensures AlertsAgree(history, n) <==> RaisedAreSpikes(history, n)
  {
    if RaisedAreSpikes(history, n) {
      forall m: nat | m <= n ensures AgreeAt(history, m) { SpikesAgree(history, m); }
    }
    if AlertsAgree(history, n) {
      forall m: nat | m < n ensures Raised(history, m) <==> Spike(history, m) {
        assert AgreeAt(history, m) && AgreeAt(history, m + 1);
        AgreeNext(history, m);
      }
    }
  }

  /** Exactly when the alerts are right, for any clock: at every point the alerts raised are the spikes
      of the full history so far, if and only if every spike keeps five failures that were never pruned. */
  lemma AlertsAgreeIffSpikesKept(history: seq<Failure>, n: nat)
    requires n <= |history|
    ensures AlertsAgree(history, n) <==> SpikesAreKept(history, n)
  {
    AgreeIffRaisedAreSpikes(history, n);
    RaisedAreSpikesIffKept(history, n);
  }

  /** No alert is false, for any clock: it has five critical failures since the last alert in its window. */
  lemma AlertHasFiveInWindow(history: seq<Failure>, n: nat)
    requires n < |history| && Raised(history, n)
    ensures |CriticalTimes(history, SinceRaised(history, n), n + 1, history[n].at - 5 * 60000)| >= 5
  {
    RaisedIffFiveKept(history, n);
    KeptVersusFull(history, SinceRaised(history, n), n, n);
  }

  /** With a clock that does not go back nothing re-enters a window, so every alert is a spike of the
      full history and every spike raises its alert. */
  lemma AlertsAreSpikes(history: seq<Failure>, n: nat)
    requires InTimeOrder(history) && n <= |history|
    ensures AlertsAgree(history, n)
  {
    forall m: nat | m < n ensures SpikeIsKept(history, m) {
      if Spike(history, m) { KeptVersusFull(history, SinceAlert(history, m), m, m); }
    }
    AlertsAgreeIffSpikesKept(history, n);
  }

  /** The clock matters: when it steps back, the pruned window has already dropped failures that lie in
      the last five minutes, and a spike of the full history raises no alert. */
  lemma ClockStepHidesSpike()
    ensures var history := [Failure(Critical, 0), Failure(Critical, 0), Failure(Critical, WINDOW_MS),
                            Failure(Critical, 1), Failure(Critical, 1)];
            && Spike(history, 4) && WindowAfter(history, 5).alerts == []
            && InWindow(history, 0, 4) && !Kept(history, 0, 4)
  {
    var history := [Failure(Critical, 0), Failure(Critical, 0), Failure(Critical, WINDOW_MS),
                    Failure(Critical, 1), Failure(Critical, 1)];
    assert !InWindow(history, 0, 2) && !Kept(history, 0, 5);
    NoneRaised(history, 5);
    StepBackSpike(history);
  }

  lemma {:induction false} FewKept(history: seq<Failure>, lo: nat, mid: nat, hi: nat, n: nat)
    requires lo <= mid <= hi <= n <= |history|
    ensures |KeptTimes(history, lo, hi, n)| <= |KeptTimes(history, lo, mid, n)| + hi - mid
  {
    if mid < hi { FewKept(history, lo, mid, hi - 1, n); }
  }

  /** Fewer than five failures raise nothing, and neither does a fifth if the first is no longer kept. */
  lemma {:induction false} NoneRaised(history: seq<Failure>, n: nat)
    requires n <= |history| && n <= 5 && (n == 5 ==> !Kept(history, 0, 5))
    ensures SinceRaised(history, n) == 0 && WindowAfter(history, n).alerts == []
  {
    if n > 0 {
      NoneRaised(history, n - 1);
      RaisedIffFiveKept(history, n - 1);
      FewKept(history, 0, if n == 5 then 1 else 0, n, n);
      assert n == 5 ==> KeptTimes(history, 0, 1, 5) == KeptTimes(history, 0, 0, 5) == [];
    }
  }

  lemma StepBackSpike(history: seq<Failure>)
    requires history == [Failure(Critical, 0), Failure(Critical, 0), Failure(Critical, WINDOW_MS),
                         Failure(Critical, 1), Failure(Critical, 1)]
    ensures Spike(history, 4)
  {
    FewCriticals(history, 0, 1, -WINDOW_MS);
    FewCriticals(history, 0, 2, -WINDOW_MS);
    FewCriticals(history, 0, 3, 0);
    FewCriticals(history, 0, 4, 1 - WINDOW_MS);
    assert SinceAlert(history, 1) == 0;
    assert SinceAlert(history, 2) == 0;
    assert SinceAlert(history, 3) == 0;
    assert SinceAlert(history, 4) == 0;
    var c := 1 - WINDOW_MS;
    assert |CriticalTimes(history, 0, 1, c)| == 1;
    assert |CriticalTimes(history, 0, 2, c)| == 2;
    assert |CriticalTimes(history, 0, 3, c)| == 3;
    assert |CriticalTimes(history, 0, 4, c)| == 4;
  }

  lemma {:induction false} FewCriticals(history: seq<Failure>, lo: nat, hi: nat, cutoff: int)
    requires lo <= hi <= |history|
    ensures |CriticalTimes(history, lo, hi, cutoff)| <= hi - lo
  {
    if lo < hi { FewCriticals(history, lo, hi - 1, cutoff); }
  }
}
