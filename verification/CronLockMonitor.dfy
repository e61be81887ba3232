/**
 The renewal monitor of one acquired distributed lock: when renewals fall due, how many were queued, and the first
 error.  The record is a value here; `RenewalMonitor` is the mutable object of the lock manager.
 */
module CronLockMonitor {
  import opened Options

  datatype Outcome = Renewed | OwnershipLost | RenewalFailed

  datatype Monitor = Monitor(
    interval: nat,
    nextDueAt: nat,
    queued: nat,
    error: Option<Outcome>,
    stopped: bool)

  /** A renewal is due every half time-to-live, but not more often than four times a second. */
  function RenewalInterval(ttl: nat): (interval: nat)
    ensures interval > 0
    ensures ttl >= 1000 ==> ttl / 2 <= interval && 2 * interval <= ttl
  {
    if ttl / 2 > 250 then ttl / 2 else 250
  }

  function Fresh(ttl: nat, now: nat): Monitor {
    Monitor(RenewalInterval(ttl), now + RenewalInterval(ttl), 0, None, false)
  }

  function QueueOne(m: Monitor): Monitor {
    m.(nextDueAt := m.nextDueAt + m.interval, queued := m.queued + 1)
  }

  /** Queues every renewal that fell due without its timer having fired. */
  function QueueDue(m: Monitor, now: nat): Monitor
    requires m.interval > 0
    decreases if now >= m.nextDueAt then now - m.nextDueAt + 1 else 0
  {
    if now >= m.nextDueAt then QueueDue(QueueOne(m), now) else m
  }

  function Record(m: Monitor, outcome: Outcome): Monitor {
    if m.error.Some? || outcome == Renewed then m else m.(error := Some(outcome))
  }

  /** The n-th renewal of a monitor started at `startedAt` is due n intervals later. */
  ghost predicate OnSchedule(m: Monitor, startedAt: nat) {
    m.interval > 0 && m.nextDueAt == startedAt + (m.queued + 1) * m.interval
  }

  lemma {:induction false} QueueDueCatchesUp(m: Monitor, now: nat, startedAt: nat)
    requires OnSchedule(m, startedAt) && startedAt + m.queued * m.interval <= now
    ensures var m' := QueueDue(m, now);
            OnSchedule(m', startedAt) && m'.queued >= m.queued && now < m'.nextDueAt &&
            startedAt + m'.queued * m'.interval <= now &&
            m'.interval == m.interval && m'.error == m.error && m'.stopped == m.stopped
    decreases if now >= m.nextDueAt then now - m.nextDueAt + 1 else 0
  {
    if now >= m.nextDueAt {
      assert (m.queued + 1 + 1) * m.interval == (m.queued + 1) * m.interval + m.interval;
      QueueDueCatchesUp(QueueOne(m), now, startedAt);
    }
  }

  /** The outcomes of renewals, recorded one after the other. */
  function RecordAll(m: Monitor, outcomes: seq<Outcome>): Monitor {
    if outcomes == [] then m else Record(RecordAll(m, outcomes[..|outcomes| - 1]), outcomes[|outcomes| - 1])
  }

  /** The first renewal that did not succeed decides the error, whatever comes after it; nothing else is touched. */
  lemma {:induction false} FirstFailureDecides(m: Monitor, outcomes: seq<Outcome>)
    requires m.error == None
    ensures var r := RecordAll(m, outcomes);
            && r.(error := None) == m
            && (r.error == None <==> forall o <- outcomes :: o == Renewed)
            && (forall k | 0 <= k < |outcomes| ::
                  outcomes[k] != Renewed && (forall j | 0 <= j < k :: outcomes[j] == Renewed) ==>
                    r.error == Some(outcomes[k]))
    decreases |outcomes|
  {
    if outcomes != [] {
      var n := |outcomes| - 1;
      var before := outcomes[..n];
      FirstFailureDecides(m, before);
      assert outcomes == before + [outcomes[n]] && outcomes[n] in outcomes;
      if RecordAll(m, before).error.Some? {
        var o :| o in before && o != Renewed;
        assert o in outcomes;
      }
      forall k | 0 <= k < |outcomes| && outcomes[k] != Renewed && forall j | 0 <= j < k :: outcomes[j] == Renewed
        ensures RecordAll(m, outcomes).error == Some(outcomes[k])
      {
        if k < n { assert before[k] == outcomes[k] && forall j | 0 <= j < k :: before[j] == outcomes[j]; }
      }
    }
  }

  /** The mutable renewal state, and the counters of the lock manager it reports to. */
  class RenewalMonitor {
    var interval: nat
    var nextDueAt: nat
    var queued: nat
    var error: Option<Outcome>
    var stopped: bool
    var ownershipLosses: nat
    var renewalFailures: nat

    ghost function State(): Monitor
      reads this
    {
      Monitor(interval, nextDueAt, queued, error, stopped)
    }

    constructor (ttl: nat, now: nat)
      ensures State() == Fresh(ttl, now) && OnSchedule(State(), now)
      ensures ownershipLosses == renewalFailures == 0
    {
      var half := ttl / 2;
      interval := if half > 250 then half else 250;
      nextDueAt := now + if half > 250 then half else 250;
      queued, error, stopped := 0, None, false;
      ownershipLosses, renewalFailures := 0, 0;
    }

    method TimerFired()
      modifies this`nextDueAt, this`queued
      ensures State() == if stopped then old(State()) else QueueOne(old(State()))
    {
      if stopped {
        return;
      }
      nextDueAt := nextDueAt + interval;
      queued := queued + 1;
    }

    method QueueDueRenewals(now: nat)
      requires interval > 0
      modifies this`nextDueAt, this`queued
      ensures State() == QueueDue(old(State()), now)
      ensures now < nextDueAt
    {
      while now >= nextDueAt
        invariant interval == old(interval) && QueueDue(State(), now) == QueueDue(old(State()), now)
        decreases if now >= nextDueAt then now - nextDueAt + 1 else 0
      {
        nextDueAt := nextDueAt + interval;
        queued := queued + 1;
      }
    }

    method Stop()
      modifies this`stopped
      ensures State() == old(State()).(stopped := true)
    {
      if stopped {
        return;
      }
      stopped := true;
    }

    /** Counts every loss and failure but keeps only the first error. */
    method AttemptFinished(outcome: Outcome)
      modifies this`error, this`ownershipLosses, this`renewalFailures
      ensures State() == Record(old(State()), outcome)
      ensures ownershipLosses == old(ownershipLosses) + if outcome == OwnershipLost then 1 else 0
      ensures renewalFailures == old(renewalFailures) + if outcome == RenewalFailed then 1 else 0
    {
      if outcome == OwnershipLost {
        ownershipLosses := ownershipLosses + 1;
      }
      if outcome == RenewalFailed {
        renewalFailures := renewalFailures + 1;
      }
      if error.Some? {
        return;
      }
      if outcome != Renewed {
        error := Some(outcome);
      }
    }
  }
}
