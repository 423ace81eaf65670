/** Sensor, lossy network and collector of one stream (sensors/client.py). */
module SequenceProtocol {
  import opened Ordering
  import opened Ranges
  import opened SensorSequence
  import opened SequenceRuns
  import opened Wrappers

  datatype Message = Event(sequence: nat) | Heartbeat(lastSequence: nat)

  /** One sensor process. The lock around the counter makes each method here one atomic step. */
  class SensorClient {
    const hasKey: bool
    var lastSequence: nat

    constructor (hasKey: bool)
      ensures this.hasKey == hasKey && lastSequence == 0
    {
      this.hasKey := hasKey;
      lastSequence := 0;
    }

    method NextSequence() returns (sequence: nat)
      modifies this
      ensures sequence == lastSequence == old(lastSequence) + 1
    {
      lastSequence := lastSequence + 1;
      sequence := lastSequence;
    }

    method SequenceHighWater() returns (last: nat)
      ensures last == lastSequence
    {
      last := lastSequence;
    }

    /** The number is taken before any local drop: only a sensor without a key leaves the counter alone. */
    method Emit(oversize: bool, answered: bool) returns (sent: Option<Message>, ok: bool)
      modifies this
      ensures lastSequence == old(lastSequence) + if hasKey then 1 else 0
      ensures sent == if hasKey && !oversize then Some(Event(lastSequence)) else None
      ensures ok <==> sent.Some? && answered
    {
      if !hasKey {
        return None, false;
      }
      var sequence := NextSequence();
      if oversize {
        return None, false;
      }
      return Some(Event(sequence)), answered;
    }

    method EmitHeartbeat(answered: bool) returns (sent: Option<Message>, ok: bool)
      ensures sent == if hasKey then Some(Heartbeat(lastSequence)) else None
      ensures ok <==> hasKey && answered
    {
      if !hasKey {
        return None, false;
      }
      var last := SequenceHighWater();
      return Some(Heartbeat(last)), answered;
    }
  }

  /**
   * The state of one stream's protocol. A message once sent may arrive never, late, or again;
   * delivered and arrivals record what the collector accepted of this stream, and crowded that the numbers
   * delivered once made more than 256 runs.
   */
  datatype System = System(
    lastSequence: nat,
    sent: set<Message>,
    tables: Tables,
    delivered: set<int>,
    arrivals: nat,
    crowded: bool,
    evicted: bool)

  datatype Action =
    | Emit
    | EmitHeartbeat
    | Deliver(message: Message, now: int)
    | OtherEvent(stream: StreamKey, sequence: nat, now: int)
    | OtherHeartbeat(stream: StreamKey, lastSequence: nat, now: int)

  /** The history with one more number accepted. */
  ghost function Accepted(s: System, n: nat): System {
    s.(delivered := s.delivered + {n}, arrivals := s.arrivals + 1,
       crowded := s.crowded || RunCount(s.delivered + {n}) > 256)
  }

  ghost function WithTables(k: StreamKey, s: System, t: Tables): System {
    s.(tables := t, evicted := s.evicted || (k in s.tables.rows && k !in t.rows))
  }

  /** Receiving an event: a number out of range is rejected, a violated foreign key rolls everything back. */
  ghost function EventReceived(t: Tables, k: StreamKey, n: nat, now: int): Option<Tables>
    requires Aligned(t)
  {
    if !(1 <= n <= MAX_SEQUENCE) then
      None
    else
      match RecordedIn(t, k, n, now)
      case None => None
      case Some((u, _)) => Some(u)
  }

  ghost function HeartbeatReceived(t: Tables, k: StreamKey, last: nat, now: int): Tables
    requires Aligned(t)
  {
    if last <= MAX_SEQUENCE then ReportedIn(t, k, last, now) else t
  }

  /** One step of the protocol for stream k; an action that is not possible changes nothing. */
  ghost function Step(k: StreamKey, s: System, a: Action): System
    requires Aligned(s.tables)
  {
    match a
    case Emit =>
      s.(lastSequence := s.lastSequence + 1, sent := s.sent + {Event(s.lastSequence + 1)})
    case EmitHeartbeat =>
      s.(sent := s.sent + {Heartbeat(s.lastSequence)})
    case Deliver(Event(n), now) =>
      if Event(n) in s.sent && EventReceived(s.tables, k, n, now).Some? then
        WithTables(k, Accepted(s, n), EventReceived(s.tables, k, n, now).value)
      else
        s
    case Deliver(Heartbeat(last), now) =>
      if Heartbeat(last) in s.sent then WithTables(k, s, HeartbeatReceived(s.tables, k, last, now)) else s
    case OtherEvent(j, n, now) =>
      if j != k && EventReceived(s.tables, j, n, now).Some? then
        WithTables(k, s, EventReceived(s.tables, j, n, now).value)
      else
        s
    case OtherHeartbeat(j, last, now) =>
      if j != k then WithTables(k, s, HeartbeatReceived(s.tables, j, last, now)) else s
  }

  /** No step is lost that can happen: what is emitted is sent, and what arrives is stored unless it evicts itself. */
  lemma StepsHappen(k: StreamKey, s: System, n: nat, now: int)
    requires Aligned(s.tables)
    ensures var next := Step(k, s, Emit);
            next.lastSequence == s.lastSequence + 1 && next.sent == s.sent + {Event(s.lastSequence + 1)}
    ensures Step(k, s, EmitHeartbeat) == s.(sent := s.sent + {Heartbeat(s.lastSequence)})
    ensures Event(n) in s.sent && 1 <= n <= 0x1F_FFFF_FFFF_FFFF && k in Ensured(s.tables, k, now).rows ==>
              var next, taken := Step(k, s, Deliver(Event(n), now)), RecordedIn(s.tables, k, n, now);
              && taken.Some? && next.tables == taken.value.0
              && next.delivered == s.delivered + {n} && next.arrivals == s.arrivals + 1
  {
    hide Ensured, Recorded, OutcomeOf, RunCount;
  }

  /** A stream counts as evicted from the step on that deletes its row. */
  lemma EvictedExactly(k: StreamKey, s: System, a: Action)
    requires Aligned(s.tables)
    ensures var next := Step(k, s, a);
            next.evicted <==> s.evicted || (k in s.tables.rows && k !in next.tables.rows)
  {
    hide EventReceived, HeartbeatReceived;
  }

  /** A new stream: its random id is not stored yet, whatever the collector already holds. */
  ghost function Start(t: Tables): System {
    System(0, {}, t, {}, 0, false, false)
  }

  ghost predicate Bounded(s: System) {
    && (forall n: nat | Event(n) in s.sent :: 1 <= n <= s.lastSequence)
    && (forall n: nat | Heartbeat(n) in s.sent :: n <= s.lastSequence)
  }

  /** What the stored stream knows, against what the sensor did and the collector accepted. */
  ghost predicate Tracks(st: Stream, s: System) {
    && History(st, st.numbers, s.delivered, s.arrivals)
    && st.row.Highest() <= s.lastSequence
    && (st.row.detailTruncated <==> s.crowded)
  }

  ghost predicate Inv(k: StreamKey, s: System) {
    && Sound(s.tables)
    && Bounded(s)
    && (!s.evicted && k in s.tables.rows ==> Tracks(StreamOf(s.tables, k), s))
    && (!s.evicted && k !in s.tables.rows ==> s.delivered == {} && s.arrivals == 0 && !s.crowded)
  }

  lemma FreshTracks(s: System, now: int)
    requires s.delivered == {} && s.arrivals == 0 && !s.crowded
    ensures Tracks(Fresh(now), s)
  {
    assert RunStarts({}) == {};
  }

  /** The touch of the stream itself keeps it tracked, or evicts it. */
  lemma TouchTracks(k: StreamKey, s: System, now: int)
    requires Inv(k, s) && !s.evicted
    ensures var u := Ensured(s.tables, k, now);
            Sound(u) && Aligned(u) && (k in u.rows ==> Tracks(StreamOf(u, k), s))
  {
    hide Ensured, Sound, RunCount, Interval;
    InvParts(k, s);
    EnsuredIsSound(s.tables, k, now);
    TouchedStream(s.tables, k, now);
    if k !in s.tables.rows {
      FreshTracks(s, now);
    }
  }

  /** New tables in which the stream, if present, is tracked along with the accepted numbers. */
  lemma StreamReplaced(k: StreamKey, s: System, t: Tables, s': System)
    requires Inv(k, s) && Sound(t)
    requires s' == s.(delivered := s'.delivered, arrivals := s'.arrivals, crowded := s'.crowded)
    requires !s.evicted && k in t.rows ==> Tracks(StreamOf(t, k), s')
    requires k !in t.rows ==> s' == s
    ensures Inv(k, WithTables(k, s', t))
  {
    hide SoundStream, History;
  }

  lemma EventLands(k: StreamKey, s: System, n: nat, now: int) returns (t: Tables)
    requires Inv(k, s) && Event(n) in s.sent && EventReceived(s.tables, k, n, now).Some?
    ensures t == EventReceived(s.tables, k, n, now).value && Sound(t) && k in t.rows
    ensures !s.evicted ==> Tracks(StreamOf(t, k), Accepted(s, n))
  {
    hide Inv, Sound, RecordedIn, Ensured, Tracks, Recorded;
    InvParts(k, s);
    t := EventReceived(s.tables, k, n, now).value;
    RecordedInIsSound(s.tables, k, n, now);
    RecordedStreams(s.tables, k, n, now, k);
    if !s.evicted {
      TouchTracks(k, s, now);
      EventTracks(StreamOf(Ensured(s.tables, k, now), k), s, n);
    }
  }

  lemma EventStep(k: StreamKey, s: System, n: nat, now: int)
    requires Inv(k, s)
    ensures Inv(k, Step(k, s, Deliver(Event(n), now)))
  {
    hide Inv, Sound, SoundStream, EventReceived, HeartbeatReceived, Tracks, WithTables;
    InvParts(k, s);
    if Event(n) in s.sent && EventReceived(s.tables, k, n, now).Some? {
      var t := EventLands(k, s, n, now);
      StreamReplaced(k, s, t, Accepted(s, n));
    }
  }

  lemma EventTracks(st: Stream, s: System, n: nat)
    requires Tracks(st, s) && 1 <= n <= MAX_SEQUENCE && n <= s.lastSequence
    ensures Tracks(Recorded(st, n), Accepted(s, n))
  {
    hide History, Overflows, RunCount;
    TruncatesWhenCrowded(st, s, n);
    HistoryGrows(st, st.numbers, s.delivered, s.arrivals, n);
    assert st.numbers + {} == st.numbers;
    assert Recorded(st, n).numbers == st.numbers + if OutcomeOf(st, n) == Received then {n} else {};
  }

  lemma TruncatesWhenCrowded(st: Stream, s: System, n: nat)
    requires Tracks(st, s)
    ensures st.row.detailTruncated || OutcomeOf(st, n) == Untracked <==> Accepted(s, n).crowded
  {
    hide OutcomeOf, RunCount;
    if !st.row.detailTruncated {
      TruncatesNow(st, n);
    }
  }

  lemma HeartbeatStep(k: StreamKey, s: System, last: nat, now: int)
    requires Inv(k, s)
    ensures Inv(k, Step(k, s, Deliver(Heartbeat(last), now)))
  {
    hide Inv, Sound, ReportedIn, Ensured, Tracks;
    InvParts(k, s);
    if Heartbeat(last) in s.sent && last <= MAX_SEQUENCE {
      var t := ReportedIn(s.tables, k, last, now);
      ReportedInIsSound(s.tables, k, last, now);
      ReportedStreams(s.tables, k, last, now, k);
      if !s.evicted && k in t.rows {
        TouchTracks(k, s, now);
        HeartbeatTracks(StreamOf(Ensured(s.tables, k, now), k), s, last);
      }
      StreamReplaced(k, s, t, s);
    } else if Heartbeat(last) in s.sent {
      TablesReplaced(k, s, s.tables);
    }
  }

  lemma HeartbeatTracks(st: Stream, s: System, last: nat)
    requires Tracks(st, s) && last <= s.lastSequence
    ensures Tracks(Reported(st, last), s)
  {
    hide RunCount;
  }

  /** Tables in which the stream is as before, or gone. */
  lemma TablesReplaced(k: StreamKey, s: System, t: Tables)
    requires Inv(k, s) && Sound(t)
    requires k in t.rows ==> k in s.tables.rows && StreamOf(t, k) == StreamOf(s.tables, k)
    ensures Inv(k, WithTables(k, s, t))
  {
    hide SoundStream, History;
  }

  /** Traffic of other streams leaves this one as it is, or evicts it. */
  lemma OtherStep(k: StreamKey, s: System, a: Action)
    requires Inv(k, s) && (a.OtherEvent? || a.OtherHeartbeat?)
    ensures Inv(k, Step(k, s, a))
  {
    hide Inv, Sound, RecordedIn, ReportedIn, Ensured, WithTables, StreamOf;
    InvParts(k, s);
    if a.stream != k {
      if a.OtherEvent? {
        if EventReceived(s.tables, a.stream, a.sequence, a.now).Some? {
          RecordedInIsSound(s.tables, a.stream, a.sequence, a.now);
          RecordedStreams(s.tables, a.stream, a.sequence, a.now, k);
          TablesReplaced(k, s, EventReceived(s.tables, a.stream, a.sequence, a.now).value);
        }
      } else if a.lastSequence <= MAX_SEQUENCE {
        ReportedInIsSound(s.tables, a.stream, a.lastSequence, a.now);
        ReportedStreams(s.tables, a.stream, a.lastSequence, a.now, k);
        TablesReplaced(k, s, ReportedIn(s.tables, a.stream, a.lastSequence, a.now));
      } else {
        TablesReplaced(k, s, s.tables);
      }
    }
  }

  lemma InvTracks(k: StreamKey, s: System)
    requires Inv(k, s) && !s.evicted && k in s.tables.rows
    ensures Aligned(s.tables) && Tracks(StreamOf(s.tables, k), s)
  {
  }

  lemma InvParts(k: StreamKey, s: System)
    requires Inv(k, s)
    ensures Sound(s.tables) && Aligned(s.tables) && Bounded(s)
  {
  }

  /** Sending only raises what the sensor may have said. */
  lemma EmitStep(k: StreamKey, s: System, a: Action)
    requires Inv(k, s) && (a.Emit? || a.EmitHeartbeat?)
    ensures Inv(k, Step(k, s, a))
  {
    hide Sound, History;
  }

  lemma StepKeepsInv(k: StreamKey, s: System, a: Action)
    requires Inv(k, s)
    ensures Inv(k, Step(k, s, a))
  {
    hide Inv, Step;
    InvParts(k, s);
    match a
    case Emit => EmitStep(k, s, a);
    case EmitHeartbeat => EmitStep(k, s, a);
    case Deliver(Event(n), now) => EventStep(k, s, n, now);
    case Deliver(Heartbeat(last), now) => HeartbeatStep(k, s, last, now);
    case OtherEvent(_, _, _) => OtherStep(k, s, a);
    case OtherHeartbeat(_, _, _) => OtherStep(k, s, a);
  }

  /** The protocol after any interleaving of its actions. */
  ghost function Run(k: StreamKey, t: Tables, actions: seq<Action>): (s: System)
    requires Sound(t) && k !in t.rows
    ensures Inv(k, s)
  {
    if actions == [] then
      Start(t)
    else
      var s := Run(k, t, actions[..|actions| - 1]);
      StepKeepsInv(k, s, actions[|actions| - 1]);
      Step(k, s, actions[|actions| - 1])
  }

  /** The last number taken is the number of emits, whatever else happened. */
  lemma {:induction false} EmitsAreCounted(k: StreamKey, t: Tables, actions: seq<Action>)
    requires Sound(t) && k !in t.rows
    ensures Run(k, t, actions).lastSequence == multiset(actions)[Emit]
  {
    hide Inv, Sound, EventReceived, HeartbeatReceived;
    if actions != [] {
      var front, last := actions[..|actions| - 1], actions[|actions| - 1];
      assert actions == front + [last];
      EmitsAreCounted(k, t, front);
      InvParts(k, Run(k, t, front));
    }
  }

  /** What crowded means: at some time of the run the delivered numbers made more than 256 runs. */
  lemma {:induction false} CrowdedExactly(k: StreamKey, t: Tables, actions: seq<Action>)
    requires Sound(t) && k !in t.rows
    ensures Run(k, t, actions).crowded
            <==> exists i :: 0 <= i <= |actions| && RunCount(Run(k, t, actions[..i]).delivered) > 256
  {
    hide Inv, Sound, RunCount, Step;
    assert actions[..|actions|] == actions;
    if actions == [] {
      NothingDelivered();
    } else {
      var front := actions[..|actions| - 1];
      CrowdedExactly(k, t, front);
      assert forall i | 0 <= i <= |front| :: actions[..i] == front[..i];
      assert front[..|front|] == front;
      InvParts(k, Run(k, t, front));
      StepCrowds(k, Run(k, t, front), actions[|actions| - 1]);
    }
  }

  lemma StepCrowds(k: StreamKey, s: System, a: Action)
    requires Aligned(s.tables)
    ensures var next := Step(k, s, a);
            || (next.delivered == s.delivered && next.crowded == s.crowded)
            || (next.crowded <==> s.crowded || RunCount(next.delivered) > 256)
  {
    hide EventReceived, HeartbeatReceived, RunCount;
  }

  lemma NothingDelivered()
    ensures RunCount({}) == 0
  {
    assert RunStarts({}) == {};
  }

  /** Safety over every run: nothing is invented, the reported loss is never overstated, and exact unless crowded. */
  lemma GapAccounting(k: StreamKey, t: Tables, actions: seq<Action>)
    requires Sound(t) && k !in t.rows
    ensures var s := Run(k, t, actions);
            !s.evicted && k in s.tables.rows ==>
              var st := StreamOf(s.tables, k);
              && st.row.Highest() <= s.lastSequence
              && st.numbers <= s.delivered <= Interval(1, s.lastSequence)
              && st.row.Missing() <= |Missing(s.delivered, st.row.Highest())|
              && (st.row.detailTruncated <==> s.crowded)
              && (!s.crowded ==>
                    st.numbers == s.delivered && st.row.Missing() == |Missing(s.delivered, st.row.Highest())|)
  {
    var s := Run(k, t, actions);
    if !s.evicted && k in s.tables.rows {
      hide Run, RunCount;
      MissingIsHonest(StreamOf(s.tables, k), s.delivered);
    }
  }

  /** The collector knows the last number the sensor has taken. */
  ghost predicate Informed(k: StreamKey, s: System) {
    s.evicted || (k in s.tables.rows && s.tables.rows[k].maxReported == s.lastSequence)
  }

  lemma StreamBelow(st: Stream, s: System)
    requires Tracks(st, s)
    ensures st.row.Highest() <= s.lastSequence
  {
  }

  /** A heartbeat with the last number taken was sent, and its arrival does not evict the stream. */
  ghost predicate HeartbeatLands(k: StreamKey, s: System, now: int) {
    && Heartbeat(s.lastSequence) in s.sent && s.lastSequence <= MAX_SEQUENCE
    && k in Ensured(s.tables, k, now).rows
  }

  lemma InformedByHeartbeat(k: StreamKey, s: System, now: int)
    requires Inv(k, s) && HeartbeatLands(k, s, now)
    ensures Informed(k, Step(k, s, Deliver(Heartbeat(s.lastSequence), now)))
  {
    hide Inv, Sound, ReportedIn, Ensured, Tracks;
    InvParts(k, s);
    ReportedStreams(s.tables, k, s.lastSequence, now, k);
    if !s.evicted {
      TouchTracks(k, s, now);
      StreamBelow(StreamOf(Ensured(s.tables, k, now), k), s);
    }
  }

  lemma InformedStaysOnEvent(k: StreamKey, s: System, n: nat, now: int)
    requires Inv(k, s) && Informed(k, s)
    ensures Informed(k, Step(k, s, Deliver(Event(n), now)))
  {
    hide Inv, Sound, RecordedIn, Ensured;
    InvParts(k, s);
    TouchedStream(s.tables, k, now);
    if EventReceived(s.tables, k, n, now).Some? {
      RecordedStreams(s.tables, k, n, now, k);
    }
  }

  lemma InformedStaysOnHeartbeat(k: StreamKey, s: System, last: nat, now: int)
    requires Inv(k, s) && Informed(k, s)
    ensures Informed(k, Step(k, s, Deliver(Heartbeat(last), now)))
  {
    hide Inv, Sound, ReportedIn, Ensured;
    InvParts(k, s);
    TouchedStream(s.tables, k, now);
    ReportedStreams(s.tables, k, last, now, k);
  }

  lemma InformedStays(k: StreamKey, s: System, a: Action)
    requires Inv(k, s) && Informed(k, s) && a != Emit
    ensures Informed(k, Step(k, s, a))
  {
    hide Inv, Sound, RecordedIn, ReportedIn, Ensured;
    InvParts(k, s);
    match a
    case EmitHeartbeat =>
    case Deliver(Event(n), now) => InformedStaysOnEvent(k, s, n, now);
    case Deliver(Heartbeat(last), now) => InformedStaysOnHeartbeat(k, s, last, now);
    case OtherEvent(j, n, now) =>
      if EventReceived(s.tables, j, n, now).Some? {
        RecordedStreams(s.tables, j, n, now, k);
      }
    case OtherHeartbeat(j, last, now) =>
      ReportedStreams(s.tables, j, last, now, k);
  }

  lemma {:induction false} InformedThroughout(k: StreamKey, t: Tables, actions: seq<Action>, rest: seq<Action>)
    requires Sound(t) && k !in t.rows
    requires Informed(k, Run(k, t, actions)) && Emit !in rest
    ensures Informed(k, Run(k, t, actions + rest))
    ensures Run(k, t, actions + rest).lastSequence == Run(k, t, actions).lastSequence
  {
    hide Inv, Sound, Informed;
    if rest == [] {
      assert actions + rest == actions;
    } else {
      var front, a := rest[..|rest| - 1], rest[|rest| - 1];
      InformedThroughout(k, t, actions, front);
      assert (actions + rest)[..|actions + rest| - 1] == actions + front;
      InvParts(k, Run(k, t, actions + front));
      InformedStays(k, Run(k, t, actions + front), a);
    }
  }

  /** The reported loss is what was emitted and not stored. */
  ghost predicate Settled(k: StreamKey, s: System)
    requires Aligned(s.tables)
  {
    && k in s.tables.rows
    && var st := StreamOf(s.tables, k);
    && st.row.Highest() == s.lastSequence
    && st.row.Missing() <= s.lastSequence - |s.delivered|
    && (!s.crowded ==> st.numbers == s.delivered && st.row.Missing() == s.lastSequence - |s.delivered|)
  }

  lemma InformedIsSettled(k: StreamKey, s: System)
    requires Inv(k, s) && Informed(k, s) && !s.evicted
    ensures Settled(k, s)
  {
    hide Inv, Sound, RunCount;
    InvTracks(k, s);
    var st := StreamOf(s.tables, k);
    assert s.delivered <= Interval(1, s.lastSequence);
    SubsetSize(s.delivered, Interval(1, s.lastSequence));
    assert st.row.Highest() == s.lastSequence;
  }

  /**
   * A heartbeat taken after the last emit settles the account: from its arrival on, as long as the sensor
   * emits nothing more and the collector does not evict the stream, the reported loss is exact.
   */
  lemma SettledLoss(k: StreamKey, t: Tables, actions: seq<Action>, now: int, rest: seq<Action>)
    requires Sound(t) && k !in t.rows && Emit !in rest
    ensures var emitted := Run(k, t, actions).lastSequence;
            var s := Run(k, t, actions + [Deliver(Heartbeat(emitted), now)] + rest);
            HeartbeatLands(k, Run(k, t, actions), now) ==>
              s.lastSequence == emitted && Aligned(s.tables) && (!s.evicted ==> Settled(k, s))
  {
    hide Inv, Informed, Sound, Settled, Ensured;
    var s0 := Run(k, t, actions);
    if HeartbeatLands(k, s0, now) {
      var arrival := Deliver(Heartbeat(s0.lastSequence), now);
      var all := actions + [arrival];
      assert all[..|all| - 1] == actions;
      InvParts(k, s0);
      InformedByHeartbeat(k, s0, now);
      InformedThroughout(k, t, all, rest);
      var s := Run(k, t, all + rest);
      InvParts(k, s);
      if !s.evicted {
        InformedIsSettled(k, s);
      }
    }
  }
}
