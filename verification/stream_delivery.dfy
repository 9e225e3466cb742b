/** Delivery over whole runs: Core's event log, the publisher, the subscription and one
    stream, each free to move whenever it can. */
module StreamDelivery {
  import opened Text
  import opened Values
  import opened Stream

  // ----- Core -----

  /** Core answers with JSON, so an id arrives as a float64. */
  function CoreEvent(id: nat): Event {
    [Field("event_id", Float(Fraction(id, 0)))]
  }

  function CoreEvents(ids: seq<nat>): (events: seq<Event>)
    ensures |events| == |ids|
  {
    seq(|ids|, i requires 0 <= i < |ids| => CoreEvent(ids[i]))
  }

  /** The ids that survive the trip through a batch of such events. */
  function Arriving(ids: seq<nat>): seq<nat> {
    IdsOf(CoreEvents(ids))
  }

  function Above(log: seq<nat>, after: nat): seq<nat> {
    if |log| == 0 then []
    else (if log[0] > after then [log[0]] else []) + Above(log[1..], after)
  }

  /** The events Core returns for one request: the first `limit` ids after the given one. */
  function CorePage(log: seq<nat>, after: nat, limit: nat): (page: seq<nat>)
    ensures page <= Above(log, after)
  {
    var all := Above(log, after);
    if |all| <= limit then all else all[..limit]
  }

  predicate Decodable(id: nat) { id < FLOAT_EXPONENT_FROM }

  // ----- the system -----

  datatype Phase = Opening | Loaded(page: seq<nat>) | Listening(page: seq<nat>) | Replayed | Live(truncated: bool)

  /** Ids are published in log order. From the subscription on, the published entries from
      `next` up are the messages waiting in the channel, in that order and without loss. */
  datatype System = System(
    limit: nat, start: nat,
    log: seq<nat>, published: nat, next: nat,
    phase: Phase, last: nat, emitted: seq<nat>)
  {
    predicate Subscribed() { phase.Listening? || phase.Replayed? || phase.Live? }
  }

  datatype Step = Commit(id: nat) | Publish | Load | Subscribe | Replay | CatchUp | Receive | Recover

  function Init(limit: nat, start: nat): System {
    System(limit, start, [], 0, 0, Opening, start, [])
  }

  predicate Enabled(s: System, step: Step) {
    match step
    case Commit(id) => |s.log| == 0 || s.log[|s.log| - 1] < id
    case Publish => s.published < |s.log|
    case Load => s.phase.Opening?
    case Subscribe => s.phase.Loaded?
    case Replay => s.phase.Listening?
    case CatchUp => s.phase.Replayed?
    case Receive => s.phase.Live? && s.next < s.published <= |s.log|
    case Recover => s.phase.Live?
  }

  /** Hand one batch to the stream. */
  function Deliver(s: System, batch: seq<nat>): System {
    s.(last := Mark(s.last, Arriving(batch)), emitted := s.emitted + HighWater(s.last, Arriving(batch)))
  }

  function Next(s: System, step: Step): System
    requires Enabled(s, step)
  {
    match step
    case Commit(id) => s.(log := s.log + [id])
    case Publish => s.(published := s.published + 1, next := if s.Subscribed() then s.next else s.published + 1)
    case Load => s.(phase := Loaded(CorePage(s.log, s.start, s.limit)))
    case Subscribe => s.(phase := Listening(s.phase.page), next := s.published)
    case Replay => Deliver(s, s.phase.page).(phase := Replayed)
    case CatchUp =>
      var page := CorePage(s.log, s.last, s.limit);
      Deliver(s, page).(phase := Live(|page| >= s.limit))
    case Receive => Deliver(s.(next := s.next + 1), [s.log[s.next]])
    case Recover => Deliver(s, CorePage(s.log, s.last, s.limit))
  }

  ghost predicate Runs(s: System, steps: seq<Step>, t: System)
    decreases steps
  {
    if |steps| == 0 then s == t
    else Enabled(s, steps[0]) && Runs(Next(s, steps[0]), steps[1..], t)
  }

  // ----- what the stream owes its client -----

  function Between(log: seq<nat>, after: nat, upTo: nat): seq<nat> {
    if |log| == 0 then []
    else (if after < log[0] <= upTo then [log[0]] else []) + Between(log[1..], after, upTo)
  }

  /** Everything logged in (start, last], once each and in log order. */
  ghost predicate GapFree(s: System) {
    s.emitted == Between(s.log, s.start, s.last)
  }

  /** Whatever no message will bring any more is at or below the high-water mark (or cannot be
      decoded anyway). */
  ghost predicate Covered(s: System) {
    forall i :: 0 <= i < s.next && i < |s.log| && Decodable(s.log[i]) ==> s.log[i] <= s.last
  }

  ghost predicate Sound(s: System) {
    && StrictlyIncreasing(s.log)
    && s.next <= s.published <= |s.log|
    && (s.last == s.start || (s.last > s.start && s.last in s.log))
    && (s.phase.Opening? || s.phase.Loaded? || s.phase.Listening? ==> s.last == s.start)
    && (s.phase.Loaded? || s.phase.Listening? ==> s.phase.page <= Above(s.log, s.start))
  }

  ghost predicate Inv(s: System) {
    && Sound(s)
    && (s.phase != Live(true) ==> GapFree(s))
    && (s.phase == Live(false) ==> Covered(s))
  }

  // ----- sequences of ids -----

  lemma CoreEventId(id: nat)
    ensures EventId(CoreEvent(id)) == if Decodable(id) then Some(id) else None
  {
    var event := CoreEvent(id);
    assert Lookup(event, "event_id") == Some(Float(Fraction(id, 0)));
    assert ["event_id", "EventID"][0] == "event_id";
    assert PickField(event, ["event_id", "EventID"]) == Float(Fraction(id, 0));
  }

  lemma ArrivingStep(batch: seq<nat>)
    requires |batch| > 0
    ensures Arriving(batch) == (if Decodable(batch[0]) then [batch[0]] else []) + Arriving(batch[1..])
  {
    CoreEventId(batch[0]);
    assert CoreEvents(batch)[1..] == CoreEvents(batch[1..]);
  }

  lemma {:induction false} ArrivingDecodable(batch: seq<nat>)
    ensures forall x :: x in Arriving(batch) <==> x in batch && Decodable(x)
  {
    if |batch| > 0 {
      ArrivingStep(batch);
      ArrivingDecodable(batch[1..]);
      assert batch == [batch[0]] + batch[1..];
    }
  }

  lemma IncreasingCons(x: nat, tail: seq<nat>)
    requires StrictlyIncreasing(tail) && forall y :: y in tail ==> x < y
    ensures StrictlyIncreasing([x] + tail)
  {
    forall i | 0 <= i < |tail| ensures x < tail[i] { assert tail[i] in tail; }
  }

  lemma IncreasingHead(ids: seq<nat>)
    requires StrictlyIncreasing(ids) && |ids| > 0
    ensures StrictlyIncreasing(ids[1..])
    ensures forall y :: y in ids[1..] ==> ids[0] < y
    ensures ids == [ids[0]] + ids[1..]
  {
  }

  /** In a rising batch, once one id cannot be decoded none after it can. */
  lemma {:induction false} ArrivingPrefix(batch: seq<nat>)
    requires StrictlyIncreasing(batch)
    ensures StrictlyIncreasing(Arriving(batch))
    ensures Arriving(batch) <= batch
  {
    ArrivingDecodable(batch);
    if |batch| > 0 {
      var tail := Arriving(batch[1..]);
      ArrivingStep(batch);
      IncreasingHead(batch);
      ArrivingDecodable(batch[1..]);
      ArrivingPrefix(batch[1..]);
      assert |tail| > 0 ==> tail[0] in tail;
      if Decodable(batch[0]) {
        IncreasingCons(batch[0], tail);
      } else {
        assert tail == [];
      }
    }
  }

  /** In a rising batch every id above `last` is a record. */
  lemma RisingRecords(last: nat, ids: seq<nat>)
    requires StrictlyIncreasing(ids)
    ensures StrictlyIncreasing(HighWater(last, ids))
    ensures forall x: nat :: x in HighWater(last, ids) <==> x in ids && x > last
    ensures Mark(last, ids) == last || (Mark(last, ids) > last && Mark(last, ids) in ids)
    ensures forall x :: x in ids ==> x <= Mark(last, ids)
  {
    HighWaterKeepsRecords(last, ids);
    forall x: nat | x in ids && x > last ensures IsRecord(last, ids, x) {
      var k :| 0 <= k < |ids| && ids[k] == x;
      assert forall j :: 0 <= j < k ==> ids[j] < x;
    }
  }

  lemma {:induction false} AboveIsLog(log: seq<nat>, after: nat)
    requires StrictlyIncreasing(log)
    ensures StrictlyIncreasing(Above(log, after))
    ensures forall x :: x in Above(log, after) <==> x in log && x > after
  {
    if |log| > 0 {
      IncreasingHead(log);
      AboveIsLog(log[1..], after);
      IncreasingCons(log[0], Above(log[1..], after));
    }
  }

  lemma {:induction false} AboveAppend(a: seq<nat>, b: seq<nat>, after: nat)
    ensures Above(a + b, after) == Above(a, after) + Above(b, after)
  {
    if |a| == 0 {
      assert a + b == b;
    } else {
      assert (a + b)[1..] == a[1..] + b;
      AboveAppend(a[1..], b, after);
      Associative(if a[0] > after then [a[0]] else [], Above(a[1..], after), Above(b, after));
    }
  }

  lemma {:induction false} BetweenIsLog(log: seq<nat>, after: nat, upTo: nat)
    requires StrictlyIncreasing(log)
    ensures StrictlyIncreasing(Between(log, after, upTo))
    ensures forall x :: x in Between(log, after, upTo) <==> x in log && after < x <= upTo
  {
    if |log| > 0 {
      IncreasingHead(log);
      BetweenIsLog(log[1..], after, upTo);
      IncreasingCons(log[0], Between(log[1..], after, upTo));
    }
  }

  lemma {:induction false} BetweenAppend(a: seq<nat>, b: seq<nat>, after: nat, upTo: nat)
    ensures Between(a + b, after, upTo) == Between(a, after, upTo) + Between(b, after, upTo)
  {
    if |a| == 0 {
      assert a + b == b;
    } else {
      assert (a + b)[1..] == a[1..] + b;
      BetweenAppend(a[1..], b, after, upTo);
      Associative(if after < a[0] <= upTo then [a[0]] else [], Between(a[1..], after, upTo), Between(b, after, upTo));
    }
  }

  /** Rising sequences with the same members are the same sequence. */
  lemma {:induction false} SameMembers(a: seq<nat>, b: seq<nat>)
    requires StrictlyIncreasing(a) && StrictlyIncreasing(b)
    requires forall x :: x in a <==> x in b
    ensures a == b
  {
    assert (|a| > 0 ==> a[0] in a) && (|b| > 0 ==> b[0] in b);
    if |a| > 0 && |b| > 0 {
      IncreasingHead(a);
      IncreasingHead(b);
      assert a[0] in b && b[0] in a;
      forall x ensures x in a[1..] <==> x in b[1..] {
        assert x in a[1..] <==> x in a && x > a[0];
        assert x in b[1..] <==> x in b && x > b[0];
      }
      SameMembers(a[1..], b[1..]);
    }
  }

  /** Raising the upper bound adds the entries between the old bound and the new one. */
  lemma BetweenExtends(log: seq<nat>, after: nat, mid: nat, upTo: nat, added: seq<nat>)
    requires StrictlyIncreasing(log) && StrictlyIncreasing(added) && after <= mid <= upTo
    requires forall x :: x in added <==> x in log && mid < x <= upTo
    ensures Between(log, after, upTo) == Between(log, after, mid) + added
  {
    var low := Between(log, after, mid);
    BetweenIsLog(log, after, mid);
    BetweenIsLog(log, after, upTo);
    forall i, j | 0 <= i < j < |low + added| ensures (low + added)[i] < (low + added)[j] {
      assert i < |low| ==> low[i] in low;
      assert j >= |low| ==> added[j - |low|] in added;
    }
    SameMembers(Between(log, after, upTo), low + added);
  }

  /** A rising batch that leaves out nothing decodable extends what was delivered without a gap. */
  lemma BatchExtends(log: seq<nat>, start: nat, last: nat, batch: seq<nat>)
    requires StrictlyIncreasing(log) && StrictlyIncreasing(batch) && start <= last
    requires forall x :: x in batch ==> x in log
    requires forall x, y :: x in batch && Decodable(x) && y in log && last < y < x ==> y in batch
    ensures var ids := Arriving(batch);
            Between(log, start, Mark(last, ids)) == Between(log, start, last) + HighWater(last, ids)
  {
    var ids := Arriving(batch);
    var mark := Mark(last, ids);
    ArrivingDecodable(batch);
    ArrivingPrefix(batch);
    RisingRecords(last, ids);
    forall x: nat ensures x in HighWater(last, ids) <==> x in log && last < x <= mark {
      if x in log && last < x <= mark {
        assert mark in batch && Decodable(mark);
        assert x == mark || x in batch;
      }
    }
    BetweenExtends(log, start, last, mark, HighWater(last, ids));
  }

  /** Every page Core returns is such a batch. */
  lemma PageExtends(log: seq<nat>, start: nat, last: nat, page: seq<nat>)
    requires StrictlyIncreasing(log) && start <= last && page <= Above(log, last)
    ensures var ids := Arriving(page);
            Between(log, start, Mark(last, ids)) == Between(log, start, last) + HighWater(last, ids)
  {
    var all := Above(log, last);
    AboveIsLog(log, last);
    forall x | x in page ensures x in log { assert x in all; }
    forall x, y | x in page && Decodable(x) && y in log && last < y < x ensures y in page {
      var i :| 0 <= i < |page| && page[i] == x;
      var j :| 0 <= j < |all| && all[j] == y;
      assert all[i] == x && j < i;
    }
    BatchExtends(log, start, last, page);
  }

  /** The next message, when everything before it has been dealt with. */
  lemma MessageExtends(log: seq<nat>, start: nat, last: nat, k: nat)
    requires StrictlyIncreasing(log) && start <= last && k < |log|
    requires forall i :: 0 <= i < k && Decodable(log[i]) ==> log[i] <= last
    ensures var ids := Arriving([log[k]]);
            Between(log, start, Mark(last, ids)) == Between(log, start, last) + HighWater(last, ids)
  {
    assert forall j :: 0 <= j < |log| && log[j] < log[k] ==> j < k;
    BatchExtends(log, start, last, [log[k]]);
  }

  // ----- every step -----

  /** A batch taken from the log moves the mark to a logged id, or not at all. */
  lemma DeliverMark(s: System, batch: seq<nat>)
    requires Sound(s) && StrictlyIncreasing(batch) && forall x :: x in batch ==> x in s.log
    ensures var mark := Mark(s.last, Arriving(batch));
            && (mark == s.last || (mark > s.last && mark in batch))
            && (forall x :: x in batch && Decodable(x) ==> x <= mark)
  {
    ArrivingDecodable(batch);
    ArrivingPrefix(batch);
    RisingRecords(s.last, Arriving(batch));
  }

  lemma DeliverPage(s: System, page: seq<nat>)
    requires Sound(s) && page <= Above(s.log, s.last)
    ensures var t := Deliver(s, page);
            && Sound(t.(phase := Replayed))
            && (GapFree(s) ==> GapFree(t))
            && (Covered(s) ==> Covered(t))
            && (forall x :: x in page && Decodable(x) ==> x <= t.last)
            && (t.last == s.last || t.last in page)
  {
    AboveIsLog(s.log, s.last);
    forall x | x in page ensures x in s.log { assert x in Above(s.log, s.last); }
    DeliverMark(s, page);
    PageExtends(s.log, s.start, s.last, page);
  }

  lemma DeliverMessage(s: System)
    requires Sound(s) && Enabled(s, Receive)
    ensures var t := Next(s, Receive);
            && Sound(t)
            && (GapFree(s) && Covered(s) ==> GapFree(t) && Covered(t))
  {
    DeliverMark(s, [s.log[s.next]]);
    if Covered(s) {
      MessageExtends(s.log, s.start, s.last, s.next);
    }
  }

  lemma CommitKeeps(s: System, id: nat)
    requires Sound(s) && Enabled(s, Commit(id))
    ensures var t := Next(s, Commit(id));
            && Sound(t)
            && (GapFree(s) ==> GapFree(t))
            && (Covered(s) ==> Covered(t))
  {
    LastIsLargest(s.log, id);
    var log := s.log + [id];
    BetweenAppend(s.log, [id], s.start, s.last);
    AboveAppend(s.log, [id], s.start);
    assert s.last in s.log ==> s.last in log;
    assert s.last == s.start || s.last < id;
    assert Between([id], s.start, s.last) == [];
  }

  lemma LastIsLargest(log: seq<nat>, id: nat)
    requires StrictlyIncreasing(log) && (|log| == 0 || log[|log| - 1] < id)
    ensures StrictlyIncreasing(log + [id]) && forall x :: x in log ==> x < id
  {
  }

  /** A page that came back short held everything there was. */
  lemma ShortPageCovers(s: System)
    requires Sound(s) && Enabled(s, CatchUp) && Next(s, CatchUp).phase == Live(false)
    ensures Covered(Next(s, CatchUp))
  {
    AboveIsLog(s.log, s.last);
    DeliverPage(s, CorePage(s.log, s.last, s.limit));
  }

  lemma CatchUpKeeps(s: System)
    requires Inv(s) && Enabled(s, CatchUp)
    ensures Inv(Next(s, CatchUp)) && GapFree(Next(s, CatchUp))
  {
    DeliverPage(s, CorePage(s.log, s.last, s.limit));
    if Next(s, CatchUp).phase == Live(false) {
      ShortPageCovers(s);
    }
  }

  lemma InvStep(s: System, step: Step)
    requires Inv(s) && Enabled(s, step)
    ensures Inv(Next(s, step))
    ensures s.phase.Live? && GapFree(s) && Covered(s) ==> GapFree(Next(s, step)) && Covered(Next(s, step))
  {
    match step
    case Commit(id) => CommitKeeps(s, id);
    case Publish =>
    case Load =>
    case Subscribe =>
    case Replay => DeliverPage(s, s.phase.page);
    case CatchUp => CatchUpKeeps(s);
    case Receive => DeliverMessage(s);
    case Recover => DeliverPage(s, CorePage(s.log, s.last, s.limit));
  }

  // ----- whole runs -----

  lemma {:induction false} InvRuns(s: System, steps: seq<Step>, t: System)
    requires Inv(s) && Runs(s, steps, t)
    ensures Inv(t) && t.start == s.start
    decreases steps
  {
    if |steps| > 0 {
      InvStep(s, steps[0]);
      InvRuns(Next(s, steps[0]), steps[1..], t);
    }
  }

  /** However commits, publications, messages and timeout recoveries interleave: once the
      catch-up page came back shorter than the limit, the client has every logged event in
      (start, last] exactly once and in order; before that it never had a gap either. */
  lemma GaplessDelivery(limit: nat, start: nat, steps: seq<Step>, t: System)
    requires Runs(Init(limit, start), steps, t)
    requires t.phase != Live(true)
    ensures StrictlyIncreasing(t.emitted)
    ensures forall x :: x in t.emitted <==> x in t.log && start < x <= t.last
  {
    InvRuns(Init(limit, start), steps, t);
    BetweenIsLog(t.log, start, t.last);
  }

  /** When such a stream has received all that was logged, it has delivered every event whose
      id can be decoded, and no other. */
  lemma DrainedStreamIsComplete(limit: nat, start: nat, steps: seq<Step>, t: System)
    requires Runs(Init(limit, start), steps, t)
    requires t.phase == Live(false) && t.next == |t.log|
    ensures forall x :: x in t.emitted <==> x in t.log && start < x < FLOAT_EXPONENT_FROM
  {
    InvRuns(Init(limit, start), steps, t);
    BetweenIsLog(t.log, start, t.last);
    LargeIdsNeverArrive(limit, start, steps, t);
    forall x | x in t.log && Decodable(x) ensures x <= t.last {
      var i :| 0 <= i < |t.log| && t.log[i] == x;
    }
  }

  /** From an id of 1,000,000 on nothing is ever delivered, on any schedule. */
  lemma LargeIdsNeverArrive(limit: nat, start: nat, steps: seq<Step>, t: System)
    requires Runs(Init(limit, start), steps, t)
    ensures forall x :: x in t.emitted ==> start < x < FLOAT_EXPONENT_FROM
  {
    EmittedDecodable(Init(limit, start), steps, t);
  }

  lemma {:induction false} EmittedDecodable(s: System, steps: seq<Step>, t: System)
    requires Runs(s, steps, t) && s.last >= s.start
    requires forall x :: x in s.emitted ==> s.start < x && Decodable(x)
    ensures forall x :: x in t.emitted ==> s.start < x && Decodable(x)
    decreases steps
  {
    if |steps| > 0 {
      var next := Next(s, steps[0]);
      var batch := match steps[0]
        case Replay => s.phase.page
        case CatchUp => CorePage(s.log, s.last, s.limit)
        case Recover => CorePage(s.log, s.last, s.limit)
        case Receive => [s.log[s.next]]
        case _ => [];
      HighWaterKeepsRecords(s.last, Arriving(batch));
      ArrivingDecodable(batch);
      assert forall x: nat :: IsRecord(s.last, Arriving(batch), x) ==> x in Arriving(batch);
      EmittedDecodable(next, steps[1..], t);
    }
  }

  // ----- the system's stream is the stream that Serve runs -----

  function Page(log: seq<nat>, limit: nat): nat -> Recovery {
    (after: nat) => Batch(CoreEvents(CorePage(log, after, limit)))
  }

  /** What the live loop sees of a run. */
  function Arrivals(s: System, steps: seq<Step>): seq<Arrival>
    decreases steps
  {
    if |steps| == 0 || !Enabled(s, steps[0]) then []
    else
      var rest := Arrivals(Next(s, steps[0]), steps[1..]);
      match steps[0]
      case Receive => [Message(CoreEvent(s.log[s.next]))] + rest
      case Recover => [Quiet(Page(s.log, s.limit))] + rest
      case _ => rest
  }

  lemma TurnFrames(last: nat, arrival: Arrival, rest: seq<Arrival>)
    requires TurnOf(last, true, arrival).Go?
    ensures var ids := TurnOf(last, true, arrival).ids;
            FrameIds(LiveRun(last, true, [arrival] + rest).outs)
            == HighWater(last, ids) + FrameIds(LiveRun(Mark(last, ids), true, rest).outs)
  {
    var ids := TurnOf(last, true, arrival).ids;
    assert ([arrival] + rest)[1..] == rest;
    LiveRunFilters(last, true, [arrival] + rest);
    LiveRunFilters(Mark(last, ids), true, rest);
    HighWaterAppend(last, ids, LiveRun(Mark(last, ids), true, rest).ids);
  }

  lemma {:induction false} LiveIsServe(s: System, steps: seq<Step>, t: System)
    requires s.phase.Live? && Runs(s, steps, t)
    ensures t.emitted == s.emitted + FrameIds(LiveRun(s.last, true, Arrivals(s, steps)).outs)
    decreases steps
  {
    if |steps| > 0 {
      var next := Next(s, steps[0]);
      var rest := Arrivals(next, steps[1..]);
      LiveIsServe(next, steps[1..], t);
      if steps[0].Receive? || steps[0].Recover? {
        var batch := if steps[0].Receive? then [s.log[s.next]] else CorePage(s.log, s.last, s.limit);
        assert steps[0].Receive? ==> CoreEvents(batch) == [CoreEvent(s.log[s.next])];
        TurnFrames(s.last, Arrivals(s, steps)[0], rest);
        Associative(s.emitted, HighWater(s.last, Arriving(batch)), FrameIds(LiveRun(next.last, true, rest).outs));
      }
    }
  }

  /** The replay that a run loads before it subscribes. */
  function Recovered(s: System, steps: seq<Step>): seq<Event>
    decreases steps
  {
    if s.phase.Loaded? || s.phase.Listening? then CoreEvents(s.phase.page)
    else if |steps| == 0 || !Enabled(s, steps[0]) then []
    else Recovered(Next(s, steps[0]), steps[1..])
  }

  /** How Core answers the catch-up request of a run: out of the log as it then is. */
  function CatchUpAnswer(s: System, steps: seq<Step>): nat -> Recovery
    decreases steps
  {
    if |steps| == 0 || !Enabled(s, steps[0]) || steps[0].CatchUp? then Page(s.log, s.limit)
    else CatchUpAnswer(Next(s, steps[0]), steps[1..])
  }

  lemma ConnectedFrames(last: nat, catchUp: nat -> Recovery, arrivals: seq<Arrival>)
    requires catchUp(last).Batch?
    ensures var ids := IdsOf(catchUp(last).events);
            FrameIds(ConnectedRun(last, true, catchUp, arrivals).outs)
            == HighWater(last, ids) + FrameIds(LiveRun(Mark(last, ids), true, arrivals).outs)
  {
    var ids := IdsOf(catchUp(last).events);
    var live := LiveRun(Mark(last, ids), true, arrivals);
    LiveRunFilters(Mark(last, ids), true, arrivals);
    PrependFilters(last, ids, [Connected], live);
    HighWaterAppend(last, ids, live.ids);
  }

  lemma {:induction false} ReplayedIsServe(s: System, steps: seq<Step>, t: System)
    requires Runs(s, steps, t) && t.phase.Live? && s.phase.Replayed?
    ensures t.emitted == s.emitted +
                                 FrameIds(ConnectedRun(s.last, true, CatchUpAnswer(s, steps), Arrivals(s, steps)).outs)
    decreases steps
  {
    var next := Next(s, steps[0]);
    if steps[0].CatchUp? {
      var catchUp, arrivals := Page(s.log, s.limit), Arrivals(next, steps[1..]);
      LiveIsServe(next, steps[1..], t);
      ConnectedFrames(s.last, catchUp, arrivals);
      Associative(s.emitted, HighWater(s.last, Arriving(CorePage(s.log, s.last, s.limit))),
                  FrameIds(LiveRun(next.last, true, arrivals).outs));
    } else {
      ReplayedIsServe(next, steps[1..], t);
    }
  }

  /** What `Serve` writes when it is handed the page that a run loads, the page Core holds at its
      catch-up, and its messages and recoveries in order. */
  function ServedIds(s: System, steps: seq<Step>): seq<nat> {
    FrameIds(FullRun(s.start, Recovered(s, steps), Subscribed, true, CatchUpAnswer(s, steps), Arrivals(s, steps)).outs)
  }

  lemma ReplayFrames(start: nat, recovered: seq<Event>, catchUp: nat -> Recovery, arrivals: seq<Arrival>)
    ensures var ids := IdsOf(recovered);
            FrameIds(FullRun(start, recovered, Subscribed, true, catchUp, arrivals).outs)
            == HighWater(start, ids) + FrameIds(ConnectedRun(Mark(start, ids), true, catchUp, arrivals).outs)
  {
    var ids := IdsOf(recovered);
    FrameIdsOfFrames(HighWater(start, ids));
    FrameIdsAppend(Frames(HighWater(start, ids)), ConnectedRun(Mark(start, ids), true, catchUp, arrivals).outs);
  }

  lemma ReplayHands(s: System, steps: seq<Step>)
    requires |steps| > 0 && Enabled(s, steps[0]) && steps[0].Replay?
    ensures var next := Next(s, steps[0]);
            && Recovered(s, steps) == CoreEvents(s.phase.page)
            && CatchUpAnswer(s, steps) == CatchUpAnswer(next, steps[1..])
            && Arrivals(s, steps) == Arrivals(next, steps[1..])
  {
  }

  lemma ReplayIsServe(s: System, steps: seq<Step>, t: System)
    requires Runs(s, steps, t) && t.phase.Live? && |steps| > 0 && Enabled(s, steps[0]) && steps[0].Replay?
    requires s.emitted == [] && s.last == s.start
    ensures t.emitted == ServedIds(s, steps)
  {
    var next, page := Next(s, steps[0]), CoreEvents(s.phase.page);
    ReplayHands(s, steps);
    ReplayedIsServe(next, steps[1..], t);
    ReplayFrames(s.start, page, CatchUpAnswer(next, steps[1..]), Arrivals(next, steps[1..]));
    assert next.emitted == HighWater(s.start, IdsOf(page)) && next.last == Mark(s.start, IdsOf(page));
  }

  /** Until the replay, no step changes what `Serve` will be handed. */
  lemma ServedIdsStay(s: System, steps: seq<Step>)
    requires |steps| > 0 && Enabled(s, steps[0]) && !s.phase.Live? && !s.phase.Replayed? && !steps[0].Replay?
    ensures ServedIds(s, steps) == ServedIds(Next(s, steps[0]), steps[1..])
  {
    var next := Next(s, steps[0]);
    assert Recovered(s, steps) == Recovered(next, steps[1..]);
    assert CatchUpAnswer(s, steps) == CatchUpAnswer(next, steps[1..]);
    assert Arrivals(s, steps) == Arrivals(next, steps[1..]);
  }

  lemma {:induction false} OpenedIsServe(s: System, steps: seq<Step>, t: System)
    requires Runs(s, steps, t) && t.phase.Live? && !s.phase.Live? && !s.phase.Replayed?
    requires s.emitted == [] && s.last == s.start
    ensures t.emitted == ServedIds(s, steps)
    decreases steps
  {
    if steps[0].Replay? {
      ReplayIsServe(s, steps, t);
    } else {
      OpenedIsServe(Next(s, steps[0]), steps[1..], t);
      ServedIdsStay(s, steps);
    }
  }

  /** Every run that has reached the live loop has emitted just that. */
  lemma SystemIsServe(limit: nat, start: nat, steps: seq<Step>, t: System)
    requires Runs(Init(limit, start), steps, t) && t.phase.Live?
    ensures t.emitted == ServedIds(Init(limit, start), steps)
  {
    OpenedIsServe(Init(limit, start), steps, t);
  }

  // ----- exactly when a live stream can still lose something -----

  ghost predicate CanLose(s: System) {
    exists steps, t :: Runs(s, steps, t) && !GapFree(t)
  }

  /** `x` was logged and can be decoded, was never delivered, and no message will bring it. */
  ghost predicate Overtaken(s: System, x: nat) {
    s.start <= s.last < x && x !in s.emitted && Decodable(x) && s.next <= |s.log| && x in s.log[..s.next]
  }

  /** The smallest id that the next message can have: it is logged already, or Core has yet to choose it. */
  function NextId(s: System): nat {
    if s.next < |s.log| then s.log[s.next] else if |s.log| == 0 then 0 else s.log[|s.log| - 1] + 1
  }

  /** Nothing is missing, or no message will bring anything any more. */
  ghost predicate Safe(s: System) {
    Covered(s) || !Decodable(NextId(s))
  }

  lemma NextIdRises(s: System, step: Step)
    requires Sound(s) && s.phase.Live? && Enabled(s, step)
    ensures NextId(s) <= NextId(Next(s, step))
  {
    if step.Receive? && s.next + 1 < |s.log| {
      assert s.log[s.next] < s.log[s.next + 1];
    }
  }

  /** A message that cannot be decoded delivers nothing. */
  lemma UndecodableMessage(s: System)
    requires Enabled(s, Receive) && !Decodable(s.log[s.next])
    ensures Next(s, Receive) == s.(next := s.next + 1)
  {
    ArrivingStep([s.log[s.next]]);
    assert Arriving([s.log[s.next]]) == [];
    assert s.emitted + [] == s.emitted;
  }

  lemma SafeStep(s: System, step: Step)
    requires Inv(s) && s.phase.Live? && GapFree(s) && Safe(s) && Enabled(s, step)
    ensures GapFree(Next(s, step)) && Safe(Next(s, step))
  {
    InvStep(s, step);
    NextIdRises(s, step);
    if !Covered(s) {
      match step
      case Commit(id) => CommitKeeps(s, id);
      case Receive => UndecodableMessage(s);
      case Recover => DeliverPage(s, CorePage(s.log, s.last, s.limit));
      case _ =>
    }
  }

  lemma {:induction false} SafeRuns(s: System, steps: seq<Step>, t: System)
    requires Inv(s) && s.phase.Live? && GapFree(s) && Safe(s) && Runs(s, steps, t)
    ensures GapFree(t)
    decreases steps
  {
    if |steps| > 0 {
      InvStep(s, steps[0]);
      SafeStep(s, steps[0]);
      SafeRuns(Next(s, steps[0]), steps[1..], t);
    }
  }

  lemma CanLoseStep(s: System, step: Step)
    requires Enabled(s, step) && CanLose(Next(s, step))
    ensures CanLose(s)
  {
    var steps, t :| Runs(Next(s, step), steps, t) && !GapFree(t);
    assert ([step] + steps)[1..] == steps;
    assert Runs(s, [step] + steps, t);
  }

  /** Receiving a decodable message behind an overtaken event loses that event. */
  lemma ReceivingLoses(s: System, x: nat)
    requires Inv(s) && Enabled(s, Receive) && Overtaken(s, x) && Decodable(s.log[s.next])
    ensures CanLose(s)
  {
    var t := Next(s, Receive);
    var head := s.log[s.next];
    ArrivingStep([head]);
    assert Arriving([head]) == [head];
    var i :| 0 <= i < s.next && s.log[i] == x;
    assert x < head;
    assert HighWater(s.last, [head]) == [head] && Mark(s.last, [head]) == head;
    BetweenIsLog(t.log, t.start, t.last);
    assert x !in t.emitted && x in t.log;
    assert Runs(t, [], t);
    CanLoseStep(s, Receive);
  }

  /** Publishing what is committed puts the next message into the channel. */
  lemma {:induction false} PublishingLoses(s: System, x: nat)
    requires Inv(s) && s.phase.Live? && Overtaken(s, x)
    requires s.next < |s.log| && Decodable(s.log[s.next])
    ensures CanLose(s)
    decreases |s.log| - s.published
  {
    if s.next < s.published {
      ReceivingLoses(s, x);
    } else {
      InvStep(s, Publish);
      PublishingLoses(Next(s, Publish), x);
      CanLoseStep(s, Publish);
    }
  }

  lemma OvertakenLoses(s: System, x: nat)
    requires Inv(s) && s.phase.Live? && Overtaken(s, x) && Decodable(NextId(s))
    ensures CanLose(s)
  {
    if s.next < |s.log| {
      PublishingLoses(s, x);
    } else {
      var step := Commit(NextId(s));
      var t := Next(s, step);
      InvStep(s, step);
      assert t.log[..t.next] == s.log[..s.next];
      PublishingLoses(t, x);
      CanLoseStep(s, step);
    }
  }

  /** The exact condition. A gap-free live stream can come to lose an event if and only if some decodable
      event that no message will bring is above the high-water mark, and the next message, whether it waits
      already or is still to be logged, can be a decodable one. */
  lemma CoverageIsExact(s: System)
    requires Inv(s) && s.phase.Live? && GapFree(s)
    ensures CanLose(s) <==> !Covered(s) && Decodable(NextId(s))
  {
    if Safe(s) {
      forall steps, t | Runs(s, steps, t) ensures GapFree(t) {
        SafeRuns(s, steps, t);
      }
    } else {
      var i :| 0 <= i < s.next && i < |s.log| && Decodable(s.log[i]) && s.log[i] > s.last;
      BetweenIsLog(s.log, s.start, s.last);
      assert s.log[..s.next][i] == s.log[i];
      OvertakenLoses(s, s.log[i]);
    }
  }

  /** What the catch-up has to reach: the decodable events that no message will bring. */
  function Owed(s: System): seq<nat>
    requires s.next <= |s.log|
  {
    Arriving(Above(s.log[..s.next], s.last))
  }

  lemma OwedFacts(s: System)
    requires Sound(s)
    ensures Owed(s) <= Above(s.log, s.last)
    ensures forall x :: x in Owed(s) <==> x in s.log[..s.next] && x > s.last && Decodable(x)
  {
    assert s.log == s.log[..s.next] + s.log[s.next..];
    AboveAppend(s.log[..s.next], s.log[s.next..], s.last);
    AboveIsLog(s.log[..s.next], s.last);
    ArrivingDecodable(Above(s.log[..s.next], s.last));
    ArrivingPrefix(Above(s.log[..s.next], s.last));
  }

  lemma PrefixInPage(log: seq<nat>, after: nat, limit: nat, owed: seq<nat>)
    requires StrictlyIncreasing(log) && owed <= Above(log, after)
    ensures |owed| <= limit ==> owed <= CorePage(log, after, limit)
    ensures |owed| > limit ==> forall y :: y in CorePage(log, after, limit) ==> y < owed[limit]
  {
    AboveIsLog(log, after);
  }

  /** The catch-up request covers the stream exactly when no more than `limit` events are owed. */
  lemma CatchUpCovers(s: System)
    requires Inv(s) && Enabled(s, CatchUp)
    ensures Covered(Next(s, CatchUp)) <==> |Owed(s)| <= s.limit
  {
    if |Owed(s)| <= s.limit {
      FewOwedAreCovered(s);
    } else {
      ManyOwedAreNot(s);
    }
  }

  lemma FewOwedAreCovered(s: System)
    requires Inv(s) && Enabled(s, CatchUp) && |Owed(s)| <= s.limit
    ensures Covered(Next(s, CatchUp))
  {
    var page := CorePage(s.log, s.last, s.limit);
    OwedFacts(s);
    PrefixInPage(s.log, s.last, s.limit, Owed(s));
    DeliverPage(s, page);
    forall i | 0 <= i < s.next && Decodable(s.log[i]) ensures s.log[i] <= Next(s, CatchUp).last {
      assert s.log[..s.next][i] in s.log[..s.next];
      assert s.log[i] > s.last ==> s.log[i] in Owed(s) && s.log[i] in page;
    }
  }

  lemma ManyOwedAreNot(s: System)
    requires Inv(s) && Enabled(s, CatchUp) && |Owed(s)| > s.limit
    ensures !Covered(Next(s, CatchUp))
  {
    var x := Owed(s)[s.limit];
    OwedFacts(s);
    PrefixInPage(s.log, s.last, s.limit, Owed(s));
    DeliverPage(s, CorePage(s.log, s.last, s.limit));
    assert x in Owed(s) && x > Next(s, CatchUp).last;
    var i :| 0 <= i < s.next && s.log[..s.next][i] == x;
    assert s.log[i] == x;
  }

  /** From every reachable state: right after the catch-up the stream can come to lose an event if and only
      if more than `limit` events are owed and the next message can be a decodable one. */
  lemma CatchUpLosesExactly(limit: nat, start: nat, steps: seq<Step>, s: System)
    requires Runs(Init(limit, start), steps, s) && Enabled(s, CatchUp)
    ensures s.next <= |s.log| && (CanLose(Next(s, CatchUp)) <==> |Owed(s)| > limit && Decodable(NextId(s)))
  {
    InvRuns(Init(limit, start), steps, s);
    LimitStays(Init(limit, start), steps, s);
    OwedLoses(s);
  }

  lemma OwedLoses(s: System)
    requires Inv(s) && Enabled(s, CatchUp)
    ensures CanLose(Next(s, CatchUp)) <==> |Owed(s)| > s.limit && Decodable(NextId(s))
  {
    CatchUpKeeps(s);
    CatchUpCovers(s);
    CatchUpLogsNothing(s);
    CoverageIsExact(Next(s, CatchUp));
  }

  lemma CatchUpLogsNothing(s: System)
    requires Enabled(s, CatchUp)
    ensures Next(s, CatchUp).phase.Live? && NextId(Next(s, CatchUp)) == NextId(s)
  {
  }

  lemma {:induction false} LimitStays(s: System, steps: seq<Step>, t: System)
    requires Runs(s, steps, t)
    ensures t.limit == s.limit
    decreases steps
  {
    if |steps| > 0 {
      LimitStays(Next(s, steps[0]), steps[1..], t);
    }
  }

  lemma ArrivingOne(id: nat, last: nat)
    requires last < id && Decodable(id)
    ensures Arriving([id]) == [id] && HighWater(last, [id]) == [id] && Mark(last, [id]) == id
  {
    ArrivingStep([id]);
    assert CoreEvents([id][1..]) == [];
  }

  /** Three events published before the subscription, and a limit of one. */
  function Crowded(): System {
    System(1, 0, [1, 2, 3], 3, 3, Opening, 0, [])
  }

  function CrowdedLive(): System {
    Crowded().(phase := Live(true), last := 2, emitted := [1, 2])
  }

  lemma CrowdedLiveCanLose()
    ensures CanLose(CrowdedLive())
  {
    var s := CrowdedLive();
    assert s.log[1] == 2 && s.last in s.log;
    assert s.log[2] == 3 && !Covered(s);
    assert Between([2, 3], 0, 2) == [2] + Between([3], 0, 2);
    assert GapFree(s);
    CoverageIsExact(s);
  }

  function CrowdedReplayed(): System {
    Crowded().(phase := Replayed, last := 1, emitted := [1])
  }

  lemma CrowdedPages()
    ensures CorePage([1, 2, 3], 0, 1) == [1] && CorePage([1, 2, 3], 1, 1) == [2]
  {
    assert [1, 2, 3][1..] == [2, 3] && [2, 3][1..] == [3];
    assert Above([3], 0) == [3] && Above([3], 1) == [3];
    assert Above([2, 3], 0) == [2] + [3] && Above([2, 3], 1) == [2] + [3];
    assert Above([1, 2, 3], 0) == [1] + ([2] + [3]) && Above([1, 2, 3], 1) == [] + ([2] + [3]);
  }

  /** The catch-up brings 2. */
  lemma CrowdedReplayedCanLose()
    ensures CanLose(CrowdedReplayed())
  {
    CrowdedPages();
    ArrivingOne(2, 1);
    CrowdedLiveCanLose();
    assert [1] + [2] == [1, 2];
    assert Next(CrowdedReplayed(), CatchUp) == CrowdedLive();
    CanLoseStep(CrowdedReplayed(), CatchUp);
  }

  /** The replay brings 1. */
  lemma CrowdedCanLose()
    ensures CanLose(Crowded())
  {
    var s1 := Crowded().(phase := Loaded([1]));
    var s2 := Crowded().(phase := Listening([1]));
    CrowdedPages();
    ArrivingOne(1, 0);
    CrowdedReplayedCanLose();
    assert Next(s2, Replay) == CrowdedReplayed();
    CanLoseStep(s2, Replay);
    CanLoseStep(s1, Subscribe);
    CanLoseStep(Crowded(), Load);
  }

  /** A concrete loss, from the very start: 3 is skipped as soon as message 4 arrives. */
  lemma TruncatedCatchUpCanLose()
    ensures CanLose(Init(1, 0))
  {
    UnpublishedCanLose();
    var s0 := Crowded().(published := 0, next := 0);
    var s1, s2 := s0.(log := [1, 2]), s0.(log := [1]);
    assert [1, 2] + [3] == [1, 2, 3] && [1] + [2] == [1, 2];
    assert Next(s1, Commit(3)) == s0;
    CanLoseStep(s1, Commit(3));
    assert Next(s2, Commit(2)) == s1;
    CanLoseStep(s2, Commit(2));
    assert Init(1, 0).log + [1] == [1];
    assert Next(Init(1, 0), Commit(1)) == s2;
    CanLoseStep(Init(1, 0), Commit(1));
  }

  lemma UnpublishedCanLose()
    ensures CanLose(Crowded().(published := 0, next := 0))
  {
    CrowdedCanLose();
    var s0, s1, s2 := Crowded(), Crowded().(published := 2, next := 2), Crowded().(published := 1, next := 1);
    assert Next(s1, Publish) == s0;
    CanLoseStep(s1, Publish);
    assert Next(s2, Publish) == s1;
    CanLoseStep(s2, Publish);
    CanLoseStep(Crowded().(published := 0, next := 0), Publish);
  }
}
