/** One notification stream: every path by which an event can reach the client passes
    the same high-water mark. */
module Stream {
  import opened Text
  import opened Values

  type Event = seq<Field>

  // ----- events and their ids -----

  const FLOAT_EXPONENT_FROM := 1_000_000

  /** The first key that is present and not nil. */
  function PickField(event: Event, keys: seq<string>): Value {
    if |keys| == 0 then Nil
    else
      var found := Lookup(event, keys[0]);
      if found.Some? && found.value != Nil then found.value else PickField(event, keys[1..])
  }

  /** `strconv.Atoi(fmt.Sprint(raw))`. A float64 prints as plain digits only below 1,000,000;
      from there on `fmt.Sprint` writes an exponent, which `Atoi` refuses. */
  function PrintedNumber(raw: Value): Option<int> {
    match raw
    case Float(f) =>
      if f.scale == 0 && -FLOAT_EXPONENT_FROM < f.m < FLOAT_EXPONENT_FROM
      then Some(f.m) else None
    case Int(i) => Atoi(Decimal(i))
    case Str(s) => Atoi(s)
    case _ => None
  }

  function EventId(event: Event): Option<nat> {
    var number := PrintedNumber(PickField(event, ["event_id", "EventID"]));
    if number.Some? && number.value >= 0 then Some(number.value) else None
  }

  function IdsOf(events: seq<Event>): seq<nat> {
    if |events| == 0 then []
    else
      var id := EventId(events[0]);
      (if id.Some? then [id.value] else []) + IdsOf(events[1..])
  }

  ghost predicate Holds(event: Event, key: string, value: Value) {
    value != Nil && Lookup(event, key) == Some(value)
  }

  /** A Go integer, a text that `Atoi` reads, or a float64 below the exponent. */
  predicate Prints(raw: Value, id: nat) {
    || (raw == Int(id) && IsInt64(id))
    || (raw.Str? && Atoi(raw.s) == Some(id))
    || (raw == Float(Fraction(id, 0)) && id < FLOAT_EXPONENT_FROM)
  }

  ghost predicate IsPicked(event: Event, raw: Value) {
    || Holds(event, "event_id", raw)
    || (Lookup(event, "event_id") in [None, Some(Nil)] && Holds(event, "EventID", raw))
  }

  lemma PickedExactly(event: Event, raw: Value)
    requires raw != Nil
    ensures PickField(event, ["event_id", "EventID"]) == raw <==> IsPicked(event, raw)
  {
    var keys := ["event_id", "EventID"];
    assert keys[1..] == ["EventID"] && keys[1..][1..] == [];
    assert PickField(event, []) == Nil;
    assert PickField(event, keys[1..]) == PickField(event, ["EventID"]);
  }

  /** An event has the id that its `event_id` prints, or its `EventID` when the first is absent or nil. */
  lemma EventIdExactly(event: Event, id: nat)
    ensures EventId(event) == Some(id) <==> exists raw :: IsPicked(event, raw) && Prints(raw, id)
  {
    var picked := PickField(event, ["event_id", "EventID"]);
    PrintsExactly(picked, id);
    if EventId(event) == Some(id) {
      PickedExactly(event, picked);
      assert IsPicked(event, picked) && Prints(picked, id);
    } else {
      forall raw | IsPicked(event, raw) ensures !Prints(raw, id) {
        PickedExactly(event, raw);
      }
    }
  }

  lemma PrintsExactly(raw: Value, id: nat)
    ensures PrintedNumber(raw) == Some(id) <==> Prints(raw, id)
  {
    if raw.Int? && IsInt64(raw.i) {
      AtoiDecimal(raw.i);
    } else if raw.Int? {
      AtoiTooLarge(raw.i);
    }
  }

  lemma AtoiTooLarge(i: int)
    requires !IsInt64(i)
    ensures Atoi(Decimal(i)) == None
  {
    DigitsRoundTrip(if i < 0 then -i else i);
    if i < 0 {
      assert Decimal(i)[1..] == Digits(-i);
    } else {
      assert IsDigit(Decimal(i)[0]);
    }
  }

  // ----- the high-water mark -----

  function HighWater(last: nat, ids: seq<nat>): seq<nat>
    decreases ids
  {
    if |ids| == 0 then []
    else if ids[0] <= last then HighWater(last, ids[1..])
    else [ids[0]] + HighWater(ids[0], ids[1..])
  }

  function Mark(last: nat, ids: seq<nat>): nat
    decreases ids
  {
    if |ids| == 0 then last else Mark(if ids[0] <= last then last else ids[0], ids[1..])
  }

  ghost predicate StrictlyIncreasing(ids: seq<nat>) {
    forall i, j :: 0 <= i < j < |ids| ==> ids[i] < ids[j]
  }

  /** `x` is a strict left-to-right maximum of `ids`, above `last`. */
  ghost predicate IsRecord(last: nat, ids: seq<nat>, x: nat) {
    x > last && exists k :: 0 <= k < |ids| && ids[k] == x && forall j :: 0 <= j < k ==> ids[j] < x
  }

  lemma {:induction false} HighWaterAppend(last: nat, a: seq<nat>, b: seq<nat>)
    ensures HighWater(last, a + b) == HighWater(last, a) + HighWater(Mark(last, a), b)
    ensures Mark(last, a + b) == Mark(Mark(last, a), b)
    decreases a
  {
    if |a| == 0 {
      assert a + b == b;
    } else {
      assert (a + b)[1..] == a[1..] + b;
      var next := if a[0] <= last then last else a[0];
      HighWaterAppend(next, a[1..], b);
      Associative(if a[0] <= last then [] else [a[0]], HighWater(next, a[1..]), HighWater(Mark(last, a), b));
    }
  }

  lemma {:induction false} IdsOfAppend(a: seq<Event>, b: seq<Event>)
    ensures IdsOf(a + b) == IdsOf(a) + IdsOf(b)
  {
    if |a| == 0 {
      assert a + b == b;
    } else {
      assert (a + b)[1..] == a[1..] + b;
      IdsOfAppend(a[1..], b);
      Associative(if EventId(a[0]).Some? then [EventId(a[0]).value] else [], IdsOf(a[1..]), IdsOf(b));
    }
  }

  /** Every event of a batch that has an id contributes it, in its place. */
  lemma IdsOfMeans(a: seq<Event>, event: Event, b: seq<Event>)
    ensures IdsOf(a + [event] + b)
            == IdsOf(a) + (if EventId(event).Some? then [EventId(event).value] else []) + IdsOf(b)
    ensures IdsOf([]) == []
  {
    IdsOfAppend(a + [event], b);
    IdsOfAppend(a, [event]);
    assert [event][1..] == [];
  }

  /** What the first event of a batch contributes. */
  lemma IdsOfStep(last: nat, events: seq<Event>)
    requires |events| > 0
    ensures var id := EventId(events[0]);
            var kept := id.Some? && id.value > last;
            var next := if kept then id.value else last;
            && HighWater(last, IdsOf(events)) ==
               (if kept then [id.value] else []) + HighWater(next, IdsOf(events[1..]))
            && Mark(last, IdsOf(events)) == Mark(next, IdsOf(events[1..]))
  {
    var id := EventId(events[0]);
    if id.Some? {
      assert IdsOf(events)[1..] == IdsOf(events[1..]);
    } else {
      assert IdsOf(events) == IdsOf(events[1..]);
    }
  }

  lemma RecordStep(last: nat, ids: seq<nat>, x: nat)
    requires |ids| > 0
    ensures IsRecord(last, ids, x) <==>
            if ids[0] <= last then IsRecord(last, ids[1..], x)
            else x == ids[0] || IsRecord(ids[0], ids[1..], x)
  {
    if IsRecord(last, ids, x) {
      var k :| 0 <= k < |ids| && ids[k] == x && forall j :: 0 <= j < k ==> ids[j] < x;
      if k > 0 {
        assert ids[0] < x && ids[1..][k - 1] == x;
        forall j | 0 <= j < k - 1 ensures ids[1..][j] < x { assert ids[1..][j] == ids[j + 1]; }
      }
    }
    var next := if ids[0] <= last then last else ids[0];
    if IsRecord(next, ids[1..], x) {
      var k :| 0 <= k < |ids[1..]| && ids[1..][k] == x && forall j :: 0 <= j < k ==> ids[1..][j] < x;
      assert ids[k + 1] == x;
      forall j | 0 <= j < k + 1 ensures ids[j] < x { if j > 0 { assert ids[1..][j - 1] == ids[j]; } }
    }
    if ids[0] > last && x == ids[0] {
      assert ids[0] == x;
    }
  }

  /** The filter keeps exactly the strict left-to-right maxima above the start, in order. */
  lemma {:induction false} HighWaterKeepsRecords(last: nat, ids: seq<nat>)
    ensures StrictlyIncreasing(HighWater(last, ids))
    ensures forall x :: x in HighWater(last, ids) <==> IsRecord(last, ids, x)
    ensures Mark(last, ids) == if |HighWater(last, ids)| == 0 then last
                               else HighWater(last, ids)[|HighWater(last, ids)| - 1]
    ensures Mark(last, ids) >= last && forall x :: x in ids ==> x <= Mark(last, ids)
    decreases ids
  {
    if |ids| > 0 {
      var next := if ids[0] <= last then last else ids[0];
      HighWaterKeepsRecords(next, ids[1..]);
      forall x: nat ensures x in HighWater(last, ids) <==> IsRecord(last, ids, x) {
        RecordStep(last, ids, x);
      }
      var tail := HighWater(next, ids[1..]);
      forall i | 0 <= i < |tail| ensures tail[i] > next { assert tail[i] in tail; }
      assert ids == [ids[0]] + ids[1..];
    }
  }

  // ----- what Serve writes -----

  datatype Out = Frame(id: nat) | Connected | KeepAlive | Retry(reason: string)

  function AfterIdLine(id: nat): string {
    "event: notification\ndata: {\"event_id\":" + Decimal(id) + "}\n\n"
  }

  function Wire(out: Out): string {
    match out
    case Frame(id) => "id: " + Decimal(id) + "\n" + AfterIdLine(id)
    case Connected => ": connected\n\n"
    case KeepAlive => ": keep-alive\n\n"
    case Retry(reason) => "event: retry\ndata: {\"reason\":\"" + reason + "\"}\n\n"
  }

  /** The number on a frame's id line, as a client sends it back in `Last-Event-ID`. */
  function LastEventId(frame: string): Option<int> {
    if "id: " <= frame && '\n' in frame && IndexOf(frame, '\n') >= 4 then Atoi(frame[4..IndexOf(frame, '\n')]) else None
  }

  lemma PrintedIsInt64(raw: Value)
    requires PrintedNumber(raw).Some?
    ensures IsInt64(PrintedNumber(raw).value)
  {
  }

  /** The id of every event that makes a frame is read back from that frame when the client reconnects. */
  lemma FrameIdReadsBack(event: Event)
    requires EventId(event).Some?
    ensures LastEventId(Wire(Frame(EventId(event).value))) == Some(EventId(event).value)
  {
    var id := EventId(event).value;
    PrintedIsInt64(PickField(event, ["event_id", "EventID"]));
    IdLineReadsBack(id, AfterIdLine(id));
  }

  lemma IdLineReadsBack(id: nat, rest: string)
    requires IsInt64(id)
    ensures LastEventId("id: " + Decimal(id) + "\n" + rest) == Some(id)
  {
    var line := "id: " + Decimal(id);
    var frame := line + "\n" + rest;
    DecimalChars(id);
    AtoiDecimal(id);
    assert "id: " <= frame && frame[|line|] == '\n' && frame[..|line|] == line;
    assert '\n' !in "id: ";
    forall c | c in line ensures c != '\n' { assert c in "id: " || c in Decimal(id); }
    IndexOfUnique(frame, '\n', |line|);
    assert frame[4..|line|] == Decimal(id);
  }

  datatype Recovery = Batch(events: seq<Event>) | Unavailable

  /** One turn of the live loop: what the subscription produced within the timeout. */
  datatype Arrival =
    | Cancelled
    | Quiet(recover: nat -> Recovery)
    | Message(event: Event)
    | Noise

  /** Without Redis, or when the subscription is refused, the client gets the replay and a
      request to reconnect. */
  datatype Subscription = NoRedis | Refused | Subscribed

  datatype Outcome = Done | WriteFailed | RecoveryFailed

  /** What a run wants to write, every id it was handed in arrival order, and how it ends. */
  datatype Run = Run(outs: seq<Out>, ids: seq<nat>, outcome: Outcome)

  function Frames(ids: seq<nat>): (outs: seq<Out>)
    ensures |outs| == |ids|
  {
    seq(|ids|, i requires 0 <= i < |ids| => Frame(ids[i]))
  }

  function Prepend(outs: seq<Out>, ids: seq<nat>, rest: Run): Run {
    Run(outs + rest.outs, ids + rest.ids, rest.outcome)
  }

  /** One turn writes something and hands over ids; some turns end the run. */
  datatype Turn = Go(outs: seq<Out>, ids: seq<nat>) | Stop(outs: seq<Out>, outcome: Outcome)

  function TurnOf(last: nat, canRecover: bool, arrival: Arrival): Turn {
    match arrival
    case Cancelled => Stop([], Done)
    case Noise => Go([], [])
    case Message(event) => Go(Frames(HighWater(last, IdsOf([event]))), IdsOf([event]))
    case Quiet(recover) =>
      if !canRecover then Go([KeepAlive], [])
      else
        match recover(last)
        case Unavailable => Stop([Retry("recovery_unavailable")], RecoveryFailed)
        case Batch(events) => Go(Frames(HighWater(last, IdsOf(events))) + [KeepAlive], IdsOf(events))
  }

  function LiveRun(last: nat, canRecover: bool, arrivals: seq<Arrival>): Run
    decreases arrivals
  {
    if |arrivals| == 0 then Run([], [], Done)
    else
      match TurnOf(last, canRecover, arrivals[0])
      case Stop(outs, outcome) => Run(outs, [], outcome)
      case Go(outs, ids) => Prepend(outs, ids, LiveRun(Mark(last, ids), canRecover, arrivals[1..]))
  }

  function ConnectedRun(last: nat, canRecover: bool, catchUp: nat -> Recovery, arrivals: seq<Arrival>): Run {
    if !canRecover then Prepend([Connected], [], LiveRun(last, canRecover, arrivals))
    else
      match catchUp(last)
      case Unavailable => Run([Retry("recovery_unavailable")], [], RecoveryFailed)
      case Batch(events) =>
        var ids := IdsOf(events);
        Prepend(Frames(HighWater(last, ids)) + [Connected], ids,
                LiveRun(Mark(last, ids), canRecover, arrivals))
  }

  function FullRun(start: nat, recovered: seq<Event>, subscription: Subscription, canRecover: bool,
                   catchUp: nat -> Recovery, arrivals: seq<Arrival>): Run {
    var ids := IdsOf(recovered);
    Prepend(Frames(HighWater(start, ids)), ids,
            if subscription.Subscribed? then ConnectedRun(Mark(start, ids), canRecover, catchUp, arrivals)
            else Run([Retry("stream_unavailable")], [], Done))
  }

  function FrameIds(outs: seq<Out>): seq<nat> {
    if |outs| == 0 then []
    else (if outs[0].Frame? then [outs[0].id] else []) + FrameIds(outs[1..])
  }

  lemma {:induction false} FrameIdsAppend(a: seq<Out>, b: seq<Out>)
    ensures FrameIds(a + b) == FrameIds(a) + FrameIds(b)
  {
    if |a| == 0 {
      assert a + b == b;
    } else {
      assert (a + b)[1..] == a[1..] + b;
      FrameIdsAppend(a[1..], b);
      Associative(if a[0].Frame? then [a[0].id] else [], FrameIds(a[1..]), FrameIds(b));
    }
  }

  lemma {:induction false} FrameIdsOfFrames(ids: seq<nat>)
    ensures FrameIds(Frames(ids)) == ids
  {
    if |ids| > 0 {
      assert Frames(ids)[1..] == Frames(ids[1..]);
      FrameIdsOfFrames(ids[1..]);
    }
  }

  ghost predicate Filters(last: nat, run: Run) {
    FrameIds(run.outs) == HighWater(last, run.ids)
  }

  /** One batch in front of a run that already filters. */
  lemma PrependFilters(last: nat, ids: seq<nat>, tail: seq<Out>, rest: Run)
    requires Filters(Mark(last, ids), rest)
    requires FrameIds(tail) == []
    ensures Filters(last, Prepend(Frames(HighWater(last, ids)) + tail, ids, rest))
  {
    var frames := Frames(HighWater(last, ids));
    FrameIdsOfFrames(HighWater(last, ids));
    FrameIdsAppend(frames, tail);
    FrameIdsAppend(frames + tail, rest.outs);
    HighWaterAppend(last, ids, rest.ids);
  }

  lemma {:induction false} LiveRunFilters(last: nat, canRecover: bool, arrivals: seq<Arrival>)
    ensures Filters(last, LiveRun(last, canRecover, arrivals))
    decreases arrivals
  {
    if |arrivals| > 0 {
      match TurnOf(last, canRecover, arrivals[0])
      case Stop(outs, outcome) =>
      case Go(outs, ids) =>
        LiveRunFilters(Mark(last, ids), canRecover, arrivals[1..]);
        var frames := Frames(HighWater(last, ids));
        assert outs == frames + (if arrivals[0].Quiet? then [KeepAlive] else []);
        PrependFilters(last, ids, outs[|frames|..], LiveRun(Mark(last, ids), canRecover, arrivals[1..]));
    }
  }

  // ----- what has been handed over, turn by turn -----

  /** The ids that one arrival brings to a stream whose mark is `mark`. */
  function Brings(mark: nat, canRecover: bool, a: Arrival): seq<nat> {
    if a.Message? then IdsOf([a.event])
    else if a.Quiet? && canRecover && a.recover(mark).Batch? then IdsOf(a.recover(mark).events)
    else []
  }

  /** The only arrivals that end a stream: cancellation, and a recovery that fails. */
  predicate Ends(mark: nat, canRecover: bool, a: Arrival) {
    a.Cancelled? || (a.Quiet? && canRecover && a.recover(mark).Unavailable?)
  }

  /** A connected stream: where it started, what replay and catch-up handed over, and what then arrives. */
  datatype Course = Course(start: nat, before: seq<nat>, canRecover: bool, arrivals: seq<Arrival>)
  {
    /** All ids handed over by the `n`-th arrival. */
    function Handed(n: nat): seq<nat>
      requires n <= |arrivals|
      decreases n, 0
    {
      if n == 0 then before else Handed(n - 1) + Brings(MarkAt(n - 1), canRecover, arrivals[n - 1])
    }

    function MarkAt(n: nat): nat
      requires n <= |arrivals|
      decreases n, 1
    {
      Mark(start, Handed(n))
    }

    /** Arrival `n` ends the stream. */
    predicate EndsWith(n: nat)
      requires n < |arrivals|
    {
      Ends(MarkAt(n), canRecover, arrivals[n])
    }

    /** None of the first `n` arrivals does. */
    ghost predicate GoesOn(n: nat)
      requires n <= |arrivals|
    {
      forall i :: 0 <= i < n ==> !EndsWith(i)
    }

    /** The stream ends at arrival `n`, or at the end of the list. */
    ghost predicate EndsAt(n: nat) {
      n <= |arrivals| && GoesOn(n) && (n < |arrivals| ==> EndsWith(n))
    }

    /** What its live loop writes in the first `n` turns. */
    function Live(n: nat): Run
      requires n <= |arrivals|
    {
      LiveRun(Mark(start, before), canRecover, arrivals[..n])
    }
  }

  lemma {:induction false} EndsSomewhere(c: Course, k: nat) returns (n: nat)
    requires k <= |c.arrivals| && c.GoesOn(k)
    ensures c.EndsAt(n)
    decreases |c.arrivals| - k
  {
    n := k;
    if k < |c.arrivals| && !c.EndsWith(k) {
      n := EndsSomewhere(c, k + 1);
    }
  }

  /** Whatever follows `front`, it is written after `first`, from the mark `next` on. */
  ghost predicate Splits(mark: nat, canRecover: bool, front: seq<Arrival>, first: Run, next: nat) {
    && first.outcome == Done
    && forall more :: LiveRun(mark, canRecover, front + more)
                      == Prepend(first.outs, first.ids, LiveRun(next, canRecover, more))
  }

  function TurnOuts(mark: nat, canRecover: bool, a: Arrival): seq<Out> {
    Frames(HighWater(mark, Brings(mark, canRecover, a))) + (if a.Quiet? then [KeepAlive] else [])
  }

  /** One turn that does not end the stream writes the records it brings, and a keep-alive if it was quiet. */
  lemma TurnGoes(mark: nat, canRecover: bool, a: Arrival)
    requires !Ends(mark, canRecover, a)
    ensures TurnOf(mark, canRecover, a) == Go(TurnOuts(mark, canRecover, a), Brings(mark, canRecover, a))
  {
    assert Frames([]) == [];
  }

  /** One that does writes nothing but a request to retry. */
  lemma TurnStops(mark: nat, canRecover: bool, a: Arrival)
    requires Ends(mark, canRecover, a)
    ensures TurnOf(mark, canRecover, a)
            == if a.Cancelled? then Stop([], Done) else Stop([Retry("recovery_unavailable")], RecoveryFailed)
  {
  }

  lemma SplitsOne(mark: nat, canRecover: bool, a: Arrival)
    requires !Ends(mark, canRecover, a)
    ensures var ids := Brings(mark, canRecover, a);
            Splits(mark, canRecover, [a], Run(TurnOuts(mark, canRecover, a), ids, Done), Mark(mark, ids))
  {
    TurnGoes(mark, canRecover, a);
    forall more
      ensures LiveRun(mark, canRecover, [a] + more)
              == Prepend(TurnOuts(mark, canRecover, a), Brings(mark, canRecover, a),
                         LiveRun(Mark(mark, Brings(mark, canRecover, a)), canRecover, more))
    {
      assert ([a] + more)[1..] == more;
    }
  }

  lemma PrependTwice(a: seq<Out>, x: seq<nat>, b: seq<Out>, y: seq<nat>, rest: Run)
    ensures Prepend(a, x, Prepend(b, y, rest)) == Prepend(a + b, x + y, rest)
  {
    Associative(a, b, rest.outs);
    Associative(x, y, rest.ids);
  }

  lemma SplitsOn(mark: nat, canRecover: bool, front: seq<Arrival>, first: Run, next: nat,
                 more: seq<Arrival>, second: Run, last: nat)
    requires Splits(mark, canRecover, front, first, next) && Splits(next, canRecover, more, second, last)
    ensures Splits(mark, canRecover, front + more, Run(first.outs + second.outs, first.ids + second.ids, Done), last)
  {
    forall rest
      ensures LiveRun(mark, canRecover, front + more + rest)
              == Prepend(first.outs + second.outs, first.ids + second.ids, LiveRun(last, canRecover, rest))
    {
      Associative(front, more, rest);
      PrependTwice(first.outs, first.ids, second.outs, second.ids, LiveRun(last, canRecover, rest));
    }
  }

  lemma SplitsIsRun(mark: nat, canRecover: bool, front: seq<Arrival>, first: Run, next: nat)
    requires Splits(mark, canRecover, front, first, next)
    ensures LiveRun(mark, canRecover, front) == first
  {
    assert front + [] == front;
    assert LiveRun(next, canRecover, []) == Run([], [], Done);
    assert first.outs + [] == first.outs && first.ids + [] == first.ids;
  }

  lemma SplitsNothing(mark: nat, canRecover: bool)
    ensures Splits(mark, canRecover, [], Run([], [], Done), mark)
  {
    forall more ensures LiveRun(mark, canRecover, [] + more) == Prepend([], [], LiveRun(mark, canRecover, more)) {
      assert [] + more == more;
      PrependNothing(LiveRun(mark, canRecover, more));
    }
  }

  lemma PrependNothing(rest: Run)
    ensures Prepend([], [], rest) == rest
  {
    assert [] + rest.outs == rest.outs && [] + rest.ids == rest.ids;
  }

  // ----- how often something is written -----

  function QuietTurns(arrivals: seq<Arrival>): nat {
    if |arrivals| == 0 then 0
    else QuietTurns(arrivals[..|arrivals| - 1]) + if arrivals[|arrivals| - 1].Quiet? then 1 else 0
  }

  function Times(out: Out, outs: seq<Out>): nat {
    multiset(outs)[out]
  }

  lemma TimesAppend(out: Out, a: seq<Out>, b: seq<Out>)
    ensures Times(out, a + b) == Times(out, a) + Times(out, b)
  {
    assert multiset(a + b) == multiset(a) + multiset(b);
  }

  lemma TimesInFrames(out: Out, ids: seq<nat>)
    requires !out.Frame?
    ensures Times(out, Frames(ids)) == 0
  {
    assert out !in Frames(ids);
  }

  /** What a live loop that goes on has written: one keep-alive per quiet turn, at its end, and nothing else
      beside frames. */
  ghost predicate LiveOuts(outs: seq<Out>, arrivals: seq<Arrival>) {
    && Times(KeepAlive, outs) == QuietTurns(arrivals) && Times(Connected, outs) == 0
    && (forall o :: o in outs ==> !o.Retry?)
    && (|arrivals| > 0 && arrivals[|arrivals| - 1].Quiet? ==> |outs| > 0 && outs[|outs| - 1] == KeepAlive)
  }

  lemma AddTurn(outs: seq<Out>, arrivals: seq<Arrival>, a: Arrival, ids: seq<nat>)
    requires LiveOuts(outs, arrivals)
    ensures LiveOuts(outs + (Frames(ids) + (if a.Quiet? then [KeepAlive] else [])), arrivals + [a])
  {
    var tail: seq<Out> := if a.Quiet? then [KeepAlive] else [];
    TimesAppend(KeepAlive, outs, Frames(ids) + tail);
    TimesAppend(Connected, outs, Frames(ids) + tail);
    TimesAppend(KeepAlive, Frames(ids), tail);
    TimesAppend(Connected, Frames(ids), tail);
    TimesInFrames(KeepAlive, ids);
    TimesInFrames(Connected, ids);
    assert (arrivals + [a])[..|arrivals|] == arrivals;
  }

  // ----- what has been written after each turn -----

  /** The first `n` turns: what they hand over, what they write, and that the rest only follows. */
  ghost predicate TurnsAre(c: Course, n: nat, first: Run)
    requires n <= |c.arrivals|
  {
    && Splits(Mark(c.start, c.before), c.canRecover, c.arrivals[..n], first, c.MarkAt(n))
    && c.before + first.ids == c.Handed(n) && LiveOuts(first.outs, c.arrivals[..n])
  }

  lemma {:induction false} FirstTurns(c: Course, n: nat) returns (first: Run)
    requires n <= |c.arrivals| && c.GoesOn(n)
    ensures TurnsAre(c, n, first)
  {
    first := Run([], [], Done);
    if n == 0 {
      SplitsNothing(Mark(c.start, c.before), c.canRecover);
      assert c.arrivals[..0] == [] && c.before + [] == c.before;
    } else {
      var front := FirstTurns(c, n - 1);
      first := NextTurn(c, n, front);
    }
  }

  lemma NextTurn(c: Course, n: nat, front: Run) returns (first: Run)
    requires 0 < n <= |c.arrivals| && !c.EndsWith(n - 1) && TurnsAre(c, n - 1, front)
    ensures TurnsAre(c, n, first)
  {
    var a, mark := c.arrivals[n - 1], c.MarkAt(n - 1);
    var ids := Brings(mark, c.canRecover, a);
    var turn := Run(TurnOuts(mark, c.canRecover, a), ids, Done);
    assert c.arrivals[..n] == c.arrivals[..n - 1] + [a];
    SplitsOne(mark, c.canRecover, a);
    SplitsOn(Mark(c.start, c.before), c.canRecover, c.arrivals[..n - 1], front, mark, [a], turn, Mark(mark, ids));
    first := Run(front.outs + turn.outs, front.ids + ids, Done);
    HighWaterAppend(c.start, c.Handed(n - 1), ids);
    Associative(c.before, front.ids, ids);
    AddTurn(front.outs, c.arrivals[..n - 1], a, HighWater(mark, ids));
  }

  // ----- whole streams -----

  /** What replay and catch-up hand over. */
  function Opening(start: nat, recovered: seq<Event>, canRecover: bool, catchUp: nat -> Recovery): seq<nat> {
    var answer := catchUp(Mark(start, IdsOf(recovered)));
    IdsOf(recovered) + if canRecover && answer.Batch? then IdsOf(answer.events) else []
  }

  predicate Connects(start: nat, recovered: seq<Event>, canRecover: bool, catchUp: nat -> Recovery) {
    canRecover ==> catchUp(Mark(start, IdsOf(recovered))).Batch?
  }

  function Hello(ids: seq<nat>): seq<Out> {
    Frames(ids) + [Connected]
  }

  lemma FramesAppend(a: seq<nat>, b: seq<nat>)
    ensures Frames(a + b) == Frames(a) + Frames(b)
  {
  }

  /** What a connected stream writes before its live loop. */
  lemma Greeting(start: nat, recovered: seq<Event>, canRecover: bool, catchUp: nat -> Recovery, arrivals: seq<Arrival>)
    requires Connects(start, recovered, canRecover, catchUp)
    ensures var before := Opening(start, recovered, canRecover, catchUp);
            FullRun(start, recovered, Subscribed, canRecover, catchUp, arrivals)
            == Prepend(Hello(HighWater(start, before)), before, LiveRun(Mark(start, before), canRecover, arrivals))
  {
    var ids := IdsOf(recovered);
    var last := Mark(start, ids);
    var more := if canRecover then IdsOf(catchUp(last).events) else [];
    var live := LiveRun(Mark(last, more), canRecover, arrivals);
    HighWaterAppend(start, ids, more);
    FramesAppend(HighWater(start, ids), HighWater(last, more));
    assert Frames([]) + [Connected] == [Connected];
    Associative(Frames(HighWater(start, ids)), Frames(HighWater(last, more)), [Connected]);
    PrependTwice(Frames(HighWater(start, ids)), ids, Frames(HighWater(last, more)) + [Connected], more, live);
  }

  lemma HelloOuts(ids: seq<nat>)
    ensures var hello := Hello(ids);
            && Times(Connected, hello) == 1 && Times(KeepAlive, hello) == 0 && FrameIds(hello) == ids
            && forall o :: o in hello ==> !o.Retry?
  {
    TimesInFrames(Connected, ids);
    TimesInFrames(KeepAlive, ids);
    TimesAppend(Connected, Frames(ids), [Connected]);
    TimesAppend(KeepAlive, Frames(ids), [Connected]);
    FrameIdsOfFrames(ids);
    FrameIdsAppend(Frames(ids), [Connected]);
  }

  /** What a connected stream has written after `n` arrivals, none of which ends it: frames for the records of
      all that was handed over, one `Connected` right after the catch-up, one keep-alive per quiet turn and at
      its end, and no request to retry. */
  ghost predicate SoFar(outs: seq<Out>, c: Course, n: nat)
    requires n <= |c.arrivals|
  {
    && FrameIds(outs) == HighWater(c.start, c.Handed(n))
    && Hello(HighWater(c.start, c.before)) <= outs && Times(Connected, outs) == 1
    && Times(KeepAlive, outs) == QuietTurns(c.arrivals[..n])
    && (n > 0 && c.arrivals[n - 1].Quiet? ==> outs[|outs| - 1] == KeepAlive)
    && (forall o :: o in outs ==> !o.Retry?)
  }

  lemma HelloThen(c: Course, n: nat, first: Run)
    requires n <= |c.arrivals| && TurnsAre(c, n, first)
    ensures SoFar(Hello(HighWater(c.start, c.before)) + first.outs, c, n)
  {
    var hello := Hello(HighWater(c.start, c.before));
    HelloOuts(HighWater(c.start, c.before));
    FrameIdsAppend(hello, first.outs);
    TimesAppend(Connected, hello, first.outs);
    TimesAppend(KeepAlive, hello, first.outs);
    SplitsIsRun(Mark(c.start, c.before), c.canRecover, c.arrivals[..n], first, c.MarkAt(n));
    LiveRunFilters(Mark(c.start, c.before), c.canRecover, c.arrivals[..n]);
    HighWaterAppend(c.start, c.before, first.ids);
  }

  /** How the stream goes on from arrival `n` when that ends it, or when there is none. */
  lemma LastTurn(c: Course, n: nat)
    requires c.EndsAt(n)
    ensures LiveRun(c.MarkAt(n), c.canRecover, c.arrivals[n..])
            == if n < |c.arrivals| && !c.arrivals[n].Cancelled?
               then Run([Retry("recovery_unavailable")], [], RecoveryFailed) else Run([], [], Done)
  {
    if n < |c.arrivals| {
      TurnStops(c.MarkAt(n), c.canRecover, c.arrivals[n]);
    }
  }

  /** After every number of turns a connected stream has written that, and later turns only add to it. */
  lemma StreamSoFar(start: nat, recovered: seq<Event>, canRecover: bool, catchUp: nat -> Recovery,
                    arrivals: seq<Arrival>, n: nat)
    returns (outs: seq<Out>)
    requires Connects(start, recovered, canRecover, catchUp) && n <= |arrivals|
    requires Course(start, Opening(start, recovered, canRecover, catchUp), canRecover, arrivals).GoesOn(n)
    ensures SoFar(outs, Course(start, Opening(start, recovered, canRecover, catchUp), canRecover, arrivals), n)
    ensures outs <= FullRun(start, recovered, Subscribed, canRecover, catchUp, arrivals).outs
    ensures Course(start, Opening(start, recovered, canRecover, catchUp), canRecover, arrivals).EndsAt(n) ==>
              var run := FullRun(start, recovered, Subscribed, canRecover, catchUp, arrivals);
              if n < |arrivals| && !arrivals[n].Cancelled?
              then run.outs == outs + [Retry("recovery_unavailable")] && run.outcome == RecoveryFailed
              else run.outs == outs && run.outcome == Done
  {
    var c := Course(start, Opening(start, recovered, canRecover, catchUp), canRecover, arrivals);
    Greeting(start, recovered, canRecover, catchUp, arrivals);
    outs := CourseSoFar(c, n);
  }

  lemma CourseSoFar(c: Course, n: nat) returns (outs: seq<Out>)
    requires n <= |c.arrivals| && c.GoesOn(n)
    ensures SoFar(outs, c, n)
    ensures var run := Prepend(Hello(HighWater(c.start, c.before)), c.before,
                               LiveRun(Mark(c.start, c.before), c.canRecover, c.arrivals));
            && outs <= run.outs
            && (c.EndsAt(n) ==>
                  if n < |c.arrivals| && !c.arrivals[n].Cancelled?
                  then run.outs == outs + [Retry("recovery_unavailable")] && run.outcome == RecoveryFailed
                  else run.outs == outs && run.outcome == Done)
  {
    var first := FirstTurns(c, n);
    var hello := Hello(HighWater(c.start, c.before));
    outs := hello + first.outs;
    HelloThen(c, n, first);
    assert c.arrivals == c.arrivals[..n] + c.arrivals[n..];
    var rest := LiveRun(c.MarkAt(n), c.canRecover, c.arrivals[n..]);
    Associative(hello, first.outs, rest.outs);
    if c.EndsAt(n) {
      LastTurn(c, n);
    }
  }

  /** Without a subscription, or when Core refuses the catch-up, the client gets the records of the replay and
      a request to retry. */
  lemma StreamUnconnected(start: nat, recovered: seq<Event>, subscription: Subscription, canRecover: bool,
                          catchUp: nat -> Recovery, arrivals: seq<Arrival>)
    requires !subscription.Subscribed? || !Connects(start, recovered, canRecover, catchUp)
    ensures var run := FullRun(start, recovered, subscription, canRecover, catchUp, arrivals);
            && run.outs == Frames(HighWater(start, IdsOf(recovered)))
                           + [Retry(if subscription.Subscribed? then "recovery_unavailable" else "stream_unavailable")]
            && run.outcome == if subscription.Subscribed? then RecoveryFailed else Done
  {
  }

  /** The ids a stream is handed until it ends: what it is replayed, what the catch-up brings, and what comes
      with every message and recovery before its end. */
  ghost predicate HandedOver(start: nat, recovered: seq<Event>, subscription: Subscription, canRecover: bool,
                             catchUp: nat -> Recovery, arrivals: seq<Arrival>, ids: seq<nat>)
  {
    if !subscription.Subscribed? || !Connects(start, recovered, canRecover, catchUp) then ids == IdsOf(recovered)
    else
      var c := Course(start, Opening(start, recovered, canRecover, catchUp), canRecover, arrivals);
      exists n :: c.EndsAt(n) && ids == c.Handed(n)
  }

  /** In every run, whatever order the events come in and whichever path brings them, the frames carry exactly
      the left-to-right maxima of everything handed over until the run ends. */
  lemma StreamIsHighWater(start: nat, recovered: seq<Event>, subscription: Subscription, canRecover: bool,
                          catchUp: nat -> Recovery, arrivals: seq<Arrival>)
    returns (ids: seq<nat>)
    ensures HandedOver(start, recovered, subscription, canRecover, catchUp, arrivals, ids)
    ensures var run := FullRun(start, recovered, subscription, canRecover, catchUp, arrivals);
            && StrictlyIncreasing(FrameIds(run.outs))
            && forall x :: x in FrameIds(run.outs) <==> IsRecord(start, ids, x)
  {
    var run := FullRun(start, recovered, subscription, canRecover, catchUp, arrivals);
    if !subscription.Subscribed? || !Connects(start, recovered, canRecover, catchUp) {
      ids := IdsOf(recovered);
      StreamUnconnected(start, recovered, subscription, canRecover, catchUp, arrivals);
      FrameIdsOfFrames(HighWater(start, ids));
      FrameIdsAppend(Frames(HighWater(start, ids)), [run.outs[|run.outs| - 1]]);
    } else {
      var c := Course(start, Opening(start, recovered, canRecover, catchUp), canRecover, arrivals);
      var n := EndsSomewhere(c, 0);
      ids := c.Handed(n);
      var outs := StreamSoFar(start, recovered, canRecover, catchUp, arrivals, n);
      FrameIdsAppend(outs, [Retry("recovery_unavailable")]);
    }
    HighWaterKeepsRecords(start, ids);
  }

  // ----- the stream object -----

  /** The response writer; it accepts `budget` more writes and refuses the next one. */
  class Sink {
    var written: seq<Out>
    var budget: nat

    constructor (budget: nat)
      ensures written == [] && this.budget == budget
    {
      written := [];
      this.budget := budget;
    }

    method Write(out: Out) returns (ok: bool)
      modifies this
      ensures ok == (old(budget) > 0)
      ensures written == if ok then old(written) + [out] else old(written)
      ensures budget == if ok then old(budget) - 1 else 0
    {
      ok := budget > 0;
      if ok {
        written := written + [out];
        budget := budget - 1;
      }
    }
  }

  /** As much of `outs` as a writer with this budget lets through. */
  function Accepted(outs: seq<Out>, budget: nat): (kept: seq<Out>)
    ensures kept <= outs
  {
    if |outs| <= budget then outs else outs[..budget]
  }

  function Left(outs: seq<Out>, budget: nat): nat {
    if |outs| <= budget then budget - |outs| else 0
  }

  /** A writer went from (`before`, `budget`) to (`after`, `left`) on being handed `outs`. */
  ghost predicate Wrote(before: seq<Out>, budget: nat, after: seq<Out>, left: nat, outs: seq<Out>) {
    && after == before + Accepted(outs, budget)
    && left == Left(outs, budget)
  }

  /** Going on after `first` fitted is the same as handing over both at once. */
  lemma WroteThen(w0: seq<Out>, b0: nat, w1: seq<Out>, b1: nat, w2: seq<Out>, b2: nat,
                  first: seq<Out>, second: seq<Out>)
    requires Wrote(w0, b0, w1, b1, first) && |first| <= b0
    requires Wrote(w1, b1, w2, b2, second)
    ensures Wrote(w0, b0, w2, b2, first + second)
  {
    if |first + second| > b0 {
      assert (first + second)[..b0] == first + second[..b0 - |first|];
    }
    assert w0 + first + Accepted(second, b1) == w0 + (first + Accepted(second, b1));
  }

  /** A writer that fails inside `first` never sees `second`. */
  lemma WroteCut(w0: seq<Out>, b0: nat, w1: seq<Out>, b1: nat, first: seq<Out>, second: seq<Out>)
    requires Wrote(w0, b0, w1, b1, first) && |first| > b0
    ensures Wrote(w0, b0, w1, b1, first + second)
  {
    assert (first + second)[..b0] == first[..b0];
  }

  /** A client cut off by a write error has seen a prefix of the records, nothing else. */
  lemma CutStreamIsPrefix(outs: seq<Out>, budget: nat)
    ensures FrameIds(Accepted(outs, budget)) <= FrameIds(outs)
  {
    var kept := Accepted(outs, budget);
    assert outs == kept + outs[|kept|..];
    FrameIdsAppend(kept, outs[|kept|..]);
  }

  lemma FramesOfPrefix(ids: seq<nat>, n: nat)
    requires n <= |ids|
    ensures Frames(ids[..n]) == Frames(ids)[..n]
    ensures n > 0 ==> Frames(ids[..n]) == Frames(ids[..n - 1]) + [Frame(ids[n - 1])]
  {
  }

  class SSE {
    const recovered: seq<Event>
    const canRecover: bool
    var lastEventID: nat

    constructor (recovered: seq<Event>, lastEventID: nat, canRecover: bool)
      ensures this.recovered == recovered && this.lastEventID == lastEventID && this.canRecover == canRecover
    {
      this.recovered := recovered;
      this.lastEventID := lastEventID;
      this.canRecover := canRecover;
    }

    method WriteFrames(sink: Sink, events: seq<Event>) returns (ok: bool)
      modifies this`lastEventID, sink
      ensures var wanted := Frames(HighWater(old(lastEventID), IdsOf(events)));
              && ok == (|wanted| <= old(sink.budget))
              && Wrote(old(sink.written), old(sink.budget), sink.written, sink.budget, wanted)
              && lastEventID == if ok then Mark(old(lastEventID), IdsOf(events))
                                else HighWater(old(lastEventID), IdsOf(events))[old(sink.budget)]
    {
      ghost var b0 := sink.budget;
      ghost var wanted := HighWater(lastEventID, IdsOf(events));
      ghost var n := 0;
      for i := 0 to |events|
        invariant n <= |wanted| && n <= b0 && sink.budget == b0 - n
        invariant sink.written == old(sink.written) + Frames(wanted[..n])
        invariant wanted[n..] == HighWater(lastEventID, IdsOf(events[i..]))
        invariant Mark(old(lastEventID), IdsOf(events)) == Mark(lastEventID, IdsOf(events[i..]))
      {
        var id := EventId(events[i]);
        IdsOfStep(lastEventID, events[i..]);
        assert events[i..][1..] == events[i + 1..];
        if id.Some? && id.value > lastEventID {
          assert wanted[n..][0] == id.value && wanted[n..][1..] == wanted[n + 1..];
          lastEventID := id.value;
          ok := sink.Write(Frame(id.value));
          if !ok {
            FramesOfPrefix(wanted, n);
            return;
          }
          FramesOfPrefix(wanted, n);
          FramesOfPrefix(wanted, n + 1);
          n := n + 1;
        }
      }
      assert wanted[..n] == wanted;
      ok := true;
    }

    /** `catchUp` and each `Quiet` arrival say how Core answers when asked for what follows a
        given id; a list that ends without `Cancelled` ends because the lifetime is over. */
    method Serve(sink: Sink, subscription: Subscription, catchUp: nat -> Recovery, arrivals: seq<Arrival>)
      returns (outcome: Outcome)
      modifies this`lastEventID, sink
      ensures var run := FullRun(old(lastEventID), recovered, subscription, canRecover, catchUp, arrivals);
              && Wrote(old(sink.written), old(sink.budget), sink.written, sink.budget, run.outs)
              && outcome == if |run.outs| <= old(sink.budget) then run.outcome else WriteFailed
    {
      ghost var w0, b0, last := sink.written, sink.budget, lastEventID;
      ghost var rest := if subscription.Subscribed?
                        then ConnectedRun(Mark(last, IdsOf(recovered)), canRecover, catchUp, arrivals)
                        else Run([Retry("stream_unavailable")], [], Done);
      ghost var first := Frames(HighWater(last, IdsOf(recovered)));
      var ok := WriteFrames(sink, recovered);
      if !ok {
        WroteCut(w0, b0, sink.written, sink.budget, first, rest.outs);
        return WriteFailed;
      }
      ghost var w1, b1 := sink.written, sink.budget;
      if subscription.Subscribed? {
        outcome := ServeConnected(sink, catchUp, arrivals);
      } else {
        ok := sink.Write(Retry("stream_unavailable"));
        outcome := if ok then Done else WriteFailed;
      }
      WroteThen(w0, b0, w1, b1, sink.written, sink.budget, first, rest.outs);
    }

    /** From the catch-up after subscribing to the start of the live loop. */
    method ServeConnected(sink: Sink, catchUp: nat -> Recovery, arrivals: seq<Arrival>) returns (outcome: Outcome)
      modifies this`lastEventID, sink
      ensures var run := ConnectedRun(old(lastEventID), canRecover, catchUp, arrivals);
              && Wrote(old(sink.written), old(sink.budget), sink.written, sink.budget, run.outs)
              && outcome == if |run.outs| <= old(sink.budget) then run.outcome else WriteFailed
    {
      ghost var w0, b0 := sink.written, sink.budget;
      ghost var greeting: seq<Out> := [Connected];
      var ok := true;
      if canRecover {
        match catchUp(lastEventID)
        case Unavailable =>
          ok := sink.Write(Retry("recovery_unavailable"));
          return if ok then RecoveryFailed else WriteFailed;
        case Batch(events) =>
          ghost var frames := Frames(HighWater(lastEventID, IdsOf(events)));
          ghost var live := LiveRun(Mark(lastEventID, IdsOf(events)), canRecover, arrivals);
          greeting := frames + [Connected];
          ok := WriteFrames(sink, events);
          if !ok {
            WroteCut(w0, b0, sink.written, sink.budget, frames, [Connected]);
            WroteCut(w0, b0, sink.written, sink.budget, greeting, live.outs);
            return WriteFailed;
          }
          ghost var w1, b1 := sink.written, sink.budget;
          ok := sink.Write(Connected);
          WroteThen(w0, b0, w1, b1, sink.written, sink.budget, frames, [Connected]);
      } else {
        ok := sink.Write(Connected);
      }
      ghost var w2, b2 := sink.written, sink.budget;
      ghost var live := LiveRun(lastEventID, canRecover, arrivals);
      if !ok {
        WroteCut(w0, b0, w2, b2, greeting, live.outs);
        return WriteFailed;
      }
      outcome := ServeLive(sink, arrivals);
      WroteThen(w0, b0, w2, b2, sink.written, sink.budget, greeting, live.outs);
    }

    /** One turn of the live loop; `outcome` is `None` when the loop goes on. */
    method TakeTurn(sink: Sink, arrival: Arrival) returns (outcome: Option<Outcome>)
      modifies this`lastEventID, sink
      ensures var turn := TurnOf(old(lastEventID), canRecover, arrival);
              && Wrote(old(sink.written), old(sink.budget), sink.written, sink.budget, turn.outs)
              && (if |turn.outs| > old(sink.budget) then outcome == Some(WriteFailed)
                  else if turn.Stop? then outcome == Some(turn.outcome)
                  else outcome == None && lastEventID == Mark(old(lastEventID), turn.ids))
    {
      ghost var w0, b0 := sink.written, sink.budget;
      match arrival
      case Cancelled => return Some(Done);
      case Noise => return None;
      case Message(event) =>
        var ok := WriteFrames(sink, [event]);
        return if ok then None else Some(WriteFailed);
      case Quiet(recover) =>
        if !canRecover {
          var ok := sink.Write(KeepAlive);
          return if ok then None else Some(WriteFailed);
        }
        match recover(lastEventID)
        case Unavailable =>
          var ok := sink.Write(Retry("recovery_unavailable"));
          return Some(if ok then RecoveryFailed else WriteFailed);
        case Batch(events) =>
          ghost var frames := Frames(HighWater(lastEventID, IdsOf(events)));
          var ok := WriteFrames(sink, events);
          if !ok {
            WroteCut(w0, b0, sink.written, sink.budget, frames, [KeepAlive]);
            return Some(WriteFailed);
          }
          ghost var w1, b1 := sink.written, sink.budget;
          ok := sink.Write(KeepAlive);
          WroteThen(w0, b0, w1, b1, sink.written, sink.budget, frames, [KeepAlive]);
          return if ok then None else Some(WriteFailed);
    }

    method ServeLive(sink: Sink, arrivals: seq<Arrival>) returns (outcome: Outcome)
      modifies this`lastEventID, sink
      ensures var run := LiveRun(old(lastEventID), canRecover, arrivals);
              && Wrote(old(sink.written), old(sink.budget), sink.written, sink.budget, run.outs)
              && outcome == if |run.outs| <= old(sink.budget) then run.outcome else WriteFailed
      decreases arrivals
    {
      ghost var w0, b0 := sink.written, sink.budget;
      ghost var run := LiveRun(lastEventID, canRecover, arrivals);
      ghost var done: seq<Out> := [];
      for i := 0 to |arrivals|
        invariant |done| <= b0 && Wrote(w0, b0, sink.written, sink.budget, done)
        invariant run.outs == done + LiveRun(lastEventID, canRecover, arrivals[i..]).outs
        invariant run.outcome == LiveRun(lastEventID, canRecover, arrivals[i..]).outcome
      {
        ghost var turn := TurnOf(lastEventID, canRecover, arrivals[i]);
        ghost var rest := if turn.Stop? then []
                          else LiveRun(Mark(lastEventID, turn.ids), canRecover, arrivals[i + 1..]).outs;
        assert arrivals[i..][1..] == arrivals[i + 1..];
        Associative(done, turn.outs, rest);
        ghost var w1, b1 := sink.written, sink.budget;
        var ended := TakeTurn(sink, arrivals[i]);
        WroteThen(w0, b0, w1, b1, sink.written, sink.budget, done, turn.outs);
        done := done + turn.outs;
        if ended.Some? {
          if |done| > b0 {
            WroteCut(w0, b0, sink.written, sink.budget, done, rest);
          }
          return ended.value;
        }
      }
      return Done;
    }
  }
}
