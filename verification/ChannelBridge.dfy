/** The bridge from a push channel to a pulled stream: callbacks fill a queue and wake a generator
    that empties it. One machine serves both users of the protocol; only the query stream looks at an
    abort signal. */
module ChannelBridge {
  import opened Results
  import opened Sequences

  /** Where the generator stands. While it is Parked it awaits a promise that may be resolved. */
  datatype Consumer = Start | AtYield | Parked(resolved: bool) | Settling | Returned | Threw | Aborted

  /** `failure` is the rejected command's message; the empty string is falsy, as is no failure.
      `sent` and `delivered` record everything pushed and everything yielded. */
  datatype Bridge<T> = Bridge(
    queue: seq<T>, armed: bool, done: bool, failure: string, aborted: bool, consumer: Consumer,
    sent: seq<T>, delivered: seq<T>)

  datatype Event<T> =
    | Push(chunk: T)          // channel.onmessage
    | Complete                // the command resolved
    | Fail(message: string)   // the command was rejected
    | Abort                   // the caller's signal
    | Pull                    // the client asks for the next message
    | Wake                    // the awaited promise had been resolved
    | Settle                  // the awaited completion has settled

  function Initial<T>(): Bridge<T> {
    Bridge([], false, false, "", false, Start, [], [])
  }

  /** `notify?.()`. */
  function Notified<T>(s: Bridge<T>): Bridge<T> {
    if s.armed && s.consumer.Parked? then s.(consumer := Parked(true)) else s
  }

  /** The generator from the inner loop on, up to its next yield, await or end. */
  function Proceed<T>(s: Bridge<T>): Bridge<T> {
    if s.queue != [] then
      s.(queue := s.queue[1..], delivered := s.delivered + [s.queue[0]], consumer := AtYield)
    else if s.done then s.(consumer := Settling)
    else s.(armed := true, consumer := Parked(false))
  }

  /** The generator from the top of the outer loop on. */
  function FromTop<T>(s: Bridge<T>, checksAbort: bool): Bridge<T> {
    if checksAbort && s.aborted then s.(consumer := Aborted) else Proceed(s)
  }

  /** The channel delivers in order and the command settles once, after its last send. */
  predicate Enabled<T>(s: Bridge<T>, e: Event<T>) {
    match e
    case Push(_) => !s.done
    case Complete => !s.done
    case Fail(_) => !s.done
    case Abort => true
    case Pull => s.consumer.Start? || s.consumer.AtYield?
    case Wake => s.consumer == Parked(true)
    case Settle => s.consumer.Settling?
  }

  function Next<T>(s: Bridge<T>, e: Event<T>, checksAbort: bool): Bridge<T>
    requires Enabled(s, e)
  {
    match e
    case Push(x) => Notified(s.(queue := s.queue + [x], sent := s.sent + [x]))
    case Complete => Notified(s.(done := true))
    case Fail(m) => Notified(s.(failure := m, done := true))
    case Abort => s.(aborted := true)
    case Pull => if s.consumer.Start? then FromTop(s, checksAbort) else Proceed(s)
    case Wake => FromTop(s.(armed := false), checksAbort)
    case Settle => s.(consumer := if s.failure != "" then Threw else Returned)
  }

  /** What holds between any two events. */
  ghost predicate Inv<T>(s: Bridge<T>) {
    && s.delivered + s.queue == s.sent
    && (s.failure != "" ==> s.done)
    && (s.consumer.Parked? ==> s.armed)
    && (s.consumer == Parked(false) ==> s.queue == [] && !s.done)
    && (s.consumer.Settling? || s.consumer.Returned? || s.consumer.Threw? ==> s.queue == [] && s.done)
    && (s.consumer.Returned? ==> s.failure == "")
    && (s.consumer.Threw? ==> s.failure != "")
    && (s.consumer.Aborted? ==> s.aborted)
  }

  lemma ProceedKeeps<T>(s: Bridge<T>)
    requires Inv(s) && (s.consumer.Start? || s.consumer.AtYield? || s.consumer == Parked(true))
    ensures Inv(Proceed(s)) && Inv(Proceed(s.(armed := false)))
  {
    if s.queue != [] {
      assert s.delivered + [s.queue[0]] + s.queue[1..] == s.delivered + s.queue;
    }
  }

  lemma PushKeeps<T>(s: Bridge<T>, x: T)
    requires Inv(s) && !s.done
    ensures Inv(Notified(s.(queue := s.queue + [x], sent := s.sent + [x])))
  {
    assert s.delivered + (s.queue + [x]) == s.sent + [x];
  }

  lemma NextKeeps<T>(s: Bridge<T>, e: Event<T>, checksAbort: bool)
    requires Inv(s) && Enabled(s, e)
    ensures Inv(Next(s, e, checksAbort))
  {
    match e {
      case Push(x) => PushKeeps(s, x);
      case Pull => ProceedKeeps(s);
      case Wake => ProceedKeeps(s);
      case _ =>
    }
  }

  // ---------------------------------------------------------------- all interleavings

  ghost predicate IsRun<T>(run: seq<Bridge<T>>, events: seq<Event<T>>, checksAbort: bool) {
    && |run| == |events| + 1 && run[0] == Initial()
    && forall i :: 0 <= i < |events| ==>
      Enabled(run[i], events[i]) && run[i + 1] == Next(run[i], events[i], checksAbort)
  }

  lemma {:induction false} RunKeeps<T>(run: seq<Bridge<T>>, events: seq<Event<T>>, checksAbort: bool, i: nat)
    requires IsRun(run, events, checksAbort) && i < |run|
    ensures Inv(run[i])
  {
    if i > 0 {
      RunKeeps(run, events, checksAbort, i - 1);
      NextKeeps(run[i - 1], events[i - 1], checksAbort);
    }
  }

  /** In every interleaving and at every moment: what was yielded and what is queued is exactly what
      was sent, in order, and a generator waiting on an unresolved promise has nothing to yield and
      no end to report, so no wake-up is lost. */
  lemma NothingLost<T>(run: seq<Bridge<T>>, events: seq<Event<T>>, checksAbort: bool, i: nat)
    requires IsRun(run, events, checksAbort) && i < |run|
    ensures run[i].delivered + run[i].queue == run[i].sent
    ensures run[i].consumer == Parked(false) ==> run[i].queue == [] && !run[i].done && run[i].delivered == run[i].sent
  {
    RunKeeps(run, events, checksAbort, i);
  }

  /** The command was rejected with a message; it has settled at all. */
  ghost predicate Rejected<T(!new)>(events: seq<Event<T>>) {
    exists m :: m != "" && Fail(m) in events
  }

  ghost predicate Settled<T(!new)>(events: seq<Event<T>>) {
    Complete in events || exists m :: Fail(m) in events
  }

  lemma OneMoreEvent<T(!new)>(before: seq<Event<T>>, e: Event<T>)
    ensures Rejected(before + [e]) <==> Rejected(before) || (e.Fail? && e.message != "")
    ensures Settled(before + [e]) <==> Settled(before) || e.Complete? || e.Fail?
    ensures Rejected(before) ==> Settled(before)
  {
    var events := before + [e];
    forall x | x in before ensures x in events { }
    assert e in events;
    if e.Fail? { assert Fail(e.message) in events; }
  }

  /** When the stream has ended by itself everything sent had been yielded. It ended by throwing
      exactly when the command failed with a non-empty message: a rejection with an empty one reads
      as a normal end. */
  lemma EndsComplete<T(!new)>(run: seq<Bridge<T>>, events: seq<Event<T>>, checksAbort: bool)
    requires IsRun(run, events, checksAbort)
    requires run[|run| - 1].consumer.Returned? || run[|run| - 1].consumer.Threw?
    ensures var s := run[|run| - 1];
      s.delivered == s.sent && (s.consumer.Threw? <==> Rejected(events))
  {
    var n := |run| - 1;
    RunKeeps(run, events, checksAbort, n);
    FailureIsLast(run, events, checksAbort, n);
    assert events[..n] == events;
  }

  lemma {:induction false} FailureIsLast<T(!new)>(run: seq<Bridge<T>>, events: seq<Event<T>>, checksAbort: bool, i: nat)
    requires IsRun(run, events, checksAbort) && i < |run|
    ensures run[i].failure != "" <==> Rejected(events[..i])
    ensures run[i].done <==> Settled(events[..i])
  {
    if i > 0 {
      var e, before := events[i - 1], events[..i - 1];
      FailureIsLast(run, events, checksAbort, i - 1);
      SplitLast(events[..i], before, e);
      OneMoreEvent(before, e);
      assert Enabled(run[i - 1], e) && run[i] == Next(run[i - 1], e, checksAbort);
      EventChangesEnd(run[i - 1], e, checksAbort);
    }
  }

  /** What an event does to the end that is reported. */
  lemma EventChangesEnd<T>(s: Bridge<T>, e: Event<T>, checksAbort: bool)
    requires Enabled(s, e)
    ensures var t := Next(s, e, checksAbort);
      && t.failure == (if e.Fail? then e.message else s.failure)
      && t.done == (s.done || e.Complete? || e.Fail?)
      && (e.Complete? || e.Fail? ==> !s.done)
  {
  }

  /** The generator's own next event, while it has one. */
  function OwnEvent<T>(s: Bridge<T>): Option<Event<T>> {
    match s.consumer
    case Start => Some(Pull)
    case AtYield => Some(Pull)
    case Parked(resolved) => if resolved then Some(Wake) else None
    case Settling => Some(Settle)
    case _ => None
  }

  function Ended<T>(s: Bridge<T>): bool {
    s.consumer.Returned? || s.consumer.Threw? || s.consumer.Aborted?
  }

  /** How many of its own events a generator needs to end once the command has settled. */
  function StepsLeft<T>(s: Bridge<T>): nat {
    match s.consumer
    case Start => |s.queue| + 2
    case AtYield => |s.queue| + 2
    case Parked(_) => |s.queue| + 2
    case Settling => 1
    case _ => 0
  }

  /** The state after a client that keeps pulling has let the generator run. */
  function Served<T>(s: Bridge<T>, n: nat, checksAbort: bool): Bridge<T>
    decreases n
  {
    if n == 0 || OwnEvent(s).None? then s
    else Served(Next(s, OwnEvent(s).value, checksAbort), n - 1, checksAbort)
  }

  /** Once the command has settled, a client that keeps pulling reaches the end of the stream within
      |queue| + 2 steps of the generator, and unless it aborted it has then seen everything sent. */
  lemma {:induction false} ReachesEnd<T>(s: Bridge<T>, checksAbort: bool)
    requires Inv(s) && s.done
    ensures var e := Served(s, StepsLeft(s), checksAbort);
      Ended(e) && (e.consumer.Aborted? || e.delivered == s.sent)
    decreases StepsLeft(s)
  {
    if !Ended(s) {
      var e := OwnEvent(s).value;
      NextKeeps(s, e, checksAbort);
      var t := Next(s, e, checksAbort);
      if t.consumer.Aborted? {
        StaysEnded(t, StepsLeft(s) - 1, checksAbort);
      } else {
        assert StepsLeft(t) == StepsLeft(s) - 1;
        ReachesEnd(t, checksAbort);
      }
    }
  }

  lemma StaysEnded<T>(s: Bridge<T>, n: nat, checksAbort: bool)
    requires Ended(s)
    ensures Served(s, n, checksAbort) == s
  {
  }

  /** An abort alone does not wake a parked generator: it has no event of its own until the channel or
      the command notifies it. */
  lemma AbortDoesNotWake<T>(s: Bridge<T>, checksAbort: bool)
    requires Inv(s) && s.consumer == Parked(false)
    ensures OwnEvent(Next(s, Abort, checksAbort)).None?
    ensures forall x :: OwnEvent(Next(s, Push(x), checksAbort)) == Some(Wake)
    ensures OwnEvent(Next(s, Complete, checksAbort)) == Some(Wake)
    ensures forall m :: OwnEvent(Next(s, Fail(m), checksAbort)) == Some(Wake)
  {
  }

  // ---------------------------------------------------------------- the code

  class Stream<T> {
    const checksAbort: bool
    var queue: seq<T>
    var notifySet: bool
    var done: bool
    var failure: string
    var aborted: bool
    var consumer: Consumer
    ghost var sent: seq<T>
    ghost var delivered: seq<T>

    ghost function State(): Bridge<T>
      reads this
    {
      Bridge(queue, notifySet, done, failure, aborted, consumer, sent, delivered)
    }

    ghost predicate Valid()
      reads this
    {
      Inv(State())
    }

    constructor (checksAbort: bool)
      ensures Valid() && State() == Initial() && this.checksAbort == checksAbort
    {
      this.checksAbort := checksAbort;
      queue, notifySet, done, failure, aborted, consumer := [], false, false, "", false, Start;
      sent, delivered := [], [];
    }

    method Notify()
      modifies this`consumer
      ensures State() == Notified(old(State()))
    {
      if notifySet && consumer.Parked? { consumer := Parked(true); }
    }

    method OnMessage(chunk: T)
      requires Valid() && !done
      modifies this
      ensures Valid() && State() == Next(old(State()), Push(chunk), checksAbort)
    {
      NextKeeps(State(), Push(chunk), checksAbort);
      queue, sent := queue + [chunk], sent + [chunk];
      Notify();
    }

    method OnComplete()
      requires Valid() && !done
      modifies this
      ensures Valid() && State() == Next(old(State()), Complete, checksAbort)
    {
      NextKeeps(State(), Complete, checksAbort);
      done := true;
      Notify();
    }

    method OnFailure(message: string)
      requires Valid() && !done
      modifies this
      ensures Valid() && State() == Next(old(State()), Fail(message), checksAbort)
    {
      NextKeeps(State(), Fail(message), checksAbort);
      failure := message;
      done := true;
      Notify();
    }

    method OnAbort()
      requires Valid()
      modifies this
      ensures Valid() && State() == Next(old(State()), Abort, checksAbort)
    {
      aborted := true;
    }

    /** The body of the generator's inner and outer loop from where it was left; the chunk it yields,
        if it reaches a yield. */
    method Advance(top: bool) returns (chunk: Option<T>)
      modifies this
      ensures State() == if top then FromTop(old(State()), checksAbort) else Proceed(old(State()))
      ensures chunk.Some? <==> delivered != old(delivered)
      ensures chunk.Some? ==> delivered == old(delivered) + [chunk.value]
    {
      chunk := None;
      if top && checksAbort && aborted {
        consumer := Aborted;
        return;
      }
      if |queue| > 0 {
        chunk := Some(queue[0]);
        queue, delivered := queue[1..], delivered + [queue[0]];
        consumer := AtYield;
        return;
      }
      if done {
        consumer := Settling;
        return;
      }
      notifySet := true;
      consumer := Parked(false);
    }

    /** The client asks for the next message. */
    method PullNext() returns (chunk: Option<T>)
      requires Valid() && Enabled(State(), Pull)
      modifies this
      ensures Valid() && State() == Next(old(State()), Pull, checksAbort)
      ensures chunk.Some? ==> delivered == old(delivered) + [chunk.value]
    {
      NextKeeps(State(), Pull, checksAbort);
      chunk := Advance(consumer.Start?);
    }

    /** The awaited promise had been resolved. */
    method Resume() returns (chunk: Option<T>)
      requires Valid() && Enabled(State(), Wake)
      modifies this
      ensures Valid() && State() == Next(old(State()), Wake, checksAbort)
      ensures chunk.Some? ==> delivered == old(delivered) + [chunk.value]
    {
      NextKeeps(State(), Wake, checksAbort);
      notifySet := false;
      chunk := Advance(true);
    }

    /** The awaited completion has settled. */
    method Finish() returns (threw: bool)
      requires Valid() && Enabled(State(), Settle)
      modifies this
      ensures Valid() && State() == Next(old(State()), Settle, checksAbort)
      ensures delivered == sent && (threw <==> failure != "")
    {
      NextKeeps(State(), Settle, checksAbort);
      threw := failure != "";
      consumer := if threw then Threw else Returned;
      assert delivered + queue == delivered;
    }
  }
}
