/** The streaming query: a driver task that encodes batches into a bounded channel, and the consumer
    that empties or drops it. */
module QueryStream {
  import opened Sequences

  /** What executing a plan can bring the driver. */
  datatype BatchResult = Batch(rows: nat, encodes: bool) | BatchFailed
  datatype Execution =
    | PlanFailed
    | ExecuteFailed
    | Running(batches: seq<BatchResult>, schemaEncodes: bool)

  /** A message of the response stream. */
  datatype Item = Rows(numRows: nat) | SchemaOnly | Failed

  const CAPACITY: nat := 2

  // ---------------------------------------------------------------- what should be sent

  /** The messages of the batches up to and including the first error. */
  function UpToError(batches: seq<BatchResult>): seq<Item> {
    if batches == [] then []
    else match batches[0]
      case BatchFailed => [Failed]
      case Batch(rows, encodes) => if encodes then [Rows(rows)] + UpToError(batches[1..]) else [Failed]
  }

  /** Everything the stream of an execution should say. */
  function Expected(x: Execution): seq<Item> {
    match x
    case PlanFailed => [Failed]
    case ExecuteFailed => [Failed]
    case Running(batches, schemaEncodes) =>
      if batches == [] then [if schemaEncodes then SchemaOnly else Failed] else UpToError(batches)
  }

  function RowSum(items: seq<Item>): nat {
    if items == [] then 0
    else RowSum(items[..|items| - 1]) +
         if items[|items| - 1].Rows? then items[|items| - 1].numRows else 0
  }

  /** The rows of the batches before the first error. */
  function ProducedRows(batches: seq<BatchResult>): nat {
    if batches == [] || batches[0].BatchFailed? || !batches[0].encodes then 0
    else batches[0].rows + ProducedRows(batches[1..])
  }

  lemma {:induction false} RowSumOfAppend(a: seq<Item>, b: seq<Item>)
    ensures RowSum(a + b) == RowSum(a) + RowSum(b)
  {
    if b == [] {
      assert a + b == a;
    } else {
      assert (a + b)[..|a + b| - 1] == a + b[..|b| - 1];
      RowSumOfAppend(a, b[..|b| - 1]);
    }
  }

  /** The row counts sent add up to the rows produced, at most one error is sent and only as the last
      message, and a schema-only message is sent exactly when there was no batch to send. */
  lemma {:induction false} ExpectedShape(x: Execution)
    ensures x.Running? ==> RowSum(Expected(x)) == ProducedRows(x.batches)
    ensures Expected(x) != []
    ensures forall i :: 0 <= i < |Expected(x)| - 1 ==> Expected(x)[i].Rows?
    ensures SchemaOnly in Expected(x) <==> x.Running? && x.batches == [] && x.schemaEncodes
  {
    if x.Running? && x.batches != [] { UpToErrorShape(x.batches); }
  }

  lemma {:induction false} UpToErrorShape(batches: seq<BatchResult>)
    ensures RowSum(UpToError(batches)) == ProducedRows(batches)
    ensures batches != [] ==> UpToError(batches) != []
    ensures forall i :: 0 <= i < |UpToError(batches)| - 1 ==> UpToError(batches)[i].Rows?
    ensures SchemaOnly !in UpToError(batches)
  {
    if batches != [] && batches[0].Batch? && batches[0].encodes {
      var first, rest := [Rows(batches[0].rows)], UpToError(batches[1..]);
      UpToErrorShape(batches[1..]);
      RowSumOfAppend(first, rest);
      assert first[..0] == [];
      assert RowSum(first) == batches[0].rows;
    } else if batches != [] {
      assert [Failed][..0] == [];
    }
  }

  /** The driver's code against a receiver that takes `accepts` messages and is then dropped: it
      sends the expected messages, up to the first that finds no receiver. */
  method Drive(x: Execution, accepts: nat) returns (sent: seq<Item>)
    ensures sent == if accepts < |Expected(x)| then Expected(x)[..accepts] else Expected(x)
  {
    sent := [];
    if x.PlanFailed? || x.ExecuteFailed? {
      if |sent| < accepts { sent := sent + [Failed]; }
      return;
    }
    var i, sentAny := 0, false;
    while i < |x.batches|
      invariant 0 <= i <= |x.batches| && |sent| == i <= accepts
      invariant sentAny <==> i > 0
      invariant x.batches != [] ==> Expected(x) == sent + UpToError(x.batches[i..])
    {
      var item := if x.batches[i].Batch? && x.batches[i].encodes then Rows(x.batches[i].rows) else Failed;
      OneBatch(x.batches, i);
      AppendAssoc(sent, [item], if item.Rows? then UpToError(x.batches[i + 1..]) else []);
      if |sent| == accepts {
        TakeAppend(sent, UpToError(x.batches[i..]), accepts);
        return;
      }
      sent := sent + [item];
      if item.Failed? {
        AppendNone(sent);
        return;
      }
      sentAny := true;
      i := i + 1;
    }
    if !sentAny {
      if |sent| < accepts { sent := sent + [if x.schemaEncodes then SchemaOnly else Failed]; }
    } else {
      assert x.batches[i..] == [];
      AppendNone(sent);
    }
  }

  /** The message of one batch, and whether any follow. */
  lemma OneBatch(batches: seq<BatchResult>, i: nat)
    requires i < |batches|
    ensures var item := if batches[i].Batch? && batches[i].encodes then Rows(batches[i].rows) else Failed;
      UpToError(batches[i..]) == [item] + if item.Rows? then UpToError(batches[i + 1..]) else []
  {
  }

  // ---------------------------------------------------------------- every schedule

  /** Where the driver stands: about to compute its next message, waiting to send one, or over. */
  datatype Driver = Computing(next: nat, sentAny: bool) | Sending(item: Item, next: nat, last: bool) | Over

  datatype State = State(driver: Driver, buffer: seq<Item>, seen: seq<Item>, dropped: bool)

  datatype Event =
    | Compute     // the driver reaches its next send, or its end
    | Send        // the channel has room and takes the message
    | SendFails   // the receiver is gone
    | Receive     // the consumer takes a message
    | Drop        // the consumer drops the stream
    | Cancel      // the driver is aborted after the drop

  function Initial(): State {
    State(Computing(0, false), [], [], false)
  }

  /** The driver between two sends. */
  function Computed(x: Execution, d: Driver): Driver
    requires d.Computing?
  {
    match x
    case PlanFailed => Sending(Failed, 0, true)
    case ExecuteFailed => Sending(Failed, 0, true)
    case Running(batches, schemaEncodes) =>
      if d.next < |batches| then
        match batches[d.next]
        case BatchFailed => Sending(Failed, d.next + 1, true)
        case Batch(rows, encodes) =>
          if encodes then Sending(Rows(rows), d.next + 1, false) else Sending(Failed, d.next + 1, true)
      else if d.sentAny then Over
      else Sending(if schemaEncodes then SchemaOnly else Failed, d.next, true)
  }

  predicate Enabled(s: State, e: Event) {
    match e
    case Compute => s.driver.Computing?
    case Send => s.driver.Sending? && !s.dropped && |s.buffer| < CAPACITY
    case SendFails => s.driver.Sending? && s.dropped
    case Receive => !s.dropped && s.buffer != []
    case Drop => !s.dropped
    case Cancel => s.dropped && !s.driver.Over?
  }

  function Next(x: Execution, s: State, e: Event): State
    requires Enabled(s, e)
  {
    match e
    case Compute => s.(driver := Computed(x, s.driver))
    case Send =>
      s.(buffer := s.buffer + [s.driver.item],
         driver := if s.driver.last then Over else Computing(s.driver.next, true))
    case SendFails => s.(driver := Over)
    case Receive => s.(buffer := s.buffer[1..], seen := s.seen + [s.buffer[0]])
    case Drop => s.(dropped := true, buffer := [])
    case Cancel => s.(driver := Over)
  }

  /** What the driver will still send if it is not stopped. */
  function Pending(x: Execution, d: Driver): seq<Item> {
    match d
    case Over => []
    case Sending(item, next, last) =>
      [item] + if last || !x.Running? || next > |x.batches| then [] else UpToError(x.batches[next..])
    case Computing(next, sentAny) =>
      if !x.Running? then [Failed]
      else if next < |x.batches| then UpToError(x.batches[next..])
      else if sentAny then []
      else [if x.schemaEncodes then SchemaOnly else Failed]
  }

  /** Seen, buffered and still to come make up the expected stream, until the consumer drops it; then
      what it saw is a prefix for good. */
  ghost predicate Inv(x: Execution, s: State) {
    && |s.buffer| <= CAPACITY
    && (!s.dropped ==> s.seen + s.buffer + Pending(x, s.driver) == Expected(x))
    && (s.dropped ==> s.seen <= Expected(x) && s.buffer == [])
    && (s.driver.Computing? && x.Running? ==> s.driver.next <= |x.batches|)
    && (s.driver.Sending? && !s.driver.last ==> x.Running? && s.driver.next <= |x.batches| && s.driver.item.Rows?)
  }

  lemma InitialKeeps(x: Execution)
    ensures Inv(x, Initial())
  {
  }

  lemma ComputeKeepsPending(x: Execution, d: Driver)
    requires d.Computing? && (x.Running? ==> d.next <= |x.batches|)
    ensures Pending(x, Computed(x, d)) == Pending(x, d)
  {
  }

  lemma SendMovesPending(x: Execution, d: Driver)
    requires d.Sending? && (!d.last ==> x.Running? && d.next <= |x.batches|)
    ensures Pending(x, d) == [d.item] + Pending(x, if d.last then Over else Computing(d.next, true))
  {
  }

  lemma MoveToBuffer<T>(seen: seq<T>, buffer: seq<T>, item: T, rest: seq<T>)
    ensures seen + (buffer + [item]) + rest == seen + buffer + ([item] + rest)
  {
  }

  lemma MoveToSeen<T>(seen: seq<T>, buffer: seq<T>)
    requires buffer != []
    ensures (seen + [buffer[0]]) + buffer[1..] == seen + buffer
  {
  }

  lemma SeenFirst<T>(seen: seq<T>, buffer: seq<T>, rest: seq<T>)
    ensures seen <= seen + buffer + rest
  {
  }

  lemma NextKeeps(x: Execution, s: State, e: Event)
    requires Inv(x, s) && Enabled(s, e)
    ensures Inv(x, Next(x, s, e))
  {
    var t := Next(x, s, e);
    match e {
      case Compute => ComputeKeepsPending(x, s.driver);
      case Send =>
        SendMovesPending(x, s.driver);
        MoveToBuffer(s.seen, s.buffer, s.driver.item, Pending(x, t.driver));
      case Receive =>
        MoveToSeen(s.seen, s.buffer);
      case Drop =>
        SeenFirst(s.seen, s.buffer, Pending(x, s.driver));
      case _ =>
    }
  }

  ghost predicate IsRun(x: Execution, run: seq<State>, events: seq<Event>) {
    && |run| == |events| + 1 && run[0] == Initial()
    && forall i :: 0 <= i < |events| ==> Enabled(run[i], events[i]) && run[i + 1] == Next(x, run[i], events[i])
  }

  lemma {:induction false} RunKeeps(x: Execution, run: seq<State>, events: seq<Event>, i: nat)
    requires IsRun(x, run, events) && i < |run|
    ensures Inv(x, run[i])
  {
    if i == 0 {
      InitialKeeps(x);
    } else {
      RunKeeps(x, run, events, i - 1);
      NextKeeps(x, run[i - 1], events[i - 1]);
    }
  }

  /** Under every schedule the buffer never holds more than two messages, and what the consumer has
      seen is a prefix of the expected stream. */
  lemma SeenIsPrefix(x: Execution, run: seq<State>, events: seq<Event>, i: nat)
    requires IsRun(x, run, events) && i < |run|
    ensures run[i].seen <= Expected(x) && |run[i].buffer| <= CAPACITY
  {
    RunKeeps(x, run, events, i);
    var s := run[i];
    if !s.dropped { SeenFirst(s.seen, s.buffer, Pending(x, s.driver)); }
  }

  /** The stream ends for the consumer once the driver is over and the buffer is empty. */
  predicate EndOfStream(s: State) {
    !s.dropped && s.driver.Over? && s.buffer == []
  }

  /** A consumer that stays to the end has seen exactly the expected stream: the batches up to and
      including the first error, or one schema-only message; and, without an error, all the rows. */
  lemma EndIsComplete(x: Execution, run: seq<State>, events: seq<Event>)
    requires IsRun(x, run, events) && EndOfStream(run[|run| - 1])
    ensures run[|run| - 1].seen == Expected(x)
    ensures x.Running? ==> RowSum(run[|run| - 1].seen) == ProducedRows(x.batches)
  {
    var s := run[|run| - 1];
    RunKeeps(x, run, events, |run| - 1);
    assert s.seen + [] + [] == s.seen;
    ExpectedShape(x);
  }

  /** Work left: it falls with every event but a drop, so every schedule is finite. */
  function Measure(x: Execution, s: State): nat {
    |s.buffer| +
    match s.driver
    case Over => 0
    case Sending(_, next, last) =>
      if last || !x.Running? || next > |x.batches| then 2 else 5 + 4 * (|x.batches| - next)
    case Computing(next, _) =>
      if !x.Running? || next > |x.batches| then 3 else 3 + 4 * (|x.batches| - next)
  }

  lemma EveryEventProgresses(x: Execution, s: State, e: Event)
    requires Inv(x, s) && Enabled(s, e) && !e.Drop?
    ensures Measure(x, Next(x, s, e)) < Measure(x, s)
  {
  }

  /** No deadlock: before the end some event other than a drop is enabled. */
  lemma NeverStuck(x: Execution, s: State)
    requires Inv(x, s) && !EndOfStream(s) && !(s.dropped && s.driver.Over?)
    ensures exists e :: Enabled(s, e) && !e.Drop?
  {
    if s.driver.Computing? {
      assert Enabled(s, Compute);
    } else if s.dropped {
      assert Enabled(s, Cancel);
    } else if s.buffer != [] {
      assert Enabled(s, Receive);
    } else {
      assert Enabled(s, Send);
    }
  }
}
