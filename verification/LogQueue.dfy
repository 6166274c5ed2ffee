/** The asynchronous log queue: a bounded buffer, one worker that sends batches, retries, and an orderly stop. */
module LogQueue {
  import opened Results

  const MAX_BULK: nat := 300
  /** One try and two more. */
  const ATTEMPTS: nat := 3

  // ---------------------------------------------------------------- what the server answers

  /** The counts as the server filled them in, and one flag for each item it lists. */
  datatype Response = Response(successCount: int, failureCount: int, items: seq<bool>)

  datatype Reply = Ok(response: Response) | Failed | Panicked

  function Successes(items: seq<bool>): nat {
    if items == [] then 0 else Successes(items[..|items| - 1]) + if items[|items| - 1] then 1 else 0
  }

  function Failures(items: seq<bool>): nat {
    if items == [] then 0 else Failures(items[..|items| - 1]) + if items[|items| - 1] then 0 else 1
  }

  lemma {:induction false} EveryItemCounts(items: seq<bool>)
    ensures Successes(items) + Failures(items) == |items|
  {
    if items != [] { EveryItemCounts(items[..|items| - 1]); }
  }

  /** What is added to the two counters; a negative failure count adds nothing. */
  datatype Counts = Counts(sent: int, failed: int)

  function CountsOf(r: Response, n: nat): Counts {
    if r.successCount == 0 && r.failureCount == 0 then
      if r.items != [] then Counts(Successes(r.items), Failures(r.items)) else Counts(n, 0)
    else Counts(r.successCount, if r.failureCount > 0 then r.failureCount else 0)
  }

  /** The answer accounts for every event of the batch. */
  predicate Balanced(r: Response, n: nat) {
    if r.successCount == 0 && r.failureCount == 0 then r.items == [] || |r.items| == n
    else r.successCount + (if r.failureCount > 0 then r.failureCount else 0) == n
  }

  lemma BalancedExact(r: Response, n: nat)
    ensures CountsOf(r, n).sent + CountsOf(r, n).failed == n <==> Balanced(r, n)
  {
    EveryItemCounts(r.items);
  }

  /**
  How a batch ends: nothing is counted for one lost to a panic; a panic in the logging that follows comes after the
  counting.
  */
  datatype Outcome = Counted(counts: Counts, panicked: bool) | Lost

  /** A batch of `n`, given what each attempt meets and whether logging a failure would panic. */
  function Deliver(n: nat, replies: seq<Reply>, logPanics: bool): Outcome {
    if replies == [] then Counted(Counts(0, n), logPanics)
    else match replies[0]
      case Ok(r) => Counted(CountsOf(r, n), logPanics && CountsOf(r, n).failed > 0)
      case Panicked => Lost
      case Failed => Deliver(n, replies[1..], logPanics)
  }

  function SentBy(o: Outcome): int {
    match o case Lost => 0 case Counted(c, _) => c.sent
  }

  function FailedBy(o: Outcome): int {
    match o case Lost => 0 case Counted(c, _) => c.failed
  }

  predicate PanicIn(o: Outcome) {
    match o case Lost => true case Counted(_, panicked) => panicked
  }

  /** Only the answer that ends the retries matters. */
  predicate Accounted(n: nat, replies: seq<Reply>) {
    if replies == [] then true
    else match replies[0]
      case Ok(r) => Balanced(r, n)
      case Panicked => true
      case Failed => Accounted(n, replies[1..])
  }

  function Surplus(n: nat, o: Outcome): int {
    match o case Lost => 0 case Counted(c, _) => c.sent + c.failed - n
  }

  lemma {:induction false} AccountedExact(n: nat, replies: seq<Reply>, logPanics: bool)
    ensures Surplus(n, Deliver(n, replies, logPanics)) == 0 <==> Accounted(n, replies)
  {
    if replies != [] {
      match replies[0]
      case Ok(r) => BalancedExact(r, n);
      case Panicked =>
      case Failed => AccountedExact(n, replies[1..], logPanics);
    }
  }

  // ---------------------------------------------------------------- batches

  function Flatten<E>(batches: seq<seq<E>>): seq<E> {
    if batches == [] then [] else Flatten(batches[..|batches| - 1]) + batches[|batches| - 1]
  }

  lemma FlattenAppend<E>(batches: seq<seq<E>>, b: seq<E>)
    ensures Flatten(batches + [b]) == Flatten(batches) + b
  {
    assert (batches + [b])[..|batches|] == batches;
  }

  lemma PulledFront<E>(batches: seq<seq<E>>, contents: seq<E>, accepted: seq<E>, n: nat)
    requires Flatten(batches) + contents == accepted && n <= |contents|
    ensures Flatten(batches + [contents[..n]]) + contents[n..] == accepted
    ensures |Flatten(batches + [contents[..n]])| == |Flatten(batches)| + n
  {
    FlattenAppend(batches, contents[..n]);
    assert contents[..n] + contents[n..] == contents;
  }

  function Values<E>(slots: seq<Option<E>>): (r: seq<E>)
    requires forall i | 0 <= i < |slots| :: slots[i].Some?
    ensures |r| == |slots| && forall i | 0 <= i < |r| :: r[i] == slots[i].value
  {
    if slots == [] then [] else Values(slots[..|slots| - 1]) + [slots[|slots| - 1].value]
  }

  // ---------------------------------------------------------------- the queue

  class LogHub<E> {
    var buf: array<Option<E>>
    var len: nat
    var bufClosed: bool
    var enable: bool
    const softMax: nat

    var enqueued: int
    var sent: int
    var droppedFull: int
    var failedFinal: int
    var workerPanics: int

    /** The batch that the worker holds while it sends it. */
    var inFlight: seq<E>

    /** Everything ever accepted, and the batches pulled so far. */
    ghost var accepted: seq<E>
    ghost var batches: seq<seq<E>>
    /** Events of batches lost to a panic, and events that answers counted beyond their batch. */
    ghost var lost: nat
    ghost var surplus: int

    ghost predicate Shape()
      reads this, buf
    {
      len <= buf.Length && len <= softMax &&
      (forall i | 0 <= i < len :: buf[i].Some?) &&
      (forall i | len <= i < buf.Length :: buf[i].None?)
    }

    ghost function Contents(): (s: seq<E>)
      requires Shape()
      reads this, buf
      ensures |s| == len
    {
      Values(buf[..len])
    }

    ghost predicate Valid()
      reads this, buf
    {
      Shape() && 0 < softMax &&
      Flatten(batches) + Contents() == accepted &&
      (forall i | 0 <= i < |batches| :: 1 <= |batches[i]| <= MAX_BULK) &&
      enqueued == |accepted| &&
      sent + failedFinal + lost + |inFlight| == |Flatten(batches)| + surplus &&
      (bufClosed ==> !enable)
    }

    constructor (queueSize: int)
      ensures Valid() && fresh(buf) && accepted == [] && batches == [] && inFlight == [] && enable && !bufClosed
      ensures softMax == (if queueSize <= 0 then 100000 else queueSize)
      ensures sent == failedFinal == droppedFull == workerPanics == 0 && lost == 0 && surplus == 0
    {
      softMax := if queueSize <= 0 then 100000 else queueSize;
      buf := new Option<E>[MAX_BULK](_ => None);
      len, bufClosed, enable := 0, false, true;
      enqueued, sent, droppedFull, failedFinal, workerPanics := 0, 0, 0, 0, 0;
      accepted, batches, inFlight, lost, surplus := [], [], [], 0, 0;
    }

    /** `append`: in place while there is room, else into a larger array. */
    method Append(event: E)
      requires Shape() && len < softMax
      modifies this`buf, this`len, buf
      ensures Shape() && Contents() == old(Contents()) + [event]
      ensures buf == old(buf) || fresh(buf)
    {
      if len == buf.Length {
        var larger := new Option<E>[2 * buf.Length + 1](_ => None);
        for i := 0 to len
          modifies larger
          invariant forall j | 0 <= j < i :: larger[j] == buf[j]
          invariant forall j | i <= j < larger.Length :: larger[j].None?
        {
          larger[i] := buf[i];
        }
        buf := larger;
      }
      ghost var before := buf[..len];
      buf[len] := Some(event);
      len := len + 1;
      assert buf[..len][..len - 1] == before;
    }

    /** A producer. It may have read the switch before a stop flipped it; the closed flag is read under the lock. */
    method Enqueue(event: E, sawEnabled: bool)
      requires Valid() && (enable ==> sawEnabled)
      modifies this`buf, this`len, this`enqueued, this`droppedFull, this`accepted, buf
      ensures Valid() && (buf == old(buf) || fresh(buf))
      ensures sawEnabled && !bufClosed && old(len) < softMax ==>
        accepted == old(accepted) + [event] && droppedFull == old(droppedFull)
      ensures !(sawEnabled && !bufClosed && old(len) < softMax) ==>
        accepted == old(accepted) && Contents() == old(Contents()) &&
        droppedFull == old(droppedFull) + if sawEnabled && !bufClosed then 1 else 0
    {
      if !sawEnabled { return; }
      if bufClosed { return; }
      if len >= softMax {
        droppedFull := droppedFull + 1;
        return;
      }
      Append(event);
      enqueued := enqueued + 1;
      accepted := accepted + [event];
    }

    /** Shift what follows the first `n` slots to the front and clear the slots left over. */
    method Shift(n: nat)
      requires Shape() && n <= len
      modifies this`len, buf
      ensures Shape() && Contents() == old(Contents())[n..]
    {
      var tail := len - n;
      ghost var was := buf[..];
      for i := 0 to tail
        modifies buf
        invariant forall j | 0 <= j < i :: buf[j] == was[j + n]
        invariant forall j | i <= j < buf.Length :: buf[j] == was[j]
      {
        buf[i] := buf[i + n];
      }
      for i := tail to len
        modifies buf
        invariant forall j | 0 <= j < tail :: buf[j] == was[j + n]
        invariant forall j | tail <= j < i :: buf[j].None?
        invariant forall j | i <= j < buf.Length :: buf[j] == was[j]
      {
        buf[i] := None;
      }
      len := tail;
    }

    /** Copies the first `n` events out and shifts the rest. */
    method TakeFront(n: nat) returns (batch: seq<E>)
      requires Shape() && n <= len
      modifies this`len, buf
      ensures Shape() && batch == old(Contents())[..n] && Contents() == old(Contents())[n..]
    {
      batch := Values(buf[..n]);
      assert batch == Contents()[..n];
      Shift(n);
    }

    /**
    The worker takes the first events, at most 300 of them; it is done when the queue is closed and empty, and waits
    (no step) while the queue is open and empty.
    */
    method PullBatch() returns (batch: seq<E>, done: bool)
      requires Valid() && inFlight == [] && (len > 0 || bufClosed)
      modifies this`len, this`batches, this`inFlight, buf
      ensures Valid() && done == (old(len) == 0)
      ensures done ==>
        batch == [] && len == 0 && Flatten(batches) == accepted && batches == old(batches) && inFlight == []
      ensures !done ==> |batch| == (if old(len) > MAX_BULK then MAX_BULK else old(len))
      ensures !done ==> batch == old(Contents())[..|batch|] && Contents() == old(Contents())[|batch|..]
      ensures !done ==> batches == old(batches) + [batch] && inFlight == batch
    {
      if len == 0 && bufClosed { return [], true; }
      var n := len;
      if n > MAX_BULK { n := MAX_BULK; }
      batch := TakeFront(n);
      PulledFront(batches, old(Contents()), accepted, n);
      batches := batches + [batch];
      inFlight := batch;
      done := false;
    }

    /**
    Sends the batch that the worker holds; `replies` are what the attempts would meet. A panic is caught and counted.
    */
    method SendBulk(replies: seq<Reply>, logPanics: bool)
      requires Valid() && inFlight != [] && |replies| == ATTEMPTS
      modifies this`sent, this`failedFinal, this`workerPanics, this`lost, this`surplus, this`inFlight
      ensures Valid() && inFlight == []
      ensures sent - old(sent) == SentBy(Deliver(|old(inFlight)|, replies, logPanics))
      ensures failedFinal - old(failedFinal) == FailedBy(Deliver(|old(inFlight)|, replies, logPanics))
      ensures lost - old(lost) == if Deliver(|old(inFlight)|, replies, logPanics).Lost? then |old(inFlight)| else 0
      ensures workerPanics - old(workerPanics) == if PanicIn(Deliver(|old(inFlight)|, replies, logPanics)) then 1 else 0
      ensures surplus == old(surplus) + Surplus(|old(inFlight)|, Deliver(|old(inFlight)|, replies, logPanics))
    {
      var outcome := Attempts(|inFlight|, replies, logPanics);
      surplus := surplus + Surplus(|inFlight|, outcome);
      match outcome {
        case Lost =>
          lost := lost + |inFlight|;
        case Counted(c, panicked) =>
          sent := sent + c.sent;
          failedFinal := failedFinal + c.failed;
      }
      if PanicIn(outcome) { workerPanics := workerPanics + 1; }
      inFlight := [];
    }

    /** The retry loop. */
    method Attempts(n: nat, replies: seq<Reply>, logPanics: bool) returns (outcome: Outcome)
      requires |replies| == ATTEMPTS
      ensures outcome == Deliver(n, replies, logPanics)
    {
      for attempt := 0 to ATTEMPTS
        invariant Deliver(n, replies, logPanics) == Deliver(n, replies[attempt..], logPanics)
      {
        assert replies[attempt..][1..] == replies[attempt + 1..];
        match replies[attempt]
        case Failed =>
        case Panicked => return Lost;
        case Ok(r) =>
          var success, failure := r.successCount, r.failureCount;
          if success == 0 && failure == 0 {
            success, failure := CountItems(r, n);
          }
          if failure > 0 { return Counted(Counts(success, failure), logPanics); }
          return Counted(Counts(success, 0), false);
      }
      return Counted(Counts(0, n), logPanics);
    }

    /** When the server filled in no counts: count the items, or take an answer without items for full success. */
    method CountItems(r: Response, n: nat) returns (success: int, failure: int)
      requires r.successCount == 0 && r.failureCount == 0
      ensures failure >= 0 && CountsOf(r, n) == Counts(success, failure)
    {
      if |r.items| == 0 { return n, 0; }
      success, failure := 0, 0;
      for i := 0 to |r.items|
        invariant success == Successes(r.items[..i]) && failure == Failures(r.items[..i])
      {
        assert r.items[..i + 1][..i] == r.items[..i];
        if r.items[i] { success := success + 1; } else { failure := failure + 1; }
      }
      assert r.items[..|r.items|] == r.items;
    }

    /** The first half of a stop; a second stop does nothing. */
    method Disable()
      requires Valid()
      modifies this`enable
      ensures Valid() && !enable
    {
      enable := false;
    }

    /** The second half, under the lock. */
    method Close()
      requires Valid() && !enable
      modifies this`bufClosed
      ensures Valid() && bufClosed
    {
      bufClosed := true;
    }
  }

  // ---------------------------------------------------------------- whole runs

  datatype Step<E> =
    | Produce(event: E, sawEnabled: bool)
    | Pull
    | Send(replies: seq<Reply>, logPanics: bool)
    | Disable
    | Close

  /** A batch size with what its attempts met. */
  datatype Sending = Sending(n: nat, replies: seq<Reply>, logPanics: bool)

  function TotalSurplus(sends: seq<Sending>): int {
    if sends == [] then 0
    else
      var last := sends[|sends| - 1];
      TotalSurplus(sends[..|sends| - 1]) + Surplus(last.n, Deliver(last.n, last.replies, last.logPanics))
  }

  lemma {:induction false} AllAccounted(sends: seq<Sending>)
    requires forall i | 0 <= i < |sends| :: Accounted(sends[i].n, sends[i].replies)
    ensures TotalSurplus(sends) == 0
  {
    if sends != [] {
      AllAccounted(sends[..|sends| - 1]);
      AccountedExact(sends[|sends| - 1].n, sends[|sends| - 1].replies, sends[|sends| - 1].logPanics);
    }
  }

  lemma TotalSurplusAppend(sends: seq<Sending>, last: Sending)
    ensures TotalSurplus(sends + [last]) ==
      TotalSurplus(sends) + Surplus(last.n, Deliver(last.n, last.replies, last.logPanics))
  {
    assert (sends + [last])[..|sends|] == sends;
  }

  /** What every step of a run keeps. */
  ghost predicate Running<E>(hub: LogHub<E>, exited: bool, sends: seq<Sending>)
    reads hub, hub.buf
  {
    hub.Valid() && hub.surplus == TotalSurplus(sends) &&
    (exited ==> hub.bufClosed && hub.len == 0 && hub.inFlight == [] && Flatten(hub.batches) == hub.accepted)
  }

  method PlayPull<E>(hub: LogHub<E>, sends: seq<Sending>) returns (exited: bool)
    requires Running(hub, false, sends)
    modifies hub`len, hub`batches, hub`inFlight, hub.buf
    ensures Running(hub, exited, sends) && old(hub.batches) <= hub.batches
  {
    if hub.inFlight == [] && (hub.len > 0 || hub.bufClosed) {
      var batch, done := hub.PullBatch();
      return done;
    }
    return false;
  }

  method PlaySend<E>(
      hub: LogHub<E>, ghost exited: bool, sends: seq<Sending>, replies: seq<Reply>,
      logPanics: bool) returns (after: seq<Sending>)
    requires Running(hub, exited, sends)
    modifies hub`sent, hub`failedFinal, hub`workerPanics, hub`lost, hub`surplus, hub`inFlight
    ensures Running(hub, exited, after)
  {
    if hub.inFlight == [] || |replies| != ATTEMPTS { return sends; }
    after := sends + [Sending(|hub.inFlight|, replies, logPanics)];
    TotalSurplusAppend(sends, Sending(|hub.inFlight|, replies, logPanics));
    hub.SendBulk(replies, logPanics);
  }

  method PlayStep<E>(
      hub: LogHub<E>, exited: bool, sends: seq<Sending>, step: Step<E>) returns (exited': bool, sends': seq<Sending>)
    requires Running(hub, exited, sends)
    modifies hub, hub.buf
    ensures Running(hub, exited', sends') && (hub.buf == old(hub.buf) || fresh(hub.buf))
    ensures old(hub.accepted) <= hub.accepted && old(hub.batches) <= hub.batches
    ensures old(hub.bufClosed) ==> hub.bufClosed && hub.accepted == old(hub.accepted)
  {
    exited', sends' := exited, sends;
    match step {
      case Produce(event, sawEnabled) => hub.Enqueue(event, sawEnabled || hub.enable);
      case Pull => if !exited { exited' := PlayPull(hub, sends); }
      case Send(replies, logPanics) => sends' := PlaySend(hub, exited, sends, replies, logPanics);
      case Disable => hub.Disable();
      case Close => if !hub.enable { hub.Close(); }
    }
  }

  /**
  Producers, the worker and a stop in any order; a step that its owner cannot take is skipped. What was accepted is
  the batches pulled and then the queue, in order; the worker leaves only a closed and empty queue; and when every
  final answer accounts for its batch, every event pulled is sent, failed, lost to a panic, or in flight.
  */
  method Play<E>(hub: LogHub<E>, steps: seq<Step<E>>) returns (exited: bool, sends: seq<Sending>)
    requires hub.Valid() && hub.inFlight == [] && hub.surplus == 0
    modifies hub, hub.buf
    ensures Running(hub, exited, sends)
    ensures (forall i | 0 <= i < |sends| :: Accounted(sends[i].n, sends[i].replies)) ==>
      hub.sent + hub.failedFinal + hub.lost + |hub.inFlight| == |Flatten(hub.batches)|
    ensures old(hub.accepted) <= hub.accepted && old(hub.batches) <= hub.batches
    ensures old(hub.bufClosed) ==> hub.bufClosed && hub.accepted == old(hub.accepted)
  {
    exited, sends := false, [];
    for i := 0 to |steps|
      invariant Running(hub, exited, sends) && (hub.buf == old(hub.buf) || fresh(hub.buf))
      invariant old(hub.accepted) <= hub.accepted && old(hub.batches) <= hub.batches
      invariant old(hub.bufClosed) ==> hub.bufClosed && hub.accepted == old(hub.accepted)
    {
      exited, sends := PlayStep(hub, exited, sends, steps[i]);
    }
    if forall i | 0 <= i < |sends| :: Accounted(sends[i].n, sends[i].replies) { AllAccounted(sends); }
  }

  /**
  Once the queue is closed the worker needs no more than one pull for every 300 events, rounded up, and one to leave.
  */
  method DrainClosed<E>(hub: LogHub<E>, replies: seq<Reply>, logPanics: bool) returns (pulls: nat)
    requires hub.Valid() && hub.bufClosed && hub.inFlight == [] && |replies| == ATTEMPTS
    modifies hub, hub.buf
    ensures hub.Valid() && hub.len == 0 && Flatten(hub.batches) == hub.accepted == old(hub.accepted)
    ensures MAX_BULK * (pulls - 1) < old(hub.len) + MAX_BULK
  {
    pulls := 0;
    ghost var start := hub.len;
    while true
      invariant hub.Valid() && hub.bufClosed && hub.inFlight == [] && hub.buf == old(hub.buf)
      invariant hub.accepted == old(hub.accepted)
      invariant MAX_BULK * pulls < start - hub.len + MAX_BULK && (hub.len > 0 ==> MAX_BULK * pulls == start - hub.len)
      decreases hub.len
    {
      var batch, done := hub.PullBatch();
      pulls := pulls + 1;
      if done { return; }
      hub.SendBulk(replies, logPanics);
    }
  }
}
