/**
  The life of one replaceable model process, as the steps between the points where its coroutines
  wait. Requests, cancellations, deadlines, failures of the child, failures to reap it and shutdown
  may interleave in any order; the child itself is either honest or writes what it likes.
*/
module WorkerProcess {
  import opened Outcomes
  import opened Utf8
  import opened WorkerFraming

  /** What is fixed for a slot: the reviewed model and its revision. */
  datatype Model = Model(worker: Worker, revision: seq<Byte>)
  {
    ghost predicate Valid() {
      worker.Valid() && |revision| == 32
    }
  }

  /** A child with its two pipes: the requests written to it, all it has written, and how much of that was read. */
  datatype Child = Child(id: nat, honest: bool, sent: seq<Request>, output: seq<Byte>, taken: nat)

  datatype Failure = ProcessClosed | CreationFailed | Canceled | ScratchNotCleared | NotReaped

  datatype Phase =
    | Queued                                     // waiting for the slot's lock
    | Creating(stopped: bool)                    // waiting for the child; `stopped` once canceled
    | Born(child: Child, stopped: bool)          // the child exists, the coroutine has not resumed
    | AwaitReady
    | AwaitReply(request: Request)
    | Discarding                                 // killing and reaping; not interruptible
    | Ended(result: Result<Option<string>, Failure>)

  /** A startup has no video. */
  datatype Operation = Operation(video: Option<seq<Byte>>, phase: Phase)

  datatype Holder = Free | Held(op: nat) | ByCloser

  datatype Closer = NotClosing | Draining | Reaping | Closed(ok: bool)

  /** `alive` are the children that have been created and not been reaped. */
  datatype Slot = Slot(
    process: Option<Child>, closed: bool, holder: Holder, operations: seq<Operation>, closer: Closer,
    scratchEmpty: bool, alive: set<nat>, nextChild: nat)

  function InPhase(s: Slot, i: nat, phase: Phase): Slot
    requires i < |s.operations|
  {
    s.(operations := s.operations[i := s.operations[i].(phase := phase)])
  }

  function Finished(s: Slot, i: nat, result: Result<Option<string>, Failure>): Slot
    requires i < |s.operations|
  {
    InPhase(s, i, Ended(result)).(holder := Free)
  }

  // ----- the steps of an operation -----

  function Requested(s: Slot, video: Option<seq<Byte>>): Slot {
    s.(operations := s.operations + [Operation(video, Queued)])
  }

  predicate CanRequest(s: Slot, video: Option<seq<Byte>>) {
    !s.closed && (video.Some? ==> 0 < |video.value| <= VIDEO_LIMIT)
  }

  /** With a ready child: a startup is done, a translation writes its request. */
  function Started(s: Slot, i: nat, nonce: seq<Byte>, deadline: nat): Slot
    requires i < |s.operations| && s.process.Some?
  {
    if s.operations[i].video.None? then Finished(s, i, Ok(None))
    else
      var request := Request(nonce, s.operations[i].video.value, deadline);
      var child := s.process.value;
      InPhase(s, i, AwaitReply(request)).(holder := Held(i), process := Some(child.(sent := child.sent + [request])))
  }

  ghost predicate FreshRequest(nonce: seq<Byte>, deadline: nat) {
    |nonce| == 32 && deadline < Power(8)
  }

  predicate CanAcquire(s: Slot, i: nat) {
    i < |s.operations| && s.operations[i].phase == Queued && s.holder == Free
  }

  /** Taking the lock: a closed slot refuses, a missing child is created, a running one is used. */
  function Acquired(s: Slot, i: nat, nonce: seq<Byte>, deadline: nat): Slot
    requires CanAcquire(s, i)
  {
    if s.closed then
      if s.process.None? then Finished(s, i, Err(ProcessClosed)) else InPhase(s, i, Discarding).(holder := Held(i))
    else if s.process.None? then InPhase(s, i, Creating(false)).(holder := Held(i))
    else Started(s, i, nonce, deadline)
  }

  predicate CanBeBorn(s: Slot, i: nat) {
    i < |s.operations| && s.operations[i].phase.Creating?
  }

  function ChildBorn(s: Slot, i: nat, honest: bool): Slot
    requires CanBeBorn(s, i)
  {
    var child := Child(s.nextChild, honest, [], [], 0);
    InPhase(s, i, Born(child, s.operations[i].phase.stopped)).(alive := s.alive + {s.nextChild}, nextChild :=
      s.nextChild + 1)
  }

  function CreationFails(s: Slot, i: nat): Slot
    requires CanBeBorn(s, i)
  {
    Finished(s, i, Err(CreationFailed))
  }

  predicate CanAdopt(s: Slot, i: nat) {
    i < |s.operations| && s.operations[i].phase.Born?
  }

  /** The coroutine takes charge of the new child; a canceled one only to discard it. */
  function Adopted(s: Slot, i: nat): Slot
    requires CanAdopt(s, i)
  {
    var phase := s.operations[i].phase;
    InPhase(s, i, if phase.stopped then Discarding else AwaitReady).(process := Some(phase.child))
  }

  /** What a cancellation, a deadline or an error does to one operation. */
  function StoppedPhase(phase: Phase): Phase {
    match phase
    case Queued => Ended(Err(Canceled))
    case Creating(_) => Creating(true)
    case Born(child, _) => Born(child, true)
    case AwaitReady => Discarding
    case AwaitReply(_) => Discarding
    case Discarding => Discarding
    case Ended(result) => Ended(result)
  }

  function Stopped(s: Slot, i: nat): Slot
    requires i < |s.operations|
  {
    InPhase(s, i, StoppedPhase(s.operations[i].phase))
  }

  function ReadyFrame(m: Model): seq<Byte> {
    READY + m.revision
  }

  predicate CanBeReady(m: Model, s: Slot, i: nat) {
    && i < |s.operations| && s.operations[i].phase == AwaitReady && s.process.Some?
    && s.process.value.taken <= |s.process.value.output|
    && ReadyFrame(m) <= s.process.value.output[s.process.value.taken..]
  }

  function Readied(m: Model, s: Slot, i: nat, nonce: seq<Byte>, deadline: nat): Slot
    requires CanBeReady(m, s, i)
  {
    var child := s.process.value;
    Started(s.(process := Some(child.(taken := child.taken + |ReadyFrame(m)|))), i, nonce, deadline)
  }

  ghost predicate CanReply(s: Slot, i: nat, text: string) {
    && i < |s.operations| && s.operations[i].phase.AwaitReply? && s.process.Some?
    && s.process.value.taken <= |s.process.value.output|
    && ReadReply(s.operations[i].phase.request.nonce, s.process.value.output[s.process.value.taken..]) == Ok(text)
  }

  function Replied(s: Slot, i: nat, text: string): Slot
    requires i < |s.operations| && s.operations[i].phase.AwaitReply? && s.process.Some?
  {
    var child := s.process.value;
    var frame := EncodeReply(s.operations[i].phase.request.nonce, text);
    Finished(s, i, Ok(Some(text))).(process := Some(child.(taken := child.taken + |frame|)))
  }

  predicate CanReap(s: Slot, i: nat) {
    i < |s.operations| && s.operations[i].phase == Discarding && s.process.Some?
  }

  /** The child is gone; only with its scratch cleared may another one ever follow. */
  function ReapedSlot(s: Slot, cleared: bool): Slot
    requires s.process.Some?
  {
    s.(process := None, alive := s.alive - {s.process.value.id}, scratchEmpty := s.scratchEmpty || cleared,
    closed := s.closed || !cleared)
  }

  function Reaped(s: Slot, i: nat, cleared: bool): Slot
    requires CanReap(s, i)
  {
    Finished(ReapedSlot(s, cleared), i, Err(if cleared then Canceled else ScratchNotCleared))
  }

  function ReapFails(s: Slot, i: nat): Slot
    requires CanReap(s, i)
  {
    Finished(s.(closed := true), i, Err(NotReaped))
  }

  // ----- the child -----

  /** Everything an honest child can have written once `sent` has been written to it. */
  ghost function Stream(m: Model, sent: seq<Request>): seq<Byte> {
    ReadyFrame(m) + ServedReplies(m.worker, sent)
  }

  /**
    `output` is some front of what the serving loop writes when some front of the encoded requests
    has reached it, whatever its clock has shown.
  */
  ghost predicate ServedOutput(m: Model, sent: seq<Request>, output: seq<Byte>) {
    exists now, input ::
      && input <= EncodeRequests(m.worker.hash, sent)
      && output <= ReadyFrame(m) + Serve(Worker(m.worker.hash, m.worker.answer, now), input, 0).output
  }

  /** An honest child runs the serving loop; any other one writes what it likes. */
  ghost predicate CanWrite(m: Model, s: Slot, bytes: seq<Byte>) {
    && s.process.Some?
    && var child := s.process.value;
       child.honest ==> ServedOutput(m, child.sent, child.output + bytes)
  }

  function ChildWrote(s: Slot, bytes: seq<Byte>): Slot
    requires s.process.Some?
  {
    s.(process := Some(s.process.value.(output := s.process.value.output + bytes)))
  }

  /** A child that is alive may leave files in the scratch directory. */
  function ScratchUsed(s: Slot): Slot {
    s.(scratchEmpty := false)
  }

  // ----- closing -----

  function CloseBegun(s: Slot): Slot {
    s.(closed := true, closer := Draining,
    operations := seq(|s.operations|, i requires 0 <= i < |s.operations| =>
      s.operations[i].(phase := StoppedPhase(s.operations[i].phase))))
  }

  predicate CanCloseBegin(s: Slot) {
    s.closer == NotClosing || s.closer.Closed?
  }

  predicate AllEnded(s: Slot) {
    forall i :: 0 <= i < |s.operations| ==> s.operations[i].phase.Ended?
  }

  predicate CanDrain(s: Slot) {
    s.closer == Draining && AllEnded(s) && s.holder == Free
  }

  function Drained(s: Slot): Slot {
    if s.process.None? then s.(closer := Closed(true)) else s.(holder := ByCloser, closer := Reaping)
  }

  predicate CanCloserReap(s: Slot) {
    s.closer == Reaping && s.process.Some?
  }

  function CloserReaped(s: Slot, cleared: bool): Slot
    requires CanCloserReap(s)
  {
    ReapedSlot(s, cleared).(holder := Free, closer := Closed(cleared))
  }

  function CloserFails(s: Slot): Slot {
    s.(holder := Free, closer := Closed(false), closed := true)
  }

  // ----- one step -----

  datatype Event =
    | Call(video: Option<seq<Byte>>)
    | Acquire(op: nat, nonce: seq<Byte>, deadline: nat)
    | Birth(op: nat, honest: bool)
    | NoBirth(op: nat)
    | Adopt(op: nat)
    | Stop(op: nat)
    | Ready(op: nat, nonce: seq<Byte>, deadline: nat)
    | Reply(op: nat, text: string)
    | Reap(op: nat, cleared: bool)
    | NoReap(op: nat)
    | Write(bytes: seq<Byte>)
    | UseScratch
    | BeginClose
    | Drain
    | CloserReap(cleared: bool)
    | CloserNoReap

  ghost predicate Enabled(m: Model, s: Slot, e: Event) {
    match e
    case Call(video) => CanRequest(s, video)
    case Acquire(i, nonce, deadline) => CanAcquire(s, i) && FreshRequest(nonce, deadline)
    case Birth(i, _) => CanBeBorn(s, i)
    case NoBirth(i) => CanBeBorn(s, i)
    case Adopt(i) => CanAdopt(s, i)
    case Stop(i) => i < |s.operations|
    case Ready(i, nonce, deadline) => CanBeReady(m, s, i) && FreshRequest(nonce, deadline)
    case Reply(i, text) => CanReply(s, i, text)
    case Reap(i, _) => CanReap(s, i)
    case NoReap(i) => CanReap(s, i)
    case Write(bytes) => CanWrite(m, s, bytes)
    case UseScratch => s.alive != {}
    case BeginClose => CanCloseBegin(s)
    case Drain => CanDrain(s)
    case CloserReap(_) => CanCloserReap(s)
    case CloserNoReap => CanCloserReap(s)
  }

  ghost function After(m: Model, s: Slot, e: Event): Slot
    requires Enabled(m, s, e)
  {
    match e
    case Call(video) => Requested(s, video)
    case Acquire(i, nonce, deadline) => Acquired(s, i, nonce, deadline)
    case Birth(i, honest) => ChildBorn(s, i, honest)
    case NoBirth(i) => CreationFails(s, i)
    case Adopt(i) => Adopted(s, i)
    case Stop(i) => Stopped(s, i)
    case Ready(i, nonce, deadline) => Readied(m, s, i, nonce, deadline)
    case Reply(i, text) => Replied(s, i, text)
    case Reap(i, cleared) => Reaped(s, i, cleared)
    case NoReap(i) => ReapFails(s, i)
    case Write(bytes) => ChildWrote(s, bytes)
    case UseScratch => ScratchUsed(s)
    case BeginClose => CloseBegun(s)
    case Drain => Drained(s)
    case CloserReap(cleared) => CloserReaped(s, cleared)
    case CloserNoReap => CloserFails(s)
  }

  /** The slot after its constructor has claimed an empty scratch directory. */
  function NewSlot(): Slot {
    Slot(None, false, Free, [], NotClosing, true, {}, 0)
  }

  ghost predicate Run(m: Model, run: seq<Slot>, events: seq<Event>) {
    && m.Valid() && |run| == |events| + 1 && run[0] == NewSlot()
    && forall i :: 0 <= i < |events| ==> Enabled(m, run[i], events[i]) && run[i + 1] == After(m, run[i], events[i])
  }

  // ----- the invariant -----

  predicate Busy(phase: Phase) {
    !phase.Queued? && !phase.Ended?
  }

  /** Exactly the holder of the lock is in the middle of something. */
  ghost predicate LockFits(s: Slot) {
    && (forall i :: 0 <= i < |s.operations| ==> (Busy(s.operations[i].phase) <==> s.holder == Held(i)))
    && (s.holder.Held? ==> s.holder.op < |s.operations|)
    && (s.holder == ByCloser <==> s.closer == Reaping)
    && (s.closer != NotClosing ==> s.closed)
    && (s.closer == Reaping || s.closer.Closed? ==> AllEnded(s))
  }

  predicate Newborn(s: Slot) {
    s.holder.Held? && s.holder.op < |s.operations| && s.operations[s.holder.op].phase.Born?
  }

  /** There is one child at most: the recorded one, or one that is about to be recorded. */
  ghost predicate ChildrenFit(s: Slot) {
    && s.alive == (if s.process.Some? then {s.process.value.id}
                   else if Newborn(s) then {s.operations[s.holder.op].phase.child.id} else {})
    && (forall id :: id in s.alive ==> id < s.nextChild)
    && (s.holder == ByCloser ==> s.process.Some?)
    && (s.holder.Held? && s.holder.op < |s.operations| ==>
          var phase := s.operations[s.holder.op].phase;
          && (phase.Creating? || phase.Born? ==> s.process.None?)
          && (phase.Creating? ==> s.scratchEmpty)
          && (phase.Born? ==> phase.child == Child(phase.child.id, phase.child.honest, [], [], 0))
          && (phase.AwaitReady? || phase.AwaitReply? || phase.Discarding? ==> s.process.Some?))
    && (s.process.None? && !s.closed && !s.holder.Held? ==> s.scratchEmpty)
  }

  /** Every reply that could be expected of this child has been read. */
  ghost predicate Quiet(m: Model, child: Child) {
    && (forall i :: 0 <= i < |child.sent| ==> Answerable(m.worker, child.sent[i]))
    && child.taken == |Stream(m, child.sent)|
  }

  /** How far the conversation with the child has come, by what the holder of the lock is doing. */
  ghost predicate PipesFit(m: Model, s: Slot) {
    s.process.Some? ==>
      var child := s.process.value;
      && child.taken <= |child.output|
      && (child.honest ==> child.output <= Stream(m, child.sent))
      && (s.holder == Free && !s.closed && child.honest ==> Quiet(m, child))
      && (s.holder.Held? && s.holder.op < |s.operations| ==>
            var op := s.operations[s.holder.op];
            && (op.phase.AwaitReady? ==> child.sent == [] && child.taken == 0)
            && (op.phase.AwaitReply? ==>
                  && child.sent != [] && child.sent[|child.sent| - 1] == op.phase.request
                  && op.video == Some(op.phase.request.video) && |op.phase.request.nonce| == 32
                  && (child.honest ==> Quiet(m, child.(sent := child.sent[..|child.sent| - 1])))))
  }

  /** The requests written to the recorded child. */
  function Sent(s: Slot): seq<Request> {
    if s.process.Some? then s.process.value.sent else []
  }

  /** Every request written to the child is one the protocol can carry. */
  ghost predicate RequestsFit(s: Slot) {
    VideosFit(s.operations) && AllFit(Sent(s))
  }

  ghost predicate VideosFit(operations: seq<Operation>) {
    forall i :: 0 <= i < |operations| && operations[i].video.Some? ==> 0 < |operations[i].video.value| <= VIDEO_LIMIT
  }

  /** Unless it is being closed, a slot in which a child is being created or used is open. */
  ghost predicate OpenWhileWorking(s: Slot) {
    s.closer == NotClosing && s.closed ==> NothingUnderWay(s)
  }

  ghost predicate NothingUnderWay(s: Slot) {
    && NothingCreated(s)
    && forall i :: 0 <= i < |s.operations| ==> !s.operations[i].phase.AwaitReady? && !s.operations[i].phase.AwaitReply?
  }

  ghost predicate NothingCreated(s: Slot) {
    forall i :: 0 <= i < |s.operations| ==> !s.operations[i].phase.Creating? && !s.operations[i].phase.Born?
  }

  ghost predicate Inv(m: Model, s: Slot) {
    LockFits(s) && ChildrenFit(s) && RequestsFit(s) && OpenWhileWorking(s) && PipesFit(m, s)
  }

  // ----- every step keeps it -----

  /** The holder moves on, or an operation takes or leaves the lock. */
  ghost predicate OneMoves(s: Slot, s': Slot, i: nat) {
    && i < |s.operations| && !s.operations[i].phase.Ended?
    && (s.holder == Held(i) || (s.holder == Free && !Busy(s.operations[i].phase)))
    && |s'.operations| == |s.operations|
    && (forall k :: 0 <= k < |s.operations| && k != i ==> s'.operations[k] == s.operations[k])
    && s'.holder == (if Busy(s'.operations[i].phase) then Held(i) else Free)
    && s'.closer == s.closer && (s.closed ==> s'.closed)
  }

  lemma OneMovesKeepsLock(s: Slot, s': Slot, i: nat)
    requires LockFits(s) && OneMoves(s, s', i)
    ensures LockFits(s')
  {
    hide Busy;
  }

  /** The operation an event belongs to. */
  function Mover(e: Event): Option<nat> {
    match e
    case Acquire(i, _, _) => Some(i)
    case Birth(i, _) => Some(i)
    case NoBirth(i) => Some(i)
    case Adopt(i) => Some(i)
    case Ready(i, _, _) => Some(i)
    case Reply(i, _) => Some(i)
    case Reap(i, _) => Some(i)
    case NoReap(i) => Some(i)
    case _ => None
  }

  lemma MoverMoves(m: Model, s: Slot, e: Event)
    requires LockFits(s) && ChildrenFit(s) && Enabled(m, s, e) && Mover(e).Some?
    ensures OneMoves(s, After(m, s, e), Mover(e).value)
  {
    hide FreshRequest, EncodeReply, ReadyFrame, ReadReply;
  }

  lemma StepKeepsLock(m: Model, s: Slot, e: Event)
    requires LockFits(s) && ChildrenFit(s) && Enabled(m, s, e)
    ensures LockFits(After(m, s, e))
  {
    hide CanReply, CanWrite, FreshRequest, EncodeReply, ReadyFrame, ChildrenFit;
    if Mover(e).Some? {
      MoverMoves(m, s, e);
      hide After, Enabled, LockFits, OneMoves;
      OneMovesKeepsLock(s, After(m, s, e), Mover(e).value);
    } else {
      OtherKeepsLock(m, s, e);
    }
  }

  lemma OtherKeepsLock(m: Model, s: Slot, e: Event)
    requires LockFits(s) && Enabled(m, s, e) && Mover(e).None?
    ensures LockFits(After(m, s, e))
  {
    hide CanReply, CanWrite, FreshRequest, EncodeReply, ReadyFrame;
    match e {
      case BeginClose =>
      case Stop(i) =>
      case _ =>
    }
  }

  lemma StepKeepsChildren(m: Model, s: Slot, e: Event)
    requires LockFits(s) && ChildrenFit(s) && Enabled(m, s, e)
    ensures ChildrenFit(After(m, s, e))
  {
    hide CanReply, Stream, FreshRequest, EncodeReply, ReadyFrame, CanBeReady;
    if Mover(e).Some? {
      MoverKeepsChildren(m, s, e);
    } else {
      match e {
        case BeginClose =>
        case Stop(i) =>
        case _ =>
      }
    }
  }

  lemma MoverKeepsChildren(m: Model, s: Slot, e: Event)
    requires LockFits(s) && ChildrenFit(s) && Enabled(m, s, e) && Mover(e).Some?
    ensures ChildrenFit(After(m, s, e))
  {
    hide FreshRequest, EncodeReply, ReadyFrame, ReadReply;
    match e {
      case Acquire(i, nonce, deadline) =>
      case Birth(i, honest) =>
      case Adopt(i) =>
      case _ =>
    }
  }

  lemma StartKeepsVideos(s: Slot, i: nat, nonce: seq<Byte>, deadline: nat)
    requires i < |s.operations| && s.process.Some? && VideosFit(s.operations)
    ensures VideosFit(Started(s, i, nonce, deadline).operations)
  {
  }

  lemma StepKeepsVideos(m: Model, s: Slot, e: Event)
    requires VideosFit(s.operations) && Enabled(m, s, e)
    ensures VideosFit(After(m, s, e).operations)
  {
    hide FreshRequest, ReadReply, ServedOutput, EncodeReply, ReadyFrame, Started;
    match e {
      case Acquire(i, nonce, deadline) =>
        if !s.closed && s.process.Some? {
          StartKeepsVideos(s, i, nonce, deadline);
        }
      case Ready(i, nonce, deadline) =>
        var child := s.process.value;
        StartKeepsVideos(s.(process := Some(child.(taken := child.taken + |ReadyFrame(m)|))), i, nonce, deadline);
      case BeginClose =>
      case Stop(i) =>
      case _ =>
    }
  }

  lemma StartKeepsSent(s: Slot, i: nat, nonce: seq<Byte>, deadline: nat)
    requires i < |s.operations| && s.process.Some? && AllFit(Sent(s))
    requires VideosFit(s.operations) && FreshRequest(nonce, deadline)
    ensures AllFit(Sent(Started(s, i, nonce, deadline)))
  {
    hide Power;
  }

  lemma AcquireKeepsSent(m: Model, s: Slot, i: nat, nonce: seq<Byte>, deadline: nat)
    requires AllFit(Sent(s)) && VideosFit(s.operations) && Enabled(m, s, Acquire(i, nonce, deadline))
    ensures AllFit(Sent(Acquired(s, i, nonce, deadline)))
  {
    hide AllFit, VideosFit, Started, FreshRequest;
    if !s.closed && s.process.Some? {
      StartKeepsSent(s, i, nonce, deadline);
    }
  }

  lemma ReadyKeepsSent(m: Model, s: Slot, i: nat, nonce: seq<Byte>, deadline: nat)
    requires AllFit(Sent(s)) && VideosFit(s.operations) && Enabled(m, s, Ready(i, nonce, deadline))
    ensures AllFit(Sent(Readied(m, s, i, nonce, deadline)))
  {
    hide AllFit, VideosFit, Started, FreshRequest, ReadyFrame;
    var child := s.process.value;
    StartKeepsSent(s.(process := Some(child.(taken := child.taken + |ReadyFrame(m)|))), i, nonce, deadline);
  }

  lemma OthersSendNothing(m: Model, s: Slot, e: Event)
    requires LockFits(s) && ChildrenFit(s) && Enabled(m, s, e) && !e.Acquire? && !e.Ready?
    ensures Sent(After(m, s, e)) == Sent(s) || Sent(After(m, s, e)) == []
  {
    hide ReadReply, ServedOutput, EncodeReply, ReadyFrame;
    match e {
      case Adopt(i) =>
      case _ =>
    }
  }

  lemma StepKeepsRequests(m: Model, s: Slot, e: Event)
    requires LockFits(s) && ChildrenFit(s) && RequestsFit(s) && Enabled(m, s, e)
    ensures RequestsFit(After(m, s, e))
  {
    hide LockFits, ChildrenFit, VideosFit, Enabled, Acquired, Readied, CanAcquire, CanBeReady;
    StepKeepsVideos(m, s, e);
    match e {
      case Acquire(i, nonce, deadline) => AcquireKeepsSent(m, s, i, nonce, deadline);
      case Ready(i, nonce, deadline) => ReadyKeepsSent(m, s, i, nonce, deadline);
      case _ => OthersSendNothing(m, s, e);
    }
  }

  /** Only the holder of the lock can close the slot on its own, and then it is discarding a child. */
  lemma StepKeepsOpenWhileWorking(m: Model, s: Slot, e: Event)
    requires LockFits(s) && OpenWhileWorking(s) && Enabled(m, s, e)
    ensures OpenWhileWorking(After(m, s, e))
  {
    hide ReadReply, ServedOutput, FreshRequest, EncodeReply, ReadyFrame;
    match e {
      case BeginClose =>
      case Stop(i) =>
      case _ =>
    }
  }

  // ----- the conversation with a child -----

  /** Which replies the loop can get to does not depend on the clock; whether it gets there does. */
  lemma {:induction false} ClockDecidesNoReply(w: Worker, now: nat -> int, sent: seq<Request>)
    ensures ServedReplies(Worker(w.hash, w.answer, now), sent) == ServedReplies(w, sent)
  {
    hide EncodeReply, Blank, EncodeAll;
    if sent != [] {
      ClockDecidesNoReply(w, now, sent[1..]);
    }
  }

  /** What an honest child writes is the readiness frame and replies to the requests sent to it, in order. */
  lemma ServingWritesTheStream(m: Model, sent: seq<Request>, output: seq<Byte>)
    requires m.Valid() && AllFit(sent) && ServedOutput(m, sent, output)
    ensures output <= Stream(m, sent)
  {
    hide Serve, AllFit, ServedReplies, ReadyFrame, EncodeRequests;
    var now, input :|
      && input <= EncodeRequests(m.worker.hash, sent)
      && output <= ReadyFrame(m) + Serve(Worker(m.worker.hash, m.worker.answer, now), input, 0).output;
    var w := Worker(m.worker.hash, m.worker.answer, now);
    WorkerWritesOnlyReplies(w, sent, input, 0);
    ClockDecidesNoReply(m.worker, now, sent);
  }

  lemma {:induction false} ServedRepliesGrow(w: Worker, sent: seq<Request>, r: Request)
    requires forall i :: 0 <= i < |sent| ==> Answerable(w, sent[i])
    ensures ServedReplies(w, sent + [r])
            == ServedReplies(w, sent)
              + (if Answerable(w, r) then EncodeReply(r.nonce, w.answer(r.video, r.deadline)) else [])
  {
    hide EncodeReply, Answerable;
    if sent == [] {
      assert [r][1..] == [];
      assert ServedReplies(w, [r][1..]) == [];
      assert sent + [r] == [r];
    } else {
      ServedRepliesGrow(w, sent[1..], r);
      assert (sent + [r])[1..] == sent[1..] + [r];
    }
  }

  lemma StreamGrows(m: Model, sent: seq<Request>, r: Request)
    requires forall i :: 0 <= i < |sent| ==> Answerable(m.worker, sent[i])
    ensures Stream(m, sent + [r])
            == Stream(m, sent)
              + (if Answerable(m.worker, r) then EncodeReply(r.nonce, m.worker.answer(r.video, r.deadline)) else [])
  {
    hide EncodeReply, Answerable, ServedReplies, ReadyFrame;
    ServedRepliesGrow(m.worker, sent, r);
  }

  lemma AnswerableIsCarried(w: Worker, r: Request)
    requires Answerable(w, r)
    ensures Carried(w.answer(r.video, r.deadline))
  {
    hide Encode;
  }

  /** An honest child's next accepted text is its answer to the last request, and then nothing is left to read. */
  lemma HonestReply(m: Model, child: Child, front: seq<Request>, r: Request, text: string)
    requires child.honest && child.sent == front + [r] && |r.nonce| == 32
    requires child.output <= Stream(m, child.sent) && Quiet(m, child.(sent := front)) && child.taken <= |child.output|
    requires ReadReply(r.nonce, child.output[child.taken..]) == Ok(text)
    ensures text == m.worker.answer(r.video, r.deadline)
    ensures Quiet(m, child.(taken := child.taken + |EncodeReply(r.nonce, text)|))
  {
    hide ReadReply, EncodeReply, Answerable, Stream, Carried;
    AcceptsExactlyTheEchoedReply(r.nonce, child.output[child.taken..], text);
    StreamGrows(m, front, r);
    ReplyIsNotEmpty(r.nonce, text);
    var answer := m.worker.answer(r.video, r.deadline);
    var last := if Answerable(m.worker, r) then EncodeReply(r.nonce, answer) else [];
    assert child.output[child.taken..] <= Stream(m, child.sent)[child.taken..] == last;
    assert Answerable(m.worker, r);
    AnswerableIsCarried(m.worker, r);
    RepliesArePrefixFree(r.nonce, text, answer);
  }

  lemma ReplyIsNotEmpty(nonce: seq<Byte>, text: string)
    ensures EncodeReply(nonce, text) != []
  {
  }

  lemma AcceptedReplyIsThere(nonce: seq<Byte>, stream: seq<Byte>, text: string)
    requires |nonce| == 32 && ReadReply(nonce, stream) == Ok(text)
    ensures |EncodeReply(nonce, text)| <= |stream|
  {
    hide ReadReply, EncodeReply, Carried;
    AcceptsExactlyTheEchoedReply(nonce, stream, text);
  }

  /** Writing a request to a quiet child. */
  lemma StartKeepsPipes(m: Model, s: Slot, i: nat, nonce: seq<Byte>, deadline: nat)
    requires i < |s.operations| && s.process.Some? && FreshRequest(nonce, deadline)
    requires
      var child := s.process.value;
      child.taken <= |child.output| && (child.honest ==> child.output <= Stream(m, child.sent) && Quiet(m, child))
    ensures PipesFit(m, Started(s, i, nonce, deadline))
  {
    hide Stream, Answerable, Power;
    var child := s.process.value;
    if s.operations[i].video.Some? {
      var r := Request(nonce, s.operations[i].video.value, deadline);
      if child.honest {
        StreamGrows(m, child.sent, r);
      }
      assert (child.sent + [r])[..|child.sent + [r]| - 1] == child.sent;
    }
  }

  lemma ReadyKeepsPipes(m: Model, s: Slot, i: nat, nonce: seq<Byte>, deadline: nat)
    requires LockFits(s) && PipesFit(m, s) && CanBeReady(m, s, i) && FreshRequest(nonce, deadline)
    ensures PipesFit(m, Readied(m, s, i, nonce, deadline))
  {
    hide Power, Answerable, EncodeReply, ReadyFrame;
    var child := s.process.value;
    assert s.holder == Held(i);
    assert Stream(m, []) == ReadyFrame(m);
    hide Stream;
    StartKeepsPipes(m, s.(process := Some(child.(taken := child.taken + |ReadyFrame(m)|))), i, nonce, deadline);
  }

  lemma ReplyKeepsPipes(m: Model, s: Slot, i: nat, text: string)
    requires LockFits(s) && PipesFit(m, s) && CanReply(s, i, text)
    ensures PipesFit(m, Replied(s, i, text))
    ensures
      var r := s.operations[i].phase.request;
      s.process.value.honest ==> text == m.worker.answer(r.video, r.deadline)
    ensures s.operations[i].video == Some(s.operations[i].phase.request.video)
  {
    hide Stream, ReadReply, EncodeReply, Quiet;
    var child, r := s.process.value, s.operations[i].phase.request;
    assert s.holder == Held(i);
    AcceptedReplyIsThere(r.nonce, child.output[child.taken..], text);
    if child.honest {
      var front := child.sent[..|child.sent| - 1];
      assert child.sent == front + [r];
      HonestReply(m, child, front, r, text);
    }
  }

  lemma StepKeepsPipes(m: Model, s: Slot, e: Event)
    requires m.Valid() && Inv(m, s) && Enabled(m, s, e)
    ensures PipesFit(m, After(m, s, e))
  {
    hide Model.Valid, RequestsFit, OpenWhileWorking, ServedOutput, Stream, ReadReply, EncodeReply, ReadyFrame, Quiet;
    match e {
      case Acquire(i, nonce, deadline) =>
        if !s.closed && s.process.Some? {
          StartKeepsPipes(m, s, i, nonce, deadline);
        }
      case Ready(i, nonce, deadline) =>
        ReadyKeepsPipes(m, s, i, nonce, deadline);
      case Reply(i, text) =>
        ReplyKeepsPipes(m, s, i, text);
      case Write(bytes) =>
        WriteKeepsPipes(m, s, bytes);
      case _ =>
        OtherKeepsPipes(m, s, e);
    }
  }

  lemma WriteKeepsPipes(m: Model, s: Slot, bytes: seq<Byte>)
    requires m.Valid() && RequestsFit(s) && PipesFit(m, s) && CanWrite(m, s, bytes)
    ensures PipesFit(m, ChildWrote(s, bytes))
  {
    hide Stream, ServedOutput, Answerable, Model.Valid;
    var child := s.process.value;
    if child.honest {
      ServingWritesTheStream(m, child.sent, child.output + bytes);
    }
  }

  lemma OtherKeepsPipes(m: Model, s: Slot, e: Event)
    requires Inv(m, s) && Enabled(m, s, e) && !e.Acquire? && !e.Ready? && !e.Reply? && !e.Write?
    ensures PipesFit(m, After(m, s, e))
  {
    hide RequestsFit, OpenWhileWorking, ServedOutput, ReadReply, EncodeReply, ReadyFrame, Answerable, CanReply;
    match e {
      case Adopt(i) => assert Stream(m, []) == ReadyFrame(m) + [];
      case Stop(i) =>
      case BeginClose =>
      case _ =>
    }
  }

  lemma StepKeepsInv(m: Model, s: Slot, e: Event)
    requires m.Valid() && Inv(m, s) && Enabled(m, s, e)
    ensures Inv(m, After(m, s, e))
  {
    hide Model.Valid, Enabled, After, LockFits, ChildrenFit, RequestsFit, OpenWhileWorking, PipesFit;
    StepKeepsLock(m, s, e);
    StepKeepsChildren(m, s, e);
    StepKeepsRequests(m, s, e);
    StepKeepsOpenWhileWorking(m, s, e);
    StepKeepsPipes(m, s, e);
  }

  lemma {:induction false} EveryRunKeepsInv(m: Model, run: seq<Slot>, events: seq<Event>, n: nat)
    requires Run(m, run, events) && n < |run|
    ensures Inv(m, run[n])
  {
    hide Enabled, After;
    if n != 0 {
      hide LockFits, ChildrenFit, RequestsFit, OpenWhileWorking, PipesFit;
      EveryRunKeepsInv(m, run, events, n - 1);
      StepKeepsInv(m, run[n - 1], events[n - 1]);
    }
  }

  // ----- the properties -----

  /** There is never more than one live process. */
  lemma AtMostOneProcess(m: Model, run: seq<Slot>, events: seq<Event>, n: nat)
    requires Run(m, run, events) && n < |run|
    ensures |run[n].alive| <= 1
    ensures run[n].process.Some? ==> run[n].alive == {run[n].process.value.id}
  {
    hide Run, LockFits, PipesFit;
    EveryRunKeepsInv(m, run, events, n);
  }

  /**
    A child is created only when every earlier one has been reaped and the scratch directory has
    been cleared, and never once a cleanup has been left uncertain.
  */
  lemma ReplacementNeedsCleanup(m: Model, run: seq<Slot>, events: seq<Event>, n: nat)
    requires Run(m, run, events) && n < |events| && events[n].Birth?
    ensures run[n].alive == {} && run[n].process == None && run[n].scratchEmpty
  {
    hide After, PipesFit;
    EveryRunKeepsInv(m, run, events, n);
    assert Enabled(m, run[n], events[n]);
  }

  /** Creation itself is begun only by an open slot. */
  lemma ClosedNeverCreates(m: Model, s: Slot, e: Event, i: nat)
    requires Inv(m, s) && Enabled(m, s, e) && s.closed
    ensures After(m, s, e).closed
    ensures |After(m, s, e).operations| == |s.operations|
    ensures i < |s.operations| && After(m, s, e).operations[i].phase.Creating? ==> s.operations[i].phase.Creating?
  {
    hide PipesFit, ChildrenFit, ReadReply, ServedOutput, EncodeReply, ReadyFrame, FreshRequest;
    match e {
      case Stop(k) =>
      case BeginClose =>
      case _ =>
    }
  }

  /**
    The text returned for a video is the honest answer for that very video and the deadline sent
    with it, whatever was timed out, canceled or garbled before on this slot.
  */
  lemma ReturnedTextIsTheAnswer(m: Model, run: seq<Slot>, events: seq<Event>, n: nat)
    requires Run(m, run, events) && n < |events| && events[n].Reply?
    ensures
      var op := events[n].op;
      && run[n].process.Some? && op < |run[n].operations| && run[n].operations[op].phase.AwaitReply?
      && var r := run[n].operations[op].phase.request;
         && run[n].operations[op].video == Some(r.video)
         && run[n + 1].operations[op].phase == Ended(Ok(Some(events[n].text)))
         && (run[n].process.value.honest ==> events[n].text == m.worker.answer(r.video, r.deadline))
  {
    hide PipesFit, ChildrenFit, LockFits, ReadReply, EncodeReply;
    EveryRunKeepsInv(m, run, events, n);
    assert Enabled(m, run[n], events[n]);
    ReplyKeepsPipes(m, run[n], events[n].op, events[n].text);
  }

  /** No step but a reply gives a caller text. */
  lemma TextComesOnlyFromReplies(m: Model, s: Slot, e: Event, i: nat, text: string)
    requires Enabled(m, s, e) && i < |After(m, s, e).operations|
    requires After(m, s, e).operations[i].phase == Ended(Ok(Some(text)))
    ensures (i < |s.operations| && s.operations[i].phase == Ended(Ok(Some(text)))) || e == Reply(i, text)
  {
    hide ReadReply, ServedOutput, EncodeReply, ReadyFrame, FreshRequest;
    match e {
      case Stop(k) =>
      case BeginClose =>
      case _ =>
    }
  }

  /** A closed slot in which no creation is under way never gains a process. */
  lemma ClosedGainsNoProcess(m: Model, s: Slot, e: Event)
    requires LockFits(s) && Enabled(m, s, e) && s.closed && s.process == None && NothingCreated(s)
    ensures After(m, s, e).process == None && NothingCreated(After(m, s, e))
  {
    hide ReadReply, ServedOutput, EncodeReply, ReadyFrame, FreshRequest;
    match e {
      case Stop(k) =>
      case BeginClose =>
      case _ =>
    }
  }

  /** Until `close` is called, a slot never reopens, and a closed one does not gain a process. */
  lemma ClosedGainsNoProcessBeforeClose(m: Model, s: Slot, e: Event)
    requires LockFits(s) && OpenWhileWorking(s) && Enabled(m, s, e) && s.closer == NotClosing && !e.BeginClose?
    ensures
      var s' := After(m, s, e);
      && s'.closer == NotClosing && (s.closed ==> s'.closed)
      && (s'.process.Some? ==> s.process.Some? || !s.closed)
  {
    hide ReadReply, ServedOutput, EncodeReply, ReadyFrame, FreshRequest;
    match e {
      case Stop(k) =>
      case _ =>
    }
  }

  /** With no operation under way, only a call or `close` changes what the service can tell of the slot. */
  lemma IdleSlotStaysIdle(m: Model, s: Slot, e: Event)
    requires LockFits(s) && AllEnded(s) && Enabled(m, s, e) && s.closer == NotClosing && !e.BeginClose? && !e.Call?
    ensures
      var s' := After(m, s, e);
      && AllEnded(s') && s'.operations == s.operations && s'.closer == NotClosing
      && s'.closed == s.closed && s'.process.Some? == s.process.Some?
  {
    hide ReadReply, ServedOutput, EncodeReply, ReadyFrame, FreshRequest;
    match e {
      case Stop(k) =>
      case _ =>
    }
  }

  /** An operation that has just succeeded leaves an open slot with a child. */
  lemma SuccessLeavesItReady(m: Model, s: Slot, e: Event, i: nat)
    requires LockFits(s) && OpenWhileWorking(s) && Enabled(m, s, e) && s.closer == NotClosing && !e.BeginClose?
    requires i < |After(m, s, e).operations| && After(m, s, e).operations[i].phase.Ended?
    requires After(m, s, e).operations[i].phase.result.Ok? && !(i < |s.operations| && s.operations[i].phase.Ended?)
    ensures After(m, s, e).process.Some? && !After(m, s, e).closed
  {
    hide ReadReply, ServedOutput, EncodeReply, ReadyFrame, FreshRequest;
    match e {
      case Stop(k) =>
      case _ =>
    }
  }

  /** A `close` that has begun goes on to its end. */
  lemma CloseGoesOn(m: Model, s: Slot, e: Event)
    requires Enabled(m, s, e) && s.closer != NotClosing && !e.BeginClose?
    ensures After(m, s, e).closer != NotClosing && (s.closer.Closed? ==> After(m, s, e).closer == s.closer)
  {
    hide ReadReply, ServedOutput, EncodeReply, ReadyFrame, FreshRequest;
  }

  /** Shut down for good: closed, no child, and nobody who could still create one. */
  ghost predicate Dead(s: Slot) {
    s.closed && s.process == None && s.alive == {} && AllEnded(s) && s.holder == Free
  }

  lemma CloseLeavesItDead(m: Model, run: seq<Slot>, events: seq<Event>, n: nat)
    requires Run(m, run, events) && n < |events|
    requires run[n + 1].closer == Closed(true) && run[n].closer != Closed(true)
    ensures Dead(run[n + 1])
  {
    hide PipesFit, ReadReply, ServedOutput, EncodeReply, ReadyFrame, FreshRequest;
    EveryRunKeepsInv(m, run, events, n);
    assert Enabled(m, run[n], events[n]) && run[n + 1] == After(m, run[n], events[n]);
    DeadWhenClosed(m, run[n], events[n]);
  }

  lemma DeadWhenClosed(m: Model, s: Slot, e: Event)
    requires LockFits(s) && ChildrenFit(s) && Enabled(m, s, e)
    requires After(m, s, e).closer == Closed(true) && s.closer != Closed(true)
    ensures Dead(After(m, s, e))
  {
    hide ReadReply, ServedOutput, EncodeReply, ReadyFrame, FreshRequest;
  }

  lemma DeadStaysDead(m: Model, s: Slot, e: Event)
    requires Dead(s) && LockFits(s) && Enabled(m, s, e)
    ensures Dead(After(m, s, e))
  {
    hide ReadReply, ServedOutput, EncodeReply, ReadyFrame, FreshRequest;
    match e {
      case Stop(k) =>
      case BeginClose =>
      case _ =>
    }
  }

  /** Once `close` has returned without an error, the slot has no process and never has one again. */
  lemma {:induction false} ClosedForGood(m: Model, run: seq<Slot>, events: seq<Event>, n: nat, later: nat)
    requires Run(m, run, events) && n < |events| && n < later < |run|
    requires run[n + 1].closer == Closed(true) && run[n].closer != Closed(true)
    ensures Dead(run[later])
  {
    hide Enabled, After, Dead, PipesFit, ChildrenFit, LockFits;
    if later == n + 1 {
      CloseLeavesItDead(m, run, events, n);
    } else {
      ClosedForGood(m, run, events, n, later - 1);
      EveryRunKeepsInv(m, run, events, later - 1);
      DeadStaysDead(m, run[later - 1], events[later - 1]);
    }
  }
}
