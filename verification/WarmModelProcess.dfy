/**
  The slot object as the service holds it. Its methods are the pieces of its coroutines between two
  waits; each is one step of `WorkerProcess`, so every property of its runs is one of this object.
*/
module WarmModelProcess {
  import opened Outcomes
  import opened Utf8
  import opened WorkerFraming
  import opened WorkerProcess
  import opened WorkerCancellation

  /** Reads and judges one reply. */
  method ReadFrame(nonce: seq<Byte>, stream: seq<Byte>) returns (r: Result<string, ReplyError>)
    ensures r == ReadReply(nonce, stream)
  {
    hide StrictDecode, Value, Blank, EncodeAll, Decode, RESPONSE;
    if |stream| < PREFIX {
      return Err(EndOfReplies);
    }
    if stream[..22] != RESPONSE {
      return Err(WrongMarker);
    }
    var echoed, size := stream[22..54], Value(stream[54..58]);
    if echoed != nonce || !(0 < size <= TEXT_LIMIT) {
      return Err(WrongBinding);
    }
    if |stream| < PREFIX + size {
      return Err(EndOfReplies);
    }
    var body := stream[PREFIX..PREFIX + size];
    var text := DecodeBytes(body);
    StrictDecodeByDecoding(body);
    if EncodeAll(text) != body {
      return Err(NotText);
    }
    return if Blank(text) then Err(EmptyText) else Ok(text);
  }

  lemma StrictDecodeByDecoding(body: seq<Byte>)
    ensures StrictDecode(body) == if EncodeAll(Decode(body)) == body then Some(Decode(body)) else None
  {
    hide Decode, EncodeAll;
    if text :| EncodeAll(text) == body {
      DecodeNothing();
      DecodingInvertsEncoding(text, []);
      assert body + [] == body && text + [] == text;
      StrictDecodeInverts(text);
    }
  }

  class WarmModelProcess {
    ghost const model: Model
    const revision: seq<Byte>
    var process: Option<Child>
    var closed: bool
    var holder: Holder
    var operations: seq<Operation>
    var closer: Closer
    // What the operating system knows: the scratch directory and the children not yet reaped.
    ghost var scratchEmpty: bool
    ghost var alive: set<nat>
    ghost var nextChild: nat

    ghost function View(): Slot
      reads this
    {
      Slot(process, closed, holder, operations, closer, scratchEmpty, alive, nextChild)
    }

    ghost predicate Valid()
      reads this
    {
      revision == model.revision && model.Valid() && Inv(model, View())
    }

    twostate predicate Took(e: Event)
      reads this
    {
      Enabled(model, old(View()), e) && View() == After(model, old(View()), e)
    }

    /** Operation `i` has come into this phase; its video and all other operations are as before. */
    twostate predicate Moved(i: nat, phase: Phase)
      requires i < |old(operations)|
      reads this
    {
      operations == old(operations)[i := Operation(old(operations)[i].video, phase)]
    }

    /** The child, the lock and the flags are as before. */
    twostate predicate OnlyOperations()
      reads this
    {
      process == old(process) && closed == old(closed) && holder == old(holder) && closer == old(closer)
    }

    /** With a ready child a startup is done, and a translation has its request written to the child. */
    twostate predicate Proceeds(i: nat, nonce: seq<Byte>, deadline: nat, child: Child)
      requires i < |old(operations)|
      reads this
    {
      match old(operations)[i].video
      case None => Moved(i, Ended(Ok(None))) && holder == Free && process == Some(child)
      case Some(video) =>
        var request := Request(nonce, video, deadline);
        && Moved(i, AwaitReply(request)) && holder == Held(i)
        && process == Some(Child(child.id, child.honest, child.sent + [request], child.output, child.taken))
    }

    constructor (ghost model: Model, revision: seq<Byte>)
      requires model.Valid() && revision == model.revision
      ensures Valid() && View() == NewSlot() && this.model == model
    {
      this.model, this.revision := model, revision;
      process, closed, holder, operations, closer := None, false, Free, [], NotClosing;
      scratchEmpty, alive, nextChild := true, {}, 0;
    }

    /** A startup or a translation asks for its turn; a closed slot takes no more of them. */
    method Submit(video: Option<seq<Byte>>) returns (op: Result<nat, Failure>)
      requires Valid() && (video.Some? ==> 0 < |video.value| <= VIDEO_LIMIT)
      modifies this
      ensures Valid() && op.Ok? == !old(closed)
      ensures op.Ok? ==> op.value == |old(operations)| && Took(Call(video))
      ensures op.Err? ==> View() == old(View())
      ensures op.Ok? ==> operations == old(operations) + [Operation(video, Queued)] && OnlyOperations()
    {
      hide Inv;
      if closed {
        return Err(ProcessClosed);
      }
      ghost var s := View();
      op := Ok(|operations|);
      operations := operations + [Operation(video, Queued)];
      StepKeepsInv(model, s, Call(video));
    }

    /** The operation has the lock: refuse, create a child, or use the one that is running. */
    method EnterLock(i: nat, nonce: seq<Byte>, deadline: nat)
      requires Valid() && CanAcquire(View(), i) && FreshRequest(nonce, deadline)
      modifies this
      ensures Valid() && Took(Acquire(i, nonce, deadline))
      ensures closed == old(closed) && closer == old(closer)
      ensures old(closed) && old(process).None? ==>
                Moved(i, Ended(Err(ProcessClosed))) && holder == Free && process == None
      ensures old(closed) && old(process).Some? ==>
                Moved(i, Discarding) && holder == Held(i) && process == old(process)
      ensures !old(closed) && old(process).None? ==>
                Moved(i, Creating(false)) && holder == Held(i) && process == None
      ensures !old(closed) && old(process).Some? ==> Proceeds(i, nonce, deadline, old(process).value)
    {
      hide Inv;
      ghost var s := View();
      if closed {
        if process.None? {
          End(i, Err(ProcessClosed));
        } else {
          Move(i, Discarding);
        }
      } else if process.None? {
        Move(i, Creating(false));
      } else {
        Converse(i, nonce, deadline);
      }
      StepKeepsInv(model, s, Acquire(i, nonce, deadline));
    }

    method Move(i: nat, phase: Phase)
      requires i < |operations|
      modifies `operations, `holder
      ensures View() == InPhase(old(View()), i, phase).(holder := Held(i))
    {
      operations := operations[i := operations[i].(phase := phase)];
      holder := Held(i);
    }

    method End(i: nat, result: Result<Option<string>, Failure>)
      requires i < |operations|
      modifies `operations, `holder
      ensures View() == WorkerProcess.Finished(old(View()), i, result)
    {
      operations := operations[i := operations[i].(phase := Ended(result))];
      holder := Free;
    }

    /** With a ready child: done for a startup, otherwise the request goes into the pipe. */
    method Converse(i: nat, nonce: seq<Byte>, deadline: nat)
      requires i < |operations| && process.Some?
      modifies `operations, `holder, `process
      ensures View() == Started(old(View()), i, nonce, deadline)
    {
      if operations[i].video.None? {
        End(i, Ok(None));
      } else {
        var request := Request(nonce, operations[i].video.value, deadline);
        process := Some(process.value.(sent := process.value.sent + [request]));
        Move(i, AwaitReply(request));
      }
    }

    /** The operating system has created the child, or could not. */
    method CreationDone(i: nat, created: bool, id: nat, honest: bool)
      requires Valid() && CanBeBorn(View(), i) && id == nextChild
      modifies this
      ensures Valid() && Took(if created then Birth(i, honest) else NoBirth(i))
      ensures process == old(process) && closed == old(closed) && closer == old(closer)
      ensures created ==>
                Moved(i, Born(Child(id, honest, [], [], 0), old(operations)[i].phase.stopped)) && holder == Held(i)
      ensures !created ==> Moved(i, Ended(Err(CreationFailed))) && holder == Free
    {
      hide Inv;
      ghost var s := View();
      HolderIsBusy(model, s, i);
      if created {
        Move(i, Born(Child(id, honest, [], [], 0), operations[i].phase.stopped));
        alive := alive + {nextChild};
        nextChild := nextChild + 1;
      } else {
        End(i, Err(CreationFailed));
      }
      StepKeepsInv(model, s, if created then Birth(i, honest) else NoBirth(i));
    }

    /** The coroutine resumes and records the child; if it was canceled meanwhile, only to discard it. */
    method RecordChild(i: nat)
      requires Valid() && CanAdopt(View(), i)
      modifies this
      ensures Valid() && Took(Adopt(i))
      ensures closed == old(closed) && closer == old(closer) && holder == Held(i)
      ensures process == Some(old(operations)[i].phase.child)
      ensures Moved(i, if old(operations)[i].phase.stopped then Discarding else AwaitReady)
    {
      hide Inv;
      ghost var s := View();
      HolderIsBusy(model, s, i);
      process := Some(operations[i].phase.child);
      Move(i, if operations[i].phase.stopped then Discarding else AwaitReady);
      StepKeepsInv(model, s, Adopt(i));
    }

    /** A cancellation, a deadline, or an error in the conversation. */
    method Cancel(i: nat)
      requires Valid() && i < |operations|
      modifies this
      ensures Valid() && Took(Stop(i)) && OnlyOperations()
      ensures
        var phase := old(operations)[i].phase;
        && (phase.Queued? ==> Moved(i, Ended(Err(Canceled))))
        && (phase.Creating? ==> Moved(i, Creating(true)))
        && (phase.Born? ==> Moved(i, Born(phase.child, true)))
        && (phase.AwaitReady? || phase.AwaitReply? ==> Moved(i, Discarding))
        && (phase.Discarding? || phase.Ended? ==> operations == old(operations))
    {
      hide Inv;
      ghost var s := View();
      operations := operations[i := operations[i].(phase := StoppedPhase(operations[i].phase))];
      StepKeepsInv(model, s, Stop(i));
    }

    /** The first frame of a new child must be the readiness of the reviewed revision. */
    method ReceiveReadiness(i: nat, nonce: seq<Byte>, deadline: nat)
      requires Valid() && i < |operations| && operations[i].phase == AwaitReady && process.Some?
      requires process.value.taken <= |process.value.output| && FreshRequest(nonce, deadline)
      modifies this
      ensures Valid()
      ensures Took(if CanBeReady(model, old(View()), i) then Ready(i, nonce, deadline) else Stop(i))
      ensures closed == old(closed) && closer == old(closer)
      ensures
        var child, frame := old(process).value, READY + revision;
        if frame <= child.output[child.taken..] then
          Proceeds(i, nonce, deadline, Child(child.id, child.honest, child.sent, child.output, child.taken + |frame|))
        else Moved(i, Discarding) && holder == old(holder) && process == old(process)
    {
      hide Inv, FreshRequest, READY;
      ghost var s := View();
      var child := process.value;
      var expected := READY + revision;
      if expected <= child.output[child.taken..] {
        process := Some(child.(taken := child.taken + |expected|));
        Converse(i, nonce, deadline);
        StepKeepsInv(model, s, Ready(i, nonce, deadline));
      } else {
        Cancel(i);
      }
    }

    /** A reply is returned only under the nonce of this very request; anything else discards the child. */
    method ReceiveReply(i: nat) returns (r: Result<string, ReplyError>)
      requires Valid() && i < |operations| && operations[i].phase.AwaitReply? && process.Some?
      requires process.value.taken <= |process.value.output|
      modifies this
      ensures Valid()
      ensures r ==
              ReadReply(old(operations)[i].phase.request.nonce, old(process).value.output[old(process).value.taken..])
      ensures Took(if r.Ok? then Reply(i, r.value) else Stop(i))
      ensures closed == old(closed) && closer == old(closer)
      ensures r.Ok? ==>
                var frame := EncodeReply(old(operations)[i].phase.request.nonce, r.value);
                && Moved(i, Ended(Ok(Some(r.value)))) && holder == Free
                && process == Some(old(process).value.(taken := old(process).value.taken + |frame|))
      ensures r.Err? ==> Moved(i, Discarding) && holder == old(holder) && process == old(process)
    {
      hide Inv, ReadReply, EncodeReply;
      ghost var s := View();
      var child, request := process.value, operations[i].phase.request;
      r := ReadFrame(request.nonce, child.output[child.taken..]);
      if r.Ok? {
        process := Some(child.(taken := child.taken + |EncodeReply(request.nonce, r.value)|));
        End(i, Ok(Some(r.value)));
        StepKeepsInv(model, s, Reply(i, r.value));
      } else {
        Cancel(i);
      }
    }

    /** The end of discarding: the child is reaped and its scratch cleared, or the slot is closed for good. */
    method Discard(i: nat, reaped: bool, cleared: bool)
      requires Valid() && CanReap(View(), i)
      modifies this
      ensures Valid() && Took(if reaped then Reap(i, cleared) else NoReap(i))
      ensures holder == Free && closer == old(closer)
      ensures operations[i].phase.Ended? && operations[i].phase.result.Err?
      ensures Moved(i, operations[i].phase)
      ensures if reaped then process == None && closed == (old(closed) || !cleared)
              else process == old(process) && closed
    {
      hide Inv;
      ghost var s := View();
      if reaped {
        ForgetChild(cleared);
        End(i, Err(if cleared then Canceled else ScratchNotCleared));
      } else {
        closed := true;
        End(i, Err(NotReaped));
      }
      StepKeepsInv(model, s, if reaped then Reap(i, cleared) else NoReap(i));
    }

    method ForgetChild(cleared: bool)
      requires process.Some?
      modifies this
      ensures View() == ReapedSlot(old(View()), cleared)
    {
      alive := alive - {process.value.id};
      scratchEmpty := scratchEmpty || cleared;
      process := None;
      if !cleared {
        closed := true;
      }
    }

    /** Shutdown begins: no new operation, and every pending one is canceled. */
    method BeginShutdown()
      requires Valid() && CanCloseBegin(View())
      modifies this
      ensures Valid() && Took(BeginClose)
      ensures closed && closer == Draining && process == old(process) && holder == old(holder)
      ensures |operations| == |old(operations)|
      ensures forall k :: 0 <= k < |operations| ==>
                && operations[k].video == old(operations)[k].video
                && (old(operations)[k].phase.Ended? ==> operations[k] == old(operations)[k])
                && (!old(operations)[k].phase.Ended? ==> Doomed(operations[k].phase))
    {
      hide Inv, Busy;
      ghost var s := View();
      closed := true;
      closer := Draining;
      var before := operations;
      for i := 0 to |before|
        invariant View() == s.(closed := true, closer := Draining, operations := operations)
        invariant |operations| == |before|
        invariant forall k :: 0 <= k < |before| ==>
                    operations[k] == if k < i then before[k].(phase := StoppedPhase(before[k].phase)) else before[k]
      {
        operations := operations[i := before[i].(phase := StoppedPhase(before[i].phase))];
      }
      assert operations == CloseBegun(s).operations;
      StepKeepsInv(model, s, BeginClose);
    }

    /** All pending operations are over: nothing to discard, or one child left to discard. */
    method FinishDraining()
      requires Valid() && CanDrain(View())
      modifies this
      ensures Valid() && Took(Drain)
      ensures operations == old(operations) && closed == old(closed) && process == old(process)
      ensures if process.None? then closer == Closed(true) && holder == old(holder)
              else closer == Reaping && holder == ByCloser
    {
      hide Inv;
      ghost var s := View();
      if process.None? {
        closer := Closed(true);
      } else {
        holder, closer := ByCloser, Reaping;
      }
      StepKeepsInv(model, s, Drain);
    }

    method FinishShutdown(reaped: bool, cleared: bool)
      requires Valid() && CanCloserReap(View())
      modifies this
      ensures Valid() && Took(if reaped then CloserReap(cleared) else CloserNoReap)
      ensures operations == old(operations) && closed && holder == Free && closer == Closed(reaped && cleared)
      ensures process == if reaped then None else old(process)
    {
      hide Inv;
      ghost var s := View();
      ClosingIsClosed(model, s);
      if reaped {
        ForgetChild(cleared);
        closer := Closed(cleared);
      } else {
        closed, closer := true, Closed(false);
      }
      holder := Free;
      StepKeepsInv(model, s, if reaped then CloserReap(cleared) else CloserNoReap);
    }
  }

  lemma ClosingIsClosed(m: Model, s: Slot)
    requires Inv(m, s) && s.closer != NotClosing
    ensures s.closed
  {
    hide PipesFit, ChildrenFit, RequestsFit, OpenWhileWorking;
  }

  lemma HolderIsBusy(m: Model, s: Slot, i: nat)
    requires Inv(m, s) && i < |s.operations| && Busy(s.operations[i].phase)
    ensures s.holder == Held(i)
  {
    hide PipesFit, ChildrenFit;
  }
}
