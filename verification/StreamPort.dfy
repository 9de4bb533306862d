/** A stream sent over a message port, both ends and the two message queues, as a transition system. */
module StreamPort {
  // packages/crypto/src/proxy/endpoint/workerPool/transferHandlers/streamHandler.ts

  import opened Results

  /** How the original stream ends. */
  datatype Ending = Done | Errored(error: string)

  datatype Control = Read | Cancel

  datatype Data<T> = Chunk(value: T) | Finish | Fault(error: string)

  /** The original stream: chunks not yet read, its ending, whether a reader has locked it, whether it has been
      cancelled. */
  datatype Source<T> = Source(chunks: seq<T>, ending: Ending, locked: bool, cancelled: bool)

  /** The rebuilt stream. */
  datatype Status = Readable | Closed | Broken(error: string) | Cancelled

  datatype System<T> = System(
    source: Source<T>, reading: bool, senderClosed: bool,
    toSender: seq<Control>, toReceiver: seq<Data<T>>,
    status: Status, pulling: bool, receiverClosed: bool, enqueued: seq<T>)

  function Start<T>(chunks: seq<T>, ending: Ending): System<T> {
    System(Source(chunks, ending, false, false), false, false, [], [], Readable, false, false, [])
  }

  datatype Step = Pull | SenderTakes | SourceAnswers | ReceiverTakes | CancelStream

  /** A stream asks for more only while it is readable and not already asking; a closed port takes nothing. */
  predicate Enabled<T>(s: System<T>, step: Step) {
    match step
    case Pull => s.status == Readable && !s.pulling
    case SenderTakes => !s.senderClosed && s.toSender != []
    case SourceAnswers => s.reading
    case ReceiverTakes => !s.receiverClosed && s.toReceiver != []
    case CancelStream => s.status == Readable
  }

  /** Cancelling a stream works through its reader if it has one, and directly if not. */
  function CancelSource<T>(source: Source<T>, throughReader: bool): Source<T> {
    if throughReader == source.locked then source.(cancelled := true) else source
  }

  /** What a read of the source gives. */
  function ReadSource<T>(source: Source<T>): (Data<T>, Source<T>) {
    if source.cancelled then (Finish, source)
    else if source.chunks != [] then (Chunk(source.chunks[0]), source.(chunks := source.chunks[1..]))
    else match source.ending
         case Done => (Finish, source)
         case Errored(error) => (Fault(error), source)
  }

  function Take<T>(s: System<T>, step: Step): System<T>
    requires Enabled(s, step)
  {
    match step
    case Pull => s.(pulling := true, toSender := s.toSender + [Read])
    case SenderTakes =>
      var rest := s.(toSender := s.toSender[1..]);
      (match s.toSender[0]
       case Read => rest.(reading := true, source := s.source.(locked := true))
       case Cancel => rest.(source := CancelSource(s.source, s.source.locked), senderClosed := true))
    case SourceAnswers =>
      var (message, source) := ReadSource(s.source);
      s.(reading := false, source := source,
         toReceiver := if s.senderClosed then s.toReceiver else s.toReceiver + [message],
         senderClosed := s.senderClosed || !message.Chunk?)
    case ReceiverTakes =>
      var rest := s.(toReceiver := s.toReceiver[1..], pulling := false);
      (match s.toReceiver[0]
       case Chunk(value) => rest.(enqueued := s.enqueued + [value])
       case Finish => rest.(status := Closed, receiverClosed := true)
       case Fault(error) => rest.(status := Broken(error), receiverClosed := true))
    case CancelStream => s.(status := Cancelled, receiverClosed := true, toSender := s.toSender + [Cancel])
  }

  function Run<T>(s: System<T>, steps: seq<Step>): Option<System<T>>
    decreases |steps|
  {
    if steps == [] then Some(s)
    else if Enabled(s, steps[0]) then Run(Take(s, steps[0]), steps[1..])
    else None
  }

  // The invariant

  function Chunks<T>(messages: seq<Data<T>>): seq<T> {
    if messages == [] then []
    else (if messages[0].Chunk? then [messages[0].value] else []) + Chunks(messages[1..])
  }

  /** Requests and answers under way. */
  function Outstanding<T>(s: System<T>): nat {
    (if Read in s.toSender then 1 else 0) + (if s.reading then 1 else 0) + |s.toReceiver|
  }

  predicate IsFinal<T>(s: System<T>, message: Data<T>) {
    || (message == Finish && s.source.ending == Done)
    || (message.Fault? && s.source.ending == Errored(message.error))
  }

  /** In every state: nothing is lost or repeated, one request is under way exactly while the stream asks, and an
      ending is on its way or has come only when the source has ended so. */
  ghost predicate Inv<T>(s: System<T>, chunks: seq<T>) {
    && s.enqueued + Chunks(s.toReceiver) + s.source.chunks == chunks
    && |s.toReceiver| <= 1
    && s.toSender in [[], [Read], [Cancel], [Read, Cancel]]
    && (Cancel in s.toSender ==> s.status == Cancelled)
    && (s.status == Cancelled <==> Cancel in s.toSender || s.source.cancelled)
    && (s.source.cancelled ==> s.toSender == [] && s.senderClosed)
    && (Read in s.toSender ==> !s.reading && s.toReceiver == [] && !s.senderClosed)
    && (s.reading ==> s.toReceiver == [] && s.source.locked && (s.senderClosed ==> s.source.cancelled))
    && (s.status == Readable ==> Outstanding(s) == if s.pulling then 1 else 0)
    && (s.status.Closed? || s.status.Broken? ==> Outstanding(s) == 0)
    && (s.toReceiver != [] && !s.toReceiver[0].Chunk?
        ==> s.source.chunks == [] && IsFinal(s, s.toReceiver[0]) && s.senderClosed)
    && (s.status == Closed ==> s.source.chunks == [] && s.source.ending == Done && s.senderClosed)
    && (s.status.Broken? ==> s.source.chunks == [] && s.source.ending == Errored(s.status.error) && s.senderClosed)
    && (s.senderClosed && s.status == Readable ==> s.toReceiver != [] && !s.toReceiver[0].Chunk?)
    && (s.receiverClosed <==> s.status != Readable)
  }

  lemma PullKeeps<T>(s: System<T>, chunks: seq<T>)
    requires Inv(s, chunks) && Enabled(s, Pull)
    ensures Inv(Take(s, Pull), chunks)
  {
    assert s.toSender == [];
    assert Take(s, Pull).toSender == [Read];
  }

  lemma SenderKeeps<T>(s: System<T>, chunks: seq<T>)
    requires Inv(s, chunks) && Enabled(s, SenderTakes)
    ensures Inv(Take(s, SenderTakes), chunks)
  {
    assert [Read][1..] == [] && [Cancel][1..] == [] && [Read, Cancel][1..] == [Cancel];
  }

  lemma AnswerKeeps<T>(s: System<T>, chunks: seq<T>)
    requires Inv(s, chunks) && Enabled(s, SourceAnswers)
    ensures Inv(Take(s, SourceAnswers), chunks)
  {
    var message := ReadSource(s.source).0;
    assert s.toReceiver + [message] == [message];
    OneMessage(message);
    if s.source.chunks != [] {
      assert s.enqueued + [] + s.source.chunks == s.enqueued + [s.source.chunks[0]] + s.source.chunks[1..];
    }
  }

  lemma OneMessage<T>(message: Data<T>)
    ensures Chunks([message]) == if message.Chunk? then [message.value] else []
  {
    assert [message][1..] == [];
  }

  lemma ReceiverKeeps<T>(s: System<T>, chunks: seq<T>)
    requires Inv(s, chunks) && Enabled(s, ReceiverTakes)
    ensures Inv(Take(s, ReceiverTakes), chunks)
  {
    OneMessage(s.toReceiver[0]);
    NoChunks<T>();
    hide Chunks;
    assert s.toReceiver == [s.toReceiver[0]] && s.toReceiver[1..] == [];
  }

  lemma CancelKeeps<T>(s: System<T>, chunks: seq<T>)
    requires Inv(s, chunks) && Enabled(s, CancelStream)
    ensures Inv(Take(s, CancelStream), chunks)
  {
    assert s.toSender == [] || s.toSender == [Read];
    assert [] + [Cancel] == [Cancel] && [Read] + [Cancel] == [Read, Cancel];
  }

  lemma StepKeeps<T>(s: System<T>, step: Step, chunks: seq<T>)
    requires Inv(s, chunks) && Enabled(s, step)
    ensures Inv(Take(s, step), chunks)
  {
    hide Inv, Take;
    match step
    case Pull => PullKeeps(s, chunks);
    case SenderTakes => SenderKeeps(s, chunks);
    case SourceAnswers => AnswerKeeps(s, chunks);
    case ReceiverTakes => ReceiverKeeps(s, chunks);
    case CancelStream => CancelKeeps(s, chunks);
  }

  lemma {:induction false} RunKeeps<T>(s: System<T>, steps: seq<Step>, chunks: seq<T>)
    requires Inv(s, chunks) && Run(s, steps).Some?
    ensures Inv(Run(s, steps).value, chunks)
    decreases |steps|
  {
    hide Inv, Take, Enabled;
    if steps != [] {
      StepKeeps(s, steps[0], chunks);
      RunKeeps(Take(s, steps[0]), steps[1..], chunks);
    }
  }

  lemma ReachableInv<T>(chunks: seq<T>, ending: Ending, steps: seq<Step>)
    requires Run(Start(chunks, ending), steps).Some?
    ensures Inv(Run(Start(chunks, ending), steps).value, chunks)
    ensures Run(Start(chunks, ending), steps).value.source.ending == ending
  {
    hide Run;
    RunKeeps(Start(chunks, ending), steps, chunks);
    EndingKept(Start(chunks, ending), steps);
  }

  lemma {:induction false} EndingKept<T>(s: System<T>, steps: seq<Step>)
    requires Run(s, steps).Some?
    ensures Run(s, steps).value.source.ending == s.source.ending
    decreases |steps|
  {
    if steps != [] {
      EndingKept(Take(s, steps[0]), steps[1..]);
    }
  }

  // What the transfer guarantees

  /** In every reachable state the chunks enqueued, the chunk under way and the chunks left make up the original
      stream, and at most one request is outstanding. */
  lemma NothingLost<T>(chunks: seq<T>, ending: Ending, steps: seq<Step>)
    requires Run(Start(chunks, ending), steps).Some?
    ensures var s := Run(Start(chunks, ending), steps).value;
            s.enqueued + Chunks(s.toReceiver) + s.source.chunks == chunks && Outstanding(s) <= 1
  {
    hide Run;
    ReachableInv(chunks, ending, steps);
  }

  /** The rebuilt stream closes only once it has all the chunks of a stream that closed, and breaks only with the
      error of a stream that broke, all its chunks delivered. */
  lemma EndsAsTheSource<T>(chunks: seq<T>, ending: Ending, steps: seq<Step>)
    requires Run(Start(chunks, ending), steps).Some?
    ensures var s := Run(Start(chunks, ending), steps).value;
            && (s.status == Closed ==> s.enqueued == chunks && ending == Done)
            && (s.status.Broken? ==> s.enqueued == chunks && ending == Errored(s.status.error))
  {
    hide Run;
    ReachableInv(chunks, ending, steps);
    var s := Run(Start(chunks, ending), steps).value;
    if s.status.Closed? || s.status.Broken? {
      assert Chunks(s.toReceiver) == [] by {
        NoChunks<T>();
      }
      assert s.enqueued + [] + [] == s.enqueued;
    }
  }

  lemma NoChunks<T>()
    ensures Chunks<T>([]) == []
  {
  }

  /** After a cancel nothing more is enqueued, whatever is still under way. */
  lemma {:induction false} SilentAfterCancel<T>(s: System<T>, steps: seq<Step>, chunks: seq<T>)
    requires Inv(s, chunks) && s.status == Cancelled && Run(s, steps).Some?
    ensures var t := Run(s, steps).value;
            t.status == Cancelled && t.enqueued == s.enqueued
    decreases |steps|
  {
    hide Inv;
    if steps != [] {
      CancelledStays(s, steps[0], chunks);
      StepKeeps(s, steps[0], chunks);
      SilentAfterCancel(Take(s, steps[0]), steps[1..], chunks);
    }
  }

  lemma CancelledStays<T>(s: System<T>, step: Step, chunks: seq<T>)
    requires Inv(s, chunks) && s.status == Cancelled && Enabled(s, step)
    ensures Take(s, step).status == Cancelled && Take(s, step).enqueued == s.enqueued
  {
  }

  /** Once the cancellation has been dealt with, the source is cancelled, read before or not. */
  lemma CancelReachesSource<T>(chunks: seq<T>, ending: Ending, steps: seq<Step>)
    requires Run(Start(chunks, ending), steps).Some?
    requires var s := Run(Start(chunks, ending), steps).value;
             s.status == Cancelled && s.toSender == []
    ensures Run(Start(chunks, ending), steps).value.source.cancelled
  {
    hide Run;
    ReachableInv(chunks, ending, steps);
  }

  /** How far the current request has got. */
  function Phase<T>(s: System<T>): nat {
    if !s.pulling then 4 else if Read in s.toSender then 3 else if s.reading then 2 else 1
  }

  /** What is left to do. */
  function Work<T>(s: System<T>): nat {
    if s.status == Readable then 10 + 4 * (|s.source.chunks| + |Chunks(s.toReceiver)|) + Phase(s)
    else 2 * |s.toSender| + if s.reading then 1 else 0
  }

  lemma SenderShrinks<T>(s: System<T>, chunks: seq<T>)
    requires Inv(s, chunks) && Enabled(s, SenderTakes)
    ensures Work(Take(s, SenderTakes)) < Work(s)
  {
    assert [Read][1..] == [] && [Cancel][1..] == [] && [Read, Cancel][1..] == [Cancel];
  }

  lemma AnswerShrinks<T>(s: System<T>, chunks: seq<T>)
    requires Inv(s, chunks) && Enabled(s, SourceAnswers)
    ensures Work(Take(s, SourceAnswers)) < Work(s)
  {
    var message := ReadSource(s.source).0;
    assert s.toReceiver + [message] == [message];
    OneMessage(message);
    NoChunks<T>();
  }

  lemma ReceiverShrinks<T>(s: System<T>, chunks: seq<T>)
    requires Inv(s, chunks) && Enabled(s, ReceiverTakes)
    ensures Work(Take(s, ReceiverTakes)) < Work(s)
  {
    OneMessage(s.toReceiver[0]);
    NoChunks<T>();
    assert s.toReceiver == [s.toReceiver[0]] && s.toReceiver[1..] == [];
  }

  /** Every step gets nearer to the end. */
  lemma WorkShrinks<T>(s: System<T>, step: Step, chunks: seq<T>)
    requires Inv(s, chunks) && Enabled(s, step)
    ensures Work(Take(s, step)) < Work(s)
  {
    hide Chunks;
    match step
    case Pull => assert s.toSender == [];
    case SenderTakes => SenderShrinks(s, chunks);
    case SourceAnswers => AnswerShrinks(s, chunks);
    case ReceiverTakes => ReceiverShrinks(s, chunks);
    case CancelStream => assert s.toSender == [] || s.toSender == [Read];
  }

  /** As long as the stream is readable something other than a cancel can happen: with the shrinking work, a
      stream that is read and not cancelled comes to its end. */
  lemma KeepsGoing<T>(s: System<T>, chunks: seq<T>) returns (step: Step)
    requires Inv(s, chunks) && s.status == Readable
    ensures step != CancelStream && Enabled(s, step)
  {
    step := if !s.pulling then Pull
            else if Read in s.toSender then SenderTakes
            else if s.reading then SourceAnswers
            else ReceiverTakes;
  }

  /** From any state reached without a cancel, reading on delivers the whole stream and ends as it does. */
  lemma {:induction false} ComesToAnEnd<T>(s: System<T>, chunks: seq<T>) returns (steps: seq<Step>)
    requires Inv(s, chunks) && s.status == Readable
    ensures CancelStream !in steps && Run(s, steps).Some?
    ensures var t := Run(s, steps).value;
            && t.enqueued == chunks
            && t.status == (match s.source.ending case Done => Closed case Errored(error) => Broken(error))
    decreases Work(s)
  {
    hide Inv, Take, Work, Enabled;
    var step := KeepsGoing(s, chunks);
    StepKeeps(s, step, chunks);
    WorkShrinks(s, step, chunks);
    var t := Take(s, step);
    EndingKept(s, [step]);
    RunOne(s, step);
    if t.status == Readable {
      var rest := ComesToAnEnd(t, chunks);
      steps := [step] + rest;
      assert steps[1..] == rest;
    } else {
      steps := [step];
      EndedWell(s, step, chunks);
    }
  }

  lemma RunOne<T>(s: System<T>, step: Step)
    requires Enabled(s, step)
    ensures Run(s, [step]) == Some(Take(s, step))
  {
    assert [step][1..] == [];
  }

  lemma EndedWell<T>(s: System<T>, step: Step, chunks: seq<T>)
    requires Inv(s, chunks) && s.status == Readable && step != CancelStream && Enabled(s, step)
    requires Take(s, step).status != Readable && Inv(Take(s, step), chunks)
    ensures var t := Take(s, step);
            && t.enqueued == chunks
            && t.status == (match s.source.ending case Done => Closed case Errored(error) => Broken(error))
  {
    NoChunks<T>();
    var t := Take(s, step);
    assert t.enqueued + [] + [] == t.enqueued;
  }
}
