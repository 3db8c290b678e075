/**
 * One stream bridged between a task and a transport driver: a bounded channel
 * each way, the tail of a chunk the transport took only part of, and the two
 * ways a stream can end. Every method is one step of one party; any sequence
 * of calls is an interleaving of them.
 */
module Bridge {
  import opened Bytes

  const CHUNK: nat := 16 * 1024
  const DEPTH: nat := 8

  datatype Reading = Read(bytes: seq<byte>) | ReadPending | ConnectionReset

  datatype Writing = Wrote(count: nat) | WritePending | BrokenPipe

  /** What `stream_recv` answers: bytes and perhaps FIN, nothing yet, or a reset. */
  datatype Recv = Arrived(bytes: seq<byte>, fin: bool) | Nothing | ResetByPeer

  /** What `stream_send` answers: how much it took, nothing yet, or an error. */
  datatype Send = Took(count: nat) | NoRoom | SendFailed

  /** How much of a chunk the transport took. */
  ghost function TakenOf(answer: Send, chunk: seq<byte>): seq<byte> {
    if answer.Took? then chunk[..Min(answer.count, |chunk|)] else []
  }

  /** The transport took a whole chunk, which is when the pump goes on. */
  ghost predicate TookAll(answer: Send, chunk: seq<byte>) {
    answer.Took? && answer.count >= |chunk|
  }

  datatype PassEnd = RanDry | Blocked | Broken

  datatype Pass = Pass(taken: seq<byte>, left: seq<seq<byte>>, end: PassEnd)

  /** What a pass over these chunks comes to: each is offered once the one before
      it went whole, and a transport with nothing more to say has no room. */
  ghost function Passing(chunks: seq<seq<byte>>, answers: seq<Send>): Pass {
    var answer := if answers == [] then NoRoom else answers[0];
    if chunks == [] then Pass([], [], RanDry)
    else if answer.SendFailed? then Pass([], chunks[1..], Broken)
    else if !TookAll(answer, chunks[0]) then
      var taken := TakenOf(answer, chunks[0]);
      Pass(taken, [chunks[0][|taken|..]] + chunks[1..], Blocked)
    else
      var next := Passing(chunks[1..], answers[1..]);
      Pass(chunks[0] + next.taken, next.left, next.end)
  }

  datatype DrawEnd = PeerFinished | PeerReset | NoReader | StillOpen

  datatype Draw = Draw(bytes: seq<byte>, end: DrawEnd)

  /** What a pass with this much room in the channel takes from the transport: it
      stops at FIN, at a reset, at nothing more, or when the channel is full. */
  ghost function Drawing(room: nat, answers: seq<Recv>): Draw {
    if room == 0 || answers == [] then Draw([], StillOpen)
    else
      match answers[0]
      case Nothing => Draw([], StillOpen)
      case ResetByPeer => Draw([], PeerReset)
      case Arrived(bytes, fin) =>
        if fin then Draw(bytes, PeerFinished)
        else
          var next := Drawing(room - (if bytes == [] then 0 else 1), answers[1..]);
          Draw(bytes + next.bytes, next.end)
  }

  /** One turn of the driver: whether the transport lists the stream as readable,
      and what it answers. */
  datatype Turn = Turn(readable: bool, received: seq<Recv>, taken: seq<Send>)

  ghost predicate Silent(turns: seq<Turn>) {
    forall i :: 0 <= i < |turns| ==> !turns[i].readable
  }

  class Stream {
    // The task's half.
    var pending: seq<byte>
    var writerOpen: bool
    var readerGone: bool

    // The channels.
    var toTask: seq<seq<byte>>
    var fromTask: seq<seq<byte>>

    // The driver's half.
    var senderOpen: bool
    var resetFlag: bool
    var pendingOut: Option<seq<byte>>
    var finished: bool
    var retired: bool
    var stopped: bool

    // History: bytes the task wrote and the transport took, FINs offered, bytes
    // the transport gave and the task read, and whether the peer sent FIN.
    ghost var written: seq<byte>
    ghost var accepted: seq<byte>
    ghost var fins: nat
    ghost var sendFailed: bool
    ghost var arrived: seq<byte>
    ghost var delivered: seq<byte>
    ghost var peerFin: bool

    function Tail(): seq<byte>
      reads `pendingOut
    {
      if pendingOut.Some? then pendingOut.value else []
    }

    /** Nothing written is lost, repeated or reordered on its way out, and FIN
        is offered once, behind all of it. */
    ghost predicate Outbound()
      reads `fromTask, `pendingOut, `finished, `writerOpen, `written, `accepted, `fins, `sendFailed
    {
      && |fromTask| <= DEPTH
      && (!sendFailed ==> accepted + Tail() + Flatten(fromTask) == written)
      && fins <= 1
      && (fins == 1 ==> finished && !sendFailed && !writerOpen && pendingOut.None? && fromTask == [])
      && (finished <==> fins == 1 || sendFailed)
    }

    /** Nothing that arrived is lost, repeated or reordered on its way in, and
        the driver's sender closes only for a reason the reader can tell. */
    ghost predicate Inbound()
      reads `toTask, `pending, `senderOpen, `resetFlag, `readerGone, `stopped, `arrived, `delivered, `peerFin
    {
      && |toTask| <= DEPTH
      && (!readerGone ==> delivered + pending + Flatten(toTask) == arrived)
      && (!senderOpen ==> peerFin || resetFlag || readerGone || stopped)
      && (peerFin ==> !senderOpen && !resetFlag)
    }

    ghost predicate Valid()
      reads this
    {
      Outbound() && Inbound()
    }

    constructor ()
      ensures Valid() && written == accepted == arrived == delivered == []
      ensures fins == 0 && !peerFin && !resetFlag && !sendFailed && writerOpen && senderOpen && !readerGone
      ensures !retired && !stopped && !finished && pendingOut.None? && fromTask == toTask == []
    {
      pending, writerOpen, readerGone := [], true, false;
      toTask, fromTask := [], [];
      senderOpen, resetFlag, pendingOut, finished, retired, stopped := true, false, None, false, false, false;
      written, accepted, fins, sendFailed := [], [], 0, false;
      arrived, delivered, peerFin := [], [], false;
    }

    // -------------------------------------------------------- the task

    /** Takes chunks off the channel until one carries something. */
    method Refill() returns (stop: Option<Reading>)
      requires Valid() && !readerGone
      modifies `pending, `toTask
      ensures Valid()
      ensures stop.None? ==> pending != []
      ensures stop.Some? ==> pending == [] && toTask == [] && delivered == arrived
      ensures stop.Some? ==> stop.value == if senderOpen then ReadPending
                                           else if resetFlag then ConnectionReset else Read([])
    {
      while pending == []
        invariant Valid()
        decreases |toTask|
      {
        if toTask == [] {
          assert delivered + pending + Flatten(toTask) == delivered;
          if senderOpen {
            return Some(ReadPending);
          }
          return Some(if resetFlag then ConnectionReset else Read([]));
        }
        ghost var before := toTask;
        pending := toTask[0];
        toTask := toTask[1..];
        assert delivered + [] + Flatten(before) == delivered + pending + Flatten(toTask);
      }
      return None;
    }

    /** `poll_read`. A clean end is told only when the peer sent FIN, everything
        it sent before that has been read, or the driver was stopped; a reset
        is told as one, after everything that arrived before it. */
    method PollRead(capacity: nat) returns (reading: Reading)
      requires Valid() && !readerGone
      modifies `pending, `toTask, `delivered
      ensures Valid()
      ensures delivered == old(delivered) + (if reading.Read? then reading.bytes else [])
      ensures reading.Read? ==> |reading.bytes| <= capacity
      ensures reading == Read([]) && capacity > 0 ==> delivered == arrived && (peerFin || stopped) && !resetFlag
      ensures reading.ConnectionReset? ==> delivered == arrived && resetFlag && !peerFin
      ensures reading.ReadPending? ==> delivered == arrived && senderOpen
    {
      var stop := Refill();
      if stop.Some? {
        return stop.value;
      }
      var moved := Min(capacity, |pending|);
      reading := Read(pending[..moved]);
      assert pending == pending[..moved] + pending[moved..];
      assert delivered + pending + Flatten(toTask) == (delivered + pending[..moved]) + pending[moved..] + Flatten(toTask);
      delivered := delivered + pending[..moved];
      pending := pending[moved..];
    }

    /** `poll_write`: at most one chunk joins the queue, or none does. */
    method PollWrite(buf: seq<byte>) returns (writing: Writing)
      requires Valid()
      modifies `fromTask, `written
      ensures Valid()
      ensures writing.Wrote? ==> writing.count == Min(|buf|, CHUNK) && written == old(written) + buf[..writing.count]
      ensures !writing.Wrote? ==> written == old(written)
      ensures fromTask == old(fromTask) + if writing.Wrote? && buf != [] then [buf[..writing.count]] else []
      ensures writing.Wrote? && writing.count == 0 <==> writerOpen && buf == []
      ensures writing.WritePending? <==> writerOpen && buf != [] && !retired && !stopped && |old(fromTask)| == DEPTH
      ensures writing.BrokenPipe? <==> !writerOpen || (buf != [] && (retired || stopped))
    {
      if !writerOpen {
        return BrokenPipe;
      }
      if buf == [] {
        return Wrote(0);
      }
      if retired || stopped {
        return BrokenPipe;
      }
      if |fromTask| >= DEPTH {
        return WritePending;
      }
      var moved := Min(|buf|, CHUNK);
      FlattenAppend(fromTask, buf[..moved]);
      assert accepted + Tail() + (Flatten(fromTask) + buf[..moved]) == accepted + Tail() + Flatten(fromTask) + buf[..moved];
      fromTask := fromTask + [buf[..moved]];
      written := written + buf[..moved];
      return Wrote(moved);
    }

    /** `poll_shutdown`: closing the channel is what asks for FIN. */
    method PollShutdown()
      requires Valid()
      modifies `writerOpen
      ensures Valid() && !writerOpen
    {
      writerOpen := false;
    }

    /** The task drops its half; what it has not read no longer matters. */
    method Abandon()
      requires Valid()
      modifies `writerOpen, `readerGone
      ensures Valid() && !writerOpen && readerGone
    {
      writerOpen := false;
      readerGone := true;
    }

    // -------------------------------------------------------- the driver

    function Queued(): nat
      reads `fromTask, `pendingOut
    {
      |fromTask| + (if pendingOut.Some? then 1 else 0)
    }

    /** The tail left over, then the queue. */
    ghost function Chunks(): (chunks: seq<seq<byte>>)
      reads `fromTask, `pendingOut
      ensures |chunks| == Queued()
    {
      (if pendingOut.Some? then [pendingOut.value] else []) + fromTask
    }

    /** The chunk to offer next. */
    method NextChunk() returns (chunk: seq<byte>)
      requires Valid() && Queued() > 0
      modifies `fromTask, `pendingOut
      ensures chunk == old(Chunks())[0] && Chunks() == old(Chunks())[1..]
      ensures |fromTask| <= DEPTH && pendingOut.None?
      ensures !sendFailed ==> accepted + chunk + Flatten(fromTask) == written
    {
      if pendingOut.Some? {
        chunk := pendingOut.value;
        pendingOut := None;
      } else {
        chunk := fromTask[0];
        assert accepted + [] + Flatten(fromTask) == accepted + chunk + Flatten(fromTask[1..]);
        fromTask := fromTask[1..];
      }
    }

    /** One turn of `pump_out`: the tail or the next chunk is offered, what was
        not taken is kept as the tail, and FIN is offered once the task's sender
        is gone and the queue is dry. */
    method PumpOutOnce(answer: Send) returns (more: bool)
      requires Valid() && !finished
      modifies `fromTask, `pendingOut, `finished, `accepted, `fins, `sendFailed
      ensures Valid()
      ensures accepted == old(accepted) + (if old(Queued()) > 0 then TakenOf(answer, old(Chunks())[0]) else [])
      ensures more <==> old(Queued()) > 0 && TookAll(answer, old(Chunks())[0])
      ensures more ==> !finished
      ensures Chunks() == if old(Queued()) == 0 then []
                          else if more || answer.SendFailed? then old(Chunks())[1..]
                          else [old(Chunks())[0][|TakenOf(answer, old(Chunks())[0])|..]] + old(Chunks())[1..]
      ensures sendFailed <==> old(Queued()) > 0 && answer.SendFailed?
      ensures fins > old(fins) <==> old(Queued()) == 0 && !writerOpen
      ensures fins > old(fins) ==> accepted == written
    {
      if Queued() == 0 {
        OfferFin();
        return false;
      }
      var chunk := NextChunk();
      more := OfferChunk(chunk, answer);
    }

    /** FIN, once the queue is dry, if the task's sender is gone. */
    method OfferFin()
      requires Valid() && !finished && Queued() == 0
      modifies `finished, `fins
      ensures Valid() && (finished <==> !writerOpen)
      ensures fins == old(fins) + (if writerOpen then 0 else 1)
      ensures !writerOpen ==> accepted == written
    {
      if !writerOpen {
        assert accepted + [] + Flatten(fromTask) == accepted;
        finished := true;
        fins := fins + 1;
      }
    }

    /** The transport takes some of the chunk, none for now, or fails. */
    method OfferChunk(chunk: seq<byte>, answer: Send) returns (more: bool)
      requires |fromTask| <= DEPTH && pendingOut.None? && !finished && fins == 0 && !sendFailed
      requires accepted + chunk + Flatten(fromTask) == written
      modifies `pendingOut, `finished, `accepted, `sendFailed
      ensures Outbound() && accepted == old(accepted) + TakenOf(answer, chunk)
      ensures finished == sendFailed == answer.SendFailed?
      ensures more <==> TookAll(answer, chunk)
      ensures pendingOut == if more || sendFailed then None else Some(chunk[|TakenOf(answer, chunk)|..])
    {
      more := false;
      match answer
      case Took(count) =>
        var taken := Min(count, |chunk|);
        assert chunk == chunk[..taken] + chunk[taken..];
        assert accepted + chunk + Flatten(fromTask) == (accepted + chunk[..taken]) + chunk[taken..] + Flatten(fromTask);
        accepted := accepted + TakenOf(answer, chunk);
        more := taken == |chunk|;
        if !more {
          pendingOut := Some(chunk[taken..]);
        }
      case NoRoom =>
        pendingOut := Some(chunk);
      case SendFailed =>
        finished := true;
        sendFailed := true;
    }

    /** A `pump_out` pass over whatever the transport answers: it takes and leaves
        what `Passing` says, offers FIN exactly when the queue ran dry behind a
        writer that is gone, and fails exactly when the transport does. Once
        finished or failed it never touches the queue again. */
    method PumpOut(answers: seq<Send>)
      requires Valid()
      modifies `fromTask, `pendingOut, `finished, `accepted, `fins, `sendFailed
      ensures Valid()
      ensures old(finished) ==>
                && accepted == old(accepted) && fins == old(fins) && sendFailed == old(sendFailed) && finished
                && fromTask == old(fromTask) && pendingOut == old(pendingOut)
      ensures !old(finished) ==> Passed(old(Passing(Chunks(), answers)), old(accepted))
      ensures fins > old(fins) ==> accepted == written
    {
      if finished {
        return;
      }
      ghost var whole := Passing(Chunks(), answers);
      var more, left := true, answers;
      while more
        invariant Valid()
        invariant more ==> !finished
        invariant more ==> var rest := Passing(Chunks(), left);
                           && rest.end == whole.end && rest.left == whole.left
                           && accepted + rest.taken == old(accepted) + whole.taken
        invariant !more ==> Passed(whole, old(accepted)) && (fins == 1 ==> accepted == written)
        decreases if more then Queued() + 1 else 0
      {
        ghost var before, chunks := accepted, Chunks();
        more := PumpOutOnce(if left == [] then NoRoom else left[0]);
        if more {
          left := left[1..];
          Regroup(before, chunks[0], Passing(chunks[1..], left).taken);
        }
      }
    }

    /** A pass has left its mark. */
    ghost predicate Passed(pass: Pass, before: seq<byte>)
      reads `fromTask, `pendingOut, `writerOpen, `accepted, `fins, `sendFailed
    {
      && accepted == before + pass.taken
      && Chunks() == pass.left
      && (fins == 1 <==> pass.end == RanDry && !writerOpen)
      && (sendFailed <==> pass.end == Broken)
    }

    /** `Plumbing::reset`, first half: the flag is raised while the sender lives. */
    method RaiseReset()
      requires Valid() && senderOpen
      modifies `resetFlag
      ensures Valid() && resetFlag
    {
      resetFlag := true;
    }

    /** The sender goes only after FIN, after the flag, or with no reader left. */
    method DropSender()
      requires Valid() && (peerFin || resetFlag || readerGone)
      modifies `senderOpen
      ensures Valid() && !senderOpen
    {
      senderOpen := false;
    }

    /** A draw from the transport has left its mark. */
    ghost predicate Drew(draw: Draw, before: seq<byte>)
      reads `arrived, `peerFin, `resetFlag, `senderOpen
    {
      && arrived == before + draw.bytes
      && (peerFin <==> draw.end == PeerFinished)
      && (resetFlag <==> draw.end == PeerReset)
      && (senderOpen <==> draw.end == StillOpen)
    }

    /** One turn of `pump_in`: a permit is reserved before the transport is read,
        so a full channel leaves the bytes where they are. */
    method PumpInOnce(answer: Recv) returns (more: bool)
      requires Valid() && senderOpen && !resetFlag
      modifies `toTask, `senderOpen, `resetFlag, `arrived, `peerFin
      ensures Valid()
      ensures more <==> !readerGone && |old(toTask)| < DEPTH && answer.Arrived? && !answer.fin
      ensures Drew(if readerGone then Draw([], NoReader) else Drawing(DEPTH - |old(toTask)|, [answer]), old(arrived))
      ensures more ==> senderOpen && !resetFlag && arrived == old(arrived) + answer.bytes
      ensures more ==> |toTask| == |old(toTask)| + (if answer.bytes == [] then 0 else 1)
    {
      if readerGone {
        DropSender();
        return false;
      }
      if |toTask| >= DEPTH {
        return false;
      }
      match answer
      case Nothing =>
        return false;
      case ResetByPeer =>
        RaiseReset();
        DropSender();
        return false;
      case Arrived(bytes, fin) =>
        Accept(bytes);
        if fin {
          peerFin := true;
          senderOpen := false;
        }
        return !fin;
    }

    /** A `pump_in` pass over whatever the transport gives: it takes what `Drawing`
        says, in order, and a reader that is gone only costs the sender. */
    method PumpIn(answers: seq<Recv>)
      requires Valid() && !resetFlag
      modifies `toTask, `senderOpen, `resetFlag, `arrived, `peerFin
      ensures Valid()
      ensures !old(senderOpen) ==> arrived == old(arrived) && peerFin == old(peerFin) && !resetFlag && !senderOpen
      ensures old(senderOpen) ==>
                Drew(if readerGone then Draw([], NoReader) else Drawing(DEPTH - |old(toTask)|, answers), old(arrived))
    {
      ghost var whole := if readerGone then Draw([], NoReader) else Drawing(DEPTH - |toTask|, answers);
      var more, left := senderOpen, answers;
      while more
        invariant Valid()
        invariant more ==> !resetFlag && senderOpen && (readerGone ==> arrived == old(arrived))
        invariant more && !readerGone ==> Drawing(DEPTH - |toTask|, left).end == whole.end
        invariant more && !readerGone ==> arrived + Drawing(DEPTH - |toTask|, left).bytes == old(arrived) + whole.bytes
        invariant !more && old(senderOpen) ==> Drew(whole, old(arrived))
        invariant !old(senderOpen) ==>
                    !more && arrived == old(arrived) && peerFin == old(peerFin) && !resetFlag && !senderOpen
        decreases |left|, more
      {
        ghost var before := arrived;
        var answer := if left == [] then Nothing else left[0];
        more := PumpInOnce(answer);
        if more {
          left := left[1..];
          Regroup(before, answer.bytes, Drawing(DEPTH - |toTask|, left).bytes);
        }
      }
    }

    method Accept(bytes: seq<byte>)
      requires Valid() && |toTask| < DEPTH && !readerGone
      modifies `toTask, `arrived
      ensures Valid() && arrived == old(arrived) + bytes
      ensures |toTask| == |old(toTask)| + (if bytes == [] then 0 else 1)
    {
      if bytes != [] {
        FlattenAppend(toTask, bytes);
        assert delivered + pending + (Flatten(toTask) + bytes) == delivered + pending + Flatten(toTask) + bytes;
        toTask := toTask + [bytes];
        arrived := arrived + bytes;
      }
    }

    /** The driver forgets a stream only when its sender is gone and its output
        is settled: everything written was taken and FIN offered, or the
        transport failed it. */
    method Retire() returns (gone: bool)
      requires Valid()
      modifies `retired
      ensures Valid()
      ensures gone <==> !senderOpen && finished
      ensures retired <==> old(retired) || gone
      ensures gone ==> sendFailed || (fins == 1 && accepted == written)
      ensures gone ==> peerFin || resetFlag || readerGone || stopped
    {
      gone := !(senderOpen || !finished);
      if gone {
        assert accepted + Tail() + Flatten(fromTask) == accepted + [] + [] || sendFailed;
        retired := true;
      }
    }

    /** The driver fails or is cancelled, dropping both its ends. */
    method Stop()
      requires Valid()
      modifies `stopped, `senderOpen
      ensures Valid() && stopped && !senderOpen
    {
      stopped := true;
      senderOpen := false;
    }

    method ServeIn(turn: Turn)
      requires Valid() && (resetFlag ==> !senderOpen)
      modifies `toTask, `senderOpen, `resetFlag, `arrived, `peerFin
      ensures Valid() && (resetFlag ==> !senderOpen)
      ensures old(senderOpen) && turn.readable ==>
                Drew(if readerGone then Draw([], NoReader) else Drawing(DEPTH - |old(toTask)|, turn.received), old(arrived))
      ensures !old(senderOpen) || !turn.readable ==>
                && toTask == old(toTask) && arrived == old(arrived) && senderOpen == old(senderOpen)
                && peerFin == old(peerFin) && resetFlag == old(resetFlag)
    {
      if turn.readable && senderOpen {
        PumpIn(turn.received);
      }
    }

    /** One turn of the driver: bytes in if the stream is readable and has a sender,
        bytes out, and the stream forgotten if both are over. */
    method Service(turn: Turn)
      requires Valid() && (resetFlag ==> !senderOpen)
      modifies `toTask, `senderOpen, `resetFlag, `arrived, `peerFin,
               `fromTask, `pendingOut, `finished, `accepted, `fins, `sendFailed, `retired
      ensures Valid() && (resetFlag ==> !senderOpen)
      ensures old(senderOpen) && turn.readable ==>
                Drew(if readerGone then Draw([], NoReader) else Drawing(DEPTH - |old(toTask)|, turn.received), old(arrived))
      ensures !old(senderOpen) || !turn.readable ==>
                && toTask == old(toTask) && arrived == old(arrived) && senderOpen == old(senderOpen)
                && peerFin == old(peerFin) && resetFlag == old(resetFlag)
      ensures !old(finished) ==> Passed(old(Passing(Chunks(), turn.taken)), old(accepted))
      ensures old(finished) ==> finished
      ensures old(sendFailed) ==> sendFailed && finished && fromTask == old(fromTask)
      ensures retired <==> old(retired) || (!senderOpen && finished)
    {
      ServeIn(turn);
      PumpOut(turn.taken);
      var gone := Retire();
    }

    /** A stream its task has dropped keeps its sender exactly as long as the
        transport does not list it, so the driver forgets it exactly once its output
        is over and it has been listed: a peer that stays silent holds it for good.
        Nothing more is taken from the transport for it. */
    method Linger(turns: seq<Turn>)
      requires Valid() && readerGone && (resetFlag ==> !senderOpen)
      modifies `toTask, `senderOpen, `resetFlag, `arrived, `peerFin,
               `fromTask, `pendingOut, `finished, `accepted, `fins, `sendFailed, `retired
      ensures Valid() && arrived == old(arrived)
      ensures senderOpen <==> old(senderOpen) && Silent(turns)
      ensures retired <==> old(retired) || (turns != [] && finished && (!old(senderOpen) || !Silent(turns)))
    {
      for i := 0 to |turns|
        invariant Valid() && (resetFlag ==> !senderOpen) && arrived == old(arrived)
        invariant senderOpen <==> old(senderOpen) && Silent(turns[..i])
        invariant retired <==> old(retired) || (i > 0 && !senderOpen && finished)
      {
        assert turns[..i + 1] == turns[..i] + [turns[i]];
        Service(turns[i]);
      }
      assert turns[..|turns|] == turns;
    }

    /** Once the transport has failed a stream, its queue is drained no more: a
        writer that finds it full is parked until the sender is gone, whatever the
        transport and the peer do meanwhile; and then it is told. */
    method Parked(turns: seq<Turn>, buf: seq<byte>) returns (writing: Writing)
      requires Valid() && (resetFlag ==> !senderOpen) && turns != [] && buf != []
      requires sendFailed && writerOpen && !stopped && !retired && |fromTask| == DEPTH
      modifies `toTask, `senderOpen, `resetFlag, `arrived, `peerFin,
               `fromTask, `pendingOut, `finished, `accepted, `fins, `sendFailed, `retired, `written
      ensures Valid()
      ensures writing == if senderOpen then WritePending else BrokenPipe
      ensures Silent(turns) ==> senderOpen == old(senderOpen)
    {
      for i := 0 to |turns|
        invariant Valid() && (resetFlag ==> !senderOpen) && sendFailed && finished && fromTask == old(fromTask)
        invariant i == 0 ==> !retired
        invariant i > 0 ==> (retired <==> !senderOpen)
        invariant Silent(turns[..i]) ==> senderOpen == old(senderOpen)
      {
        assert turns[..i + 1] == turns[..i] + [turns[i]];
        Service(turns[i]);
      }
      assert turns[..|turns|] == turns;
      writing := PollWrite(buf);
    }
  }

  /** The witness: one chunk the transport fails, eight more that fill the queue, and
      the ninth waits as long as the peer is silent. */
  method ParkedForGood(turns: seq<Turn>) returns (writing: Writing)
    requires turns != [] && Silent(turns)
    ensures writing == WritePending
  {
    var stream := new Stream();
    var first := stream.PollWrite([0]);
    assert stream.fromTask == [[0][..1]];
    stream.Service(Turn(false, [], [SendFailed]));
    assert |stream.Chunks()| == 0;
    for i := 0 to DEPTH
      invariant fresh(stream) && stream.Valid() && stream.sendFailed && stream.writerOpen && stream.senderOpen
      invariant !stream.stopped && !stream.retired && !stream.resetFlag && |stream.fromTask| == i
    {
      var next := stream.PollWrite([0]);
    }
    writing := stream.Parked(turns, [0]);
  }
}
