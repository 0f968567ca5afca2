/** The session loop of `handle_upgrade` (worker/src/do_sync_ws.rs) as it runs: one frame at a
    time, with other sessions free to change the store at every await. */
module SyncServer {
  import opened Protocol
  import opened PageStore
  import opened SyncSpec
  import opened SyncFsm
  import opened Session
  import Projections

  /** What the socket's event stream can yield. */
  datatype WsEvent = Frame(msg: SyncMessage) | TextFrame | Undecodable | PeerClosed | SocketError

  /** The loop resumes with an event; meanwhile others may have used the store. */
  datatype Wakeup = Wakeup(event: WsEvent, store: Store, storeCredit: Credit, sendCredit: Credit)

  /** The stream of events to come. */
  class Events {
    var script: seq<Wakeup>

    constructor (script: seq<Wakeup>)
      ensures this.script == script
    {
      this.script := script;
    }

    method Next(storage: PageTable, sink: Sink) returns (e: Option<WsEvent>)
      modifies this, storage, sink`credit
      ensures old(script) == [] ==>
                e.None? && script == [] && sink.credit == old(sink.credit)
      ensures old(script) != [] ==>
                && e == Some(old(script)[0].event) && script == old(script)[1..]
                && storage.pages == old(script)[0].store
                && storage.credit == old(script)[0].storeCredit
                && sink.credit == old(script)[0].sendCredit
    {
      if script == [] {
        return None;
      }
      e := Some(script[0].event);
      storage.pages, storage.credit, sink.credit := script[0].store, script[0].storeCredit, script[0].sendCredit;
      script := script[1..];
    }
  }

  /** The frames before the first event that is something else. */
  function Leading(script: seq<Wakeup>): seq<Arrival> {
    if script == [] || !script[0].event.Frame? then []
    else [ArrivalOf(script[0])] + Leading(script[1..])
  }

  function ArrivalOf(w: Wakeup): Arrival
    requires w.event.Frame?
  {
    Arrival(w.event.msg, w.store, w.storeCredit, w.sendCredit)
  }

  /** That event, if there is one. */
  function Ending(script: seq<Wakeup>): Option<WsEvent> {
    if script == [] then None
    else if script[0].event.Frame? then Ending(script[1..])
    else Some(script[0].event)
  }

  /** The message a session that ends this way tries to leave behind. */
  function Complaint(status: Status, ending: Option<WsEvent>): Option<string> {
    match status
    case Failed(why) => if why == SendFailed then None else Some(Reason(why))
    case Finished => None
    case Open =>
      if ending == Some(TextFrame) then Some("expected binary frame")
      else if ending == Some(Undecodable) then Some("decode")
      else None
  }

  /** The code it closes the socket with, if it still does. */
  function CloseCode(status: Status, ending: Option<WsEvent>): Option<nat> {
    match status
    case Failed(why) => if why == SendFailed then None else Some(1011)
    case Finished => Some(1000)
    case Open =>
      if ending == Some(TextFrame) then Some(1003)
      else if ending == Some(Undecodable) then Some(1002)
      else None
  }

  function Parting(complaint: Option<string>, delivered: bool): seq<SyncMessage> {
    if complaint.Some? && delivered then [Error(complaint.value)] else []
  }

  /** The frames are those before the first event that is something else, with everything they
      meet, and that event is the one the loop ends with. */
  lemma {:induction false} LeadingMeans(script: seq<Wakeup>)
    ensures var frames := Leading(script);
            && |frames| <= |script|
            && (forall i | 0 <= i < |frames| ::
                  && script[i].event == Frame(frames[i].msg) && frames[i].store == script[i].store
                  && frames[i].storeCredit == script[i].storeCredit && frames[i].sendCredit == script[i].sendCredit)
            && (|frames| == |script| ==> Ending(script) == None)
            && (|frames| < |script| ==>
                  !script[|frames|].event.Frame? && Ending(script) == Some(script[|frames|].event))
  {
    if script != [] && script[0].event.Frame? {
      LeadingMeans(script[1..]);
    }
  }

  /** A session that is over has left exactly the frames a whole push or pull puts on the way to
      the client, and so has each step that ended one. */
  lemma {:induction false} LoopSendsTheSame(s: Session, ending: Option<WsEvent>, step: Step)
    ensures !s.status.Open? ==>
              Frames(s.log) + Parting(Complaint(s.status, ending), true) == Projections.ServerFrames(s)
    ensures Parting(Complaint(StatusAfter(step), None), true) == ErrorFrames(step)
  {
    hide Frames;
  }

  /** The socket has carried these frames and one Error after them, or these frames only and
      takes no more. */
  ghost predicate Reported(sink: Sink, frames: seq<SyncMessage>, message: string)
    reads sink
  {
    sink.sent == frames + [Error(message)] || (sink.sent == frames && sink.credit == Limited(0))
  }

  /** How a connection is left behind, by what became of its session and by the event that ended
      it. */
  ghost predicate LeftWith(sink: Sink, s: Session, ending: Option<WsEvent>, close: Option<nat>)
    reads sink
  {
    var frames := Frames(s.log);
    match s.status
    case Finished => sink.sent == frames && close == Some(1000)
    case Failed(SendFailed) => sink.sent == frames && close == None
    case Failed(why) => Reported(sink, frames, Reason(why)) && close == Some(1011)
    case Open =>
      match ending
      case Some(TextFrame) => Reported(sink, frames, "expected binary frame") && close == Some(1003)
      case Some(Undecodable) => Reported(sink, frames, "decode") && close == Some(1002)
      case _ => sink.sent == frames && close == None
  }

  /** What the client is told. */
  lemma {:induction false} Reasons()
    ensures Reason(VersionMismatch) == "protocol_version mismatch"
    ensures Reason(HelloExpected) == "first message must be Hello"
    ensures Reason(HelloRepeated) == "Hello may only be sent once"
    ensures Reason(ServerMessageFromClient) == "client may not send server-originated message"
    ensures Reason(StorageFailed) == "storage"
  {
  }

  lemma {:induction false} ConcludedMeans(fsm: SyncFsm, sink: Sink, s: Session, ending: Option<WsEvent>,
                                          close: Option<nat>, delivered: bool)
    requires Concluded(fsm, sink, s, ending, close, delivered)
    ensures LeftWith(sink, s, ending, close)
  {
    hide Frames;
  }

  /** Frames after the end of a session are never looked at. */
  lemma {:induction false} RunStops(h: Hash, direction: Direction, arrivals: seq<Arrival>, more: seq<Arrival>)
    requires !Run(h, direction, arrivals).status.Open?
    ensures Run(h, direction, arrivals + more) == Run(h, direction, arrivals)
    decreases |more|
  {
    if more == [] {
      assert arrivals + more == arrivals;
    } else {
      var n := |more| - 1;
      RunStops(h, direction, arrivals, more[..n]);
      RunSnoc(h, direction, arrivals + more[..n], more[n]);
      assert arrivals + more == (arrivals + more[..n]) + [more[n]];
    }
  }

  /** The next event either joins the frames or ends them. */
  lemma {:induction false} NextEvent(arrivals: seq<Arrival>, script: seq<Wakeup>)
    ensures script == [] || !script[0].event.Frame? ==>
              && arrivals + Leading(script) == arrivals
              && Ending(script) == if script == [] then None else Some(script[0].event)
    ensures script != [] && script[0].event.Frame? ==>
              && arrivals + Leading(script) == arrivals + [ArrivalOf(script[0])] + Leading(script[1..])
              && Ending(script) == Ending(script[1..])
  {
  }

  /** An open session has nothing to complain about. */
  lemma {:induction false} QuietlyOn(s: Session, delivered: bool)
    requires s.status.Open?
    ensures Frames(s.log) + Parting(Complaint(s.status, None), delivered) == Frames(s.log)
  {
  }

  method SendError(message: string, sink: Sink) returns (delivered: bool)
    modifies sink
    ensures delivered == (old(sink.credit) != Limited(0))
    ensures sink.sent == old(sink.sent) + Parting(Some(message), delivered)
    ensures !delivered ==> sink.credit == Limited(0)
  {
    delivered := sink.Send(Error(message));
  }

  /** The socket and the fields after session `s`, which ended with this event. */
  ghost predicate Concluded(fsm: SyncFsm, sink: Sink, s: Session, ending: Option<WsEvent>, close: Option<nat>,
                            delivered: bool)
    reads fsm, sink
  {
    && fsm.State() == s.fsm && fsm.log == s.log
    && sink.sent == Frames(s.log) + Parting(Complaint(s.status, ending), delivered)
    && (Complaint(s.status, ending).Some? ==> delivered || sink.credit == Limited(0))
    && close == CloseCode(s.status, ending)
  }

  /** One frame of the loop's body. */
  method HandleFrame(fsm: SyncFsm, msg: SyncMessage, sink: Sink, ghost before: Session, ghost a: Arrival)
    returns (over: bool, close: Option<nat>, delivered: bool)
    requires fsm.Valid(sink) && before == Session(fsm.State(), fsm.log, Open)
    requires a == Arrival(msg, fsm.storage.pages, fsm.storage.credit, sink.credit)
    modifies fsm, fsm.storage, sink
    ensures Concluded(fsm, sink, Deliver(fsm.hash, before, a), None, close, delivered)
    ensures over == !Deliver(fsm.hash, before, a).status.Open?
    ensures LeftWith(sink, Deliver(fsm.hash, before, a), None, close)
  {
    hide LeftWith, Reported, Apply, Frames;
    ghost var after := Deliver(fsm.hash, before, a);
    var result := fsm.ApplyFrame(msg, sink);
    if result == Some(SendFailed) {
      ConcludedMeans(fsm, sink, after, None, None, false);
      return true, None, false;
    }
    if result.Some? {
      delivered := SendError(Reason(result.value), sink);
      ConcludedMeans(fsm, sink, after, None, Some(1011), delivered);
      return true, Some(1011), delivered;
    }
    if fsm.emittedComplete {
      ConcludedMeans(fsm, sink, after, None, Some(1000), false);
      return true, Some(1000), false;
    }
    ConcludedMeans(fsm, sink, after, None, None, false);
    return false, None, false;
  }

  /** Any other event ends the loop. */
  method HandleEnd(fsm: SyncFsm, event: Option<WsEvent>, sink: Sink) returns (close: Option<nat>, delivered: bool)
    requires event.None? || !event.value.Frame?
    requires ClientClosed(fsm.State()) == fsm.State()
    modifies fsm, sink
    ensures fsm.State() == old(fsm.State()) && fsm.log == old(fsm.log)
    ensures close == CloseCode(Open, event)
    ensures sink.sent == old(sink.sent) + Parting(Complaint(Open, event), delivered)
    ensures Complaint(Open, event).Some? ==> delivered || sink.credit == Limited(0)
    ensures match event
            case Some(TextFrame) => Reported(sink, old(sink.sent), "expected binary frame") && close == Some(1003)
            case Some(Undecodable) => Reported(sink, old(sink.sent), "decode") && close == Some(1002)
            case _ => sink.sent == old(sink.sent) && close == None
  {
    match event
    case Some(TextFrame) =>
      delivered := SendError("expected binary frame", sink);
      return Some(1003), delivered;
    case Some(Undecodable) =>
      delivered := SendError("decode", sink);
      return Some(1002), delivered;
    case Some(PeerClosed) =>
      fsm.OnClientClosed();
      return None, false;
    case _ =>
      return None, false;
  }

  /** What the loop must leave behind for a stream of events.  The complaint is lost only if
      the socket takes no more frames. */
  ghost predicate Served(fsm: SyncFsm, sink: Sink, script: seq<Wakeup>, close: Option<nat>, delivered: bool)
    reads fsm, sink
  {
    Concluded(fsm, sink, Run(fsm.hash, fsm.direction, Leading(script)), Ending(script), close, delivered)
  }

  /** Once a session is over, it does not matter what else would have arrived. */
  lemma {:induction false} OverIsOver(h: Hash, direction: Direction, script: seq<Wakeup>, arrivals: seq<Arrival>,
                                      rest: seq<Wakeup>, ending: Option<WsEvent>)
    requires Leading(script) == arrivals + Leading(rest)
    requires !Run(h, direction, arrivals).status.Open?
    ensures var s := Run(h, direction, Leading(script));
            && s == Run(h, direction, arrivals)
            && Complaint(s.status, ending) == Complaint(s.status, None)
            && CloseCode(s.status, ending) == CloseCode(s.status, None)
  {
    RunStops(h, direction, arrivals, Leading(rest));
    hide Run, Leading;
  }

  /** The loop delivers exactly the frames of the specification's run, however it ends: the
      session's state and its frames are those of `Session.Run`, followed by at most one Error
      that names the reason, and by the close code that goes with it. */
  method HandleEvents(fsm: SyncFsm, events: Events, sink: Sink) returns (close: Option<nat>, delivered: bool)
    requires fsm.Valid(sink) && fsm.State() == NewFsm(fsm.direction) && fsm.log == []
    modifies fsm, fsm.storage, events, sink
    ensures Served(fsm, sink, old(events.script), close, delivered)
    ensures LeftWith(sink, Run(fsm.hash, fsm.direction, Leading(old(events.script))), Ending(old(events.script)), close)
  {
    ghost var script := events.script;
    ghost var arrivals: seq<Arrival> := [];
    ghost var s := NewSession(fsm.direction);
    assert s == Run(fsm.hash, fsm.direction, arrivals);
    hide Run, Leading, Ending, Apply, Deliver, Frames, ClientClosed, Complaint, CloseCode, Parting, LeftWith, Reported;
    while true
      invariant fsm.Valid(sink)
      invariant Leading(script) == arrivals + Leading(events.script)
      invariant Ending(script) == Ending(events.script)
      invariant s == Run(fsm.hash, fsm.direction, arrivals)
      invariant s == Session(fsm.State(), fsm.log, Open)
      decreases |events.script|
    {
      ghost var rest := events.script;
      NextEvent(arrivals, rest);
      var event := events.Next(fsm.storage, sink);
      if event.None? || !event.value.Frame? {
        ClosingIsIdle(fsm.hash, fsm.direction, arrivals);
        close, delivered := HandleEnd(fsm, event, sink);
        ConcludedMeans(fsm, sink, s, Ending(script), close, delivered);
        return;
      }
      ghost var a := ArrivalOf(rest[0]);
      RunSnoc(fsm.hash, fsm.direction, arrivals, a);
      arrivals := arrivals + [a];
      var over;
      over, close, delivered := HandleFrame(fsm, event.value.msg, sink, s, a);
      s := Deliver(fsm.hash, s, a);
      if over {
        OverIsOver(fsm.hash, fsm.direction, script, arrivals, rest[1..], Ending(script));
        ConcludedMeans(fsm, sink, s, Ending(script), close, delivered);
        return;
      }
      QuietlyOn(s, delivered);
    }
  }
}
