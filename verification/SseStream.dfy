/**
 The per-user stream generator: one "connected" frame, then a frame for each well-formed
 published message, with heartbeats in between.
 */
module SseStream {
  import opened Wrappers
  import opened Sse

  /** What one `get_message` call finds, and how `json.loads` and `.get` see it. */
  datatype Incoming =
    | Nothing
    | Control
    | Malformed
    | NotAnObject
    | Payload(data: Option<string>, event: Option<Option<string>>, timestamp: Option<string>)

  /** One turn of the loop; `nowText` is the default event id, `checkedAt` the heartbeat check's clock. */
  datatype Poll = Poll(incoming: Incoming, nowText: string, checkedAt: real)

  /** What the consumer does while the generator is suspended at a frame. */
  datatype Reaction = Continue | CallStop | Close

  datatype Frame = MessageFrame(message: Item) | HeartbeatFrame(at: real) {
    function Item(): Item {
      if MessageFrame? then message else Comment("heartbeat")
    }
  }

  /** `open` turns false when the consumer closes the generator or a payload raises inside it. */
  datatype Session = Session(frames: seq<Frame>, last: real, running: bool, open: bool) {
    predicate Live() {
      running && open
    }
  }

  function Connected(json: string, retry: int): Item {
    Message(json, Some("connected"), None, Some(retry))
  }

  function PayloadItem(p: Incoming, nowText: string): Item
    requires p.Payload?
  {
    Message(
      if p.data.Some? then p.data.value else "{}",
      if p.event.Some? then p.event.value else Some("notification"),
      Some(if p.timestamp.Some? then p.timestamp.value else nowText),
      None)
  }

  function ReactionTo(consumer: seq<Reaction>, frame: nat): Reaction {
    if frame < |consumer| then consumer[frame] else Continue
  }

  function Yield(s: Session, frame: Frame, consumer: seq<Reaction>): Session {
    var r := ReactionTo(consumer, |s.frames|);
    s.(frames := s.frames + [frame], running := s.running && r != CallStop, open := s.open && r != Close)
  }

  function Opening(connected: Item, subscribedAt: real, consumer: seq<Reaction>): Session {
    Yield(Session([], subscribedAt, true, true), MessageFrame(connected), consumer)
  }

  function HeartbeatCheck(s: Session, now: real, interval: real, consumer: seq<Reaction>): Session {
    if now - s.last >= interval then Yield(s.(last := now), HeartbeatFrame(now), consumer) else s
  }

  function HandleMessage(s: Session, poll: Poll, consumer: seq<Reaction>): Session {
    if poll.incoming.Payload? then Yield(s, MessageFrame(PayloadItem(poll.incoming, poll.nowText)), consumer)
    else s.(open := s.open && !poll.incoming.NotAnObject?)
  }

  function Turn(s: Session, poll: Poll, interval: real, consumer: seq<Reaction>): Session {
    var s' := HandleMessage(s, poll, consumer);
    if s'.open then HeartbeatCheck(s', poll.checkedAt, interval, consumer) else s'
  }

  function Turns(s: Session, polls: seq<Poll>, interval: real, consumer: seq<Reaction>): Session {
    if polls == [] then s
    else
      var s' := Turns(s, polls[..|polls| - 1], interval, consumer);
      if s'.Live() then Turn(s', polls[|polls| - 1], interval, consumer) else s'
  }

  function Texts(frames: seq<Frame>): (texts: seq<string>)
    ensures |texts| == |frames|
    ensures forall i :: 0 <= i < |frames| ==> texts[i] == ItemText(frames[i].Item())
  {
    seq(|frames|, i requires 0 <= i < |frames| => ItemText(frames[i].Item()))
  }

  class SSEStreamGenerator {
    const heartbeatInterval: real
    var running: bool
    var subscribed: bool
    var lastHeartbeat: real

    constructor (heartbeatInterval: real, now: real)
      ensures this.heartbeatInterval == heartbeatInterval
      ensures !running && !subscribed && lastHeartbeat == now
    {
      this.heartbeatInterval := heartbeatInterval;
      running := false;
      subscribed := false;
      lastHeartbeat := now;
    }

    /** The gap since the last heartbeat is below the interval afterwards, except when the interval is not positive. */
    method SendHeartbeatIfNeeded(now: real) returns (heartbeat: Option<string>)
      modifies this`lastHeartbeat
      ensures heartbeat == if now - old(lastHeartbeat) >= heartbeatInterval
                           then Some(ItemText(Comment("heartbeat"))) else None
      ensures lastHeartbeat == if heartbeat.Some? then now else old(lastHeartbeat)
      ensures now - lastHeartbeat < heartbeatInterval <==> heartbeat.None? || heartbeatInterval > 0.0
    {
      if now - lastHeartbeat >= heartbeatInterval {
        lastHeartbeat := now;
        var text := FormatSseComment("heartbeat");
        return Some(text);
      }
      return None;
    }

    method Stop()
      modifies this`running, this`subscribed
      ensures !running && !subscribed
    {
      running := false;
      if subscribed {
        subscribed := false;
      }
    }

    /** The body of the loop; `s` is the session so far, and `open` says whether the generator goes on. */
    method TakeTurn(poll: Poll, output: seq<string>, consumer: seq<Reaction>, ghost s: Session)
      returns (extended: seq<string>, open: bool)
      requires s.Live() && running && lastHeartbeat == s.last && output == Texts(s.frames)
      modifies this`running, this`lastHeartbeat
      ensures var t := Turn(s, poll, heartbeatInterval, consumer);
              && extended == Texts(t.frames)
              && running == t.running && open == t.open && (open ==> lastHeartbeat == t.last)
    {
      extended, open := output, true;
      if poll.incoming.NotAnObject? {
        return extended, false;
      }
      if poll.incoming.Payload? {
        var item := PayloadItem(poll.incoming, poll.nowText);
        var text := FormatSseMessage(item.json, item.event, item.eventId, item.retry);
        var resumed := Resume(extended, text, consumer, running);
        extended, running, open := resumed.0, resumed.1, resumed.2;
        YieldText(s, MessageFrame(item), consumer);
      }
      ghost var between := HandleMessage(s, poll, consumer);
      if open {
        var heartbeat := SendHeartbeatIfNeeded(poll.checkedAt);
        if heartbeat.Some? {
          var resumed := Resume(extended, heartbeat.value, consumer, running);
          extended, running, open := resumed.0, resumed.1, resumed.2;
          YieldText(between.(last := poll.checkedAt), HeartbeatFrame(poll.checkedAt), consumer);
        }
      }
    }

    /**
     Runs until the consumer ends the stream or `polls` is used up; in the second case the
     generator is still running, and what was observed is a prefix of a longer run.
     */
    method Stream(connectedJson: string, retryTimeout: int, subscribedAt: real,
                  polls: seq<Poll>, consumer: seq<Reaction>)
      returns (output: seq<string>)
      modifies this
      ensures var s := Turns(Opening(Connected(connectedJson, retryTimeout), subscribedAt, consumer),
                             polls, heartbeatInterval, consumer);
              && output == Texts(s.frames)
              && running == subscribed == s.Live()
              && (s.Live() ==> lastHeartbeat == s.last)
    {
      running := true;
      var text := FormatSseMessage(connectedJson, Some("connected"), None, Some(retryTimeout));
      output := [text];
      ghost var s0 := Opening(Connected(connectedJson, retryTimeout), subscribedAt, consumer);
      ghost var s := s0;
      var reaction := ReactionTo(consumer, 0);
      if reaction == CallStop {
        Stop();
      }
      var open := reaction != Close;
      if open {
        subscribed := true;
        lastHeartbeat := subscribedAt;
      }
      var i := 0;
      assert polls[..0] == [];
      while running && open && i < |polls|
        invariant i <= |polls|
        invariant s == Turns(s0, polls[..i], heartbeatInterval, consumer)
        invariant output == Texts(s.frames)
        invariant running == s.running && open == s.open
        invariant open ==> subscribed && lastHeartbeat == s.last
      {
        TurnsStep(s0, polls, i, heartbeatInterval, consumer);
        output, open := TakeTurn(polls[i], output, consumer, s);
        s := Turn(s, polls[i], heartbeatInterval, consumer);
        i := i + 1;
      }
      StaysEnded(s0, polls, i, heartbeatInterval, consumer);
      if !running || !open {
        Stop();
      }
    }
  }

  /** Hands a frame to the consumer and takes up what the consumer did while the generator waited. */
  function Resume(output: seq<string>, text: string, consumer: seq<Reaction>, running: bool)
    : (seq<string>, bool, bool)
  {
    var r := ReactionTo(consumer, |output|);
    (output + [text], running && r != CallStop, r != Close)
  }

  lemma YieldText(s: Session, frame: Frame, consumer: seq<Reaction>)
    ensures Texts(Yield(s, frame, consumer).frames) == Texts(s.frames) + [ItemText(frame.Item())]
  {
  }

  lemma TurnsStep(s: Session, polls: seq<Poll>, i: nat, interval: real, consumer: seq<Reaction>)
    requires i < |polls| && Turns(s, polls[..i], interval, consumer).Live()
    ensures Turns(s, polls[..i + 1], interval, consumer)
         == Turn(Turns(s, polls[..i], interval, consumer), polls[i], interval, consumer)
  {
    assert polls[..i + 1][..i] == polls[..i];
  }

  lemma {:induction false} StaysEnded(s: Session, polls: seq<Poll>, i: nat, interval: real, consumer: seq<Reaction>)
    requires i <= |polls|
    requires i == |polls| || !Turns(s, polls[..i], interval, consumer).Live()
    ensures Turns(s, polls, interval, consumer) == Turns(s, polls[..i], interval, consumer)
    decreases |polls|
  {
    if i == |polls| {
      assert polls[..i] == polls;
    } else {
      assert polls[..|polls| - 1][..i] == polls[..i];
      StaysEnded(s, polls[..|polls| - 1], i, interval, consumer);
    }
  }

  // ---------- Properties of every run ----------

  function Items(frames: seq<Frame>): seq<Item> {
    seq(|frames|, i requires 0 <= i < |frames| => frames[i].Item())
  }

  function Messages(frames: seq<Frame>): seq<Item> {
    if frames == [] then []
    else Messages(frames[..|frames| - 1])
         + if frames[|frames| - 1].MessageFrame? then [frames[|frames| - 1].message] else []
  }

  function Heartbeats(frames: seq<Frame>): seq<real> {
    if frames == [] then []
    else Heartbeats(frames[..|frames| - 1])
         + if frames[|frames| - 1].HeartbeatFrame? then [frames[|frames| - 1].at] else []
  }

  /** The well-formed published messages, in arrival order. */
  function Payloads(polls: seq<Poll>): seq<Item> {
    if polls == [] then []
    else
      var p := polls[|polls| - 1];
      Payloads(polls[..|polls| - 1])
      + if p.incoming.Payload? then [PayloadItem(p.incoming, p.nowText)] else []
  }

  lemma YieldAppends(s: Session, frame: Frame, consumer: seq<Reaction>)
    ensures var t := Yield(s, frame, consumer);
            && Messages(t.frames) == Messages(s.frames) + (if frame.MessageFrame? then [frame.message] else [])
            && Heartbeats(t.frames) == Heartbeats(s.frames) + (if frame.HeartbeatFrame? then [frame.at] else [])
  {
    assert (s.frames + [frame])[..|s.frames|] == s.frames;
  }

  lemma HandleMessageAppends(s: Session, poll: Poll, consumer: seq<Reaction>)
    ensures var t := HandleMessage(s, poll, consumer);
            && Messages(t.frames) == Messages(s.frames) + Payloads([poll])
            && Heartbeats(t.frames) == Heartbeats(s.frames) && t.last == s.last
  {
    assert Payloads([poll]) == if poll.incoming.Payload? then [PayloadItem(poll.incoming, poll.nowText)] else [] by {
      assert [poll][..0] == [];
      assert Payloads([]) == [];
    }
    if poll.incoming.Payload? {
      YieldAppends(s, MessageFrame(PayloadItem(poll.incoming, poll.nowText)), consumer);
    }
  }

  /** The heartbeats and the last heartbeat time either stay, or gain one heartbeat spaced by the interval. */
  ghost predicate BeatStep(s: Session, t: Session, interval: real) {
    || (Heartbeats(t.frames) == Heartbeats(s.frames) && t.last == s.last)
    || (Heartbeats(t.frames) == Heartbeats(s.frames) + [t.last] && t.last - s.last >= interval)
  }

  lemma HeartbeatCheckAppends(s: Session, now: real, interval: real, consumer: seq<Reaction>)
    ensures var t := HeartbeatCheck(s, now, interval, consumer);
            && Messages(t.frames) == Messages(s.frames)
            && BeatStep(s, t, interval)
            && (interval > 0.0 ==> now - t.last < interval)
  {
    YieldAppends(s.(last := now), HeartbeatFrame(now), consumer);
  }

  lemma TurnAppends(s: Session, poll: Poll, interval: real, consumer: seq<Reaction>)
    ensures var t := Turn(s, poll, interval, consumer);
            && Messages(t.frames) == Messages(s.frames) + Payloads([poll])
            && BeatStep(s, t, interval)
            && (t.open && interval > 0.0 ==> poll.checkedAt - t.last < interval)
  {
    HandleMessageAppends(s, poll, consumer);
    HeartbeatCheckAppends(HandleMessage(s, poll, consumer), poll.checkedAt, interval, consumer);
  }

  lemma PayloadsStep(polls: seq<Poll>)
    requires polls != []
    ensures Payloads(polls) == Payloads(polls[..|polls| - 1]) + Payloads([polls[|polls| - 1]])
  {
    var poll := polls[|polls| - 1];
    assert [poll][..0] == [];
    assert Payloads([]) == [];
  }

  lemma Append<T>(a: seq<T>, b: seq<T>, c: seq<T>)
    ensures (a + b) + c == a + (b + c)
    ensures a + b <= a + (b + c)
  {
  }

  /**
   Message frames are the "connected" frame and then the well-formed payloads in arrival order:
   all of them while the stream is live, a prefix once it has ended.
   */
  lemma {:induction false} MessagesInArrivalOrder(
    connected: Item, at: real, polls: seq<Poll>, interval: real, consumer: seq<Reaction>)
    ensures var s := Turns(Opening(connected, at, consumer), polls, interval, consumer);
            && Messages(s.frames) <= [connected] + Payloads(polls)
            && (s.Live() ==> Messages(s.frames) == [connected] + Payloads(polls))
  {
    var s0 := Opening(connected, at, consumer);
    if polls == [] {
      YieldAppends(Session([], at, true, true), MessageFrame(connected), consumer);
      assert Messages([]) == [];
    } else {
      var before, poll := polls[..|polls| - 1], polls[|polls| - 1];
      MessagesInArrivalOrder(connected, at, before, interval, consumer);
      PayloadsStep(polls);
      Append([connected], Payloads(before), Payloads([poll]));
      var s := Turns(s0, before, interval, consumer);
      if s.Live() {
        TurnAppends(s, poll, interval, consumer);
      }
    }
  }

  // ---------- A consumer that only reads ----------

  /** The consumer never stops or closes the generator. */
  predicate OnlyReads(consumer: seq<Reaction>) {
    forall i :: 0 <= i < |consumer| ==> consumer[i] == Continue
  }

  predicate AllObjects(polls: seq<Poll>) {
    forall i :: 0 <= i < |polls| ==> !polls[i].incoming.NotAnObject?
  }

  /** A turn keeps the stream live exactly when its payload does not raise. */
  lemma TurnStaysLive(s: Session, poll: Poll, interval: real, consumer: seq<Reaction>)
    requires s.Live() && OnlyReads(consumer)
    ensures Turn(s, poll, interval, consumer).Live() <==> !poll.incoming.NotAnObject?
  {
  }

  /** With such a consumer the stream is live exactly as long as every JSON payload was an object. */
  lemma {:induction false} LiveExactlyWhenObjects(s: Session, polls: seq<Poll>, interval: real, consumer: seq<Reaction>)
    requires s.Live() && OnlyReads(consumer)
    ensures Turns(s, polls, interval, consumer).Live() <==> AllObjects(polls)
  {
    if polls != [] {
      var before, poll := polls[..|polls| - 1], polls[|polls| - 1];
      LiveExactlyWhenObjects(s, before, interval, consumer);
      if Turns(s, before, interval, consumer).Live() {
        TurnStaysLive(Turns(s, before, interval, consumer), poll, interval, consumer);
      }
      assert AllObjects(polls) <==> AllObjects(before) && !poll.incoming.NotAnObject?;
    }
  }

  /** The polls before the first JSON payload that is no object. */
  function UntilRaise(polls: seq<Poll>): (n: nat)
    ensures n <= |polls| && AllObjects(polls[..n]) && (n < |polls| ==> polls[n].incoming.NotAnObject?)
  {
    if polls == [] then 0
    else
      var before := polls[..|polls| - 1];
      var n := UntilRaise(before);
      assert before[..n] == polls[..n];
      if n < |before| || polls[|polls| - 1].incoming.NotAnObject? then n else n + 1
  }

  /**
   That payload ends the stream, so the messages sent are exactly those before it; none is lost if
   there is no such payload.
   */
  lemma MessagesUntilRaise(
    connected: Item, at: real, polls: seq<Poll>, interval: real, consumer: seq<Reaction>)
    requires OnlyReads(consumer)
    ensures Messages(Turns(Opening(connected, at, consumer), polls, interval, consumer).frames)
         == [connected] + Payloads(polls[..UntilRaise(polls)])
  {
    var s0 := Opening(connected, at, consumer);
    var n := UntilRaise(polls);
    LiveExactlyWhenObjects(s0, polls[..n], interval, consumer);
    MessagesInArrivalOrder(connected, at, polls[..n], interval, consumer);
    if n == |polls| {
      assert polls[..n] == polls;
    } else {
      RaiseSendsNothing(s0, polls, n, interval, consumer);
    }
  }

  lemma RaiseSendsNothing(s: Session, polls: seq<Poll>, n: nat, interval: real, consumer: seq<Reaction>)
    requires n < |polls| && polls[n].incoming.NotAnObject? && Turns(s, polls[..n], interval, consumer).Live()
    ensures Turns(s, polls, interval, consumer).frames == Turns(s, polls[..n], interval, consumer).frames
    ensures !Turns(s, polls, interval, consumer).open
  {
    TurnsStep(s, polls, n, interval, consumer);
    StaysEnded(s, polls, n + 1, interval, consumer);
  }

  function Preceding(start: real, beats: seq<real>, i: nat): real
    requires i <= |beats|
  {
    if i == 0 then start else beats[i - 1]
  }

  /** Each heartbeat follows the previous one, or the subscription, by at least the interval. */
  ghost predicate Spaced(start: real, beats: seq<real>, interval: real) {
    forall i :: 0 <= i < |beats| ==> beats[i] - Preceding(start, beats, i) >= interval
  }

  /** Heartbeats so far are spaced, and `last` is the latest of them. */
  ghost predicate WellSpaced(start: real, s: Session, interval: real) {
    var beats := Heartbeats(s.frames);
    Spaced(start, beats, interval) && s.last == Preceding(start, beats, |beats|)
  }

  lemma BeatStepKeepsSpaced(start: real, s: Session, t: Session, interval: real)
    requires WellSpaced(start, s, interval) && BeatStep(s, t, interval)
    ensures WellSpaced(start, t, interval)
  {
    if Heartbeats(t.frames) != Heartbeats(s.frames) {
      BeatAppended(start, Heartbeats(s.frames), t.last, interval);
    }
  }

  lemma OpeningIsSpaced(connected: Item, at: real, interval: real, consumer: seq<Reaction>)
    ensures WellSpaced(at, Opening(connected, at, consumer), interval)
  {
    YieldAppends(Session([], at, true, true), MessageFrame(connected), consumer);
    assert Heartbeats([]) == [];
  }

  /** Heartbeats are spaced by at least the interval under any clock, and `last` is the latest of them. */
  lemma {:induction false} HeartbeatsAreSpaced(
    connected: Item, at: real, polls: seq<Poll>, interval: real, consumer: seq<Reaction>)
    ensures var s := Turns(Opening(connected, at, consumer), polls, interval, consumer);
            var beats := Heartbeats(s.frames);
            && Spaced(at, beats, interval)
            && s.last == Preceding(at, beats, |beats|)
  {
    OpeningIsSpaced(connected, at, interval, consumer);
    TurnsKeepSpaced(at, Opening(connected, at, consumer), polls, interval, consumer);
  }

  lemma {:induction false} TurnsKeepSpaced(
    start: real, s: Session, polls: seq<Poll>, interval: real, consumer: seq<Reaction>)
    requires WellSpaced(start, s, interval)
    ensures WellSpaced(start, Turns(s, polls, interval, consumer), interval)
  {
    if polls != [] {
      var t := Turns(s, polls[..|polls| - 1], interval, consumer);
      var poll := polls[|polls| - 1];
      TurnsKeepSpaced(start, s, polls[..|polls| - 1], interval, consumer);
      if t.Live() {
        TurnAppends(t, poll, interval, consumer);
        BeatStepKeepsSpaced(start, t, Turn(t, poll, interval, consumer), interval);
      }
    }
  }

  lemma BeatAppended(start: real, beats: seq<real>, beat: real, interval: real)
    requires Spaced(start, beats, interval) && beat - Preceding(start, beats, |beats|) >= interval
    ensures Spaced(start, beats + [beat], interval)
  {
    var more := beats + [beat];
    forall i | 0 <= i < |more|
      ensures more[i] - Preceding(start, more, i) >= interval
    {
      assert i < |beats| ==> beats[i] - Preceding(start, beats, i) >= interval;
      assert Preceding(start, more, i) == Preceding(start, beats, i);
    }
  }

  /** How many of the polls the loop gets to before the stream ends. */
  function TurnsTaken(s: Session, polls: seq<Poll>, interval: real, consumer: seq<Reaction>): (n: nat)
    ensures n <= |polls|
    ensures Turns(s, polls, interval, consumer).Live() ==> n == |polls|
  {
    if polls == [] then 0
    else
      var before := polls[..|polls| - 1];
      TurnsTaken(s, before, interval, consumer) + if Turns(s, before, interval, consumer).Live() then 1 else 0
  }

  /**
   In a stream that is live or was ended by `stop()`, the last check found, or made, a heartbeat
   less than an interval old.
   */
  lemma {:induction false} NoLateHeartbeat(s: Session, polls: seq<Poll>, interval: real, consumer: seq<Reaction>)
    requires interval > 0.0 && Turns(s, polls, interval, consumer).open
    requires TurnsTaken(s, polls, interval, consumer) > 0
    ensures polls[TurnsTaken(s, polls, interval, consumer) - 1].checkedAt - Turns(s, polls, interval, consumer).last
          < interval
  {
    var before := polls[..|polls| - 1];
    if Turns(s, before, interval, consumer).Live() {
      TurnAppends(Turns(s, before, interval, consumer), polls[|polls| - 1], interval, consumer);
    } else {
      NoLateHeartbeat(s, before, interval, consumer);
    }
  }

  // ---------- The stream as the browser reads it ----------

  function Concat(texts: seq<string>): string {
    if texts == [] then "" else texts[0] + Concat(texts[1..])
  }

  lemma {:induction false} ConcatOfItems(texts: seq<string>, items: seq<Item>)
    requires |texts| == |items| && forall i :: 0 <= i < |texts| ==> texts[i] == ItemText(items[i])
    ensures Concat(texts) == StreamText(items)
    decreases |texts|
  {
    if texts != [] {
      ConcatOfItems(texts[1..], items[1..]);
    }
  }

  lemma ConcatIsStreamText(frames: seq<Frame>)
    ensures Concat(Texts(frames)) == StreamText(Items(frames))
  {
    ConcatOfItems(Texts(frames), Items(frames));
  }

  lemma {:induction false} DeliverAllConcat(inbox: Inbox, a: seq<Item>, b: seq<Item>)
    ensures DeliverAll(inbox, a + b) == DeliverAll(DeliverAll(inbox, a), b)
    decreases |a|
  {
    if a == [] {
      assert a + b == b;
    } else {
      assert (a + b)[1..] == a[1..] + b;
      DeliverAllConcat(Deliver(inbox, a[0]), a[1..], b);
    }
  }

  lemma DeliverOne(inbox: Inbox, item: Item)
    ensures DeliverAll(inbox, [item]) == Deliver(inbox, item)
  {
    assert [item][1..] == [];
  }

  lemma {:induction false} HeartbeatsAreInvisible(inbox: Inbox, frames: seq<Frame>)
    requires forall i :: 0 <= i < |frames| && frames[i].MessageFrame? ==> frames[i].message.Message?
    ensures DeliverAll(inbox, Items(frames)) == DeliverAll(inbox, Messages(frames))
  {
    if frames != [] {
      var before := frames[..|frames| - 1];
      var frame := frames[|frames| - 1];
      HeartbeatsAreInvisible(inbox, before);
      assert Items(frames) == Items(before) + [frame.Item()];
      DeliverAllConcat(inbox, Items(before), [frame.Item()]);
      DeliverOne(DeliverAll(inbox, Items(before)), frame.Item());
      if frame.MessageFrame? {
        DeliverAllConcat(inbox, Messages(before), [frame.message]);
      } else {
        assert Messages(frames) == Messages(before);
      }
    }
  }

  lemma {:induction false} FrameIsAMessage(frames: seq<Frame>, i: nat)
    requires i < |frames| && frames[i].MessageFrame?
    ensures frames[i].message in Messages(frames)
  {
    if i < |frames| - 1 {
      FrameIsAMessage(frames[..|frames| - 1], i);
    }
  }

  ghost predicate CleanMessage(m: Item) {
    m.Message? && PlainBody(m) && CleanHeaders(m)
  }

  lemma CleanItem(frames: seq<Frame>, i: nat)
    requires i < |frames| && forall m <- Messages(frames) :: CleanMessage(m)
    ensures PlainBody(frames[i].Item()) && CleanHeaders(frames[i].Item())
    ensures frames[i].MessageFrame? ==> frames[i].message.Message?
  {
    if frames[i].MessageFrame? {
      FrameIsAMessage(frames, i);
      assert CleanMessage(frames[i].message);
    }
  }

  lemma CleanMessagesCleanItems(frames: seq<Frame>)
    requires forall m <- Messages(frames) :: CleanMessage(m)
    ensures forall i :: 0 <= i < |frames| && frames[i].MessageFrame? ==> frames[i].message.Message?
    ensures forall i :: 0 <= i < |frames| ==> PlainBody(Items(frames)[i]) && CleanHeaders(Items(frames)[i])
  {
    forall i | 0 <= i < |frames|
      ensures frames[i].MessageFrame? ==> frames[i].message.Message?
      ensures PlainBody(Items(frames)[i]) && CleanHeaders(Items(frames)[i])
    {
      CleanItem(frames, i);
    }
  }

  lemma PrefixIsDelivered(inbox: Inbox, a: seq<Item>, b: seq<Item>)
    requires a <= b
    ensures DeliverAll(inbox, a).received <= DeliverAll(inbox, b).received
  {
    assert b == a + b[|a|..];
    DeliverAllConcat(inbox, a, b[|a|..]);
    DeliverAllKeeps(DeliverAll(inbox, a), b[|a|..]);
  }

  /**
   End to end: from the bytes of any stream, live or ended, a standard event-source client has
   received exactly the messages sent, in order, and these are the "connected" message and the
   well-formed payloads: all of them if the stream is live, a prefix if it has ended. Heartbeats
   left no trace.
   */
  lemma ClientReceivesPayloads(
    connected: Item, at: real, polls: seq<Poll>, interval: real, consumer: seq<Reaction>)
    requires connected.Message?
    requires forall m <- [connected] + Payloads(polls) :: PlainBody(m) && CleanHeaders(m)
    ensures var s := Turns(Opening(connected, at, consumer), polls, interval, consumer);
            var received := Interpret(Concat(Texts(s.frames))).dispatched;
            var all := DeliverAll(NEW_INBOX, [connected] + Payloads(polls)).received;
            && received == DeliverAll(NEW_INBOX, Messages(s.frames)).received
            && received <= all
            && (s.Live() ==> received == all)
  {
    var s := Turns(Opening(connected, at, consumer), polls, interval, consumer);
    var all := [connected] + Payloads(polls);
    MessagesInArrivalOrder(connected, at, polls, interval, consumer);
    PayloadsAreMessages(polls);
    assert forall m <- Messages(s.frames) :: m in all;
    PrefixIsDelivered(NEW_INBOX, Messages(s.frames), all);
    ClientReadsFrames(s.frames);
  }

  // ---------- What is received, in terms of what was published ----------

  /**
   The event that a published payload should become. Missing data is an empty object, a missing
   event name "notification", a null or empty one the standard's "message", a missing timestamp the
   clock's text, and an empty one leaves the last id as it was.
   */
  function EventOf(p: Incoming, nowText: string, lastId: string): Event
    requires p.Payload?
  {
    Event(
      match p.event
      case None => "notification"
      case Some(None) => "message"
      case Some(Some(name)) => if name == "" then "message" else name,
      match p.data
      case None => "{}"
      case Some(json) => json,
      match p.timestamp
      case None => if nowText == "" then lastId else nowText
      case Some(stamp) => if stamp == "" then lastId else stamp)
  }

  function LastId(events: seq<Event>): string {
    if events == [] then "" else events[|events| - 1].lastEventId
  }

  /** The events that the published payloads should become, in order. */
  function Published(polls: seq<Poll>): seq<Event> {
    if polls == [] then []
    else
      var before, poll := Published(polls[..|polls| - 1]), polls[|polls| - 1];
      before + if poll.incoming.Payload? then [EventOf(poll.incoming, poll.nowText, LastId(before))] else []
  }

  /** A turn sends a published payload as one message, which a reader takes as exactly the event it should become. */
  lemma PayloadIsSent(s: Session, poll: Poll, interval: real, consumer: seq<Reaction>, inbox: Inbox)
    requires poll.incoming.Payload?
    ensures var before, after := Messages(s.frames), Messages(Turn(s, poll, interval, consumer).frames);
            && |after| == |before| + 1 && after[..|before|] == before
            && var event := EventOf(poll.incoming, poll.nowText, inbox.lastEventId);
               Deliver(inbox, after[|before|])
               == Inbox(event.lastEventId, inbox.reconnectionTime, inbox.received + [event])
  {
    TurnAppends(s, poll, interval, consumer);
    assert Payloads([poll]) == [PayloadItem(poll.incoming, poll.nowText)] by {
      assert [poll][..0] == [];
      assert Payloads([]) == [];
    }
  }

  lemma PayloadIsDelivered(inbox: Inbox, p: Incoming, nowText: string)
    requires p.Payload?
    ensures var event := EventOf(p, nowText, inbox.lastEventId);
            Deliver(inbox, PayloadItem(p, nowText))
            == Inbox(event.lastEventId, inbox.reconnectionTime, inbox.received + [event])
  {
  }

  lemma DeliverLast(inbox: Inbox, items: seq<Item>, item: Item)
    ensures DeliverAll(inbox, items + [item]) == Deliver(DeliverAll(inbox, items), item)
  {
    DeliverAllConcat(inbox, items, [item]);
    DeliverOne(DeliverAll(inbox, items), item);
  }

  lemma PayloadStep(polls: seq<Poll>)
    requires polls != []
    ensures var before, poll := polls[..|polls| - 1], polls[|polls| - 1];
            if poll.incoming.Payload? then
              && Payloads(polls) == Payloads(before) + [PayloadItem(poll.incoming, poll.nowText)]
              && Published(polls)
                 == Published(before) + [EventOf(poll.incoming, poll.nowText, LastId(Published(before)))]
            else
              Payloads(polls) == Payloads(before) && Published(polls) == Published(before)
  {
  }

  lemma {:induction false} PayloadsAreDelivered(inbox: Inbox, polls: seq<Poll>)
    requires inbox.lastEventId == ""
    ensures DeliverAll(inbox, Payloads(polls))
         == Inbox(LastId(Published(polls)), inbox.reconnectionTime, inbox.received + Published(polls))
  {
    if polls == [] {
      assert inbox.received + [] == inbox.received;
    } else {
      var before, poll := polls[..|polls| - 1], polls[|polls| - 1];
      PayloadsAreDelivered(inbox, before);
      PayloadStep(polls);
      if poll.incoming.Payload? {
        var between := DeliverAll(inbox, Payloads(before));
        DeliverLast(inbox, Payloads(before), PayloadItem(poll.incoming, poll.nowText));
        PayloadIsDelivered(between, poll.incoming, poll.nowText);
        Append(inbox.received, Published(before), [EventOf(poll.incoming, poll.nowText, between.lastEventId)]);
      }
    }
  }

  /** What a reader receives of the "connected" message and all payloads. */
  lemma AllIsDelivered(connectedJson: string, retry: int, polls: seq<Poll>)
    ensures DeliverAll(NEW_INBOX, [Connected(connectedJson, retry)] + Payloads(polls))
         == Inbox(LastId(Published(polls)), if retry > 0 then Some(retry) else None,
                  [Event("connected", connectedJson, "")] + Published(polls))
  {
    var connected := Connected(connectedJson, retry);
    DeliverAllConcat(NEW_INBOX, [connected], Payloads(polls));
    DeliverOne(NEW_INBOX, connected);
    PayloadsAreDelivered(Deliver(NEW_INBOX, connected), polls);
  }

  /** A published payload whose data, event name and id each fit on a line, the id without NUL. */
  predicate CleanPoll(poll: Poll) {
    poll.incoming.Payload? ==>
      && (poll.incoming.data.Some? ==> SingleLine(poll.incoming.data.value))
      && (poll.incoming.event.Some? && poll.incoming.event.value.Some? ==> SingleLine(poll.incoming.event.value.value))
      && var id := if poll.incoming.timestamp.Some? then poll.incoming.timestamp.value else poll.nowText;
         SingleLine(id) && '\0' !in id
  }

  predicate CleanPolls(polls: seq<Poll>) {
    forall i :: 0 <= i < |polls| ==> CleanPoll(polls[i])
  }

  lemma CleanPrefix(polls: seq<Poll>, n: nat)
    requires CleanPolls(polls) && n <= |polls|
    ensures CleanPolls(polls[..n])
  {
  }

  lemma ConnectedIsClean(json: string, retry: int)
    requires SingleLine(json)
    ensures CleanMessage(Connected(json, retry))
  {
  }

  lemma {:induction false} CleanPollsCleanPayloads(polls: seq<Poll>)
    requires CleanPolls(polls)
    ensures forall m <- Payloads(polls) :: CleanMessage(m)
  {
    if polls != [] {
      CleanPollsCleanPayloads(polls[..|polls| - 1]);
      assert CleanPoll(polls[|polls| - 1]);
    }
  }

  lemma {:induction false} PayloadsSplit(polls: seq<Poll>, n: nat)
    requires n <= |polls|
    ensures Payloads(polls) == Payloads(polls[..n]) + Payloads(polls[n..])
    decreases |polls|
  {
    if n == |polls| {
      assert polls[..n] == polls;
      assert Payloads([]) == [];
    } else {
      var before, poll := polls[..|polls| - 1], polls[|polls| - 1];
      var rest := polls[n..];
      PayloadsSplit(before, n);
      assert before[..n] == polls[..n];
      assert before[n..] == rest[..|rest| - 1] && rest[|rest| - 1] == poll;
      PayloadsStep(polls);
      PayloadsStep(rest);
      Append(Payloads(polls[..n]), Payloads(before[n..]), Payloads([poll]));
    }
  }

  lemma {:induction false} AsManyAsPayloads(polls: seq<Poll>)
    ensures |Published(polls)| == |Payloads(polls)|
  {
    if polls != [] {
      AsManyAsPayloads(polls[..|polls| - 1]);
    }
  }

  lemma ClientReadsMessages(frames: seq<Frame>, first: Item, rest: seq<Item>)
    requires Messages(frames) == [first] + rest && CleanMessage(first) && forall m <- rest :: CleanMessage(m)
    ensures Interpret(Concat(Texts(frames))) == Between(DeliverAll(NEW_INBOX, [first] + rest))
  {
    forall m <- Messages(frames)
      ensures CleanMessage(m)
    {
      assert m == first || m in rest;
    }
    ClientReadsFrames(frames);
  }

  lemma ReadsUntilRaise(
    connectedJson: string, retry: int, at: real, polls: seq<Poll>, interval: real, consumer: seq<Reaction>)
    requires OnlyReads(consumer) && SingleLine(connectedJson) && CleanPolls(polls)
    ensures var s := Turns(Opening(Connected(connectedJson, retry), at, consumer), polls, interval, consumer);
            Interpret(Concat(Texts(s.frames)))
            == Between(DeliverAll(NEW_INBOX, [Connected(connectedJson, retry)] + Payloads(polls[..UntilRaise(polls)])))
  {
    var connected := Connected(connectedJson, retry);
    var s := Turns(Opening(connected, at, consumer), polls, interval, consumer);
    MessagesUntilRaise(connected, at, polls, interval, consumer);
    CleanPrefix(polls, UntilRaise(polls));
    CleanPollsCleanPayloads(polls[..UntilRaise(polls)]);
    ConnectedIsClean(connectedJson, retry);
    ClientReadsMessages(s.frames, connected, Payloads(polls[..UntilRaise(polls)]));
  }

  /**
   What a client gets of a stream that it only reads, in terms of what was published: the
   "connected" event, and then each payload as the event it should become, up to the first that is
   no JSON object; all of them exactly when no payload comes after that. The reconnection time is
   the configured one.
   */
  lemma ClientReceivesUntilRaise(
    connectedJson: string, retry: int, at: real, polls: seq<Poll>, interval: real, consumer: seq<Reaction>)
    requires OnlyReads(consumer) && SingleLine(connectedJson) && CleanPolls(polls)
    ensures var s := Turns(Opening(Connected(connectedJson, retry), at, consumer), polls, interval, consumer);
            var client := Interpret(Concat(Texts(s.frames)));
            var n := UntilRaise(polls);
            && client.dispatched == [Event("connected", connectedJson, "")] + Published(polls[..n])
            && client.reconnectionTime == (if retry > 0 then Some(retry) else None)
            && (|client.dispatched| == 1 + |Published(polls)| <==> Payloads(polls[n..]) == [])
  {
    var n := UntilRaise(polls);
    ReadsUntilRaise(connectedJson, retry, at, polls, interval, consumer);
    AllIsDelivered(connectedJson, retry, polls[..n]);
    PayloadsSplit(polls, n);
    AsManyAsPayloads(polls);
    AsManyAsPayloads(polls[..n]);
  }

  lemma ClientReadsFrames(frames: seq<Frame>)
    requires forall m <- Messages(frames) :: CleanMessage(m)
    ensures Interpret(Concat(Texts(frames))) == Between(DeliverAll(NEW_INBOX, Messages(frames)))
  {
    CleanMessagesCleanItems(frames);
    HeartbeatsAreInvisible(NEW_INBOX, frames);
    ConcatIsStreamText(frames);
    RoundTrip(Items(frames));
  }

  lemma {:induction false} PayloadsAreMessages(polls: seq<Poll>)
    ensures forall m <- Payloads(polls) :: m.Message?
  {
    if polls != [] {
      PayloadsAreMessages(polls[..|polls| - 1]);
    }
  }
}
