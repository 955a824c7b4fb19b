/** One connection's code and the server's steps: `handle_connection` does to the registry
    what the connection's events do when no other task comes between them. */
module WsSession {
  import opened Pointer
  import opened Registry
  import opened WsServer

  /** The connection's frames arrive, and those under the id of the first are recorded. */
  function FrameEvents(c: Sender, frames: seq<Envelope>, now: int): seq<Event> {
    if frames == [] then []
    else
      var last := |frames| - 1;
      var before := FrameEvents(c, frames[..last], now) + [FrameArrives(c, frames[last])];
      if frames[last].appId == frames[0].appId then before + [FrameRecorded(c, now)] else before
  }

  /** The stream ends; if an app was announced, its sender is dropped and it is marked. */
  function EndEvents(c: Sender, frames: seq<Envelope>): seq<Event> {
    if frames == [] then [StreamEnds(c)] else [StreamEnds(c)] + [SenderDropped(c)] + [AppMarked(c)]
  }

  lemma {:induction false} FramesAreServed(events: seq<Event>, c: Sender, frames: seq<Envelope>, now: int)
    requires Reached(events).Some? && c in Reached(events).value.tasks
    requires Reached(events).value.tasks[c] == Task(Reading, None)
    ensures var s, after := Reached(events).value, Reached(events + FrameEvents(c, frames, now));
            var (served, id) := FramesServed(s.registry, None, c, frames, now);
            && after.Some? && after.value.registry == served
            && c in after.value.tasks && after.value.tasks[c] == Task(Reading, id)
  {
    hide Reached, Recorded, SenderRegistered;
    if frames == [] {
      assert events + [] == events;
    } else {
      var last := |frames| - 1;
      var front, e := frames[..last], frames[last];
      var past := events + FrameEvents(c, front, now);
      FramesAreServed(events, c, front, now);
      OneMore(past, FrameArrives(c, e));
      assert events + (FrameEvents(c, front, now) + [FrameArrives(c, e)]) == past + [FrameArrives(c, e)];
      BoundToFirst(Reached(events).value.registry, c, frames, now);
      if e.appId == frames[0].appId {
        OneMore(past + [FrameArrives(c, e)], FrameRecorded(c, now));
        assert events + (FrameEvents(c, front, now) + [FrameArrives(c, e)] + [FrameRecorded(c, now)])
            == past + [FrameArrives(c, e)] + [FrameRecorded(c, now)];
      }
    }
  }

  /** After some frames the connection is bound to the id of the first. */
  lemma {:induction false} BoundToFirst(s: State, c: Sender, frames: seq<Envelope>, now: int)
    requires frames != []
    ensures FramesServed(s, None, c, frames[..|frames| - 1], now).1
         == if |frames| == 1 then None else Some(frames[0].appId)
  {
    var front := frames[..|frames| - 1];
    if front != [] {
      ForeignFramesAreDropped(s, c, front, now);
    }
  }

  /** The connection's own events, in a row, leave the registry just as its code does. */
  lemma {:induction false} HandledAsInSystem(events: seq<Event>, c: Sender, frames: seq<Envelope>, now: int)
    requires Reached(events).Some? && c in Reached(events).value.tasks
    requires Reached(events).value.tasks[c] == Task(Reading, None)
    ensures var s, after := Reached(events).value, Reached(events + FrameEvents(c, frames, now) + EndEvents(c, frames));
            var (served, id) := FramesServed(s.registry, None, c, frames, now);
            after.Some? && after.value.registry == Cleaned(served, id, c) && InPhase(after.value, c, Ended)
  {
    hide Reached, FramesServed, MarkedDisconnected, SenderUnregistered;
    var past := events + FrameEvents(c, frames, now);
    FramesAreServed(events, c, frames, now);
    OneMore(past, StreamEnds(c));
    if frames == [] {
      NothingServed(Reached(events).value.registry, c, now);
    } else {
      ForeignFramesAreDropped(Reached(events).value.registry, c, frames, now);
      OneMore(past + [StreamEnds(c)], SenderDropped(c));
      OneMore(past + [StreamEnds(c)] + [SenderDropped(c)], AppMarked(c));
      assert past + ([StreamEnds(c)] + [SenderDropped(c)] + [AppMarked(c)])
          == past + [StreamEnds(c)] + [SenderDropped(c)] + [AppMarked(c)];
    }
  }

  lemma {:induction false} NothingServed(s: State, c: Sender, now: int)
    ensures FramesServed(s, None, c, [], now) == (s, None)
  {
  }

  /** At the end the app that the connection announced is disconnected, if it is listed, and
      no longer has this connection's sender; all else is as the frames left it. */
  lemma {:induction false} EndedConnectionIsGone(s: State, c: Sender, frames: seq<Envelope>, now: int, a: string)
    requires frames != []
    ensures var (served, id) := FramesServed(s, None, c, frames, now);
            var t := Cleaned(served, id, c);
            var own := frames[0].appId;
            && t.apps.Keys == served.apps.Keys && t.cache == served.cache
            && (own in t.apps ==> t.apps[own] == served.apps[own].(connected := false))
            && (a in t.apps && a != own ==> t.apps[a] == served.apps[a])
            && (a in t.senders <==> a in served.senders && !(a == own && served.senders[a] == c))
            && (a in t.senders ==> t.senders[a] == served.senders[a])
  {
    hide FramesServed;
    ForeignFramesAreDropped(s, c, frames, now);
  }
}
