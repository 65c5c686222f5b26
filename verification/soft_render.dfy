/** The soft renderer's hand-off: one slot a display, filled by the video thread and emptied by the
    UI sessions it notifies. */
module SoftRender {
  import opened Wrappers

  type SessionId = string

  type Pixels = seq<byte>

  datatype SessionHandler = SessionHandler(displays: seq<nat>, hasStream: bool)

  type Handlers = map<SessionId, SessionHandler>

  datatype RgbaData = RgbaData(data: Pixels, valid: bool)

  type Slots = map<nat, RgbaData>

  /** The sessions told about a frame: those with an event stream that show at most one display and,
      when there are several UI sessions, this one. */
  function Recipients(handlers: Handlers, display: nat): set<SessionId> {
    set id | id in handlers && Notified(handlers[id], display, |handlers| > 1)
  }

  predicate Notified(h: SessionHandler, display: nat, multi: bool) {
    |h.displays| <= 1 && (multi ==> display in h.displays) && h.hasStream
  }

  /** One session alone is told when it shows at most one display, one of several when it shows this
      display and no other. */
  lemma {:induction false} SoleOrShown(handlers: Handlers, display: nat)
    ensures forall id :: id in Recipients(handlers, display) <==>
              id in handlers && handlers[id].hasStream &&
              (handlers[id].displays == [display] || (handlers.Keys == {id} && |handlers[id].displays| <= 1))
  {
    forall id | id in handlers
      ensures |handlers| > 1 <==> handlers.Keys != {id}
      ensures |handlers[id].displays| <= 1 && display in handlers[id].displays <==> handlers[id].displays == [display]
    {
      assert handlers.Keys == {id} + (handlers.Keys - {id});
      assert |handlers.Keys| == |{id}| + |handlers.Keys - {id}|;
    }
  }

  function Released(slots: Slots, display: nat): Slots {
    if display in slots then slots[display := slots[display].(valid := false)] else slots
  }

  predicate Pending(slots: Slots, display: nat) {
    display in slots && slots[display].valid
  }

  function Offered(slots: Slots, handlers: Handlers, display: nat, raw: Pixels): Slots {
    if Pending(slots, display) then slots
    else slots[display := RgbaData(raw, Recipients(handlers, display) != {})]
  }

  // ----- what each operation does

  datatype Event =
    | Decoded(display: nat, raw: Pixels)
    | Fetched(display: nat)
    | Cleared
    | Attached(id: SessionId, displays: seq<nat>)
    | Started(id: SessionId)
    | Switched(id: SessionId, value: seq<nat>)
    | Detached(id: SessionId)

  function HandlersAfter(handlers: Handlers, e: Event): Handlers {
    match e
    case Attached(id, displays) => handlers[id := SessionHandler(displays, false)]
    case Started(id) => if id in handlers then handlers[id := handlers[id].(hasStream := true)] else handlers
    case Switched(id, value) => if id in handlers then handlers[id := handlers[id].(displays := value)] else handlers
    case Detached(id) => handlers - {id}
    case _ => handlers
  }

  function SlotsAfter(slots: Slots, handlers: Handlers, e: Event): Slots {
    match e
    case Decoded(d, raw) => Offered(slots, handlers, d, raw)
    case Fetched(d) => Released(slots, d)
    case Cleared => map[]
    case Attached(_, displays) => if |displays| == 1 then Released(slots, displays[0]) else slots
    case Switched(id, value) => if id in handlers && |value| == 1 then Released(slots, value[0]) else slots
    case _ => slots
  }

  class FlutterHandler {
    var sessionHandlers: Handlers
    var displayRgbas: Slots

    /** A decoded frame: kept, and announced, unless the last one has not been fetched yet. */
    method OnRgbaSoftRender(display: nat, raw: Pixels) returns (reuse: Pixels, sent: set<SessionId>)
      modifies this`displayRgbas
      ensures displayRgbas == SlotsAfter(old(displayRgbas), sessionHandlers, Decoded(display, raw))
      ensures sent == if Pending(old(displayRgbas), display) then {} else Recipients(sessionHandlers, display)
      ensures sent != {} ==> display in displayRgbas && displayRgbas[display] == RgbaData(raw, true)
      ensures sent == {} ==> displayRgbas == old(displayRgbas) || displayRgbas[display] == RgbaData(raw, false)
      ensures forall d :: d != display ==> (d in displayRgbas <==> d in old(displayRgbas))
      ensures forall d :: d != display && d in displayRgbas ==> displayRgbas[d] == old(displayRgbas)[d]
      ensures reuse == if Pending(old(displayRgbas), display) then raw
                       else if display in old(displayRgbas) then old(displayRgbas)[display].data else []
    {
      sent := {};
      if display in displayRgbas {
        if displayRgbas[display].valid {
          return raw, {};
        }
        reuse := displayRgbas[display].data;
        displayRgbas := displayRgbas[display := RgbaData(raw, true)];
      } else {
        reuse := [];
        displayRgbas := displayRgbas[display := RgbaData(raw, true)];
      }
      sent := Notify(display);
      if sent == {} {
        displayRgbas := displayRgbas[display := displayRgbas[display].(valid := false)];
      }
    }

    /** Tells the sessions concerned, in no particular order. */
    method Notify(display: nat) returns (sent: set<SessionId>)
      ensures sent == Recipients(sessionHandlers, display)
      ensures forall id :: id in sent <==>
                id in sessionHandlers && sessionHandlers[id].hasStream &&
                (sessionHandlers[id].displays == [display] ||
                 (sessionHandlers.Keys == {id} && |sessionHandlers[id].displays| <= 1))
    {
      SoleOrShown(sessionHandlers, display);
      sent := {};
      var isMultiSessions := |sessionHandlers| > 1;
      var todo := sessionHandlers.Keys;
      while todo != {}
        invariant todo <= sessionHandlers.Keys
        invariant forall id :: id in sent <==>
          id in sessionHandlers && id !in todo && Notified(sessionHandlers[id], display, isMultiSessions)
        decreases |todo|
      {
        var id :| id in todo;
        todo := todo - {id};
        var h := sessionHandlers[id];
        if |h.displays| > 1 {
          continue;
        }
        if isMultiSessions && display !in h.displays {
          continue;
        }
        if h.hasStream {
          sent := sent + {id};
        }
      }
    }

    method GetRgba(display: nat) returns (r: Option<Pixels>)
      ensures r == if Pending(displayRgbas, display) then Some(displayRgbas[display].data) else None
    {
      if display in displayRgbas && displayRgbas[display].valid {
        return Some(displayRgbas[display].data);
      }
      return None;
    }

    method NextRgba(display: nat)
      modifies this`displayRgbas
      ensures displayRgbas == SlotsAfter(old(displayRgbas), sessionHandlers, Fetched(display))
    {
      if display in displayRgbas {
        displayRgbas := displayRgbas[display := displayRgbas[display].(valid := false)];
      }
    }

    /** Changing the kind of renderer empties all slots. */
    method UpdateUseTextureRender()
      modifies this`displayRgbas
      ensures displayRgbas == SlotsAfter(old(displayRgbas), sessionHandlers, Cleared)
    {
      displayRgbas := map[];
    }

    method AttachSession(id: SessionId, displays: seq<nat>)
      modifies this
      ensures sessionHandlers == HandlersAfter(old(sessionHandlers), Attached(id, displays))
      ensures displayRgbas == SlotsAfter(old(displayRgbas), old(sessionHandlers), Attached(id, displays))
    {
      sessionHandlers := sessionHandlers[id := SessionHandler(displays, false)];
      if |displays| == 1 {
        NextRgba(displays[0]);
      }
    }

    method StartSession(id: SessionId)
      modifies this`sessionHandlers
      ensures sessionHandlers == HandlersAfter(old(sessionHandlers), Started(id))
    {
      if id in sessionHandlers {
        sessionHandlers := sessionHandlers[id := sessionHandlers[id].(hasStream := true)];
      }
    }

    method SwitchDisplay(id: SessionId, value: seq<nat>)
      modifies this
      ensures sessionHandlers == HandlersAfter(old(sessionHandlers), Switched(id, value))
      ensures displayRgbas == SlotsAfter(old(displayRgbas), old(sessionHandlers), Switched(id, value))
    {
      if id in sessionHandlers {
        sessionHandlers := sessionHandlers[id := sessionHandlers[id].(displays := value)];
        if |value| == 1 {
          NextRgba(value[0]);
        }
      }
    }

    method DetachSession(id: SessionId)
      modifies this`sessionHandlers
      ensures sessionHandlers == HandlersAfter(old(sessionHandlers), Detached(id))
    {
      sessionHandlers := sessionHandlers - {id};
    }
  }

  // ----- runs

  /** A frame a UI session fetched: which display, which event of the run decoded it, and its pixels. */
  datatype Frame = Frame(display: nat, at: nat, data: Pixels)

  /** Besides the program's own state: which event filled each slot, who was told about it then, and
      what has been fetched so far. */
  datatype State = State(handlers: Handlers, slots: Slots, filledAt: map<nat, nat>,
                         sent: map<nat, set<SessionId>>, fetched: seq<Frame>)

  const EMPTY := State(map[], map[], map[], map[], [])

  predicate Accepts(s: State, e: Event) {
    e.Decoded? && !Pending(s.slots, e.display)
  }

  function Step(s: State, e: Event, at: nat): State {
    State(HandlersAfter(s.handlers, e), SlotsAfter(s.slots, s.handlers, e),
          if Accepts(s, e) then s.filledAt[e.display := at] else s.filledAt,
          if Accepts(s, e) then s.sent[at := Recipients(s.handlers, e.display)] else s.sent,
          if e.Fetched? && Pending(s.slots, e.display) && e.display in s.filledAt
          then s.fetched + [Frame(e.display, s.filledAt[e.display], s.slots[e.display].data)] else s.fetched)
  }

  function After(events: seq<Event>): State
    decreases |events|
  {
    if events == [] then EMPTY
    else Step(After(events[..|events| - 1]), events[|events| - 1], |events| - 1)
  }

  /** The events that give a pending slot up: the fetch, a clear, and a session turning to that display alone. */
  predicate Releases(handlers: Handlers, e: Event, d: nat) {
    match e
    case Fetched(x) => x == d
    case Cleared => true
    case Attached(_, displays) => displays == [d]
    case Switched(id, value) => id in handlers && value == [d]
    case _ => false
  }

  /** Until it is released, a pending slot keeps its frame whatever else happens, including the
      arrival of newer frames and the departure of the sessions that were told about it. */
  lemma {:induction false} PendingStays(s: State, e: Event, at: nat, d: nat)
    requires Pending(s.slots, d)
    ensures Pending(Step(s, e, at).slots, d) <==> !Releases(s.handlers, e, d)
    ensures !Releases(s.handlers, e, d) ==> Step(s, e, at).slots[d] == s.slots[d]
  {
    match e
    case Decoded(x, raw) =>
    case Fetched(x) =>
    case Cleared =>
    case Attached(id, displays) => assert displays == [d] <==> |displays| == 1 && displays[0] == d;
    case Started(id) =>
    case Switched(id, value) => assert value == [d] <==> |value| == 1 && value[0] == d;
    case Detached(id) =>
  }

  /** Event `k` decoded the frame in the slot, a session was told about it then, and nothing has
      released it since. */
  ghost predicate AnnouncedAt(events: seq<Event>, d: nat, k: nat) {
    var s := After(events);
    && Pending(s.slots, d) && k < |events| && events[k] == Decoded(d, s.slots[d].data)
    && k in s.sent && s.sent[k] != {} && s.sent[k] == Recipients(After(events[..k]).handlers, d)
    && forall j {:trigger events[j]} :: k < j < |events| ==> !Releases(After(events[..j]).handlers, events[j], d)
  }

  /** A slot is pending only with a frame that was announced and not released since. */
  lemma {:induction false} PendingIsAnnounced(events: seq<Event>, d: nat)
    requires Pending(After(events).slots, d)
    ensures var s := After(events); d in s.filledAt && AnnouncedAt(events, d, s.filledAt[d])
    decreases |events|
  {
    if events != [] {
      var before, e, at := events[..|events| - 1], events[|events| - 1], |events| - 1;
      assert events == before + [e];
      if Pending(After(before).slots, d) {
        PendingIsAnnounced(before, d);
        PendingStays(After(before), e, at, d);
        StillAnnounced(before, e, d, After(before).filledAt[d]);
      } else {
        NowAnnounced(before, e, d);
      }
    }
  }

  lemma {:induction false} NowAnnounced(before: seq<Event>, e: Event, d: nat)
    requires !Pending(After(before).slots, d) && Pending(After(before + [e]).slots, d)
    ensures var s := After(before + [e]);
            d in s.filledAt && s.filledAt[d] == |before| && AnnouncedAt(before + [e], d, |before|)
  {
    var events := before + [e];
    assert events[..|before|] == before;
    assert e.Decoded? && e.display == d;
  }

  lemma {:induction false} StillAnnounced(before: seq<Event>, e: Event, d: nat, k: nat)
    requires AnnouncedAt(before, d, k) && !Releases(After(before).handlers, e, d)
    ensures AnnouncedAt(before + [e], d, k)
  {
    var events := before + [e];
    assert events[..|before|] == before;
    PendingStays(After(before), e, |before|, d);
    SentBefore(before);
    assert events[..k] == before[..k];
    forall j | k < j < |events|
      ensures !Releases(After(events[..j]).handlers, events[j], d)
    {
      if j < |before| {
        assert events[..j] == before[..j] && events[j] == before[j];
      }
    }
  }

  lemma {:induction false} SentBefore(events: seq<Event>)
    ensures forall k :: k in After(events).sent ==> k < |events|
    ensures forall d :: d in After(events).filledAt ==> After(events).filledAt[d] < |events|
    decreases |events|
  {
    if events != [] {
      SentBefore(events[..|events| - 1]);
    }
  }

  ghost predicate UnreleasedSince(events: seq<Event>, d: nat, k: nat) {
    forall j {:trigger events[j]} :: k < j < |events| ==> !Releases(After(events[..j]).handlers, events[j], d)
  }

  /** The slot of `d` holds the frame that event `k` decoded, ready to be fetched. */
  ghost predicate Keeps(events: seq<Event>, s: State, d: nat, k: nat) {
    && k < |events| && events[k].Decoded? && events[k].display == d
    && d in s.slots && s.slots[d] == RgbaData(events[k].raw, true)
    && d in s.filledAt && s.filledAt[d] == k
  }

  /** The converse: what was announced and not released since is pending, unchanged, and the next fetch
      takes it. */
  lemma {:induction false} AnnouncedIsPending(events: seq<Event>, d: nat, k: nat)
    requires k < |events| && events[k].Decoded? && events[k].display == d
    requires k in After(events).sent && After(events).sent[k] != {} && UnreleasedSince(events, d, k)
    ensures Keeps(events, After(events), d, k)
    ensures Step(After(events), Fetched(d), |events|).fetched == After(events).fetched + [Frame(d, k, events[k].raw)]
    decreases |events|
  {
    var before, e := events[..|events| - 1], events[|events| - 1];
    assert events == before + [e];
    SentBefore(before);
    if k < |before| {
      UnreleasedBefore(before, e, d, k);
      AnnouncedIsPending(before, d, k);
      KeepsStep(before, After(before), e, d, k);
    } else {
      KeepsNow(before, After(before), e);
    }
    TakesKept(events, After(events), d, k);
  }

  /** A slot is pending exactly when a frame of its display was announced and not released since. */
  lemma {:induction false} PendingExactly(events: seq<Event>, d: nat)
    ensures Pending(After(events).slots, d) <==>
            exists k: nat :: k < |events| && events[k].Decoded? && events[k].display == d &&
                             k in After(events).sent && After(events).sent[k] != {} && UnreleasedSince(events, d, k)
  {
    if Pending(After(events).slots, d) {
      PendingIsAnnounced(events, d);
    }
    forall k: nat | k < |events| && events[k].Decoded? && events[k].display == d &&
                    k in After(events).sent && After(events).sent[k] != {} && UnreleasedSince(events, d, k)
      ensures Pending(After(events).slots, d)
    {
      AnnouncedIsPending(events, d, k);
    }
  }

  lemma {:induction false} TakesKept(events: seq<Event>, s: State, d: nat, k: nat)
    requires Keeps(events, s, d, k)
    ensures Step(s, Fetched(d), |events|).fetched == s.fetched + [Frame(d, k, events[k].raw)]
  {
  }

  lemma {:induction false} KeepsStep(before: seq<Event>, s: State, e: Event, d: nat, k: nat)
    requires Keeps(before, s, d, k) && !Releases(s.handlers, e, d)
    ensures Keeps(before + [e], Step(s, e, |before|), d, k)
  {
    PendingStays(s, e, |before|, d);
  }

  lemma {:induction false} KeepsNow(before: seq<Event>, s: State, e: Event)
    requires e.Decoded? && |before| !in s.sent
    requires |before| in Step(s, e, |before|).sent && Step(s, e, |before|).sent[|before|] != {}
    ensures Keeps(before + [e], Step(s, e, |before|), e.display, |before|)
  {
  }

  lemma {:induction false} UnreleasedBefore(before: seq<Event>, e: Event, d: nat, k: nat)
    requires k < |before| && UnreleasedSince(before + [e], d, k)
    ensures UnreleasedSince(before, d, k) && !Releases(After(before).handlers, e, d)
  {
    var events := before + [e];
    forall j | k < j < |before|
      ensures !Releases(After(before[..j]).handlers, before[j], d)
    {
      assert events[..j] == before[..j] && events[j] == before[j];
    }
    assert events[..|before|] == before && events[|before|] == e;
  }

  /** The display that a session turns to alone is free, so that its next frame is accepted, and the
      session is told about it. */
  lemma {:induction false} SwitchedIsTold(s: State, id: SessionId, d: nat, raw: Pixels, at: nat)
    requires id in s.handlers && s.handlers[id].hasStream
    ensures var t := Step(Step(s, Switched(id, [d]), at), Decoded(d, raw), at + 1);
            && at + 1 in t.sent && id in t.sent[at + 1]
            && d in t.slots && t.slots[d] == RgbaData(raw, true)
  {
    var t := Step(s, Switched(id, [d]), at);
    SoleOrShown(t.handlers, d);
    assert t.handlers[id] == SessionHandler([d], true);
  }

  /** The same for a session that attaches to one display and starts. */
  lemma {:induction false} AttachedIsTold(s: State, id: SessionId, d: nat, raw: Pixels, at: nat)
    ensures var t := Step(Step(Step(s, Attached(id, [d]), at), Started(id), at + 1), Decoded(d, raw), at + 2);
            && at + 2 in t.sent && id in t.sent[at + 2]
            && d in t.slots && t.slots[d] == RgbaData(raw, true)
  {
    var t := Step(Step(s, Attached(id, [d]), at), Started(id), at + 1);
    SoleOrShown(t.handlers, d);
    assert t.handlers[id] == SessionHandler([d], true);
  }

  /** Whether pending or not, a slot holds the pixels of the last frame it accepted; the video thread gets
      that buffer back for the next one. */
  lemma {:induction false} SlotKeepsBuffer(events: seq<Event>, d: nat)
    requires d in After(events).slots
    ensures var s := After(events);
            d in s.filledAt && s.filledAt[d] < |events| && events[s.filledAt[d]] == Decoded(d, s.slots[d].data)
    decreases |events|
  {
    var before, e := events[..|events| - 1], events[|events| - 1];
    assert events == before + [e];
    if d in After(before).slots {
      SlotKeepsBuffer(before, d);
    }
  }

  /** `id` attached or left. */
  predicate Replaces(e: Event, id: SessionId) {
    (e.Attached? || e.Detached?) && e.id == id
  }

  /** A session has a stream only from its start on. */
  lemma {:induction false} StreamIsStarted(events: seq<Event>, id: SessionId) returns (j: nat)
    requires id in After(events).handlers && After(events).handlers[id].hasStream
    ensures j < |events| && events[j] == Started(id)
    ensures forall i :: j < i < |events| ==> !Replaces(events[i], id)
    decreases |events|
  {
    var before, e := events[..|events| - 1], events[|events| - 1];
    assert events == before + [e];
    if e == Started(id) {
      j := |before|;
    } else {
      j := StreamIsStarted(before, id);
      assert forall i :: j < i < |before| ==> events[i] == before[i];
    }
  }

  /** Only sessions that attached and started, and did not leave or attach anew since, are told. */
  lemma {:induction false} ToldHasStarted(events: seq<Event>, display: nat, id: SessionId) returns (j: nat)
    requires id in Recipients(After(events).handlers, display)
    ensures j < |events| && events[j] == Started(id)
    ensures forall i :: j < i < |events| ==> !Replaces(events[i], id)
  {
    j := StreamIsStarted(events, id);
  }

  /** What happens to one session leaves the others as they are. */
  lemma {:induction false} OthersUntouched(handlers: Handlers, e: Event, x: SessionId)
    requires (e.Attached? || e.Started? || e.Switched? || e.Detached?) ==> e.id != x
    ensures var after := HandlersAfter(handlers, e);
            (x in after <==> x in handlers) && (x in handlers ==> after[x] == handlers[x])
  {
  }

  /** A session that has left is told nothing. */
  lemma {:induction false} DetachedIsNotTold(s: State, id: SessionId, d: nat, raw: Pixels, at: nat)
    ensures var t := Step(Step(s, Detached(id), at), Decoded(d, raw), at + 1);
            t.sent != Step(s, Detached(id), at).sent ==> at + 1 in t.sent && id !in t.sent[at + 1]
  {
  }

  /** What is fetched: each frame whole, at most once, and in the order of decoding. */
  ghost predicate InOrder(events: seq<Event>, fetched: seq<Frame>) {
    (forall i :: 0 <= i < |fetched| ==>
       fetched[i].at < |events| && events[fetched[i].at] == Decoded(fetched[i].display, fetched[i].data)) &&
    (forall i, j :: 0 <= i < j < |fetched| && fetched[i].display == fetched[j].display ==>
       fetched[i].at < fetched[j].at)
  }

  /** The frame in a pending slot is newer than all that were fetched from it. */
  ghost predicate Newest(s: State, d: nat) {
    d in s.filledAt ==>
      forall i :: 0 <= i < |s.fetched| && s.fetched[i].display == d ==>
        s.fetched[i].at < s.filledAt[d] || (s.fetched[i].at == s.filledAt[d] && !Pending(s.slots, d))
  }

  lemma {:induction false} FetchedInOrder(events: seq<Event>)
    ensures InOrder(events, After(events).fetched)
    ensures forall d :: Newest(After(events), d)
    decreases |events|
  {
    if events != [] {
      var before, e, at := events[..|events| - 1], events[|events| - 1], |events| - 1;
      var s := After(before);
      FetchedInOrder(before);
      SentBefore(before);
      FetchStep(before, e);
    }
  }

  lemma {:induction false} FetchStep(before: seq<Event>, e: Event)
    requires InOrder(before, After(before).fetched) && forall d :: Newest(After(before), d)
    ensures var events := before + [e];
            InOrder(events, After(events).fetched) && forall d :: Newest(After(events), d)
  {
    var events, s := before + [e], After(before);
    assert events[..|events| - 1] == before;
    FetchedOneMore(before, e);
    forall d
      ensures Newest(Step(s, e, |before|), d)
    {
      assert Newest(s, d);
      NewestStep(before, e, d);
    }
  }

  lemma {:induction false} FetchedOneMore(before: seq<Event>, e: Event)
    requires InOrder(before, After(before).fetched) && (e.Fetched? ==> Newest(After(before), e.display))
    ensures InOrder(before + [e], Step(After(before), e, |before|).fetched)
  {
    if e.Fetched? && Pending(After(before).slots, e.display) {
      PendingIsAnnounced(before, e.display);
    }
  }

  lemma {:induction false} NewestStep(before: seq<Event>, e: Event, d: nat)
    requires Newest(After(before), d) && InOrder(before, After(before).fetched)
    ensures Newest(Step(After(before), e, |before|), d)
  {
    SentBefore(before);
    if Pending(After(before).slots, d) {
      PendingStays(After(before), e, |before|, d);
    }
  }
}
