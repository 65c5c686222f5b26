/** The registry of peer sessions: each peer connection carries the UI sessions attached to it. */
module Sessions {
  import opened Wrappers

  type SessionId = string

  datatype PeerKey = PeerKey(peerId: string, connType: int)

  /** A UI session: the displays it shows and those its renderer draws. */
  datatype UiSession = UiSession(displays: seq<nat>, drawn: set<nat>)

  type Handlers = map<SessionId, UiSession>

  type Registry = map<PeerKey, Handlers>

  // ----- what each operation does to the registry

  predicate Holds(m: Registry, k: PeerKey, id: SessionId) {
    k in m && id in m[k]
  }

  predicate Held(m: Registry, id: SessionId) {
    exists k :: k in m && Holds(m, k, id)
  }

  function Added(m: Registry, k: PeerKey, id: SessionId, h: UiSession): Registry {
    m[k := (if k in m then m[k] else map[])[id := h]]
  }

  /** `id` was met first under `k`. */
  function RemovedAt(m: Registry, k: PeerKey, id: SessionId): Registry
    requires Holds(m, k, id)
  {
    var rest := m[k] - {id};
    if rest == map[] then m - {k} else m[k := rest]
  }

  /** The displays the other UI sessions still draw, and the current one. */
  function Remaining(current: Option<nat>, id: SessionId, handlers: Handlers): set<nat> {
    (if current.Some? then {current.value} else {}) +
    set k, d | k in handlers && k != id && d in handlers[k].drawn :: d
  }

  method RemainingDisplays(current: Option<nat>, id: SessionId, handlers: Handlers) returns (displays: set<nat>)
    ensures displays == Remaining(current, id, handlers)
    ensures forall d :: d in displays <==>
              current == Some(d) || exists other :: other in handlers && other != id && d in handlers[other].drawn
  {
    displays := {};
    if current.Some? {
      displays := displays + {current.value};
    }
    var todo := handlers.Keys;
    while todo != {}
      invariant todo <= handlers.Keys
      invariant current.Some? ==> current.value in displays
      invariant forall k :: k in handlers && k !in todo && k != id ==> handlers[k].drawn <= displays
      invariant forall d :: d in displays ==> d in Remaining(current, id, handlers)
      decreases |todo|
    {
      var k :| k in todo;
      todo := todo - {k};
      if k != id {
        displays := displays + handlers[k].drawn;
      }
    }
  }

  class SessionMap {
    var sessions: Registry

    method InsertSession(id: SessionId, k: PeerKey)
      modifies this
      ensures sessions == Added(old(sessions), k, id, UiSession([], {}))
    {
      if k !in sessions {
        sessions := sessions[k := map[]];
      }
      sessions := sessions[k := sessions[k][id := UiSession([], {})]];
    }

    method InsertPeerSessionId(k: PeerKey, id: SessionId, displays: seq<nat>) returns (found: bool)
      modifies this
      ensures found == (k in old(sessions))
      ensures sessions == if found then Added(old(sessions), k, id, UiSession(displays, {})) else old(sessions)
    {
      found := k in sessions;
      if found {
        sessions := sessions[k := sessions[k][id := UiSession(displays, {})]];
      }
    }

    /** Peers are visited in no particular order; the first that holds the session loses it, and is
        removed, and returned, when it was its last one. */
    method RemoveSessionBySessionId(id: SessionId)
      returns (removed: Option<PeerKey>, captured: set<nat>, ghost at: Option<PeerKey>)
      modifies this
      ensures at.Some? <==> Held(old(sessions), id)
      ensures if at.None? then sessions == old(sessions) && removed == None && captured == {}
              else Holds(old(sessions), at.value, id) && sessions == RemovedAt(old(sessions), at.value, id) &&
                   removed == (if |old(sessions)[at.value]| == 1 then at else None) &&
                   captured == (if at.value in sessions then Remaining(None, id, sessions[at.value]) else {})
    {
      removed, captured, at := None, {}, None;
      var todo := sessions.Keys;
      while todo != {}
        invariant todo <= sessions.Keys && sessions == old(sessions)
        invariant forall k :: k in sessions && k !in todo ==> !Holds(sessions, k, id)
        decreases |todo|
      {
        var k :| k in todo;
        todo := todo - {k};
        if id in sessions[k] {
          at := Some(k);
          assert Holds(old(sessions), k, id);
          var rest := sessions[k] - {id};
          OneLess(sessions[k], id);
          if rest == map[] {
            removed := Some(k);
            sessions := sessions - {k};
          } else {
            sessions := sessions[k := rest];
            captured := RemainingDisplays(None, id, rest);
          }
          return;
        }
      }
    }

    method WouldRemovePeerBySessionId(id: SessionId) returns (would: bool, ghost at: Option<PeerKey>)
      ensures at.Some? <==> Held(sessions, id)
      ensures at.Some? ==> Holds(sessions, at.value, id)
      ensures would <==> at.Some? && |sessions[at.value]| == 1
    {
      at := None;
      var todo := sessions.Keys;
      while todo != {}
        invariant todo <= sessions.Keys
        invariant forall k :: k in sessions && k !in todo ==> !Holds(sessions, k, id)
        decreases |todo|
      {
        var k :| k in todo;
        todo := todo - {k};
        if id in sessions[k] {
          at := Some(k);
          assert Holds(sessions, k, id);
          return |sessions[k]| == 1, at;
        }
      }
      return false, at;
    }
  }

  lemma {:induction false} OneLess(handlers: Handlers, id: SessionId)
    requires id in handlers
    ensures handlers - {id} == map[] <==> |handlers| == 1
  {
    assert handlers.Keys == (handlers - {id}).Keys + {id};
    assert |handlers.Keys| == |(handlers - {id}).Keys| + 1;
    if |(handlers - {id}).Keys| == 0 {
      assert handlers - {id} == map[];
    }
  }

  // ----- the invariant over runs

  /** Every peer has a UI session, and no UI session is under two peers. */
  ghost predicate Consistent(m: Registry) {
    (forall k :: k in m ==> m[k] != map[]) &&
    (forall k, l, id :: Holds(m, k, id) && Holds(m, l, id) ==> k == l)
  }

  datatype Event =
    | Add(k: PeerKey, id: SessionId)
    | Attach(k: PeerKey, id: SessionId, displays: seq<nat>)
    | Remove(id: SessionId, at: PeerKey)

  /** A session is added only when its id is unknown; an attached id is fresh; removal meets the
      session under some peer. */
  ghost predicate CanStep(m: Registry, e: Event) {
    match e
    case Add(_, id) => !Held(m, id)
    case Attach(k, id, _) => k in m && !Held(m, id)
    case Remove(id, at) => Holds(m, at, id)
  }

  ghost function Step(m: Registry, e: Event): Registry
    requires CanStep(m, e)
  {
    match e
    case Add(k, id) => Added(m, k, id, UiSession([], {}))
    case Attach(k, id, displays) => Added(m, k, id, UiSession(displays, {}))
    case Remove(id, at) => RemovedAt(m, at, id)
  }

  ghost predicate IsRun(m: Registry, events: seq<Event>, last: Registry)
    decreases |events|
  {
    if events == [] then m == last
    else CanStep(m, events[0]) && IsRun(Step(m, events[0]), events[1..], last)
  }

  /** Adding a session keeps the registry consistent exactly when no other peer holds its id. */
  lemma {:induction false} AddedConsistent(m: Registry, k: PeerKey, id: SessionId, h: UiSession)
    requires Consistent(m)
    ensures Consistent(Added(m, k, id, h)) <==> forall l :: Holds(m, l, id) ==> l == k
  {
    var n := Added(m, k, id, h);
    assert Holds(n, k, id);
    forall l, x
      ensures Holds(n, l, x) <==> Holds(m, l, x) || (l == k && x == id)
    {
    }
    forall l | l in n
      ensures n[l] != map[]
    {
      if l == k { assert id in n[l]; }
    }
  }

  lemma {:induction false} RemovedConsistent(m: Registry, k: PeerKey, id: SessionId)
    requires Consistent(m) && Holds(m, k, id)
    ensures Consistent(RemovedAt(m, k, id))
    ensures !Held(RemovedAt(m, k, id), id)
  {
    var n := RemovedAt(m, k, id);
    forall l, x | Holds(n, l, x)
      ensures Holds(m, l, x) && !(l == k && x == id)
    {
    }
  }

  lemma {:induction false} RunConsistent(m: Registry, events: seq<Event>, last: Registry)
    requires Consistent(m) && IsRun(m, events, last)
    ensures Consistent(last)
    decreases |events|
  {
    if events != [] {
      match events[0] {
        case Add(k, id) => AddedConsistent(m, k, id, UiSession([], {}));
        case Attach(k, id, displays) => AddedConsistent(m, k, id, UiSession(displays, {}));
        case Remove(id, at) => RemovedConsistent(m, at, id);
      }
      RunConsistent(Step(m, events[0]), events[1..], last);
    }
  }

  /** What the query says, when it meets the session under `at`. */
  predicate Would(m: Registry, id: SessionId, at: PeerKey)
    requires Holds(m, at, id)
  {
    |m[at]| == 1
  }

  /** After any run from the empty registry, the query says what the removal then does, whatever the
      orders in which the two visit the peers. */
  lemma {:induction false} QueryMatchesRemoval(events: seq<Event>, m: Registry, id: SessionId,
                                               met: PeerKey, at: PeerKey)
    requires IsRun(map[], events, m) && Holds(m, met, id) && Holds(m, at, id)
    ensures Would(m, id, met) <==> at !in RemovedAt(m, at, id)
    ensures Would(m, id, met) <==> |RemovedAt(m, at, id)| < |m|
  {
    RunConsistent(map[], events, m);
    assert met == at;
    OneLess(m[at], id);
    SmallerRegistry(m, at, id);
  }

  lemma {:induction false} SmallerRegistry(m: Registry, at: PeerKey, id: SessionId)
    requires Holds(m, at, id)
    ensures at !in RemovedAt(m, at, id) <==> |RemovedAt(m, at, id)| < |m|
  {
    var n := RemovedAt(m, at, id);
    if at in n {
      assert n.Keys == m.Keys;
    } else {
      assert m.Keys == n.Keys + {at};
    }
  }

  // ----- where the query and the removal agree, without the invariant

  /** The query tells of `id` what the removal does, whichever holders the two meet. */
  ghost predicate Agree(m: Registry, id: SessionId) {
    forall met, at :: Holds(m, met, id) && Holds(m, at, id) ==> (Would(m, id, met) <==> at !in RemovedAt(m, at, id))
  }

  ghost predicate AllAgree(m: Registry) {
    forall id :: Agree(m, id)
  }

  /** They agree exactly when `id` is alone at all its holders or at none. */
  lemma {:induction false} AgreeExactly(m: Registry, id: SessionId)
    ensures Agree(m, id) <==>
            forall k, l :: Holds(m, k, id) && Holds(m, l, id) ==> (|m[k]| == 1 <==> |m[l]| == 1)
  {
    forall at | Holds(m, at, id)
      ensures at !in RemovedAt(m, at, id) <==> |m[at]| == 1
    {
      OneLess(m[at], id);
    }
    if Agree(m, id) {
      forall k, l | Holds(m, k, id) && Holds(m, l, id)
        ensures |m[k]| == 1 <==> |m[l]| == 1
      {
        assert Would(m, id, k) <==> l !in RemovedAt(m, l, id);
      }
    }
  }

  /** After an id was added once more: at a known peer they agree exactly when every other holder has
      further sessions, at a new peer exactly when no other holder has. */
  lemma {:induction false} AddedAgree(m: Registry, k: PeerKey, id: SessionId, h: UiSession)
    requires Consistent(m)
    ensures AllAgree(Added(m, k, id, h)) <==>
            forall l :: l != k && Holds(m, l, id) ==> (|m[l]| == 1 <==> k !in m)
  {
    var n := Added(m, k, id, h);
    assert Holds(n, k, id);
    forall l, x
      ensures Holds(n, l, x) <==> Holds(m, l, x) || (l == k && x == id)
      ensures l != k && Holds(m, l, x) ==> n[l] == m[l]
    {
    }
    forall l | l != k && Holds(m, l, id)
      ensures |n[k]| == 1 <==> k !in m
    {
      if k in m {
        var x :| x in m[k];
        assert Holds(m, k, x) && x != id;
        assert {x, id} <= n[k].Keys && |{x, id}| == 2;
        SubsetSize({x, id}, n[k].Keys);
      } else {
        assert n[k] == map[id := h];
      }
    }
    forall x | x != id
      ensures Agree(n, x)
    {
      AgreeExactly(n, x);
    }
    AgreeExactly(n, id);
  }

  lemma {:induction false} SubsetSize<T>(a: set<T>, b: set<T>)
    requires a <= b
    ensures |a| <= |b|
  {
    assert b == a + (b - a);
  }

  // ----- over the runs that begin at a registry

  ghost predicate RemovalsOnly(events: seq<Event>) {
    forall e :: e in events ==> e.Remove?
  }

  /** Some run leads from `m` to `last`; one of removals alone, if `removals`. */
  ghost predicate Reaches(m: Registry, removals: bool, last: Registry) {
    exists events :: IsRun(m, events, last) && (removals ==> RemovalsOnly(events))
  }

  /** The query and the removal agree on every id after every run from `m`. */
  ghost predicate AlwaysAgree(m: Registry, removals: bool) {
    forall last :: Reaches(m, removals, last) ==> AllAgree(last)
  }

  /** No session is under two peers. */
  ghost predicate OneHolder(m: Registry) {
    forall k, l, id :: Holds(m, k, id) && Holds(m, l, id) ==> k == l
  }

  /** No session is under two peers of which one has another session. */
  ghost predicate SharedAlone(m: Registry) {
    forall k, l, id :: Holds(m, k, id) && Holds(m, l, id) ==> k == l || (|m[k]| == 1 && |m[l]| == 1)
  }

  lemma {:induction false} AlwaysNow(m: Registry, removals: bool, id: SessionId)
    ensures AlwaysAgree(m, removals) ==> Agree(m, id)
  {
    assert Reaches(m, removals, m) by {
      assert IsRun(m, [], m) && RemovalsOnly([]);
    }
  }

  lemma {:induction false} ReachesBefore(m: Registry, removals: bool, e: Event, last: Registry)
    requires CanStep(m, e) && (removals ==> e.Remove?) && Reaches(Step(m, e), removals, last)
    ensures Reaches(m, removals, last)
  {
    var events :| IsRun(Step(m, e), events, last) && (removals ==> RemovalsOnly(events));
    assert ([e] + events)[1..] == events;
    assert IsRun(m, [e] + events, last);
  }

  lemma {:induction false} AlwaysNext(m: Registry, removals: bool, e: Event)
    requires CanStep(m, e) && (removals ==> e.Remove?)
    ensures AlwaysAgree(m, removals) ==> AlwaysAgree(Step(m, e), removals)
  {
    forall last | Reaches(Step(m, e), removals, last)
      ensures Reaches(m, removals, last)
    {
      ReachesBefore(m, removals, e, last);
    }
  }

  lemma {:induction false} RemovedKeeps(m: Registry, at: PeerKey, x: SessionId)
    requires Holds(m, at, x)
    ensures var n := RemovedAt(m, at, x);
            (SharedAlone(m) ==> SharedAlone(n)) && (OneHolder(m) ==> OneHolder(n)) &&
            forall k, id :: Holds(n, k, id) <==> Holds(m, k, id) && !(k == at && id == x)
  {
    var n := RemovedAt(m, at, x);
    forall k, id
      ensures Holds(n, k, id) <==> Holds(m, k, id) && !(k == at && id == x)
      ensures Holds(n, k, id) && k != at ==> n[k] == m[k]
      ensures Holds(n, at, id) ==> |m[at]| != 1
    {
      OneLess(m[at], x);
      assert id in m[at] && id != x ==> id in m[at] - {x};
    }
  }

  lemma {:induction false} SharedAloneRun(m: Registry, events: seq<Event>, last: Registry)
    requires SharedAlone(m) && IsRun(m, events, last) && RemovalsOnly(events)
    ensures SharedAlone(last)
    decreases |events|
  {
    if events != [] {
      assert events[0] in events;
      RemovedKeeps(m, events[0].at, events[0].id);
      SharedAloneRun(Step(m, events[0]), events[1..], last);
    }
  }

  lemma {:induction false} OneHolderRun(m: Registry, events: seq<Event>, last: Registry)
    requires OneHolder(m) && IsRun(m, events, last)
    ensures OneHolder(last)
    decreases |events|
  {
    if events != [] {
      var n := Step(m, events[0]);
      match events[0] {
        case Remove(id, at) => RemovedKeeps(m, at, id);
        case _ =>
          forall l, x
            ensures Holds(n, l, x) <==> Holds(m, l, x) || (l == events[0].k && x == events[0].id)
          {
          }
      }
      OneHolderRun(n, events[1..], last);
    }
  }

  /** Other sessions of one of two holders can be removed until the answers differ. */
  lemma {:induction false} RemoveOthers(m: Registry, k: PeerKey, l: PeerKey, id: SessionId)
    requires k != l && Holds(m, k, id) && Holds(m, l, id) && |m[l]| > 1
    ensures !AlwaysAgree(m, true)
    decreases |m[k]|
  {
    AlwaysNow(m, true, id);
    AgreeExactly(m, id);
    AtLeastOne(m, k, id);
    if |m[k]| > 1 {
      assert m[k].Keys == (m[k].Keys - {id}) + {id};
      var x :| x in m[k].Keys - {id};
      var n := RemovedAt(m, k, x);
      AlwaysNext(m, true, Remove(x, k));
      RemovedKeeps(m, k, x);
      assert n[k].Keys == m[k].Keys - {x};
      RemoveOthers(n, k, l, id);
    }
  }

  /** While sessions are only removed, the query and the removal go on agreeing exactly when every
      session under two peers is the only one of each. */
  lemma {:induction false} RemovalsAgree(m: Registry)
    ensures AlwaysAgree(m, true) <==> SharedAlone(m)
  {
    if SharedAlone(m) {
      forall last, id | Reaches(m, true, last)
        ensures Agree(last, id)
      {
        var events :| IsRun(m, events, last) && RemovalsOnly(events);
        SharedAloneRun(m, events, last);
        AgreeExactly(last, id);
      }
    }
    forall k, l, id | Holds(m, k, id) && Holds(m, l, id) && k != l
      ensures AlwaysAgree(m, true) ==> |m[k]| == 1 && |m[l]| == 1
    {
      AtLeastOne(m, k, id);
      AtLeastOne(m, l, id);
      if |m[l]| > 1 {
        RemoveOthers(m, k, l, id);
      } else if |m[k]| > 1 {
        RemoveOthers(m, l, k, id);
      }
    }
  }

  lemma {:induction false} AtLeastOne(m: Registry, k: PeerKey, id: SessionId)
    requires Holds(m, k, id)
    ensures |m[k]| >= 1
  {
    assert id in m[k].Keys;
  }

  /** When sessions come and go, they go on agreeing exactly when no session is under two peers. */
  lemma {:induction false} RunsAgree(m: Registry)
    ensures AlwaysAgree(m, false) <==> OneHolder(m)
  {
    if OneHolder(m) {
      forall last, id | Reaches(m, false, last)
        ensures Agree(last, id)
      {
        var events :| IsRun(m, events, last);
        OneHolderRun(m, events, last);
        AgreeExactly(last, id);
      }
    }
    assert forall last :: Reaches(m, true, last) ==> Reaches(m, false, last);
    RemovalsAgree(m);
    forall k, l, id | Holds(m, k, id) && Holds(m, l, id) && k != l
      ensures |m[l]| == 1 ==> !AlwaysAgree(m, false)
    {
      if |m[l]| == 1 {
        AttachDiffers(m, k, l, id);
      }
    }
  }

  lemma {:induction false} AttachDiffers(m: Registry, k: PeerKey, l: PeerKey, id: SessionId)
    requires k != l && Holds(m, k, id) && Holds(m, l, id) && |m[l]| == 1
    ensures !AlwaysAgree(m, false)
  {
    var x := FreshId(m);
    var n := Added(m, k, x, UiSession([], {}));
    assert !Holds(m, k, x);
    AlwaysNext(m, false, Attach(k, x, []));
    AlwaysNow(n, false, id);
    AgreeExactly(n, id);
    assert x in n[k] && id in n[k] && |{x, id}| == 2;
    SubsetSize({x, id}, n[k].Keys);
    assert Holds(n, k, id) && Holds(n, l, id);
  }

  /** There is always an id that no peer holds. */
  lemma {:induction false} FreshId(m: Registry) returns (id: SessionId)
    ensures !Held(m, id)
  {
    var ids := set k, x | k in m && x in m[k] :: x;
    id := Longer(ids);
    forall k | k in m
      ensures !Holds(m, k, id)
    {
      assert forall x :: x in m[k] ==> x in ids;
    }
  }

  lemma {:induction false} Longer(ids: set<SessionId>) returns (id: SessionId)
    ensures forall x :: x in ids ==> |x| < |id|
  {
    id := "0";
    if ids != {} {
      var x :| x in ids;
      var rest := Longer(ids - {x});
      id := rest + x + "0";
    }
  }

  /** So the agreement lasts after an id is added exactly when no other peer holds it. */
  lemma {:induction false} FreshExactly(m: Registry, k: PeerKey, id: SessionId, h: UiSession)
    requires Consistent(m)
    ensures AlwaysAgree(Added(m, k, id, h), false) <==> forall l :: Holds(m, l, id) ==> l == k
  {
    RunsAgree(Added(m, k, id, h));
    AddedConsistent(m, k, id, h);
    RemainsNonEmpty(m, k, id, h);
  }

  lemma {:induction false} RemainsNonEmpty(m: Registry, k: PeerKey, id: SessionId, h: UiSession)
    requires Consistent(m)
    ensures forall l :: l in Added(m, k, id, h) ==> Added(m, k, id, h)[l] != map[]
  {
    assert id in Added(m, k, id, h)[k];
  }

  /** One session alone under each of two peers: not consistent, yet removals always agree. */
  lemma {:induction false} AgreeingNotConsistent(k: PeerKey, l: PeerKey, id: SessionId, h: UiSession)
    requires k != l
    ensures var m: Registry := map[k := map[id := h], l := map[id := h]];
            !Consistent(m) && AlwaysAgree(m, true) && !AlwaysAgree(m, false)
  {
    var m: Registry := map[k := map[id := h], l := map[id := h]];
    assert Holds(m, k, id) && Holds(m, l, id);
    RemovalsAgree(m);
    RunsAgree(m);
  }
}
