/** Clipboard synchronisation: reading and writing the system clipboard with an owner marker, and two
    ends that forward each other's user copies without ever echoing them. */
module Clipboard {
  import opened Wrappers

  const OWNER_FORMAT := "dyn.com.rustdesk.owner"

  datatype Side = Host | Client {
    function OwnerData(): seq<byte> {
      match this
      case Host => [1]
      case Client => [2]
    }

    /** Either side's marker; an empty one is nobody's. */
    predicate IsOwner(data: seq<byte>) {
      data != [] && data[0] % 4 != 0
    }

    function Other(): Side {
      if Host? then Client else Host
    }
  }

  datatype Data =
    | Text(text: string)
    | FileUrl(urls: seq<string>)
    | Special(name: string, bytes: seq<byte>)
    | Other(format: nat, bytes: seq<byte>)

  /** A clipboard entry on the wire, possibly compressed. */
  datatype Wire = Wire(format: nat, compress: bool, content: seq<byte>, name: string)

  /** The conversions to and from the wire; an entry they cannot convert is left out. */
  datatype Codec = Codec(encode: Data -> Option<Wire>, decode: Wire -> Option<Data>)

  // ----- reading

  predicate IsMarker(side: Side, c: Data) {
    c.Special? && c.name == OWNER_FORMAT && side.IsOwner(c.bytes)
  }

  predicate Synchronised(c: Data) {
    match c
    case Special(name, _) => name != OWNER_FORMAT
    case Text(text) => text != ""
    case _ => true
  }

  function Kept(data: seq<Data>): seq<Data> {
    if data == [] then [] else (if Synchronised(data[0]) then [data[0]] else []) + Kept(data[1..])
  }

  predicate Marked(data: seq<Data>, side: Side) {
    exists c :: c in data && IsMarker(side, c)
  }

  /** What a check reads: nothing when the program wrote the clipboard itself or it holds files. */
  function Readable(data: seq<Data>, side: Side, force: bool): seq<Data> {
    if !force && Marked(data, side) then []
    else if exists c :: c in Kept(data) && c.FileUrl? then []
    else Kept(data)
  }

  // ----- what is read, entry by entry

  /** An entry that marks the clipboard as written by either side: the owner format, with one of the two
      lowest bits set. */
  predicate OwnMarker(c: Data) {
    c.Special? && c.name == "dyn.com.rustdesk.owner" && c.bytes != [] &&
    (c.bytes[0] % 2 == 1 || c.bytes[0] / 2 % 2 == 1)
  }

  lemma {:induction false} MarkedExactly(data: seq<Data>, side: Side)
    ensures Marked(data, side) <==> exists c :: c in data && OwnMarker(c)
  {
    forall c
      ensures IsMarker(side, c) <==> OwnMarker(c)
    {
    }
  }

  /** Neither the owner format nor an empty text. */
  predicate Travels(c: Data) {
    c != Text("") && !(c.Special? && c.name == "dyn.com.rustdesk.owner")
  }

  /** `r` is the entries of `data` that travel, in their order: the i-th is the one at `at[i]`. */
  ghost predicate IsSelection(data: seq<Data>, r: seq<Data>, at: seq<nat>) {
    && |at| == |r|
    && (forall i :: 0 <= i < |at| ==> at[i] < |data| && r[i] == data[at[i]])
    && (forall i, j :: 0 <= i < j < |at| ==> at[i] < at[j])
    && (forall k :: 0 <= k < |data| ==> (k in at <==> Travels(data[k])))
  }

  lemma {:induction false} KeptBehind(front: seq<Data>, c: Data)
    ensures Kept(front + [c]) == Kept(front) + if Synchronised(c) then [c] else []
  {
    if front == [] {
      assert [c][1..] == [];
    } else {
      assert (front + [c])[1..] == front[1..] + [c] && (front + [c])[0] == front[0];
      KeptBehind(front[1..], c);
      var first, last := if Synchronised(front[0]) then [front[0]] else [], if Synchronised(c) then [c] else [];
      assert first + (Kept(front[1..]) + last) == (first + Kept(front[1..])) + last;
    }
  }

  lemma {:induction false} KeptSelects(data: seq<Data>) returns (at: seq<nat>)
    ensures IsSelection(data, Kept(data), at)
    decreases |data|
  {
    at := [];
    if data != [] {
      var n := |data| - 1;
      var front, c := data[..n], data[n];
      assert data == front + [c];
      at := KeptSelects(front);
      KeptBehind(front, c);
      SelectionBehind(front, c, Kept(front), at);
      if Travels(c) {
        at := at + [n];
      }
    }
  }

  lemma {:induction false} SelectionBehind(front: seq<Data>, c: Data, r: seq<Data>, at: seq<nat>)
    requires IsSelection(front, r, at)
    ensures if Travels(c) then IsSelection(front + [c], r + [c], at + [|front|]) else IsSelection(front + [c], r, at)
  {
    var all, more := front + [c], at + [|front|];
    assert forall i :: 0 <= i < |at| ==> all[at[i]] == front[at[i]] && more[i] == at[i] && at[i] in at;
    assert forall k :: k in more <==> k in at || k == |front|;
  }

  lemma {:induction false} KeptHas(data: seq<Data>, c: Data)
    ensures c in Kept(data) <==> c in data && Travels(c)
  {
    var at := KeptSelects(data);
    if c in data && Travels(c) {
      var k :| 0 <= k < |data| && data[k] == c;
      var i :| 0 <= i < |at| && at[i] == k;
      assert Kept(data)[i] == c;
    }
    if c in Kept(data) {
      var i :| 0 <= i < |at| && Kept(data)[i] == c;
      assert at[i] in at && data[at[i]] == c;
    }
  }

  /** A check that is not forced reads something exactly when the clipboard holds no marker and no file
      list, and anything that travels: a non-empty text, say. */
  lemma {:induction false} CheckedExactly(codec: Codec, data: seq<Data>, side: Side)
    ensures Checked(codec, data, side, false).Some? <==>
            (forall c :: c in data ==> !OwnMarker(c) && !c.FileUrl?) && (exists c :: c in data && Travels(c))
  {
    MarkedExactly(data, side);
    forall c
      ensures c in Kept(data) <==> c in data && Travels(c)
    {
      KeptHas(data, c);
    }
    assert Kept(data) != [] ==> Kept(data)[0] in Kept(data);
  }

  function EncodeAll(codec: Codec, data: seq<Data>): seq<Wire> {
    if data == [] then []
    else (match codec.encode(data[0]) case None => [] case Some(w) => [w]) + EncodeAll(codec, data[1..])
  }

  function DecodeAll(codec: Codec, wire: seq<Wire>): seq<Data> {
    if wire == [] then []
    else (match codec.decode(wire[0]) case None => [] case Some(d) => [d]) + DecodeAll(codec, wire[1..])
  }

  lemma {:induction false} DecodesNothing(codec: Codec, wire: seq<Wire>)
    ensures DecodeAll(codec, wire) == [] <==> forall w :: w in wire ==> codec.decode(w).None?
  {
    if wire != [] {
      DecodesNothing(codec, wire[1..]);
      assert wire == [wire[0]] + wire[1..];
    }
  }

  function Checked(codec: Codec, data: seq<Data>, side: Side, force: bool): Option<seq<Wire>> {
    var content := Readable(data, side, force);
    if content == [] then None else Some(EncodeAll(codec, content))
  }

  // ----- writing

  function WithMarker(data: seq<Data>, side: Side): (r: seq<Data>)
    ensures Marked(r, Host) && Marked(r, Client)
  {
    var marker := Special(OWNER_FORMAT, side.OwnerData());
    assert (data + [marker])[|data|] == marker;
    assert IsMarker(Host, marker) && IsMarker(Client, marker);
    data + [marker]
  }

  function Written(codec: Codec, board: seq<Data>, wire: seq<Wire>, side: Side): seq<Data> {
    var data := DecodeAll(codec, wire);
    if data == [] then board else WithMarker(data, side)
  }

  // ----- the clipboard context

  class ClipboardContext {
    const codec: Codec
    var inner: seq<Data>             // the system clipboard
    var lastMultiClipboards: seq<Wire>

    method GetFormatsFilter(side: Side, force: bool) returns (r: seq<Data>)
      ensures r == if !force && Marked(inner, side) then [] else Kept(inner)
      ensures if !force && exists c :: c in inner && OwnMarker(c) then r == []
              else exists at :: IsSelection(inner, r, at)
    {
      MarkedExactly(inner, side);
      ghost var at := KeptSelects(inner);
      if inner == [] {
        return [];
      }
      if !force {
        for i := 0 to |inner|
          invariant forall k :: 0 <= k < i ==> !IsMarker(side, inner[k])
        {
          if inner[i].Special? && inner[i].name == OWNER_FORMAT && side.IsOwner(inner[i].bytes) {
            assert IsMarker(side, inner[i]);
            return [];
          }
        }
      }
      return Kept(inner);
    }

    method Get(side: Side, force: bool) returns (data: seq<Data>)
      ensures data == Readable(inner, side, force)
    {
      data := GetFormatsFilter(side, force);
      if exists c :: c in data && c.FileUrl? {
        return [];
      }
    }

    method CheckClipboard(side: Side, force: bool) returns (msg: Option<seq<Wire>>)
      modifies this`lastMultiClipboards
      ensures msg == Checked(codec, inner, side, force)
      ensures !force ==>
                (msg.Some? <==> (forall c :: c in inner ==> !OwnMarker(c) && !c.FileUrl?) &&
                                (exists c :: c in inner && Travels(c)))
      ensures lastMultiClipboards == if msg.Some? then msg.value else old(lastMultiClipboards)
    {
      CheckedExactly(codec, inner, side);
      var content := Get(side, force);
      if content == [] {
        return None;
      }
      lastMultiClipboards := EncodeAll(codec, content);
      return Some(lastMultiClipboards);
    }

    /** `works` is whether the system accepts the write. */
    method UpdateClipboard(wire: seq<Wire>, side: Side, works: bool)
      modifies this`inner
      ensures inner == if works then Written(codec, old(inner), wire, side) else old(inner)
      ensures !works || (forall w :: w in wire ==> codec.decode(w).None?) ==> inner == old(inner)
      ensures works && (exists w :: w in wire && codec.decode(w).Some?) ==> inner != [] && OwnMarker(inner[|inner| - 1])
    {
      DecodesNothing(codec, wire);
      var data := DecodeAll(codec, wire);
      if data == [] {
        return;
      }
      if works {
        inner := WithMarker(data, side);
      }
    }
  }

  /** A check that is not forced never reads what an update wrote, on either side. */
  lemma {:induction false} UpdatesAreNotRead(codec: Codec, board: seq<Data>, wire: seq<Wire>, side: Side, reader: Side)
    requires DecodeAll(codec, wire) != []
    ensures Checked(codec, Written(codec, board, wire, side), reader, false) == None
  {
  }

  // ----- two ends

  /** One end: its clipboard, everything the user copied there, whether the user wrote last, change
      notifications not yet handled, messages sent and received. Beside them, how many notifications a
      user copy found still waiting behind a delivery, and how many notifications of user copies
      brought no message: a delivery came before the check, or the check read nothing. */
  datatype End = End(board: seq<Data>, copies: seq<seq<Data>>, byUser: bool, pending: nat,
                     sent: seq<seq<Wire>>, inbox: seq<seq<Wire>>, overtaken: nat, lost: nat)
  {
    /** Notifications that the next checks answer with what the user copied last. */
    function Waiting(): nat {
      if byUser then pending else 0
    }
  }

  datatype Ends = Ends(host: End, client: End) {
    function At(side: Side): End {
      if side.Host? then host else client
    }

    function With(side: Side, e: End): Ends {
      if side.Host? then this.(host := e) else this.(client := e)
    }
  }

  const QUIET := End([], [], false, 0, [], [], 0, 0)

  datatype Event =
    | Copy(side: Side, data: seq<Data>)
    | Check(side: Side, readable: bool)
    | Deliver(side: Side, works: bool)

  predicate CanStep(s: Ends, e: Event) {
    match e
    case Copy(_, _) => true
    case Check(side, _) => s.At(side).pending > 0
    case Deliver(side, _) => s.At(side).inbox != []
  }

  function Copied(me: End, data: seq<Data>): End {
    me.(board := data, copies := me.copies + [data], byUser := true, pending := me.pending + 1,
        overtaken := me.overtaken + if me.byUser then 0 else me.pending)
  }

  function Answered(me: End, msg: Option<seq<Wire>>): End
    requires me.pending > 0
  {
    me.(pending := me.pending - 1, sent := if msg.Some? then me.sent + [msg.value] else me.sent,
        lost := me.lost + if me.byUser && msg.None? then 1 else 0)
  }

  function Delivered(codec: Codec, side: Side, me: End, works: bool): End
    requires me.inbox != []
  {
    var rest := me.(inbox := me.inbox[1..]);
    if works && DecodeAll(codec, me.inbox[0]) != [] then
      rest.(board := Written(codec, me.board, me.inbox[0], side), byUser := false, pending := me.pending + 1,
            lost := me.lost + me.Waiting())
    else rest
  }

  function Receives(them: End, msg: Option<seq<Wire>>): End {
    if msg.Some? then them.(inbox := them.inbox + [msg.value]) else them
  }

  /** Every write brings one notification, every check answers one. */
  function Step(codec: Codec, s: Ends, e: Event): Ends
    requires CanStep(s, e)
  {
    var me := s.At(e.side);
    match e
    case Copy(side, data) => s.With(side, Copied(me, data))
    case Check(side, readable) =>
      var msg := if readable then Checked(codec, me.board, side, false) else None;
      s.With(side, Answered(me, msg)).With(side.Other(), Receives(s.At(side.Other()), msg))
    case Deliver(side, works) => s.With(side, Delivered(codec, side, me, works))
  }

  ghost predicate IsRun(codec: Codec, s: Ends, events: seq<Event>, last: Ends)
    decreases |events|
  {
    if events == [] then s == last
    else CanStep(s, events[0]) && IsRun(codec, Step(codec, s, events[0]), events[1..], last)
  }

  /** A message made from something the user copied at its sender. */
  ghost predicate FromCopy(codec: Codec, side: Side, copies: seq<seq<Data>>, msg: seq<Wire>) {
    exists n :: 0 <= n < |copies| && Checked(codec, copies[n], side, false) == Some(msg)
  }

  ghost predicate EchoFree(codec: Codec, side: Side, e: End) {
    && (forall m :: m in e.sent ==> FromCopy(codec, side, e.copies, m))
    && (if e.byUser then e.copies != [] && e.board == e.copies[|e.copies| - 1]
        else Checked(codec, e.board, side, false) == None)
    && |e.sent| + e.Waiting() + e.lost == |e.copies| + e.overtaken
  }

  lemma {:induction false} MoreCopies(codec: Codec, side: Side, copies: seq<seq<Data>>, data: seq<Data>, msg: seq<Wire>)
    requires FromCopy(codec, side, copies, msg)
    ensures FromCopy(codec, side, copies + [data], msg)
  {
    var n :| 0 <= n < |copies| && Checked(codec, copies[n], side, false) == Some(msg);
    assert (copies + [data])[n] == copies[n];
  }

  lemma {:induction false} CopiedEchoFree(codec: Codec, side: Side, me: End, data: seq<Data>)
    requires EchoFree(codec, side, me)
    ensures EchoFree(codec, side, Copied(me, data))
  {
    forall m | m in me.sent
      ensures FromCopy(codec, side, me.copies + [data], m)
    {
      MoreCopies(codec, side, me.copies, data, m);
    }
  }

  lemma {:induction false} AnsweredEchoFree(codec: Codec, side: Side, me: End, readable: bool)
    requires EchoFree(codec, side, me) && me.pending > 0
    ensures EchoFree(codec, side, Answered(me, if readable then Checked(codec, me.board, side, false) else None))
  {
    var msg := Checked(codec, me.board, side, false);
    if me.byUser && msg.Some? {
      var n := |me.copies| - 1;
      assert Checked(codec, me.copies[n], side, false) == Some(msg.value);
      assert FromCopy(codec, side, me.copies, msg.value);
    }
  }

  lemma {:induction false} DeliveredEchoFree(codec: Codec, side: Side, me: End, works: bool)
    requires EchoFree(codec, side, me) && me.inbox != []
    ensures EchoFree(codec, side, Delivered(codec, side, me, works))
  {
    if DecodeAll(codec, me.inbox[0]) != [] {
      UpdatesAreNotRead(codec, me.board, me.inbox[0], side, side);
    }
  }

  lemma {:induction false} ReceivesEchoFree(codec: Codec, side: Side, them: End, msg: Option<seq<Wire>>)
    requires EchoFree(codec, side, them)
    ensures EchoFree(codec, side, Receives(them, msg))
  {
  }

  ghost predicate BothEchoFree(codec: Codec, s: Ends) {
    EchoFree(codec, Host, s.At(Host)) && EchoFree(codec, Client, s.At(Client))
  }

  lemma {:induction false} BothSides(codec: Codec, s: Ends, side: Side)
    ensures BothEchoFree(codec, s) <==>
            EchoFree(codec, side, s.At(side)) && EchoFree(codec, side.Other(), s.At(side.Other()))
  {
  }

  lemma {:induction false} StepEchoFree(codec: Codec, s: Ends, e: Event)
    requires BothEchoFree(codec, s) && CanStep(s, e)
    ensures BothEchoFree(codec, Step(codec, s, e))
  {
    var me, t, side := s.At(e.side), Step(codec, s, e), e.side;
    BothSides(codec, s, side);
    match e
    case Copy(_, data) =>
      CopiedEchoFree(codec, side, me, data);
      assert t.At(side) == Copied(me, data) && t.At(side.Other()) == s.At(side.Other());
      BothSides(codec, t, side);
    case Check(_, readable) =>
      var msg := if readable then Checked(codec, me.board, side, false) else None;
      AnsweredEchoFree(codec, side, me, readable);
      ReceivesEchoFree(codec, side.Other(), s.At(side.Other()), msg);
      assert t.At(side) == Answered(me, msg) && t.At(side.Other()) == Receives(s.At(side.Other()), msg);
      BothSides(codec, t, side);
    case Deliver(_, works) =>
      DeliveredEchoFree(codec, side, me, works);
      assert t.At(side) == Delivered(codec, side, me, works) && t.At(side.Other()) == s.At(side.Other());
      BothSides(codec, t, side);
  }

  /** In every run from two empty ends: whatever is sent was copied by the user at the sending end,
      and the messages, with those waiting and those lost, are as many as the copies and the
      notifications of deliveries that a copy overtook. */
  lemma {:induction false} NoEcho(codec: Codec, events: seq<Event>, last: Ends)
    requires IsRun(codec, Ends(QUIET, QUIET), events, last)
    ensures forall m :: m in last.host.sent ==> FromCopy(codec, Host, last.host.copies, m)
    ensures forall m :: m in last.client.sent ==> FromCopy(codec, Client, last.client.copies, m)
    ensures |last.host.sent| + last.host.Waiting() + last.host.lost == |last.host.copies| + last.host.overtaken
    ensures |last.client.sent| + last.client.Waiting() + last.client.lost ==
            |last.client.copies| + last.client.overtaken
  {
    RunEchoFree(codec, Ends(QUIET, QUIET), events, last);
  }

  lemma {:induction false} RunEchoFree(codec: Codec, s: Ends, events: seq<Event>, last: Ends)
    requires BothEchoFree(codec, s) && IsRun(codec, s, events, last)
    ensures BothEchoFree(codec, last)
    decreases |events|
  {
    if events != [] {
      StepEchoFree(codec, s, events[0]);
      RunEchoFree(codec, Step(codec, s, events[0]), events[1..], last);
    }
  }

  /** Nothing waits behind a delivery when the user copies. */
  ghost predicate Prompt(codec: Codec, s: Ends, events: seq<Event>)
    decreases |events|
  {
    events == [] ||
    (CanStep(s, events[0]) &&
     (events[0].Copy? ==> s.At(events[0].side).byUser || s.At(events[0].side).pending == 0) &&
     Prompt(codec, Step(codec, s, events[0]), events[1..]))
  }

  lemma {:induction false} PromptOvertakesNothing(codec: Codec, s: Ends, events: seq<Event>, last: Ends)
    requires IsRun(codec, s, events, last)
    ensures last.host.overtaken + last.client.overtaken >= s.host.overtaken + s.client.overtaken
    ensures Prompt(codec, s, events) <==>
            last.host.overtaken + last.client.overtaken == s.host.overtaken + s.client.overtaken
    decreases |events|
  {
    if events != [] {
      PromptOvertakesNothing(codec, Step(codec, s, events[0]), events[1..], last);
    }
  }

  /** When no copy overtakes a delivery's notification, no end ever sends more than its user copied. */
  lemma {:induction false} NoMoreThanCopied(codec: Codec, events: seq<Event>, last: Ends)
    requires IsRun(codec, Ends(QUIET, QUIET), events, last) && Prompt(codec, Ends(QUIET, QUIET), events)
    ensures |last.host.sent| <= |last.host.copies| && |last.client.sent| <= |last.client.copies|
  {
    NoEcho(codec, events, last);
    PromptOvertakesNothing(codec, Ends(QUIET, QUIET), events, last);
  }

  // ----- what a copy makes the checks send

  lemma {:induction false} RunFront(codec: Codec, s: Ends, e: Event, rest: seq<Event>, last: Ends)
    requires CanStep(s, e) && IsRun(codec, Step(codec, s, e), rest, last)
    ensures IsRun(codec, s, [e] + rest, last)
  {
    assert ([e] + rest)[1..] == rest;
  }

  /** The end after `n` checks that can read the clipboard. */
  function AnsweredTimes(codec: Codec, side: Side, me: End, n: nat): End
    requires n <= me.pending
    decreases n
  {
    if n == 0 then me
    else AnsweredTimes(codec, side, Answered(me, Checked(codec, me.board, side, false)), n - 1)
  }

  function Times(msg: seq<Wire>, n: nat): seq<seq<Wire>> {
    if n == 0 then [] else [msg] + Times(msg, n - 1)
  }

  function Checks(side: Side, n: nat): seq<Event> {
    if n == 0 then [] else [Check(side, true)] + Checks(side, n - 1)
  }

  /** These checks are a run. */
  lemma {:induction false} ChecksRun(codec: Codec, side: Side, s: Ends, n: nat) returns (last: Ends)
    requires n <= s.At(side).pending
    ensures IsRun(codec, s, Checks(side, n), last) && last.At(side) == AnsweredTimes(codec, side, s.At(side), n)
    decreases n
  {
    if n == 0 {
      last := s;
    } else {
      last := ChecksRun(codec, side, Step(codec, s, Check(side, true)), n - 1);
      RunFront(codec, s, Check(side, true), Checks(side, n - 1), last);
    }
  }

  lemma {:induction false} AnsweredSends(codec: Codec, side: Side, me: End, n: nat, msg: seq<Wire>)
    requires n <= me.pending && Checked(codec, me.board, side, false) == Some(msg)
    ensures AnsweredTimes(codec, side, me, n) == me.(pending := me.pending - n, sent := me.sent + Times(msg, n))
    ensures |Times(msg, n)| == n
    decreases n
  {
    if n > 0 {
      var next := Answered(me, Some(msg));
      assert next.sent == me.sent + [msg] && next.board == me.board;
      AnsweredSends(codec, side, next, n - 1, msg);
      OneMore(me.sent, msg, n);
    } else {
      assert me.sent + [] == me.sent;
    }
  }

  lemma {:induction false} OneMore(sent: seq<seq<Wire>>, msg: seq<Wire>, n: nat)
    requires n > 0
    ensures sent + Times(msg, n) == (sent + [msg]) + Times(msg, n - 1)
  {
    assert sent + ([msg] + Times(msg, n - 1)) == (sent + [msg]) + Times(msg, n - 1);
  }

  /** A copy is sent once for its own notification and once for each that waits, and nothing else is
      sent: it is sent twice exactly when one waits, be it of a delivery or of an earlier copy. */
  lemma {:induction false} CopySent(codec: Codec, side: Side, me: End, data: seq<Data>, n: nat, msg: seq<Wire>)
    requires Checked(codec, data, side, false) == Some(msg) && n <= me.pending + 1
    ensures AnsweredTimes(codec, side, Copied(me, data), n).sent == me.sent + Times(msg, n)
    ensures |Times(msg, n)| == n
  {
    AnsweredSends(codec, side, Copied(me, data), n, msg);
  }

  /** Copying and answering all that waits leaves more messages than copies exactly when the messages
      and notifications already outnumbered the copies; in a run: exactly when a delivery's waiting
      notifications, and those overtaken before, exceed the lost ones. */
  lemma {:induction false} MoreThanCopied(codec: Codec, side: Side, me: End, data: seq<Data>)
    requires EchoFree(codec, side, me) && Checked(codec, data, side, false).Some?
    ensures var all := AnsweredTimes(codec, side, Copied(me, data), me.pending + 1);
            && all.pending == 0
            && (|all.sent| > |all.copies| <==> |me.sent| + me.pending > |me.copies|)
            && (|all.sent| > |all.copies| <==> me.overtaken + (if me.byUser then 0 else me.pending) > me.lost)
  {
    AnsweredSends(codec, side, Copied(me, data), me.pending + 1, Checked(codec, data, side, false).value);
  }

  /** When messages and copies were as many and none overtaken: exactly when a delivery's notification waits. */
  lemma {:induction false} FirstSurplus(codec: Codec, side: Side, me: End, data: seq<Data>)
    requires EchoFree(codec, side, me) && Checked(codec, data, side, false).Some?
    requires me.overtaken == 0 && |me.sent| == |me.copies|
    ensures var all := AnsweredTimes(codec, side, Copied(me, data), me.pending + 1);
            |all.sent| > |all.copies| <==> !me.byUser && me.pending > 0
  {
    MoreThanCopied(codec, side, me, data);
  }

  // ----- what the user copies arrives

  /** The codec gives these entries back. */
  predicate Lossless(codec: Codec, data: seq<Data>) {
    forall c :: c in data ==> codec.encode(c).Some? && codec.decode(codec.encode(c).value) == Some(c)
  }

  lemma {:induction false} DecodeEncodeAll(codec: Codec, data: seq<Data>)
    requires Lossless(codec, data)
    ensures DecodeAll(codec, EncodeAll(codec, data)) == data
  {
    if data != [] {
      var wire := codec.encode(data[0]).value;
      DecodeEncodeAll(codec, data[1..]);
      assert ([wire] + EncodeAll(codec, data[1..]))[1..] == EncodeAll(codec, data[1..]);
    }
  }

  /** Entries that cannot be converted are left out, the others are not. */
  lemma {:induction false} EncodeAllConcat(codec: Codec, a: seq<Data>, b: seq<Data>)
    ensures EncodeAll(codec, a + b) == EncodeAll(codec, a) + EncodeAll(codec, b)
    ensures |a| == 1 ==> EncodeAll(codec, a) == if codec.encode(a[0]).Some? then [codec.encode(a[0]).value] else []
  {
    if a == [] {
      assert a + b == b;
    } else {
      assert (a + b)[1..] == a[1..] + b;
      EncodeAllConcat(codec, a[1..], b);
    }
  }

  /** What the user copies at one end, once checked there and delivered to the other, is on the other
      clipboard: the entries that travel, in their order, behind them a marker. The other end's check
      then sends nothing back. */
  lemma {:induction false} CopyArrives(codec: Codec, s: Ends, side: Side, data: seq<Data>)
    returns (sent: Ends, last: Ends, at: seq<nat>)
    requires forall c :: c in data ==> !OwnMarker(c) && !c.FileUrl?
    requires exists c :: c in data && Travels(c)
    requires forall c :: c in data && Travels(c) ==> Lossless(codec, [c])
    requires s.At(side.Other()).inbox == []
    ensures CanStep(Step(codec, s, Copy(side, data)), Check(side, true))
    ensures sent == Step(codec, Step(codec, s, Copy(side, data)), Check(side, true))
    ensures |sent.At(side).sent| == |s.At(side).sent| + 1
    ensures CanStep(sent, Deliver(side.Other(), true)) && last == Step(codec, sent, Deliver(side.Other(), true))
    ensures Arrived(codec, side.Other(), data, last.At(side.Other()).board, at)
  {
    var other := side.Other();
    sent := CopyChecked(codec, s, side, data);
    assert s.At(other).inbox + [EncodeAll(codec, Kept(data))] == [EncodeAll(codec, Kept(data))];
    last := Step(codec, sent, Deliver(other, true));
    assert last.At(other) == Delivered(codec, other, sent.At(other), true);
    at := ArrivedHere(codec, sent.At(other), other, data);
  }

  /** The entries of `data` that travel, behind them the marker of `side`. */
  ghost predicate Arrived(codec: Codec, side: Side, data: seq<Data>, board: seq<Data>, at: seq<nat>) {
    && |board| > 0 && IsSelection(data, board[..|board| - 1], at)
    && board[|board| - 1] == Special("dyn.com.rustdesk.owner", if side.Host? then [1] else [2])
    && Checked(codec, board, side, false) == None
  }

  lemma {:induction false} ArrivedHere(codec: Codec, me: End, side: Side, data: seq<Data>) returns (at: seq<nat>)
    requires me.inbox == [EncodeAll(codec, Kept(data))]
    requires exists c :: c in data && Travels(c)
    requires forall c :: c in data && Travels(c) ==> Lossless(codec, [c])
    ensures Arrived(codec, side, data, Delivered(codec, side, me, true).board, at)
  {
    at := KeptSelects(data);
    KeptTravels(codec, data);
    DecodeEncodeAll(codec, Kept(data));
    DeliversAll(codec, me, side, EncodeAll(codec, Kept(data)));
  }

  lemma {:induction false} CopyChecked(codec: Codec, s: Ends, side: Side, data: seq<Data>) returns (sent: Ends)
    requires forall c :: c in data ==> !OwnMarker(c) && !c.FileUrl?
    requires exists c :: c in data && Travels(c)
    ensures CanStep(Step(codec, s, Copy(side, data)), Check(side, true))
    ensures sent == Step(codec, Step(codec, s, Copy(side, data)), Check(side, true))
    ensures var wire, there := EncodeAll(codec, Kept(data)), s.At(side.Other());
            sent.At(side).sent == s.At(side).sent + [wire] &&
            sent.At(side.Other()) == there.(inbox := there.inbox + [wire])
  {
    CheckedExactly(codec, data, side);
    CheckedKept(codec, data, side);
    var copied := Step(codec, s, Copy(side, data));
    assert copied.At(side) == Copied(s.At(side), data) && copied.At(side.Other()) == s.At(side.Other());
    sent := Step(codec, copied, Check(side, true));
  }

  lemma {:induction false} CheckedKept(codec: Codec, data: seq<Data>, side: Side)
    requires Checked(codec, data, side, false).Some?
    ensures Checked(codec, data, side, false) == Some(EncodeAll(codec, Kept(data)))
  {
  }

  lemma {:induction false} DeliversAll(codec: Codec, me: End, side: Side, wire: seq<Wire>)
    requires me.inbox == [wire] && DecodeAll(codec, wire) != []
    ensures var board := Delivered(codec, side, me, true).board;
            && |board| > 0 && board[..|board| - 1] == DecodeAll(codec, wire)
            && board[|board| - 1] == Special("dyn.com.rustdesk.owner", if side.Host? then [1] else [2])
            && Checked(codec, board, side, false) == None
  {
    UpdatesAreNotRead(codec, me.board, wire, side, side);
  }

  lemma {:induction false} KeptTravels(codec: Codec, data: seq<Data>)
    requires exists c :: c in data && Travels(c)
    requires forall c :: c in data && Travels(c) ==> Lossless(codec, [c])
    ensures Kept(data) != [] && Lossless(codec, Kept(data))
  {
    forall c
      ensures c in Kept(data) <==> c in data && Travels(c)
    {
      KeptHas(data, c);
    }
    forall c | c in Kept(data)
      ensures codec.encode(c).Some? && codec.decode(codec.encode(c).value) == Some(c)
    {
      assert c in [c];
    }
  }

  /** When one does, the same copy can be sent twice, though it is the only one. */
  lemma {:induction false} CopySentTwice(codec: Codec, data: seq<Data>, wire: seq<Wire>)
    returns (events: seq<Event>, last: Ends)
    requires Checked(codec, data, Host, false) == Some(wire) && Checked(codec, data, Client, false) == Some(wire)
    requires DecodeAll(codec, wire) != []
    ensures IsRun(codec, Ends(QUIET, QUIET), events, last)
    ensures |last.client.copies| == 1 && |last.client.sent| == 2
  {
    var s0 := Ends(QUIET, QUIET);
    var s1 := Step(codec, s0, Copy(Host, data));
    var s2 := Step(codec, s1, Check(Host, true));
    assert s2.client.inbox == [wire];
    var s3 := Step(codec, s2, Deliver(Client, true));
    assert s3.client.pending == 1;
    var s4 := Step(codec, s3, Copy(Client, data));
    var s5 := Step(codec, s4, Check(Client, true));
    last := Step(codec, s5, Check(Client, true));
    events := [];
    RunFront(codec, s5, Check(Client, true), events, last);
    events := [Check(Client, true)] + events;
    RunFront(codec, s4, Check(Client, true), events, last);
    events := [Check(Client, true)] + events;
    RunFront(codec, s3, Copy(Client, data), events, last);
    events := [Copy(Client, data)] + events;
    RunFront(codec, s2, Deliver(Client, true), events, last);
    events := [Deliver(Client, true)] + events;
    RunFront(codec, s1, Check(Host, true), events, last);
    events := [Check(Host, true)] + events;
    RunFront(codec, s0, Copy(Host, data), events, last);
    events := [Copy(Host, data)] + events;
  }

  /** Without any delivery, the second of two copies can be sent twice and the first never. */
  lemma {:induction false} SecondSentTwice(codec: Codec, a: seq<Data>, b: seq<Data>, msg: seq<Wire>)
    returns (events: seq<Event>, last: Ends)
    requires Checked(codec, b, Host, false) == Some(msg)
    ensures IsRun(codec, Ends(QUIET, QUIET), events, last) && Prompt(codec, Ends(QUIET, QUIET), events)
    ensures last.host.copies == [a, b] && last.host.sent == [msg, msg]
  {
    var s0 := Ends(QUIET, QUIET);
    var s1 := Step(codec, s0, Copy(Host, a));
    var s2 := Step(codec, s1, Copy(Host, b));
    last := ChecksRun(codec, Host, s2, 2);
    CopySent(codec, Host, s1.host, b, 2, msg);
    AnsweredSends(codec, Host, s2.host, 2, msg);
    assert Times(msg, 2) == [msg] + ([msg] + []);
    ChecksPrompt(codec, Host, s2, 2);
    events := Checks(Host, 2);
    RunFront(codec, s1, Copy(Host, b), events, last);
    assert ([Copy(Host, b)] + events)[1..] == events;
    events := [Copy(Host, b)] + events;
    RunFront(codec, s0, Copy(Host, a), events, last);
    assert ([Copy(Host, a)] + events)[1..] == events;
    events := [Copy(Host, a)] + events;
  }

  lemma {:induction false} ChecksPrompt(codec: Codec, side: Side, s: Ends, n: nat)
    requires n <= s.At(side).pending
    ensures Prompt(codec, s, Checks(side, n))
    decreases n
  {
    if n > 0 {
      assert Checks(side, n)[1..] == Checks(side, n - 1);
      ChecksPrompt(codec, side, Step(codec, s, Check(side, true)), n - 1);
    }
  }
}
