/** LAN discovery: merging the answers of one discovery run into the saved list of peers. */
module LanDiscovery {
  import opened Wrappers

  /** What two peers share exactly when they are the same peer; the id is part of it. */
  datatype Ident = Ident(id: string, account: string)

  datatype Peer = Peer(ident: Ident, ipMac: map<string, string>, online: bool)

  // ----- the merge as it runs

  function Position(peers: seq<Peer>, x: Ident): (r: Option<nat>)
    ensures r.Some? ==> r.value < |peers| && peers[r.value].ident == x
    ensures r.Some? ==> forall i :: 0 <= i < r.value ==> peers[i].ident != x
    ensures r.None? ==> forall p :: p in peers ==> p.ident != x
  {
    if peers == [] then None
    else if peers[0].ident == x then Some(0)
    else match Position(peers[1..], x)
         case None => None
         case Some(i) => Some(i + 1)
  }

  function MergeOne(peers: seq<Peer>, seen: set<string>, answer: Peer): seq<Peer> {
    match Position(peers, answer.ident)
    case None => [answer] + peers
    case Some(pos) =>
      var peer := if answer.ident.id in seen
                  then answer.(ipMac := answer.ipMac + peers[pos].ipMac, online := true) else answer;
      [peer] + (peers[..pos] + peers[pos + 1..])
  }

  function Ids(answers: seq<Peer>): set<string> {
    set a | a in answers :: a.ident.id
  }

  function Offline(peers: seq<Peer>): (r: seq<Peer>)
    ensures |r| == |peers| && forall i :: 0 <= i < |r| ==> r[i] == peers[i].(online := false)
  {
    seq(|peers|, i requires 0 <= i < |peers| => peers[i].(online := false))
  }

  function Merged(saved: seq<Peer>, answers: seq<Peer>): seq<Peer>
    decreases |answers|
  {
    if answers == [] then Offline(saved)
    else
      var before := answers[..|answers| - 1];
      MergeOne(Merged(saved, before), Ids(before), answers[|answers| - 1])
  }

  class LanPeers {
    var peers: seq<Peer>
  }

  method HandleReceivedPeers(store: LanPeers, answers: seq<Peer>)
    modifies store
    ensures store.peers == Merged(old(store.peers), answers)
  {
    ghost var saved := store.peers;
    var peers := SetOffline(store.peers);
    var responseSet: set<string> := {};
    assert answers[..0] == [];
    for i := 0 to |answers|
      invariant responseSet == Ids(answers[..i])
      invariant peers == Merged(saved, answers[..i])
    {
      assert answers[..i + 1][..i] == answers[..i] && answers[..i] + [answers[i]] == answers[..i + 1];
      IdsGrow(answers[..i], answers[i]);
      peers := Receive(peers, responseSet, answers[i]);
      responseSet := responseSet + {answers[i].ident.id};
    }
    assert answers[..|answers|] == answers;
    store.peers := peers;
  }

  method SetOffline(saved: seq<Peer>) returns (peers: seq<Peer>)
    ensures peers == Offline(saved)
  {
    peers := saved;
    for i := 0 to |peers|
      invariant |peers| == |saved|
      invariant forall k :: 0 <= k < |saved| ==> peers[k] == if k < i then saved[k].(online := false) else saved[k]
    {
      peers := peers[i := peers[i].(online := false)];
    }
  }

  /** One answer: the peer it is from moves to the front. */
  method Receive(before: seq<Peer>, responseSet: set<string>, answer: Peer) returns (peers: seq<Peer>)
    ensures peers == MergeOne(before, responseSet, answer)
  {
    var peer := answer;
    peers := before;
    var inResponseSet := peer.ident.id in responseSet;
    var pos := Position(peers, peer.ident);
    if pos.Some? {
      var peer1 := peers[pos.value];
      peers := peers[..pos.value] + peers[pos.value + 1..];
      if inResponseSet {
        peer := peer.(ipMac := peer.ipMac + peer1.ipMac, online := true);
      }
    }
    peers := [peer] + peers;
  }

  lemma {:induction false} IdsGrow(answers: seq<Peer>, a: Peer)
    ensures Ids(answers + [a]) == Ids(answers) + {a.ident.id}
  {
    forall id | id in Ids(answers + [a])
      ensures id in Ids(answers) + {a.ident.id}
    {
      var p :| p in answers + [a] && p.ident.id == id;
      assert p in answers || p == a;
    }
    forall id | id in Ids(answers)
      ensures id in Ids(answers + [a])
    {
      var p :| p in answers && p.ident.id == id;
      assert p in answers + [a];
    }
    assert a in answers + [a];
  }

  // ----- what the merged list should be

  function Answered(answers: seq<Peer>): set<Ident> {
    set a | a in answers :: a.ident
  }

  /** The responders, the one that answered last first. */
  function Recent(answers: seq<Peer>, skip: set<Ident>): seq<Ident>
    decreases |answers|
  {
    if answers == [] then []
    else
      var x, before := answers[|answers| - 1].ident, answers[..|answers| - 1];
      if x in skip then Recent(before, skip) else [x] + Recent(before, skip + {x})
  }

  /** Every address a responder answered with; the earliest answer decides the MAC of a repeated one. */
  function Addresses(answers: seq<Peer>, x: Ident): map<string, string> {
    if answers == [] then map[]
    else
      var later := Addresses(answers[1..], x);
      if answers[0].ident == x then later + answers[0].ipMac else later
  }

  function Listed(order: seq<Ident>, shown: Ident -> map<string, string>): seq<Peer> {
    if order == [] then [] else [Peer(order[0], shown(order[0]), true)] + Listed(order[1..], shown)
  }

  function Responders(answers: seq<Peer>, order: seq<Ident>): seq<Peer> {
    Listed(order, x => Addresses(answers, x))
  }

  /** The saved peers that did not answer, offline and in their old order. */
  function Absent(saved: seq<Peer>, answered: set<Ident>): seq<Peer> {
    if saved == [] then []
    else (if saved[0].ident in answered then [] else [saved[0].(online := false)]) + Absent(saved[1..], answered)
  }

  ghost predicate Unique(peers: seq<Peer>) {
    forall i, j :: 0 <= i < j < |peers| ==> peers[i].ident != peers[j].ident
  }

  ghost predicate AllOnline(answers: seq<Peer>) {
    forall a :: a in answers ==> a.online
  }

  // ----- what the merged list is

  /** The position of the first answer of `x`, or -1. */
  function FirstAnswer(answers: seq<Peer>, x: Ident): (k: int)
    ensures -1 <= k < |answers|
    ensures k >= 0 ==> answers[k].ident == x && forall i :: 0 <= i < k ==> answers[i].ident != x
    ensures k < 0 ==> forall i :: 0 <= i < |answers| ==> answers[i].ident != x
    decreases |answers|
  {
    if answers == [] then -1
    else
      var k := FirstAnswer(answers[..|answers| - 1], x);
      if k >= 0 then k else if answers[|answers| - 1].ident == x then |answers| - 1 else -1
  }

  /** The first answer of `x` comes when its id has already answered, under another identity. */
  predicate Mistaken(answers: seq<Peer>, x: Ident) {
    var k := FirstAnswer(answers, x);
    k >= 0 && x.id in Ids(answers[..k])
  }

  /** What earlier runs saved for `x`. */
  function SavedMacs(saved: seq<Peer>, x: Ident): map<string, string> {
    if saved == [] then map[] else if saved[0].ident == x then saved[0].ipMac else SavedMacs(saved[1..], x)
  }

  /** What the list shows for a responder: its addresses of this run and, when its first answer was
      mistaken for a repeated one, the saved ones over them. */
  function Shown(saved: seq<Peer>, answers: seq<Peer>, x: Ident): map<string, string> {
    Addresses(answers, x) + if Mistaken(answers, x) then SavedMacs(saved, x) else map[]
  }

  // ----- removing one identity

  function Without(peers: seq<Peer>, x: Ident): seq<Peer> {
    if peers == [] then []
    else (if peers[0].ident == x then [] else [peers[0]]) + Without(peers[1..], x)
  }

  lemma {:induction false} WithoutNone(peers: seq<Peer>, x: Ident)
    requires forall p :: p in peers ==> p.ident != x
    ensures Without(peers, x) == peers
  {
    if peers != [] {
      assert peers[0] in peers;
      WithoutNone(peers[1..], x);
    }
  }

  lemma {:induction false} WithoutIsRemove(peers: seq<Peer>, pos: nat)
    requires Unique(peers) && pos < |peers|
    ensures Without(peers, peers[pos].ident) == peers[..pos] + peers[pos + 1..]
  {
    var x := peers[pos].ident;
    if pos == 0 {
      forall p | p in peers[1..] ensures p.ident != x {
        var i :| 0 <= i < |peers[1..]| && peers[1..][i] == p;
        assert peers[i + 1] == p;
      }
      WithoutNone(peers[1..], x);
    } else {
      assert peers[0].ident != x;
      WithoutIsRemove(peers[1..], pos - 1);
      assert peers[..pos] == [peers[0]] + peers[1..][..pos - 1];
      assert peers[1..][pos..] == peers[pos + 1..];
    }
  }

  lemma {:induction false} WithoutConcat(a: seq<Peer>, b: seq<Peer>, x: Ident)
    ensures Without(a + b, x) == Without(a, x) + Without(b, x)
  {
    if a == [] {
      assert a + b == b;
    } else {
      assert (a + b)[1..] == a[1..] + b;
      WithoutConcat(a[1..], b, x);
    }
  }

  lemma {:induction false} WithoutAbsent(saved: seq<Peer>, answered: set<Ident>, x: Ident)
    ensures Without(Absent(saved, answered), x) == Absent(saved, answered + {x})
  {
    if saved != [] {
      var p, rest := saved[0].(online := false), Absent(saved[1..], answered);
      WithoutAbsent(saved[1..], answered, x);
      if p.ident in answered {
        assert Absent(saved, answered) == rest;
      } else {
        assert Absent(saved, answered) == [p] + rest;
        assert ([p] + rest)[1..] == rest;
      }
    }
  }

  function Drop(order: seq<Ident>, x: Ident): seq<Ident> {
    if order == [] then [] else (if order[0] == x then [] else [order[0]]) + Drop(order[1..], x)
  }

  lemma {:induction false} WithoutListed(order: seq<Ident>, shown: Ident -> map<string, string>, x: Ident)
    ensures Without(Listed(order, shown), x) == Listed(Drop(order, x), shown)
  {
    if order != [] {
      WithoutListed(order[1..], shown, x);
      var r := Listed(order, shown);
      assert r[1..] == Listed(order[1..], shown);
      if order[0] == x {
        assert Without(r, x) == Without(r[1..], x) && Drop(order, x) == Drop(order[1..], x);
      } else {
        assert Drop(order, x) == [order[0]] + Drop(order[1..], x);
        assert Drop(order, x)[1..] == Drop(order[1..], x);
      }
    }
  }

  lemma {:induction false} ListedAt(order: seq<Ident>, shown: Ident -> map<string, string>)
    ensures |Listed(order, shown)| == |order|
    ensures forall i :: 0 <= i < |order| ==> Listed(order, shown)[i] == Peer(order[i], shown(order[i]), true)
  {
    if order != [] {
      ListedAt(order[1..], shown);
      forall i | 0 <= i < |order|
        ensures Listed(order, shown)[i] == Peer(order[i], shown(order[i]), true)
      {
        if i > 0 {
          assert Listed(order, shown)[i] == Listed(order[1..], shown)[i - 1];
        }
      }
    }
  }

  /** Two lists over the same identities are equal when they show the same for each of them. */
  lemma {:induction false} ListedEqual(order: seq<Ident>, f: Ident -> map<string, string>,
                                           g: Ident -> map<string, string>)
    ensures Listed(order, f) == Listed(order, g) <==> forall x :: x in order ==> f(x) == g(x)
  {
    ListedAt(order, f);
    ListedAt(order, g);
    if Listed(order, f) == Listed(order, g) {
      forall x | x in order
        ensures f(x) == g(x)
      {
        var i :| 0 <= i < |order| && order[i] == x;
        assert Listed(order, f)[i] == Listed(order, g)[i];
      }
    }
  }

  lemma {:induction false} RecentSkips(answers: seq<Peer>, skip: set<Ident>, x: Ident)
    ensures Recent(answers, skip + {x}) == Drop(Recent(answers, skip), x)
    decreases |answers|
  {
    if answers != [] {
      var y, before := answers[|answers| - 1].ident, answers[..|answers| - 1];
      if y in skip {
        RecentSkips(before, skip, x);
      } else if y == x {
        RecentSkips(before, skip + {x}, x);
        assert skip + {x} + {x} == skip + {x};
      } else {
        RecentSkips(before, skip + {y}, x);
        assert skip + {x} + {y} == skip + {y} + {x};
      }
    }
  }

  // ----- one more answer

  lemma {:induction false} AddressesLast(answers: seq<Peer>, a: Peer, x: Ident)
    ensures Addresses(answers + [a], x) == (if a.ident == x then a.ipMac else map[]) + Addresses(answers, x)
  {
    var all := answers + [a];
    if answers == [] {
      assert all[1..] == [];
    } else {
      assert all[1..] == answers[1..] + [a];
      AddressesLast(answers[1..], a, x);
    }
  }

  lemma {:induction false} DropIsGone(order: seq<Ident>, x: Ident)
    ensures x !in Drop(order, x)
  {
    if order != [] {
      DropIsGone(order[1..], x);
    }
  }

  lemma {:induction false} NeverAnswered(answers: seq<Peer>, x: Ident)
    requires x !in Answered(answers)
    ensures Addresses(answers, x) == map[]
  {
    if answers != [] {
      assert answers[0] in answers;
      assert Answered(answers[1..]) <= Answered(answers) by {
        forall y | y in Answered(answers[1..])
          ensures y in Answered(answers)
        {
          var p :| p in answers[1..] && p.ident == y;
          assert p in answers;
        }
      }
      NeverAnswered(answers[1..], x);
    }
  }

  lemma {:induction false} ListedHas(order: seq<Ident>, shown: Ident -> map<string, string>, x: Ident)
    requires x in order
    ensures Peer(x, shown(x), true) in Listed(order, shown)
  {
    ListedAt(order, shown);
    var i :| 0 <= i < |order| && order[i] == x;
    assert Listed(order, shown)[i] == Peer(x, shown(x), true);
  }

  lemma {:induction false} ListedOnly(order: seq<Ident>, shown: Ident -> map<string, string>, p: Peer)
    requires p in Listed(order, shown)
    ensures p.ident in order && p == Peer(p.ident, shown(p.ident), true)
  {
    ListedAt(order, shown);
    var i :| 0 <= i < |order| && Listed(order, shown)[i] == p;
  }

  lemma {:induction false} RecentIsAnswered(answers: seq<Peer>, skip: set<Ident>, x: Ident)
    ensures x in Recent(answers, skip) <==> x in Answered(answers) && x !in skip
    decreases |answers|
  {
    if answers != [] {
      var last, before := answers[|answers| - 1], answers[..|answers| - 1];
      assert answers == before + [last];
      assert x in Answered(answers) <==> x in Answered(before) || x == last.ident by {
        AnsweredGrow(before, last);
      }
      RecentIsAnswered(before, skip, x);
      RecentIsAnswered(before, skip + {last.ident}, x);
    }
  }

  lemma {:induction false} AnsweredGrow(answers: seq<Peer>, a: Peer)
    ensures Answered(answers + [a]) == Answered(answers) + {a.ident}
  {
    forall x | x in Answered(answers + [a])
      ensures x in Answered(answers) + {a.ident}
    {
      var p :| p in answers + [a] && p.ident == x;
      assert p in answers || p == a;
    }
    forall x | x in Answered(answers)
      ensures x in Answered(answers + [a])
    {
      var p :| p in answers && p.ident == x;
      assert p in answers + [a];
    }
    assert a in answers + [a];
  }

  lemma {:induction false} AbsentDidNotAnswer(saved: seq<Peer>, answered: set<Ident>, p: Peer)
    requires p in Absent(saved, answered)
    ensures p.ident !in answered && exists q :: q in saved && q.ident == p.ident && q.ipMac == p.ipMac
  {
    if saved[0].ident !in answered && p == saved[0].(online := false) {
      assert saved[0] in saved;
    } else {
      AbsentDidNotAnswer(saved[1..], answered, p);
      var q :| q in saved[1..] && q.ident == p.ident && q.ipMac == p.ipMac;
      assert q in saved;
    }
  }

  lemma {:induction false} AbsentHas(saved: seq<Peer>, answered: set<Ident>, q: Peer)
    requires q in saved && q.ident !in answered
    ensures q.(online := false) in Absent(saved, answered)
  {
    if saved[0] != q {
      AbsentHas(saved[1..], answered, q);
    }
  }

  lemma {:induction false} SavedMacsOf(saved: seq<Peer>, q: Peer)
    requires Unique(saved) && q in saved
    ensures SavedMacs(saved, q.ident) == q.ipMac
  {
    var i :| 0 <= i < |saved| && saved[i] == q;
    if i > 0 {
      assert saved[0].ident != q.ident && saved[1..][i - 1] == q;
      SavedMacsOf(saved[1..], q);
    }
  }

  lemma {:induction false} SavedMacsNone(saved: seq<Peer>, x: Ident)
    requires forall q :: q in saved ==> q.ident != x
    ensures SavedMacs(saved, x) == map[]
  {
    if saved != [] {
      assert saved[0] in saved;
      SavedMacsNone(saved[1..], x);
    }
  }

  /** Merging puts the answer in front of all others, whoever it was that answered. */
  lemma {:induction false} MergeOneMoves(peers: seq<Peer>, seen: set<string>, answer: Peer)
    requires Unique(peers)
    ensures |MergeOne(peers, seen, answer)| > 0
    ensures MergeOne(peers, seen, answer)[1..] == Without(peers, answer.ident)
    ensures Unique(MergeOne(peers, seen, answer))
  {
    var pos, x := Position(peers, answer.ident), answer.ident;
    var rest := Without(peers, x);
    if pos.Some? {
      WithoutIsRemove(peers, pos.value);
    } else {
      WithoutNone(peers, x);
    }
    var front := MergeOne(peers, seen, answer)[0];
    assert MergeOne(peers, seen, answer) == [front] + rest;
    WithoutUnique(peers, x);
    FrontUnique(front, rest);
  }

  /** A known peer that answers again is online, whatever the answer says; otherwise the answer counts. */
  lemma {:induction false} FrontOnline(peers: seq<Peer>, seen: set<string>, answer: Peer)
    ensures var front := MergeOne(peers, seen, answer)[0];
            front.ident == answer.ident &&
            (front.online <==> answer.online ||
                               (answer.ident.id in seen && exists p :: p in peers && p.ident == answer.ident))
  {
    var pos := Position(peers, answer.ident);
    if pos.Some? {
      assert peers[pos.value] in peers;
    }
  }

  lemma {:induction false} WithoutUnique(peers: seq<Peer>, x: Ident)
    requires Unique(peers)
    ensures Unique(Without(peers, x)) && forall p :: p in Without(peers, x) ==> p in peers && p.ident != x
  {
    if peers != [] {
      var rest := Without(peers[1..], x);
      WithoutUnique(peers[1..], x);
      assert forall p :: p in peers[1..] ==> p in peers && p.ident != peers[0].ident;
      FrontUnique(peers[0], rest);
    }
  }

  lemma {:induction false} FrontUnique(front: Peer, rest: seq<Peer>)
    requires Unique(rest) && forall p :: p in rest ==> p.ident != front.ident
    ensures Unique([front] + rest)
  {
    var all := [front] + rest;
    forall i, j | 0 <= i < j < |all|
      ensures all[i].ident != all[j].ident
    {
      assert all[j] == rest[j - 1] && rest[j - 1] in rest;
    }
  }

  lemma {:induction false} MergedUnique(saved: seq<Peer>, answers: seq<Peer>)
    requires Unique(saved)
    ensures Unique(Merged(saved, answers))
    decreases |answers|
  {
    if answers != [] {
      var before := answers[..|answers| - 1];
      MergedUnique(saved, before);
      MergeOneMoves(Merged(saved, before), Ids(before), answers[|answers| - 1]);
    }
  }

  // ----- what one more answer shows

  lemma {:induction false} FirstAnswerLast(before: seq<Peer>, a: Peer, x: Ident)
    ensures FirstAnswer(before + [a], x) ==
            if FirstAnswer(before, x) >= 0 then FirstAnswer(before, x) else if a.ident == x then |before| else -1
    ensures x in Answered(before) <==> FirstAnswer(before, x) >= 0
    ensures Mistaken(before + [a], x) <==>
            if FirstAnswer(before, x) >= 0 then Mistaken(before, x) else a.ident == x && x.id in Ids(before)
  {
    var answers, k := before + [a], FirstAnswer(before, x);
    assert answers[..|answers| - 1] == before;
    if k >= 0 {
      assert before[k] in before && answers[..k] == before[..k];
    }
    assert forall p :: p in before ==> exists i :: 0 <= i < |before| && before[i] == p;
  }

  /** What is shown for the others stays. */
  lemma {:induction false} OthersShown(saved: seq<Peer>, before: seq<Peer>, a: Peer, x: Ident)
    requires x != a.ident
    ensures Shown(saved, before + [a], x) == Shown(saved, before, x)
  {
    AddressesLast(before, a, x);
    FirstAnswerLast(before, a, x);
    assert map[] + Addresses(before, x) == Addresses(before, x);
  }

  lemma {:induction false} AgainShown(saved: seq<Peer>, before: seq<Peer>, a: Peer)
    requires a.ident in Answered(before)
    ensures Shown(saved, before + [a], a.ident) == a.ipMac + Shown(saved, before, a.ident)
    ensures a.ident.id in Ids(before)
  {
    var x := a.ident;
    AddressesLast(before, a, x);
    FirstAnswerLast(before, a, x);
    var extra := if Mistaken(before, x) then SavedMacs(saved, x) else map[];
    assert (a.ipMac + Addresses(before, x)) + extra == a.ipMac + (Addresses(before, x) + extra);
    var p :| p in before && p.ident == x;
  }

  lemma {:induction false} FirstShown(saved: seq<Peer>, before: seq<Peer>, a: Peer)
    requires a.ident !in Answered(before)
    ensures Shown(saved, before + [a], a.ident) ==
            a.ipMac + if a.ident.id in Ids(before) then SavedMacs(saved, a.ident) else map[]
  {
    AddressesLast(before, a, a.ident);
    NeverAnswered(before, a.ident);
    assert a.ipMac + map[] == a.ipMac;
    assert Addresses(before + [a], a.ident) == a.ipMac;
    FirstAnswerLast(before, a, a.ident);
    assert Mistaken(before + [a], a.ident) <==> a.ident.id in Ids(before);
  }

  ghost predicate Shows(saved: seq<Peer>, answers: seq<Peer>, peers: seq<Peer>) {
    peers == Listed(Recent(answers, {}), x => Shown(saved, answers, x)) + Absent(saved, Answered(answers))
  }

  /** The front of the list after an answer. */
  lemma {:induction false} AnswerShows(saved: seq<Peer>, before: seq<Peer>, peers: seq<Peer>, a: Peer)
    requires Unique(saved) && Shows(saved, before, peers) && a.online
    ensures MergeOne(peers, Ids(before), a) != []
    ensures MergeOne(peers, Ids(before), a)[0] == Peer(a.ident, Shown(saved, before + [a], a.ident), true)
  {
    var x, shown := a.ident, x => Shown(saved, before, x);
    var order := Recent(before, {});
    RecentIsAnswered(before, {}, x);
    if x in Answered(before) {
      AgainShown(saved, before, a);
      ListedHas(order, shown, x);
      assert Peer(x, shown(x), true) in peers;
      var p := peers[Position(peers, x).value];
      FoundAnswered(saved, before, peers, p);
    } else {
      FirstShown(saved, before, a);
      assert a.ipMac + map[] == a.ipMac;
      var pos := Position(peers, x);
      if pos.Some? {
        FoundAbsent(saved, before, peers, peers[pos.value]);
      } else {
        forall q | q in saved
          ensures q.ident != x
        {
          if q.ident !in Answered(before) {
            AbsentHas(saved, Answered(before), q);
            assert q.(online := false) in peers;
          }
        }
        SavedMacsNone(saved, x);
      }
    }
  }

  lemma {:induction false} FoundAnswered(saved: seq<Peer>, before: seq<Peer>, peers: seq<Peer>, p: Peer)
    requires Shows(saved, before, peers) && p in peers && p.ident in Answered(before)
    ensures p.ipMac == Shown(saved, before, p.ident)
  {
    var shown := x => Shown(saved, before, x);
    if p in Absent(saved, Answered(before)) {
      AbsentDidNotAnswer(saved, Answered(before), p);
    }
    ListedOnly(Recent(before, {}), shown, p);
  }

  lemma {:induction false} FoundAbsent(saved: seq<Peer>, before: seq<Peer>, peers: seq<Peer>, p: Peer)
    requires Unique(saved) && Shows(saved, before, peers) && p in peers && p.ident !in Answered(before)
    ensures p.ipMac == SavedMacs(saved, p.ident)
  {
    var shown := x => Shown(saved, before, x);
    if p in Listed(Recent(before, {}), shown) {
      ListedOnly(Recent(before, {}), shown, p);
      RecentIsAnswered(before, {}, p.ident);
    }
    AbsentDidNotAnswer(saved, Answered(before), p);
    var q :| q in saved && q.ident == p.ident && q.ipMac == p.ipMac;
    SavedMacsOf(saved, q);
  }

  // ----- the merged list

  lemma {:induction false} OfflineIsAbsent(saved: seq<Peer>)
    ensures Offline(saved) == Absent(saved, {})
  {
    if saved != [] {
      OfflineIsAbsent(saved[1..]);
      assert Offline(saved) == [saved[0].(online := false)] + Offline(saved[1..]);
    }
  }

  lemma {:induction false} RecentAfter(before: seq<Peer>, a: Peer)
    ensures Recent(before + [a], {}) == [a.ident] + Drop(Recent(before, {}), a.ident)
  {
    assert (before + [a])[..|before + [a]| - 1] == before;
    assert {} + {a.ident} == {a.ident};
    RecentSkips(before, {}, a.ident);
  }

  /** The responders behind the answer, unchanged. */
  lemma {:induction false} RespondersAfter(saved: seq<Peer>, before: seq<Peer>, a: Peer)
    ensures var x := a.ident;
            Listed(Recent(before + [a], {}), y => Shown(saved, before + [a], y)) ==
            [Peer(x, Shown(saved, before + [a], x), true)] +
            Without(Listed(Recent(before, {}), y => Shown(saved, before, y)), x)
  {
    var x, order := a.ident, Recent(before, {});
    var now, former := y => Shown(saved, before + [a], y), y => Shown(saved, before, y);
    WithoutListed(order, former, x);
    DropIsGone(order, x);
    forall y | y in Drop(order, x)
      ensures now(y) == former(y)
    {
      OthersShown(saved, before, a, y);
    }
    ListedEqual(Drop(order, x), now, former);
    RecentAfter(before, a);
    assert ([x] + Drop(order, x))[1..] == Drop(order, x);
  }

  lemma {:induction false} Reassociate(a: seq<Peer>, b: seq<Peer>, c: seq<Peer>)
    ensures a + (b + c) == (a + b) + c
  {
  }

  /** Whatever ids and identities answer: the responders, the one that answered last first, online,
      then the others, offline, in their old order. */
  lemma {:induction false} MergedShows(saved: seq<Peer>, answers: seq<Peer>)
    requires Unique(saved) && AllOnline(answers)
    ensures Shows(saved, answers, Merged(saved, answers))
    decreases |answers|
  {
    if answers == [] {
      OfflineIsAbsent(saved);
      assert Answered(answers) == {};
    } else {
      var before, a := answers[..|answers| - 1], answers[|answers| - 1];
      assert answers == before + [a];
      var peers := Merged(saved, before);
      MergedShows(saved, before);
      MergedUnique(saved, before);
      MergeOneMoves(peers, Ids(before), a);
      AnswerShows(saved, before, peers, a);
      var front, absent := Listed(Recent(before, {}), y => Shown(saved, before, y)), Absent(saved, Answered(before));
      WithoutConcat(front, absent, a.ident);
      WithoutAbsent(saved, Answered(before), a.ident);
      AnsweredGrow(before, a);
      RespondersAfter(saved, before, a);
      var moved := Peer(a.ident, Shown(saved, answers, a.ident), true);
      Reassociate([moved], Without(front, a.ident), Without(absent, a.ident));
    }
  }

  // ----- when it is what it should be

  /** Every entry of `m` is in `n`. */
  ghost predicate Agrees(m: map<string, string>, n: map<string, string>) {
    forall ip :: ip in m ==> ip in n && n[ip] == m[ip]
  }

  lemma {:induction false} AgreesAdds(m: map<string, string>, n: map<string, string>)
    ensures n + m == n <==> Agrees(m, n)
  {
    if n + m == n {
      forall ip | ip in m
        ensures ip in n && n[ip] == m[ip]
      {
        assert ip in n + m && (n + m)[ip] == m[ip];
      }
    }
  }

  /** No saved peer's first answer was mistaken for a repeated one, unless what was saved for it is
      among its answers anyway. */
  ghost predicate NothingStale(saved: seq<Peer>, answers: seq<Peer>) {
    forall p :: p in saved && Mistaken(answers, p.ident) ==> Agrees(p.ipMac, Addresses(answers, p.ident))
  }

  lemma {:induction false} StaleShown(saved: seq<Peer>, answers: seq<Peer>, x: Ident)
    requires Unique(saved)
    ensures Shown(saved, answers, x) == Addresses(answers, x) <==>
            (Mistaken(answers, x) ==>
               forall p :: p in saved && p.ident == x ==> Agrees(p.ipMac, Addresses(answers, x)))
  {
    var m := Addresses(answers, x);
    assert m + map[] == m;
    if p :| p in saved && p.ident == x {
      SavedMacsOf(saved, p);
      AgreesAdds(p.ipMac, m);
      forall q | q in saved && q.ident == x
        ensures q.ipMac == p.ipMac
      {
        SavedMacsOf(saved, q);
      }
    } else {
      SavedMacsNone(saved, x);
    }
  }

  /** The merged list is the responders, the one that answered last first, online and with all their
      addresses of this run and none of older runs, then the others, offline, in their old order,
      exactly when nothing stale is shown. */
  lemma {:induction false} MergedIsExpected(saved: seq<Peer>, answers: seq<Peer>)
    requires Unique(saved) && AllOnline(answers)
    ensures Merged(saved, answers) == Responders(answers, Recent(answers, {})) + Absent(saved, Answered(answers)) <==>
            NothingStale(saved, answers)
  {
    var order := Recent(answers, {});
    var f, g := x => Shown(saved, answers, x), x => Addresses(answers, x);
    MergedShows(saved, answers);
    ListedAt(order, f);
    ListedAt(order, g);
    SameTail(Listed(order, f), Listed(order, g), Absent(saved, Answered(answers)));
    ListedEqual(order, f, g);
    forall x
      ensures f(x) == g(x) <==>
              (Mistaken(answers, x) ==>
                 forall p :: p in saved && p.ident == x ==> Agrees(p.ipMac, Addresses(answers, x)))
      ensures Mistaken(answers, x) ==> x in order
    {
      StaleShown(saved, answers, x);
      RecentIsAnswered(answers, {}, x);
      FirstAnswerLast(answers, Peer(x, map[], true), x);
    }
  }

  lemma {:induction false} SameTail(a: seq<Peer>, b: seq<Peer>, tail: seq<Peer>)
    requires |a| == |b|
    ensures a + tail == b + tail <==> a == b
  {
    if a + tail == b + tail {
      assert (a + tail)[..|a|] == (b + tail)[..|b|];
      assert (a + tail)[..|a|] == a && (b + tail)[..|b|] == b;
    }
  }

  /** As when no id answers under two identities. */
  lemma {:induction false} OneIdentityEach(saved: seq<Peer>, answers: seq<Peer>)
    requires forall a, b :: a in answers && b in answers && a.ident.id == b.ident.id ==> a.ident == b.ident
    ensures NothingStale(saved, answers)
  {
    forall x
      ensures !Mistaken(answers, x)
    {
      var k := FirstAnswer(answers, x);
      if k >= 0 {
        forall i | 0 <= i < k
          ensures answers[..k][i].ident.id != x.id
        {
          assert answers[i] in answers && answers[k] in answers;
        }
      }
    }
  }

  /** A saved address that the second identity of an id did not answer from is shown all the same. */
  lemma {:induction false} TwoIdentities(known: Peer, first: Peer, second: Peer, ip: string)
    requires first.ident.id == second.ident.id && first.ident != second.ident && known.ident == second.ident
    requires first.online && second.online && ip in known.ipMac && ip !in second.ipMac
    ensures var answers := [first, second];
            Merged([known], answers) != Responders(answers, Recent(answers, {})) + Absent([known], Answered(answers))
  {
    TwoAnswers(first, second);
    MergedIsExpected([known], [first, second]);
    assert known in [known] && !Agrees(known.ipMac, second.ipMac);
  }

  lemma {:induction false} TwoAnswers(first: Peer, second: Peer)
    requires first.ident.id == second.ident.id && first.ident != second.ident
    ensures Mistaken([first, second], second.ident)
    ensures Addresses([first, second], second.ident) == second.ipMac
  {
    SecondAddresses(first, second);
    var answers := [first, second];
    assert answers[..1] == [first] && first in [first];
    assert answers[0] == first && answers[1] == second;
    assert FirstAnswer(answers, second.ident) == 1;
  }

  lemma {:induction false} SecondAddresses(first: Peer, second: Peer)
    requires first.ident != second.ident
    ensures Addresses([first, second], second.ident) == second.ipMac
  {
    assert [first, second][1..] == [second] && [second][1..] == [];
    assert Addresses([second], second.ident) == map[] + second.ipMac;
  }

  // ----- what the order and the addresses mean

  /** The position of the last answer of `x`, or -1. */
  function LastAnswer(answers: seq<Peer>, x: Ident): (i: int)
    ensures -1 <= i < |answers|
    ensures i >= 0 ==> answers[i].ident == x
    ensures forall k :: i < k < |answers| ==> answers[k].ident != x
    decreases |answers|
  {
    if answers == [] then -1
    else if answers[|answers| - 1].ident == x then |answers| - 1
    else LastAnswer(answers[..|answers| - 1], x)
  }

  /** Later answers come first. */
  lemma {:induction false} RecentOrder(answers: seq<Peer>, skip: set<Ident>, i: nat, j: nat)
    requires i < j < |Recent(answers, skip)|
    ensures LastAnswer(answers, Recent(answers, skip)[i]) > LastAnswer(answers, Recent(answers, skip)[j])
    decreases |answers|
  {
    var x, before := answers[|answers| - 1].ident, answers[..|answers| - 1];
    var r := Recent(answers, skip);
    RecentIsAnswered(before, skip + {x}, x);
    RecentIsAnswered(before, skip, x);
    if x in skip {
      assert r[i] in r && r[j] in r;
      RecentOrder(before, skip, i, j);
    } else {
      var rest := Recent(before, skip + {x});
      assert r[j] == rest[j - 1] && rest[j - 1] in rest;
      if i > 0 {
        assert r[i] == rest[i - 1] && rest[i - 1] in rest;
        RecentOrder(before, skip + {x}, i - 1, j - 1);
      }
    }
  }

  /** An address is shown with the MAC of the first answer of that peer from that address. */
  lemma {:induction false} EarliestMac(answers: seq<Peer>, x: Ident, k: nat, ip: string)
    requires k < |answers| && answers[k].ident == x && ip in answers[k].ipMac
    requires forall i :: 0 <= i < k && answers[i].ident == x ==> ip !in answers[i].ipMac
    ensures ip in Addresses(answers, x) && Addresses(answers, x)[ip] == answers[k].ipMac[ip]
  {
    if k > 0 {
      EarliestMac(answers[1..], x, k - 1, ip);
    }
  }

  /** No address is shown that the peer did not answer from. */
  lemma {:induction false} OnlyAnswered(answers: seq<Peer>, x: Ident, ip: string)
    requires ip in Addresses(answers, x)
    ensures exists k :: 0 <= k < |answers| && answers[k].ident == x && ip in answers[k].ipMac
  {
    if answers[0].ident == x && ip in answers[0].ipMac {
    } else {
      OnlyAnswered(answers[1..], x, ip);
      var k :| 0 <= k < |answers[1..]| && answers[1..][k].ident == x && ip in answers[1..][k].ipMac;
      assert answers[k + 1].ident == x && ip in answers[k + 1].ipMac;
    }
  }
}
