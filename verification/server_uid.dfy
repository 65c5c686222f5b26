/** Which running server process the user's main window talks to. */
module ServerUid {
  import opened Wrappers

  datatype SelectError = NoServer | ManyServers

  /** The choice, made from the set of uids alone. */
  ghost function Choice(uids: set<nat>, active: Option<nat>, preferRoot: bool): Result<nat, SelectError> {
    if uids == {} then
      if active.Some? then Success(active.value) else Failure(NoServer)
    else if |uids| == 1 then
      var u :| u in uids; Success(u)
    else if preferRoot && 0 in uids then Success(0)
    else if active.Some? && active.value in uids then Success(active.value)
    else Failure(ManyServers)
  }

  function SetOf(s: seq<nat>): set<nat> {
    set x | x in s
  }

  predicate Sorted(s: seq<nat>) {
    forall i, j :: 0 <= i < j < |s| ==> s[i] <= s[j]
  }

  predicate Increasing(s: seq<nat>) {
    forall i, j :: 0 <= i < j < |s| ==> s[i] < s[j]
  }

  method Swap(a: array<nat>, i: nat, j: nat)
    requires i < a.Length && j < a.Length
    modifies a
    ensures a[..] == old(a[..])[i := old(a[j])][j := old(a[i])]
    ensures SetOf(a[..]) == SetOf(old(a[..]))
  {
    ghost var before := a[..];
    a[i], a[j] := a[j], a[i];
    forall x
      ensures x in a[..] <==> x in before
    {
      if x in before {
        var k :| 0 <= k < |before| && before[k] == x;
        assert a[..][if k == i then j else if k == j then i else k] == x;
      }
      if x in a[..] {
        var k :| 0 <= k < a.Length && a[..][k] == x;
        assert before[if k == i then j else if k == j then i else k] == x;
      }
    }
  }

  method SortUnstable(a: array<nat>)
    modifies a
    ensures Sorted(a[..]) && SetOf(a[..]) == SetOf(old(a[..]))
  {
    for i := 0 to a.Length
      invariant Sorted(a[..i]) && SetOf(a[..]) == SetOf(old(a[..]))
    {
      var j := i;
      while j > 0 && a[j - 1] > a[j]
        invariant 0 <= j <= i && SetOf(a[..]) == SetOf(old(a[..]))
        invariant forall k, l :: 0 <= k < l <= i && l != j ==> a[k] <= a[l]
      {
        Swap(a, j - 1, j);
        j := j - 1;
      }
    }
    assert a[..a.Length] == a[..];
  }

  lemma {:induction false} SetOfAppend(s: seq<nat>, x: nat)
    ensures SetOf(s + [x]) == SetOf(s) + {x}
  {
    assert (s + [x])[|s|] == x;
    forall y | y in s ensures y in s + [x] {}
  }

  /** One of each run of equal elements. */
  function Deduped(s: seq<nat>): (d: seq<nat>)
    ensures s != [] ==> d != [] && d[|d| - 1] == s[|s| - 1]
    ensures |d| <= |s|
  {
    if s == [] then []
    else
      var d, last := Deduped(s[..|s| - 1]), s[|s| - 1];
      if |s| > 1 && last == s[|s| - 2] then d else d + [last]
  }

  lemma {:induction false} DedupedIncreasing(s: seq<nat>)
    requires Sorted(s)
    ensures Increasing(Deduped(s))
  {
    if s != [] {
      var front, last := s[..|s| - 1], s[|s| - 1];
      DedupedIncreasing(front);
      assert |s| > 1 ==> Deduped(front)[|Deduped(front)| - 1] == s[|s| - 2] <= last;
    }
  }

  lemma {:induction false} DedupedSet(s: seq<nat>)
    ensures SetOf(Deduped(s)) == SetOf(s)
  {
    if s != [] {
      var front, last := s[..|s| - 1], s[|s| - 1];
      DedupedSet(front);
      assert s == front + [last];
      SetOfAppend(front, last);
      if |s| > 1 && last == s[|s| - 2] {
        assert front[|front| - 1] == last;
      } else {
        SetOfAppend(Deduped(front), last);
      }
    }
  }

  /** The next element is kept unless the one before it is equal. */
  lemma {:induction false} DedupedNext(s: seq<nat>, r: nat)
    requires r < |s|
    ensures var d := Deduped(s[..r]);
            && (r > 0 ==> d != [] && d[|d| - 1] == s[r - 1])
            && Deduped(s[..r + 1]) == if r > 0 && s[r] == s[r - 1] then d else d + [s[r]]
  {
    assert s[..r + 1][..r] == s[..r];
  }

  method Dedup(a: array<nat>) returns (n: nat)
    modifies a
    ensures n <= a.Length && a[..n] == Deduped(old(a[..]))
  {
    ghost var before := a[..];
    n := 0;
    for r := 0 to a.Length
      invariant n <= r && (forall k :: r <= k < a.Length ==> a[k] == before[k]) && (n == 0 <==> r == 0)
      invariant a[..n] == Deduped(before[..r])
    {
      DedupedNext(before, r);
      assert n > 0 ==> a[n - 1] == a[..n][n - 1];
      if n == 0 || a[r] != a[n - 1] {
        ghost var kept := a[..n];
        a[n] := a[r];
        n := n + 1;
        assert a[..n] == kept + [before[r]];
      }
    }
    assert before[..a.Length] == before;
  }

  lemma {:induction false} SizeOfIncreasing(s: seq<nat>)
    requires Increasing(s)
    ensures |SetOf(s)| == |s|
  {
    if s != [] {
      var rest, last := s[..|s| - 1], s[|s| - 1];
      SizeOfIncreasing(rest);
      assert s == rest + [last];
      assert SetOf(s) == SetOf(rest) + {last};
    }
  }

  method SelectServerUid(uids: seq<nat>, active: Option<nat>, preferRoot: bool) returns (r: Result<nat, SelectError>)
    ensures r == Choice(SetOf(uids), active, preferRoot)
  {
    var a := new nat[|uids|](i requires 0 <= i < |uids| => uids[i]);
    assert a[..] == uids;
    SortUnstable(a);
    DedupedIncreasing(a[..]);
    DedupedSet(a[..]);
    var n := Dedup(a);
    SizeOfIncreasing(a[..n]);
    ghost var all := SetOf(uids);
    if n == 0 {
      if active.Some? {
        return Success(active.value);
      }
      return Failure(NoServer);
    } else if n == 1 {
      assert all == {a[0]};
      return Success(a[0]);
    }
    assert forall x :: x in a[..n] <==> x in all;
    if preferRoot && 0 in a[..n] {
      return Success(0);
    }
    if active.Some? && active.value in a[..n] {
      return Success(active.value);
    }
    return Failure(ManyServers);
  }

  lemma {:induction false} OnlyOne(s: set<nat>)
    requires |s| == 1
    ensures forall x, y :: x in s && y in s ==> x == y
  {
    forall x, y | x in s && y in s
      ensures x == y
    {
      assert |s - {x}| == 0;
      assert s <= {x};
    }
  }

  /** Without a server the active user is taken; a server that runs alone is; among several, root when it
      is preferred and runs one, before the active user who runs one. It fails exactly when no server
      runs and nobody is active, or several run and neither root nor the active user settles it. */
  lemma {:induction false} ChoiceMeaning(uids: set<nat>, active: Option<nat>, preferRoot: bool)
    ensures var r := Choice(uids, active, preferRoot);
            && (r.Success? && uids != {} ==> r.value in uids)
            && (uids == {} && active.Some? ==> r == Success(active.value))
            && (preferRoot && 0 in uids ==> r == Success(0))
            && (active.Some? && active.value in uids && !(preferRoot && 0 in uids) ==> r == Success(active.value))
            && (|uids| == 1 ==> r.Success?)
            && (r == Failure(NoServer) <==> uids == {} && active.None?)
            && (r == Failure(ManyServers) <==>
                |uids| >= 2 && !(preferRoot && 0 in uids) && !(active.Some? && active.value in uids))
  {
    if uids != {} {
      var u :| u in uids;
      assert uids == {u} + (uids - {u});
      if |uids| == 1 {
        OnlyOne(uids);
      }
    }
  }
}
