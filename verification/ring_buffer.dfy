/** The bounded sample queue the audio buffer keeps behind its lock: a circular array whose oldest
    samples make room for new ones. */
module RingBuffer {
  function Min(a: nat, b: nat): nat {
    if a <= b then a else b
  }

  /** The last `n` elements, or all of them. */
  function Last<T>(s: seq<T>, n: nat): (r: seq<T>)
    ensures |r| == Min(|s|, n) && r == s[|s| - |r|..]
  {
    s[|s| - Min(|s|, n)..]
  }

  lemma {:induction false} KeepNewest(before: seq<real>, elems: seq<real>, cap: nat, drop: nat)
    requires |before| <= cap
    requires drop == if |elems| > cap - |before| then Min(|elems| - (cap - |before|), |before|) else 0
    ensures var vacant := cap - (|before| - drop);
            var kept := if |elems| > vacant then elems[|elems| - vacant..] else elems;
            |before| - drop + |kept| <= cap && before[drop..] + kept == Last(before + elems, cap)
  {
  }

  /** The first `i` elements behind `base`. */
  function Behind(base: seq<real>, elems: seq<real>, i: nat): seq<real>
    requires i <= |elems|
  {
    base + elems[..i]
  }

  lemma {:induction false} OneMore(base: seq<real>, elems: seq<real>, i: nat)
    requires i < |elems|
    ensures Behind(base, elems, i) + [elems[i]] == Behind(base, elems, i + 1)
  {
  }

  lemma {:induction false} AllOfThem(base: seq<real>, elems: seq<real>)
    ensures Behind(base, elems, 0) == base && Behind(base, elems, |elems|) == base + elems
  {
  }

  class HeapRb {
    const data: array<real>
    var head: nat
    var len: nat

    ghost var contents: seq<real>  // the samples, oldest first

    ghost predicate Valid()
      reads this, data
      ensures Valid() ==> |contents| == len <= data.Length
    {
      head < data.Length && len <= data.Length &&
      contents == if head + len <= data.Length then data[head..head + len]
                  else data[head..] + data[..head + len - data.Length]
    }

    constructor (capacity: nat)
      requires capacity > 0
      ensures Valid() && fresh(data) && data.Length == capacity && contents == []
    {
      data := new real[capacity];
      head, len, contents := 0, 0, [];
    }

    method Skip(count: nat) returns (n: nat)
      requires Valid()
      modifies this
      ensures Valid() && n == Min(count, old(len))
      ensures contents == old(contents)[n..]
    {
      n := Min(count, len);
      head := if head + n < data.Length then head + n else head + n - data.Length;
      len, contents := len - n, contents[n..];
    }

    method PushOne(x: real)
      requires Valid() && len < data.Length
      modifies this`len, this`contents, data
      ensures Valid() && len == old(len) + 1
      ensures contents == old(contents) + [x]
    {
      var slot := if head + len < data.Length then head + len else head + len - data.Length;
      data[slot] := x;
      len, contents := len + 1, contents + [x];
    }

    /** Appends the samples; when they do not all fit, only the newest that do are kept. */
    method PushSliceOverwrite(elems: seq<real>)
      requires Valid()
      modifies this, data
      ensures Valid() && contents == Last(old(contents) + elems, data.Length)
    {
      ghost var before := contents;
      var drop := 0;
      if |elems| > data.Length - len {
        drop := Skip(|elems| - (data.Length - len));
      }
      var vacant := data.Length - len;
      var kept := if |elems| > vacant then elems[|elems| - vacant..] else elems;
      KeepNewest(before, elems, data.Length, drop);
      PushSlice(kept);
    }

    method PushSlice(elems: seq<real>)
      requires Valid() && len + |elems| <= data.Length
      modifies this, data
      ensures Valid() && contents == old(contents) + elems
    {
      ghost var base := contents;
      AllOfThem(base, elems);
      var i := 0;
      while i < |elems|
        invariant 0 <= i <= |elems| && Valid() && len + (|elems| - i) <= data.Length
        invariant contents == Behind(base, elems, i)
      {
        PushOne(elems[i]);
        OneMore(base, elems, i);
        i := i + 1;
      }
      AllOfThem(base, elems);
    }

    /** Where the i-th oldest sample is. */
    lemma {:induction false} SampleAt(i: nat)
      requires Valid() && i < len
      ensures contents[i] == data[if head + i < data.Length then head + i else head + i - data.Length]
    {
    }

    /** Copies the oldest samples to the front of `out`. */
    method CopyOut(out: array<real>, n: nat)
      requires Valid() && n <= len && n <= out.Length && out != data
      modifies out
      ensures out[..n] == contents[..n] && out[n..] == old(out[n..])
    {
      for i := 0 to n
        invariant forall k :: 0 <= k < i ==> out[k] == contents[k]
        invariant forall k :: n <= k < out.Length ==> out[k] == old(out[k])
      {
        SampleAt(i);
        out[i] := data[if head + i < data.Length then head + i else head + i - data.Length];
      }
    }

    /** Moves the oldest samples to the front of `out`. */
    method PopSlice(out: array<real>, n: nat)
      requires Valid() && n <= len && n <= out.Length && out != data
      modifies this, out
      ensures Valid() && contents == old(contents)[n..]
      ensures out[..n] == old(contents)[..n] && out[n..] == old(out[n..])
    {
      CopyOut(out, n);
      var _ := Skip(n);
    }
  }
}
