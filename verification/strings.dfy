/** The string operations the file-name parser calls: search, replacement, splitting, trimming,
    reversal and ASCII lower-casing, each with the facts the round-trip proofs rest on. */
module Strings {
  import opened Wrappers

  // ----- searching

  predicate MatchAt(s: string, pat: string, i: int) {
    0 <= i && i + |pat| <= |s| && s[i..i + |pat|] == pat
  }

  /** The first position, from `start` on, at which `pat` occurs. */
  function FindFrom(s: string, pat: string, start: nat): (r: Option<nat>)
    ensures r.Some? ==> start <= r.value && MatchAt(s, pat, r.value)
    ensures r.Some? ==> forall j :: start <= j < r.value ==> !MatchAt(s, pat, j)
    ensures r.None? ==> forall j :: start <= j ==> !MatchAt(s, pat, j)
    decreases |s| - start
  {
    if start + |pat| > |s| then None
    else if MatchAt(s, pat, start) then Some(start)
    else FindFrom(s, pat, start + 1)
  }

  function Find(s: string, pat: string): (r: Option<nat>)
    ensures r.Some? ==> MatchAt(s, pat, r.value) && forall j :: j < r.value ==> !MatchAt(s, pat, j)
    ensures r.None? ==> forall j :: !MatchAt(s, pat, j)
  {
    FindFrom(s, pat, 0)
  }

  predicate Contains(s: string, pat: string) {
    Find(s, pat).Some?
  }

  predicate StartsWith(s: string, pat: string) {
    |pat| <= |s| && s[..|pat|] == pat
  }

  predicate EndsWith(s: string, pat: string) {
    |pat| <= |s| && s[|s| - |pat|..] == pat
  }

  lemma {:induction false} MatchChar(s: string, pat: string, i: int, k: nat)
    ensures MatchAt(s, pat, i) && k < |pat| ==> s[i + k] == pat[k]
  {
    if MatchAt(s, pat, i) && k < |pat| {
      assert s[i + k] == s[i..i + |pat|][k];
    }
  }

  lemma {:induction false} MatchSuffix(a: string, b: string, pat: string, k: nat)
    ensures MatchAt(a + b, pat, |a| + k) <==> MatchAt(b, pat, k)
  {
    if k + |pat| <= |b| {
      assert (a + b)[|a| + k..|a| + k + |pat|] == b[k..k + |pat|];
    }
  }

  /** No occurrence of `pat` in `a + b` begins inside `a`. */
  ghost predicate NoneBegins(a: string, b: string, pat: string) {
    forall j :: j < |a| ==> !MatchAt(a + b, pat, j)
  }

  /** When nothing begins inside `a`, the search continues in `b`. */
  lemma {:induction false} FindSkip(a: string, b: string, pat: string)
    requires NoneBegins(a, b, pat)
    ensures Find(a + b, pat) == match Find(b, pat) case None => None case Some(i) => Some(|a| + i)
  {
    var s := a + b;
    var whole, rest := Find(s, pat), Find(b, pat);
    if whole.Some? {
      assert whole.value >= |a|;
      MatchSuffix(a, b, pat, whole.value - |a|);
    }
    if rest.Some? {
      MatchSuffix(a, b, pat, rest.value);
    }
  }

  // ----- splitting and replacing

  /** The pieces between the left-to-right, non-overlapping occurrences of `sep`. */
  function Split(s: string, sep: string): (r: seq<string>)
    requires |sep| > 0
    ensures |r| > 0
    decreases |s|
  {
    match Find(s, sep)
    case None => [s]
    case Some(i) => [s[..i]] + Split(s[i + |sep|..], sep)
  }

  function Join(pieces: seq<string>, sep: string): string
    requires |pieces| > 0
  {
    if |pieces| == 1 then pieces[0] else pieces[0] + (sep + Join(pieces[1..], sep))
  }

  /** Left-to-right, non-overlapping replacement. */
  function Replace(s: string, pat: string, with: string): string
    requires |pat| > 0
  {
    Join(Split(s, pat), with)
  }

  lemma {:induction false} SplitSkip(a: string, b: string, sep: string)
    requires |sep| > 0 && NoneBegins(a, b, sep)
    ensures Split(a + b, sep) == [a + Split(b, sep)[0]] + Split(b, sep)[1..]
  {
    FindSkip(a, b, sep);
    if Find(b, sep).Some? {
      var i := Find(b, sep).value;
      assert (a + b)[..|a| + i] == a + b[..i];
      assert (a + b)[|a| + i + |sep|..] == b[i + |sep|..];
      assert ([b[..i]] + Split(b[i + |sep|..], sep))[1..] == Split(b[i + |sep|..], sep);
    }
  }

  lemma {:induction false} SplitHit(a: string, b: string, sep: string)
    requires |sep| > 0 && NoneBegins(a, sep + b, sep)
    ensures Split(a + (sep + b), sep) == [a] + Split(b, sep)
  {
    SplitSkip(a, sep + b, sep);
    assert MatchAt(sep + b, sep, 0);
    assert Find(sep + b, sep) == Some(0);
    assert (sep + b)[|sep|..] == b;
    assert Split(sep + b, sep) == [""] + Split(b, sep);
    assert a + "" == a;
  }

  lemma {:induction false} ReplaceSkip(a: string, b: string, pat: string, with: string)
    requires |pat| > 0 && NoneBegins(a, b, pat)
    ensures Replace(a + b, pat, with) == a + Replace(b, pat, with)
  {
    SplitSkip(a, b, pat);
    var pieces := Split(b, pat);
    assert ([a + pieces[0]] + pieces[1..])[1..] == pieces[1..];
    if |pieces| > 1 {
      var rest := with + Join(pieces[1..], with);
      assert (a + pieces[0]) + rest == a + (pieces[0] + rest);
    }
  }

  lemma {:induction false} ReplaceHit(a: string, b: string, pat: string, with: string)
    requires |pat| > 0 && NoneBegins(a, pat + b, pat)
    ensures Replace(a + (pat + b), pat, with) == a + (with + Replace(b, pat, with))
  {
    SplitHit(a, b, pat);
    assert ([a] + Split(b, pat))[1..] == Split(b, pat);
  }

  // ----- trimming

  /** Unicode White_Space. */
  predicate IsWhitespace(c: char) {
    var n := c as int;
    9 <= n <= 13 || n == 32 || n == 0x85 || n == 0xA0 || n == 0x1680 || 0x2000 <= n <= 0x200A ||
    n == 0x2028 || n == 0x2029 || n == 0x202F || n == 0x205F || n == 0x3000
  }

  function TrimStart(s: string): (r: string)
    ensures |r| <= |s|
  {
    if s != [] && IsWhitespace(s[0]) then TrimStart(s[1..]) else s
  }

  function TrimEnd(s: string): (r: string)
    ensures |r| <= |s|
  {
    if s != [] && IsWhitespace(s[|s| - 1]) then TrimEnd(s[..|s| - 1]) else s
  }

  function Trim(s: string): string {
    TrimEnd(TrimStart(s))
  }

  predicate AllWhitespace(s: string) {
    forall c :: c in s ==> IsWhitespace(c)
  }

  /** Blanks after a text that itself begins and ends with non-blanks are trimmed away exactly. */
  lemma {:induction false} TrimPadding(s: string, pad: string)
    requires s != [] && !IsWhitespace(s[0]) && !IsWhitespace(s[|s| - 1]) && AllWhitespace(pad)
    ensures Trim(s + pad) == s
    decreases |pad|
  {
    if pad == [] {
      assert s + pad == s;
    } else {
      var shorter := pad[..|pad| - 1];
      assert (s + pad)[..|s + pad| - 1] == s + shorter;
      TrimPadding(s, shorter);
    }
  }

  /** Trimming never removes a character that is not a blank. */
  lemma {:induction false} TrimKeeps(s: string, c: char)
    requires c in s && !IsWhitespace(c)
    ensures c in Trim(s)
  {
    TrimStartKeeps(s, c);
    TrimEndKeeps(TrimStart(s), c);
  }

  lemma {:induction false} TrimStartKeeps(s: string, c: char)
    requires c in s && !IsWhitespace(c)
    ensures c in TrimStart(s)
  {
    if IsWhitespace(s[0]) {
      TrimStartKeeps(s[1..], c);
    }
  }

  lemma {:induction false} TrimEndKeeps(s: string, c: char)
    requires c in s && !IsWhitespace(c)
    ensures c in TrimEnd(s)
  {
    if IsWhitespace(s[|s| - 1]) {
      assert s == s[..|s| - 1] + [s[|s| - 1]];
      TrimEndKeeps(s[..|s| - 1], c);
    }
  }

  // ----- reversal and case

  function Reverse(s: string): (r: string)
    ensures |r| == |s| && forall i :: 0 <= i < |s| ==> r[i] == s[|s| - 1 - i]
  {
    seq(|s|, i requires 0 <= i < |s| => s[|s| - 1 - i])
  }

  lemma {:induction false} ReverseTwice(s: string)
    ensures Reverse(Reverse(s)) == s
  {
    assert forall i :: 0 <= i < |s| ==> Reverse(Reverse(s))[i] == s[i];
  }

  function LowerChar(c: char): char {
    if 'A' <= c <= 'Z' then c + 32 as char else c
  }

  /** Lower-casing of the ASCII letters. */
  function Lower(s: string): (r: string)
    ensures |r| == |s| && forall i :: 0 <= i < |s| ==> r[i] == LowerChar(s[i])
  {
    seq(|s|, i requires 0 <= i < |s| => LowerChar(s[i]))
  }

  lemma {:induction false} LowerConcat(a: string, b: string)
    ensures Lower(a + b) == Lower(a) + Lower(b)
  {
  }

  // ----- letter case

  /** The same character, or the capital of the small letter `w`. */
  predicate SameLetter(c: char, w: char) {
    c == w || ('A' <= c <= 'Z' && c as int - 65 == w as int - 97)
  }

  /** `text` reads `word`, each letter small or capital. */
  predicate Spells(text: string, word: string) {
    |text| == |word| && forall i :: 0 <= i < |text| ==> SameLetter(text[i], word[i])
  }

  predicate NoCapitals(word: string) {
    forall i :: 0 <= i < |word| ==> !('A' <= word[i] <= 'Z')
  }

  /** Lower-casing gives the one word without capitals that a text reads. */
  lemma {:induction false} LowerSpells(text: string, word: string)
    requires NoCapitals(word)
    ensures Lower(text) == word <==> Spells(text, word)
  {
    if Spells(text, word) {
      assert forall i :: 0 <= i < |text| ==> Lower(text)[i] == word[i];
    }
  }

  predicate ReadsAt(text: string, word: string, i: int) {
    0 <= i && i + |word| <= |text| && Spells(text[i..i + |word|], word)
  }

  /** `word` is read nowhere in `text`. */
  ghost predicate ReadsNowhere(text: string, word: string) {
    forall i :: !ReadsAt(text, word, i)
  }

  lemma {:induction false} LowerSlice(text: string, i: nat, j: nat)
    requires i <= j <= |text|
    ensures Lower(text)[i..j] == Lower(text[i..j])
  {
  }

  lemma {:induction false} NotInLower(text: string, word: string)
    requires NoCapitals(word)
    ensures ReadsNowhere(text, word) <==> !Contains(Lower(text), word)
  {
    forall i
      ensures ReadsAt(text, word, i) <==> MatchAt(Lower(text), word, i)
    {
      if 0 <= i && i + |word| <= |text| {
        LowerSlice(text, i, i + |word|);
        LowerSpells(text[i..i + |word|], word);
      }
    }
  }

  lemma {:induction false} ReplaceNone(s: string, pat: string, with: string)
    requires |pat| > 0 && !Contains(s, pat)
    ensures Replace(s, pat, with) == s
  {
  }

  /** Trimming takes blanks away at both ends, and all of them. */
  lemma {:induction false} TrimExactly(s: string) returns (a: string, b: string)
    ensures s == a + Trim(s) + b && AllWhitespace(a) && AllWhitespace(b)
    ensures var t := Trim(s); t != "" ==> !IsWhitespace(t[0]) && !IsWhitespace(t[|t| - 1])
  {
    a := TrimmedStart(s);
    b := TrimmedEnd(TrimStart(s));
  }

  lemma {:induction false} TrimmedStart(s: string) returns (a: string)
    ensures s == a + TrimStart(s) && AllWhitespace(a)
    ensures TrimStart(s) != "" ==> !IsWhitespace(TrimStart(s)[0])
  {
    a := "";
    if s != "" && IsWhitespace(s[0]) {
      var rest := TrimmedStart(s[1..]);
      a := [s[0]] + rest;
    }
  }

  lemma {:induction false} TrimmedEnd(s: string) returns (b: string)
    ensures s == TrimEnd(s) + b && AllWhitespace(b)
    ensures TrimEnd(s) != "" ==> TrimEnd(s)[0] == s[0] && !IsWhitespace(TrimEnd(s)[|TrimEnd(s)| - 1])
  {
    b := "";
    if s != "" && IsWhitespace(s[|s| - 1]) {
      var rest := TrimmedEnd(s[..|s| - 1]);
      b := rest + [s[|s| - 1]];
    }
  }
}
