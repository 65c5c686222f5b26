/** Parsing an executable name built around a generated licence name gives the licence back. */
module NameRoundTrip {
  import opened Wrappers
  import opened Strings
  import opened Base64Url
  import opened LicenseJson
  import opened CustomServerName

  /** Neither the piece separator nor a marker occurs inside the name. */
  predicate Uncut(name: string) {
    !Contains(name, "--") && !Contains(name, "-licensed-")
  }

  // ----- the generated name

  /** A generated name is written in the alphabet; it begins with 9, Q or 0, whatever the record,
      because the text ends in a brace, and ends with e because the text begins with one. */
  predicate NameShape(name: string) {
    |name| > 0 && InAlphabet(name) && name[0] in {'9', 'Q', '0'} && name[|name| - 1] == 'e'
  }

  lemma {:induction false} GenNameShape(lic: CustomServer)
    ensures NameShape(GenName(lic))
  {
    var b := WriteServer(lic);
    EncodeInAlphabet(b);
    EncodeStarts(b);
    EncodeEnds(b);
    var name := GenName(lic);
    forall c | c in name
      ensures FromSymbol(c).Some?
    {
      var i :| 0 <= i < |name| && name[i] == c;
      assert Encode(b)[|name| - 1 - i] == c;
    }
  }

  /** Any two dashes are a multiple of four apart. */
  predicate DashesInFours(s: string) {
    forall i, j :: 0 <= i <= j < |s| && s[i] == '-' && s[j] == '-' ==> (j - i) % 4 == 0
  }

  /** Then no text occurs that begins and ends with dashes at another distance. */
  lemma {:induction false} NotBetweenDashes(s: string, pat: string)
    requires DashesInFours(s)
    requires |pat| > 0 && pat[0] == '-' && pat[|pat| - 1] == '-' && (|pat| - 1) % 4 != 0
    ensures !Contains(s, pat)
  {
    forall i
      ensures !MatchAt(s, pat, i)
    {
      MatchChar(s, pat, i, 0);
      MatchChar(s, pat, i, |pat| - 1);
    }
  }

  lemma {:induction false} DashesPlaced(s: string)
    requires forall i :: 0 <= i < |s| && s[i] == '-' ==> i % 4 == 3
    ensures DashesInFours(s)
  {
  }

  lemma {:induction false} DashesReversed(s: string)
    requires DashesInFours(s)
    ensures DashesInFours(Reverse(s))
  {
    var r, last := Reverse(s), |s| - 1;
    forall i, j | 0 <= i <= j < |s| && r[i] == '-' && r[j] == '-'
      ensures (j - i) % 4 == 0
    {
      assert s[last - j] == '-' && s[last - i] == '-';
      assert (last - i) - (last - j) == j - i;
    }
  }

  lemma {:induction false} AsciiDashes(b: seq<byte>)
    requires IsAscii(b)
    ensures DashesInFours(Encode(b)) && DashesInFours(Reverse(Encode(b)))
  {
    DashPlaces(b);
    DashesPlaced(Encode(b));
    DashesReversed(Encode(b));
  }

  /** In either direction, the encoding of ASCII bytes holds neither the separator nor the marker. */
  lemma {:induction false} AsciiEncodingUncut(b: seq<byte>)
    requires IsAscii(b)
    ensures Uncut(Encode(b)) && Uncut(Reverse(Encode(b)))
  {
    AsciiDashes(b);
    NotBetweenDashes(Encode(b), "--");
    NotBetweenDashes(Encode(b), "-licensed-");
    NotBetweenDashes(Reverse(Encode(b)), "--");
    NotBetweenDashes(Reverse(Encode(b)), "-licensed-");
  }

  /** So the name of an ASCII record is never cut. */
  lemma {:induction false} AsciiNameUncut(lic: CustomServer)
    requires AsciiServer(lic)
    ensures Uncut(GenName(lic))
  {
    WriteServerAscii(lic);
    AsciiEncodingUncut(WriteServer(lic));
  }

  lemma {:induction false} ConfigStringBack(verify: Verifier, lic: CustomServer)
    ensures FromConfigString(verify, GenName(lic)) == Success(lic)
  {
    var data := WriteServer(lic);
    NameDecodes(lic);
    assert Decode(Reverse(GenName(lic))) == Some(data);
    ReadWrite(lic);
    assert FromJson(data) == Success(lic);
  }

  lemma {:induction false} NameDecodes(lic: CustomServer)
    ensures Decode(Reverse(GenName(lic))) == Some(WriteServer(lic))
  {
    var s := Encode(WriteServer(lic));
    ReverseTwice(s);
    assert Reverse(GenName(lic)) == s;
    DecodeEncode(WriteServer(lic));
  }

  // ----- what may follow the name

  /** Nothing, or blanks and then nothing, an opening parenthesis or a double dash. */
  predicate IsTail(t: string) {
    var r := TrimStart(t);
    r == "" || r[0] == '(' || StartsWith(r, "--")
  }

  /** The part of a tail that stays with the name when the pieces are cut. */
  predicate IsHead(t: string) {
    var r := TrimStart(t);
    r == "" || r[0] == '('
  }

  lemma {:induction false} TailStarts(t: string)
    requires IsTail(t) && t != ""
    ensures IsWhitespace(t[0]) || t[0] == '(' || StartsWith(t, "--")
  {
  }

  /** A shorter tail is still a tail when only letters and dots went. */
  lemma {:induction false} TailPrefix(t: string, k: nat)
    requires IsTail(t) && k <= |t|
    requires forall i :: k <= i < |t| ==> !IsWhitespace(t[i]) && t[i] != '(' && t[i] != '-'
    ensures IsTail(t[..k])
  {
    if t != "" && IsWhitespace(t[0]) {
      assert t[..k][1..] == t[1..][..k - 1];
      TailPrefix(t[1..], k - 1);
    } else if StartsWith(t, "--") {
      assert t[..2][0] == t[0] && t[..2][1] == t[1];
      assert t[..k][..2] == "--";
    }
  }

  lemma {:induction false} TailHead(t: string)
    requires IsTail(t)
    ensures IsHead(Split(t, "--")[0])
  {
    if t != "" && IsWhitespace(t[0]) {
      TailHead(t[1..]);
      assert t == [t[0]] + t[1..];
      MatchChar(t, "--", 0, 0);
      SplitSkip([t[0]], t[1..], "--");
      assert ([t[0]] + Split(t[1..], "--")[0])[1..] == Split(t[1..], "--")[0];
    } else if t != "" && t[0] == '(' {
      assert t == [t[0]] + t[1..];
      MatchChar(t, "--", 0, 0);
      SplitSkip([t[0]], t[1..], "--");
    } else if t != "" {
      assert MatchAt(t, "--", 0);
      assert Find(t, "--") == Some(0);
    }
  }

  predicate IsMarkerText(pat: string) {
    pat == "-licensed-" || pat == "-licensed--" || pat == "-licensed---"
  }

  lemma {:induction false} MarkerMatch(s: string, pat: string, j: int)
    requires IsMarkerText(pat)
    ensures MatchAt(s, pat, j) ==> s[j] == '-' && s[j + 1] == 'l' && MatchAt(s, "-licensed-", j)
  {
    MatchChar(s, pat, j, 0);
    MatchChar(s, pat, j, 1);
    if MatchAt(s, pat, j) {
      assert s[j..j + 10] == s[j..j + |pat|][..10];
    }
  }

  /** Removing markers from a tail leaves a tail. */
  lemma {:induction false} TailReplace(t: string, pat: string)
    requires IsTail(t) && IsMarkerText(pat)
    ensures IsTail(Replace(t, pat, "--"))
  {
    if t == "" {
    } else if IsWhitespace(t[0]) || t[0] == '(' {
      SkipOne(t, pat);
      if IsWhitespace(t[0]) {
        TailReplace(t[1..], pat);
        assert ([t[0]] + Replace(t[1..], pat, "--"))[1..] == Replace(t[1..], pat, "--");
      }
    } else {
      assert t[0] == t[..2][0] && t[1] == t[..2][1];
      SkipOne(t, pat);
      KeepsDash(t[1..], pat);
      var rest := Replace(t[1..], pat, "--");
      assert ([t[0]] + rest)[..2] == "--";
    }
  }

  lemma {:induction false} SkipOne(t: string, pat: string)
    requires IsMarkerText(pat) && t != ""
    requires t[0] != '-' || (|t| > 1 && t[1] != 'l')
    ensures Replace(t, pat, "--") == [t[0]] + Replace(t[1..], pat, "--")
  {
    assert t == [t[0]] + t[1..];
    MarkerMatch(t, pat, 0);
    ReplaceSkip([t[0]], t[1..], pat, "--");
  }

  lemma {:induction false} KeepsDash(t: string, pat: string)
    requires IsMarkerText(pat) && t != "" && t[0] == '-'
    ensures Replace(t, pat, "--") != "" && Replace(t, pat, "--")[0] == '-'
  {
    if MatchAt(t, pat, 0) {
      assert t == "" + (pat + t[|pat|..]);
      ReplaceHit("", t[|pat|..], pat, "--");
      assert "" + ("--" + Replace(t[|pat|..], pat, "--")) == "--" + Replace(t[|pat|..], pat, "--");
    } else {
      assert t == [t[0]] + t[1..];
      ReplaceSkip([t[0]], t[1..], pat, "--");
    }
  }

  // ----- the name next to its tail

  lemma {:induction false} SeparatorSkipsName(name: string, tail: string)
    requires NameShape(name) && Uncut(name)
    ensures NoneBegins(name, tail, "--")
  {
    var s := name + tail;
    forall j | j < |name|
      ensures !MatchAt(s, "--", j)
    {
      MatchChar(s, "--", j, 0);
      if 0 <= j < |name| - 1 {
        assert name[j..j + 2] == s[j..j + 2];
        assert !MatchAt(name, "--", j);
      }
    }
  }

  lemma {:induction false} MarkerSkipsName(name: string, tail: string, pat: string)
    requires NameShape(name) && Uncut(name) && IsTail(tail) && IsMarkerText(pat)
    ensures NoneBegins(name, tail, pat)
  {
    forall j | j < |name|
      ensures !MatchAt(name + tail, pat, j)
    {
      MarkerMatch(name + tail, pat, j);
      LicensedNotInName(name, tail, j);
    }
  }

  lemma {:induction false} LicensedNotInName(name: string, tail: string, j: int)
    requires NameShape(name) && Uncut(name) && IsTail(tail) && j < |name|
    ensures !MatchAt(name + tail, "-licensed-", j)
  {
    var s, last := name + tail, |name| - 1;
    if 0 <= j && j + 10 <= |name| {
      assert name[j..j + 10] == s[j..j + 10];
      assert !MatchAt(name, "-licensed-", j);
    } else if 0 <= j {
      // the name's final e would be the e of "licensed", and the tail would go on with n or d
      assert s[last] == 'e';
      MatchChar(s, "-licensed-", j, last - j);
      MatchChar(s, "-licensed-", j, last - j + 1);
      if tail != "" {
        TailStarts(tail);
        assert s[last + 1] == tail[0];
        assert StartsWith(tail, "--") ==> tail[0] == tail[..2][0];
      }
    }
  }

  // ----- removing the marker before the name

  /** What may stand between the stem and the name. */
  predicate IsMark(mark: string) {
    mark == "--" || IsMarkerText(mark)
  }

  predicate PlainStem(stem: string) {
    '-' !in stem && '=' !in stem && '(' !in stem
  }

  /** Nothing that starts with a dash begins in a stem without dashes. */
  lemma {:induction false} StemSkips(stem: string, pat: string, rest: string)
    requires PlainStem(stem) && pat != "" && pat[0] == '-'
    ensures NoneBegins(stem, rest, pat)
  {
    forall j | j < |stem|
      ensures !MatchAt(stem + rest, pat, j)
    {
      MatchChar(stem + rest, pat, j, 0);
      if 0 <= j < |stem| {
        assert stem[j] in stem;
      }
    }
  }

  /** A marker longer than the mark that is there, or any once the mark is `--`, is not found before
      or inside the name. */
  lemma {:induction false} MarkerSkipsMark(mark: string, name: string, tail: string, pat: string)
    requires IsMark(mark) && IsMarkerText(pat) && NameShape(name)
    requires mark == "--" || |pat| > |mark|
    ensures NoneBegins(mark, name + tail, pat)
  {
    var s := mark + (name + tail);
    forall j | j < |mark|
      ensures !MatchAt(s, pat, j)
    {
      MarkerMatch(s, pat, j);
      if |pat| > |mark| {
        MatchChar(s, pat, j, |mark|);
        assert s[|mark|] == name[0];
      }
      if 0 <= j {
        assert s[j] == mark[j];
        assert j + 1 < |mark| ==> s[j + 1] == mark[j + 1];
        assert j + 1 == |mark| ==> s[j + 1] == name[0];
      }
    }
  }

  lemma {:induction false} ReplaceAround(stem: string, mark: string, name: string, tail: string, pat: string)
    requires PlainStem(stem) && IsMark(mark) && IsMarkerText(pat)
    requires mark == "--" || |pat| >= |mark|
    requires NameShape(name) && Uncut(name) && IsTail(tail)
    ensures Replace(stem + (mark + (name + tail)), pat, "--") ==
            stem + ((if pat == mark then "--" else mark) + (name + Replace(tail, pat, "--")))
  {
    MarkerSkipsName(name, tail, pat);
    ReplaceSkip(name, tail, pat, "--");
    StemSkips(stem, pat, mark + (name + tail));
    if pat == mark {
      ReplaceHit(stem, name + tail, pat, "--");
    } else {
      ReplaceSkip(stem, mark + (name + tail), pat, "--");
      MarkerSkipsMark(mark, name, tail, pat);
      ReplaceSkip(mark, name + tail, pat, "--");
    }
  }

  lemma {:induction false} UnmarkAround(stem: string, mark: string, name: string, tail: string) returns (after: string)
    requires PlainStem(stem) && IsMark(mark)
    requires NameShape(name) && Uncut(name) && IsTail(tail)
    ensures IsTail(after)
    ensures Unmark(stem + (mark + (name + tail))) == stem + ("--" + (name + after))
  {
    var p2, p1, p0 := "-licensed---", "-licensed--", "-licensed-";
    var mark1 := if p2 == mark then "--" else mark;
    var mark2 := if p1 == mark1 then "--" else mark1;
    var tail1 := Replace(tail, p2, "--");
    var tail2 := Replace(tail1, p1, "--");
    after := Replace(tail2, p0, "--");
    TailReplace(tail, p2);
    TailReplace(tail1, p1);
    TailReplace(tail2, p0);
    ReplaceAround(stem, mark, name, tail, p2);
    ReplaceAround(stem, mark1, name, tail1, p1);
    ReplaceAround(stem, mark2, name, tail2, p0);
  }

  // ----- the piece that carries the name

  lemma {:induction false} BlankHead(t: string)
    requires TrimStart(t) == ""
    ensures AllWhitespace(t)
  {
    if t != "" {
      BlankHead(t[1..]);
      assert t == [t[0]] + t[1..];
    }
  }

  /** The part of a head before its first parenthesis is blank. */
  lemma {:induction false} HeadBeforeParenthesis(t: string)
    requires IsHead(t)
    ensures AllWhitespace(Split(t, "(")[0])
    ensures '(' !in t ==> AllWhitespace(t)
  {
    if t == "" {
    } else if IsWhitespace(t[0]) {
      HeadBeforeParenthesis(t[1..]);
      assert t == [t[0]] + t[1..];
      MatchChar(t, "(", 0, 0);
      SplitSkip([t[0]], t[1..], "(");
    } else {
      assert MatchAt(t, "(", 0);
      assert Find(t, "(") == Some(0);
    }
  }

  lemma {:induction false} NameHasNoParenthesis(name: string, t: string)
    requires InAlphabet(name)
    ensures NoneBegins(name, t, "(")
    ensures Contains(name + t, "(") <==> '(' in t
  {
    var s := name + t;
    forall j | j < |name|
      ensures !MatchAt(s, "(", j)
    {
      MatchChar(s, "(", j, 0);
      if 0 <= j {
        assert name[j] in name;
      }
    }
    FindSkip(name, t, "(");
    if '(' in t {
      var i :| 0 <= i < |t| && t[i] == '(';
      assert t[i..i + 1] == "(";
      assert MatchAt(t, "(", i);
    }
    if Find(t, "(").Some? {
      var i := Find(t, "(").value;
      assert t[i] == t[i..i + 1][0];
    }
  }

  /** Of the candidates of the name's piece, the first that is a licence gives the record. */
  lemma {:induction false} PieceGivesRecord(verify: Verifier, lic: CustomServer, head: string)
    requires IsHead(head)
    ensures FirstLicence(verify, Candidates(GenName(lic) + head)) == Success(lic)
  {
    var name := GenName(lic);
    var piece := name + head;
    GenNameShape(lic);
    ConfigStringBack(verify, lic);
    HeadBeforeParenthesis(head);
    NameHasNoParenthesis(name, head);
    assert name[0] in name && name[|name| - 1] in name;
    if '(' in head {
      var parts := Split(piece, "(");
      SplitSkip(name, head, "(");
      TrimPadding(name, Split(head, "(")[0]);
      assert FirstLicence(verify, parts) == Success(lic);
      ParenthesisFails(verify, piece);
      assert Candidates(piece)[1..] == parts;
    } else {
      TrimPadding(name, head);
    }
  }

  lemma {:induction false} ParenthesisFails(verify: Verifier, piece: string)
    requires '(' in piece
    ensures FromConfigString(verify, Trim(piece)) == Failure(BadBase64)
  {
    TrimKeeps(piece, '(');
    var s := Trim(piece);
    var i :| 0 <= i < |s| && s[i] == '(';
    assert Reverse(s)[|s| - 1 - i] == '(';
    ForeignSymbol(Reverse(s), '(');
  }

  // ----- the extension and the host grammar do not interfere

  /** What is stripped is the extension and, at most, a suffix of the tail. */
  lemma {:induction false} StripTail(base: string, tail: string, ext: string) returns (k: nat)
    requires |base| >= 4 && base[|base| - 4] != '.'
    requires IsTail(tail) && IsExtension(ext)
    ensures k <= |tail| && IsTail(tail[..k])
    ensures StripExe(base + tail + ext) == base + tail[..k]
  {
    var s := base + tail + ext;
    var n := ExeLength(s);
    ExtensionStripped(base + tail, ext);
    ExeChars(s);
    StripWithinTail(base, tail, ext);
    k := |tail| - (n - |ext|);
    forall i | k <= i < |tail|
      ensures !IsWhitespace(tail[i]) && tail[i] != '(' && tail[i] != '-'
    {
      assert tail[i] == s[|base| + i];
    }
    TailPrefix(tail, k);
  }

  lemma {:induction false} StripWithinTail(base: string, tail: string, ext: string)
    requires |base| >= 4 && base[|base| - 4] != '.'
    requires IsTail(tail) && IsExtension(ext)
    ensures ExeLength(base + tail + ext) <= |tail| + |ext|
  {
    var s := base + tail + ext;
    ExeChars(s);
    assert s[|base| - 4] == base[|base| - 4];
    if tail != "" {
      TailStarts(tail);
      assert s[|base|] == tail[0] && !ExeChar(tail[0]);
    }
  }

  /** A text without an equals sign that ends in e holds no beginning of `host=`. */
  lemma {:induction false} HostNotBefore(a: string, b: string)
    requires '=' !in a && a != "" && a[|a| - 1] == 'e'
    ensures NoneBegins(a, b, "host=")
  {
    forall j | j < |a|
      ensures !MatchAt(a + b, "host=", j)
    {
      MatchChar(a + b, "host=", j, 4);
      if 0 <= j && j + 4 < |a| {
        assert a[j + 4] in a;
      } else if 0 <= j {
        MatchChar(a + b, "host=", j, |a| - 1 - j);
      }
    }
  }

  lemma {:induction false} LowerKeepsOutEquals(s: string)
    requires '=' !in s
    ensures '=' !in Lower(s)
  {
    forall i | 0 <= i < |s|
      ensures Lower(s)[i] != '='
    {
      assert s[i] in s;
    }
  }

  lemma {:induction false} NoEqualsSign(name: string)
    requires NameShape(name)
    ensures '=' !in name
  {
    assert FromSymbol('=').None?;
  }

  /** The host grammar is chosen only when the tail asks for it. */
  lemma {:induction false} HostOnlyInTail(front: string, name: string, tail: string)
    requires '=' !in front && NameShape(name)
    requires !Contains(Lower(tail), "host=")
    ensures !Contains(Lower(front + (name + tail)), "host=")
  {
    NoEqualsSign(name);
    assert front + (name + tail) == front + name + tail;
    LowerConcat(front + name, tail);
    LowerKeepsOutEquals(front + name);
    HostNotBefore(Lower(front + name), Lower(tail));
    FindSkip(Lower(front + name), Lower(tail), "host=");
  }

  lemma {:induction false} HostInPrefix(t: string, k: nat)
    requires k <= |t| && !Contains(Lower(t), "host=")
    ensures !Contains(Lower(t[..k]), "host=")
  {
    forall j
      ensures !MatchAt(Lower(t[..k]), "host=", j)
    {
      assert !MatchAt(Lower(t), "host=", j);
      if 0 <= j && j + 5 <= k {
        assert Lower(t[..k])[j..j + 5] == Lower(t)[j..j + 5];
      }
    }
  }

  // ----- the round trip

  /** The name of any record, if it is not cut, is read back from an executable's file name: after a
      stem and one of the marks, before anything Windows or the user may append, whatever the
      letter case of the extension. */
  lemma {:induction false} NameRoundTrip(verify: Verifier, stem: string, mark: string, lic: CustomServer,
                                         tail: string, ext: string)
    requires PlainStem(stem) && FromConfigString(verify, Trim(stem)).Failure?
    requires IsMark(mark) && Uncut(GenName(lic))
    requires IsTail(tail) && ReadsNowhere(tail, "host=") && IsExtension(ext)
    ensures Parse(verify, stem + mark + GenName(lic) + tail + ext) == Success(lic)
  {
    NotInLower(tail, "host=");
    GenNameShape(lic);
    GenNameLong(lic);
    var rest, after := UnmarkedName(stem, mark, GenName(lic), tail, ext);
    PiecesGiveRecord(verify, stem, lic, after);
    ParseLicence(verify, stem + mark + GenName(lic) + tail + ext, stem + (mark + (GenName(lic) + rest)));
  }

  lemma {:induction false} ParseLicence(verify: Verifier, name: string, s: string)
    requires StripExe(name) == s && !Contains(Lower(s), "host=")
    ensures Parse(verify, name) == FirstLicence(verify, AllCandidates(Split(Unmark(s), "--")))
  {
  }

  lemma {:induction false} UnmarkedName(stem: string, mark: string, name: string, tail: string, ext: string)
    returns (rest: string, after: string)
    requires PlainStem(stem) && IsMark(mark) && NameShape(name) && |name| >= 4 && Uncut(name)
    requires IsTail(tail) && !Contains(Lower(tail), "host=") && IsExtension(ext)
    ensures IsTail(after)
    ensures var s := stem + (mark + (name + rest));
            StripExe(stem + mark + name + tail + ext) == s && !Contains(Lower(s), "host=") &&
            Unmark(s) == stem + ("--" + (name + after))
  {
    rest := StrippedName(stem + mark, name, tail, ext);
    assert stem + (mark + (name + rest)) == stem + mark + (name + rest);
    NoEqualsInMark(stem, mark);
    HostOnlyInTail(stem + mark, name, rest);
    after := UnmarkAround(stem, mark, name, rest);
  }

  lemma {:induction false} NoEqualsInMark(stem: string, mark: string)
    requires PlainStem(stem) && IsMark(mark)
    ensures '=' !in stem + mark
  {
  }

  lemma {:induction false} NoDotInName(front: string, name: string)
    requires NameShape(name) && |name| >= 4
    ensures (front + name)[|front + name| - 4] != '.'
  {
    assert (front + name)[|front + name| - 4] == name[|name| - 4] && name[|name| - 4] in name;
    assert FromSymbol('.').None?;
  }

  lemma {:induction false} StrippedName(front: string, name: string, tail: string, ext: string)
    returns (rest: string)
    requires NameShape(name) && |name| >= 4
    requires IsTail(tail) && !Contains(Lower(tail), "host=") && IsExtension(ext)
    ensures IsTail(rest) && !Contains(Lower(rest), "host=")
    ensures StripExe(front + name + tail + ext) == front + (name + rest)
  {
    var base := front + name;
    NoDotInName(front, name);
    var k := StripTail(base, tail, ext);
    rest := tail[..k];
    HostInPrefix(tail, k);
    assert base + rest == front + (name + rest);
  }

  lemma {:induction false} PiecesGiveRecord(verify: Verifier, stem: string, lic: CustomServer, after: string)
    requires PlainStem(stem) && FromConfigString(verify, Trim(stem)).Failure?
    requires Uncut(GenName(lic)) && IsTail(after)
    ensures FirstLicence(verify, AllCandidates(Split(stem + ("--" + (GenName(lic) + after)), "--"))) == Success(lic)
  {
    var name := GenName(lic);
    GenNameShape(lic);
    StemSkips(stem, "--", "--" + (name + after));
    SplitHit(stem, name + after, "--");
    SeparatorSkipsName(name, after);
    SplitSkip(name, after, "--");
    TailHead(after);
    var pieces := Split(name + after, "--");
    var piece := name + Split(after, "--")[0];
    assert ([stem] + pieces)[1..] == pieces && pieces[0] == piece;
    NoParenthesis(stem);
    PieceGivesRecord(verify, lic, Split(after, "--")[0]);
    FirstLicenceConcat(verify, Candidates(piece), AllCandidates(pieces[1..]));
    FirstLicenceConcat(verify, [stem], AllCandidates(pieces));
    assert Candidates(stem) == [stem];
  }

  lemma {:induction false} NoParenthesis(s: string)
    requires '(' !in s
    ensures !Contains(s, "(")
  {
    forall j
      ensures !MatchAt(s, "(", j)
    {
      MatchChar(s, "(", j, 0);
      if 0 <= j < |s| {
        assert s[j] in s;
      }
    }
  }

  lemma {:induction false} GenNameLong(lic: CustomServer)
    ensures |GenName(lic)| >= 4
  {
    assert |WriteServer(lic)| >= 3;
  }

  /** A signed message is at least as long as its 64-byte signature. */
  ghost predicate NeedsSignature(verify: Verifier) {
    forall data :: |data| < 64 ==> verify(data).None?
  }

  /** The documented names: for every record with ASCII fields, each of the marks, and each tail. */
  lemma {:induction false} LicensedNameRoundTrip(verify: Verifier, mark: string, lic: CustomServer,
                                                 tail: string, ext: string)
    requires NeedsSignature(verify) && AsciiServer(lic)
    requires IsMark(mark) && IsTail(tail) && ReadsNowhere(tail, "host=") && IsExtension(ext)
    ensures Parse(verify, "rustdesk" + mark + GenName(lic) + tail + ext) == Success(lic)
  {
    AsciiNameUncut(lic);
    RustdeskIsNoLicence(verify);
    RustdeskIsPlain();
    NameRoundTrip(verify, "rustdesk", mark, lic, tail, ext);
  }

  lemma {:induction false} RustdeskIsPlain()
    ensures PlainStem("rustdesk")
  {
  }

  lemma {:induction false} RustdeskIsNoLicence(verify: Verifier)
    requires NeedsSignature(verify)
    ensures FromConfigString(verify, Trim("rustdesk")).Failure?
  {
    assert "rustdesk" + "" == "rustdesk";
    TrimPadding("rustdesk", "");
    DecodeRustdesk();
    var data := Decode(Reverse("rustdesk")).value;
    assert SkipSpace(data) == data;
  }

  lemma {:induction false} DecodeRustdesk()
    ensures var d := Decode(Reverse("rustdesk")); d.Some? && |d.value| == 6 && d.value[0] == 146
  {
    assert Reverse("rustdesk") == "ksedtsur";
    assert "tsur" + "" == "tsur";
    assert "ksed" + "tsur" == "ksedtsur";
    DecodeSymbols(45, 44, 46, 43, "");
    DecodeSymbols(36, 44, 30, 29, "tsur");
    assert Symbols(45, 44, 46, 43) == "tsur";
    assert Symbols(36, 44, 30, 29) == "ksed";
  }

  /** What copies and downloads append, with or without a blank, and anything behind a double dash. */
  predicate IsUsualTail(t: string) {
    t == "" || StartsWith(t, "(") || StartsWith(t, " (") || StartsWith(t, "--")
  }

  lemma {:induction false} UsualTail(t: string)
    requires IsUsualTail(t)
    ensures IsTail(t)
  {
    if StartsWith(t, " (") {
      assert t[0] == t[..2][0] && t[1] == t[..2][1];
      assert t[1..][0] == '(';
    } else if StartsWith(t, "--") {
      assert t[0] == t[..2][0];
    } else if t != "" {
      assert t[0] == t[..1][0];
    }
  }

  /** The usual names, as long as no equals sign is appended. */
  lemma {:induction false} UsualNames(verify: Verifier, mark: string, lic: CustomServer, tail: string, ext: string)
    requires NeedsSignature(verify) && AsciiServer(lic) && IsMark(mark)
    requires IsUsualTail(tail) && '=' !in tail && IsExtension(ext)
    ensures Parse(verify, "rustdesk" + mark + GenName(lic) + tail + ext) == Success(lic)
  {
    UsualTail(tail);
    HostNeedsEquals(tail);
    LicensedNameRoundTrip(verify, mark, lic, tail, ext);
  }

  lemma {:induction false} HostNeedsEquals(tail: string)
    requires '=' !in tail
    ensures ReadsNowhere(tail, "host=")
  {
    forall i
      ensures !ReadsAt(tail, "host=", i)
    {
      if 0 <= i && i + 5 <= |tail| {
        assert tail[i..i + 5][4] == tail[i + 4] && tail[i + 4] in tail;
        assert !SameLetter(tail[i + 4], "host="[4]);
      }
    }
  }

  // ----- other names

  /** What a candidate's bytes are a licence for: themselves, or else the text they are a signature of. */
  predicate Licenses(verify: Verifier, data: seq<byte>, lic: CustomServer) {
    if ReadServer(data).Some? then ReadServer(data) == Some(lic)
    else verify(data).Some? && ReadServer(verify(data).value) == Some(lic)
  }

  /** A configuration string stands for a record exactly when it is the reversed encoding of bytes that
      license it. */
  lemma {:induction false} ConfigStringMeans(verify: Verifier, s: string, lic: CustomServer)
    ensures FromConfigString(verify, s) == Success(lic) <==>
            exists data :: Carries(s, data) && Licenses(verify, data, lic)
  {
    var read := Decode(Reverse(s));
    forall data
      ensures Carries(s, data) <==> read == Some(data)
    {
      DecodesExactly(s, data);
    }
    if read.Some? {
      LicensesOnce(verify, s, read.value, lic);
      assert Carries(s, read.value);
    }
  }

  lemma {:induction false} LicensesOnce(verify: Verifier, s: string, data: seq<byte>, lic: CustomServer)
    requires Decode(Reverse(s)) == Some(data)
    ensures FromConfigString(verify, s) == Success(lic) <==> Licenses(verify, data, lic)
  {
  }

  predicate Carries(s: string, data: seq<byte>) {
    s == Reverse(Encode(data))
  }

  lemma {:induction false} DecodesExactly(s: string, data: seq<byte>)
    ensures Decode(Reverse(s)) == Some(data) <==> Carries(s, data)
  {
    ReverseTwice(s);
    ReverseTwice(Encode(data));
    EncodeDecode(Reverse(s));
    DecodeEncode(data);
  }

  /** A signed record is read back where the signature is accepted. */
  lemma {:induction false} SignedStringBack(verify: Verifier, data: seq<byte>, lic: CustomServer)
    requires ReadServer(data).None? && verify(data) == Some(WriteServer(lic))
    ensures FromConfigString(verify, Reverse(Encode(data))) == Success(lic)
  {
    ReadWrite(lic);
    assert Carries(Reverse(Encode(data)), data);
    ConfigStringMeans(verify, Reverse(Encode(data)), lic);
  }

  /** A name of one plain piece that is no licence gives none. */
  lemma {:induction false} PlainNameFails(verify: Verifier, stem: string, ext: string)
    requires PlainStem(stem) && FromConfigString(verify, Trim(stem)).Failure?
    requires IsExtension(ext) && (|ext| == 8 || !EndsInExe(stem))
    ensures Parse(verify, stem + ext).Failure?
  {
    ExactlyStripped(stem, ext);
    HostNeedsEquals(stem);
    NotInLower(stem, "host=");
    ParseLicence(verify, stem + ext, stem);
    StemUnmarked(stem);
    OneCandidate(verify, stem);
  }

  lemma {:induction false} NoDashedText(stem: string, pat: string)
    requires PlainStem(stem) && pat != "" && pat[0] == '-'
    ensures !Contains(stem, pat)
  {
    StemSkips(stem, pat, "");
    assert stem + "" == stem;
    forall j
      ensures !MatchAt(stem, pat, j)
    {
    }
  }

  lemma {:induction false} StemUnmarked(stem: string)
    requires PlainStem(stem)
    ensures Unmark(stem) == stem && Split(stem, "--") == [stem] && !Contains(stem, "(")
  {
    NoDashedText(stem, "-licensed---");
    NoDashedText(stem, "-licensed--");
    NoDashedText(stem, "-licensed-");
    NoDashedText(stem, "--");
    ReplaceNone(stem, "-licensed---", "--");
    ReplaceNone(stem, "-licensed--", "--");
    ReplaceNone(stem, "-licensed-", "--");
    NoParenthesis(stem);
  }

  lemma {:induction false} OneCandidate(verify: Verifier, stem: string)
    requires !Contains(stem, "(") && FromConfigString(verify, Trim(stem)).Failure?
    ensures FirstLicence(verify, AllCandidates([stem])).Failure?
  {
    assert [stem][1..] == [];
    assert AllCandidates([stem]) == [stem];
  }

  /** The program's own name carries no record. */
  lemma {:induction false} RustdeskFails(verify: Verifier, ext: string)
    requires NeedsSignature(verify) && IsExtension(ext)
    ensures Parse(verify, "rustdesk" + ext).Failure?
  {
    RustdeskIsNoLicence(verify);
    RustdeskIsPlain();
    assert "rustdesk"[4..] == "desk" && !SameLetter('d', '.');
    PlainNameFails(verify, "rustdesk", ext);
  }
}
