/** Custom server settings carried in the name of the executable: the name printer, the two
    grammars of the name parser, and the proof that the parser reads back what the printer wrote. */
module CustomServerName {
  import opened Wrappers
  import opened Strings
  import opened Base64Url
  import opened LicenseJson

  datatype ParseError = BadBase64 | BadJson | BadSignature | NotFound

  type Parsed = Result<CustomServer, ParseError>

  /** Opening a signed message with the built-in public key: the signed text, or None. */
  type Verifier = seq<byte> -> Option<seq<byte>>

  // ----- the printer

  function GenName(lic: CustomServer): string {
    Reverse(Encode(WriteServer(lic)))
  }

  // ----- one candidate

  function FromJson(data: seq<byte>): Parsed {
    match ReadServer(data)
    case Some(lic) => Success(lic)
    case None => Failure(BadJson)
  }

  function FromConfigString(verify: Verifier, s: string): Parsed {
    match Decode(Reverse(s))
    case None => Failure(BadBase64)
    case Some(data) =>
      if FromJson(data).Success? then FromJson(data)
      else match verify(data)
           case None => Failure(BadSignature)
           case Some(signed) => FromJson(signed)
  }

  // ----- the parser's specification

  /** How much of the end of the name is `.exe.exe` or `.exe`, in any letter case. */
  function ExeLength(s: string): (n: nat)
    ensures n <= |s|
  {
    if EndsWith(Lower(s), ".exe.exe") then 8
    else if EndsWith(Lower(s), ".exe") then 4
    else 0
  }

  function StripExe(s: string): string {
    s[..|s| - ExeLength(s)]
  }

  predicate HasKeyword(token: string, keyword: string) {
    StartsWith(Lower(token), keyword)
  }

  /** What follows the keyword in the last token that has it. */
  function LastValue(tokens: seq<string>, keyword: string): string {
    if tokens == [] then ""
    else
      var last := tokens[|tokens| - 1];
      if HasKeyword(last, keyword) then last[|keyword|..] else LastValue(tokens[..|tokens| - 1], keyword)
  }

  function FromTokens(tokens: seq<string>): CustomServer {
    CustomServer(LastValue(tokens, "key="), LastValue(tokens, "host="),
                 LastValue(tokens, "api="), LastValue(tokens, "relay="))
  }

  function Unmark(s: string): string {
    Replace(Replace(Replace(s, "-licensed---", "--"), "-licensed--", "--"), "-licensed-", "--")
  }

  /** The texts tried for one piece: the piece itself, then its parts between opening parentheses. */
  function Candidates(piece: string): seq<string> {
    [piece] + (if Contains(piece, "(") then Split(piece, "(") else [])
  }

  function AllCandidates(pieces: seq<string>): seq<string> {
    if pieces == [] then [] else Candidates(pieces[0]) + AllCandidates(pieces[1..])
  }

  /** The first candidate that is a licence once trimmed. */
  function FirstLicence(verify: Verifier, candidates: seq<string>): Parsed {
    if candidates == [] then Failure(NotFound)
    else
      var r := FromConfigString(verify, Trim(candidates[0]));
      if r.Success? then r else FirstLicence(verify, candidates[1..])
  }

  function Parse(verify: Verifier, name: string): Parsed {
    var s := StripExe(name);
    match Find(Lower(s), "host=")
    case Some(at) => Success(FromTokens(Split(s[at..], ",")))
    case None => FirstLicence(verify, AllCandidates(Split(Unmark(s), "--")))
  }

  // ----- the parser as it runs

  method GetCustomServerFromString(verify: Verifier, name: string) returns (r: Parsed)
    ensures r == Parse(verify, name)
  {
    var s := StripExe(name);
    var at := Find(Lower(s), "host=");
    if at.Some? {
      var lic := ReadTokens(Split(s[at.value..], ","));
      return Success(lic);
    }
    r := TryPieces(verify, Split(Unmark(s), "--"));
  }

  method TryPieces(verify: Verifier, strs: seq<string>) returns (r: Parsed)
    ensures r == FirstLicence(verify, AllCandidates(strs))
  {
    var i := 0;
    while i < |strs|
      invariant 0 <= i <= |strs|
      invariant FirstLicence(verify, AllCandidates(strs)) == FirstLicence(verify, AllCandidates(strs[i..]))
    {
      NextPiece(verify, strs[i..]);
      assert strs[i..][1..] == strs[i + 1..];
      var whole := FromConfigString(verify, Trim(strs[i]));
      if whole.Success? {
        return whole;
      } else if Contains(strs[i], "(") {
        var part := TryParts(verify, Split(strs[i], "("));
        if part.Success? {
          return part;
        }
      }
      i := i + 1;
    }
    return Failure(NotFound);
  }

  /** A piece is tried whole, then in parts, then the next piece is. */
  lemma {:induction false} NextPiece(verify: Verifier, pieces: seq<string>)
    requires pieces != []
    ensures var whole := FromConfigString(verify, Trim(pieces[0]));
            var parts := if Contains(pieces[0], "(") then Split(pieces[0], "(") else [];
            var r := FirstLicence(verify, AllCandidates(pieces));
            if whole.Success? then r == whole
            else if FirstLicence(verify, parts).Success? then r == FirstLicence(verify, parts)
            else r == FirstLicence(verify, AllCandidates(pieces[1..]))
  {
    var parts := if Contains(pieces[0], "(") then Split(pieces[0], "(") else [];
    assert Candidates(pieces[0])[1..] == parts;
    FirstLicenceConcat(verify, Candidates(pieces[0]), AllCandidates(pieces[1..]));
  }

  method TryParts(verify: Verifier, parts: seq<string>) returns (r: Parsed)
    ensures r == FirstLicence(verify, parts)
  {
    var i := 0;
    while i < |parts|
      invariant 0 <= i <= |parts|
      invariant FirstLicence(verify, parts) == FirstLicence(verify, parts[i..])
    {
      var lic := FromConfigString(verify, Trim(parts[i]));
      if lic.Success? {
        return lic;
      }
      assert parts[i..][1..] == parts[i + 1..];
      i := i + 1;
    }
    return Failure(NotFound);
  }

  method ReadTokens(strs: seq<string>) returns (lic: CustomServer)
    ensures lic == FromTokens(strs)
  {
    var host, key, api, relay := "", "", "", "";
    var i := 0;
    while i < |strs|
      invariant 0 <= i <= |strs|
      invariant CustomServer(key, host, api, relay) == FromTokens(strs[..i])
    {
      var el := strs[i];
      var elLower := Lower(el);
      if StartsWith(elLower, "host=") {
        host := el[5..];
      }
      if StartsWith(elLower, "key=") {
        key := el[4..];
      }
      if StartsWith(elLower, "api=") {
        api := el[4..];
      }
      if StartsWith(elLower, "relay=") {
        relay := el[6..];
      }
      assert strs[..i + 1][..i] == strs[..i];
      i := i + 1;
    }
    assert strs[..i] == strs;
    return CustomServer(key, host, api, relay);
  }

  lemma {:induction false} FirstLicenceConcat(verify: Verifier, a: seq<string>, b: seq<string>)
    ensures FirstLicence(verify, a + b) ==
            if FirstLicence(verify, a).Success? then FirstLicence(verify, a) else FirstLicence(verify, b)
  {
    if a == [] {
      assert a + b == b;
    } else {
      assert (a + b)[1..] == a[1..] + b;
      FirstLicenceConcat(verify, a[1..], b);
    }
  }

  // ----- the extension

  predicate IsExtension(ext: string) {
    ext == "" || Spells(ext, ".exe") || Spells(ext, ".exe.exe")
  }

  lemma {:induction false} ExtensionLower(ext: string)
    ensures IsExtension(ext) <==> Lower(ext) == "" || Lower(ext) == ".exe" || Lower(ext) == ".exe.exe"
  {
    LowerSpells(ext, ".exe");
    LowerSpells(ext, ".exe.exe");
  }

  /** The token begins with the keyword, in any letter case. */
  predicate Bears(token: string, keyword: string) {
    |keyword| <= |token| && Spells(token[..|keyword|], keyword)
  }

  /** The parser recognises a keyword in any letter case, and nothing else. */
  lemma {:induction false} KeywordSpelt(token: string, keyword: string)
    requires NoCapitals(keyword)
    ensures HasKeyword(token, keyword) <==> Bears(token, keyword)
  {
    if |keyword| <= |token| {
      LowerSlice(token, 0, |keyword|);
      LowerSpells(token[..|keyword|], keyword);
    }
  }

  predicate EndsInExe(s: string) {
    |s| >= 4 && Spells(s[|s| - 4..], ".exe")
  }

  lemma {:induction false} EndsLower(s: string)
    ensures EndsInExe(s) <==> EndsWith(Lower(s), ".exe")
  {
    if |s| >= 4 {
      LowerSlice(s, |s| - 4, |s|);
      LowerSpells(s[|s| - 4..], ".exe");
    }
  }

  lemma {:induction false} DoubleEnding(a: string)
    ensures EndsWith(a + ".exe", ".exe.exe") <==> EndsWith(a, ".exe")
    ensures EndsWith(a, ".exe.exe") ==> EndsWith(a, ".exe")
  {
    var s := a + ".exe";
    if |a| >= 4 {
      assert s[|s| - 8..] == a[|a| - 4..] + ".exe" && s[|s| - 8..][..4] == a[|a| - 4..];
      assert ".exe" + ".exe" == ".exe.exe" && ".exe.exe"[..4] == ".exe";
    }
    if |a| >= 8 {
      assert a[|a| - 8..][4..] == a[|a| - 4..];
      assert ".exe.exe"[4..] == ".exe";
    }
  }

  /** Exactly the extension is stripped, unless it is short and the text before it ends in another. */
  lemma {:induction false} ExactlyStripped(base: string, ext: string)
    requires IsExtension(ext)
    ensures StripExe(base + ext) == base <==> |ext| == 8 || !EndsInExe(base)
  {
    var s := base + ext;
    ExtensionStripped(base, ext);
    LowerConcat(base, ext);
    ExtensionLower(ext);
    EndsLower(base);
    DoubleEnding(Lower(base));
    assert Lower(base) + "" == Lower(base);
    assert StripExe(s) == base <==> ExeLength(s) == |ext|;
  }

  predicate ExeChar(c: char) {
    c == '.' || c == 'e' || c == 'x' || c == 'E' || c == 'X'
  }

  lemma {:induction false} ExeChars(s: string)
    ensures var n := ExeLength(s);
            (forall i :: |s| - n <= i < |s| ==> ExeChar(s[i])) &&
            (n >= 4 ==> s[|s| - 4] == '.') && (n == 8 ==> s[|s| - 8] == '.')
  {
    if EndsWith(Lower(s), ".exe.exe") {
      ExeEnding(s, ".exe.exe");
    } else if EndsWith(Lower(s), ".exe") {
      ExeEnding(s, ".exe");
    }
  }

  /** The characters of an ending, one by one. */
  lemma {:induction false} ExeEnding(s: string, ending: string)
    requires EndsWith(Lower(s), ending)
    requires forall k :: 0 <= k < |ending| ==> ending[k] == '.' || ending[k] == 'e' || ending[k] == 'x'
    ensures forall i :: |s| - |ending| <= i < |s| ==> ExeChar(s[i])
    ensures forall k :: 0 <= k < |ending| && ending[k] == '.' ==> s[|s| - |ending| + k] == '.'
  {
    var at := |s| - |ending|;
    forall i | at <= i < |s|
      ensures LowerChar(s[i]) == ending[i - at]
    {
      assert Lower(s)[i] == Lower(s)[at..][i - at];
    }
    forall k | 0 <= k < |ending| && ending[k] == '.'
      ensures s[at + k] == '.'
    {
      assert LowerChar(s[at + k]) == ending[at + k - at];
    }
  }

  lemma {:induction false} ExtensionStripped(base: string, ext: string)
    requires IsExtension(ext)
    ensures ExeLength(base + ext) >= |ext|
  {
    LowerConcat(base, ext);
    ExtensionLower(ext);
    var s := Lower(base) + Lower(ext);
    assert |ext| == |Lower(ext)|;
    assert s[|s| - |ext|..] == Lower(ext);
  }
}
