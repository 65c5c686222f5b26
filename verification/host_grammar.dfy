/** The comma-separated grammar of the file name: `host=` and the fields that follow it. */
module HostGrammar {
  import opened Wrappers
  import opened Strings
  import opened LicenseJson
  import opened CustomServerName

  predicate CommaFree(token: string) {
    ',' !in token
  }

  predicate NoKeyword(token: string) {
    !Bears(token, "host=") && !Bears(token, "key=") && !Bears(token, "api=") && !Bears(token, "relay=")
  }

  lemma {:induction false} KeywordsSpelt(token: string)
    ensures forall keyword :: keyword in {"host=", "key=", "api=", "relay="} ==>
              (HasKeyword(token, keyword) <==> Bears(token, keyword))
  {
    KeywordSpelt(token, "host=");
    KeywordSpelt(token, "key=");
    KeywordSpelt(token, "api=");
    KeywordSpelt(token, "relay=");
  }

  // ----- commas

  lemma {:induction false} CommaSkipsToken(token: string, rest: string)
    requires CommaFree(token)
    ensures NoneBegins(token, rest, ",")
  {
    forall j | j < |token|
      ensures !MatchAt(token + rest, ",", j)
    {
      MatchChar(token + rest, ",", j, 0);
      if 0 <= j {
        assert token[j] in token;
      }
    }
  }

  /** Splitting at commas undoes joining with commas. */
  lemma {:induction false} SplitJoin(tokens: seq<string>)
    requires |tokens| > 0 && forall t :: t in tokens ==> CommaFree(t)
    ensures Split(Join(tokens, ","), ",") == tokens
    decreases |tokens|
  {
    if |tokens| == 1 {
      CommaSkipsToken(tokens[0], "");
      assert tokens[0] + "" == tokens[0];
      assert NoneBegins(tokens[0], "", ",");
      FindSkip(tokens[0], "", ",");
    } else {
      SplitJoin(tokens[1..]);
      CommaSkipsToken(tokens[0], "," + Join(tokens[1..], ","));
      SplitHit(tokens[0], Join(tokens[1..], ","), ",");
    }
  }

  // ----- the last token of each keyword

  /** A token without a keyword changes nothing. */
  lemma {:induction false} LastValueSkips(tokens: seq<string>, token: string, keyword: string)
    requires !HasKeyword(token, keyword)
    ensures LastValue(tokens + [token], keyword) == LastValue(tokens, keyword)
  {
    assert (tokens + [token])[..|tokens|] == tokens;
  }

  /** The value is the one of the token at `at` when no later token has the keyword. */
  lemma {:induction false} LastValueIs(tokens: seq<string>, keyword: string, at: nat)
    requires at < |tokens| && HasKeyword(tokens[at], keyword)
    requires forall i :: at < i < |tokens| ==> !HasKeyword(tokens[i], keyword)
    ensures LastValue(tokens, keyword) == tokens[at][|keyword|..]
    decreases |tokens|
  {
    if at < |tokens| - 1 {
      LastValueIs(tokens[..|tokens| - 1], keyword, at);
    }
  }

  // ----- finding the host

  /** The first `host=` is the one after a prefix that holds none: no proper beginning of the
      keyword is also an end of it. */
  lemma {:induction false} HostFound(prefix: string, rest: string)
    requires ReadsNowhere(prefix, "host=") && Bears(rest, "host=")
    ensures Find(Lower(prefix + rest), "host=") == Some(|prefix|)
  {
    NotInLower(prefix, "host=");
    KeywordSpelt(rest, "host=");
    LowerConcat(prefix, rest);
    FirstHost(Lower(prefix), Lower(rest));
  }

  lemma {:induction false} FirstHost(a: string, b: string)
    requires !Contains(a, "host=") && StartsWith(b, "host=")
    ensures Find(a + b, "host=") == Some(|a|)
  {
    forall j | j < |a|
      ensures !MatchAt(a + b, "host=", j)
    {
      MatchChar(a + b, "host=", j, 4);
      if 0 <= j && j + 5 <= |a| {
        assert (a + b)[j..j + 5] == a[j..j + 5];
        assert !MatchAt(a, "host=", j);
      } else if 0 <= j {
        assert (a + b)[j + 4] == b[j + 4 - |a|] == b[..5][j + 4 - |a|];
      }
    }
    assert MatchAt(b, "host=", 0);
    FindSkip(a, b, "host=");
  }

  lemma {:induction false} JoinStarts(tokens: seq<string>)
    requires |tokens| > 0 && Bears(tokens[0], "host=")
    ensures Bears(Join(tokens, ","), "host=")
  {
    if |tokens| > 1 {
      var rest := "," + Join(tokens[1..], ",");
      assert (tokens[0] + rest)[..5] == tokens[0][..5];
    }
  }

  /** A name that has been stripped of its extension, token by token. */
  lemma {:induction false} ParseTokens(verify: Verifier, name: string, prefix: string, tokens: seq<string>)
    requires |tokens| > 0 && Bears(tokens[0], "host=") && forall t :: t in tokens ==> CommaFree(t)
    requires ReadsNowhere(prefix, "host=")
    requires StripExe(name) == prefix + Join(tokens, ",")
    ensures Parse(verify, name) == Success(FromTokens(tokens))
  {
    JoinStarts(tokens);
    HostFound(prefix, Join(tokens, ","));
    SplitJoin(tokens);
    assert (prefix + Join(tokens, ","))[|prefix|..] == Join(tokens, ",");
  }

  // ----- the trailing comma shields the fields

  lemma {:induction false} JoinLast(tokens: seq<string>, last: string)
    requires |tokens| > 0
    ensures Join(tokens + [last], ",") == Join(tokens, ",") + ("," + last)
    decreases |tokens|
  {
    if |tokens| > 1 {
      JoinLast(tokens[1..], last);
      assert (tokens + [last])[1..] == tokens[1..] + [last];
      var rest := Join(tokens[1..], ",");
      assert tokens[0] + ("," + (rest + ("," + last))) == tokens[0] + ("," + rest) + ("," + last);
    } else {
      assert (tokens + [last])[1..] == [last];
    }
  }

  /** Only characters after the last comma are stripped beside the extension. */
  lemma {:induction false} StripAfterComma(front: string, last: string, ext: string) returns (k: nat)
    requires IsExtension(ext)
    ensures k <= |last| && StripExe(front + ("," + last) + ext) == front + ("," + last[..k])
  {
    var s := front + ("," + last) + ext;
    var n := ExeLength(s);
    ExtensionStripped(front + ("," + last), ext);
    ExeChars(s);
    assert s[|front|] == ',';
    assert n - |ext| <= |last|;
    k := |last| - (n - |ext|);
  }

  lemma {:induction false} KeywordPrefix(token: string, k: nat, keyword: string)
    requires k <= |token|
    ensures Bears(token[..k], keyword) ==> Bears(token, keyword)
  {
    if |keyword| <= k {
      assert token[..k][..|keyword|] == token[..|keyword|];
    }
  }

  /** Any tokens, the first of them a host, then a comma and anything that is no field: each field is
      the value of the last token with its keyword. */
  lemma {:induction false} HostNameRoundTrip(verify: Verifier, prefix: string, tokens: seq<string>,
                                             last: string, ext: string)
    requires |tokens| > 0 && Bears(tokens[0], "host=") && forall t :: t in tokens ==> CommaFree(t)
    requires ReadsNowhere(prefix, "host=")
    requires CommaFree(last) && NoKeyword(last) && IsExtension(ext)
    ensures Parse(verify, prefix + (Join(tokens, ",") + ("," + last)) + ext) == Success(FromTokens(tokens))
  {
    var rest := StripHostName(prefix, tokens, last, ext);
    ParseTokens(verify, prefix + (Join(tokens, ",") + ("," + last)) + ext, prefix, tokens + [rest]);
    FromTokensSkips(tokens, rest);
  }

  lemma {:induction false} FromTokensSkips(tokens: seq<string>, token: string)
    requires NoKeyword(token)
    ensures FromTokens(tokens + [token]) == FromTokens(tokens)
  {
    KeywordsSpelt(token);
    LastValueSkips(tokens, token, "host=");
    LastValueSkips(tokens, token, "key=");
    LastValueSkips(tokens, token, "api=");
    LastValueSkips(tokens, token, "relay=");
  }

  lemma {:induction false} StripHostName(prefix: string, tokens: seq<string>, last: string, ext: string)
    returns (rest: string)
    requires |tokens| > 0
    requires CommaFree(last) && NoKeyword(last) && IsExtension(ext)
    ensures CommaFree(rest) && NoKeyword(rest)
    ensures StripExe(prefix + (Join(tokens, ",") + ("," + last)) + ext) == prefix + Join(tokens + [rest], ",")
  {
    var joined := Join(tokens, ",");
    var k := StripAfterComma(prefix + joined, last, ext);
    rest := last[..k];
    assert prefix + (joined + ("," + last)) == prefix + joined + ("," + last);
    assert prefix + (joined + ("," + rest)) == prefix + joined + ("," + rest);
    JoinLast(tokens, rest);
    NoKeywordPrefix(last, k);
  }

  lemma {:induction false} NoKeywordPrefix(token: string, k: nat)
    requires k <= |token| && NoKeyword(token)
    ensures NoKeyword(token[..k])
  {
    KeywordPrefix(token, k, "host=");
    KeywordPrefix(token, k, "key=");
    KeywordPrefix(token, k, "api=");
    KeywordPrefix(token, k, "relay=");
  }

  /** The keyword, in any letter case, and then the value. */
  predicate Field(token: string, keyword: string, value: string) {
    Bears(token, keyword) && token[|keyword|..] == value
  }

  /** A keyword rules the other keywords out. */
  lemma {:induction false} OneKeyword(token: string)
    ensures Bears(token, "host=") ==> !Bears(token, "key=") && !Bears(token, "api=") && !Bears(token, "relay=")
    ensures Bears(token, "key=") ==> !Bears(token, "api=") && !Bears(token, "relay=")
    ensures Bears(token, "api=") ==> !Bears(token, "relay=")
  {
    forall keyword | keyword in {"host=", "key=", "api=", "relay="}
      ensures Bears(token, keyword) ==> SameLetter(token[0], keyword[0])
    {
      assert Bears(token, keyword) ==> token[..|keyword|][0] == token[0];
    }
  }

  /** The value of the last token with the keyword, or nothing when no token has it. */
  ghost predicate Gives(tokens: seq<string>, keyword: string, value: string) {
    if exists t :: t in tokens && Bears(t, keyword)
    then exists at :: 0 <= at < |tokens| && Field(tokens[at], keyword, value) &&
                      forall i :: at < i < |tokens| ==> !Bears(tokens[i], keyword)
    else value == ""
  }

  lemma {:induction false} LastValueNone(tokens: seq<string>, keyword: string)
    requires forall t :: t in tokens ==> !HasKeyword(t, keyword)
    ensures LastValue(tokens, keyword) == ""
  {
    if tokens != [] {
      LastValueNone(tokens[..|tokens| - 1], keyword);
    }
  }

  lemma {:induction false} LastBearer(tokens: seq<string>, keyword: string) returns (at: nat)
    requires exists t :: t in tokens && Bears(t, keyword)
    ensures at < |tokens| && Bears(tokens[at], keyword)
    ensures forall i :: at < i < |tokens| ==> !Bears(tokens[i], keyword)
  {
    at := |tokens| - 1;
    if !Bears(tokens[at], keyword) {
      var front := tokens[..at];
      assert tokens == front + [tokens[at]];
      at := LastBearer(front, keyword);
      assert forall i :: at < i < |front| ==> tokens[i] == front[i];
    }
  }

  lemma {:induction false} LastValueGives(tokens: seq<string>, keyword: string, value: string)
    requires NoCapitals(keyword)
    ensures LastValue(tokens, keyword) == value <==> Gives(tokens, keyword, value)
  {
    forall t
      ensures HasKeyword(t, keyword) <==> Bears(t, keyword)
    {
      KeywordSpelt(t, keyword);
    }
    if exists t :: t in tokens && Bears(t, keyword) {
      var last := LastBearer(tokens, keyword);
      LastValueIs(tokens, keyword, last);
      assert Bears(tokens[last], keyword);
      forall at | 0 <= at < |tokens| && Bears(tokens[at], keyword) &&
                  forall i :: at < i < |tokens| ==> !Bears(tokens[i], keyword)
        ensures at == last
      {
      }
    } else {
      LastValueNone(tokens, keyword);
    }
  }

  /** Which record a list of tokens stands for. */
  ghost predicate Describe(tokens: seq<string>, lic: CustomServer) {
    Gives(tokens, "host=", lic.host) && Gives(tokens, "key=", lic.key) &&
    Gives(tokens, "api=", lic.api) && Gives(tokens, "relay=", lic.relay)
  }

  lemma {:induction false} FromTokensExactly(tokens: seq<string>, lic: CustomServer)
    ensures FromTokens(tokens) == lic <==> Describe(tokens, lic)
  {
    LastValueGives(tokens, "host=", lic.host);
    LastValueGives(tokens, "key=", lic.key);
    LastValueGives(tokens, "api=", lic.api);
    LastValueGives(tokens, "relay=", lic.relay);
  }

  /** Any fields in any order and letter case, the host first, right before the extension: the parser
      returns the record they describe, and no other. */
  lemma {:induction false} DescribedNameRoundTrip(verify: Verifier, prefix: string, tokens: seq<string>,
                                                  ext: string, lic: CustomServer)
    requires |tokens| > 0 && Bears(tokens[0], "host=") && forall t :: t in tokens ==> CommaFree(t)
    requires ReadsNowhere(prefix, "host=") && IsExtension(ext)
    requires |ext| == 8 || !EndsInExe(prefix + Join(tokens, ","))
    ensures Parse(verify, prefix + Join(tokens, ",") + ext) == Success(lic) <==> Describe(tokens, lic)
  {
    ExactlyStripped(prefix + Join(tokens, ","), ext);
    ParseTokens(verify, prefix + Join(tokens, ",") + ext, prefix, tokens);
    FromTokensExactly(tokens, lic);
  }

  /** Host first, then key, api and relay in any order and with keywords in any letter case. */
  lemma {:induction false} FourFields(tokens: seq<string>, lic: CustomServer, k: nat, a: nat, r: nat)
    requires |tokens| == 4 && {k, a, r} == {1, 2, 3}
    requires Field(tokens[0], "host=", lic.host) && Field(tokens[k], "key=", lic.key)
    requires Field(tokens[a], "api=", lic.api) && Field(tokens[r], "relay=", lic.relay)
    ensures FromTokens(tokens) == lic
  {
    assert 1 in {k, a, r} && 2 in {k, a, r} && 3 in {k, a, r} && k in {1, 2, 3} && a in {1, 2, 3} && r in {1, 2, 3};
    forall i | 0 <= i < 4
      ensures (i == 0 <==> HasKeyword(tokens[i], "host=")) && (i == k <==> HasKeyword(tokens[i], "key="))
      ensures (i == a <==> HasKeyword(tokens[i], "api=")) && (i == r <==> HasKeyword(tokens[i], "relay="))
    {
      OneKeyword(tokens[i]);
      KeywordsSpelt(tokens[i]);
    }
    LastValueIs(tokens, "host=", 0);
    LastValueIs(tokens, "key=", k);
    LastValueIs(tokens, "api=", a);
    LastValueIs(tokens, "relay=", r);
  }

  /** So a name made of these fields, whatever precedes and follows them, gives the record. */
  lemma {:induction false} FieldsNameRoundTrip(verify: Verifier, prefix: string, tokens: seq<string>, last: string,
                                               ext: string, lic: CustomServer, k: nat, a: nat, r: nat)
    requires |tokens| == 4 && {k, a, r} == {1, 2, 3} && forall t :: t in tokens ==> CommaFree(t)
    requires Field(tokens[0], "host=", lic.host) && Field(tokens[k], "key=", lic.key)
    requires Field(tokens[a], "api=", lic.api) && Field(tokens[r], "relay=", lic.relay)
    requires ReadsNowhere(prefix, "host=")
    requires CommaFree(last) && NoKeyword(last) && IsExtension(ext)
    ensures Parse(verify, prefix + (Join(tokens, ",") + ("," + last)) + ext) == Success(lic)
  {
    HostNameRoundTrip(verify, prefix, tokens, last, ext);
    FourFields(tokens, lic, k, a, r);
  }
}
