/** The licence record and its JSON form: serde_json's compact writer, and a reader for JSON
    objects whose members are strings (RFC 8259). */
module LicenseJson {
  import opened Wrappers
  import opened Base64Url

  datatype CustomServer = CustomServer(key: string, host: string, api: string, relay: string)

  const QUOTE: byte := 34
  const COMMA: byte := 44
  const COLON: byte := 58
  const BACKSLASH: byte := 92
  const LOWER_U: byte := 117
  const OPEN_BRACE: byte := 123
  const CLOSE_BRACE: byte := 125

  // ----- UTF-8 (RFC 3629)

  function Utf8(c: char): (r: seq<byte>)
    ensures c as int < 128 ==> r == [c as int]
  {
    var n := c as int;
    if n < 0x80 then [n]
    else if n < 0x800 then [0xC0 + n / 64, 0x80 + n % 64]
    else if n < 0x10000 then [0xE0 + n / 4096, 0x80 + n / 64 % 64, 0x80 + n % 64]
    else [0xF0 + n / 262144, 0x80 + n / 4096 % 64, 0x80 + n / 64 % 64, 0x80 + n % 64]
  }

  predicate Continues(s: seq<byte>, i: nat) {
    i < |s| && 0x80 <= s[i] < 0xC0
  }

  function Low6(s: seq<byte>, i: nat): int
    requires Continues(s, i)
  {
    s[i] as int - 0x80
  }

  predicate IsScalar(n: int) {
    0 <= n < 0xD800 || 0xE000 <= n < 0x110000
  }

  /** One well-formed UTF-8 sequence at the front of `s`; overlong forms and surrogates are refused. */
  function FromUtf8(s: seq<byte>): (r: Option<(char, seq<byte>)>)
    ensures r.Some? ==> |r.value.1| < |s|
  {
    if |s| == 0 then None
    else if s[0] < 0x80 then Some((s[0] as char, s[1..]))
    else if 0xC2 <= s[0] < 0xE0 && Continues(s, 1) then
      Some((((s[0] as int - 0xC0) * 64 + Low6(s, 1)) as char, s[2..]))
    else if 0xE0 <= s[0] < 0xF0 && Continues(s, 1) && Continues(s, 2) then
      var n := (s[0] as int - 0xE0) * 4096 + Low6(s, 1) * 64 + Low6(s, 2);
      if n >= 0x800 && IsScalar(n) then Some((n as char, s[3..])) else None
    else if 0xF0 <= s[0] < 0xF5 && Continues(s, 1) && Continues(s, 2) && Continues(s, 3) then
      var n := (s[0] as int - 0xF0) * 262144 + Low6(s, 1) * 4096 + Low6(s, 2) * 64 + Low6(s, 3);
      if n >= 0x10000 && IsScalar(n) then Some((n as char, s[4..])) else None
    else None
  }

  lemma {:induction false} FromUtf8Utf8(c: char, rest: seq<byte>)
    ensures FromUtf8(Utf8(c) + rest) == Some((c, rest))
  {
    var n := c as int;
    assert (Utf8(c) + rest)[|Utf8(c)|..] == rest;
    if n >= 0x10000 {
      FourBytes(n);
    } else if n >= 0x800 {
      ThreeBytes(n);
    }
  }

  lemma {:induction false} FourBytes(n: nat)
    ensures n == n / 262144 * 262144 + n / 4096 % 64 * 4096 + n / 64 % 64 * 64 + n % 64
  {
    ThreeBytes(n);
    Quotient(n / 4096, n);
  }

  lemma {:induction false} Quotient(q: nat, n: nat)
    requires q == n / 4096
    ensures q == n / 262144 * 64 + q % 64
  {
    assert q / 64 == n / 262144;
  }

  lemma {:induction false} ThreeBytes(n: nat)
    ensures n == n / 4096 * 4096 + n / 64 % 64 * 64 + n % 64
  {
  }

  // ----- the writer

  function HexDigit(v: int): (d: byte)
    requires 0 <= v < 16
  {
    if v < 10 then 48 + v else 87 + v
  }

  /** One character inside a JSON string, escaped as the compact writer escapes it. */
  function Escape(c: char): (r: seq<byte>)
    ensures r != []
  {
    var n := c as int;
    if c == '\"' || c == '\\' then [BACKSLASH, n]
    else if n == 8 then [BACKSLASH, 98]
    else if n == 9 then [BACKSLASH, 116]
    else if n == 10 then [BACKSLASH, 110]
    else if n == 12 then [BACKSLASH, 102]
    else if n == 13 then [BACKSLASH, 114]
    else if n < 32 then [BACKSLASH, LOWER_U, 48, 48, HexDigit(n / 16), HexDigit(n % 16)]
    else Utf8(c)
  }

  function EscapeAll(s: string): seq<byte> {
    if s == "" then [] else Escape(s[0]) + EscapeAll(s[1..])
  }

  function WriteString(s: string): seq<byte> {
    [QUOTE] + (EscapeAll(s) + [QUOTE])
  }

  function WriteMember(name: string, value: string, rest: seq<byte>): seq<byte> {
    WriteString(name) + ([COLON] + (WriteString(value) + rest))
  }

  /** The members of an object, up to and including the closing brace. */
  function WriteMembers(members: seq<(string, string)>): (r: seq<byte>)
    requires |members| > 0
    ensures r != [] && r[0] == QUOTE && r[|r| - 1] == CLOSE_BRACE
  {
    var (name, value) := members[0];
    WriteMember(name, value,
                if |members| == 1 then [CLOSE_BRACE] else [COMMA] + WriteMembers(members[1..]))
  }

  function Members(lic: CustomServer): seq<(string, string)> {
    [("key", lic.key), ("host", lic.host), ("api", lic.api), ("relay", lic.relay)]
  }

  function WriteServer(lic: CustomServer): (r: seq<byte>)
    ensures |r| > 2 && r[0] == OPEN_BRACE && r[1] == QUOTE && r[|r| - 1] == CLOSE_BRACE
  {
    [OPEN_BRACE] + WriteMembers(Members(lic))
  }

  // ----- the reader

  predicate IsSpace(b: byte) {
    b == 32 || b == 9 || b == 10 || b == 13
  }

  function SkipSpace(s: seq<byte>): (r: seq<byte>)
    ensures |r| <= |s|
  {
    if s != [] && IsSpace(s[0]) then SkipSpace(s[1..]) else s
  }

  function HexValue(b: byte): Option<int> {
    if 48 <= b < 58 then Some(b - 48)
    else if 65 <= b < 71 then Some(b - 55)
    else if 97 <= b < 103 then Some(b - 87)
    else None
  }

  /** Four hexadecimal digits. */
  function ReadHex4(s: seq<byte>): (r: Option<int>)
    ensures r.Some? ==> |s| >= 4 && 0 <= r.value < 0x10000
  {
    if |s| < 4 then None
    else match (HexValue(s[0]), HexValue(s[1]), HexValue(s[2]), HexValue(s[3]))
         case (Some(a), Some(b), Some(c), Some(d)) => Some(a * 4096 + b * 256 + c * 16 + d)
         case _ => None
  }

  /** The character after a backslash, a surrogate pair being two `\u` escapes. */
  function ReadEscape(s: seq<byte>): (r: Option<(char, seq<byte>)>)
    ensures r.Some? ==> |r.value.1| < |s|
  {
    if s == [] then None
    else if s[0] == QUOTE || s[0] == BACKSLASH || s[0] == 47 then Some((s[0] as char, s[1..]))
    else if s[0] == 98 then Some((8 as char, s[1..]))
    else if s[0] == 116 then Some((9 as char, s[1..]))
    else if s[0] == 110 then Some((10 as char, s[1..]))
    else if s[0] == 102 then Some((12 as char, s[1..]))
    else if s[0] == 114 then Some((13 as char, s[1..]))
    else if s[0] == LOWER_U then
      match ReadHex4(s[1..])
      case None => None
      case Some(n) =>
        if IsScalar(n) then Some((n as char, s[5..]))
        else if n < 0xDC00 && |s| >= 7 && s[5] == BACKSLASH && s[6] == LOWER_U then
          match ReadHex4(s[7..])
          case None => None
          case Some(low) =>
            if 0xDC00 <= low < 0xE000 then
              Some((((n - 0xD800) * 1024 + (low - 0xDC00) + 0x10000) as char, s[11..]))
            else None
        else None
    else None
  }

  /** One character inside a JSON string: an escape or a plain character. */
  function ReadOne(s: seq<byte>): (r: Option<(char, seq<byte>)>)
    requires s != []
    ensures r.Some? ==> |r.value.1| < |s|
  {
    if s[0] == BACKSLASH then ReadEscape(s[1..]) else FromUtf8(s)
  }

  /** The characters up to the closing quote, and what follows it. */
  function ReadChars(s: seq<byte>): (r: Option<(string, seq<byte>)>)
    ensures r.Some? ==> |r.value.1| < |s|
    decreases |s|
  {
    if s == [] then None
    else if s[0] == QUOTE then Some(("", s[1..]))
    else if s[0] < 32 then None
    else
      match ReadOne(s)
      case None => None
      case Some((c, rest)) =>
        match ReadChars(rest)
        case None => None
        case Some((cs, after)) => Some(([c] + cs, after))
  }

  function ReadString(s: seq<byte>): (r: Option<(string, seq<byte>)>)
    ensures r.Some? ==> |r.value.1| < |s|
  {
    if s != [] && s[0] == QUOTE then ReadChars(s[1..]) else None
  }

  /** The members read so far; a repeated member is an error, an absent one defaults to "". */
  datatype Partial = Partial(key: Option<string>, host: Option<string>,
                             api: Option<string>, relay: Option<string>) {
    function With(name: string, value: string): Option<Partial> {
      if name == "key" then (if key.None? then Some(this.(key := Some(value))) else None)
      else if name == "host" then (if host.None? then Some(this.(host := Some(value))) else None)
      else if name == "api" then (if api.None? then Some(this.(api := Some(value))) else None)
      else if name == "relay" then (if relay.None? then Some(this.(relay := Some(value))) else None)
      else Some(this)
    }

    function Finish(): CustomServer {
      CustomServer(OrEmpty(key), OrEmpty(host), OrEmpty(api), OrEmpty(relay))
    }
  }

  function OrEmpty(o: Option<string>): string {
    if o.Some? then o.value else ""
  }

  function ReadMembers(s: seq<byte>, got: Partial): Option<CustomServer>
    decreases |s|
  {
    match ReadString(s)
    case None => None
    case Some((name, afterName)) =>
      var colon := SkipSpace(afterName);
      if colon == [] || colon[0] != COLON then None
      else
        match ReadString(SkipSpace(colon[1..]))
        case None => None
        case Some((value, afterValue)) =>
          match got.With(name, value)
          case None => None
          case Some(more) =>
            var next := SkipSpace(afterValue);
            if next != [] && next[0] == COMMA then ReadMembers(SkipSpace(next[1..]), more)
            else if next != [] && next[0] == CLOSE_BRACE && SkipSpace(next[1..]) == [] then Some(more.Finish())
            else None
  }

  const NOTHING := Partial(None, None, None, None)

  function ReadServer(s: seq<byte>): Option<CustomServer> {
    var open := SkipSpace(s);
    if open == [] || open[0] != OPEN_BRACE then None
    else
      var first := SkipSpace(open[1..]);
      if first != [] && first[0] == CLOSE_BRACE then
        if SkipSpace(first[1..]) == [] then Some(NOTHING.Finish()) else None
      else ReadMembers(first, NOTHING)
  }

  // ----- reading back what was written

  lemma {:induction false} ReadControl(n: nat, rest: seq<byte>)
    requires n < 32
    ensures ReadEscape([LOWER_U, 48, 48, HexDigit(n / 16), HexDigit(n % 16)] + rest) == Some((n as char, rest))
  {
    var s := [LOWER_U, 48, 48, HexDigit(n / 16), HexDigit(n % 16)] + rest;
    assert s[1..] == [48, 48, HexDigit(n / 16), HexDigit(n % 16)] + rest;
    assert HexValue(HexDigit(n / 16)) == Some(n / 16) && HexValue(HexDigit(n % 16)) == Some(n % 16);
    assert HexValue(48) == Some(0);
    assert ReadHex4(s[1..]) == Some(n / 16 * 16 + n % 16);
    assert s[5..] == rest;
  }

  lemma {:induction false} ReadShort(b: byte, c: char, rest: seq<byte>)
    requires Escape(c) == [BACKSLASH, b] && b != LOWER_U
    ensures ReadEscape([b] + rest) == Some((c, rest))
  {
    assert ([b] + rest)[1..] == rest;
  }

  lemma {:induction false} ReadEscaped(c: char, rest: seq<byte>)
    ensures var s := Escape(c) + rest;
            s[0] != QUOTE && s[0] >= 32 && ReadOne(s) == Some((c, rest))
  {
    var s, n := Escape(c) + rest, c as int;
    if n >= 32 && c != '\"' && c != '\\' {
      FromUtf8Utf8(c, rest);
    } else if |Escape(c)| == 2 {
      assert s[1..] == [Escape(c)[1]] + rest;
      ReadShort(Escape(c)[1], c, rest);
    } else {
      assert s[1..] == [LOWER_U, 48, 48, HexDigit(n / 16), HexDigit(n % 16)] + rest;
      ReadControl(n, rest);
    }
  }

  lemma {:induction false} ReadCharsBack(text: string, rest: seq<byte>)
    ensures ReadChars(EscapeAll(text) + [QUOTE] + rest) == Some((text, rest))
  {
    var s := EscapeAll(text) + [QUOTE] + rest;
    if text == "" {
      assert s[1..] == rest;
    } else {
      var tail := EscapeAll(text[1..]) + [QUOTE] + rest;
      assert s == Escape(text[0]) + tail;
      ReadEscaped(text[0], tail);
      ReadCharsBack(text[1..], rest);
      assert [text[0]] + text[1..] == text;
    }
  }

  lemma {:induction false} ReadStringBack(text: string, rest: seq<byte>)
    ensures ReadString(WriteString(text) + rest) == Some((text, rest))
    ensures SkipSpace(WriteString(text) + rest) == WriteString(text) + rest
  {
    ReadCharsBack(text, rest);
    assert (WriteString(text) + rest)[1..] == EscapeAll(text) + [QUOTE] + rest;
  }

  /** One written member, then whatever follows. */
  lemma {:induction false} ReadMemberBack(name: string, value: string, rest: seq<byte>, got: Partial)
    requires rest != [] && !IsSpace(rest[0])
    ensures ReadMembers(WriteMember(name, value, rest), got) ==
            match got.With(name, value)
            case None => None
            case Some(more) =>
              if rest[0] == COMMA then ReadMembers(SkipSpace(rest[1..]), more)
              else if rest[0] == CLOSE_BRACE && SkipSpace(rest[1..]) == [] then Some(more.Finish())
              else None
  {
    var afterName := [COLON] + (WriteString(value) + rest);
    ReadStringBack(name, afterName);
    ReadStringBack(value, rest);
    assert SkipSpace(afterName) == afterName;
    assert afterName[1..] == WriteString(value) + rest;
  }

  function WithAll(got: Partial, members: seq<(string, string)>): Option<Partial>
    decreases |members|
  {
    if members == [] then Some(got)
    else match got.With(members[0].0, members[0].1)
         case None => None
         case Some(more) => WithAll(more, members[1..])
  }

  /** Reading written members collects exactly them, and fails exactly on a repeated one. */
  lemma {:induction false} ReadMembersBack(members: seq<(string, string)>, got: Partial)
    requires |members| > 0
    ensures ReadMembers(WriteMembers(members), got) ==
            match WithAll(got, members) case None => None case Some(all) => Some(all.Finish())
    decreases |members|
  {
    var (name, value) := members[0];
    if |members| == 1 {
      ReadMemberBack(name, value, [CLOSE_BRACE], got);
    } else {
      var rest := WriteMembers(members[1..]);
      ReadMemberBack(name, value, [COMMA] + rest, got);
      assert ([COMMA] + rest)[1..] == rest && SkipSpace(rest) == rest;
      if got.With(name, value).Some? {
        ReadMembersBack(members[1..], got.With(name, value).value);
      }
    }
  }

  lemma {:induction false} ReadObjectBack(s: seq<byte>)
    requires s != [] && s[0] == QUOTE
    ensures ReadServer([OPEN_BRACE] + s) == ReadMembers(s, NOTHING)
  {
    assert ([OPEN_BRACE] + s)[1..] == s && SkipSpace(s) == s;
  }

  /** Reading undoes writing, for every record. */
  lemma {:induction false} ReadWrite(lic: CustomServer)
    ensures ReadServer(WriteServer(lic)) == Some(lic)
  {
    ReadObjectBack(WriteMembers(Members(lic)));
    ReadMembersBack(Members(lic), NOTHING);
    CollectAll(lic);
  }

  lemma {:induction false} CollectAll(lic: CustomServer)
    ensures WithAll(NOTHING, Members(lic)) ==
            Some(Partial(Some(lic.key), Some(lic.host), Some(lic.api), Some(lic.relay)))
  {
    var members := Members(lic);
    assert "api"[0] != "key"[0] && |"relay"| == 5 && |"host"| == 4;
    var p1 := NOTHING.(key := Some(lic.key));
    var p2 := p1.(host := Some(lic.host));
    var p3 := p2.(api := Some(lic.api));
    assert NOTHING.With("key", lic.key) == Some(p1);
    assert p1.With("host", lic.host) == Some(p2);
    assert p2.With("api", lic.api) == Some(p3);
    assert p3.With("relay", lic.relay) == Some(p3.(relay := Some(lic.relay)));
    assert WithAll(p3, members[3..]) == Some(p3.(relay := Some(lic.relay)));
    assert members[2..][1..] == members[3..];
    assert WithAll(p2, members[2..]) == WithAll(p3, members[3..]);
    assert members[1..][1..] == members[2..];
    assert WithAll(p1, members[1..]) == WithAll(p2, members[2..]);
  }

  // ----- the bytes of an ASCII record

  predicate AsciiText(s: string) {
    forall i :: 0 <= i < |s| ==> s[i] as int < 128
  }

  predicate AsciiServer(lic: CustomServer) {
    AsciiText(lic.key) && AsciiText(lic.host) && AsciiText(lic.api) && AsciiText(lic.relay)
  }

  lemma {:induction false} EscapeAllAscii(s: string)
    requires AsciiText(s)
    ensures IsAscii(EscapeAll(s))
  {
    if s != "" {
      EscapeAllAscii(s[1..]);
    }
  }

  lemma {:induction false} WriteMemberAscii(name: string, value: string, rest: seq<byte>)
    requires AsciiText(name) && AsciiText(value) && IsAscii(rest)
    ensures IsAscii(WriteMember(name, value, rest))
  {
    EscapeAllAscii(name);
    EscapeAllAscii(value);
  }

  lemma {:induction false} WriteMembersAscii(members: seq<(string, string)>)
    requires |members| > 0
    requires forall m :: m in members ==> AsciiText(m.0) && AsciiText(m.1)
    ensures IsAscii(WriteMembers(members))
  {
    assert members[0] in members;
    if |members| == 1 {
      WriteMemberAscii(members[0].0, members[0].1, [CLOSE_BRACE]);
    } else {
      WriteMembersAscii(members[1..]);
      WriteMemberAscii(members[0].0, members[0].1, [COMMA] + WriteMembers(members[1..]));
    }
  }

  lemma {:induction false} WriteServerAscii(lic: CustomServer)
    requires AsciiServer(lic)
    ensures IsAscii(WriteServer(lic))
  {
    WriteMembersAscii(Members(lic));
  }

  // ----- the text of a record

  predicate PlainText(s: string) {
    forall i :: 0 <= i < |s| ==> 32 <= s[i] as int < 128 && s[i] != '\"' && s[i] != '\\'
  }

  function Bytes(s: string): seq<byte>
    requires AsciiText(s)
  {
    seq(|s|, i requires 0 <= i < |s| => s[i] as int)
  }

  lemma {:induction false} EscapePlain(s: string)
    requires PlainText(s)
    ensures AsciiText(s) && EscapeAll(s) == Bytes(s)
  {
    if s != "" {
      EscapePlain(s[1..]);
      assert Bytes(s) == [s[0] as int] + Bytes(s[1..]);
    }
  }

  lemma {:induction false} BytesConcat(a: string, b: string)
    requires AsciiText(a) && AsciiText(b)
    ensures AsciiText(a + b) && Bytes(a + b) == Bytes(a) + Bytes(b)
  {
  }

  function MemberText(name: string, value: string, rest: string): string {
    "\"" + (name + ("\":\"" + (value + ("\"" + rest))))
  }

  /** A member of plain text. */
  lemma {:induction false} WriteMemberText(name: string, value: string, rest: string)
    requires PlainText(name) && PlainText(value) && AsciiText(rest)
    ensures AsciiText(MemberText(name, value, rest))
    ensures WriteMember(name, value, Bytes(rest)) == Bytes(MemberText(name, value, rest))
  {
    EscapePlain(name);
    EscapePlain(value);
    var t1 := "\"" + rest;
    var t2 := value + t1;
    var t3 := "\":\"" + t2;
    var t4 := name + t3;
    BytesConcat("\"", rest);
    BytesConcat(value, t1);
    BytesConcat("\":\"", t2);
    BytesConcat(name, t3);
    BytesConcat("\"", t4);
    assert Bytes("\"") == [QUOTE] && Bytes("\":\"") == [QUOTE, COLON, QUOTE];
    JoinedMember(Bytes(name), Bytes(value), Bytes(rest));
  }

  lemma {:induction false} JoinedMember(name: seq<byte>, value: seq<byte>, rest: seq<byte>)
    ensures ([QUOTE] + (name + [QUOTE])) + ([COLON] + (([QUOTE] + (value + [QUOTE])) + rest)) ==
            [QUOTE] + (name + ([QUOTE, COLON, QUOTE] + (value + ([QUOTE] + rest))))
  {
  }

  /** The compact text of an object, from its first member on. */
  function MembersText(members: seq<(string, string)>): string
    requires |members| > 0
  {
    MemberText(members[0].0, members[0].1, if |members| == 1 then "}" else "," + MembersText(members[1..]))
  }

  /** The writer writes the compact form: members in order, no blanks, nothing escaped that need not be. */
  lemma {:induction false} WriteMembersText(members: seq<(string, string)>)
    requires |members| > 0 && forall m :: m in members ==> PlainText(m.0) && PlainText(m.1)
    ensures AsciiText(MembersText(members)) && WriteMembers(members) == Bytes(MembersText(members))
  {
    assert members[0] in members;
    if |members| == 1 {
      assert Bytes("}") == [CLOSE_BRACE];
      WriteMemberText(members[0].0, members[0].1, "}");
    } else {
      var rest := MembersText(members[1..]);
      WriteMembersText(members[1..]);
      BytesConcat(",", rest);
      assert Bytes(",") == [COMMA];
      WriteMemberText(members[0].0, members[0].1, "," + rest);
    }
  }

  lemma {:induction false} WriteServerText(lic: CustomServer)
    requires PlainText(lic.key) && PlainText(lic.host) && PlainText(lic.api) && PlainText(lic.relay)
    ensures var members := [("key", lic.key), ("host", lic.host), ("api", lic.api), ("relay", lic.relay)];
            var text := "{" + MembersText(members);
            AsciiText(text) && WriteServer(lic) == Bytes(text)
  {
    var members := Members(lic);
    PlainMembers(lic);
    WriteMembersText(members);
    BytesConcat("{", MembersText(members));
    assert Bytes("{") == [OPEN_BRACE];
  }

  lemma {:induction false} PlainMembers(lic: CustomServer)
    requires PlainText(lic.key) && PlainText(lic.host) && PlainText(lic.api) && PlainText(lic.relay)
    ensures forall m :: m in Members(lic) ==> PlainText(m.0) && PlainText(m.1)
  {
  }

  // ----- absent and repeated fields

  /** The value of the first member of that name. */
  function ValueIn(members: seq<(string, string)>, name: string): Option<string> {
    if members == [] then None
    else if members[0].0 == name then Some(members[0].1)
    else ValueIn(members[1..], name)
  }

  function Slot(got: Partial, name: string): Option<string> {
    if name == "key" then got.key
    else if name == "host" then got.host
    else if name == "api" then got.api
    else if name == "relay" then got.relay
    else None
  }

  function Either(a: Option<string>, b: Option<string>): Option<string> {
    if a.Some? then a else b
  }

  predicate IsField(name: string) {
    name == "key" || name == "host" || name == "api" || name == "relay"
  }

  /** No field is named twice, nor again after it was read. */
  ghost predicate FieldsOnce(got: Partial, members: seq<(string, string)>) {
    (forall i :: 0 <= i < |members| && IsField(members[i].0) ==> Slot(got, members[i].0).None?) &&
    (forall i, j :: 0 <= i < j < |members| && IsField(members[i].0) ==> members[i].0 != members[j].0)
  }

  lemma {:induction false} WithSlot(got: Partial, name: string, value: string)
    ensures got.With(name, value).Some? <==> !IsField(name) || Slot(got, name).None?
    ensures got.With(name, value).Some? ==>
              forall f :: IsField(f) ==>
                Slot(got.With(name, value).value, f) == if f == name then Some(value) else Slot(got, f)
  {
  }

  /** Members are collected exactly when no field comes twice, and then each field is that of its member. */
  lemma {:induction false} Collected(got: Partial, members: seq<(string, string)>)
    ensures WithAll(got, members).Some? <==> FieldsOnce(got, members)
    ensures WithAll(got, members).Some? ==>
              forall f :: IsField(f) ==>
                Slot(WithAll(got, members).value, f) == Either(Slot(got, f), ValueIn(members, f))
    decreases |members|
  {
    if members != [] {
      var (name, value) := members[0];
      WithSlot(got, name, value);
      if got.With(name, value).Some? {
        var more := got.With(name, value).value;
        Collected(more, members[1..]);
        OnceMore(got, more, members);
      }
    }
  }

  lemma {:induction false} OnceMore(got: Partial, more: Partial, members: seq<(string, string)>)
    requires members != [] && got.With(members[0].0, members[0].1) == Some(more)
    ensures FieldsOnce(got, members) <==> FieldsOnce(more, members[1..])
  {
    var (name, value) := members[0];
    WithSlot(got, name, value);
    var rest := members[1..];
    if FieldsOnce(got, members) {
      forall i | 0 <= i < |rest| && IsField(rest[i].0)
        ensures Slot(more, rest[i].0).None?
      {
        assert rest[i] == members[i + 1];
      }
    }
    if FieldsOnce(more, rest) {
      forall i | 0 <= i < |members| && IsField(members[i].0)
        ensures Slot(got, members[i].0).None?
        ensures forall j :: i < j < |members| ==> members[i].0 != members[j].0
      {
        assert forall j :: 1 <= j < |members| ==> members[j] == rest[j - 1];
      }
    }
  }

  function ValueOr(members: seq<(string, string)>, name: string): string {
    match ValueIn(members, name) case None => "" case Some(value) => value
  }

  lemma {:induction false} Finished(all: Partial, members: seq<(string, string)>)
    requires forall f :: IsField(f) ==> Slot(all, f) == ValueIn(members, f)
    ensures all.Finish() == CustomServer(ValueOr(members, "key"), ValueOr(members, "host"),
                                         ValueOr(members, "api"), ValueOr(members, "relay"))
  {
    assert Slot(all, "key") == all.key && Slot(all, "host") == all.host;
    assert Slot(all, "api") == all.api && Slot(all, "relay") == all.relay;
  }

  /** An object is a record exactly when no field comes twice. A field that no member names is empty; a
      member that names no field is skipped. */
  lemma {:induction false} ReadFields(members: seq<(string, string)>)
    requires |members| > 0
    ensures ReadServer([OPEN_BRACE] + WriteMembers(members)) ==
            if FieldsOnce(NOTHING, members)
            then Some(CustomServer(ValueOr(members, "key"), ValueOr(members, "host"),
                                   ValueOr(members, "api"), ValueOr(members, "relay")))
            else None
  {
    ReadObjectBack(WriteMembers(members));
    ReadMembersBack(members, NOTHING);
    Collected(NOTHING, members);
    var all := WithAll(NOTHING, members);
    if all.Some? {
      Finished(all.value, members);
    }
  }

  lemma {:induction false} ReadEmptyObject()
    ensures ReadServer([OPEN_BRACE, CLOSE_BRACE]) == Some(CustomServer("", "", "", ""))
  {
    assert [OPEN_BRACE, CLOSE_BRACE][1..] == [CLOSE_BRACE] && [CLOSE_BRACE][1..] == [];
  }

  // ----- what the reader accepts beside that

  /** Spaces, tabs and ends of lines in front are skipped. */
  lemma {:induction false} ReadAfterBlanks(pad: seq<byte>, s: seq<byte>)
    requires forall i :: 0 <= i < |pad| ==> pad[i] in {0x20, 0x09, 0x0A, 0x0D}
    ensures SkipSpace(pad + s) == SkipSpace(s) && ReadServer(pad + s) == ReadServer(s)
  {
    if pad == [] {
      assert pad + s == s;
    } else {
      assert (pad + s)[1..] == pad[1..] + s;
      ReadAfterBlanks(pad[1..], s);
    }
  }

  /** Hexadecimal digits are read in either letter case. */
  lemma {:induction false} HexEitherCase(v: int)
    requires 0 <= v < 16
    ensures HexValue(HexDigit(v)) == Some(v)
    ensures v >= 10 ==> HexDigit(v) == 'a' as int + v - 10 && HexValue('A' as int + v - 10) == Some(v)
  {
  }
}
