/** Unpadded base64url (RFC 4648 sections 3.2, 3.5 and 5), as the URL_SAFE_NO_PAD engine writes
    and reads it: no padding either way, and no stray bits in the last symbol. */
module Base64Url {
  import opened Wrappers

  type sextet = v: int | 0 <= v < 64

  function ToSymbol(v: sextet): (c: char) {
    if v < 26 then 'A' + v as char
    else if v < 52 then 'a' + (v - 26) as char
    else if v < 62 then '0' + (v - 52) as char
    else if v == 62 then '-'
    else '_'
  }

  function FromSymbol(c: char): (r: Option<sextet>)
    ensures r.Some? ==> ToSymbol(r.value) == c
    ensures r.None? ==> forall v: sextet :: ToSymbol(v) != c
  {
    if 'A' <= c <= 'Z' then Some((c - 'A') as int)
    else if 'a' <= c <= 'z' then Some((c - 'a') as int + 26)
    else if '0' <= c <= '9' then Some((c - '0') as int + 52)
    else if c == '-' then Some(62)
    else if c == '_' then Some(63)
    else None
  }

  predicate InAlphabet(s: string) {
    forall c :: c in s ==> FromSymbol(c).Some?
  }

  function Encode(b: seq<byte>): string {
    if |b| == 0 then ""
    else if |b| == 1 then [ToSymbol(b[0] / 4), ToSymbol(b[0] % 4 * 16)]
    else if |b| == 2 then
      [ToSymbol(b[0] / 4), ToSymbol(b[0] % 4 * 16 + b[1] / 16), ToSymbol(b[1] % 16 * 4)]
    else EncodeGroup(b[0], b[1], b[2]) + Encode(b[3..])
  }

  function EncodeGroup(x: byte, y: byte, z: byte): string {
    [ToSymbol(x / 4), ToSymbol(x % 4 * 16 + y / 16), ToSymbol(y % 16 * 4 + z / 64), ToSymbol(z % 64)]
  }

  function Decode(s: string): Option<seq<byte>> {
    if |s| == 0 then Some([])
    else if |s| == 1 then None
    else
      match (FromSymbol(s[0]), FromSymbol(s[1]))
      case (Some(p), Some(q)) =>
        if |s| == 2 then
          if q % 16 == 0 then Some([p * 4 + q / 16]) else None
        else
          (match FromSymbol(s[2])
           case None => None
           case Some(u) =>
             if |s| == 3 then
               if u % 4 == 0 then Some([p * 4 + q / 16, q % 16 * 16 + u / 4]) else None
             else
               match (FromSymbol(s[3]), Decode(s[4..]))
               case (Some(w), Some(rest)) => Some(DecodeGroup(p, q, u, w) + rest)
               case _ => None)
      case _ => None
  }

  function DecodeGroup(p: sextet, q: sextet, u: sextet, w: sextet): (b: seq<byte>)
    ensures |b| == 3
  {
    [p * 4 + q / 16, q % 16 * 16 + u / 4, u % 4 * 64 + w]
  }

  lemma {:induction false} SymbolInverse(v: sextet)
    ensures FromSymbol(ToSymbol(v)) == Some(v)
  {
  }

  lemma {:induction false} DecodeEncodeGroup(x: byte, y: byte, z: byte)
    ensures DecodeGroup(x / 4, x % 4 * 16 + y / 16, y % 16 * 4 + z / 64, z % 64) == [x, y, z]
  {
  }

  lemma {:induction false} EncodeDecodeGroup(p: sextet, q: sextet, u: sextet, w: sextet)
    ensures var b := DecodeGroup(p, q, u, w);
            b[0] / 4 == p && b[0] % 4 * 16 + b[1] / 16 == q && b[1] % 16 * 4 + b[2] / 64 == u && b[2] % 64 == w
  {
  }

  function Symbols(p: sextet, q: sextet, u: sextet, w: sextet): string {
    [ToSymbol(p), ToSymbol(q), ToSymbol(u), ToSymbol(w)]
  }

  lemma {:induction false} DecodeSymbols(p: sextet, q: sextet, u: sextet, w: sextet, rest: string)
    ensures Decode(Symbols(p, q, u, w) + rest) ==
            match Decode(rest) case None => None case Some(b) => Some(DecodeGroup(p, q, u, w) + b)
  {
    SymbolInverse(p);
    SymbolInverse(q);
    SymbolInverse(u);
    SymbolInverse(w);
    assert (Symbols(p, q, u, w) + rest)[4..] == rest;
  }

  /** Decoding undoes encoding. */
  lemma {:induction false} DecodeEncode(b: seq<byte>)
    ensures Decode(Encode(b)) == Some(b)
  {
    if |b| >= 3 {
      DecodeEncode(b[3..]);
      DecodeEncodeGroup(b[0], b[1], b[2]);
      DecodeSymbols(b[0] / 4, b[0] % 4 * 16 + b[1] / 16, b[1] % 16 * 4 + b[2] / 64, b[2] % 64, Encode(b[3..]));
      assert [b[0], b[1], b[2]] + b[3..] == b;
    } else {
      DecodeEncodeLast(b);
    }
  }

  lemma {:induction false} DecodeEncodeLast(b: seq<byte>)
    requires |b| < 3
    ensures Decode(Encode(b)) == Some(b)
  {
    if |b| == 2 {
      SymbolInverse(b[0] / 4);
      SymbolInverse(b[0] % 4 * 16 + b[1] / 16);
      SymbolInverse(b[1] % 16 * 4);
      assert [b[0], b[1]] == b;
    } else if |b| == 1 {
      SymbolInverse(b[0] / 4);
      SymbolInverse(b[0] % 4 * 16);
      assert [b[0]] == b;
    }
  }

  lemma {:induction false} EncodeGroupThen(group: seq<byte>, rest: seq<byte>)
    requires |group| == 3
    ensures Encode(group + rest) == EncodeGroup(group[0], group[1], group[2]) + Encode(rest)
  {
    assert (group + rest)[3..] == rest;
  }

  /** The first group of a text that decodes. */
  lemma {:induction false} FirstGroup(s: string) returns (p: sextet, q: sextet, u: sextet, w: sextet)
    requires |s| >= 4 && Decode(s).Some?
    ensures s == Symbols(p, q, u, w) + s[4..]
    ensures Decode(s[4..]).Some? && Decode(s).value == DecodeGroup(p, q, u, w) + Decode(s[4..]).value
  {
    p, q := FromSymbol(s[0]).value, FromSymbol(s[1]).value;
    u, w := FromSymbol(s[2]).value, FromSymbol(s[3]).value;
  }

  /** Encoding undoes decoding: a text that decodes at all is the canonical one. */
  lemma {:induction false} EncodeDecode(s: string)
    ensures Decode(s).Some? ==> Encode(Decode(s).value) == s
  {
    if Decode(s).Some? {
      if |s| >= 4 {
        var p, q, u, w := FirstGroup(s);
        EncodeDecode(s[4..]);
        EncodeDecodeGroup(p, q, u, w);
        EncodeGroupThen(DecodeGroup(p, q, u, w), Decode(s[4..]).value);
      } else {
        EncodeDecodeLast(s);
      }
    }
  }

  lemma {:induction false} EncodeDecodeLast(s: string)
    requires |s| < 4 && Decode(s).Some?
    ensures Encode(Decode(s).value) == s
  {
    if |s| == 2 {
      var p, q := FromSymbol(s[0]).value, FromSymbol(s[1]).value;
      OneByte(p, q);
      assert s == [ToSymbol(p), ToSymbol(q)];
    } else if |s| == 3 {
      var p, q, u := FromSymbol(s[0]).value, FromSymbol(s[1]).value, FromSymbol(s[2]).value;
      TwoBytes(p, q, u);
      assert s == [ToSymbol(p), ToSymbol(q), ToSymbol(u)];
    }
  }

  lemma {:induction false} OneByte(p: sextet, q: sextet)
    requires q % 16 == 0
    ensures Encode([p * 4 + q / 16]) == [ToSymbol(p), ToSymbol(q)]
  {
    EncodeDecodeGroup(p, q, 0, 0);
  }

  lemma {:induction false} TwoBytes(p: sextet, q: sextet, u: sextet)
    requires u % 4 == 0
    ensures Encode([p * 4 + q / 16, q % 16 * 16 + u / 4]) == [ToSymbol(p), ToSymbol(q), ToSymbol(u)]
  {
    EncodeDecodeGroup(p, q, u, 0);
  }

  /** A text with a symbol outside the alphabet does not decode. */
  lemma {:induction false} ForeignSymbol(s: string, c: char)
    requires c in s && FromSymbol(c).None?
    ensures Decode(s).None?
  {
    if Decode(s).Some? {
      if |s| > 3 {
        assert s == s[..4] + s[4..];
        if c in s[4..] {
          ForeignSymbol(s[4..], c);
        }
      }
    }
  }

  // ----- the shape of the encoding of ASCII text

  predicate IsAscii(b: seq<byte>) {
    forall i :: 0 <= i < |b| ==> b[i] < 128
  }

  lemma {:induction false} EncodeInAlphabet(b: seq<byte>)
    ensures InAlphabet(Encode(b))
  {
    if |b| >= 3 {
      EncodeInAlphabet(b[3..]);
    }
  }

  /** In the encoding of ASCII bytes the symbol `-` (sextet 62) can only be the last of its group
      of four: in the other three places one of its five one-bits falls on the zero top bit of a byte. */
  lemma {:induction false} DashPlaces(b: seq<byte>)
    requires IsAscii(b)
    ensures forall i :: 0 <= i < |Encode(b)| && Encode(b)[i] == '-' ==> i % 4 == 3
  {
    if |b| >= 3 {
      DashPlaces(b[3..]);
      var s, rest := Encode(b), Encode(b[3..]);
      forall i | 0 <= i < |s| && s[i] == '-'
        ensures i % 4 == 3
      {
        if i >= 4 {
          assert s[i] == rest[i - 4];
          assert (i - 4) % 4 == 3;
        }
      }
    }
  }

  lemma {:induction false} EncodeStarts(b: seq<byte>)
    requires b != []
    ensures Encode(b) != [] && Encode(b)[0] == ToSymbol(b[0] / 4)
  {
  }

  /** The last symbol of an encoding depends on the last byte alone. */
  lemma {:induction false} EncodeEnds(b: seq<byte>)
    requires b != []
    ensures Encode(b) != []
    ensures var last := b[|b| - 1];
            Encode(b)[|Encode(b)| - 1] in {ToSymbol(last % 64), ToSymbol(last % 16 * 4), ToSymbol(last % 4 * 16)}
  {
    if |b| > 3 {
      EncodeEnds(b[3..]);
      assert b[3..][|b[3..]| - 1] == b[|b| - 1];
    }
  }

  // ----- the meaning of a group (RFC 4648 sections 4 and 5)

  /** The alphabet: capitals, small letters, digits, dash and underscore, each run in its order. */
  lemma {:induction false} AlphabetOrder(v: sextet)
    ensures ToSymbol(0) == 'A' && ToSymbol(26) == 'a' && ToSymbol(52) == '0'
    ensures ToSymbol(62) == '-' && ToSymbol(63) == '_'
    ensures v < 61 && v != 25 && v != 51 ==> ToSymbol(v + 1) as int == ToSymbol(v) as int + 1
  {
  }

  function Number(p: sextet, q: sextet, u: sextet, w: sextet): int {
    ((p * 64 + q) * 64 + u) * 64 + w
  }

  lemma {:induction false} DigitsUnique(p: sextet, q: sextet, u: sextet, w: sextet,
                                        a: sextet, b: sextet, c: sextet, d: sextet)
    requires Number(p, q, u, w) == Number(a, b, c, d)
    ensures p == a && q == b && u == c && w == d
  {
  }

  lemma {:induction false} GroupNumber(x: byte, y: byte, z: byte)
    ensures Number(x / 4, x % 4 * 16 + y / 16, y % 16 * 4 + z / 64, z % 64) == (x * 256 + y) * 256 + z
  {
  }

  lemma {:induction false} SymbolsUnique(p: sextet, q: sextet, u: sextet, w: sextet,
                                         a: sextet, b: sextet, c: sextet, d: sextet)
    ensures Symbols(p, q, u, w) == Symbols(a, b, c, d) <==> p == a && q == b && u == c && w == d
  {
    var s, t := Symbols(p, q, u, w), Symbols(a, b, c, d);
    if s == t {
      assert s[0] == t[0] && s[1] == t[1] && s[2] == t[2] && s[3] == t[3];
      SymbolInverse(p);
      SymbolInverse(q);
      SymbolInverse(u);
      SymbolInverse(w);
      SymbolInverse(a);
      SymbolInverse(b);
      SymbolInverse(c);
      SymbolInverse(d);
    }
  }

  /** Three bytes and their four symbols are the same number of 24 bits. */
  lemma {:induction false} GroupValue(x: byte, y: byte, z: byte, p: sextet, q: sextet, u: sextet, w: sextet)
    ensures EncodeGroup(x, y, z) == Symbols(p, q, u, w) <==> Number(p, q, u, w) == (x * 256 + y) * 256 + z
  {
    var a: sextet, b: sextet, c: sextet, d: sextet := x / 4, x % 4 * 16 + y / 16, y % 16 * 4 + z / 64, z % 64;
    GroupNumber(x, y, z);
    SymbolsUnique(a, b, c, d, p, q, u, w);
    assert EncodeGroup(x, y, z) == Symbols(a, b, c, d);
    if Number(p, q, u, w) == (x * 256 + y) * 256 + z {
      DigitsUnique(p, q, u, w, a, b, c, d);
    }
  }

  /** A last group of one or two bytes is filled up with zero bits, and the symbols without any are left out. */
  lemma {:induction false} LastGroup(x: byte, y: byte)
    ensures Encode([x]) == EncodeGroup(x, 0, 0)[..2] && Encode([x, y]) == EncodeGroup(x, y, 0)[..3]
  {
  }
}
