/**
 * config/config.go, decodeBase64Auth: the legacy `auth` field holds `user:password` in base64
 * (RFC 4648 section 4).  Strings stand for bytes here: every character is below 256.
 */
module Base64Auth {
  import opened GoStrings
  import opened Results

  predicate IsBytes(s: string)
  {
    forall i :: 0 <= i < |s| ==> s[i] as int < 256
  }

  function Codes(s: string): seq<Byte>
    requires IsBytes(s)
  {
    seq(|s|, i requires 0 <= i < |s| => s[i] as int)
  }

  function Text(b: seq<Byte>): string
  {
    seq(|b|, i requires 0 <= i < |b| => b[i] as char)
  }

  // ---------- The alphabet ----------

  type Sextet = v: int | 0 <= v < 64

  /** What a character of an encoding stands for. */
  datatype Symbol = Six(v: Sextet) | Pad | Other

  function CharOf(v: Sextet): char
  {
    if v < 26 then (v + 'A' as int) as char
    else if v < 52 then (v - 26 + 'a' as int) as char
    else if v < 62 then (v - 52 + '0' as int) as char
    else if v == 62 then '+' else '/'
  }

  /** The alphabet of the standard: capitals, small letters and digits in their order, then `+` and `/`. */
  lemma AlphabetIs(v: Sextet)
    ensures CharOf(0) == 'A' && CharOf(26) == 'a' && CharOf(52) == '0' && CharOf(62) == '+' && CharOf(63) == '/'
    ensures v !in {0, 26, 52, 62, 63} ==> CharOf(v) as int == CharOf(v - 1) as int + 1
  {
  }

  function SymbolOf(c: char): Symbol
  {
    if 'A' <= c <= 'Z' then Six(c as int - 'A' as int)
    else if 'a' <= c <= 'z' then Six(c as int - 'a' as int + 26)
    else if '0' <= c <= '9' then Six(c as int - '0' as int + 52)
    else if c == '+' then Six(62)
    else if c == '/' then Six(63)
    else if c == '=' then Pad else Other
  }

  function SymbolChar(s: Symbol): char
    requires s != Other
  {
    if s.Pad? then '=' else CharOf(s.v)
  }

  function Symbols(s: string): seq<Symbol>
  {
    seq(|s|, i requires 0 <= i < |s| => SymbolOf(s[i]))
  }

  function SymbolText(ss: seq<Symbol>): string
    requires Other !in ss
  {
    seq(|ss|, i requires 0 <= i < |ss| => SymbolChar(ss[i]))
  }

  // ---------- Encoding, as the standard gives it ----------

  function Encoded(b: seq<Byte>): (ss: seq<Symbol>)
    ensures Other !in ss
  {
    if b == [] then []
    else if |b| == 1 then [Six(b[0] / 4), Six(b[0] % 4 * 16), Pad, Pad]
    else if |b| == 2 then [Six(b[0] / 4), Six(b[0] % 4 * 16 + b[1] / 16), Six(b[1] % 16 * 4), Pad]
    else [Six(b[0] / 4), Six(b[0] % 4 * 16 + b[1] / 16), Six(b[1] % 16 * 4 + b[2] / 64), Six(b[2] % 64)] + Encoded(b[3..])
  }

  function Encode(s: string): string
    requires IsBytes(s)
  {
    SymbolText(Encoded(Codes(s)))
  }

  // ---------- Decoding, as base64.StdEncoding does it ----------

  /** Line breaks are skipped wherever they stand. */
  function Strip(s: string): string
  {
    if s == "" then ""
    else if s[0] == '\n' || s[0] == '\r' then Strip(s[1..])
    else [s[0]] + Strip(s[1..])
  }

  /** One quantum of four symbols after the other; padding only at the very end. */
  function Quanta(ss: seq<Symbol>): Option<seq<Byte>>
  {
    if ss == [] then Some([])
    else if |ss| < 4 || !ss[0].Six? || !ss[1].Six? then None
    else
      var first := ss[0].v * 4 + ss[1].v / 16;
      if !ss[2].Six? then
        if ss[2..] == [Pad, Pad] then Some([first]) else None
      else
        var second := ss[1].v % 16 * 16 + ss[2].v / 4;
        if !ss[3].Six? then
          if ss[3..] == [Pad] then Some([first, second]) else None
        else
          match Quanta(ss[4..])
          case None => None
          case Some(rest) => Some([first, second, ss[2].v % 4 * 64 + ss[3].v] + rest)
  }

  function Decode(s: string): Option<string>
  {
    match Quanta(Symbols(Strip(s)))
    case None => None
    case Some(b) => Some(Text(b))
  }

  /** base64.StdEncoding.DecodedLen. */
  function DecodedLen(n: nat): nat
  {
    n / 4 * 3
  }

  datatype AuthError = Corrupt | MissingSeparator

  function DecodeBase64Auth(auth: string): Result<(string, string), AuthError>
  {
    if auth == "" then Ok(("", ""))
    else
      match Decode(auth)
      case None => Err(Corrupt)
      case Some(decoded) =>
        var i := IndexOf(decoded, ':');
        if i == -1 then Err(MissingSeparator) else Ok((decoded[..i], decoded[i + 1..]))
  }

  // ---------- Results ----------

  lemma SymbolRoundTrip(s: Symbol)
    requires s != Other
    ensures SymbolOf(SymbolChar(s)) == s && SymbolChar(s) != '\n' && SymbolChar(s) != '\r'
  {
  }

  lemma {:induction false} StripNothing(s: string)
    requires '\n' !in s && '\r' !in s
    ensures Strip(s) == s
    decreases |s|
  {
    if s != "" {
      StripNothing(s[1..]);
    }
  }

  /** Line breaks anywhere in a text do not change what it decodes to. */
  lemma LineBreaksAreSkipped(a: string, c: char, b: string)
    requires c == '\n' || c == '\r'
    ensures Decode(a + [c] + b) == Decode(a + b)
  {
    StripInside(a, c, b);
  }

  lemma {:induction false} StripInside(a: string, c: char, b: string)
    requires c == '\n' || c == '\r'
    ensures Strip(a + [c] + b) == Strip(a + b)
    decreases |a|
  {
    if a == "" {
      assert a + [c] + b == [c] + b && a + b == b && ([c] + b)[1..] == b;
    } else {
      assert (a + [c] + b)[1..] == a[1..] + [c] + b && (a + b)[1..] == a[1..] + b;
      StripInside(a[1..], c, b);
    }
  }

  lemma SymbolsOfText(ss: seq<Symbol>)
    requires Other !in ss
    ensures Symbols(Strip(SymbolText(ss))) == ss
  {
    var s := SymbolText(ss);
    forall i | 0 <= i < |s|
      ensures s[i] != '\n' && s[i] != '\r' && SymbolOf(s[i]) == ss[i]
    {
      SymbolRoundTrip(ss[i]);
    }
    StripNothing(s);
  }

  /** Splitting bytes over sextets loses nothing. */
  lemma SplitBytes(a: Byte, b: Byte)
    ensures a / 4 * 4 + (a % 4 * 16 + b / 16) / 16 == a
    ensures (a % 4 * 16 + b / 16) % 16 * 16 + (b % 16 * 4) / 4 == b
  {
  }

  lemma SplitThird(b: Byte, c: Byte)
    ensures (b % 16 * 4 + c / 64) / 4 == b % 16 && (b % 16 * 4 + c / 64) % 4 * 64 + c % 64 == c
  {
  }

  lemma QuantaOfOne(a: Byte)
    ensures Quanta(Encoded([a])) == Some([a])
  {
    SplitBytes(a, 0);
    assert Encoded([a])[2..] == [Pad, Pad];
  }

  lemma QuantaOfTwo(a: Byte, b: Byte)
    ensures Quanta(Encoded([a, b])) == Some([a, b])
  {
    SplitBytes(a, b);
    assert Encoded([a, b])[3..] == [Pad];
  }

  /** One quantum without padding in front of others. */
  lemma QuantaCons(a: Sextet, b: Sextet, c: Sextet, d: Sextet, rest: seq<Symbol>, tail: seq<Byte>)
    requires Quanta(rest) == Some(tail)
    ensures Quanta([Six(a), Six(b), Six(c), Six(d)] + rest) == Some([a * 4 + b / 16, b % 16 * 16 + c / 4, c % 4 * 64 + d] + tail)
  {
    TakenApart([Six(a), Six(b), Six(c), Six(d)], rest);
  }

  lemma ThreeBytes(a: Byte, b: Byte, c: Byte)
    ensures var x, y, z := a % 4 * 16 + b / 16, b % 16 * 4 + c / 64, c % 64;
      a / 4 * 4 + x / 16 == a && x % 16 * 16 + y / 4 == b && y % 4 * 64 + z == c
  {
    SplitBytes(a, b);
    SplitThird(b, c);
  }

  lemma EncodedMore(a: Byte, b: Byte, c: Byte, rest: seq<Byte>) returns (p: Sextet, q: Sextet, x: Sextet, y: Sextet)
    ensures p == a / 4 && q == a % 4 * 16 + b / 16 && x == b % 16 * 4 + c / 64 && y == c % 64
    ensures Encoded([a, b, c] + rest) == [Six(p), Six(q), Six(x), Six(y)] + Encoded(rest)
  {
    TakenApart([a, b, c], rest);
    p, q, x, y := a / 4, a % 4 * 16 + b / 16, b % 16 * 4 + c / 64, c % 64;
  }

  lemma QuantaOfMore(a: Byte, b: Byte, c: Byte, rest: seq<Byte>)
    requires Quanta(Encoded(rest)) == Some(rest)
    ensures Quanta(Encoded([a, b, c] + rest)) == Some([a, b, c] + rest)
  {
    var p, q, x, y := EncodedMore(a, b, c, rest);
    ThreeBytes(a, b, c);
    QuantaCons(p, q, x, y, Encoded(rest), rest);
  }

  lemma {:induction false} QuantaOfEncoded(b: seq<Byte>)
    ensures Quanta(Encoded(b)) == Some(b)
    decreases |b|
  {
    if |b| == 1 {
      QuantaOfOne(b[0]);
      assert b == [b[0]];
    } else if |b| == 2 {
      QuantaOfTwo(b[0], b[1]);
      assert b == [b[0], b[1]];
    } else if |b| >= 3 {
      QuantaOfEncoded(b[3..]);
      QuantaOfMore(b[0], b[1], b[2], b[3..]);
      assert b == [b[0], b[1], b[2]] + b[3..];
    }
  }

  /** Decoding undoes encoding, for all bytes. */
  lemma DecodeEncode(s: string)
    requires IsBytes(s)
    ensures Decode(Encode(s)) == Some(s)
  {
    SymbolsOfText(Encoded(Codes(s)));
    QuantaOfEncoded(Codes(s));
    assert Text(Codes(s)) == s;
  }

  /** Test vectors of the standard (RFC 4648 section 10): "f", "fo" and "foo" become "Zg==", "Zm8=" and "Zm9v". */
  lemma EncodesAsStandard()
    ensures Encoded([102]) == [SymbolOf('Z'), SymbolOf('g'), Pad, Pad]
    ensures Encoded([102, 111]) == [SymbolOf('Z'), SymbolOf('m'), SymbolOf('8'), Pad]
    ensures Encoded([102, 111, 111]) == [SymbolOf('Z'), SymbolOf('m'), SymbolOf('9'), SymbolOf('v')]
  {
    var b: seq<Byte> := [102, 111, 111];
    assert Encoded(b[3..]) == [];
  }

  lemma EncodeNonEmpty(s: string)
    requires IsBytes(s) && s != ""
    ensures Encode(s) != ""
  {
    assert Codes(s) != [];
  }

  lemma {:induction false} QuantaFit(ss: seq<Symbol>)
    ensures Quanta(ss).Some? ==> |Quanta(ss).value| <= DecodedLen(|ss|)
    decreases |ss|
  {
    if |ss| >= 4 {
      QuantaFit(ss[4..]);
    }
  }

  lemma {:induction false} StripShrinks(s: string)
    ensures |Strip(s)| <= |s|
    decreases |s|
  {
    if s != "" {
      StripShrinks(s[1..]);
    }
  }

  /** Whatever the text, what it decodes to fits the buffer allocated from its length. */
  lemma DecodedFitsBuffer(s: string)
    ensures Decode(s).Some? ==> |Decode(s).value| <= DecodedLen(|s|)
  {
    StripShrinks(s);
    QuantaFit(Symbols(Strip(s)));
    assert |Strip(s)| / 4 <= |s| / 4;
  }

  /**
   * The user and the password come back exactly when the user has no colon (RFC 7617 section 2):
   * the decoded text is cut at its first one.
   */
  lemma AuthRoundTripIsExact(user: string, pass: string)
    requires IsBytes(user) && IsBytes(pass)
    ensures DecodeBase64Auth(Encode(user + ":" + pass)) == Ok((user, pass)) <==> ':' !in user
  {
    var s := user + [':'] + pass;
    assert s == user + ":" + pass;
    DecodeEncode(s);
    assert s[|user|] == ':' && |s| > 0;
    EncodeNonEmpty(s);
    if ':' !in user {
      IndexOfJoined(user, ':', pass);
      assert s[..|user|] == user && s[|user| + 1..] == pass;
    } else {
      var i := IndexOf(s, ':');
      assert s[..i] == user ==> ':' !in user;
    }
  }
}
