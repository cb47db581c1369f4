/** Admin login and bearer tokens: unpadded base64url, HS256 JSON Web Tokens
    signed with the configured secret, password login and the bearer-token
    guard of the admin API. */
module AdminAuth {
  import opened Wrappers
  import opened Text
  import opened Lists
  import opened JsonValues

  type byte = x: int | 0 <= x < 256

  // ---------------------------------------------------------------------------
  // The URL-safe base64 alphabet: A-Z, a-z, 0-9, '-', '_'

  function Digit64(n: int): (c: char)
    requires 0 <= n < 64
    ensures Value64(c) == Some(n)
  {
    if n < 26 then ('A' as int + n) as char
    else if n < 52 then ('a' as int + (n - 26)) as char
    else if n < 62 then ('0' as int + (n - 52)) as char
    else if n == 62 then '-'
    else '_'
  }

  /** The value of one character of the alphabet; None for any other character. */
  function Value64(c: char): (r: Option<int>)
    ensures r.Some? ==> 0 <= r.value < 64
  {
    if 'A' <= c <= 'Z' then Some(c as int - 'A' as int)
    else if 'a' <= c <= 'z' then Some(c as int - 'a' as int + 26)
    else if '0' <= c <= '9' then Some(c as int - '0' as int + 52)
    else if c == '-' then Some(62)
    else if c == '_' then Some(63)
    else None
  }

  predicate InAlphabet(s: string) {
    forall i :: 0 <= i < |s| ==> Value64(s[i]).Some?
  }

  lemma InAlphabetAppend(a: string, b: string)
    requires InAlphabet(a) && InAlphabet(b)
    ensures InAlphabet(a + b)
  {
    forall i | 0 <= i < |a + b| ensures Value64((a + b)[i]).Some? {
      if i < |a| {
        assert (a + b)[i] == a[i];
      } else {
        assert (a + b)[i] == b[i - |a|];
      }
    }
  }

  function Padding(k: nat): (r: string)
    ensures |r| == k && forall i :: 0 <= i < k ==> r[i] == '='
  {
    seq(k, _ => '=')
  }

  // ---------------------------------------------------------------------------
  // Encoding (admin/auth.py _b64url_encode)

  /** Three bytes as four characters, six bits each. */
  function EncodeGroup(b0: byte, b1: byte, b2: byte): (r: string)
    ensures |r| == 4 && InAlphabet(r)
  {
    [Digit64(b0 / 4), Digit64(b0 % 4 * 16 + b1 / 16), Digit64(b1 % 16 * 4 + b2 / 64), Digit64(b2 % 64)]
  }

  /** base64.urlsafe_b64encode: a short last group is filled with zero bits and
      '=' stands for each missing character. */
  function PaddedEncode(raw: seq<byte>): (r: string)
    ensures |r| == 4 * ((|raw| + 2) / 3)
    decreases |raw|
  {
    if |raw| >= 3 then
      ShiftThree(|raw| + 2);
      EncodeGroup(raw[0], raw[1], raw[2]) + PaddedEncode(raw[3..])
    else if |raw| == 2 then EncodeGroup(raw[0], raw[1], 0)[..3] + "="
    else if |raw| == 1 then EncodeGroup(raw[0], 0, 0)[..2] + "=="
    else []
  }

  lemma ShiftThree(n: int)
    requires n >= 3
    ensures (n - 3) % 3 == n % 3 && (n - 3) / 3 == n / 3 - 1
  {
  }

  lemma ShiftFour(n: int)
    ensures (n + 4) % 4 == n % 4
  {
  }

  /** The encoding with its trailing '=' removed. */
  function B64UrlEncode(raw: seq<byte>): string {
    RStripChar(PaddedEncode(raw), '=')
  }

  /** The number of '=' characters a padded encoding of n bytes ends with. */
  function PadCount(n: nat): nat {
    if n % 3 == 0 then 0 else if n % 3 == 1 then 2 else 1
  }

  /** The encoding without its padding. */
  ghost function Unpadded(raw: seq<byte>): (r: string)
    ensures InAlphabet(r)
    ensures |r| % 4 == (if |raw| % 3 == 0 then 0 else if |raw| % 3 == 1 then 2 else 3)
    decreases |raw|
  {
    if |raw| >= 3 then
      var g, rest := EncodeGroup(raw[0], raw[1], raw[2]), Unpadded(raw[3..]);
      InAlphabetAppend(g, rest);
      ShiftThree(|raw|);
      ShiftFour(|rest|);
      g + rest
    else if |raw| == 2 then EncodeGroup(raw[0], raw[1], 0)[..3]
    else if |raw| == 1 then EncodeGroup(raw[0], 0, 0)[..2]
    else []
  }

  lemma {:induction false} PaddedSplit(raw: seq<byte>)
    ensures PaddedEncode(raw) == Unpadded(raw) + Padding(PadCount(|raw|))
    decreases |raw|
  {
    if |raw| >= 3 {
      PaddedSplit(raw[3..]);
      ShiftThree(|raw|);
      assert EncodeGroup(raw[0], raw[1], raw[2]) + (Unpadded(raw[3..]) + Padding(PadCount(|raw|)))
          == (EncodeGroup(raw[0], raw[1], raw[2]) + Unpadded(raw[3..])) + Padding(PadCount(|raw|));
    } else if |raw| == 2 {
      assert Padding(1) == "=";
    } else if |raw| == 1 {
      assert Padding(2) == "==";
    } else {
      assert Padding(0) == [];
    }
  }

  lemma {:induction false} RStripPadding(u: string, k: nat)
    requires InAlphabet(u)
    ensures RStripChar(u + Padding(k), '=') == u
    decreases k
  {
    if k == 0 {
      assert u + Padding(0) == u;
      if u != [] {
        assert Value64(u[|u| - 1]).Some?;
      }
    } else {
      var s := u + Padding(k);
      assert s[|s| - 1] == '=';
      assert s[..|s| - 1] == u + Padding(k - 1);
      RStripPadding(u, k - 1);
    }
  }

  /** The unpadded encoding uses only the URL-safe alphabet (so it holds no
      '=' and no '.'), has ceil(4n/3) characters, and is the padded encoding
      cut short exactly at its padding. */
  lemma B64UrlEncodeSpec(raw: seq<byte>)
    ensures B64UrlEncode(raw) == Unpadded(raw)
    ensures InAlphabet(B64UrlEncode(raw))
    ensures PaddedEncode(raw) == B64UrlEncode(raw) + Padding(PadCount(|raw|))
  {
    PaddedSplit(raw);
    RStripPadding(Unpadded(raw), PadCount(|raw|));
  }

  lemma PadArith(n: nat)
    ensures 4 * ((n + 2) / 3) - PadCount(n) == (4 * n + 2) / 3
  {
  }

  /** n bytes give ceil(4n/3) characters. */
  lemma B64UrlEncodeLength(raw: seq<byte>)
    ensures |B64UrlEncode(raw)| == (4 * |raw| + 2) / 3
  {
    B64UrlEncodeSpec(raw);
    PadArith(|raw|);
  }

  lemma PadLenAfterEncode(n: nat, m: nat)
    requires m % 4 == (if n % 3 == 0 then 0 else if n % 3 == 1 then 2 else 3)
    ensures PadLen(m) == PadCount(n)
  {
  }

  // ---------------------------------------------------------------------------
  // Decoding (admin/auth.py _b64url_decode)

  /** The number of '=' that bring a string of length n to a multiple of four. */
  function PadLen(n: nat): (k: nat)
    ensures k < 4 && (n + k) % 4 == 0
  {
    (4 - n % 4) % 4
  }

  /** The value a character has for urlsafe_b64decode, which maps '-' to '+'
      and '_' to '/' before decoding: both spellings of 62 and of 63 count.
      None for a character the decoder skips. */
  function LooseValue(c: char): (r: Option<int>)
    ensures r.Some? ==> 0 <= r.value < 64
  {
    if c == '+' then Some(62) else if c == '/' then Some(63) else Value64(c)
  }

  /** The state of the decoding loop: the position in the current group of
      four, the bits the last character left over, the '=' counted at
      positions 2 and 3, and the bytes so far. */
  datatype Decoder = Decoder(pos: int, left: int, pads: int, out: seq<byte>)

  function Fresh(out: seq<byte>): Decoder { Decoder(0, 0, 0, out) }

  /** One data character of value v: every character after the first of a
      group completes one byte, stored in an unsigned byte. */
  function Feed(d: Decoder, v: int): Decoder {
    if d.pos == 0 then Decoder(1, v, 0, d.out)
    else if d.pos == 1 then Decoder(2, v % 16, 0, d.out + [(d.left * 4 + v / 16) % 256])
    else if d.pos == 2 then Decoder(3, v % 4, 0, d.out + [(d.left * 16 + v / 4) % 256])
    else Decoder(0, 0, 0, d.out + [(d.left * 64 + v) % 256])
  }

  /** binascii.a2b_base64 in its default, non-strict mode (CPython 3.11 and
      later): a character outside the alphabet is skipped; '=' is skipped at
      positions 0 and 1 of a group, counted at positions 2 and 3, and ends
      the input once it completes the group; input that ends inside a group
      raises (None). */
  function LooseDecode(s: string, d: Decoder): Option<seq<byte>>
    decreases |s|
  {
    if s == [] then (if d.pos == 0 then Some(d.out) else None)
    else if s[0] == '=' then
      if d.pos >= 2 && d.pos + d.pads + 1 >= 4 then Some(d.out)
      else LooseDecode(s[1..], if d.pos >= 2 then d.(pads := d.pads + 1) else d)
    else
      match LooseValue(s[0])
      case None => LooseDecode(s[1..], d)
      case Some(v) => LooseDecode(s[1..], Feed(d, v))
  }

  /** Restores the padding and decodes; None where encode("ascii") or the
      decoder raises. */
  function B64UrlDecode(s: string): Option<seq<byte>> {
    if !IsAscii(s) then None else LooseDecode(s + Padding(PadLen(|s|)), Fresh([]))
  }

  lemma GroupArith(b0: int, b1: int, b2: int)
    requires 0 <= b0 < 256 && 0 <= b1 < 256 && 0 <= b2 < 256
    ensures b0 / 4 * 4 + (b0 % 4 * 16 + b1 / 16) / 16 == b0
    ensures (b0 % 4 * 16 + b1 / 16) % 16 * 16 + (b1 % 16 * 4 + b2 / 64) / 4 == b1
    ensures (b1 % 16 * 4 + b2 / 64) % 4 * 64 + b2 % 64 == b2
  {
  }

  /** A character with a value is one data character. */
  lemma DataChar(c: char, t: string, d: Decoder)
    requires c != '=' && LooseValue(c).Some?
    ensures LooseDecode([c] + t, d) == LooseDecode(t, Feed(d, LooseValue(c).value))
  {
  }

  /** A character without a value is skipped. */
  lemma OtherChar(c: char, t: string, d: Decoder)
    requires c != '=' && LooseValue(c).None?
    ensures LooseDecode([c] + t, d) == LooseDecode(t, d)
  {
  }

  /** A '=' at position 0 or 1 is skipped. */
  lemma EarlyPad(t: string, d: Decoder)
    requires d.pos < 2
    ensures LooseDecode(['='] + t, d) == LooseDecode(t, d)
  {
  }

  /** A '=' that completes the group ends the input. */
  lemma FinalPad(t: string, d: Decoder)
    requires d.pos >= 2 && d.pos + d.pads + 1 >= 4
    ensures LooseDecode(['='] + t, d) == Some(d.out)
  {
  }

  /** A '=' at position 2 that does not yet complete the group is counted. */
  lemma CountedPad(t: string, d: Decoder)
    requires d.pos == 2 && d.pads == 0
    ensures LooseDecode(['='] + t, d) == LooseDecode(t, d.(pads := 1))
  {
  }

  /** Four digits of the alphabet, one after the other. */
  lemma FeedFour(n0: int, n1: int, n2: int, n3: int, rest: string, d: Decoder)
    requires 0 <= n0 < 64 && 0 <= n1 < 64 && 0 <= n2 < 64 && 0 <= n3 < 64
    ensures LooseDecode([Digit64(n0), Digit64(n1), Digit64(n2), Digit64(n3)] + rest, d)
         == LooseDecode(rest, Feed(Feed(Feed(Feed(d, n0), n1), n2), n3))
  {
    var c0, c1, c2, c3 := Digit64(n0), Digit64(n1), Digit64(n2), Digit64(n3);
    assert [c0, c1, c2, c3] + rest == [c0] + ([c1] + ([c2] + ([c3] + rest)));
    DataChar(c0, [c1] + ([c2] + ([c3] + rest)), d);
    DataChar(c1, [c2] + ([c3] + rest), Feed(d, n0));
    DataChar(c2, [c3] + rest, Feed(Feed(d, n0), n1));
    DataChar(c3, rest, Feed(Feed(Feed(d, n0), n1), n2));
  }

  /** The values of a group's characters rebuild its bytes. */
  lemma FeedBytes(b0: byte, b1: byte, b2: byte, out: seq<byte>)
    ensures var v0, v1, v2, v3 := b0 / 4, b0 % 4 * 16 + b1 / 16, b1 % 16 * 4 + b2 / 64, b2 % 64;
      && Feed(Fresh(out), v0) == Decoder(1, v0, 0, out)
      && Feed(Feed(Fresh(out), v0), v1) == Decoder(2, v1 % 16, 0, out + [b0])
      && Feed(Feed(Feed(Fresh(out), v0), v1), v2) == Decoder(3, v2 % 4, 0, out + [b0, b1])
      && Feed(Feed(Feed(Feed(Fresh(out), v0), v1), v2), v3) == Fresh(out + [b0, b1, b2])
  {
    ByteArith(b0, b1, b2);
    assert out + [b0] + [b1] == out + [b0, b1];
    assert out + [b0, b1] + [b2] == out + [b0, b1, b2];
  }

  /** The bytes the decoder stores from a group's values, truncation included. */
  lemma ByteArith(b0: byte, b1: byte, b2: byte)
    ensures var v0, v1, v2, v3 := b0 / 4, b0 % 4 * 16 + b1 / 16, b1 % 16 * 4 + b2 / 64, b2 % 64;
      && (v0 * 4 + v1 / 16) % 256 == b0
      && (v1 % 16 * 16 + v2 / 4) % 256 == b1
      && (v2 % 4 * 64 + v3) % 256 == b2
  {
    GroupArith(b0, b1, b2);
  }

  /** The four characters of a group add its three bytes. */
  lemma FeedGroup(b0: byte, b1: byte, b2: byte, rest: string, out: seq<byte>)
    ensures LooseDecode(EncodeGroup(b0, b1, b2) + rest, Fresh(out)) == LooseDecode(rest, Fresh(out + [b0, b1, b2]))
  {
    FeedFour(b0 / 4, b0 % 4 * 16 + b1 / 16, b1 % 16 * 4 + b2 / 64, b2 % 64, rest, Fresh(out));
    FeedBytes(b0, b1, b2, out);
  }

  /** Two bytes: three characters and one '='. */
  lemma FeedPair(b0: byte, b1: byte, out: seq<byte>)
    ensures LooseDecode(EncodeGroup(b0, b1, 0)[..3] + "=", Fresh(out)) == Some(out + [b0, b1])
  {
    var v0, v1, v2 := b0 / 4, b0 % 4 * 16 + b1 / 16, b1 % 16 * 4;
    var c0, c1, c2 := Digit64(v0), Digit64(v1), Digit64(v2);
    FeedBytes(b0, b1, 0, out);
    assert EncodeGroup(b0, b1, 0)[..3] + "=" == [c0] + ([c1] + ([c2] + ['=']));
    DataChar(c0, [c1] + ([c2] + ['=']), Fresh(out));
    DataChar(c1, [c2] + ['='], Feed(Fresh(out), v0));
    DataChar(c2, ['='], Feed(Feed(Fresh(out), v0), v1));
    FinalPad([], Feed(Feed(Feed(Fresh(out), v0), v1), v2));
    assert ['='] + [] == ['='];
  }

  /** One byte: two characters and "==". */
  lemma FeedSingle(b0: byte, out: seq<byte>)
    ensures LooseDecode(EncodeGroup(b0, 0, 0)[..2] + "==", Fresh(out)) == Some(out + [b0])
  {
    var v0, v1 := b0 / 4, b0 % 4 * 16;
    var c0, c1 := Digit64(v0), Digit64(v1);
    FeedBytes(b0, 0, 0, out);
    assert EncodeGroup(b0, 0, 0)[..2] + "==" == [c0] + ([c1] + (['='] + ['=']));
    DataChar(c0, [c1] + (['='] + ['=']), Fresh(out));
    DataChar(c1, ['='] + ['='], Feed(Fresh(out), v0));
    var d2 := Feed(Feed(Fresh(out), v0), v1);
    CountedPad(['='], d2);
    FinalPad([], d2.(pads := 1));
    assert ['='] + [] == ['='];
  }

  lemma {:induction false} PaddedRoundTrip(raw: seq<byte>, out: seq<byte>)
    ensures LooseDecode(PaddedEncode(raw), Fresh(out)) == Some(out + raw)
    decreases |raw|
  {
    if |raw| >= 3 {
      FeedGroup(raw[0], raw[1], raw[2], PaddedEncode(raw[3..]), out);
      PaddedRoundTrip(raw[3..], out + [raw[0], raw[1], raw[2]]);
      assert out + [raw[0], raw[1], raw[2]] + raw[3..] == out + raw;
    } else if |raw| == 2 {
      FeedPair(raw[0], raw[1], out);
      assert raw == [raw[0], raw[1]];
    } else if |raw| == 1 {
      FeedSingle(raw[0], out);
      assert raw == [raw[0]];
    } else {
      assert out + raw == out;
    }
  }

  /** Decoding undoes encoding: _b64url_decode(_b64url_encode(raw)) == raw. */
  lemma B64UrlRoundTrip(raw: seq<byte>)
    ensures B64UrlDecode(B64UrlEncode(raw)) == Some(raw)
  {
    B64UrlEncodeSpec(raw);
    var u := B64UrlEncode(raw);
    EncodedIsAscii(u);
    PadLenAfterEncode(|raw|, |u|);
    assert u + Padding(PadLen(|u|)) == PaddedEncode(raw);
    PaddedRoundTrip(raw, []);
    assert [] + raw == raw;
  }

  /** The decoder is lenient: the standard alphabet's '+' and '/' read as
      '-' and '_', and characters outside both alphabets are skipped, so a
      string of length 4k + 1 can decode. */
  lemma B64UrlDecodeLenient()
    ensures B64UrlDecode("-_-_") == Some([251, 255, 191])
    ensures B64UrlDecode("+/+/") == Some([251, 255, 191])
    ensures B64UrlDecode("-_!-_") == Some([251, 255, 191])
  {
    var bytes: seq<byte> := [251, 255, 191];
    var d0, d1, d2, d3, d4 := Fresh([]), Feed(Fresh([]), 62), Feed(Feed(Fresh([]), 62), 63),
      Feed(Feed(Feed(Fresh([]), 62), 63), 62), Feed(Feed(Feed(Feed(Fresh([]), 62), 63), 62), 63);
    assert d4 == Fresh(bytes);
    assert IsAscii("-_-_") && IsAscii("+/+/") && IsAscii("-_!-_");
    assert "-_-_" + Padding(PadLen(4)) == [Digit64(62), Digit64(63), Digit64(62), Digit64(63)] + [];
    FeedFour(62, 63, 62, 63, [], d0);
    assert "+/+/" + Padding(PadLen(4)) == ['+'] + (['/'] + (['+'] + (['/'] + [])));
    DataChar('+', ['/'] + (['+'] + (['/'] + [])), d0);
    DataChar('/', ['+'] + (['/'] + []), d1);
    DataChar('+', ['/'] + [], d2);
    DataChar('/', [], d3);
    var pads := ['='] + (['='] + (['='] + []));
    assert "-_!-_" + Padding(PadLen(5)) == ['-'] + (['_'] + (['!'] + (['-'] + (['_'] + pads))));
    DataChar('-', ['_'] + (['!'] + (['-'] + (['_'] + pads))), d0);
    DataChar('_', ['!'] + (['-'] + (['_'] + pads)), d1);
    OtherChar('!', ['-'] + (['_'] + pads), d2);
    DataChar('-', ['_'] + pads, d2);
    DataChar('_', pads, d3);
    EarlyPad(['='] + (['='] + []), d4);
    EarlyPad(['='] + [], d4);
    EarlyPad([], d4);
  }

  /** A string of 4k + 1 characters of the URL-safe alphabet never decodes:
      its last group holds a single character. */
  lemma B64UrlDecodeRejectsOneOver(s: string)
    requires |s| % 4 == 1 && InAlphabet(s)
    ensures B64UrlDecode(s).None?
  {
    EncodedIsAscii(s);
    OneOverRun(s, Padding(3), Fresh([]));
  }

  /** Characters of the alphabet move the group position on by one each;
      ending at position 1 with only '=' left raises. */
  lemma {:induction false} OneOverRun(s: string, t: string, d: Decoder)
    requires InAlphabet(s) && 0 <= d.pos < 4 && (d.pos + |s|) % 4 == 1
    requires forall i :: 0 <= i < |t| ==> t[i] == '='
    ensures LooseDecode(s + t, d).None?
    decreases |s| + |t|
  {
    if s != [] {
      var v := Value64(s[0]).value;
      assert (s + t)[0] == s[0] && (s + t)[1..] == s[1..] + t;
      assert LooseValue(s[0]) == Some(v);
      OneOverRun(s[1..], t, Feed(d, v));
    } else if t != [] {
      assert s + t == t && (s + t)[1..] == s + t[1..];
      OneOverRun(s, t[1..], d);
    } else {
      assert s + t == [];
    }
  }

  // ---------------------------------------------------------------------------
  // HS256 tokens (admin/auth.py create_jwt and verify_jwt)

  /** The operations the token code calls into. */
  datatype JwtEnv = JwtEnv(
    dumps: Json -> string,                       // json.dumps, compact separators
    utf8: string -> seq<byte>,                   // str.encode("utf-8")
    loads: seq<byte> -> Option<Json>,            // json.loads; None where it raises
    hmac: (seq<byte>, seq<byte>) -> seq<byte>,   // HMAC-SHA256 digest of (key, message)
    show: Json -> string)                        // str() of a value that is not a string

  const JwtHeader: Json := JObj(map["alg" := JStr("HS256"), "typ" := JStr("JWT")])
  const InvalidToken: string := "\U{65E0}\U{6548} token"
  const TokenExpired: string := "token \U{5DF2}\U{8FC7}\U{671F}"

  /** The signature segment for a signing input. */
  function Sign(secret: string, signingInput: string, env: JwtEnv): string {
    B64UrlEncode(env.hmac(env.utf8(secret), env.utf8(signingInput)))
  }

  function SigningInput(claims: map<string, Json>, env: JwtEnv): string {
    B64UrlEncode(env.utf8(env.dumps(JwtHeader))) + "." + B64UrlEncode(env.utf8(env.dumps(JObj(claims))))
  }

  function CreateJwt(claims: map<string, Json>, secret: string, env: JwtEnv): string {
    var input := SigningInput(claims, env);
    input + "." + Sign(secret, input, env)
  }

  /** token.split(".", 2) when it yields three parts. */
  function SplitThree(token: string): Option<(string, string, string)> {
    match IndexOf(token, ".")
    case None => None
    case Some(i) =>
      var rest := token[i + 1..];
      match IndexOf(rest, ".")
      case None => None
      case Some(j) => Some((token[..i], rest[..j], rest[j + 1..]))
  }

  lemma FirstDot(s: string, i: nat)
    requires IndexOf(s, ".") == Some(i)
    ensures i < |s| && s == s[..i] + "." + s[i + 1..] && Lacks(s[..i], '.')
  {
    DotJoin(s, i);
    DotPrefix(s, i);
  }

  lemma DotJoin(s: string, i: nat)
    requires OccursAt(s, ".", i)
    ensures i < |s| && s == s[..i] + "." + s[i + 1..]
  {
    assert s[i..] == "." + s[i + 1..];
    assert s == s[..i] + s[i..];
  }

  lemma DotPrefix(s: string, i: nat)
    requires i <= |s| && forall j :: 0 <= j < i ==> !OccursAt(s, ".", j)
    ensures Lacks(s[..i], '.')
  {
    forall k | 0 <= k < i ensures s[..i][k] != '.' {
      assert !OccursAt(s, ".", k);
      assert s[k..k + 1] == [s[k]];
    }
  }

  lemma NoDot(s: string)
    requires IndexOf(s, ".").None?
    ensures Lacks(s, '.')
  {
    forall k | 0 <= k < |s| ensures s[k] != '.' {
      assert !OccursAt(s, ".", k);
      assert s[k..k + 1] == [s[k]];
    }
  }

  /** The split gives the text before the first '.', between the first two and
      after the second, so the token is their join; it fails exactly when the
      token holds fewer than two dots. */
  lemma SplitThreeSpec(token: string)
    ensures SplitThree(token).Some? ==>
      token == SplitThree(token).value.0 + "." + SplitThree(token).value.1 + "." + SplitThree(token).value.2
    ensures SplitThree(token).Some? ==>
      Lacks(SplitThree(token).value.0, '.') && Lacks(SplitThree(token).value.1, '.')
    ensures SplitThree(token).None? ==>
      forall i, j :: 0 <= i < j < |token| && token[i] == '.' ==> token[j] != '.'
  {
    match IndexOf(token, ".")
    case None =>
      NoDot(token);
    case Some(i) =>
      FirstDot(token, i);
      var rest := token[i + 1..];
      match IndexOf(rest, ".")
      case None =>
        NoDot(rest);
        OnlyDot(token, i);
      case Some(j) =>
        FirstDot(rest, j);
        TwoDots(token, i, j);
  }

  /** A token whose only dot is at i. */
  lemma OnlyDot(token: string, i: nat)
    requires i < |token| && Lacks(token[..i], '.') && Lacks(token[i + 1..], '.')
    ensures forall k :: 0 <= k < |token| && k != i ==> token[k] != '.'
  {
    forall k | 0 <= k < |token| && k != i ensures token[k] != '.' {
      if k < i {
        assert token[k] == token[..i][k];
      } else {
        assert token[k] == token[i + 1..][k - i - 1];
      }
    }
  }

  lemma TwoDots(token: string, i: nat, j: nat)
    requires i < |token| && token == token[..i] + "." + token[i + 1..]
    requires j < |token[i + 1..]| && token[i + 1..] == token[i + 1..][..j] + "." + token[i + 1..][j + 1..]
    ensures token == token[..i] + "." + token[i + 1..][..j] + "." + token[i + 1..][j + 1..]
  {
    var rest := token[i + 1..];
    assert token == token[..i] + "." + (rest[..j] + "." + rest[j + 1..]);
  }

  lemma SplitThreeJoin(a: string, b: string, c: string)
    requires Lacks(a, '.') && Lacks(b, '.')
    ensures SplitThree(a + "." + b + "." + c) == Some((a, b, c))
  {
    var token := a + "." + b + "." + c;
    assert token == a + ['.'] + (b + "." + c);
    IndexOfFirst(a, '.', b + "." + c);
    var rest := token[|a| + 1..];
    assert rest == b + ['.'] + c;
    IndexOfFirst(b, '.', c);
    assert token[..|a|] == a;
    assert rest[..|b|] == b && rest[|b| + 1..] == c;
  }

  predicate IsAscii(s: string) {
    forall i :: 0 <= i < |s| ==> s[i] < '\U{80}'
  }

  /** str(payload.get(key) or fallback). */
  function ClaimStr(claims: map<string, Json>, key: string, fallback: string, env: JwtEnv): string {
    var v := Or(Get(claims, key), JStr(fallback));
    if v.JStr? then v.s else env.show(v)
  }

  /** int(payload.get("exp") or 0); None where int() raises. */
  function Expiry(claims: map<string, Json>): Option<int> {
    IntOf(Or(Get(claims, "exp"), JInt(0)))
  }

  datatype Verdict = Verified(claims: map<string, Json>) | Rejected(detail: string) | VerifyRaises

  /** verify_jwt at time `now`. A token is accepted only when it has three
      segments, its signature is the one the secret gives its first two, its
      payload decodes to a JSON object, its issuer matches (when one is asked
      for) and it has no expiry or one later than now. A non-ASCII signature
      segment makes hmac.compare_digest raise, and so does an `exp` int()
      cannot read. */
  function VerifyJwt(token: string, secret: string, issuer: string, now: int, env: JwtEnv): (r: Verdict)
    ensures r.Verified? ==> (SplitThree(token).Some? &&
      SplitThree(token).value.2 == Sign(secret, SplitThree(token).value.0 + "." + SplitThree(token).value.1, env))
    ensures r.Verified? ==> (B64UrlDecode(SplitThree(token).value.1).Some? &&
      env.loads(B64UrlDecode(SplitThree(token).value.1).value) == Some(JObj(r.claims)))
    ensures r.Verified? ==> issuer == "" || ClaimStr(r.claims, "iss", "", env) == issuer
    ensures r.Verified? ==> Expiry(r.claims).Some? && (Expiry(r.claims).value == 0 || now < Expiry(r.claims).value)
    ensures SplitThree(token).None? ==> r == Rejected(InvalidToken)
  {
    match SplitThree(token)
    case None => Rejected(InvalidToken)
    case Some((h, p, sig)) =>
      if !IsAscii(sig) then VerifyRaises
      else if Sign(secret, h + "." + p, env) != sig then Rejected(InvalidToken)
      else
        match B64UrlDecode(p)
        case None => Rejected(InvalidToken)
        case Some(bytes) =>
          match env.loads(bytes)
          case None => Rejected(InvalidToken)
          case Some(payload) =>
            if !payload.JObj? then Rejected(InvalidToken)
            else
              var claims := payload.fields;
              if issuer != "" && ClaimStr(claims, "iss", "", env) != issuer then Rejected(InvalidToken)
              else
                match Expiry(claims)
                case None => VerifyRaises
                case Some(exp) =>
                  if exp != 0 && now >= exp then Rejected(TokenExpired) else Verified(claims)
  }

  lemma EncodedIsAscii(s: string)
    requires InAlphabet(s)
    ensures IsAscii(s) && Lacks(s, '.')
  {
    forall i | 0 <= i < |s| ensures s[i] < '\U{80}' && s[i] != '.' {
      assert Value64(s[i]).Some?;
    }
  }

  /** The claims survive json.dumps, encode("utf-8") and json.loads. */
  predicate JsonRoundTrips(claims: map<string, Json>, env: JwtEnv) {
    env.loads(env.utf8(env.dumps(JObj(claims)))) == Some(JObj(claims))
  }

  /** A token create_jwt made is accepted with the same secret and gives back
      its claims, unless the issuer differs or the token has expired; int()
      on the expiry is assumed to succeed. */
  lemma VerifyCreated(claims: map<string, Json>, secret: string, issuer: string, now: int, env: JwtEnv)
    requires JsonRoundTrips(claims, env)
    requires Expiry(claims).Some?
    ensures VerifyJwt(CreateJwt(claims, secret, env), secret, issuer, now, env)
      == if issuer != "" && ClaimStr(claims, "iss", "", env) != issuer then Rejected(InvalidToken)
         else if Expiry(claims).value != 0 && now >= Expiry(claims).value then Rejected(TokenExpired)
         else Verified(claims)
  {
    var h := B64UrlEncode(env.utf8(env.dumps(JwtHeader)));
    var p := B64UrlEncode(env.utf8(env.dumps(JObj(claims))));
    var sig := Sign(secret, h + "." + p, env);
    B64UrlEncodeSpec(env.utf8(env.dumps(JwtHeader)));
    B64UrlEncodeSpec(env.utf8(env.dumps(JObj(claims))));
    B64UrlEncodeSpec(env.hmac(env.utf8(secret), env.utf8(h + "." + p)));
    EncodedIsAscii(h);
    EncodedIsAscii(p);
    EncodedIsAscii(sig);
    SplitThreeJoin(h, p, sig);
    B64UrlRoundTrip(env.utf8(env.dumps(JObj(claims))));
  }

  /** Any token whose signature segment differs from the one the secret gives
      its first two segments is refused or makes the comparison raise. */
  lemma ForgedSignatureRefused(h: string, p: string, sig: string, secret: string, issuer: string, now: int, env: JwtEnv)
    requires Lacks(h, '.') && Lacks(p, '.')
    requires sig != Sign(secret, h + "." + p, env)
    ensures !VerifyJwt(h + "." + p + "." + sig, secret, issuer, now, env).Verified?
  {
    SplitThreeJoin(h, p, sig);
  }

  // ---------------------------------------------------------------------------
  // Admin login and the bearer guard (admin/auth.py authenticate_admin,
  // issue_admin_access_token, require_admin)

  datatype Principal = Principal(username: string, role: string, workspaceId: string)

  datatype AuthSettings = AuthSettings(adminUsername: string, adminPassword: string, jwtSecret: string, jwtExpiresS: int)

  const DefaultWorkspaceId: string := "default"
  const AdminIssuer: string := "onekey-rag-admin"
  const BadCredentials: string := "\U{7528}\U{6237}\U{540D}\U{6216}\U{5BC6}\U{7801}\U{9519}\U{8BEF}"
  const MissingBearer: string := "\U{7F3A}\U{5C11} Authorization: Bearer token"

  /** The outcome of a login: the principal, an HTTP error, or an exception
      that escapes the handler (answered with status 500). */
  datatype Login = LoggedIn(principal: Principal) | LoginRefused(error: HttpError) | LoginRaises

  /** hmac.compare_digest on two str values raises TypeError when either one
      holds a non-ASCII character; both comparisons run before the verdict. */
  function AuthenticateAdmin(username: string, password: string, s: AuthSettings): Login {
    if !IsAscii(Strip(username)) || !IsAscii(Strip(s.adminUsername)) then LoginRaises
    else if !IsAscii(password) || !IsAscii(s.adminPassword) then LoginRaises
    else if Strip(username) == Strip(s.adminUsername) && password == s.adminPassword then
      LoggedIn(Principal(s.adminUsername, "owner", DefaultWorkspaceId))
    else LoginRefused(HttpError(401, BadCredentials))
  }

  /** Login raises exactly when one of the four compared strings is not
      ASCII; otherwise it succeeds exactly for the configured user name
      (surrounding whitespace ignored) with the configured password, always
      yielding the owner of the default workspace, and refuses everything
      else with 401. */
  lemma AuthenticateAdminSpec(username: string, password: string, s: AuthSettings)
    ensures AuthenticateAdmin(username, password, s).LoginRaises?
        <==> !(IsAscii(Strip(username)) && IsAscii(Strip(s.adminUsername)) && IsAscii(password) && IsAscii(s.adminPassword))
    ensures AuthenticateAdmin(username, password, s).LoggedIn?
        <==> && IsAscii(Strip(username)) && IsAscii(Strip(s.adminUsername)) && IsAscii(password) && IsAscii(s.adminPassword)
             && Strip(username) == Strip(s.adminUsername) && password == s.adminPassword
    ensures AuthenticateAdmin(username, password, s).LoggedIn? ==>
        AuthenticateAdmin(username, password, s).principal == Principal(s.adminUsername, "owner", DefaultWorkspaceId)
    ensures AuthenticateAdmin(username, password, s).LoginRefused? ==>
        AuthenticateAdmin(username, password, s).error == HttpError(401, BadCredentials)
  {
  }

  /** A non-ASCII password raises even when the user name is wrong. */
  lemma NonAsciiPasswordRaises(username: string, s: AuthSettings)
    requires IsAscii(Strip(username)) && IsAscii(Strip(s.adminUsername))
    ensures AuthenticateAdmin(username, "\U{E9}", s) == LoginRaises
  {
    assert !IsAscii("\U{E9}") by { assert "\U{E9}"[0] == '\U{E9}'; }
  }

  /** max(60, int(admin_jwt_expires_s or 3600)). */
  function Lifetime(s: AuthSettings): (r: int)
    ensures r >= 60
    ensures s.jwtExpiresS == 0 ==> r == 3600
    ensures s.jwtExpiresS >= 60 ==> r == s.jwtExpiresS
    ensures s.jwtExpiresS != 0 && s.jwtExpiresS < 60 ==> r == 60
  {
    Max(60, if s.jwtExpiresS == 0 then 3600 else s.jwtExpiresS)
  }

  function AdminClaims(p: Principal, now: int, exp: int): map<string, Json> {
    map["iss" := JStr(AdminIssuer), "sub" := JStr(p.username), "role" := JStr(p.role),
        "workspace_id" := JStr(p.workspaceId), "iat" := JInt(now), "exp" := JInt(exp)]
  }

  /** The token and its lifetime in seconds. */
  function IssueAdminAccessToken(p: Principal, s: AuthSettings, now: int, env: JwtEnv): (r: (string, int))
    ensures r.1 == Lifetime(s)
  {
    var exp := now + Lifetime(s);
    (CreateJwt(AdminClaims(p, now, exp), s.jwtSecret, env), exp - now)
  }

  datatype Access = Granted(principal: Principal) | Denied(error: HttpError) | AccessRaises

  /** require_admin: the Authorization header must start with "bearer " in any
      case; the rest after the first space, stripped, must verify with the
      admin issuer and name a subject. The role defaults to "viewer" and the
      workspace to the default one. */
  function RequireAdmin(header: Option<string>, s: AuthSettings, now: int, env: JwtEnv): (r: Access)
    ensures r.Granted? ==> r.principal.username != "" && r.principal.role != ""
    ensures r.Denied? ==> r.error.status == 401
  {
    var auth := if header.Some? then header.value else "";
    if !StartsWith(Lower(auth), "bearer ") then Denied(HttpError(401, MissingBearer))
    else
      assert auth[6] == ' ' by {
        assert Lower(auth)[6] == ' ';
      }
      assert OccursAt(auth, " ", 6) by {
        assert auth[6..7] == " ";
      }
      var token := Strip(auth[IndexOf(auth, " ").value + 1..]);
      Admit(VerifyJwt(token, s.jwtSecret, AdminIssuer, now, env), env)
  }

  /** The principal a verified token names; a token without a subject is refused. */
  function Admit(v: Verdict, env: JwtEnv): (r: Access)
    ensures r.Granted? ==> r.principal.username != "" && r.principal.role != ""
    ensures r.Denied? ==> r.error.status == 401
  {
    match v
    case Rejected(detail) => Denied(HttpError(401, detail))
    case VerifyRaises => AccessRaises
    case Verified(claims) =>
      var sub := ClaimStr(claims, "sub", "", env);
      var role := ClaimStr(claims, "role", "", env);
      var workspace := ClaimStr(claims, "workspace_id", DefaultWorkspaceId, env);
      if sub == "" then Denied(HttpError(401, InvalidToken))
      else Granted(Principal(sub, if role == "" then "viewer" else role, workspace))
  }

  /** "Bearer <token>" hands the guard the token itself. */
  lemma BearerHeader(token: string, s: AuthSettings, now: int, env: JwtEnv)
    requires Strip(token) == token
    ensures RequireAdmin(Some("Bearer " + token), s, now, env)
      == Admit(VerifyJwt(token, s.jwtSecret, AdminIssuer, now, env), env)
  {
    var auth := "Bearer " + token;
    assert Lower(auth)[..7] == "bearer ";
    assert auth == "Bearer" + [' '] + token;
    IndexOfFirst("Bearer", ' ', token);
    assert auth[7..] == token;
  }

  lemma DottedIsStripped(h: string, p: string, sig: string)
    requires InAlphabet(h) && InAlphabet(p) && InAlphabet(sig)
    ensures Strip(h + "." + p + "." + sig) == h + "." + p + "." + sig
  {
    var t := h + "." + p + "." + sig;
    assert t[0] == (if h == [] then '.' else h[0]);
    assert t[|t| - 1] == (if sig == [] then '.' else sig[|sig| - 1]);
    StripOfStripped(t);
  }

  lemma TokenIsStripped(claims: map<string, Json>, secret: string, env: JwtEnv)
    ensures Strip(CreateJwt(claims, secret, env)) == CreateJwt(claims, secret, env)
  {
    var h := B64UrlEncode(env.utf8(env.dumps(JwtHeader)));
    var p := B64UrlEncode(env.utf8(env.dumps(JObj(claims))));
    B64UrlEncodeSpec(env.utf8(env.dumps(JwtHeader)));
    B64UrlEncodeSpec(env.utf8(env.dumps(JObj(claims))));
    B64UrlEncodeSpec(env.hmac(env.utf8(secret), env.utf8(h + "." + p)));
    DottedIsStripped(h, p, Sign(secret, h + "." + p, env));
  }

  /** A token issued to a principal at time `now` and sent back as
      "Bearer <token>" at time t admits that principal (an empty role read as
      "viewer", an empty workspace as the default one) until its lifetime
      runs out, and is refused as expired from then on; a principal without a
      user name is refused. */
  lemma IssueThenRequire(p: Principal, s: AuthSettings, now: int, t: int, env: JwtEnv)
    requires now >= 0
    requires JsonRoundTrips(AdminClaims(p, now, now + Lifetime(s)), env)
    ensures RequireAdmin(Some("Bearer " + IssueAdminAccessToken(p, s, now, env).0), s, t, env)
      == if t >= now + Lifetime(s) then Denied(HttpError(401, TokenExpired))
         else if p.username == "" then Denied(HttpError(401, InvalidToken))
         else Granted(Principal(p.username, if p.role == "" then "viewer" else p.role,
                                if p.workspaceId == "" then DefaultWorkspaceId else p.workspaceId))
  {
    var exp := now + Lifetime(s);
    var claims := AdminClaims(p, now, exp);
    var token := CreateJwt(claims, s.jwtSecret, env);
    TokenIsStripped(claims, s.jwtSecret, env);
    BearerHeader(token, s, t, env);
    AdminClaimsRead(p, now, exp, env);
    VerifyCreated(claims, s.jwtSecret, AdminIssuer, t, env);
    var v := VerifyJwt(token, s.jwtSecret, AdminIssuer, t, env);
    assert v == if t >= exp then Rejected(TokenExpired) else Verified(claims);
  }

  /** What the guard reads back from the claims issue_admin_access_token writes. */
  lemma AdminClaimsRead(p: Principal, now: int, exp: int, env: JwtEnv)
    requires exp != 0
    ensures ClaimStr(AdminClaims(p, now, exp), "iss", "", env) == AdminIssuer
    ensures ClaimStr(AdminClaims(p, now, exp), "sub", "", env) == p.username
    ensures ClaimStr(AdminClaims(p, now, exp), "role", "", env) == p.role
    ensures ClaimStr(AdminClaims(p, now, exp), "workspace_id", DefaultWorkspaceId, env)
         == if p.workspaceId == "" then DefaultWorkspaceId else p.workspaceId
    ensures Expiry(AdminClaims(p, now, exp)) == Some(exp)
  {
    var c := AdminClaims(p, now, exp);
    assert Get(c, "iss") == JStr(AdminIssuer) by {
      assert "iss" != "sub" && "iss" != "role" && "iss" != "workspace_id" && "iss" != "iat" && "iss" != "exp";
    }
    assert Get(c, "sub") == JStr(p.username) by {
      assert "sub" != "role" && "sub" != "workspace_id" && "sub" != "iat" && "sub" != "exp";
    }
    assert Get(c, "role") == JStr(p.role) by {
      assert "role" != "workspace_id" && "role" != "iat" && "role" != "exp";
    }
    assert Get(c, "workspace_id") == JStr(p.workspaceId) by {
      assert "workspace_id" != "iat" && "workspace_id" != "exp";
    }
    assert Get(c, "exp") == JInt(exp);
  }

  /** A header that does not start with "bearer " in some case is refused
      before any token is looked at. */
  lemma MissingBearerRefused(header: string, s: AuthSettings, now: int, env: JwtEnv)
    requires |header| < 7 || Lower(header[..7]) != "bearer "
    ensures RequireAdmin(Some(header), s, now, env) == Denied(HttpError(401, MissingBearer))
  {
    if |header| >= 7 {
      assert Lower(header)[..7] == Lower(header[..7]);
    }
  }
}
