/** Percent-encoding, as `encodeURIComponent` and `decodeURIComponent` of ECMAScript define it. */
module UriComponent {
  import opened Wrappers

  // ----- UTF-8 of one character ---------------------------------------------------------------

  function Utf8(c: char): (bytes: seq<nat>)
    ensures 1 <= |bytes| <= 4 && forall i | 0 <= i < |bytes| :: bytes[i] < 256
  {
    var cp := c as int;
    if cp < 0x80 then [cp]
    else if cp < 0x800 then [0xC0 + cp / 0x40, 0x80 + cp % 0x40]
    else if cp < 0x1_0000 then [0xE0 + cp / 0x1000, 0x80 + cp / 0x40 % 0x40, 0x80 + cp % 0x40]
    else [0xF0 + cp / 0x4_0000, 0x80 + cp / 0x1000 % 0x40, 0x80 + cp / 0x40 % 0x40, 0x80 + cp % 0x40]
  }

  /** The length of an encoding, from its first byte; 0 where no encoding starts. */
  function Utf8Length(first: nat): (n: nat)
    ensures n <= 4
  {
    if first < 0x80 then 1
    else if first < 0xC0 then 0
    else if first < 0xE0 then 2
    else if first < 0xF0 then 3
    else if first < 0xF8 then 4
    else 0
  }

  predicate IsTail(b: nat) {
    0x80 <= b < 0xC0
  }

  /** The bits an encoding carries. */
  function Payload(bytes: seq<int>): int
    requires 2 <= |bytes| <= 4
  {
    if |bytes| == 2 then (bytes[0] - 0xC0) * 0x40 + (bytes[1] - 0x80)
    else if |bytes| == 3 then (bytes[0] - 0xE0) * 0x1000 + (bytes[1] - 0x80) * 0x40 + (bytes[2] - 0x80)
    else (bytes[0] - 0xF0) * 0x4_0000 + (bytes[1] - 0x80) * 0x1000 + (bytes[2] - 0x80) * 0x40 + (bytes[3] - 0x80)
  }

  /** The character a valid encoding stands for: shortest form, no surrogates, within Unicode. */
  function FromUtf8(bytes: seq<nat>): Option<char>
    requires 1 <= |bytes| <= 4
  {
    if exists i | 1 <= i < |bytes| :: !IsTail(bytes[i]) then None
    else if |bytes| == 1 then (if bytes[0] < 0x80 then Some(bytes[0] as char) else None)
    else
      var cp := Payload(bytes);
      var least := if |bytes| == 2 then 0x80 else if |bytes| == 3 then 0x800 else 0x1_0000;
      if least <= cp <= 0x10_FFFF && !(0xD800 <= cp <= 0xDFFF) then Some(cp as char) else None
  }

  lemma FromTwo(cp: int)
    requires 0x80 <= cp < 0x800
    ensures FromUtf8([0xC0 + cp / 0x40, 0x80 + cp % 0x40]) == Some(cp as char)
  {
    assert cp == cp / 0x40 * 0x40 + cp % 0x40;
  }

  lemma FromThree(cp: int)
    requires 0x800 <= cp < 0x1_0000 && !(0xD800 <= cp <= 0xDFFF)
    ensures FromUtf8([0xE0 + cp / 0x1000, 0x80 + cp / 0x40 % 0x40, 0x80 + cp % 0x40]) == Some(cp as char)
  {
    assert cp == cp / 0x40 * 0x40 + cp % 0x40;
    assert cp / 0x40 == cp / 0x1000 * 0x40 + cp / 0x40 % 0x40;
  }

  lemma FromFour(cp: int)
    requires 0x1_0000 <= cp <= 0x10_FFFF
    ensures FromUtf8([0xF0 + cp / 0x4_0000, 0x80 + cp / 0x1000 % 0x40, 0x80 + cp / 0x40 % 0x40, 0x80 + cp % 0x40])
         == Some(cp as char)
  {
    SixBitDigits(cp);
    var bytes := [0xF0 + cp / 0x4_0000, 0x80 + cp / 0x1000 % 0x40, 0x80 + cp / 0x40 % 0x40, 0x80 + cp % 0x40];
    assert Payload(bytes) == cp;
    assert forall i | 1 <= i < 4 :: IsTail(bytes[i]);
  }

  lemma SixBitDigits(cp: int)
    requires cp >= 0
    ensures cp / 0x4_0000 * 0x4_0000 + cp / 0x1000 % 0x40 * 0x1000 + cp / 0x40 % 0x40 * 0x40 + cp % 0x40 == cp
  {
    assert cp == cp / 0x40 * 0x40 + cp % 0x40;
    assert cp / 0x40 == cp / 0x1000 * 0x40 + cp / 0x40 % 0x40;
    assert cp / 0x1000 == cp / 0x4_0000 * 0x40 + cp / 0x1000 % 0x40;
  }

  lemma FirstByteTellsLength(c: char)
    ensures Utf8Length(Utf8(c)[0]) == |Utf8(c)|
  {
  }

  lemma FromToUtf8(c: char)
    ensures FromUtf8(Utf8(c)) == Some(c) && Utf8Length(Utf8(c)[0]) == |Utf8(c)|
  {
    var cp := c as int;
    FirstByteTellsLength(c);
    if 0x80 <= cp < 0x800 {
      FromTwo(cp);
    } else if 0x800 <= cp < 0x1_0000 {
      FromThree(cp);
    } else if 0x1_0000 <= cp {
      FromFour(cp);
    }
  }

  lemma ToTwo(bytes: seq<nat>, c: char)
    requires |bytes| == 2 && 0xC0 <= bytes[0] < 0xE0 && FromUtf8(bytes) == Some(c)
    ensures Utf8(c) == bytes
  {
    assert 0x80 <= bytes[1] < 0xC0;
    assert c as int == (bytes[0] - 0xC0) * 0x40 + (bytes[1] - 0x80);
  }

  lemma ToThree(bytes: seq<nat>, c: char)
    requires |bytes| == 3 && 0xE0 <= bytes[0] < 0xF0 && FromUtf8(bytes) == Some(c)
    ensures Utf8(c) == bytes
  {
    assert 0x80 <= bytes[1] < 0xC0 && 0x80 <= bytes[2] < 0xC0;
    assert c as int == ((bytes[0] - 0xE0) * 0x40 + (bytes[1] - 0x80)) * 0x40 + (bytes[2] - 0x80);
  }

  lemma ToFour(bytes: seq<nat>, c: char)
    requires |bytes| == 4 && 0xF0 <= bytes[0] < 0xF8 && FromUtf8(bytes) == Some(c)
    ensures Utf8(c) == bytes
  {
    assert 0x80 <= bytes[1] < 0xC0 && 0x80 <= bytes[2] < 0xC0 && 0x80 <= bytes[3] < 0xC0;
    var high := (bytes[0] - 0xF0) * 0x40 + (bytes[1] - 0x80);
    var mid := high * 0x40 + (bytes[2] - 0x80);
    assert c as int == mid * 0x40 + (bytes[3] - 0x80);
    assert c as int / 0x40 == mid && mid / 0x40 == high && high / 0x40 == bytes[0] - 0xF0;
  }

  /** Nothing but the encoding of a character is read as that character. */
  lemma ToFromUtf8(bytes: seq<nat>, c: char)
    requires 1 <= |bytes| == Utf8Length(bytes[0]) && FromUtf8(bytes) == Some(c)
    ensures Utf8(c) == bytes
  {
    if |bytes| == 2 {
      ToTwo(bytes, c);
    } else if |bytes| == 3 {
      ToThree(bytes, c);
    } else if |bytes| == 4 {
      ToFour(bytes, c);
    }
  }

  // ----- Percent-encoded bytes --------------------------------------------------------------------

  function HexDigit(d: nat): (c: char)
    requires d < 16
    ensures '0' <= c <= '9' || 'A' <= c <= 'F'
    ensures HexValue(c) == Some(d)
  {
    if d < 10 then '0' + d as char else 'A' + (d - 10) as char
  }

  /** Both cases are read. */
  function HexValue(c: char): Option<nat> {
    if '0' <= c <= '9' then Some((c - '0') as nat)
    else if 'A' <= c <= 'F' then Some((c - 'A') as nat + 10)
    else if 'a' <= c <= 'f' then Some((c - 'a') as nat + 10)
    else None
  }

  function Escape(b: nat): (s: string)
    requires b < 256
    ensures |s| == 3
  {
    ['%', HexDigit(b / 16), HexDigit(b % 16)]
  }

  function EscapeAll(bytes: seq<nat>): string
    requires forall i | 0 <= i < |bytes| :: bytes[i] < 256
  {
    if bytes == [] then "" else Escape(bytes[0]) + EscapeAll(bytes[1..])
  }

  /** The byte escaped at the start of `s`. */
  function ReadEscape(s: string): Option<nat> {
    if |s| < 3 || s[0] != '%' || HexValue(s[1]) == None || HexValue(s[2]) == None then None
    else Some(HexValue(s[1]).value * 16 + HexValue(s[2]).value)
  }

  /** `n` escaped bytes at the start of `s`. */
  function ReadEscapes(s: string, n: nat): (r: Option<seq<nat>>)
    ensures r.Some? ==> |r.value| == n && 3 * n <= |s|
  {
    if n == 0 then Some([])
    else
      match ReadEscape(s)
      case None => None
      case Some(b) =>
        match ReadEscapes(s[3..], n - 1)
        case None => None
        case Some(bs) => Some([b] + bs)
  }

  // ----- Encoding and decoding strings ----------------------------------------------------------

  predicate Unreserved(c: char) {
    'A' <= c <= 'Z' || 'a' <= c <= 'z' || '0' <= c <= '9' || c in "-_.!~*'()"
  }

  function EncodeChar(c: char): string {
    if Unreserved(c) then [c] else EscapeAll(Utf8(c))
  }

  const HEX: string := "0123456789ABCDEF"

  const SMALL_HEX: string := "0123456789abcdef"

  lemma HexDigitIs(d: nat)
    requires d < 16
    ensures HexDigit(d) == HEX[d]
    ensures forall c :: HexValue(c) == Some(d) <==> c == HEX[d] || c == SMALL_HEX[d]
  {
  }

  /** In ASCII: letters, digits and nine marks stand for themselves, others become a percent sign and two digits. */
  lemma EncodeAscii(c: char)
    requires c as int < 128
    ensures EncodeChar(c) == if 'A' <= c <= 'Z' || 'a' <= c <= 'z' || '0' <= c <= '9' || c in "-_.!~*'()" then [c]
                             else ['%', HEX[c as int / 16], HEX[c as int % 16]]
  {
    HexDigitIs(c as int / 16);
    HexDigitIs(c as int % 16);
    var bytes: seq<nat> := [c as int];
    assert Utf8(c) == bytes && bytes[1..] == [];
    assert EscapeAll(bytes) == Escape(c as int) + "";
  }

  function Encode(s: string): string {
    if s == "" then "" else EncodeChar(s[0]) + Encode(s[1..])
  }

  function Cons(c: char, rest: Option<string>): Option<string> {
    if rest.Some? then Some([c] + rest.value) else None
  }

  /** `None` stands for the URIError. */
  function Decode(s: string): Option<string> {
    if s == "" then Some("")
    else if s[0] != '%' then Cons(s[0], Decode(s[1..]))
    else
      match ReadEscape(s)
      case None => None
      case Some(first) =>
        var n := Utf8Length(first);
        if n == 0 then None else
        match ReadEscapes(s, n)
        case None => None
        case Some(bytes) =>
          match FromUtf8(bytes)
          case None => None
          case Some(c) => Cons(c, Decode(s[3 * n..]))
  }

  lemma ReadsEscape(b: nat, rest: string)
    requires b < 256
    ensures ReadEscape(Escape(b) + rest) == Some(b)
  {
  }

  lemma {:induction false} ReadsEscapes(bytes: seq<nat>, rest: string)
    requires forall i | 0 <= i < |bytes| :: bytes[i] < 256
    ensures ReadEscapes(EscapeAll(bytes) + rest, |bytes|) == Some(bytes)
    ensures |EscapeAll(bytes)| == 3 * |bytes|
  {
    if bytes != [] {
      ReadsEscapes(bytes[1..], rest);
      var more := EscapeAll(bytes[1..]) + rest;
      assert EscapeAll(bytes) + rest == Escape(bytes[0]) + more;
      ReadsOneMore(bytes[0], bytes[1..], more);
      assert [bytes[0]] + bytes[1..] == bytes;
    }
  }

  lemma ReadsOneMore(b: nat, bytes: seq<nat>, more: string)
    requires b < 256 && ReadEscapes(more, |bytes|) == Some(bytes)
    ensures ReadEscapes(Escape(b) + more, 1 + |bytes|) == Some([b] + bytes)
  {
    ReadsEscape(b, more);
    assert (Escape(b) + more)[3..] == more;
  }

  lemma DecodeEscaped(bytes: seq<nat>, c: char, rest: string)
    requires 1 <= |bytes| <= 4 && forall i | 0 <= i < |bytes| :: bytes[i] < 256
    requires FromUtf8(bytes) == Some(c) && Utf8Length(bytes[0]) == |bytes|
    ensures Decode(EscapeAll(bytes) + rest) == Cons(c, Decode(rest))
  {
    var s, more := EscapeAll(bytes) + rest, EscapeAll(bytes[1..]) + rest;
    ReadsEscapes(bytes, rest);
    assert s == Escape(bytes[0]) + more;
    ReadsEscape(bytes[0], more);
    assert s[3 * |bytes|..] == rest;
  }

  /** Decoding reads an encoded character off the front. */
  lemma DecodeEncodeChar(c: char, rest: string)
    ensures Decode(EncodeChar(c) + rest) == Cons(c, Decode(rest))
  {
    if Unreserved(c) {
      assert ([c] + rest)[1..] == rest;
    } else {
      FromToUtf8(c);
      DecodeEscaped(Utf8(c), c, rest);
    }
  }

  /** Every string of Unicode characters survives. */
  lemma {:induction false} DecodeEncode(s: string)
    ensures Decode(Encode(s)) == Some(s)
  {
    if s != "" {
      DecodeEncodeChar(s[0], Encode(s[1..]));
      DecodeEncode(s[1..]);
      assert [s[0]] + s[1..] == s;
    }
  }

  predicate Plain(s: string) {
    forall c <- s :: Unreserved(c) || c == '%'
  }

  /** Encoded text holds unreserved characters, percent signs and nothing else. */
  lemma {:induction false} EncodeIsPlain(s: string)
    ensures Plain(Encode(s))
  {
    if s != "" {
      EncodeIsPlain(s[1..]);
      EscapeAllIsPlain(Utf8(s[0]));
      assert Plain(EncodeChar(s[0]));
      PlainConcat(EncodeChar(s[0]), Encode(s[1..]));
    }
  }

  lemma PlainConcat(a: string, b: string)
    requires Plain(a) && Plain(b)
    ensures Plain(a + b)
  {
  }

  lemma {:induction false} EscapeAllIsPlain(bytes: seq<nat>)
    requires forall i | 0 <= i < |bytes| :: bytes[i] < 256
    ensures Plain(EscapeAll(bytes))
  {
    if bytes != [] {
      EscapeAllIsPlain(bytes[1..]);
      assert Plain(Escape(bytes[0]));
      PlainConcat(Escape(bytes[0]), EscapeAll(bytes[1..]));
    }
  }
}

/**
 Connection strings (apps/api/src/databases/spawner.ts): filled in from a template with
 `String.replace`, and taken apart again to recover the password.
 */
module ConnString {
  import opened Sequences
  import opened Wrappers
  import opened Text
  import opened UriComponent
  import ContainerName

  // ----- String.replace with a string pattern ---------------------------------------------------

  /** Position of the first occurrence of `pat` from `i` on, or -1. */
  function FindFrom(s: string, pat: string, i: nat): (r: int)
    requires i <= |s|
    ensures r == -1 || i <= r <= |s|
    ensures r >= 0 ==> pat <= s[r..] && forall k | i <= k < r :: !(pat <= s[k..])
    ensures r == -1 ==> forall k | i <= k <= |s| :: !(pat <= s[k..])
    decreases |s| - i
  {
    if pat <= s[i..] then i
    else if i == |s| then -1
    else FindFrom(s, pat, i + 1)
  }

  /** Position of the first occurrence of `pat`, or -1. */
  function Find(s: string, pat: string): (r: int)
    ensures -1 <= r <= |s|
    ensures r >= 0 ==> pat <= s[r..] && forall k | 0 <= k < r :: !(pat <= s[k..])
    ensures r == -1 ==> forall k | 0 <= k <= |s| :: !(pat <= s[k..])
  {
    FindFrom(s, pat, 0)
  }

  /** GetSubstitution of ECMAScript, without captures: `$$`, `$&`, `` $` `` and `$'`. */
  function Expand(rep: string, matched: string, before: string, after: string): string {
    if |rep| < 2 || rep[0] != '$' then
      if rep == "" then "" else [rep[0]] + Expand(rep[1..], matched, before, after)
    else if rep[1] == '$' then "$" + Expand(rep[2..], matched, before, after)
    else if rep[1] == '&' then matched + Expand(rep[2..], matched, before, after)
    else if rep[1] == '`' then before + Expand(rep[2..], matched, before, after)
    else if rep[1] == '\'' then after + Expand(rep[2..], matched, before, after)
    else "$" + Expand(rep[1..], matched, before, after)
  }

  /** The four patterns. */
  lemma ExpandPatterns(c: char, matched: string, before: string, after: string)
    ensures Expand(['$', c], matched, before, after)
         == if c == '$' then "$" else if c == '&' then matched else if c == '`' then before
            else if c == '\'' then after else ['$', c]
  {
    var rep: string := ['$', c];
    var last: string := [c];
    assert rep[1..] == last && rep[2..] == "" && last[1..] == "";
    assert matched + "" == matched && before + "" == before && after + "" == after;
    assert Expand(last, matched, before, after) == last;
  }

  /** `s.replace(pat, rep)` replaces the first occurrence. */
  function Replace(s: string, pat: string, rep: string): string {
    var i := Find(s, pat);
    if i == -1 then s
    else s[..i] + Expand(rep, pat, s[..i], s[i + |pat|..]) + s[i + |pat|..]
  }

  lemma {:induction false} ExpandPlain(rep: string, matched: string, before: string, after: string)
    requires '$' !in rep
    ensures Expand(rep, matched, before, after) == rep
  {
    if rep != "" {
      ExpandPlain(rep[1..], matched, before, after);
    }
  }

  /** A placeholder right behind text without braces is the one that is replaced. */
  lemma ReplaceHere(p: string, pat: string, q: string, rep: string)
    requires '{' !in p && pat != "" && pat[0] == '{'
    ensures Replace(p + pat + q, pat, rep) == p + Expand(rep, pat, p, q) + q
  {
    var s := p + pat + q;
    assert s[|p|..] == pat + q;
    assert forall k | 0 <= k < |p| :: s[k..] != "" && s[k..][0] == p[k];
    assert Find(s, pat) == |p|;
    assert s[..|p|] == p && s[|p| + |pat|..] == q;
  }

  /** A replacement never touches leading text without braces. */
  lemma ReplaceKeeps(p: string, s: string, pat: string, rep: string)
    requires '{' !in p && p <= s && pat != "" && pat[0] == '{'
    ensures p <= Replace(s, pat, rep)
  {
    var i := Find(s, pat);
    if i >= 0 {
      assert s[i..][0] == '{';
      assert i >= |p|;
      assert s[..i][..|p|] == p;
    }
  }

  // ----- Building -----------------------------------------------------------------------------

  datatype Values = Values(user: string, password: string, host: string, port: nat, database: string)

  /** `buildConnectionString` */
  function Build(template: string, v: Values): string {
    var s1 := Replace(template, "{user}", Encode(v.user));
    var s2 := Replace(s1, "{password}", Encode(v.password));
    var s3 := Replace(s2, "{host}", v.host);
    var s4 := Replace(s3, "{port}", ShowNat(v.port));
    Replace(s4, "{database}", v.database)
  }

  /** The templates of the database kinds that have users. */
  function Template(scheme: string, suffix: string): string {
    scheme + "://" + "{user}" + ":" + "{password}" + "@" + "{host}" + (":" + "{port}" + suffix)
  }

  /** Schemes: letters, digits, plus, minus, dot. */
  predicate IsScheme(s: string) {
    forall c <- s :: c != ':' && c != '{'
  }

  /** What stands before the host. */
  function Credentials(scheme: string, encodedUser: string, password: string): string {
    scheme + "://" + encodedUser + ":" + Encode(password) + "@"
  }

  lemma PlainHasNo(s: string)
    requires Plain(s)
    ensures '{' !in s && '$' !in s && ':' !in s && '@' !in s && '/' !in s && '?' !in s && '#' !in s
  {
  }

  lemma EncodedHasNo(s: string)
    ensures var e := Encode(s);
            '{' !in e && '$' !in e && ':' !in e && '@' !in e && '/' !in e && '?' !in e && '#' !in e
  {
    EncodeIsPlain(s);
    PlainHasNo(Encode(s));
  }

  /** As `ReplaceHere`, for a replacement without dollar signs. */
  lemma ReplacePlain(p: string, pat: string, q: string, rep: string)
    requires '{' !in p && pat != "" && pat[0] == '{' && '$' !in rep
    ensures Replace(p + pat + q, pat, rep) == p + rep + q
  {
    ReplaceHere(p, pat, q, rep);
    ExpandPlain(rep, pat, p, q);
  }

  /** One placeholder is filled with plain text, the next with anything. */
  lemma FillTwo(p: string, w: string, d: string, h: string, q: string, password: string, host: string)
    requires '{' !in p && '{' !in d && '{' !in password && '$' !in password
    requires w != "" && w[0] == '{' && h != "" && h[0] == '{'
    ensures var before := p + password + d;
            Replace(Replace(p + w + d + h + q, w, password), h, host)
              == before + Expand(host, h, before, q) + q
  {
    calc {
      Replace(p + w + d + h + q, w, password);
      { assert p + w + d + h + q == p + w + (d + h + q); }
      Replace(p + w + (d + h + q), w, password);
      { ReplacePlain(p, w, d + h + q, password); }
      p + password + (d + h + q);
      p + password + d + h + q;
    }
    ReplaceHere(p + password + d, h, q, host);
  }

  lemma FillFirst(p: string, u: string, c: string, w: string, d: string, h: string, q: string, user: string)
    requires '{' !in p && '$' !in user && u != "" && u[0] == '{'
    ensures Replace(p + u + c + w + d + h + q, u, user) == p + user + c + w + d + h + q
  {
    var rest := c + w + d + h + q;
    Flatten(p + u, c, w, d, h, q);
    ReplacePlain(p, u, rest, user);
    Flatten(p + user, c, w, d, h, q);
  }

  lemma Flatten(a: string, c: string, w: string, d: string, h: string, q: string)
    ensures a + c + w + d + h + q == a + (c + w + d + h + q)
  {
  }

  /** The text after the first three replacements. */
  lemma BuildHead(scheme: string, suffix: string, v: Values)
    requires IsScheme(scheme)
    ensures var p := Credentials(scheme, Encode(v.user), v.password);
            var q := ":" + "{port}" + suffix;
            var s1 := Replace(Template(scheme, suffix), "{user}", Encode(v.user));
            var s2 := Replace(s1, "{password}", Encode(v.password));
            '{' !in p && Replace(s2, "{host}", v.host) == p + Expand(v.host, "{host}", p, q) + q
  {
    EncodedHasNo(v.user);
    EncodedHasNo(v.password);
    var q := ":" + "{port}" + suffix;
    FillFirst(scheme + "://", "{user}", ":", "{password}", "@", "{host}", q, Encode(v.user));
    FillTwo(scheme + "://" + Encode(v.user) + ":", "{password}", "@", "{host}", q, Encode(v.password), v.host);
  }

  /** Whatever the host and the database hold, the built string starts with the encoded credentials. */
  lemma BuildKeepsCredentials(scheme: string, suffix: string, v: Values)
    requires IsScheme(scheme)
    ensures Credentials(scheme, Encode(v.user), v.password) <= Build(Template(scheme, suffix), v)
  {
    BuildHead(scheme, suffix, v);
    var p := Credentials(scheme, Encode(v.user), v.password);
    var s3 := Replace(Replace(Replace(Template(scheme, suffix), "{user}", Encode(v.user)),
                              "{password}", Encode(v.password)), "{host}", v.host);
    ReplaceKeeps(p, s3, "{port}", ShowNat(v.port));
    ReplaceKeeps(p, Replace(s3, "{port}", ShowNat(v.port)), "{database}", v.database);
  }

  // ----- Extracting ---------------------------------------------------------------------------

  datatype Error = NoScheme | NoCredentials | NoPassword | EmptyPassword

  predicate EndsAuthority(c: char) {
    c == '/' || c == '?' || c == '#'
  }

  /** Up to the first slash, question mark or hash. */
  function Authority(s: string): string {
    var i := IndexWhere(s, EndsAuthority);
    if i == -1 then s else s[..i]
  }

  /** Suffixes as the templates have them: none, or one that ends the authority. */
  predicate IsSuffix(s: string) {
    s == "" || EndsAuthority(s[0])
  }

  /** `safeDecodeURIComponent` */
  function SafeDecode(s: string): string {
    if Decode(s).Some? then Decode(s).value else s
  }

  /** `extractPasswordFromConnectionString` */
  function Extract(s: string): Result<string, Error> {
    var schemeEnd := Find(s, "://");
    if schemeEnd == -1 then Err(NoScheme) else
    match FromAuthority(Authority(s[schemeEnd + 3..]))
    case Err(error) => Err(error)
    case Ok(encodedPassword) => NonEmpty(SafeDecode(encodedPassword))
  }

  /** The password as it stands between the first colon and the last at sign. */
  function FromAuthority(authority: string): Result<string, Error> {
    var at := LastIndexOf(authority, '@');
    if at == -1 then Err(NoCredentials) else
    var userInfo := authority[..at];
    var sep := IndexOf(userInfo, ':');
    if sep == -1 then Err(NoPassword) else Ok(userInfo[sep + 1..])
  }

  function NonEmpty(password: string): Result<string, Error> {
    if password == "" then Err(EmptyPassword) else Ok(password)
  }

  // ----- The round trip -----------------------------------------------------------------------

  lemma SchemeFound(scheme: string, rest: string)
    requires ':' !in scheme
    ensures Find(scheme + "://" + rest, "://") == |scheme|
  {
    var s := scheme + "://" + rest;
    assert s[|scheme|..] == "://" + rest;
    assert forall k | 0 <= k < |scheme| :: s[k..] != "" && s[k..][0] == scheme[k];
  }

  lemma AuthorityAfter(a: string, x: string)
    requires forall c <- a :: !EndsAuthority(c)
    ensures Authority(a + x) == a + Authority(x)
  {
    var i, j := IndexWhere(a + x, EndsAuthority), IndexWhere(x, EndsAuthority);
    assert forall k | 0 <= k < |x| :: (a + x)[|a| + k] == x[k];
    assert forall k | 0 <= k < |a| :: (a + x)[k] == a[k];
    if j >= 0 {
      assert EndsAuthority((a + x)[|a| + j]);
      assert i == |a| + j;
    }
  }

  lemma LastAt(a: string, y: string)
    ensures LastIndexOf(a + "@" + y, '@') == |a| + 1 + LastIndexOf(y, '@')
  {
    var s := a + "@" + y;
    var j := LastIndexOf(y, '@');
    assert s[|a|] == '@';
    assert forall k | 0 <= k < |y| :: s[|a| + 1 + k] == y[k];
    assert s[|a| + 1 + j] == '@';
  }

  /** The encoded password ends at the last at sign. */
  function UpToLastAt(ep: string, y: string): string {
    if '@' in y then ep + "@" + y[..LastIndexOf(y, '@')] else ep
  }

  lemma ReadAuthority(eu: string, ep: string, y: string)
    requires ':' !in eu
    ensures FromAuthority(eu + ":" + ep + "@" + y) == Ok(UpToLastAt(ep, y))
  {
    var userInfo, w := eu + ":" + ep, UpToLastAt(ep, y);
    var j := LastIndexOf(y, '@');
    LastAt(userInfo, y);
    assert (userInfo + "@" + y)[..|userInfo| + 1 + j] == eu + ":" + w;
    IndexAfter(eu, ':', w);
    assert (eu + ":" + w)[|eu| + 1..] == w;
  }

  function Prepend(s: string, rest: Option<string>): Option<string> {
    if rest.Some? then Some(s + rest.value) else None
  }

  lemma ConsPrepend(c: char, s: string, rest: Option<string>)
    ensures UriComponent.Cons(c, Prepend(s, rest)) == Prepend([c] + s, rest)
  {
    assert rest.Some? ==> [c] + (s + rest.value) == [c] + s + rest.value;
  }

  /** Decoding undoes encoding in front of any other text. */
  lemma {:induction false} DecodeAfterEncode(s: string, rest: string)
    ensures Decode(Encode(s) + rest) == Prepend(s, Decode(rest))
  {
    if s == "" {
      assert Encode(s) + rest == rest;
      assert Decode(rest).Some? ==> "" + Decode(rest).value == Decode(rest).value;
    } else {
      var c, tail := s[0], s[1..];
      calc {
        Decode(Encode(s) + rest);
        Decode(EncodeChar(c) + Encode(tail) + rest);
        { ConcatAssociates(EncodeChar(c), Encode(tail), rest); }
        Decode(EncodeChar(c) + (Encode(tail) + rest));
        { DecodeEncodeChar(c, Encode(tail) + rest); }
        UriComponent.Cons(c, Decode(Encode(tail) + rest));
        { DecodeAfterEncode(tail, rest); }
        UriComponent.Cons(c, Prepend(tail, Decode(rest)));
        { ConsPrepend(c, tail, Decode(rest)); }
        Prepend([c] + tail, Decode(rest));
        { assert [c] + tail == s; }
        Prepend(s, Decode(rest));
      }
    }
  }

  lemma {:induction false} EncodeGrows(s: string)
    ensures |Encode(s)| >= |s|
  {
    if s != "" {
      EncodeGrows(s[1..]);
      assert |EncodeChar(s[0])| >= 1;
    }
  }

  /** A password decodes to itself, and with anything more behind it to something else. */
  lemma OnlyWholeDecodes(password: string, y: string)
    ensures SafeDecode(UpToLastAt(Encode(password), y)) == password <==> '@' !in y
  {
    if '@' in y {
      var ep, more := Encode(password), "@" + y[..LastIndexOf(y, '@')];
      ConcatAssociates(ep, "@", y[..LastIndexOf(y, '@')]);
      EncodeGrows(password);
      DecodeAfterEncode(password, more);
      DecodeKeepsAt(y[..LastIndexOf(y, '@')]);
    } else {
      DecodeEncode(password);
    }
  }

  lemma DecodeKeepsAt(s: string)
    ensures Decode("@" + s) == UriComponent.Cons('@', Decode(s))
  {
    assert ("@" + s)[1..] == s;
  }

  /**
   Reading a string that starts with encoded credentials: the password comes back exactly when it is
   not empty and the authority holds no further at sign.
   */
  lemma ExtractCredentials(scheme: string, eu: string, password: string, x: string)
    requires IsScheme(scheme) && Plain(eu)
    ensures Extract(Credentials(scheme, eu, password) + x) == Ok(password)
        <==> password != "" && '@' !in Authority(x)
  {
    PlainHasNo(eu);
    EncodedHasNo(password);
    ExtractReads(scheme, eu, Encode(password), x);
    OnlyWholeDecodes(password, Authority(x));
  }

  lemma ExtractReads(scheme: string, eu: string, ep: string, x: string)
    requires ':' !in scheme && ':' !in eu && forall c <- eu + ep :: !EndsAuthority(c)
    ensures Extract(scheme + "://" + eu + ":" + ep + "@" + x)
         == NonEmpty(SafeDecode(UpToLastAt(ep, Authority(x))))
  {
    var s := scheme + "://" + eu + ":" + ep + "@" + x;
    var front := eu + ":" + ep + "@";
    assert s == scheme + "://" + (front + x);
    SchemeFound(scheme, front + x);
    assert s[|scheme| + 3..] == front + x;
    AuthorityAfter(front, x);
    ReadAuthority(eu, ep, Authority(x));
  }

  lemma ExtractAuthority(scheme: string, authority: string, tail: string)
    requires ':' !in scheme && (forall c <- authority :: !EndsAuthority(c)) && IsSuffix(tail)
    ensures var s := scheme + "://" + (authority + tail);
            Find(s, "://") == |scheme| && Authority(s[|scheme| + 3..]) == authority
  {
    SchemeFound(scheme, authority + tail);
    assert (scheme + "://" + (authority + tail))[|scheme| + 3..] == authority + tail;
    AuthorityAfter(authority, tail);
    assert Authority(tail) == "" && authority + "" == authority;
  }

  /** The errors in their order: no at sign in the authority, no colon before the last one, nothing behind the colon. */
  lemma NoCredentialsIf(scheme: string, authority: string, tail: string)
    requires ':' !in scheme && (forall c <- authority :: !EndsAuthority(c)) && IsSuffix(tail)
    requires '@' !in authority
    ensures Extract(scheme + "://" + (authority + tail)) == Err(NoCredentials)
  {
    ExtractAuthority(scheme, authority, tail);
  }

  lemma NoPasswordIf(scheme: string, info: string, host: string, tail: string)
    requires ':' !in scheme && (forall c <- info + "@" + host :: !EndsAuthority(c)) && IsSuffix(tail)
    requires '@' !in host && ':' !in info
    ensures Extract(scheme + "://" + (info + "@" + host + tail)) == Err(NoPassword)
  {
    var authority := info + "@" + host;
    ExtractAuthority(scheme, authority, tail);
    LastAt(info, host);
    assert authority[..|info|] == info;
  }

  /** Otherwise the password is what stands between the first colon and the last at sign of the authority, decoded. */
  lemma PasswordIs(scheme: string, user: string, ep: string, host: string, tail: string)
    requires ':' !in scheme && (forall c <- user + ":" + ep + "@" + host :: !EndsAuthority(c)) && IsSuffix(tail)
    requires '@' !in host && ':' !in user
    ensures Extract(scheme + "://" + (user + ":" + ep + "@" + host + tail))
         == if SafeDecode(ep) == "" then Err(EmptyPassword) else Ok(SafeDecode(ep))
  {
    ExtractAuthority(scheme, user + ":" + ep + "@" + host, tail);
    ReadAuthority(user, ep, host);
  }

  lemma NoSchemeIff(s: string)
    ensures Extract(s) == Err(NoScheme) <==> forall k | 0 <= k <= |s| :: !("://" <= s[k..])
  {
  }

  /** What follows the credentials in a built string. */
  function AfterCredentials(scheme: string, suffix: string, v: Values): (x: string)
    requires IsScheme(scheme)
    ensures Build(Template(scheme, suffix), v) == Credentials(scheme, Encode(v.user), v.password) + x
  {
    BuildKeepsCredentials(scheme, suffix, v);
    Build(Template(scheme, suffix), v)[|Credentials(scheme, Encode(v.user), v.password)|..]
  }

  /**
   The password of any built connection string is recovered exactly when it is not empty and what the
   host, port and database put behind the credentials holds no at sign before the path.
   */
  lemma RoundTripIff(scheme: string, suffix: string, v: Values)
    requires IsScheme(scheme)
    ensures Extract(Build(Template(scheme, suffix), v)) == Ok(v.password)
        <==> v.password != "" && '@' !in Authority(AfterCredentials(scheme, suffix, v))
  {
    EncodeIsPlain(v.user);
    ExtractCredentials(scheme, Encode(v.user), v.password, AfterCredentials(scheme, suffix, v));
  }

  lemma ReplaceNone(s: string, pat: string, rep: string)
    requires '{' !in s && pat != "" && pat[0] == '{'
    ensures Replace(s, pat, rep) == s
  {
    forall k | 0 <= k <= |s|
      ensures !(pat <= s[k..])
    {
      assert k < |s| ==> s[k..][0] == s[k];
    }
  }

  /** A replacement behind text without braces keeps how the suffix begins. */
  lemma FillSuffix(p: string, suffix: string, pat: string, rep: string) returns (r: string)
    requires '{' !in p && IsSuffix(suffix) && pat != "" && pat[0] == '{'
    ensures IsSuffix(r) && Replace(p + suffix, pat, rep) == p + r
  {
    if suffix == "" {
      assert p + suffix == p;
      ReplaceNone(p, pat, rep);
      r := "";
    } else {
      var front := p + [suffix[0]];
      assert front <= p + suffix;
      ReplaceKeeps(front, p + suffix, pat, rep);
      r := Replace(p + suffix, pat, rep)[|p|..];
      assert r[0] == front[|p|];
    }
  }

  /** The last two replacements behind text that holds no brace. */
  lemma FillPort(p: string, suffix: string, port: string, database: string) returns (r: string)
    requires '{' !in p && '{' !in port && '$' !in port && IsSuffix(suffix)
    ensures IsSuffix(r)
    ensures Replace(Replace(p + "{port}" + suffix, "{port}", port), "{database}", database) == p + port + r
  {
    ReplacePlain(p, "{port}", suffix, port);
    r := FillSuffix(p + port, suffix, "{database}", database);
  }

  /** For a host without dollar signs and braces, host and port are spelled out behind the credentials. */
  lemma FillPlainHost(p: string, suffix: string, v: Values) returns (r: string)
    requires '{' !in p && IsSuffix(suffix) && '{' !in v.host && '$' !in v.host
    ensures IsSuffix(r)
    ensures var q := ":" + "{port}" + suffix;
            var s3 := p + Expand(v.host, "{host}", p, q) + q;
            Replace(Replace(s3, "{port}", ShowNat(v.port)), "{database}", v.database)
              == p + (v.host + (":" + ShowNat(v.port)) + r)
  {
    var q := ":" + "{port}" + suffix;
    ExpandPlain(v.host, "{host}", p, q);
    DigitsArePlain(ShowNat(v.port));
    r := FillPort(p + v.host + ":", suffix, ShowNat(v.port), v.database);
    ReassociateTemplate(p, v.host, ":", "{port}", suffix);
    ReassociateFilled(p, v.host, ":", ShowNat(v.port), r);
  }

  lemma DigitsArePlain(s: string)
    requires AllDigits(s)
    ensures Plain(s)
  {
  }

  lemma ReassociateTemplate(p: string, host: string, colon: string, port: string, suffix: string)
    ensures p + host + (colon + port + suffix) == p + host + colon + port + suffix
  {
  }

  lemma ReassociateFilled(p: string, host: string, colon: string, port: string, suffix: string)
    ensures p + host + colon + port + suffix == p + (host + (colon + port) + suffix)
  {
  }

  lemma AuthorityOfHost(host: string, port: string, r: string)
    requires '@' !in port && (forall c <- port :: !EndsAuthority(c)) && IsSuffix(r)
    ensures '@' in Authority(host + port + r) <==> '@' in Authority(host)
  {
    var i := IndexWhere(host, EndsAuthority);
    if i == -1 {
      AuthorityAfter(host + port, r);
      assert Authority(r) == "";
    } else {
      var s := host + port + r;
      assert s == host[..i] + (host[i..] + port + r);
      AuthorityAfter(host[..i], host[i..] + port + r);
      assert Authority(host[i..] + port + r) == "";
    }
  }

  /**
   For a host that holds no replacement patterns and no placeholders, the password is recovered exactly
   when it is not empty and the host has no at sign before its first slash, question mark or hash.
   */
  lemma PlainHostRoundTripIff(scheme: string, suffix: string, v: Values)
    requires IsScheme(scheme) && IsSuffix(suffix) && '{' !in v.host && '$' !in v.host
    ensures Extract(Build(Template(scheme, suffix), v)) == Ok(v.password)
        <==> v.password != "" && '@' !in Authority(v.host)
  {
    BuildHead(scheme, suffix, v);
    var r := FillPlainHost(Credentials(scheme, Encode(v.user), v.password), suffix, v);
    EncodeIsPlain(v.user);
    ReadPlainHost(scheme, Encode(v.user), r, v);
  }

  lemma ReadPlainHost(scheme: string, eu: string, r: string, v: Values)
    requires IsScheme(scheme) && Plain(eu) && IsSuffix(r)
    ensures Extract(Credentials(scheme, eu, v.password) + (v.host + (":" + ShowNat(v.port)) + r)) == Ok(v.password)
        <==> v.password != "" && '@' !in Authority(v.host)
  {
    var port := ":" + ShowNat(v.port);
    ExtractCredentials(scheme, eu, v.password, v.host + port + r);
    DigitsArePlain(ShowNat(v.port));
    PlainHasNo(ShowNat(v.port));
    AuthorityOfHost(v.host, port, r);
  }

  // ----- The whole string -----------------------------------------------------------------------

  /** What a suffix becomes: without braces it stays, and a placeholder for the database is filled. */
  ghost predicate FillsSuffix(suffix: string, database: string, filled: string) {
    || ('{' !in suffix && filled == suffix)
    || ('$' !in database && exists sep, rest :: IsDatabaseSuffix(suffix, sep, rest) && filled == sep + database + rest)
  }

  /** The placeholder for the database between a separator and a query. */
  predicate IsDatabaseSuffix(suffix: string, sep: string, rest: string) {
    '{' !in sep && suffix == sep + "{database}" + rest
  }

  /** The last two replacements behind credentials and host. */
  lemma FillRest(p: string, suffix: string, v: Values, filled: string)
    requires '{' !in p && FillsSuffix(suffix, v.database, filled)
    ensures Replace(Replace(p + "{port}" + suffix, "{port}", ShowNat(v.port)), "{database}", v.database)
         == p + ShowNat(v.port) + filled
  {
    DigitsArePlain(ShowNat(v.port));
    ReplacePlain(p, "{port}", suffix, ShowNat(v.port));
    var front := p + ShowNat(v.port);
    if '{' !in suffix && filled == suffix {
      ReplaceNone(front + suffix, "{database}", v.database);
    } else {
      var sep, rest :| IsDatabaseSuffix(suffix, sep, rest) && filled == sep + v.database + rest;
      FillDatabase(front, sep, "{database}", rest, v.database);
    }
  }

  lemma FillDatabase(front: string, sep: string, pat: string, rest: string, database: string)
    requires '{' !in front && '{' !in sep && '$' !in database && pat != "" && pat[0] == '{'
    ensures Replace(front + (sep + pat + rest), pat, database) == front + (sep + database + rest)
  {
    assert front + (sep + pat + rest) == front + sep + pat + rest;
    assert front + (sep + database + rest) == front + sep + database + rest;
    ReplacePlain(front + sep, pat, rest, database);
  }

  /** Behind the credentials: host, port and suffix, spelled out. */
  lemma FillWhole(p: string, suffix: string, v: Values, filled: string)
    requires '{' !in p && '{' !in v.host && '$' !in v.host && FillsSuffix(suffix, v.database, filled)
    ensures var q := ":" + "{port}" + suffix;
            var s3 := p + Expand(v.host, "{host}", p, q) + q;
            Replace(Replace(s3, "{port}", ShowNat(v.port)), "{database}", v.database)
              == p + v.host + ":" + ShowNat(v.port) + filled
  {
    var q := ":" + "{port}" + suffix;
    ExpandPlain(v.host, "{host}", p, q);
    ReassociateTemplate(p, v.host, ":", "{port}", suffix);
    FillRest(p + v.host + ":", suffix, v, filled);
  }

  /**
   The string that a template with a user becomes, for every host without dollar signs and braces: each value in its
   own place.
   */
  lemma BuildIs(scheme: string, suffix: string, v: Values, filled: string)
    requires IsScheme(scheme) && '{' !in v.host && '$' !in v.host && FillsSuffix(suffix, v.database, filled)
    ensures Build(scheme + "://" + "{user}" + ":" + "{password}" + "@" + "{host}" + (":" + "{port}" + suffix), v)
         == scheme + "://" + Encode(v.user) + ":" + Encode(v.password) + "@" + v.host + ":" + ShowNat(v.port) + filled
  {
    BuildHead(scheme, suffix, v);
    FillWhole(Credentials(scheme, Encode(v.user), v.password), suffix, v, filled);
  }

  /** With a database and a query behind it, as the templates of Postgres, MySQL and Mongo have them. */
  lemma BuildWithDatabase(scheme: string, query: string, v: Values)
    requires IsScheme(scheme) && '{' !in v.host && '$' !in v.host && '$' !in v.database
    ensures Build(Template(scheme, "/" + "{database}" + query), v)
         == scheme + "://" + Encode(v.user) + ":" + Encode(v.password) + "@" + v.host + ":" + ShowNat(v.port) +
            ("/" + v.database + query)
  {
    assert IsDatabaseSuffix("/" + "{database}" + query, "/", query);
    BuildIs(scheme, "/" + "{database}" + query, v, "/" + v.database + query);
  }

  // ----- The hosts that occur -------------------------------------------------------------------

  lemma AgentNameIsPlain(name: string)
    requires ContainerName.AgentAccepts(name)
    ensures forall c <- name :: ContainerName.IsAllowed(c)
    ensures '{' !in name && '$' !in name && '@' !in Authority(name)
  {
    assert name == name[..8] + name[8..];
    assert name[..8] == "ploydok-";
    assert forall c <- Authority(name) :: c in name;
  }

  /** For every host that passes the agent's rule the password is recovered exactly if it is not empty. */
  lemma ContainerRoundTripIff(scheme: string, suffix: string, v: Values)
    requires IsScheme(scheme) && IsSuffix(suffix) && ContainerName.AgentAccepts(v.host)
    ensures Extract(Build(Template(scheme, suffix), v)) == Ok(v.password) <==> v.password != ""
  {
    AgentNameIsPlain(v.host);
    PlainHostRoundTripIff(scheme, suffix, v);
  }

  /** So it is for the container of every database id, and for every template with a user. */
  lemma DatabaseRoundTripIff(scheme: string, suffix: string, lower: string -> string, id: string, v: Values)
    requires IsScheme(scheme) && IsSuffix(suffix) && v.host == ContainerName.Name(lower, id, 60)
    ensures Extract(Build(Template(scheme, suffix), v)) == Ok(v.password) <==> v.password != ""
  {
    ContainerName.NameAccepted(lower, id);
    ContainerRoundTripIff(scheme, suffix, v);
  }

  // ----- Hosts that no caller passes --------------------------------------------------------------

  /** A host with an at sign would break the law: the password read back carries part of it. */
  lemma AtSignInHostBreaks(scheme: string, suffix: string, v: Values)
    requires IsScheme(scheme) && IsSuffix(suffix) && v.host == "a@b"
    ensures Extract(Build(Template(scheme, suffix), v)) != Ok(v.password)
  {
    AtSignInAuthority();
    PlainHostRoundTripIff(scheme, suffix, v);
  }

  lemma AtSignInAuthority()
    ensures var host := "a@b"; '@' in Authority(host) && '{' !in host && '$' !in host
  {
    var host := "a@b";
    assert host[1] == '@';
    assert IndexWhere(host, EndsAuthority) == -1;
  }

  /** The pattern that stands for the text before the match. */
  const BEFORE_MATCH: string := "$`"

  lemma ExpandBefore(matched: string, before: string, after: string)
    ensures Expand(BEFORE_MATCH, matched, before, after) == before
  {
    assert BEFORE_MATCH[2..] == "";
    assert before + "" == before;
  }

  /**
   `String.replace` takes dollar signs in the host for patterns: this host would put a copy of the credentials,
   password included, in the host's place.
   */
  lemma DollarHostRepeatsCredentials(scheme: string, suffix: string, v: Values)
    requires IsScheme(scheme) && v.host == BEFORE_MATCH
    ensures var p := Credentials(scheme, Encode(v.user), v.password);
            p + p <= Build(Template(scheme, suffix), v)
  {
    var p := Credentials(scheme, Encode(v.user), v.password);
    var q := ":" + "{port}" + suffix;
    BuildHead(scheme, suffix, v);
    ExpandBefore("{host}", p, q);
    var s3 := p + p + q;
    ReplaceKeeps(p + p, s3, "{port}", ShowNat(v.port));
    ReplaceKeeps(p + p, Replace(s3, "{port}", ShowNat(v.port)), "{database}", v.database);
  }

  // ----- The template without a user ----------------------------------------------------------

  /** The template of Redis. */
  function UserlessTemplate(scheme: string): string {
    scheme + "://" + ":" + "{password}" + "@" + "{host}" + (":" + "{port}" + "")
  }

  /** No brace opens `{user}`. */
  predicate NamesNoUser(s: string) {
    forall k | 0 <= k < |s| && s[k] == '{' :: k + 1 < |s| && s[k + 1] != 'u'
  }

  lemma NamesNoUserConcat(a: string, b: string)
    requires NamesNoUser(a) && NamesNoUser(b)
    ensures NamesNoUser(a + b)
  {
  }

  lemma ReplaceNoUser(s: string, rep: string)
    requires NamesNoUser(s)
    ensures Replace(s, "{user}", rep) == s
  {
    forall k | 0 <= k <= |s|
      ensures !("{user}" <= s[k..])
    {
      if k < |s| && s[k] == '{' {
        assert s[k..][1] == s[k + 1];
      }
    }
  }

  lemma UserlessHead(scheme: string, v: Values)
    requires IsScheme(scheme)
    ensures var p := Credentials(scheme, "", v.password);
            var q := ":" + "{port}" + "";
            var s1 := Replace(UserlessTemplate(scheme), "{user}", Encode(v.user));
            var s2 := Replace(s1, "{password}", Encode(v.password));
            '{' !in p && Replace(s2, "{host}", v.host) == p + Expand(v.host, "{host}", p, q) + q
  {
    var p, q := scheme + "://" + ":", ":" + "{port}" + "";
    NoBrace(p);
    PlaceholdersNameNoUser();
    TemplateNamesNoUser(p, "{password}", "@", "{host}", q);
    ReplaceNoUser(UserlessTemplate(scheme), Encode(v.user));
    EncodedHasNo(v.password);
    FillTwo(p, "{password}", "@", "{host}", q, Encode(v.password), v.host);
    assert scheme + "://" + "" + ":" == p;
  }

  lemma NoBrace(s: string)
    requires '{' !in s
    ensures NamesNoUser(s)
  {
  }

  lemma PlaceholdersNameNoUser()
    ensures NamesNoUser("{password}") && NamesNoUser("@") && NamesNoUser("{host}")
    ensures NamesNoUser(":" + "{port}" + "")
  {
    NamesNoUserConcat(":", "{port}");
    NamesNoUserConcat(":" + "{port}", "");
  }

  lemma TemplateNamesNoUser(p: string, w: string, d: string, h: string, q: string)
    requires NamesNoUser(p) && NamesNoUser(w) && NamesNoUser(d) && NamesNoUser(h) && NamesNoUser(q)
    ensures NamesNoUser(p + w + d + h + q)
  {
    NamesNoUserConcat(p, w);
    NamesNoUserConcat(p + w, d);
    NamesNoUserConcat(p + w + d, h);
    NamesNoUserConcat(p + w + d + h, q);
  }

  /** The same law for the template without a user. */
  lemma UserlessRoundTripIff(scheme: string, v: Values)
    requires IsScheme(scheme) && '{' !in v.host && '$' !in v.host
    ensures Extract(Build(UserlessTemplate(scheme), v)) == Ok(v.password)
        <==> v.password != "" && '@' !in Authority(v.host)
  {
    UserlessHead(scheme, v);
    var r := FillPlainHost(Credentials(scheme, "", v.password), "", v);
    ReadPlainHost(scheme, "", r, v);
  }

  /** The whole string without a user. */
  lemma UserlessBuildIs(scheme: string, v: Values)
    requires IsScheme(scheme) && '{' !in v.host && '$' !in v.host
    ensures Build(scheme + "://" + ":" + "{password}" + "@" + "{host}" + (":" + "{port}" + ""), v)
         == scheme + "://" + ":" + Encode(v.password) + "@" + v.host + ":" + ShowNat(v.port)
  {
    var p, whole := Credentials(scheme, "", v.password), v.host + ":" + ShowNat(v.port);
    UserlessHead(scheme, v);
    FillWhole(p, "", v, "");
    assert scheme + "://" + "" + ":" == scheme + "://" + ":";
    assert p + v.host + ":" + ShowNat(v.port) + "" == p + v.host + ":" + ShowNat(v.port);
  }

  /** The same for the hosts that occur: those that pass the agent's rule. */
  lemma UserlessContainerRoundTripIff(scheme: string, v: Values)
    requires IsScheme(scheme) && ContainerName.AgentAccepts(v.host)
    ensures Extract(Build(UserlessTemplate(scheme), v)) == Ok(v.password) <==> v.password != ""
  {
    AgentNameIsPlain(v.host);
    UserlessRoundTripIff(scheme, v);
  }

  lemma UserlessDatabaseRoundTripIff(scheme: string, lower: string -> string, id: string, v: Values)
    requires IsScheme(scheme) && v.host == ContainerName.Name(lower, id, 60)
    ensures Extract(Build(UserlessTemplate(scheme), v)) == Ok(v.password) <==> v.password != ""
  {
    ContainerName.NameAccepted(lower, id);
    UserlessContainerRoundTripIff(scheme, v);
  }
}
