/** Certificates in PEM (agent/ploydok-agent/src/pki.rs): a minimal base64 decoder on `u8` shifts. */
module Pem {
  import opened Bits
  import opened Sequences
  import opened Text

  // ----- The decoding table ---------------------------------------------------------------

  /** The table entry of an alphabet character; -1 stands for 0x80, for `=` and for bytes beyond the table. */
  function SixBits(c: char): (v: int)
    ensures -1 <= v < 64
  {
    if 'A' <= c <= 'Z' then (c - 'A') as int
    else if 'a' <= c <= 'z' then (c - 'a') as int + 26
    else if '0' <= c <= '9' then (c - '0') as int + 52
    else if c == '+' then 62
    else if c == '/' then 63
    else -1
  }

  /** The standard alphabet of section 4 of RFC 4648. */
  function Letter(v: nat): (c: char)
    requires v < 64
    ensures SixBits(c) == v
  {
    if v < 26 then 'A' + v as char
    else if v < 52 then 'a' + (v - 26) as char
    else if v < 62 then '0' + (v - 52) as char
    else if v == 62 then '+' else '/'
  }

  const UPPER: string := "ABCDEFGHIJKLMNOPQRSTUVWXYZ"
  const LOWER: string := "abcdefghijklmnopqrstuvwxyz"
  const DIGITS: string := "0123456789"

  lemma LetterIsAlphabet(v: nat)
    requires v < 64
    ensures |UPPER| == 26 && |LOWER| == 26 && |DIGITS| == 10
    ensures Letter(v) == if v < 26 then UPPER[v] else if v < 52 then LOWER[v - 26]
                         else if v < 62 then DIGITS[v - 52] else "+/"[v - 62]
  {
  }

  /** `filter` and `map` of the decoder. */
  function Symbols(s: string): (vs: seq<nat>)
    ensures forall i | 0 <= i < |vs| :: vs[i] < 64
  {
    if s == "" then [] else Symbol(s[0]) + Symbols(s[1..])
  }

  function Symbol(c: char): (vs: seq<nat>)
    ensures forall i | 0 <= i < |vs| :: vs[i] < 64
  {
    if SixBits(c) == -1 then [] else [SixBits(c)]
  }

  // ----- One chunk of four symbols ------------------------------------------------------------

  /** `(a << m) | b` on `u8` */
  function ShiftOr8(a: nat, m: nat, b: nat): nat {
    Or(Shl(a, m) % 256, b)
  }

  /** The bytes pushed for one chunk. */
  function ChunkBytes(chunk: seq<nat>): seq<nat>
    requires |chunk| <= 4
  {
    if |chunk| < 2 then []
    else
      [ShiftOr8(chunk[0], 2, Shr(chunk[1], 4))] +
      (if |chunk| < 3 then [] else
       [ShiftOr8(chunk[1], 4, Shr(chunk[2], 2))] +
       (if |chunk| < 4 then [] else [ShiftOr8(chunk[2], 6, chunk[3])]))
  }

  function DecodeSymbols(vs: seq<nat>): seq<nat> {
    if |vs| <= 4 then ChunkBytes(vs) else ChunkBytes(vs[..4]) + DecodeSymbols(vs[4..])
  }

  lemma DecodeStep(vs: seq<nat>, chunk: seq<nat>)
    requires chunk == if |vs| <= 4 then vs else vs[..4]
    ensures DecodeSymbols(vs) == ChunkBytes(chunk) + DecodeSymbols(vs[|chunk|..])
  {
    if |vs| <= 4 {
      assert vs[|vs|..] == [];
      assert ChunkBytes([]) == [];
    }
  }

  lemma ChunkOf(vs: seq<nat>, p: nat, chunk: seq<nat>)
    requires p <= |vs| && chunk == vs[p..if p + 4 <= |vs| then p + 4 else |vs|]
    ensures var rest := vs[p..];
            chunk == (if |rest| <= 4 then rest else rest[..4]) && rest[|chunk|..] == vs[p + |chunk|..]
  {
  }

  lemma NextChunk(vs: seq<nat>, p: nat, chunk: seq<nat>, out: seq<nat>)
    requires p <= |vs|
    requires chunk == vs[p..if p + 4 <= |vs| then p + 4 else |vs|]
    ensures out + DecodeSymbols(vs[p..]) == out + ChunkBytes(chunk) + DecodeSymbols(vs[p + |chunk|..])
    ensures |chunk| < 2 ==> out + DecodeSymbols(vs[p..]) == out
  {
    ChunkOf(vs, p, chunk);
    DecodeStep(vs[p..], chunk);
    ConcatAssociates(out, ChunkBytes(chunk), DecodeSymbols(vs[p + |chunk|..]));
    if |chunk| < 2 {
      assert vs[p..] == chunk;
      assert out + [] == out;
    }
  }

  /** The body of the loop over chunks. */
  method PushChunk(chunk: seq<nat>, before: seq<nat>) returns (out: seq<nat>)
    requires 2 <= |chunk| <= 4
    ensures out == before + ChunkBytes(chunk)
  {
    out := before + [ShiftOr8(chunk[0], 2, Shr(chunk[1], 4))];
    if |chunk| > 2 {
      out := out + [ShiftOr8(chunk[1], 4, Shr(chunk[2], 2))];
      if |chunk| > 3 {
        out := out + [ShiftOr8(chunk[2], 6, chunk[3])];
      }
    }
  }

  /** The loop of `decode_base64` over chunks of four. */
  method DecodeChunks(vs: seq<nat>) returns (out: seq<nat>)
    ensures out == DecodeSymbols(vs)
  {
    out := [];
    var p := 0;
    DecodeFromStart(vs);
    while p < |vs|
      invariant 0 <= p <= |vs|
      invariant out + DecodeSymbols(vs[p..]) == DecodeSymbols(vs)
    {
      var chunk := vs[p..if p + 4 <= |vs| then p + 4 else |vs|];
      NextChunk(vs, p, chunk, out);
      if |chunk| < 2 {
        break;
      }
      out := PushChunk(chunk, out);
      p := p + |chunk|;
    }
    if p == |vs| {
      DecodeAtEnd(vs, out);
    }
  }

  lemma DecodeFromStart(vs: seq<nat>)
    ensures [] + DecodeSymbols(vs[0..]) == DecodeSymbols(vs)
  {
    assert vs[0..] == vs;
  }

  lemma DecodeAtEnd(vs: seq<nat>, out: seq<nat>)
    ensures out + DecodeSymbols(vs[|vs|..]) == out
  {
    assert vs[|vs|..] == [];
  }

  /** `decode_base64` */
  method DecodeBase64(input: string) returns (out: seq<nat>)
    ensures out == Decoded(input)
  {
    out := DecodeChunks(Symbols(input));
    DecodeSymbolsIsWhole(Symbols(input));
  }

  /** The bytes in the bit string of the symbols. */
  function Decoded(s: string): seq<nat> {
    Whole(Concat(Symbols(s), 6), 8)
  }

  /** Which bits one pushed byte holds: the low `8 - m` bits of `a`, then `b`. */
  lemma ShiftOr8Bits(a: nat, m: nat, b: nat)
    requires m <= 8 && b < Pow2(m)
    ensures ToBits(ShiftOr8(a, m, b), 8) == ToBits(a, 8 - m) + ToBits(b, m)
    ensures ShiftOr8(a, m, b) < 256
  {
    assert Pow2(8) == 256;
    AppendBitsWrapped(a, 8 - m, b, m, 8);
    Pow2Grows(m, 8);
    OrFits(Shl(a, m) % 256, b, 8);
  }

  lemma {:induction false} Pow2Grows(m: nat, n: nat)
    requires m <= n
    ensures Pow2(m) <= Pow2(n)
    decreases n
  {
    if m < n {
      Pow2Grows(m, n - 1);
    }
  }

  lemma {:induction false} ShrFits(v: nat, n: nat, m: nat)
    requires v < Pow2(n + m)
    ensures Shr(v, m) < Pow2(n)
  {
    if m > 0 {
      ShrFits(v / 2, n, m - 1);
    }
  }

  /** The bits of the three bytes of a chunk, in terms of the six-bit symbols. */
  lemma ChunkBits(a: nat, b: nat, c: nat, d: nat)
    requires a < 64 && b < 64 && c < 64 && d < 64
    ensures ToBits(ShiftOr8(a, 2, Shr(b, 4)), 8) + ToBits(b, 4) == ToBits(a, 6) + ToBits(b, 6)
    ensures ToBits(ShiftOr8(b, 4, Shr(c, 2)), 8) + ToBits(c, 2) == ToBits(b, 4) + ToBits(c, 6)
    ensures ToBits(ShiftOr8(c, 6, d), 8) == ToBits(c, 2) + ToBits(d, 6)
    ensures ShiftOr8(a, 2, Shr(b, 4)) < 256 && ShiftOr8(b, 4, Shr(c, 2)) < 256 && ShiftOr8(c, 6, d) < 256
  {
    assert Pow2(6) == 64;
    ShrFits(b, 2, 4);
    ShrFits(c, 4, 2);
    ShiftOr8Bits(a, 2, Shr(b, 4));
    ShiftOr8Bits(b, 4, Shr(c, 2));
    ShiftOr8Bits(c, 6, d);
    SplitBits(b, 2, 4);
    SplitBits(c, 4, 2);
    ConcatAssociates(ToBits(a, 6), ToBits(Shr(b, 4), 2), ToBits(b, 4));
    ConcatAssociates(ToBits(b, 4), ToBits(Shr(c, 2), 4), ToBits(c, 2));
  }

  lemma Concat2(a: nat, b: nat, w: nat)
    ensures Concat([a], w) == ToBits(a, w)
    ensures Concat([a, b], w) == ToBits(a, w) + ToBits(b, w)
  {
    ConcatSnoc([], a, w);
    assert [] + [a] == [a] && Concat([], w) + ToBits(a, w) == ToBits(a, w);
    ConcatSnoc([a], b, w);
    assert [a] + [b] == [a, b];
  }

  lemma Concat3(a: nat, b: nat, c: nat, w: nat)
    ensures Concat([a, b, c], w) == ToBits(a, w) + ToBits(b, w) + ToBits(c, w)
  {
    Concat2(a, b, w);
    ConcatSnoc([a, b], c, w);
    assert [a, b] + [c] == [a, b, c];
  }

  lemma Concat4(a: nat, b: nat, c: nat, d: nat, w: nat)
    ensures Concat([a, b, c, d], w) == ToBits(a, w) + ToBits(b, w) + ToBits(c, w) + ToBits(d, w)
  {
    Concat3(a, b, c, w);
    ConcatSnoc([a, b, c], d, w);
    assert [a, b, c] + [d] == [a, b, c, d];
  }

  predicate Symbolic(vs: seq<nat>) {
    forall i | 0 <= i < |vs| :: vs[i] < 64
  }

  /** A full chunk loses no bit. */
  lemma FullChunk(chunk: seq<nat>)
    requires |chunk| == 4 && Symbolic(chunk)
    ensures Concat(ChunkBytes(chunk), 8) == Concat(chunk, 6) && Fit(ChunkBytes(chunk), 8)
  {
    assert chunk == [chunk[0], chunk[1], chunk[2], chunk[3]];
    FourSymbols(chunk[0], chunk[1], chunk[2], chunk[3]);
  }

  lemma FourSymbols(a: nat, b: nat, c: nat, d: nat)
    requires a < 64 && b < 64 && c < 64 && d < 64
    ensures var out := [ShiftOr8(a, 2, Shr(b, 4)), ShiftOr8(b, 4, Shr(c, 2)), ShiftOr8(c, 6, d)];
            ChunkBytes([a, b, c, d]) == out && Concat(out, 8) == Concat([a, b, c, d], 6) && Fit(out, 8)
  {
    var x, y, z := ShiftOr8(a, 2, Shr(b, 4)), ShiftOr8(b, 4, Shr(c, 2)), ShiftOr8(c, 6, d);
    assert Pow2(8) == 256;
    ChunkBits(a, b, c, d);
    Concat3(x, y, z, 8);
    Concat4(a, b, c, d, 6);
    JoinFour(ToBits(a, 6), ToBits(b, 6), ToBits(c, 6), ToBits(d, 6),
             ToBits(x, 8), ToBits(y, 8), ToBits(z, 8), ToBits(b, 4), ToBits(c, 2));
  }

  lemma JoinFour(a: seq<bool>, b: seq<bool>, c: seq<bool>, d: seq<bool>,
                 x: seq<bool>, y: seq<bool>, z: seq<bool>, b': seq<bool>, c': seq<bool>)
    requires x + b' == a + b && y + c' == b' + c && z == c' + d
    ensures x + y + z == a + b + c + d
  {
    calc {
      x + y + z;
      x + (y + c') + d;
      x + (b' + c) + d;
      (x + b') + c + d;
      a + b + c + d;
    }
  }

  /** The last chunk yields its whole bytes. */
  lemma LastChunk(chunk: seq<nat>)
    requires |chunk| <= 4 && Symbolic(chunk)
    ensures ChunkBytes(chunk) == Whole(Concat(chunk, 6), 8)
  {
    assert Pow2(8) == 256;
    if |chunk| == 0 {
    } else if |chunk| == 1 {
      Concat2(chunk[0], 0, 6);
      assert chunk == [chunk[0]];
    } else if |chunk| == 2 {
      LastTwo(chunk[0], chunk[1]);
      assert chunk == [chunk[0], chunk[1]];
    } else if |chunk| == 3 {
      LastThree(chunk[0], chunk[1], chunk[2]);
      assert chunk == [chunk[0], chunk[1], chunk[2]];
    } else {
      FullChunk(chunk);
      WholeOfConcat(ChunkBytes(chunk), 8, []);
      assert Concat(chunk, 6) + [] == Concat(chunk, 6);
    }
  }

  lemma LastTwo(a: nat, b: nat)
    requires a < 64 && b < 64
    ensures ChunkBytes([a, b]) == Whole(Concat([a, b], 6), 8)
  {
    var x := ShiftOr8(a, 2, Shr(b, 4));
    assert Pow2(8) == 256;
    ChunkBits(a, b, 0, 0);
    Concat2(a, b, 6);
    Concat2(x, 0, 8);
    WholeOfConcat([x], 8, ToBits(b, 4));
  }

  lemma LastThree(a: nat, b: nat, c: nat)
    requires a < 64 && b < 64 && c < 64
    ensures ChunkBytes([a, b, c]) == Whole(Concat([a, b, c], 6), 8)
  {
    var x, y := ShiftOr8(a, 2, Shr(b, 4)), ShiftOr8(b, 4, Shr(c, 2));
    assert Pow2(8) == 256;
    ChunkBits(a, b, c, 0);
    Concat3(a, b, c, 6);
    Concat2(x, y, 8);
    calc {
      Concat([a, b, c], 6);
      ToBits(a, 6) + ToBits(b, 6) + ToBits(c, 6);
      ToBits(x, 8) + ToBits(b, 4) + ToBits(c, 6);
      { ConcatAssociates(ToBits(x, 8), ToBits(b, 4), ToBits(c, 6)); }
      ToBits(x, 8) + (ToBits(y, 8) + ToBits(c, 2));
      { ConcatAssociates(ToBits(x, 8), ToBits(y, 8), ToBits(c, 2)); }
      Concat([x, y], 8) + ToBits(c, 2);
    }
    WholeOfConcat([x, y], 8, ToBits(c, 2));
  }

  /** Chunk by chunk, the decoder yields the whole bytes of the bit string of the symbols. */
  lemma {:induction false} DecodeSymbolsIsWhole(vs: seq<nat>)
    requires Symbolic(vs)
    ensures DecodeSymbols(vs) == Whole(Concat(vs, 6), 8)
  {
    if |vs| <= 4 {
      LastChunk(vs);
    } else {
      FullChunk(vs[..4]);
      DecodeSymbolsIsWhole(vs[4..]);
      ConcatAppend(vs[..4], vs[4..], 6);
      assert vs[..4] + vs[4..] == vs;
      WholeAppend(ChunkBytes(vs[..4]), 8, Concat(vs[4..], 6));
    }
  }

  // ----- Round trip of base64 --------------------------------------------------------------

  function Letters(vs: seq<nat>): string
    requires Symbolic(vs)
  {
    if vs == [] then "" else [Letter(vs[0])] + Letters(vs[1..])
  }

  /** Section 4 of RFC 4648, before padding. */
  function Encoded(bytes: seq<Byte>): string {
    GroupsFit(Concat(bytes, 8), 6);
    assert Pow2(6) == 64;
    Letters(Groups(Concat(bytes, 8), 6))
  }

  /** The characters of a text that the decoder does not skip. */
  function Alphabetic(s: string): string {
    if s == "" then "" else Kept(s[0]) + Alphabetic(s[1..])
  }

  function Kept(c: char): string {
    if SixBits(c) == -1 then "" else [c]
  }

  lemma {:induction false} SymbolsOfAlphabetic(s: string)
    ensures Symbols(Alphabetic(s)) == Symbols(s)
  {
    if s != "" {
      SymbolsOfAlphabetic(s[1..]);
      var t := Alphabetic(s);
      if SixBits(s[0]) == -1 {
        assert t == Alphabetic(s[1..]);
      } else {
        assert t[0] == s[0] && t[1..] == Alphabetic(s[1..]);
      }
    }
  }

  lemma {:induction false} SymbolsOfLetters(vs: seq<nat>)
    requires Symbolic(vs)
    ensures Symbols(Letters(vs)) == vs && Alphabetic(Letters(vs)) == Letters(vs)
  {
    if vs != [] {
      SymbolsOfLetters(vs[1..]);
      var t := Letters(vs);
      assert t[0] == Letter(vs[0]) && t[1..] == Letters(vs[1..]);
    }
  }

  /**
   A text decodes to the bytes whose encoding its alphabet characters spell, wherever padding, line breaks and
   other characters stand between them.
   */
  lemma DecodedInverts(bytes: seq<Byte>, text: string)
    requires Alphabetic(text) == Encoded(bytes)
    ensures Decoded(text) == bytes
  {
    SymbolsOfAlphabetic(text);
    GroupsFit(Concat(bytes, 8), 6);
    assert Pow2(6) == 64;
    SymbolsOfLetters(Groups(Concat(bytes, 8), 6));
    Regroup(bytes, 6);
  }

  // ----- PEM ---------------------------------------------------------------------------------

  const BOUNDARY: string := "-----"

  /** `str::lines`: cut at line feeds, without a carriage return before them, and without an empty last line. */
  function Lines(s: string): seq<string> {
    if s == "" then []
    else
      var i := IndexOf(s, '\n');
      if i == -1 then [s] else [WithoutCr(s[..i])] + Lines(s[i + 1..])
  }

  function WithoutCr(line: string): string {
    if line != "" && line[|line| - 1] == '\r' then line[..|line| - 1] else line
  }

  /** The lines that do not start with dashes, joined. */
  function Body(lines: seq<string>): string {
    if lines == [] then ""
    else if BOUNDARY <= lines[0] then Body(lines[1..])
    else lines[0] + Body(lines[1..])
  }

  /** `extract_der_from_pem` */
  function ExtractDer(pem: string): seq<nat> {
    Decoded(Body(Lines(pem)))
  }

  /** A line and how it ends. */
  datatype Line = Line(text: string, crlf: bool)

  predicate OneLine(l: Line) {
    '\n' !in l.text && '\r' !in l.text
  }

  function Render(lines: seq<Line>): string {
    if lines == [] then ""
    else lines[0].text + Ending(lines[0]) + Render(lines[1..])
  }

  function Ending(l: Line): string {
    if l.crlf then "\r\n" else "\n"
  }

  function Texts(lines: seq<Line>): seq<string> {
    seq(|lines|, i requires 0 <= i < |lines| => lines[i].text)
  }

  lemma {:induction false} LinesOfRender(lines: seq<Line>)
    requires forall l <- lines :: OneLine(l)
    ensures Lines(Render(lines)) == Texts(lines)
  {
    if lines != [] {
      var l, rest := lines[0], lines[1..];
      calc {
        Lines(Render(lines));
        Lines(l.text + Ending(l) + Render(rest));
        { FirstLine(l, Render(rest)); }
        [l.text] + Lines(Render(rest));
        { LinesOfRender(rest); }
        [l.text] + Texts(rest);
        { TextsCons(lines); }
        Texts(lines);
      }
    }
  }

  lemma TextsCons(lines: seq<Line>)
    requires lines != []
    ensures Texts(lines) == [lines[0].text] + Texts(lines[1..])
  {
  }

  lemma FirstLine(l: Line, rest: string)
    requires OneLine(l)
    ensures Lines(l.text + Ending(l) + rest) == [l.text] + Lines(rest)
  {
    var raw := l.text + (if l.crlf then "\r" else "");
    var s := raw + ['\n'] + rest;
    assert l.text + Ending(l) + rest == s;
    IndexAfter(raw, '\n', rest);
    assert s[..|raw|] == raw && s[|raw| + 1..] == rest;
    assert WithoutCr(raw) == l.text;
  }

  /**
   Extracting gives back the bytes of a PEM text: any lines between dashes around any
   lines that spell the base64 of the bytes, with either line ending.
   */
  lemma ExtractInverts(der: seq<Byte>, lines: seq<Line>)
    requires forall l <- lines :: OneLine(l)
    requires Alphabetic(Body(Texts(lines))) == Encoded(der)
    ensures ExtractDer(Render(lines)) == der
  {
    LinesOfRender(lines);
    DecodedInverts(der, Body(Texts(lines)));
  }

  /** The textual encoding of section 2 of RFC 7468: the base64, padded and broken anywhere, between two boundaries. */
  lemma PemRoundTrip(der: seq<Byte>, header: Line, body: seq<Line>, footer: Line, padding: string)
    requires OneLine(header) && OneLine(footer) && "-----" <= header.text && "-----" <= footer.text
    requires forall l <- body :: OneLine(l) && !("-----" <= l.text)
    requires Joined(body) == Encoded(der) + padding && Alphabetic(padding) == ""
    ensures ExtractDer(Render([header] + body + [footer])) == der
  {
    var lines := [header] + body + [footer];
    BodyBetween(header, body, footer);
    SymbolsOfEncoded(der, padding);
    ExtractInverts(der, lines);
  }

  function Joined(body: seq<Line>): string {
    if body == [] then "" else body[0].text + Joined(body[1..])
  }

  lemma {:induction false} BodyOf(body: seq<Line>, footer: Line)
    requires BOUNDARY <= footer.text && forall l <- body :: !(BOUNDARY <= l.text)
    ensures Body(Texts(body + [footer])) == Joined(body)
  {
    if body == [] {
      assert Texts([footer])[1..] == [];
      assert Texts(body + [footer]) == [footer.text];
    } else {
      BodyOf(body[1..], footer);
      assert Texts(body + [footer])[1..] == Texts(body[1..] + [footer]);
    }
  }

  lemma BodyBetween(header: Line, body: seq<Line>, footer: Line)
    requires BOUNDARY <= header.text && BOUNDARY <= footer.text && forall l <- body :: !(BOUNDARY <= l.text)
    ensures Body(Texts([header] + body + [footer])) == Joined(body)
  {
    BodyOf(body, footer);
    assert Texts([header] + body + [footer])[1..] == Texts(body + [footer]);
  }

  lemma {:induction false} AlphabeticAppend(a: string, b: string)
    ensures Alphabetic(a + b) == Alphabetic(a) + Alphabetic(b)
  {
    if a == "" {
      assert a + b == b && "" + Alphabetic(b) == Alphabetic(b);
    } else {
      calc {
        Alphabetic(a + b);
        { assert (a + b)[0] == a[0] && (a + b)[1..] == a[1..] + b; }
        Kept(a[0]) + Alphabetic(a[1..] + b);
        { AlphabeticAppend(a[1..], b); }
        Kept(a[0]) + (Alphabetic(a[1..]) + Alphabetic(b));
        { ConcatAssociates(Kept(a[0]), Alphabetic(a[1..]), Alphabetic(b)); }
        Alphabetic(a) + Alphabetic(b);
      }
    }
  }

  lemma SymbolsOfEncoded(der: seq<Byte>, padding: string)
    requires Alphabetic(padding) == ""
    ensures Alphabetic(Encoded(der) + padding) == Encoded(der)
  {
    AlphabeticAppend(Encoded(der), padding);
    GroupsFit(Concat(der, 8), 6);
    assert Pow2(6) == 64;
    SymbolsOfLetters(Groups(Concat(der, 8), 6));
  }
}
