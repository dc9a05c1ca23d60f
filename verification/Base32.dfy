/** Base32 of TOTP secrets (apps/api/src/auth/totp.ts). */
module Base32 {
  import opened Wrappers
  import opened Bits
  import opened Sequences
  import opened Text

  const ALPHABET: string := "ABCDEFGHIJKLMNOPQRSTUVWXYZ234567"

  /** `ALPHABET[v]` */
  function Letter(v: nat): char
    requires v < 32
  {
    if v < 26 then 'A' + v as char else '2' + (v - 26) as char
  }

  /** `ALPHABET.indexOf(c)` */
  function LetterIndex(c: char): (v: int)
    ensures -1 <= v < 32
    ensures v >= 0 ==> Letter(v) == c
    ensures v == -1 ==> forall u: nat | u < 32 :: Letter(u) != c
  {
    if 'A' <= c <= 'Z' then (c - 'A') as int
    else if '2' <= c <= '7' then (c - '2') as int + 26
    else -1
  }

  lemma LetterIsAlphabet(v: nat)
    requires v < 32
    ensures |ALPHABET| == 32 && Letter(v) == ALPHABET[v] && LetterIndex(Letter(v)) == v
  {
  }

  /** A 32-bit word keeps the value modulo 2^32. */
  function Wrap32(v: nat): nat {
    v % 0x1_0000_0000
  }

  lemma WordSize()
    ensures Pow2(32) == 0x1_0000_0000
  {
    EightMore(0);
    EightMore(8);
    EightMore(16);
    EightMore(24);
  }

  lemma EightMore(n: nat)
    ensures Pow2(n + 8) == 256 * Pow2(n)
  {
    assert Pow2(n + 2) == 4 * Pow2(n);
    assert Pow2(n + 4) == 4 * Pow2(n + 2);
    assert Pow2(n + 6) == 4 * Pow2(n + 4);
    assert Pow2(n + 8) == 4 * Pow2(n + 6);
  }

  /** `(value << w) | v` in a 32-bit word. */
  function ShiftIn(value: nat, w: nat, v: nat): nat {
    Or(Wrap32(Shl(value, w)), v)
  }

  /** `(value >>> bits) & 0x1f` */
  function Mask5(value: nat, bits: nat): (r: nat)
    ensures r < 32
  {
    Shr(value, bits) % 32
  }

  /** `(value >>> bits) & 0xff` */
  function Mask8(value: nat, bits: nat): (r: nat)
    ensures r < 256
  {
    Shr(value, bits) % 256
  }

  /** `(value << (5 - bits)) & 0x1f` */
  function FillUp(value: nat, bits: nat): (r: nat)
    requires bits <= 5
    ensures r < 32
  {
    Wrap32(Shl(value, 5 - bits)) % 32
  }

  /** Section 6 of RFC 4648, without padding: five-bit groups of the bit string, as letters. */
  function Encoded(bytes: seq<Byte>): string {
    GroupsFit(Concat(bytes, 8), 5);
    Letters(Groups(Concat(bytes, 8), 5))
  }

  function Letters(vs: seq<nat>): (s: string)
    requires Fit(vs, 5)
    ensures |s| == |vs|
  {
    if vs == [] then "" else Letters(vs[..|vs| - 1]) + [Letter(vs[|vs| - 1])]
  }

  lemma LettersSnoc(vs: seq<nat>, v: nat)
    requires Fit(vs, 5) && v < 32
    ensures Fit(vs + [v], 5) && Letters(vs + [v]) == Letters(vs) + [Letter(v)]
  {
    assert (vs + [v])[..|vs|] == vs;
  }

  /**
   The emitted groups of `u` bits and the pending bits of the accumulator are the bits of the groups of
   `w` bits read so far.
   */
  ghost predicate Accounted(ins: seq<nat>, w: nat, outs: seq<nat>, u: nat, value: nat, bits: nat) {
    Fit(outs, u) && Concat(ins, w) == Concat(outs, u) + ToBits(value, bits)
  }

  /** Shifting a group into the word appends its bits to the pending ones. */
  lemma AccountIn(ins: seq<nat>, w: nat, outs: seq<nat>, u: nat, value: nat, bits: nat, b: nat)
    requires b < Pow2(w) && bits + w <= 32 && Accounted(ins, w, outs, u, value, bits)
    ensures Accounted(ins + [b], w, outs, u, ShiftIn(value, w, b), bits + w)
  {
    calc {
      Concat(ins + [b], w);
      { ConcatSnoc(ins, b, w); }
      Concat(outs, u) + ToBits(value, bits) + ToBits(b, w);
      { ConcatAssociates(Concat(outs, u), ToBits(value, bits), ToBits(b, w)); }
      Concat(outs, u) + (ToBits(value, bits) + ToBits(b, w));
      { AppendBitsWrapped(value, bits, b, w, 32); WordSize(); }
      Concat(outs, u) + ToBits(ShiftIn(value, w, b), bits + w);
    }
  }

  /** Masking the top pending bits out of the word emits a group. */
  lemma AccountOut(ins: seq<nat>, w: nat, outs: seq<nat>, u: nat, value: nat, bits: nat, group: nat)
    requires u <= bits && Accounted(ins, w, outs, u, value, bits)
    requires group == Shr(value, bits - u) % Pow2(u)
    ensures Accounted(ins, w, outs + [group], u, value, bits - u)
  {
    var rest := bits - u;
    calc {
      Concat(ins, w);
      Concat(outs, u) + ToBits(value, bits);
      { SplitBits(value, u, rest); assert u + rest == bits; }
      Concat(outs, u) + (ToBits(Shr(value, rest), u) + ToBits(value, rest));
      { WrapKeepsBits(Shr(value, rest), u, u); }
      Concat(outs, u) + (ToBits(group, u) + ToBits(value, rest));
      { ConcatAssociates(Concat(outs, u), ToBits(group, u), ToBits(value, rest)); }
      Concat(outs, u) + ToBits(group, u) + ToBits(value, rest);
      { ConcatSnoc(outs, group, u); }
      Concat(outs + [group], u) + ToBits(value, rest);
    }
  }

  lemma EmitSymbol(ins: seq<nat>, outs: seq<nat>, value: nat, bits: nat, symbol: nat)
    requires 5 <= bits && Accounted(ins, 8, outs, 5, value, bits)
    requires symbol == Mask5(value, bits - 5)
    ensures Accounted(ins, 8, outs + [symbol], 5, value, bits - 5)
    ensures Letters(outs + [symbol]) == Letters(outs) + [Letter(symbol)]
  {
    assert Pow2(5) == 32;
    AccountOut(ins, 8, outs, 5, value, bits, symbol);
    LettersSnoc(outs, symbol);
  }

  lemma EmitByte(ins: seq<nat>, outs: seq<nat>, value: nat, bits: nat, byte: nat)
    requires 8 <= bits && Accounted(ins, 5, outs, 8, value, bits)
    requires byte == Mask8(value, bits - 8)
    ensures Accounted(ins, 5, outs + [byte], 8, value, bits - 8)
  {
    assert Pow2(8) == 256;
    AccountOut(ins, 5, outs, 8, value, bits, byte);
  }

  /** The last symbol holds the pending bits and zeros. */
  lemma LastSymbol(value: nat, bits: nat)
    requires bits < 5
    ensures ToBits(FillUp(value, bits), 5) == ToBits(value, bits) + ToBits(0, 5 - bits)
  {
    var m := 5 - bits;
    assert Pow2(5) == 32;
    WordSize();
    WrapKeepsBits(Wrap32(Shl(value, m)), 5, 5);
    AppendBitsWrapped(value, bits, 0, m, 32);
    assert Or(Wrap32(Shl(value, m)), 0) == Wrap32(Shl(value, m));
  }

  lemma {:induction false} ZeroBits(w: nat)
    ensures Zeros(ToBits(0, w))
  {
    if w > 0 {
      ZeroBits(w - 1);
    }
  }

  /** What has been written when no bits are pending. */
  lemma EncodeDone(bytes: seq<nat>, vs: seq<nat>, value: nat)
    requires Accounted(bytes, 8, vs, 5, value, 0)
    ensures vs == Groups(Concat(bytes, 8), 5) && |vs| == (8 * |bytes| + 4) / 5
  {
    assert Concat(vs, 5) + ToBits(value, 0) == Concat(vs, 5);
    assert Concat(bytes, 8) + [] == Concat(bytes, 8);
    GroupsOfConcat(vs, 5, Concat(bytes, 8), []);
    ConcatLength(vs, 5);
    ConcatLength(bytes, 8);
  }

  /** What has been written, together with the padded last symbol. */
  lemma EncodeDonePadded(bytes: seq<nat>, vs: seq<nat>, value: nat, bits: nat, all: seq<nat>)
    requires 0 < bits < 5 && Accounted(bytes, 8, vs, 5, value, bits) && all == vs + [FillUp(value, bits)]
    ensures all == Groups(Concat(bytes, 8), 5)
  {
    PaddedBits(bytes, vs, value, bits);
    PaddedGroups(Concat(bytes, 8), all, 5 - bits);
  }

  lemma PaddedGroups(input: seq<bool>, all: seq<nat>, m: nat)
    requires m < 5 && Fit(all, 5) && Concat(all, 5) == input + ToBits(0, m)
    ensures all == Groups(input, 5)
  {
    ZeroBits(m);
    GroupsOfConcat(all, 5, input, ToBits(0, m));
  }

  lemma PaddedBits(bytes: seq<nat>, vs: seq<nat>, value: nat, bits: nat)
    requires 0 < bits < 5 && Accounted(bytes, 8, vs, 5, value, bits)
    ensures var all := vs + [FillUp(value, bits)];
            Fit(all, 5) && Concat(all, 5) == Concat(bytes, 8) + ToBits(0, 5 - bits)
  {
    var last := FillUp(value, bits);
    LettersSnoc(vs, last);
    LastSymbol(value, bits);
    ConcatSnoc(vs, last, 5);
    ConcatAssociates(Concat(vs, 5), ToBits(value, bits), ToBits(0, 5 - bits));
  }

  lemma PaddedLength(bytes: seq<nat>, vs: seq<nat>, value: nat, bits: nat)
    requires 0 < bits < 5 && Accounted(bytes, 8, vs, 5, value, bits)
    ensures |vs| + 1 == (8 * |bytes| + 4) / 5
  {
    ConcatLength(vs, 5);
    ConcatLength(bytes, 8);
  }

  /** The variables of the two loops: the word, the number of pending bits, what was emitted. */
  datatype Word = Word(value: nat, bits: nat, out: seq<nat>)

  /** The inner loop of the encoder. */
  function Drain(w: Word): Word
    decreases w.bits
  {
    if w.bits < 5 then w
    else Drain(Word(w.value, w.bits - 5, w.out + [Mask5(w.value, w.bits - 5)]))
  }

  /** The outer loop of the encoder. */
  function EncodeFold(buf: seq<Byte>): Word {
    if buf == [] then Word(0, 0, [])
    else
      var w := EncodeFold(buf[..|buf| - 1]);
      Drain(Word(ShiftIn(w.value, 8, buf[|buf| - 1]), w.bits + 8, w.out))
  }

  ghost predicate Emits5(ins: seq<nat>, w: Word) {
    Accounted(ins, 8, w.out, 5, w.value, w.bits)
  }

  lemma {:induction false} DrainAccounts(ins: seq<nat>, w: Word)
    requires Emits5(ins, w)
    ensures Emits5(ins, Drain(w)) && Drain(w).bits < 5
    decreases w.bits
  {
    if w.bits >= 5 {
      EmitSymbol(ins, w.out, w.value, w.bits, Mask5(w.value, w.bits - 5));
      DrainAccounts(ins, Word(w.value, w.bits - 5, w.out + [Mask5(w.value, w.bits - 5)]));
    }
  }

  lemma {:induction false} EncodeFoldAccounts(buf: seq<Byte>)
    ensures Emits5(buf, EncodeFold(buf)) && EncodeFold(buf).bits < 5
  {
    if buf != [] {
      var n := |buf| - 1;
      EncodeFoldAccounts(buf[..n]);
      var w := EncodeFold(buf[..n]);
      assert Pow2(8) == 256;
      AccountIn(buf[..n], 8, w.out, 5, w.value, w.bits, buf[n]);
      assert buf == buf[..n] + [buf[n]];
      DrainAccounts(buf, Word(ShiftIn(w.value, 8, buf[n]), w.bits + 8, w.out));
    }
  }

  /** The loops and the final step together produce the groups of RFC 4648. */
  lemma EncodeFoldIsEncoded(buf: seq<Byte>)
    ensures EncodeFold(buf).bits < 5
    ensures var w := EncodeFold(buf);
            var vs := if w.bits > 0 then w.out + [FillUp(w.value, w.bits)] else w.out;
            vs == Groups(Concat(buf, 8), 5) && |vs| == (8 * |buf| + 4) / 5
  {
    EncodeFoldAccounts(buf);
    var w := EncodeFold(buf);
    if w.bits > 0 {
      EncodeDonePadded(buf, w.out, w.value, w.bits, w.out + [FillUp(w.value, w.bits)]);
      PaddedLength(buf, w.out, w.value, w.bits);
    } else {
      EncodeDone(buf, w.out, w.value);
    }
  }

  /**
   `encodeBase32`.  The accumulator is a 32-bit word that is shifted left for every byte and
   never masked; it wraps from the fifth byte on.
   */
  method Encode(buf: seq<Byte>) returns (output: string)
    ensures output == Encoded(buf)
    ensures |output| == (8 * |buf| + 4) / 5
  {
    var bits, value := 0, 0;
    output := "";
    ghost var vs: seq<nat> := [];
    var i := 0;
    while i < |buf|
      invariant 0 <= i <= |buf|
      invariant Word(value, bits, vs) == EncodeFold(buf[..i])
      invariant Fit(vs, 5) && output == Letters(vs)
    {
      assert buf[..i + 1][..i] == buf[..i];
      value := ShiftIn(value, 8, buf[i]);
      bits := bits + 8;
      while bits >= 5
        invariant 0 <= bits
        invariant Drain(Word(value, bits, vs)) == EncodeFold(buf[..i + 1])
        invariant Fit(vs, 5) && output == Letters(vs)
      {
        bits := bits - 5;
        var symbol := Mask5(value, bits);
        LettersSnoc(vs, symbol);
        vs := vs + [symbol];
        output := output + [Letter(symbol)];
      }
      i := i + 1;
    }
    assert buf[..i] == buf;
    EncodeFoldIsEncoded(buf);
    if bits > 0 {
      var symbol := FillUp(value, bits);
      LettersSnoc(vs, symbol);
      output := output + [Letter(symbol)];
    }
  }

  // ----- Decoding -------------------------------------------------------------------------

  /** `toUpperCase` on ASCII letters. */
  function Upper(c: char): char {
    if 'a' <= c <= 'z' then 'A' + (c - 'a') else c
  }

  predicate Ignored(c: char) {
    IsSpace(c) || c == '='
  }

  /** Upper case, without white space and padding. */
  function Clean(s: string): string {
    if s == "" then "" else CleanChar(s[0]) + Clean(s[1..])
  }

  function CleanChar(c: char): string {
    if Ignored(c) then "" else [Upper(c)]
  }

  predicate InAlphabet(s: string) {
    forall i | 0 <= i < |s| :: LetterIndex(s[i]) >= 0
  }

  function Values(s: string): (vs: seq<nat>)
    requires InAlphabet(s)
    ensures |vs| == |s| && Fit(vs, 5)
    ensures forall i | 0 <= i < |s| :: vs[i] == LetterIndex(s[i])
  {
    seq(|s|, i requires 0 <= i < |s| => LetterIndex(s[i]) as nat)
  }

  predicate Foreign(c: char) {
    LetterIndex(c) == -1
  }

  /** The bytes in the bit string of the cleaned text, or its first letter outside the alphabet. */
  function Decoded(s: string): Result<seq<nat>, char> {
    DecodedClean(Clean(s))
  }

  function DecodedClean(cleaned: string): Result<seq<nat>, char> {
    var bad := IndexWhere(cleaned, Foreign);
    if bad >= 0 then Err(cleaned[bad]) else Ok(Whole(Concat(Values(cleaned), 5), 8))
  }

  /** One turn of the decoding loop. */
  function DecodeStep(w: Word, v: nat): Word {
    var value, bits := ShiftIn(w.value, 5, v), w.bits + 5;
    if bits >= 8 then Word(value, bits - 8, w.out + [Mask8(value, bits - 8)]) else Word(value, bits, w.out)
  }

  function DecodeFold(s: string): Word
    requires InAlphabet(s)
  {
    if s == "" then Word(0, 0, []) else DecodeStep(DecodeFold(s[..|s| - 1]), LetterIndex(s[|s| - 1]))
  }

  ghost predicate Emits8(ins: seq<nat>, w: Word) {
    Accounted(ins, 5, w.out, 8, w.value, w.bits)
  }

  lemma StepAccounts(ins: seq<nat>, w: Word, v: nat)
    requires Emits8(ins, w) && w.bits < 8 && v < 32
    ensures Emits8(ins + [v], DecodeStep(w, v)) && DecodeStep(w, v).bits < 8
  {
    assert Pow2(5) == 32;
    AccountIn(ins, 5, w.out, 8, w.value, w.bits, v);
    var value, bits := ShiftIn(w.value, 5, v), w.bits + 5;
    if bits >= 8 {
      EmitByte(ins + [v], w.out, value, bits, Mask8(value, bits - 8));
    }
  }

  lemma {:induction false} DecodeFoldAccounts(s: string)
    requires InAlphabet(s)
    ensures Emits8(Values(s), DecodeFold(s)) && DecodeFold(s).bits < 8
  {
    if s != "" {
      var n := |s| - 1;
      DecodeFoldAccounts(s[..n]);
      StepAccounts(Values(s[..n]), DecodeFold(s[..n]), LetterIndex(s[n]));
      ValuesSnoc(s);
    }
  }

  lemma ValuesSnoc(s: string)
    requires InAlphabet(s) && s != ""
    ensures Values(s) == Values(s[..|s| - 1]) + [LetterIndex(s[|s| - 1])]
  {
  }

  lemma DecodeFoldIsDecoded(s: string)
    requires InAlphabet(s)
    ensures DecodedClean(s) == Ok(DecodeFold(s).out)
  {
    DecodeFoldAccounts(s);
    var w := DecodeFold(s);
    WholeOfConcat(w.out, 8, ToBits(w.value, w.bits));
  }

  lemma DecodeFoldSnoc(s: string, i: nat)
    requires i < |s| && InAlphabet(s[..i]) && LetterIndex(s[i]) != -1
    ensures InAlphabet(s[..i + 1])
    ensures DecodeFold(s[..i + 1]) == DecodeStep(DecodeFold(s[..i]), LetterIndex(s[i]))
  {
    assert s[..i + 1] == s[..i] + [s[i]];
    assert s[..i + 1][..i] == s[..i];
  }

  lemma DecodeFoldWhole(s: string)
    requires InAlphabet(s[..|s|])
    ensures InAlphabet(s) && DecodeFold(s[..|s|]) == DecodeFold(s)
  {
    assert s[..|s|] == s;
  }

  lemma FirstForeign(s: string, i: nat)
    requires i < |s| && InAlphabet(s[..i]) && LetterIndex(s[i]) == -1
    ensures DecodedClean(s) == Err(s[i])
  {
    assert forall k | 0 <= k < i :: s[..i][k] == s[k];
    assert IndexWhere(s, Foreign) == i;
  }

  /** `decodeBase32`, with the same unmasked word. */
  method Decode(s: string) returns (r: Result<seq<nat>, char>)
    ensures r == Decoded(s)
  {
    var cleaned := Clean(s);
    var bits, value := 0, 0;
    var output: seq<nat> := [];
    var i := 0;
    while i < |cleaned|
      invariant 0 <= i <= |cleaned|
      invariant InAlphabet(cleaned[..i]) && Word(value, bits, output) == DecodeFold(cleaned[..i])
    {
      var idx := LetterIndex(cleaned[i]);
      if idx == -1 {
        FirstForeign(cleaned, i);
        return Err(cleaned[i]);
      }
      DecodeFoldSnoc(cleaned, i);
      value := ShiftIn(value, 5, idx);
      bits := bits + 5;
      if bits >= 8 {
        bits := bits - 8;
        output := output + [Mask8(value, bits)];
      }
      i := i + 1;
    }
    DecodeFoldWhole(cleaned);
    DecodeFoldIsDecoded(cleaned);
    r := Ok(output);
  }

  lemma {:induction false} CleanLetters(vs: seq<nat>)
    requires Fit(vs, 5)
    ensures InAlphabet(Letters(vs)) && Values(Letters(vs)) == vs && Clean(Letters(vs)) == Letters(vs)
  {
    if vs != [] {
      var n := |vs| - 1;
      CleanLetters(vs[..n]);
      CleanConcat(Letters(vs[..n]), [Letter(vs[n])]);
      CleanLetter(vs[n]);
    }
  }

  lemma CleanLetter(v: nat)
    requires v < 32
    ensures Clean([Letter(v)]) == [Letter(v)] && LetterIndex(Letter(v)) == v
  {
    LetterIsAlphabet(v);
  }

  lemma {:induction false} CleanConcat(a: string, b: string)
    ensures Clean(a + b) == Clean(a) + Clean(b)
  {
    if a == "" {
      assert a + b == b;
    } else {
      assert (a + b)[0] == a[0] && (a + b)[1..] == a[1..] + b;
      CleanConcat(a[1..], b);
      ConcatAssociates(CleanChar(a[0]), Clean(a[1..]), Clean(b));
    }
  }

  /** Every byte string survives, although the word of the encoder and that of the decoder both wrap. */
  lemma RoundTrip(bytes: seq<Byte>)
    ensures Decoded(Encoded(bytes)) == Ok(bytes)
  {
    var _ := ConcatGroups(Concat(bytes, 8), 5);
    CleanLetters(Groups(Concat(bytes, 8), 5));
    Regroup(bytes, 5);
  }

  /** White space and padding may stand anywhere. */
  lemma IgnoresJunk(a: string, junk: string, b: string)
    requires forall x <- junk :: IsSpace(x) || x == '='
    ensures Decoded(a + junk + b) == Decoded(a + b)
  {
    CleanConcat(a + junk, b);
    CleanConcat(a, junk);
    CleanConcat(a, b);
    CleanJunk(junk);
    assert Clean(a + junk + b) == Clean(a + b);
  }

  /** The same text but for the case of some letters. */
  predicate SameButCase(s: string, t: string) {
    |s| == |t| && forall i | 0 <= i < |s| ::
      s[i] == t[i] || ('A' <= s[i] <= 'Z' && t[i] as int == s[i] as int + 32)
  }

  /** Letters may be upper or lower case. */
  lemma IgnoresCase(s: string, t: string)
    requires SameButCase(s, t)
    ensures Decoded(s) == Decoded(t)
  {
    CleanSameButCase(s, t);
  }

  lemma {:induction false} CleanSameButCase(s: string, t: string)
    requires SameButCase(s, t)
    ensures Clean(s) == Clean(t)
  {
    if s != "" {
      CleanSameButCase(s[1..], t[1..]);
    }
  }

  lemma {:induction false} CleanJunk(junk: string)
    requires forall x <- junk :: IsSpace(x) || x == '='
    ensures Clean(junk) == ""
  {
    if junk != "" {
      CleanJunk(junk[1..]);
    }
  }
}
