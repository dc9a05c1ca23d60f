/**
 TOTP codes (apps/api/src/auth/totp.ts): RFC 6238 on top of the truncation of RFC 4226,
 verified against a window of steps around the clock.

 HMAC-SHA-1 is a library call; it enters as a parameter of which only the shape of its result is known.
 */
module Totp {
  import opened Wrappers
  import opened Bits
  import opened Sequences
  import opened Text
  import Base32
  import TotpReplay

  const PERIOD_S: nat := 30
  const DIGITS: nat := 6
  const MILLION: nat := 1_000_000

  type Hmac = (seq<nat>, seq<nat>) -> seq<nat>

  /** Twenty bytes, as SHA-1 gives. */
  ghost predicate IsSha1(hmac: Hmac) {
    forall key, message ::
      |hmac(key, message)| == 20 && forall i | 0 <= i < 20 :: hmac(key, message)[i] < 256
  }

  datatype Error = CounterOutOfRange | InvalidBase32(char)

  // ----- The message: a counter in eight bytes -------------------------------------------

  /** `writeUInt32BE` */
  function Be32(v: nat): seq<nat>
    requires v < 0x1_0000_0000
  {
    [v / 0x100_0000, v / 0x1_0000 % 256, v / 0x100 % 256, v % 256]
  }

  /** The high and the low word of the counter; `Buffer` refuses words that do not fit. */
  function CounterBytes(counter: int): Result<seq<nat>, Error> {
    var high, low := counter / 0x1_0000_0000, counter % 0x1_0000_0000;
    if 0 <= high < 0x1_0000_0000 then Ok(Be32(high) + Be32(low)) else Err(CounterOutOfRange)
  }

  /** The number that bytes spell, the most significant first. */
  function BigEndian(bytes: seq<nat>): nat {
    if bytes == [] then 0 else BigEndian(bytes[..|bytes| - 1]) * 256 + bytes[|bytes| - 1]
  }

  /** The message of section 5.2 of RFC 4226: eight bytes that spell the counter. */
  predicate Spells(message: seq<nat>, counter: int) {
    |message| == 8 && (forall i | 0 <= i < 8 :: message[i] < 256) && BigEndian(message) == counter
  }

  lemma {:induction false} BigEndianConcat(a: seq<nat>, b: seq<nat>)
    ensures BigEndian(a + b) == BigEndian(a) * Pow256(|b|) + BigEndian(b)
  {
    if b == [] {
      assert a + b == a;
    } else {
      var n := |b| - 1;
      BigEndianConcat(a, b[..n]);
      assert (a + b)[..|a| + n] == a + b[..n];
      assert BigEndian(a) * Pow256(n) * 256 == BigEndian(a) * Pow256(n + 1);
    }
  }

  function Pow256(n: nat): nat {
    if n == 0 then 1 else Pow256(n - 1) * 256
  }

  lemma BigEndianFour(a: nat, b: nat, c: nat, d: nat)
    ensures BigEndian([a, b, c, d]) == ((a * 256 + b) * 256 + c) * 256 + d
  {
    assert [a, b][..1] == [a] && [a, b, c][..2] == [a, b] && [a, b, c, d][..3] == [a, b, c];
    assert BigEndian([a]) == a;
    assert BigEndian([a, b]) == a * 256 + b;
    assert BigEndian([a, b, c]) == (a * 256 + b) * 256 + c;
  }

  lemma Be32Value(v: nat)
    requires v < 0x1_0000_0000
    ensures BigEndian(Be32(v)) == v
  {
    var a, b, c := v / 0x100_0000, v / 0x1_0000, v / 0x100;
    BigEndianFour(a, b % 256, c % 256, v % 256);
    SplitOffByte(v);
    SplitOffByte(c);
    SplitOffByte(b);
    TwoBytes(v);
    ThreeBytes(v);
    FromDigits(a, b, c, v);
  }

  lemma SplitOffByte(v: nat)
    ensures v == v / 256 * 256 + v % 256
  {
  }

  lemma TwoBytes(v: nat)
    ensures v / 0x1_0000 == v / 256 / 256
  {
  }

  lemma ThreeBytes(v: nat)
    ensures v / 0x100_0000 == v / 0x1_0000 / 256
  {
  }

  lemma FromDigits(a: nat, b: nat, c: nat, v: nat)
    requires v == c * 256 + v % 256 && c == b * 256 + c % 256 && b == a * 256 + b % 256
    ensures ((a * 256 + b % 256) * 256 + c % 256) * 256 + v % 256 == v
  {
  }

  lemma Be32Bytes(v: nat)
    requires v < 0x1_0000_0000
    ensures forall i | 0 <= i < 4 :: Be32(v)[i] < 256
  {
    assert v / 0x100_0000 < 256;
  }

  /** Exactly the counters below 2^64 have a message, and it spells the counter. */
  lemma CounterBytesSpell(counter: int)
    ensures if 0 <= counter < 0x1_0000_0000_0000_0000
            then CounterBytes(counter).Ok? && Spells(CounterBytes(counter).value, counter)
            else CounterBytes(counter) == Err(CounterOutOfRange)
  {
    if 0 <= counter < 0x1_0000_0000_0000_0000 {
      var high, low := counter / 0x1_0000_0000, counter % 0x1_0000_0000;
      Be32Value(high);
      Be32Value(low);
      Be32Bytes(high);
      Be32Bytes(low);
      assert Pow256(4) == 0x1_0000_0000;
      BigEndianConcat(Be32(high), Be32(low));
    }
  }

  lemma {:induction false} BigEndianInjective(a: seq<nat>, b: seq<nat>)
    requires |a| == |b| && forall i | 0 <= i < |a| :: a[i] < 256 && b[i] < 256
    requires BigEndian(a) == BigEndian(b)
    ensures a == b
  {
    if a != [] {
      var n := |a| - 1;
      assert a[n] == BigEndian(a) % 256 && b[n] == BigEndian(b) % 256;
      BigEndianInjective(a[..n], b[..n]);
      assert a == a[..n] + [a[n]] && b == b[..n] + [b[n]];
    }
  }

  /** Only one message spells a counter, and different counters have different messages. */
  lemma CounterBytesInjective(counter: int, message: seq<nat>)
    ensures CounterBytes(counter) == Ok(message) <==> Spells(message, counter)
  {
    CounterBytesSpell(counter);
    if Spells(message, counter) {
      BigEndianBound(message);
      assert Pow256(8) == 0x1_0000_0000_0000_0000;
      BigEndianInjective(message, CounterBytes(counter).value);
    }
  }

  lemma {:induction false} BigEndianBound(bytes: seq<nat>)
    requires forall i | 0 <= i < |bytes| :: bytes[i] < 256
    ensures BigEndian(bytes) < Pow256(|bytes|)
  {
    if bytes != [] {
      BigEndianBound(bytes[..|bytes| - 1]);
    }
  }

  // ----- Truncation ------------------------------------------------------------------------

  /** Dynamic truncation, section 5.3 of RFC 4226, with the shifts and ors of the code. */
  function Truncate(mac: seq<nat>): nat
    requires |mac| == 20
  {
    var o := mac[19] % 16;
    Or(Or(Or(Shl(mac[o] % 128, 24), Shl(mac[o + 1], 16)), Shl(mac[o + 2], 8)), mac[o + 3])
  }

  lemma {:induction false} OrDisjoint(a: nat, m: nat, b: nat)
    requires b < Pow2(m)
    ensures Or(Shl(a, m), b) == Shl(a, m) + b
  {
    if m > 0 {
      OrHalves(Shl(a, m), b);
      OrDisjoint(a, m - 1, b / 2);
    }
  }

  lemma {:induction false} ShlIsMul(a: nat, m: nat)
    ensures Shl(a, m) == a * Pow2(m)
  {
    if m > 0 {
      ShlIsMul(a, m - 1);
    }
  }

  /** Joining two neighbouring fields. */
  lemma {:induction false} OrFields(a: nat, m: nat, b: nat, k: nat)
    requires b < Pow2(m)
    ensures Or(Shl(a, m + k), Shl(b, k)) == Shl(a * Pow2(m) + b, k)
  {
    if k == 0 {
      OrDisjoint(a, m, b);
      ShlIsMul(a, m);
    } else {
      OrHalves(Shl(a, m + k), Shl(b, k));
      OrFields(a, m, b, k - 1);
    }
  }

  /** The truncation reads four consecutive bytes as a 31-bit number. */
  lemma TruncateReadsFourBytes(mac: seq<nat>)
    requires |mac| == 20 && forall i | 0 <= i < 20 :: mac[i] < 256
    ensures var o := mac[19] % 16;
            Truncate(mac) == ((mac[o] % 128 * 256 + mac[o + 1]) * 256 + mac[o + 2]) * 256 + mac[o + 3]
    ensures Truncate(mac) < 0x8000_0000
  {
    var o := mac[19] % 16;
    var a, b, c, d := mac[o] % 128, mac[o + 1], mac[o + 2], mac[o + 3];
    OrFourBytes(a, b, c, d);
  }

  lemma OrFourBytes(a: nat, b: nat, c: nat, d: nat)
    requires b < 256 && c < 256 && d < 256
    ensures Or(Or(Or(Shl(a, 24), Shl(b, 16)), Shl(c, 8)), d) == ((a * 256 + b) * 256 + c) * 256 + d
  {
    assert Pow2(8) == 256;
    OrFields(a, 8, b, 16);
    OrFields(a * 256 + b, 8, c, 8);
    OrDisjoint((a * 256 + b) * 256 + c, 8, d);
    ShlIsMul((a * 256 + b) * 256 + c, 8);
  }

  /** `String(code).padStart(6, "0")` */
  function PadStart(s: string, w: nat): string
    decreases w - |s|
  {
    if |s| >= w then s else PadStart("0" + s, w)
  }

  // ----- The code of a step ------------------------------------------------------------------

  /** The code that belongs to one counter. */
  function CodeAt(hmac: Hmac, secret: string, counter: int): Result<string, Error>
    requires IsSha1(hmac)
  {
    match CounterBytes(counter)
    case Err(e) => Err(e)
    case Ok(message) =>
      match Base32.Decoded(secret)
      case Err(c) => Err(InvalidBase32(c))
      case Ok(key) => Ok(PadStart(ShowNat(Truncate(hmac(key, message)) % MILLION), DIGITS))
  }

  /** `computeCode` */
  function ComputeCode(hmac: Hmac, secret: string, unixSeconds: int): Result<string, Error>
    requires IsSha1(hmac)
  {
    CodeAt(hmac, secret, unixSeconds / PERIOD_S)
  }

  /** Shifting the time by whole periods shifts the counter by as many steps. */
  lemma ShiftedTimeIsShiftedCounter(hmac: Hmac, secret: string, nowSec: int, i: int)
    requires IsSha1(hmac)
    ensures ComputeCode(hmac, secret, nowSec + i * PERIOD_S) == CodeAt(hmac, secret, nowSec / PERIOD_S + i)
  {
    assert (nowSec + i * PERIOD_S) / PERIOD_S == nowSec / PERIOD_S + i;
  }

  lemma {:induction false} PadStartIsPad(n: nat, s: string, w: nat)
    requires AllDigits(s) && |s| <= w && ReadDigits(s) == n
    ensures AllDigits(PadStart(s, w)) && |PadStart(s, w)| == w && ReadDigits(PadStart(s, w)) == n
    decreases w - |s|
  {
    if |s| < w {
      LeadingZero(s);
      PadStartIsPad(n, "0" + s, w);
    }
  }

  lemma {:induction false} LeadingZero(s: string)
    requires AllDigits(s)
    ensures AllDigits("0" + s) && ReadDigits("0" + s) == ReadDigits(s)
  {
    if s == "" {
      assert "0" + s == "0";
    } else {
      var n := |s| - 1;
      LeadingZero(s[..n]);
      assert ("0" + s)[..n + 1] == "0" + s[..n];
    }
  }

  lemma {:induction false} ShowNatLength(n: nat, w: nat)
    requires w > 0 && n < Pow10(w)
    ensures |ShowNat(n)| <= w
  {
    if n >= 10 {
      ShowNatLength(n / 10, w - 1);
    }
  }

  /**
   A computed code has exactly six digits, so that the constant-time comparison, which throws on buffers of different
   length, always compares; and the digits spell the truncated value modulo a million.
   */
  lemma CodeHasSixDigits(hmac: Hmac, secret: string, counter: int, message: seq<nat>)
    requires IsSha1(hmac) && Base32.Decoded(secret).Ok? && Spells(message, counter)
    ensures var r := CodeAt(hmac, secret, counter);
            r.Ok? && |r.value| == 6 && AllDigits(r.value) &&
            ReadDigits(r.value) == Truncate(hmac(Base32.Decoded(secret).value, message)) % 1_000_000
  {
    CounterBytesInjective(counter, message);
    var n := Truncate(hmac(Base32.Decoded(secret).value, message)) % MILLION;
    assert Pow10(6) == MILLION;
    ShowNatLength(n, 6);
    ReadShow(n);
    PadStartIsPad(n, ShowNat(n), DIGITS);
  }

  /** The value of section 5.4 of RFC 4226: four bytes from the offset on, without the sign bit. */
  function Dynamic(mac: seq<nat>): nat
    requires |mac| == 20
  {
    var o := mac[19] % 16;
    BigEndian([mac[o] % 128, mac[o + 1], mac[o + 2], mac[o + 3]])
  }

  /** The six digits that section 5.3 of RFC 4226 gives for a key and a counter. */
  predicate IsCode(hmac: Hmac, key: seq<nat>, message: seq<nat>, code: string)
    requires IsSha1(hmac)
  {
    |code| == 6 && AllDigits(code) && ReadDigits(code) == Dynamic(hmac(key, message)) % 1_000_000
  }

  lemma {:induction false} DigitsInjective(a: string, b: string)
    requires |a| == |b| && AllDigits(a) && AllDigits(b) && ReadDigits(a) == ReadDigits(b)
    ensures a == b
  {
    if a != "" {
      var n := |a| - 1;
      assert DigitValue(a[n]) == ReadDigits(a) % 10 && DigitValue(b[n]) == ReadDigits(b) % 10;
      DigitsInjective(a[..n], b[..n]);
      assert a == a[..n] + [a[n]] && b == b[..n] + [b[n]];
    }
  }

  /** The code of a counter is the one that the standard gives for the decoded secret, and there is no other. */
  lemma CodeAtIff(hmac: Hmac, secret: string, counter: int, message: seq<nat>, code: string)
    requires IsSha1(hmac) && Base32.Decoded(secret).Ok? && Spells(message, counter)
    ensures CodeAt(hmac, secret, counter) == Ok(code) <==> IsCode(hmac, Base32.Decoded(secret).value, message, code)
  {
    CodeHasSixDigits(hmac, secret, counter, message);
    var mac := hmac(Base32.Decoded(secret).value, message);
    var o := mac[19] % 16;
    TruncateReadsFourBytes(mac);
    BigEndianFour(mac[o] % 128, mac[o + 1], mac[o + 2], mac[o + 3]);
    if IsCode(hmac, Base32.Decoded(secret).value, message, code) {
      DigitsInjective(code, CodeAt(hmac, secret, counter).value);
    }
  }

  /** Which codes cannot be computed. */
  lemma CodeFailsIff(hmac: Hmac, secret: string, counter: int)
    requires IsSha1(hmac)
    ensures CodeAt(hmac, secret, counter).Ok? <==>
              0 <= counter < 0x1_0000_0000_0000_0000 && Base32.Decoded(secret).Ok?
  {
    CounterBytesSpell(counter);
  }

  // ----- Verification --------------------------------------------------------------------------

  /** `code.trim().replace(/\s/g, "")` */
  function WithoutSpace(code: string): string {
    if code == "" then ""
    else if IsSpace(code[0]) then WithoutSpace(code[1..])
    else [code[0]] + WithoutSpace(code[1..])
  }

  lemma {:induction false} WithoutSpaceSnoc(code: string, c: char)
    ensures WithoutSpace(code + [c]) == WithoutSpace(code) + if IsSpace(c) then "" else [c]
  {
    if code != "" {
      WithoutSpaceSnoc(code[1..], c);
      assert (code + [c])[1..] == code[1..] + [c];
    }
  }

  predicate IsInk(c: char) {
    !IsSpace(c)
  }

  /** `WithoutSpace` returns the characters that are not white space, all of them, in order. */
  lemma {:induction false} WithoutSpacePicks(code: string) returns (at: seq<nat>)
    ensures Picks(code, IsInk, WithoutSpace(code), at)
  {
    if code == "" {
      at := [];
    } else {
      var n := |code| - 1;
      at := WithoutSpacePicks(code[..n]);
      assert code == code[..n] + [code[n]];
      WithoutSpaceSnoc(code[..n], code[n]);
      PicksSnoc(code[..n], IsInk, WithoutSpace(code[..n]), at, code[n]);
      at := if IsInk(code[n]) then at + [n] else at;
    }
  }

  predicate WellFormed(code: string) {
    |code| == DIGITS && AllDigits(code)
  }

  datatype Verification = NotOk | Matched(step: int)

  /** No step of the window before `step` shows `code`, and none fails. */
  predicate NoneBefore(hmac: Hmac, secret: string, code: string, first: int, step: int)
    requires IsSha1(hmac)
  {
    forall k | first <= k < step :: Differs(CodeAt(hmac, secret, k), code)
  }

  predicate Differs(shown: Result<string, Error>, code: string) {
    shown.Ok? && shown.value != code
  }

  lemma NoneBeforeNext(hmac: Hmac, secret: string, code: string, first: int, step: int)
    requires IsSha1(hmac) && NoneBefore(hmac, secret, code, first, step)
    requires Differs(CodeAt(hmac, secret, step), code)
    ensures NoneBefore(hmac, secret, code, first, step + 1)
  {
    forall k | first <= k < step + 1 ensures Differs(CodeAt(hmac, secret, k), code) {
    }
  }

  /** What the search for `code` in a window around the step `now` may answer. */
  predicate Answers(r: Result<Verification, Error>, hmac: Hmac, secret: string, code: string, now: int, window: nat)
    requires IsSha1(hmac)
  {
    match r
    case Ok(Matched(step)) =>
      now - window <= step <= now + window && CodeAt(hmac, secret, step) == Ok(code) &&
      NoneBefore(hmac, secret, code, now - window, step)
    case Ok(NotOk) =>
      NoneBefore(hmac, secret, code, now - window, now + window + 1)
    case Err(e) =>
      exists step | now - window <= step <= now + window ::
        CodeAt(hmac, secret, step) == Err(e) && NoneBefore(hmac, secret, code, now - window, step)
  }

  lemma FoundAnswers(hmac: Hmac, secret: string, code: string, now: int, window: nat, step: int)
    requires IsSha1(hmac) && now - window <= step <= now + window
    requires CodeAt(hmac, secret, step) == Ok(code) && NoneBefore(hmac, secret, code, now - window, step)
    ensures Answers(Ok(Matched(step)), hmac, secret, code, now, window)
  {
  }

  lemma FailedAnswers(hmac: Hmac, secret: string, code: string, now: int, window: nat, step: int, e: Error)
    requires IsSha1(hmac) && now - window <= step <= now + window
    requires CodeAt(hmac, secret, step) == Err(e) && NoneBefore(hmac, secret, code, now - window, step)
    ensures Answers(Err(e), hmac, secret, code, now, window)
  {
  }

  /** The loop of `verifyCodeDetailed`: it compares codes of shifted times and reports a shifted step. */
  method SearchWindow(hmac: Hmac, secret: string, entered: string, nowSec: int, window: nat)
    returns (r: Result<Verification, Error>)
    requires IsSha1(hmac)
    ensures Answers(r, hmac, secret, entered, nowSec / PERIOD_S, window)
  {
    ghost var now := nowSec / PERIOD_S;
    var i := 0 - window;
    while i <= window
      invariant 0 - window <= i <= window + 1
      invariant NoneBefore(hmac, secret, entered, now - window, now + i)
    {
      var answer := TryStep(hmac, secret, entered, nowSec, window, i);
      if answer.Some? {
        return answer.value;
      }
      i := i + 1;
    }
    r := Ok(NotOk);
  }

  method CodeInWindow(hmac: Hmac, secret: string, nowSec: int, i: int) returns (expected: Result<string, Error>)
    requires IsSha1(hmac)
    ensures expected == CodeAt(hmac, secret, nowSec / PERIOD_S + i)
  {
    ShiftedTimeIsShiftedCounter(hmac, secret, nowSec, i);
    expected := ComputeCode(hmac, secret, nowSec + i * PERIOD_S);
  }

  /** One turn of the loop: an answer, or this step's code differs too. */
  method TryStep(hmac: Hmac, secret: string, entered: string, nowSec: int, window: nat, i: int)
    returns (answer: Option<Result<Verification, Error>>)
    requires IsSha1(hmac) && 0 - window <= i <= window
    requires NoneBefore(hmac, secret, entered, nowSec / PERIOD_S - window, nowSec / PERIOD_S + i)
    ensures if answer.Some? then Answers(answer.value, hmac, secret, entered, nowSec / PERIOD_S, window)
            else NoneBefore(hmac, secret, entered, nowSec / PERIOD_S - window, nowSec / PERIOD_S + i + 1)
  {
    ghost var now := nowSec / PERIOD_S;
    var expected := CodeInWindow(hmac, secret, nowSec, i);
    if expected.Err? {
      FailedAnswers(hmac, secret, entered, now, window, now + i, expected.error);
      return Some(Err(expected.error));
    }
    if expected.value == entered {
      FoundAnswers(hmac, secret, entered, now, window, now + i);
      return Some(Ok(Matched(nowSec / PERIOD_S + i)));
    }
    NoneBeforeNext(hmac, secret, entered, now - window, now + i);
    return None;
  }

  /** `code` is the code of the standard for `counter`. */
  ghost predicate IsCodeOf(hmac: Hmac, key: seq<nat>, counter: int, code: string)
    requires IsSha1(hmac)
  {
    exists message :: Spells(message, counter) && IsCode(hmac, key, message, code)
  }

  lemma CodeOfStep(hmac: Hmac, secret: string, counter: int, code: string)
    requires IsSha1(hmac) && Base32.Decoded(secret).Ok? && 0 <= counter < 0x1_0000_0000_0000_0000
    ensures CodeAt(hmac, secret, counter).Ok?
    ensures CodeAt(hmac, secret, counter) == Ok(code) <==>
              IsCodeOf(hmac, Base32.Decoded(secret).value, counter, code)
  {
    CounterBytesSpell(counter);
    CodeFailsIff(hmac, secret, counter);
    CodeAtIff(hmac, secret, counter, CounterBytes(counter).value, code);
    forall message | Spells(message, counter)
      ensures CodeAt(hmac, secret, counter) == Ok(code) <==>
                IsCode(hmac, Base32.Decoded(secret).value, message, code)
    {
      CodeAtIff(hmac, secret, counter, message, code);
    }
  }

  /** The answer by the standard: the first counter of the window whose code this is, if there is one. */
  ghost predicate FindsFirst(v: Verification, hmac: Hmac, key: seq<nat>, code: string, now: int, window: nat)
    requires IsSha1(hmac)
  {
    match v
    case Matched(step) =>
      now - window <= step <= now + window && IsCodeOf(hmac, key, step, code) &&
      forall k | now - window <= k < step :: !IsCodeOf(hmac, key, k, code)
    case NotOk =>
      forall k | now - window <= k <= now + window :: !IsCodeOf(hmac, key, k, code)
  }

  lemma AnswerFindsFirst(r: Result<Verification, Error>, hmac: Hmac, secret: string, code: string, now: int,
                         window: nat)
    requires IsSha1(hmac) && Answers(r, hmac, secret, code, now, window)
    requires Base32.Decoded(secret).Ok? && window <= now < 0x1_0000_0000_0000_0000 - window
    ensures r.Ok? && FindsFirst(r.value, hmac, Base32.Decoded(secret).value, code, now, window)
  {
    forall k | now - window <= k <= now + window
      ensures CodeAt(hmac, secret, k).Ok?
      ensures CodeAt(hmac, secret, k) == Ok(code) <==> IsCodeOf(hmac, Base32.Decoded(secret).value, k, code)
    {
      CodeOfStep(hmac, secret, k, code);
    }
  }

  /**
   `verifyCodeDetailed`.  For a secret in base32 and a clock that does not run out of counters, the answer is that
   of the standard; otherwise an error is reported if the search meets it before a match.
   */
  method VerifyCodeDetailed(hmac: Hmac, secret: string, code: string, nowSec: int, window: nat)
    returns (r: Result<Verification, Error>)
    requires IsSha1(hmac)
    ensures if |WithoutSpace(code)| == 6 && AllDigits(WithoutSpace(code))
            then Answers(r, hmac, secret, WithoutSpace(code), nowSec / 30, window)
            else r == Ok(NotOk)
    ensures Base32.Decoded(secret).Ok? && window <= nowSec / 30 < 0x1_0000_0000_0000_0000 - window ==>
              r.Ok? && FindsFirst(r.value, hmac, Base32.Decoded(secret).value, WithoutSpace(code), nowSec / 30, window)
  {
    var entered := WithoutSpace(code);
    if !WellFormed(entered) {
      return Ok(NotOk);
    }
    r := SearchWindow(hmac, secret, entered, nowSec, window);
    if Base32.Decoded(secret).Ok? && window <= nowSec / 30 < 0x1_0000_0000_0000_0000 - window {
      AnswerFindsFirst(r, hmac, secret, entered, nowSec / 30, window);
    }
  }

  /** With the default window and the clock in seconds, the reported step lies in the window of the replay protocol. */
  lemma WindowsAgree(nowMs: nat, step: int)
    requires var now := nowMs / 1000 / 30; now - 1 <= step <= now + 1
    ensures TotpReplay.InWindow(step, nowMs)
  {
    assert nowMs / 1000 / 30 == nowMs / 30000;
  }
}
