/**
 Dotenv files (packages/shared/src/env-files.ts).

 The parser reads one assignment per line; a repeated key keeps its place and takes the
 last value.  Values in double quotes are unescaped by five global replacements, one after the other.
 */
module EnvFile {
  import opened Sequences
  import opened Wrappers
  import opened Text

  datatype EnvVar = EnvVar(key: string, value: string)

  const DQ: char := '"'
  const SQ: char := '\''
  const BS: char := '\\'

  // ----- Unquoting ------------------------------------------------------------------------

  /** `s.replace(/\\x/g, y)`: every backslash followed by `x`, from left to right. */
  function ReplacePair(s: string, x: char, y: char): string {
    if |s| < 2 then s
    else if s[0] == BS && s[1] == x then [y] + ReplacePair(s[2..], x, y)
    else [s[0]] + ReplacePair(s[1..], x, y)
  }

  function Unescape(s: string): string {
    var s1 := ReplacePair(s, 'n', '\n');
    var s2 := ReplacePair(s1, 'r', '\r');
    var s3 := ReplacePair(s2, 't', '\t');
    var s4 := ReplacePair(s3, DQ, DQ);
    ReplacePair(s4, BS, BS)
  }

  /** `unquoteEnvValue` */
  function Unquote(value: string): string {
    var trimmed := Trim(value);
    if |trimmed| < 2 then trimmed else
    var quote := trimmed[0];
    if (quote != DQ && quote != SQ) || trimmed[|trimmed| - 1] != quote then trimmed else
    var inner := trimmed[1..|trimmed| - 1];
    if quote == SQ then inner else Unescape(inner)
  }

  // ----- Comments ---------------------------------------------------------------------------

  /** The quote state after reading `c`; `None` outside quotes. */
  function Toggle(quote: Option<char>, c: char): Option<char> {
    if quote == Some(c) then None else if quote == None then Some(c) else quote
  }

  /** A quote character counts unless a backslash stands before it. */
  predicate IsQuote(value: string, i: nat)
    requires i < |value|
  {
    (value[i] == DQ || value[i] == SQ) && !(i > 0 && value[i - 1] == BS)
  }

  /** The value from position `i` on, read with the given quote state. */
  function StripFrom(value: string, i: nat, quote: Option<char>): string
    requires i <= |value|
    decreases |value| - i
  {
    if i == |value| then value
    else if IsQuote(value, i) then StripFrom(value, i + 1, Toggle(quote, value[i]))
    else if value[i] == '#' && quote == None && i > 0 && IsSpace(value[i - 1]) then TrimEnd(value[..i])
    else StripFrom(value, i + 1, quote)
  }

  /** The quote that is open before position `i`. */
  function QuoteAt(value: string, i: nat): Option<char>
    requires i <= |value|
  {
    if i == 0 then None
    else if IsQuote(value, i - 1) then Toggle(QuoteAt(value, i - 1), value[i - 1])
    else QuoteAt(value, i - 1)
  }

  /** A hash outside quotes that follows white space. */
  predicate StartsComment(value: string, i: nat) {
    0 < i < |value| && value[i] == '#' && IsSpace(value[i - 1]) && QuoteAt(value, i) == None
  }

  predicate IsFirstComment(value: string, i: nat) {
    StartsComment(value, i) && forall j: nat | j < i :: !StartsComment(value, j)
  }

  /** The scan from a position it reaches. */
  lemma {:induction false} StripFromCuts(value: string, i: nat)
    requires i <= |value| && forall j: nat | j < i :: !StartsComment(value, j)
    ensures var r := StripFrom(value, i, QuoteAt(value, i));
            && (forall k: nat | IsFirstComment(value, k) :: r == TrimEnd(value[..k]))
            && ((forall k: nat | k < |value| :: !StartsComment(value, k)) ==> r == value)
    decreases |value| - i
  {
    if i < |value| && !StartsComment(value, i) {
      StripFromCuts(value, i + 1);
    }
  }

  /** `stripInlineComment` cuts at the first hash outside quotes that follows white space, and only there. */
  method StripInlineComment(value: string) returns (r: string)
    ensures r == StripFrom(value, 0, None)
    ensures forall i: nat | IsFirstComment(value, i) :: r == TrimEnd(value[..i])
    ensures (forall i: nat | i < |value| :: !StartsComment(value, i)) ==> r == value
  {
    StripFromCuts(value, 0);
    var quote := None;
    var i := 0;
    while i < |value|
      invariant 0 <= i <= |value|
      invariant StripFrom(value, i, quote) == StripFrom(value, 0, None)
    {
      if IsQuote(value, i) {
        quote := if quote == Some(value[i]) then None else if quote == None then Some(value[i]) else quote;
      } else if value[i] == '#' && quote == None && i > 0 && IsSpace(value[i - 1]) {
        return TrimEnd(value[..i]);
      }
      i := i + 1;
    }
    r := value;
  }

  // ----- Lines ------------------------------------------------------------------------------

  /** `content.split(/\r?\n/)` */
  function SplitLines(s: string): seq<string> {
    var i := IndexOf(s, '\n');
    if i == -1 then [s]
    else [if i > 0 && s[i - 1] == '\r' then s[..i - 1] else s[..i]] + SplitLines(s[i + 1..])
  }

  predicate KeyStart(c: char) {
    'A' <= c <= 'Z' || c == '_'
  }

  /** `/^[A-Z_][A-Z0-9_]*$/` */
  predicate IsKey(key: string) {
    key != "" && KeyStart(key[0]) && forall c <- key :: KeyStart(c) || IsDigit(c)
  }

  /** By code points: capital letters, the underscore, and behind the first place digits. */
  lemma KeyCodes(key: string)
    ensures IsKey(key) <==>
              && |key| > 0 && !('0' <= key[0] <= '9')
              && forall i | 0 <= i < |key| ::
                   var c := key[i] as int; 65 <= c <= 90 || c == 95 || 48 <= c <= 57
  {
    assert forall i | 0 <= i < |key| :: key[i] in key;
    assert forall c <- key :: exists i | 0 <= i < |key| :: key[i] == c;
  }

  /** The assignment a line makes, if any. */
  function ParseLine(rawLine: string): Option<EnvVar> {
    var line := Trim(rawLine);
    if line == "" || line[0] == '#' then None else
    ParseAssignment(if "export " <= line then Trim(line[7..]) else line)
  }

  function ParseAssignment(normalized: string): Option<EnvVar> {
    var separator := IndexOf(normalized, '=');
    if separator <= 0 then None
    else Assignment(normalized[..separator], normalized[separator + 1..])
  }

  function Assignment(left: string, right: string): Option<EnvVar> {
    var key := Trim(left);
    if IsKey(key) then Some(EnvVar(key, Unquote(StripFrom(right, 0, None)))) else None
  }

  function Map<S, T>(f: S -> T, xs: seq<S>): seq<T> {
    if xs == [] then [] else [f(xs[0])] + Map(f, xs[1..])
  }

  lemma MapCons<S, T>(f: S -> T, x: S, xs: seq<S>)
    ensures Map(f, [x] + xs) == [f(x)] + Map(f, xs)
  {
    assert ([x] + xs)[1..] == xs;
  }

  lemma {:induction false} MapAt<S, T>(f: S -> T, xs: seq<S>)
    ensures |Map(f, xs)| == |xs| && forall i | 0 <= i < |xs| :: Map(f, xs)[i] == f(xs[i])
  {
    if xs != [] {
      MapAt(f, xs[1..]);
    }
  }

  function Entries(lines: seq<string>): seq<Option<EnvVar>> {
    Map(ParseLine, lines)
  }

  /** The assignments among the lines. */
  function Present(entries: seq<Option<EnvVar>>): seq<EnvVar> {
    if entries == [] then [] else Append(Present(entries[..|entries| - 1]), entries[|entries| - 1])
  }

  function Append(before: seq<EnvVar>, entry: Option<EnvVar>): seq<EnvVar> {
    if entry.Some? then before + [entry.value] else before
  }

  function Assignments(content: string): seq<EnvVar> {
    Present(Entries(SplitLines(content)))
  }

  // ----- Last value wins --------------------------------------------------------------------

  predicate Assigned(all: seq<EnvVar>, key: string) {
    exists i | 0 <= i < |all| :: all[i].key == key
  }

  function LastValue(all: seq<EnvVar>, key: string): string
    requires Assigned(all, key)
  {
    if all[|all| - 1].key == key then all[|all| - 1].value else LastValue(all[..|all| - 1], key)
  }

  /** The assigned keys in the order of their first assignments. */
  function FirstKeys(all: seq<EnvVar>): (keys: seq<string>)
    ensures forall i, j | 0 <= i < j < |keys| :: keys[i] != keys[j]
    ensures forall k :: k in keys <==> Assigned(all, k)
  {
    if all == [] then []
    else
      var before := FirstKeys(all[..|all| - 1]);
      var key := all[|all| - 1].key;
      AssignedSnoc(all);
      if key in before then before else before + [key]
  }

  lemma AssignedSnoc(all: seq<EnvVar>)
    requires all != []
    ensures forall k :: Assigned(all, k) <==> Assigned(all[..|all| - 1], k) || all[|all| - 1].key == k
  {
    var n := |all| - 1;
    forall k ensures Assigned(all, k) <==> Assigned(all[..n], k) || all[n].key == k {
      if Assigned(all, k) && all[n].key != k {
        var i :| 0 <= i < |all| && all[i].key == k;
        assert all[..n][i].key == k;
      }
      if Assigned(all[..n], k) {
        var i :| 0 <= i < n && all[..n][i].key == k;
        assert all[i].key == k;
      }
    }
  }

  /**
   The variables a list of assignments leaves: each assigned key once, in the order of first
   assignments, with its last value.
   */
  ghost predicate LastWins(all: seq<EnvVar>, vars: seq<EnvVar>) {
    && |vars| == |FirstKeys(all)|
    && forall i | 0 <= i < |vars| ::
         vars[i].key == FirstKeys(all)[i] && vars[i].value == LastValue(all, FirstKeys(all)[i])
  }

  /** The last assignment to its key. */
  ghost predicate IsLast(all: seq<EnvVar>, v: EnvVar) {
    exists i | 0 <= i < |all| :: all[i] == v && forall j | i < j < |all| :: all[j].key != v.key
  }

  /** `k` is assigned before `l` is for the first time. */
  ghost predicate ComesFirst(all: seq<EnvVar>, k: string, l: string) {
    exists i | 0 <= i < |all| :: all[i].key == k && forall j | 0 <= j <= i :: all[j].key != l
  }

  lemma {:induction false} LastValueIsLast(all: seq<EnvVar>, key: string)
    requires Assigned(all, key)
    ensures IsLast(all, EnvVar(key, LastValue(all, key)))
  {
    var n := |all| - 1;
    if all[n].key == key {
      assert all[n] == EnvVar(key, all[n].value);
    } else {
      LastValueIsLast(all[..n], key);
      var v := EnvVar(key, LastValue(all[..n], key));
      var i :| 0 <= i < n && all[..n][i] == v && forall j | i < j < n :: all[..n][j].key != key;
      assert all[i] == v && forall j | i < j < |all| :: all[j].key != key;
    }
  }

  lemma ComesFirstLater(all: seq<EnvVar>, more: seq<EnvVar>, k: string, l: string)
    requires all <= more && ComesFirst(all, k, l)
    ensures ComesFirst(more, k, l)
  {
    var i :| 0 <= i < |all| && all[i].key == k && forall j | 0 <= j <= i :: all[j].key != l;
    assert more[i].key == k && forall j | 0 <= j <= i :: more[j].key != l;
  }

  lemma ComesFirstNew(all: seq<EnvVar>, more: seq<EnvVar>, k: string, l: string)
    requires all <= more && Assigned(all, k) && !Assigned(all, l)
    ensures ComesFirst(more, k, l)
  {
    var i :| 0 <= i < |all| && all[i].key == k;
    assert more[i].key == k && forall j | 0 <= j <= i :: more[j] == all[j];
  }

  lemma {:induction false} FirstKeysInOrder(all: seq<EnvVar>, i: nat, j: nat)
    requires i < j < |FirstKeys(all)|
    ensures ComesFirst(all, FirstKeys(all)[i], FirstKeys(all)[j])
  {
    var n := |all| - 1;
    var before, keys := FirstKeys(all[..n]), FirstKeys(all);
    if j < |before| {
      FirstKeysInOrder(all[..n], i, j);
      ComesFirstLater(all[..n], all, keys[i], keys[j]);
    } else {
      assert keys[i] in before && keys[j] !in before;
      ComesFirstNew(all[..n], all, keys[i], keys[j]);
    }
  }

  /** Each assigned key once, in the order of first assignments, and with it what was assigned last. */
  ghost predicate Leaves(all: seq<EnvVar>, vars: seq<EnvVar>) {
    && (forall k :: Assigned(all, k) <==> Assigned(vars, k))
    && (forall i | 0 <= i < |vars| :: IsLast(all, vars[i]))
    && (forall i, j | 0 <= i < j < |vars| :: vars[i].key != vars[j].key && ComesFirst(all, vars[i].key, vars[j].key))
  }

  lemma LastWinsLeaves(all: seq<EnvVar>, vars: seq<EnvVar>)
    requires LastWins(all, vars)
    ensures Leaves(all, vars)
  {
    forall i | 0 <= i < |vars| ensures IsLast(all, vars[i]) {
      LastValueIsLast(all, FirstKeys(all)[i]);
    }
    forall i, j | 0 <= i < j < |vars| ensures ComesFirst(all, vars[i].key, vars[j].key) {
      FirstKeysInOrder(all, i, j);
    }
    forall k ensures Assigned(all, k) <==> Assigned(vars, k) {
      AssignedVars(all, vars, k);
    }
  }

  lemma AssignedVars(all: seq<EnvVar>, vars: seq<EnvVar>, k: string)
    requires LastWins(all, vars)
    ensures Assigned(all, k) <==> Assigned(vars, k)
  {
    if k in FirstKeys(all) {
      var i :| 0 <= i < |vars| && FirstKeys(all)[i] == k;
      assert vars[i].key == k;
    }
    if Assigned(vars, k) {
      var i :| 0 <= i < |vars| && vars[i].key == k;
      assert FirstKeys(all)[i] == k;
    }
  }

  lemma LeavesMember(all: seq<EnvVar>, vars: seq<EnvVar>, i: nat)
    requires Leaves(all, vars) && i < |vars|
    ensures vars[i] in all
  {
    assert IsLast(all, vars[i]);
  }

  /** `byKey` holds the position of every parsed key and nothing else. */
  ghost predicate Indexes(byKey: map<string, nat>, vars: seq<EnvVar>) {
    && (forall k <- byKey :: byKey[k] < |vars| && vars[byKey[k]].key == k)
    && (forall i | 0 <= i < |vars| :: vars[i].key in byKey && byKey[vars[i].key] == i)
  }

  /** A new assignment to a key that is there. */
  lemma AssignAgain(all: seq<EnvVar>, vars: seq<EnvVar>, v: EnvVar, at: nat)
    requires LastWins(all, vars) && at < |vars| && vars[at].key == v.key
    ensures LastWins(all + [v], vars[at := v])
  {
    var more := all + [v];
    assert more[..|all|] == all;
    assert FirstKeys(more) == FirstKeys(all);
    forall i | 0 <= i < |vars| ensures LastValue(more, FirstKeys(all)[i]) == vars[at := v][i].value {
      assert i != at ==> FirstKeys(all)[i] != FirstKeys(all)[at];
    }
  }

  /** A first assignment to a key. */
  lemma AssignNew(all: seq<EnvVar>, vars: seq<EnvVar>, v: EnvVar)
    requires LastWins(all, vars) && forall i | 0 <= i < |vars| :: vars[i].key != v.key
    ensures LastWins(all + [v], vars + [v])
  {
    var more := all + [v];
    assert more[..|all|] == all;
    assert v.key !in FirstKeys(all);
    assert FirstKeys(more) == FirstKeys(all) + [v.key];
    assert more[|all|].key == v.key;
  }

  /** The two branches of the loop body. */
  method Assign(parsed: seq<EnvVar>, byKey: map<string, nat>, v: EnvVar, ghost all: seq<EnvVar>)
    returns (parsed': seq<EnvVar>, byKey': map<string, nat>)
    requires LastWins(all, parsed) && Indexes(byKey, parsed)
    ensures LastWins(all + [v], parsed') && Indexes(byKey', parsed')
  {
    if v.key in byKey {
      AssignAgain(all, parsed, v, byKey[v.key]);
      parsed' := parsed[byKey[v.key] := v];
      byKey' := byKey;
    } else {
      AssignNew(all, parsed, v);
      byKey' := byKey[v.key := |parsed|];
      parsed' := parsed + [v];
    }
  }

  /** The loop of `parseEnvFile` over the assignments the lines make. */
  method Collect(entries: seq<Option<EnvVar>>) returns (parsed: seq<EnvVar>)
    ensures LastWins(Present(entries), parsed)
  {
    parsed := [];
    var byKey: map<string, nat> := map[];
    var n := 0;
    while n < |entries|
      invariant 0 <= n <= |entries|
      invariant LastWins(Present(entries[..n]), parsed) && Indexes(byKey, parsed)
    {
      assert entries[..n + 1][..n] == entries[..n];
      if entries[n].Some? {
        parsed, byKey := Assign(parsed, byKey, entries[n].value, Present(entries[..n]));
      }
      n := n + 1;
    }
    assert entries[..n] == entries;
  }

  /** `parseEnvFile` */
  method ParseEnvFile(content: string) returns (parsed: seq<EnvVar>)
    ensures LastWins(Assignments(content), parsed) && Leaves(Assignments(content), parsed)
  {
    parsed := Collect(Entries(SplitLines(content)));
    LastWinsLeaves(Assignments(content), parsed);
  }

  // ----- Printing ---------------------------------------------------------------------------

  /** The letter and the character of the `k`-th replacement. */
  function Letter(k: nat): char
    requires k < 5
  {
    if k == 0 then 'n' else if k == 1 then 'r' else if k == 2 then 't' else if k == 3 then DQ else BS
  }

  function Char(k: nat): char
    requires k < 5
  {
    if k == 0 then '\n' else if k == 1 then '\r' else if k == 2 then '\t' else if k == 3 then DQ else BS
  }

  /** Which replacement yields `c`; 5 for characters that need no escape. */
  function Kind(c: char): (k: nat)
    ensures k <= 5 && (k < 5 ==> Char(k) == c)
    ensures forall j: nat | j < 5 && Char(j) == c :: j == k
  {
    if c == '\n' then 0 else if c == '\r' then 1 else if c == '\t' then 2
    else if c == DQ then 3 else if c == BS then 4 else 5
  }

  /** The escape of one character, when the first `done` of the five replacements have been undone. */
  function EscapeChar(c: char, done: nat): string {
    if done <= Kind(c) < 5 then [BS, Letter(Kind(c))] else [c]
  }

  function EscapeUpTo(v: string, done: nat): string {
    if v == "" then "" else EscapeChar(v[0], done) + EscapeUpTo(v[1..], done)
  }

  /** The usual escaping inside double quotes. */
  function Escape(v: string): string {
    EscapeUpTo(v, 0)
  }

  /** A backslash that stands directly before the letter `x`. */
  predicate HasPair(v: string, x: char) {
    exists i | 0 <= i < |v| - 1 :: v[i] == BS && v[i + 1] == x
  }

  lemma {:induction false} EscapeDone(v: string)
    ensures EscapeUpTo(v, 5) == v
  {
    if v != "" {
      EscapeDone(v[1..]);
    }
  }

  /** An escaped text never starts with the raw character of a replacement that is still to come. */
  lemma EscapedStart(v: string, k: nat)
    requires k < 4 && v != ""
    ensures EscapeUpTo(v, k)[0] == Letter(k) <==> v[0] == Letter(k) && k < 3
  {
  }

  /** What a replacement does behind the backslash of an escaped backslash. */
  lemma AfterBackslash(rest: string, x: char, y: char)
    requires rest == "" || rest[0] != x
    ensures ReplacePair([BS] + rest, x, y) == [BS] + ReplacePair(rest, x, y)
  {
    var s := [BS] + rest;
    assert s[1..] == rest;
  }

  /** One replacement undoes one kind of escape, unless a backslash stands before its letter. */
  lemma {:induction false} ReplaceUndoes(v: string, k: nat)
    requires k < 5
    requires k < 3 ==> !HasPair(v, Letter(k))
    ensures ReplacePair(EscapeUpTo(v, k), Letter(k), Char(k)) == EscapeUpTo(v, k + 1)
  {
    if v != "" {
      TailHasNoPair(v, Letter(k));
      ReplaceUndoes(v[1..], k);
      ReplaceHead(v[0], EscapeUpTo(v[1..], k), k);
      if v[0] == BS && k < 4 {
        ReplaceBackslash(v, k);
      }
    }
  }

  lemma ReplaceBackslash(v: string, k: nat)
    requires k < 4 && v != "" && v[0] == BS
    requires k < 3 ==> !HasPair(v, Letter(k))
    ensures var rest := EscapeUpTo(v[1..], k);
            ReplacePair([BS] + rest, Letter(k), Char(k)) == [BS] + ReplacePair(rest, Letter(k), Char(k))
  {
    var rest := EscapeUpTo(v[1..], k);
    if v[1..] != "" {
      EscapedStart(v[1..], k);
      PairHere(v, Letter(k));
    }
    AfterBackslash(rest, Letter(k), Char(k));
  }

  lemma PairHere(v: string, x: char)
    ensures |v| >= 2 && v[0] == BS && v[1] == x ==> HasPair(v, x)
  {
  }

  lemma TailHasNoPair(v: string, x: char)
    requires v != ""
    ensures !HasPair(v, x) ==> !HasPair(v[1..], x)
  {
    if HasPair(v[1..], x) {
      var i :| 0 <= i < |v[1..]| - 1 && v[1..][i] == BS && v[1..][i + 1] == x;
      assert v[i + 1] == BS && v[i + 2] == x;
    }
  }

  /** The replacement at the escape of one character. */
  lemma ReplaceHead(c: char, rest: string, k: nat)
    requires k < 5
    ensures c != BS || k == 4 ==>
              ReplacePair(EscapeChar(c, k) + rest, Letter(k), Char(k)) ==
              EscapeChar(c, k + 1) + ReplacePair(rest, Letter(k), Char(k))
    ensures c == BS && k < 4 ==>
              ReplacePair(EscapeChar(c, k) + rest, Letter(k), Char(k)) ==
              [BS] + ReplacePair([BS] + rest, Letter(k), Char(k))
  {
    var x, y := Letter(k), Char(k);
    if k <= Kind(c) < 5 {
      var l := Letter(Kind(c));
      assert l == x <==> Kind(c) == k;
      ReplaceAtPair(l, rest, x, y);
      if l != BS {
        ReplaceAtChar(l, rest, x, y);
      }
    } else {
      ReplaceAtChar(c, rest, x, y);
    }
  }

  lemma ReplaceAtPair(l: char, rest: string, x: char, y: char)
    ensures ReplacePair([BS, l] + rest, x, y) ==
            if l == x then [y] + ReplacePair(rest, x, y) else [BS] + ReplacePair([l] + rest, x, y)
  {
    var s := [BS, l] + rest;
    assert s[2..] == rest && s[1..] == [l] + rest;
  }

  lemma ReplaceAtChar(c: char, rest: string, x: char, y: char)
    requires c != BS
    ensures ReplacePair([c] + rest, x, y) == [c] + ReplacePair(rest, x, y)
  {
    assert ([c] + rest)[1..] == rest;
  }

  // ----- When a value survives -----------------------------------------------------------------

  /** No backslash directly before a letter that a replacement looks for. */
  predicate Survives(v: string) {
    !HasPair(v, 'n') && !HasPair(v, 'r') && !HasPair(v, 't')
  }

  lemma UnescapeInverts(v: string)
    requires Survives(v)
    ensures Unescape(Escape(v)) == v
  {
    var s1, s2, s3, s4 := EscapeUpTo(v, 1), EscapeUpTo(v, 2), EscapeUpTo(v, 3), EscapeUpTo(v, 4);
    assert ReplacePair(Escape(v), 'n', '\n') == s1 by { ReplaceUndoes(v, 0); }
    assert ReplacePair(s1, 'r', '\r') == s2 by { ReplaceUndoes(v, 1); }
    assert ReplacePair(s2, 't', '\t') == s3 by { ReplaceUndoes(v, 2); }
    assert ReplacePair(s3, DQ, DQ) == s4 by { ReplaceUndoes(v, 3); }
    assert ReplacePair(s4, BS, BS) == v by { ReplaceUndoes(v, 4); EscapeDone(v); }
  }

  function Count(s: string, c: char): nat {
    if s == "" then 0 else (if s[0] == c then 1 else 0) + Count(s[1..], c)
  }

  function PairCount(s: string, x: char): nat {
    if |s| < 2 then 0 else (if s[0] == BS && s[1] == x then 1 else 0) + PairCount(s[1..], x)
  }

  lemma {:induction false} PairCounted(v: string, x: char)
    ensures HasPair(v, x) ==> PairCount(v, x) > 0
  {
    if |v| >= 2 {
      PairCounted(v[1..], x);
      if HasPair(v, x) && !(v[0] == BS && v[1] == x) {
        var i :| 0 <= i < |v| - 1 && v[i] == BS && v[i + 1] == x;
        assert v[1..][i - 1] == BS && v[1..][i] == x;
      }
    }
  }

  lemma CountCons(c: char, s: string, d: char, x: char)
    ensures Count([c] + s, d) == (if c == d then 1 else 0) + Count(s, d)
    ensures c != BS ==> PairCount([c] + s, x) == PairCount(s, x)
    ensures s != "" ==> PairCount([c] + s, x) == (if c == BS && s[0] == x then 1 else 0) + PairCount(s, x)
    ensures s == "" ==> PairCount([c] + s, x) == 0
  {
    assert ([c] + s)[1..] == s;
  }

  /** A replacement adds one `y` for every pair it finds. */
  lemma {:induction false} CountReplaced(s: string, x: char, y: char)
    requires x != BS && y != BS && x != y
    ensures Count(ReplacePair(s, x, y), y) == Count(s, y) + PairCount(s, x)
  {
    if |s| >= 2 {
      if s[0] == BS && s[1] == x {
        CountReplaced(s[2..], x, y);
        CountCons(y, ReplacePair(s[2..], x, y), y, x);
        assert s[1..] == [x] + s[2..];
        CountCons(x, s[2..], y, x);
      } else {
        CountReplaced(s[1..], x, y);
        CountCons(s[0], ReplacePair(s[1..], x, y), y, x);
      }
    }
  }

  /** Other characters stay as many as they were. */
  lemma {:induction false} CountKept(s: string, x: char, y: char, c: char)
    requires c != x && c != y && c != BS
    ensures Count(ReplacePair(s, x, y), c) == Count(s, c)
  {
    if |s| >= 2 {
      if s[0] == BS && s[1] == x {
        CountKept(s[2..], x, y, c);
        CountCons(y, ReplacePair(s[2..], x, y), c, x);
        assert s[1..] == [x] + s[2..];
        CountCons(x, s[2..], c, x);
      } else {
        CountKept(s[1..], x, y, c);
        CountCons(s[0], ReplacePair(s[1..], x, y), c, x);
      }
    }
  }

  /** Pairs with another letter stay as many as they were. */
  lemma {:induction false} PairKept(s: string, x: char, y: char, z: char)
    requires x != BS && y != BS && z != BS && z != x && z != y
    ensures PairCount(ReplacePair(s, x, y), z) == PairCount(s, z)
  {
    if |s| >= 2 {
      if s[0] == BS && s[1] == x {
        PairKept(s[2..], x, y, z);
        CountCons(y, ReplacePair(s[2..], x, y), y, z);
        assert s[1..] == [x] + s[2..];
        CountCons(x, s[2..], y, z);
      } else {
        PairKept(s[1..], x, y, z);
        var rest := ReplacePair(s[1..], x, y);
        CountCons(s[0], rest, y, z);
        assert rest != "" && (rest[0] == z <==> s[1] == z);
      }
    }
  }

  /** The pairs in an escaped text: one for every escaped character, one for every pair in the value. */
  lemma {:induction false} EscapePairs(v: string, k: nat)
    requires k < 3
    ensures PairCount(Escape(v), Letter(k)) == Count(v, Char(k)) + PairCount(v, Letter(k))
    ensures Count(Escape(v), Char(k)) == 0
  {
    if v != "" {
      EscapePairs(v[1..], k);
      var c, rest := v[0], Escape(v[1..]);
      EscapePairsHead(c, rest, k);
      if v[1..] != "" {
        EscapeStart(v[1..], k);
      }
    }
  }

  lemma EscapeStart(v: string, k: nat)
    requires k < 3 && v != ""
    ensures Escape(v) != "" && (Escape(v)[0] == Letter(k) <==> v[0] == Letter(k))
  {
  }

  lemma EscapePairsHead(c: char, rest: string, k: nat)
    requires k < 3
    ensures Count(EscapeChar(c, 0) + rest, Char(k)) == Count(rest, Char(k))
    ensures PairCount(EscapeChar(c, 0) + rest, Letter(k)) ==
            (if c == Char(k) then 1 else if c == BS && rest != "" && rest[0] == Letter(k) then 1 else 0) +
            PairCount(rest, Letter(k))
  {
    if Kind(c) < 5 {
      PairThen(Letter(Kind(c)), rest, Char(k), Letter(k));
      assert Letter(Kind(c)) == Letter(k) <==> Kind(c) == k;
    } else {
      CountCons(c, rest, Char(k), Letter(k));
    }
  }

  lemma PairThen(l: char, rest: string, d: char, x: char)
    requires d != BS && x != BS
    ensures Count([BS, l] + rest, d) == (if l == d then 1 else 0) + Count(rest, d)
    ensures PairCount([BS, l] + rest, x) ==
            (if l == x then 1 else 0) + (if l == BS && rest != "" && rest[0] == x then 1 else 0) + PairCount(rest, x)
  {
    assert [BS, l] + rest == [BS] + ([l] + rest);
    CountCons(BS, [l] + rest, d, x);
    CountCons(l, rest, d, x);
  }

  /** After unescaping, every surviving pair of the value shows as one more control character. */
  lemma UnescapeCounts(v: string, k: nat)
    requires k < 3
    ensures Count(Unescape(Escape(v)), Char(k)) == Count(v, Char(k)) + PairCount(v, Letter(k))
  {
    var s0 := Escape(v);
    var s1 := ReplacePair(s0, 'n', '\n');
    var s2 := ReplacePair(s1, 'r', '\r');
    var s3 := ReplacePair(s2, 't', '\t');
    var s4 := ReplacePair(s3, DQ, DQ);
    EscapePairs(v, k);
    if k == 0 {
      CountReplaced(s0, 'n', '\n');
      CountKept(s1, 'r', '\r', '\n');
      CountKept(s2, 't', '\t', '\n');
    } else if k == 1 {
      PairKept(s0, 'n', '\n', 'r');
      CountKept(s0, 'n', '\n', '\r');
      CountReplaced(s1, 'r', '\r');
      CountKept(s2, 't', '\t', '\r');
    } else {
      PairKept(s0, 'n', '\n', 't');
      CountKept(s0, 'n', '\n', '\t');
      PairKept(s1, 'r', '\r', 't');
      CountKept(s1, 'r', '\r', '\t');
      CountReplaced(s2, 't', '\t');
    }
    CountKept(s3, DQ, DQ, Char(k));
    CountKept(s4, BS, BS, Char(k));
  }

  /** Unescaping inverts escaping exactly for the values without such a pair. */
  lemma UnescapeInvertsIff(v: string)
    ensures Unescape(Escape(v)) == v <==> Survives(v)
  {
    if Survives(v) {
      UnescapeInverts(v);
    } else {
      UnescapeCounts(v, 0);
      UnescapeCounts(v, 1);
      UnescapeCounts(v, 2);
      PairCounted(v, 'n');
      PairCounted(v, 'r');
      PairCounted(v, 't');
    }
  }

  // ----- Double quotes ------------------------------------------------------------------------

  /** Escaped text: no line breaks, and a backslash before every double quote. */
  lemma {:induction false} EscapeClean(v: string)
    ensures '\n' !in Escape(v) && '\r' !in Escape(v)
    ensures forall i | 0 <= i < |Escape(v)| :: Escape(v)[i] == DQ ==> i > 0 && Escape(v)[i - 1] == BS
  {
    if v != "" {
      EscapeClean(v[1..]);
      var e, rest := EscapeChar(v[0], 0), Escape(v[1..]);
      assert Escape(v) == e + rest;
      forall i | 0 <= i < |Escape(v)| && Escape(v)[i] == DQ ensures i > 0 && Escape(v)[i - 1] == BS {
        if i >= |e| {
          assert rest[i - |e|] == DQ;
        }
      }
    }
  }

  lemma UnquotePrinted(v: string)
    ensures Unquote([DQ] + Escape(v) + [DQ]) == Unescape(Escape(v))
  {
    var q := [DQ] + Escape(v) + [DQ];
    TrimTight(q);
    assert q[1..|q| - 1] == Escape(v);
  }

  lemma KeyIsTight(key: string)
    requires IsKey(key)
    ensures Trim(key) == key && '=' !in key && '\n' !in key && '\r' !in key && '#' !in key
  {
    assert KeyStart(key[|key| - 1]) || IsDigit(key[|key| - 1]);
    TrimTight(key);
  }

  lemma ParseQuoted(key: string, q: string)
    requires key != "" && '=' !in key
    ensures ParseAssignment(key + ['='] + q) == Assignment(key, q)
  {
    var line := key + ['='] + q;
    IndexAfter(key, '=', q);
    assert line[..|key|] == key && line[|key| + 1..] == q;
  }

  lemma {:induction false} PresentCons(e: Option<EnvVar>, entries: seq<Option<EnvVar>>)
    ensures Present([e] + entries) == Append([], e) + Present(entries)
  {
    if entries == [] {
      assert ([e] + entries)[..0] == [];
    } else {
      var n := |entries| - 1;
      PresentCons(e, entries[..n]);
      assert ([e] + entries)[..n + 1] == [e] + entries[..n];
    }
  }

  lemma AssignmentsEmpty()
    ensures Assignments("") == []
  {
    assert SplitLines("") == [""];
    MapCons(ParseLine, "", []);
    assert [""] == [""] + [];
    assert ParseLine("") == None;
    assert Present([None]) == [];
  }

  predicate DistinctKeys(vars: seq<EnvVar>) {
    forall i, j | 0 <= i < j < |vars| :: vars[i].key != vars[j].key
  }

  /** With distinct keys nothing is overwritten. */
  lemma {:induction false} DistinctKeepsAll(all: seq<EnvVar>)
    requires DistinctKeys(all)
    ensures |FirstKeys(all)| == |all|
    ensures forall i | 0 <= i < |all| :: FirstKeys(all)[i] == all[i].key && LastValue(all, all[i].key) == all[i].value
  {
    if all != [] {
      var n := |all| - 1;
      DistinctKeepsAll(all[..n]);
      assert !Assigned(all[..n], all[n].key);
    }
  }

  lemma NothingLost(all: seq<EnvVar>, parsed: seq<EnvVar>)
    requires DistinctKeys(all)
    requires LastWins(all, parsed)
    ensures parsed == all
  {
    DistinctKeepsAll(all);
  }

  // ----- Printing styles ------------------------------------------------------------------------

  datatype Style = Bare | Single | Double

  /** A value as it is written behind the equals sign. */
  function Quoted(style: Style, v: string): string {
    match style
    case Bare => v
    case Single => [SQ] + v + [SQ]
    case Double => [DQ] + Escape(v) + [DQ]
  }

  /** A comment behind a value. */
  function Behind(remark: Option<string>): string {
    if remark.Some? then " #" + remark.value else ""
  }

  predicate NoComment(value: string) {
    forall i: nat | i < |value| :: !StartsComment(value, i)
  }

  /** A quote at both ends. */
  predicate LooksQuoted(v: string) {
    |v| >= 2 && (v[0] == DQ || v[0] == SQ) && v[|v| - 1] == v[0]
  }

  /** No white space at the ends. */
  predicate Tight(v: string) {
    v != "" ==> !IsSpace(v[0]) && !IsSpace(v[|v| - 1])
  }

  /** Which values a style holds if nothing is cut off. */
  predicate Holds(style: Style, v: string) {
    match style
    case Bare => Tight(v) && !LooksQuoted(v)
    case Single => true
    case Double => Survives(v)
  }

  /** Which values survive which style: nothing in them is a comment, and no open quote takes in the one behind. */
  predicate Fits(style: Style, v: string, remarked: bool) {
    var q := Quoted(style, v);
    Holds(style, v) && NoComment(q) && (remarked ==> QuoteAt(q, |q|) == None)
  }

  /** What the parser makes of the text behind the equals sign. */
  function ReadValue(x: string): string {
    Unquote(StripFrom(TrimEnd(x), 0, None))
  }

  // The text behind a prefix does not change how the prefix is read.

  lemma {:induction false} QuoteAtPrefix(a: string, b: string, i: nat)
    requires i <= |a|
    ensures QuoteAt(a + b, i) == QuoteAt(a, i)
  {
    if i > 0 {
      QuoteAtPrefix(a, b, i - 1);
    }
  }

  lemma CommentInPrefix(a: string, b: string, i: nat)
    requires i < |a|
    ensures StartsComment(a + b, i) <==> StartsComment(a, i)
  {
    QuoteAtPrefix(a, b, i);
  }

  lemma {:induction false} TrimEndBehind(a: string, x: string)
    requires a != "" && !IsSpace(a[|a| - 1])
    ensures TrimEnd(a + x) == a + TrimEnd(x)
  {
    if x == "" {
      assert a + x == a;
    } else if IsSpace(x[|x| - 1]) {
      TrimEndBehind(a, x[..|x| - 1]);
      assert (a + x)[..|a + x| - 1] == a + x[..|x| - 1];
    }
  }

  lemma {:induction false} TrimEndSpace(a: string, c: char)
    requires IsSpace(c)
    ensures TrimEnd(a + [c]) == TrimEnd(a)
  {
    assert (a + [c])[..|a|] == a;
  }

  /** The scan stops at the first comment, or not at all. */
  lemma StripAt(value: string, k: nat)
    requires IsFirstComment(value, k)
    ensures StripFrom(value, 0, None) == TrimEnd(value[..k])
  {
    StripFromCuts(value, 0);
  }

  lemma StripNot(value: string)
    requires NoComment(value)
    ensures StripFrom(value, 0, None) == value
  {
    StripFromCuts(value, 0);
  }

  lemma {:induction false} FirstCommentFrom(value: string, n: nat) returns (k: nat)
    requires n <= |value| && (forall j: nat | j < n :: !StartsComment(value, j)) && !NoComment(value)
    ensures IsFirstComment(value, k) && k >= n
    decreases |value| - n
  {
    if n < |value| && StartsComment(value, n) {
      k := n;
    } else {
      k := FirstCommentFrom(value, n + 1);
    }
  }

  /** A comment ends the value, whatever follows the hash. */
  lemma StripBehindHash(head: string, u: string, k: nat)
    requires |head| == k + 1 && IsFirstComment(head, k)
    ensures StripFrom(head + u, 0, None) == TrimEnd(head[..k])
  {
    forall j: nat | j <= k ensures StartsComment(head + u, j) <==> StartsComment(head, j) {
      CommentInPrefix(head, u, j);
    }
    StripAt(head + u, k);
    assert (head + u)[..k] == head[..k];
  }

  lemma FirstCommentOfPrefix(head: string, rest: string, k: nat)
    requires |head| == k + 1 && IsFirstComment(head + rest, k)
    ensures IsFirstComment(head, k) && head[..k] == (head + rest)[..k]
  {
    forall j: nat | j <= k ensures StartsComment(head + rest, j) <==> StartsComment(head, j) {
      CommentInPrefix(head, rest, j);
    }
  }

  /** A comment inside `q` ends the value there. */
  lemma StripInside(q: string, k: nat, remark: Option<string>)
    requires IsFirstComment(q, k)
    ensures StripFrom(TrimEnd(q + Behind(remark)), 0, None) == TrimEnd(q[..k])
  {
    var head, rest := q[..k + 1], q[k + 1..];
    assert q == head + rest;
    FirstCommentOfPrefix(head, rest, k);
    ConcatAssociates(head, rest, Behind(remark));
    TrimEndBehind(head, rest + Behind(remark));
    StripBehindHash(head, TrimEnd(rest + Behind(remark)), k);
  }

  lemma NoCommentInPrefix(a: string, b: string)
    requires NoComment(a + b)
    ensures NoComment(a)
  {
    forall i: nat | i < |a| ensures !StartsComment(a, i) {
      CommentInPrefix(a, b, i);
    }
  }

  lemma StripAlone(q: string)
    requires NoComment(q)
    ensures StripFrom(TrimEnd(q + Behind(None)), 0, None) == TrimEnd(q)
  {
    assert q + Behind(None) == q;
    var t := TrimEnd(q);
    assert q == t + q[|t|..];
    NoCommentInPrefix(t, q[|t|..]);
    StripNot(t);
  }

  lemma RemarkTrimmed(q: string, remark: string)
    ensures TrimEnd(q + Behind(Some(remark))) == q + (" #" + TrimEnd(remark))
  {
    var mark := " #";
    ConcatAssociates(q, mark, remark);
    ConcatAssociates(q, mark, TrimEnd(remark));
    TrimEndBehind(q + mark, remark);
  }

  lemma RemarkStarts(q: string, rest: string)
    requires NoComment(q) && QuoteAt(q, |q|) == None && |rest| >= 2 && rest[0] == ' ' && rest[1] == '#'
    ensures IsFirstComment(q + rest, |q| + 1)
  {
    var y := q + rest;
    QuoteAtPrefix(q, rest, |q|);
    assert y[|q|] == ' ' && y[|q| + 1] == '#';
    assert !IsQuote(y, |q|);
    forall j: nat | j < |q| ensures !StartsComment(y, j) {
      CommentInPrefix(q, rest, j);
    }
  }

  /** A comment behind the value is found unless a quote is open. */
  lemma StripRemark(q: string, remark: string)
    requires NoComment(q) && QuoteAt(q, |q|) == None
    ensures StripFrom(TrimEnd(q + Behind(Some(remark))), 0, None) == TrimEnd(q)
  {
    var rest := " #" + TrimEnd(remark);
    RemarkTrimmed(q, remark);
    RemarkStarts(q, rest);
    StripAt(q + rest, |q| + 1);
    assert (q + rest)[..|q| + 1] == q + [' '];
    TrimEndSpace(q, ' ');
  }

  /** With a quote open the comment stays in the value. */
  lemma StripOpen(q: string, remark: string) returns (rest: string)
    requires NoComment(q) && QuoteAt(q, |q|) != None
    ensures StripFrom(TrimEnd(q + Behind(Some(remark))), 0, None) == q + " #" + rest
  {
    RemarkTrimmed(q, remark);
    rest := TrimEnd(remark);
    var tail := " #" + rest;
    var y := q + tail;
    ConcatAssociates(q, " #", rest);
    QuoteAtPrefix(q, tail, |q|);
    forall j: nat | j < |q| + 2 ensures !StartsComment(y, j) {
      if j < |q| {
        CommentInPrefix(q, tail, j);
      }
    }
    if NoComment(y) {
      StripNot(y);
    } else {
      var k := FirstCommentFrom(y, |q| + 2);
      rest := CutBehindMark(q + " #", rest, k);
    }
  }

  lemma CutBehindMark(front: string, rest: string, k: nat) returns (less: string)
    requires |front| <= k && front != "" && !IsSpace(front[|front| - 1]) && IsFirstComment(front + rest, k)
    ensures StripFrom(front + rest, 0, None) == front + less
  {
    StripAt(front + rest, k);
    var part := rest[..k - |front|];
    assert (front + rest)[..k] == front + part;
    TrimEndBehind(front, part);
    less := TrimEnd(part);
  }

  // Hashes are never lost.

  lemma {:induction false} CountConcat(a: string, b: string, c: char)
    ensures Count(a + b, c) == Count(a, c) + Count(b, c)
  {
    if a == "" {
      assert a + b == b;
    } else {
      CountConcat(a[1..], b, c);
      assert (a + b)[1..] == a[1..] + b;
    }
  }

  lemma {:induction false} CountTrimStart(s: string)
    ensures Count(TrimStart(s), '#') == Count(s, '#')
  {
    if s != "" && IsSpace(s[0]) {
      CountTrimStart(s[1..]);
    }
  }

  lemma {:induction false} CountTrimEnd(s: string)
    ensures Count(TrimEnd(s), '#') == Count(s, '#')
  {
    if s != "" && IsSpace(s[|s| - 1]) {
      var n := |s| - 1;
      CountTrimEnd(s[..n]);
      assert s == s[..n] + [s[n]];
      CountConcat(s[..n], [s[n]], '#');
    }
  }

  lemma CountUnescape(s: string)
    ensures Count(Unescape(s), '#') == Count(s, '#')
  {
    var s1 := ReplacePair(s, 'n', '\n');
    var s2 := ReplacePair(s1, 'r', '\r');
    var s3 := ReplacePair(s2, 't', '\t');
    var s4 := ReplacePair(s3, DQ, DQ);
    CountKept(s, 'n', '\n', '#');
    CountKept(s1, 'r', '\r', '#');
    CountKept(s2, 't', '\t', '#');
    CountKept(s3, DQ, DQ, '#');
    CountKept(s4, BS, BS, '#');
  }

  lemma CountInner(t: string)
    requires LooksQuoted(t)
    ensures Count(t[1..|t| - 1], '#') == Count(t, '#')
  {
    var inner := t[1..|t| - 1];
    assert t == [t[0]] + inner + [t[|t| - 1]];
    CountConcat([t[0]] + inner, [t[|t| - 1]], '#');
    CountConcat([t[0]], inner, '#');
  }

  lemma CountUnquote(x: string)
    ensures Count(Unquote(x), '#') == Count(x, '#')
  {
    var t := Trim(x);
    CountTrimStart(x);
    CountTrimEnd(TrimStart(x));
    if LooksQuoted(t) {
      CountInner(t);
      CountUnescape(t[1..|t| - 1]);
    }
  }

  lemma {:induction false} CountEscape(v: string)
    ensures Count(Escape(v), '#') == Count(v, '#')
  {
    if v != "" {
      CountEscape(v[1..]);
      CountConcat(EscapeChar(v[0], 0), Escape(v[1..]), '#');
    }
  }

  lemma CountQuoted(style: Style, v: string)
    ensures Count(Quoted(style, v), '#') == Count(v, '#')
  {
    match style
    case Bare =>
    case Single =>
      CountConcat([SQ] + v, [SQ], '#');
      CountConcat([SQ], v, '#');
    case Double =>
      CountConcat([DQ] + Escape(v), [DQ], '#');
      CountConcat([DQ], Escape(v), '#');
      CountEscape(v);
  }

  lemma OpenQuoteKeepsRemark(style: Style, v: string, remark: string)
    requires var q := Quoted(style, v); NoComment(q) && QuoteAt(q, |q|) != None
    ensures ReadValue(Quoted(style, v) + Behind(Some(remark))) != v
  {
    var q := Quoted(style, v);
    var rest := StripOpen(q, remark);
    CountUnquote(q + " #" + rest);
    CountConcat(q + " #", rest, '#');
    CountConcat(q, " #", '#');
    CountQuoted(style, v);
  }

  // Lengths.

  lemma {:induction false} ReplaceShrinks(s: string, x: char, y: char)
    ensures |ReplacePair(s, x, y)| <= |s|
  {
    if |s| >= 2 {
      if s[0] == BS && s[1] == x {
        ReplaceShrinks(s[2..], x, y);
      } else {
        ReplaceShrinks(s[1..], x, y);
      }
    }
  }

  lemma UnescapeShrinks(s: string)
    ensures |Unescape(s)| <= |s|
  {
    var s1 := ReplacePair(s, 'n', '\n');
    var s2 := ReplacePair(s1, 'r', '\r');
    var s3 := ReplacePair(s2, 't', '\t');
    var s4 := ReplacePair(s3, DQ, DQ);
    ReplaceShrinks(s, 'n', '\n');
    ReplaceShrinks(s1, 'r', '\r');
    ReplaceShrinks(s2, 't', '\t');
    ReplaceShrinks(s3, DQ, DQ);
    ReplaceShrinks(s4, BS, BS);
  }

  lemma UnquoteShrinks(x: string)
    ensures |Unquote(x)| <= |Trim(x)| <= |x| && (LooksQuoted(Trim(x)) ==> |Unquote(x)| < |Trim(x)|)
  {
    var t := Trim(x);
    if LooksQuoted(t) {
      UnescapeShrinks(t[1..|t| - 1]);
    }
  }

  /** A value that is cut at a comment does not come back. */
  lemma CutIsLost(style: Style, v: string, k: nat)
    requires style != Double && IsFirstComment(Quoted(style, v), k)
    ensures Unquote(TrimEnd(Quoted(style, v)[..k])) != v
  {
    var q := Quoted(style, v);
    var head := q[..k];
    assert head == head[..k - 1] + [q[k - 1]];
    TrimEndSpace(head[..k - 1], q[k - 1]);
    UnquoteShrinks(TrimEnd(head));
  }

  lemma TrimTrimEnd(s: string)
    ensures Trim(TrimEnd(s)) == Trim(s)
  {
    var t := TrimEnd(s);
    TrimEndsMeet(s);
  }

  lemma {:induction false} TrimEndsMeet(s: string)
    ensures TrimEnd(TrimStart(TrimEnd(s))) == TrimEnd(TrimStart(s))
  {
    if s != "" && IsSpace(s[|s| - 1]) {
      var n := |s| - 1;
      TrimEndsMeet(s[..n]);
      assert s == s[..n] + [s[n]];
      TrimSpace(s[..n], s[n]);
    }
  }

  lemma {:induction false} TrimStartSpace(s: string, c: char)
    requires IsSpace(c)
    ensures TrimStart(s + [c]) == if TrimStart(s) == "" then "" else TrimStart(s) + [c]
  {
    if s == "" {
      assert (s + [c])[1..] == "";
    } else if IsSpace(s[0]) {
      assert (s + [c])[1..] == s[1..] + [c];
      TrimStartSpace(s[1..], c);
    }
  }

  /** White space at the end makes no difference to a trimmed text. */
  lemma TrimSpace(s: string, c: char)
    requires IsSpace(c)
    ensures Trim(s + [c]) == Trim(s)
  {
    TrimStartSpace(s, c);
    TrimEndSpace(TrimStart(s), c);
  }

  lemma BareLengths(u: string, t: string, v: string)
    requires if LooksQuoted(t) then |u| < |t| else u == t
    requires |t| <= |v|
    ensures u == v <==> t == v && !LooksQuoted(v)
  {
  }

  lemma TightIff(v: string)
    ensures Trim(v) == v <==> Tight(v)
  {
    if v != "" && Tight(v) {
      TrimTight(v);
    }
  }

  lemma WholeBareIff(v: string)
    ensures Unquote(TrimEnd(v)) == v <==> Tight(v) && !LooksQuoted(v)
  {
    var u, t := Unquote(TrimEnd(v)), Trim(v);
    TrimTrimEnd(v);
    TightIff(v);
    assert if LooksQuoted(t) then |u| < |t| else u == t by {
      UnquoteLooks(TrimEnd(v));
    }
    BareLengths(u, t, v);
  }

  lemma UnquoteLooks(x: string)
    ensures if LooksQuoted(Trim(x)) then |Unquote(x)| < |Trim(x)| else Unquote(x) == Trim(x)
  {
    UnquoteShrinks(x);
  }

  lemma UnquoteSingle(q: string, v: string)
    requires q == [SQ] + v + [SQ]
    ensures Unquote(TrimEnd(q)) == v
  {
    TrimTight(q);
    assert q[1..|q| - 1] == v;
  }

  lemma WholeDoubleIff(v: string)
    ensures Unquote(TrimEnd([DQ] + Escape(v) + [DQ])) == v <==> Survives(v)
  {
    var q := [DQ] + Escape(v) + [DQ];
    assert TrimEnd(q) == q;
    UnquotePrinted(v);
    UnescapeInvertsIff(v);
  }

  /** What is left of a value that is not cut. */
  lemma WholeValueIff(style: Style, v: string)
    ensures Unquote(TrimEnd(Quoted(style, v))) == v <==> Holds(style, v)
  {
    match style
    case Bare => WholeBareIff(v);
    case Single => UnquoteSingle(Quoted(Single, v), v);
    case Double => WholeDoubleIff(v);
  }

  // Double quotes: nothing inside is a comment, and the closing quote counts unless a backslash stands before it.

  lemma {:induction false} QuoteInDouble(v: string, i: nat)
    requires 1 <= i <= |Escape(v)| + 1
    ensures QuoteAt([DQ] + Escape(v) + [DQ], i) == Some(DQ)
  {
    var q := [DQ] + Escape(v) + [DQ];
    if i == 1 {
      assert IsQuote(q, 0) && QuoteAt(q, 0) == None;
    } else {
      QuoteInDouble(v, i - 1);
      EscapeClean(v);
      assert q[i - 1] == Escape(v)[i - 2];
      assert q[i - 1] == DQ ==> q[i - 2] == BS;
    }
  }

  lemma {:induction false} EscapeEnd(v: string)
    requires v != ""
    ensures Escape(v) != "" && (Escape(v)[|Escape(v)| - 1] == BS <==> v[|v| - 1] == BS)
  {
    if |v| > 1 {
      EscapeEnd(v[1..]);
    } else {
      assert v[1..] == "" && EscapeUpTo("", 0) == "";
      assert Escape(v) == EscapeChar(v[0], 0) + "";
    }
  }

  lemma DoubleIsClosedIff(v: string)
    ensures var q := [DQ] + Escape(v) + [DQ];
            NoComment(q) && (QuoteAt(q, |q|) == None <==> v == "" || v[|v| - 1] != BS)
  {
    var q := [DQ] + Escape(v) + [DQ];
    forall i: nat | i < |q| ensures !StartsComment(q, i) {
      if i > 0 {
        QuoteInDouble(v, i);
      }
    }
    QuoteInDouble(v, |q| - 1);
    if v != "" {
      EscapeEnd(v);
      assert q[|q| - 2] == Escape(v)[|Escape(v)| - 1];
    }
  }

  /** The exact condition, for every style and every value, with or without a comment behind it. */
  lemma ReadValueIff(style: Style, v: string, remark: Option<string>)
    ensures ReadValue(Quoted(style, v) + Behind(remark)) == v <==> Fits(style, v, remark.Some?)
  {
    var q := Quoted(style, v);
    if !NoComment(q) {
      ReadCut(style, v, remark);
    } else if remark.Some? && QuoteAt(q, |q|) != None {
      OpenQuoteKeepsRemark(style, v, remark.value);
    } else {
      ReadWhole(style, v, remark);
    }
  }

  lemma ReadCut(style: Style, v: string, remark: Option<string>)
    requires !NoComment(Quoted(style, v))
    ensures ReadValue(Quoted(style, v) + Behind(remark)) != v
  {
    var k := FirstCommentFrom(Quoted(style, v), 0);
    StripInside(Quoted(style, v), k, remark);
    if style == Double {
      DoubleIsClosedIff(v);
    } else {
      CutIsLost(style, v, k);
    }
  }

  lemma ReadWhole(style: Style, v: string, remark: Option<string>)
    requires var q := Quoted(style, v); NoComment(q) && (remark.Some? ==> QuoteAt(q, |q|) == None)
    ensures ReadValue(Quoted(style, v) + Behind(remark)) == v <==> Holds(style, v)
  {
    var q := Quoted(style, v);
    if remark == None {
      StripAlone(q);
    } else {
      StripRemark(q, remark.value);
    }
    WholeValueIff(style, v);
  }

  // What this says in cases that need no quote state.

  lemma {:induction false} NoQuotesOpen(v: string, i: nat)
    requires i <= |v| && DQ !in v && SQ !in v
    ensures QuoteAt(v, i) == None
  {
    if i > 0 {
      NoQuotesOpen(v, i - 1);
    }
  }

  predicate HashBehindSpace(v: string, i: nat) {
    0 < i < |v| && v[i] == '#' && IsSpace(v[i - 1])
  }

  lemma PlainCommentIff(v: string, i: nat)
    requires DQ !in v && SQ !in v
    ensures StartsComment(v, i) <==> HashBehindSpace(v, i)
  {
    if i <= |v| {
      NoQuotesOpen(v, i);
    }
  }

  /** A bare value without quotes: no white space at its ends, and no hash behind white space. */
  lemma BareFitsIff(v: string, remarked: bool)
    requires DQ !in v && SQ !in v
    ensures Fits(Bare, v, remarked) <==> Tight(v) && forall i: nat | i < |v| :: !HashBehindSpace(v, i)
  {
    NoQuotesOpen(v, |v|);
    assert !LooksQuoted(v);
    forall i: nat ensures StartsComment(v, i) <==> HashBehindSpace(v, i) {
      PlainCommentIff(v, i);
    }
  }

  lemma {:induction false} SingleOpen(v: string, i: nat)
    requires 1 <= i <= |v| + 1 && SQ !in v
    ensures QuoteAt([SQ] + v + [SQ], i) == Some(SQ)
  {
    var q := [SQ] + v + [SQ];
    if i == 1 {
      assert IsQuote(q, 0) && QuoteAt(q, 0) == None;
    } else {
      SingleOpen(v, i - 1);
      assert q[i - 1] == v[i - 2];
    }
  }

  /** A value without single quotes fits between two of them, hashes and spaces included. */
  lemma SingleFitsIff(v: string, remarked: bool)
    requires SQ !in v
    ensures Fits(Single, v, remarked) <==> (remarked && v != "" ==> v[|v| - 1] != BS)
  {
    var q := [SQ] + v + [SQ];
    forall i: nat | i < |q| ensures !StartsComment(q, i) {
      if i > 0 {
        SingleOpen(v, i);
      }
    }
    SingleOpen(v, |q| - 1);
  }

  /** Between double quotes every value fits that survives escaping, unless a final backslash meets a comment. */
  lemma DoubleFitsIff(v: string, remarked: bool)
    ensures Fits(Double, v, remarked) <==> Survives(v) && (remarked && v != "" ==> v[|v| - 1] != BS)
  {
    DoubleIsClosedIff(v);
  }

  // ----- Whole files --------------------------------------------------------------------------

  predicate AllSpace(s: string) {
    forall c <- s :: IsSpace(c)
  }

  /** A line of a file: nothing, a comment, text that assigns nothing, or an assignment. */
  datatype Line =
    | Blank(text: string)
    | Remark(indent: string, text: string)
    | Prose(text: string)
    | Foreign(left: string, right: string)
    | Set(indent: string, exported: bool, gap: string, style: Style, v: EnvVar, remark: Option<string>)

  /** The part of an assignment before its value. */
  function Head(l: Line): string
    requires l.Set?
  {
    (if l.exported then "export " else "") + (l.v.key + l.gap + "=")
  }

  function Value(l: Line): string
    requires l.Set?
  {
    Quoted(l.style, l.v.value) + Behind(l.remark)
  }

  function PrintLine(l: Line): string {
    match l
    case Blank(text) => text
    case Remark(indent, text) => indent + ("#" + text)
    case Prose(text) => text
    case Foreign(left, right) => left + ("=" + right)
    case Set(indent, _, _, _, _, _) => indent + (Head(l) + Value(l))
  }

  /** One line of text, and what makes it the kind of line that it is. */
  predicate WellFormed(l: Line) {
    && '\n' !in PrintLine(l)
    && match l
       case Blank(text) => AllSpace(text)
       case Remark(indent, _) => AllSpace(indent)
       case Prose(text) => '=' !in text
       case Foreign(left, _) => '=' !in left && !IsKey(Trim(left)) && !("export " <= TrimStart(left))
       case Set(indent, _, gap, _, v, _) => AllSpace(indent) && AllSpace(gap) && IsKey(v.key)
  }

  // Trimming a line.

  lemma {:induction false} TrimStartBehind(a: string, x: string)
    requires x != "" && !IsSpace(x[0])
    ensures TrimStart(a + x) == TrimStart(a) + x
  {
    if a == "" {
      assert a + x == x;
    } else if IsSpace(a[0]) {
      TrimStartBehind(a[1..], x);
      assert (a + x)[1..] == a[1..] + x;
    }
  }

  lemma {:induction false} TrimStartSpaces(s: string)
    requires AllSpace(s)
    ensures TrimStart(s) == ""
  {
    if s != "" {
      TrimStartSpaces(s[1..]);
    }
  }

  lemma {:induction false} TrimEndSpaces(s: string)
    requires AllSpace(s)
    ensures TrimEnd(s) == ""
  {
    if s != "" {
      TrimEndSpaces(s[..|s| - 1]);
    }
  }

  /** A text that starts and ends without white space, between indentation and whatever follows. */
  lemma TrimAround(indent: string, h: string, x: string)
    requires AllSpace(indent) && h != "" && !IsSpace(h[0]) && !IsSpace(h[|h| - 1])
    ensures Trim(indent + (h + x)) == h + TrimEnd(x)
  {
    TrimStartSpaces(indent);
    TrimStartBehind(indent, h + x);
    assert "" + (h + x) == h + x;
    TrimEndBehind(h, x);
  }

  lemma {:induction false} TrimEndTwice(s: string)
    ensures TrimEnd(TrimEnd(s)) == TrimEnd(s)
  {
  }

  // Parsing one line.

  lemma KeyAndGap(key: string, gap: string)
    requires IsKey(key) && AllSpace(gap)
    ensures Trim(key + gap) == key && '=' !in key + gap && key + gap != ""
  {
    KeyIsTight(key);
    assert key + gap == "" + (key + gap);
    assert KeyStart(key[|key| - 1]) || IsDigit(key[|key| - 1]);
    TrimAround("", key, gap);
    TrimEndSpaces(gap);
    assert forall c <- gap :: c != '=';
  }

  /** What stands before the value, without "export". */
  lemma ParseUnexported(key: string, gap: string, x: string)
    requires IsKey(key) && AllSpace(gap)
    ensures ParseAssignment(key + gap + "=" + TrimEnd(x)) == Some(EnvVar(key, ReadValue(x)))
  {
    KeyAndGap(key, gap);
    ParseQuoted(key + gap, TrimEnd(x));
  }

  lemma HeadIsTight(key: string, gap: string)
    requires IsKey(key)
    ensures var h := key + gap + "="; h[0] == key[0] && !IsSpace(h[0]) && !IsSpace(h[|h| - 1])
  {
  }

  lemma ParsePlain(indent: string, key: string, gap: string, x: string)
    requires AllSpace(indent) && IsKey(key) && AllSpace(gap)
    ensures ParseLine(indent + (key + gap + "=" + x)) == Some(EnvVar(key, ReadValue(x)))
  {
    var h := key + gap + "=";
    HeadIsTight(key, gap);
    TrimAround(indent, h, x);
    ParseUnexported(key, gap, x);
    var line := h + TrimEnd(x);
    assert line[0] == key[0];
    assert !("export " <= line);
  }

  lemma ParseExport(raw: string, rest: string)
    requires Trim(raw) == "export " + rest
    ensures ParseLine(raw) == ParseAssignment(Trim(rest))
  {
    var line := Trim(raw);
    assert line[..7] == "export ";
    assert line[7..] == rest;
  }

  lemma TrimHead(h: string, x: string)
    requires h != "" && !IsSpace(h[0]) && !IsSpace(h[|h| - 1])
    ensures Trim(h + TrimEnd(x)) == h + TrimEnd(x)
  {
    TrimAround("", h, TrimEnd(x));
    assert "" + (h + TrimEnd(x)) == h + TrimEnd(x);
    TrimEndTwice(x);
  }

  lemma TrimExported(indent: string, h: string, x: string)
    requires AllSpace(indent) && h != "" && !IsSpace(h[|h| - 1])
    ensures Trim(indent + ("export " + h + x)) == "export " + (h + TrimEnd(x))
  {
    var word := "export ";
    TrimAround(indent, word + h, x);
    ConcatAssociates(word, h, TrimEnd(x));
  }

  lemma ParseExported(indent: string, key: string, gap: string, x: string)
    requires AllSpace(indent) && IsKey(key) && AllSpace(gap)
    ensures ParseLine(indent + ("export " + (key + gap + "=") + x)) == Some(EnvVar(key, ReadValue(x)))
  {
    var h := key + gap + "=";
    HeadIsTight(key, gap);
    TrimExported(indent, h, x);
    ParseExport(indent + ("export " + h + x), h + TrimEnd(x));
    TrimHead(h, x);
    ParseUnexported(key, gap, x);
  }

  /** An assignment is read under its key. */
  lemma ParsePrinted(l: Line)
    requires l.Set? && WellFormed(l)
    ensures ParseLine(PrintLine(l)) == Some(EnvVar(l.v.key, ReadValue(Value(l))))
  {
    if l.exported {
      ParseExported(l.indent, l.v.key, l.gap, Value(l));
    } else {
      assert "" + (l.v.key + l.gap + "=") == l.v.key + l.gap + "=";
      ParsePlain(l.indent, l.v.key, l.gap, Value(l));
    }
  }

  lemma ParseForeign(left: string, right: string)
    requires '=' !in left && !IsKey(Trim(left)) && !("export " <= TrimStart(left))
    ensures ParseLine(left + ("=" + right)) == None
  {
    var l := TrimStart(left);
    TrimStartBehind(left, "=" + right);
    TrimEndBehind(l + "=", right);
    ConcatAssociates(l, "=", right);
    NotInTrimmed(left, '=');
    ParseForeignTrimmed(left + ("=" + right), l, TrimEnd(right));
  }

  lemma {:induction false} NotInTrimmed(s: string, c: char)
    requires c !in s
    ensures c !in TrimStart(s) && c !in TrimEnd(s)
  {
    if s != "" && IsSpace(s[0]) {
      NotInTrimmed(s[1..], c);
    }
    NotInPrefix(s, TrimEnd(s), c);
  }

  lemma NotInPrefix(s: string, p: string, c: char)
    requires c !in s && p <= s
    ensures c !in p
  {
    assert forall d <- p :: d in s;
  }

  lemma ParseForeignTrimmed(raw: string, l: string, right: string)
    requires '=' !in l && !IsKey(TrimEnd(l)) && !("export " <= l) && TrimStart(l) == l
    requires Trim(raw) == l + "=" + right
    ensures ParseLine(raw) == None
  {
    var line := l + "=" + right;
    NotExported(l, "=" + right);
    ConcatAssociates(l, "=", right);
    if l == "" {
      assert line[0] == '=';
      IndexAfter(l, '=', right);
    } else {
      ParseQuoted(l, right);
    }
  }

  lemma NotExported(l: string, x: string)
    requires '=' !in l && !("export " <= l) && x != "" && x[0] == '='
    ensures !("export " <= l + x)
  {
    var line := l + x;
    if |l| >= 7 {
      assert line[..7] == l[..7];
    } else {
      assert line[|l|] == '=';
    }
  }

  lemma ParseRemark(indent: string, text: string)
    requires AllSpace(indent)
    ensures ParseLine(indent + ("#" + text)) == None
  {
    TrimAround(indent, "#", text);
  }

  lemma ParseBlank(text: string)
    requires AllSpace(text)
    ensures ParseLine(text) == None
  {
    TrimStartSpaces(text);
  }

  lemma ParseProse(text: string)
    requires '=' !in text
    ensures ParseLine(text) == None
  {
    NotInTrimmed(text, '=');
    NotInTrimmed(TrimStart(text), '=');
    var line := Trim(text);
    if "export " <= line {
      assert forall c <- line[7..] :: c in line;
      NotInTrimmed(line[7..], '=');
      NotInTrimmed(TrimStart(line[7..]), '=');
    }
  }

  /** The variable that a line was printed from, and what is read from it. */
  function Wanted(l: Line): Option<EnvVar> {
    if l.Set? then Some(l.v) else None
  }

  function ReadLine(l: Line): Option<EnvVar> {
    if l.Set? then Some(EnvVar(l.v.key, ReadValue(Value(l)))) else None
  }

  lemma ParseAnyLine(l: Line)
    requires WellFormed(l)
    ensures ParseLine(PrintLine(l)) == ReadLine(l)
  {
    match l
    case Blank(text) => ParseBlank(text);
    case Remark(indent, text) => ParseRemark(indent, text);
    case Prose(text) => ParseProse(text);
    case Foreign(left, right) => ParseForeign(left, right);
    case Set(_, _, _, _, _, _) => ParsePrinted(l);
  }

  /** A line and how it ends. */
  datatype Row = Row(line: Line, crlf: bool)

  function Eol(crlf: bool): string {
    if crlf then "\r\n" else "\n"
  }

  function Print(rows: seq<Row>): string {
    if rows == [] then "" else PrintLine(rows[0].line) + (Eol(rows[0].crlf) + Print(rows[1..]))
  }

  function WantedLines(rows: seq<Row>): (r: seq<Option<EnvVar>>)
    ensures |r| == |rows| && forall i | 0 <= i < |rows| :: r[i] == Wanted(rows[i].line)
  {
    seq(|rows|, i requires 0 <= i < |rows| => Wanted(rows[i].line))
  }

  function ReadLines(rows: seq<Row>): (r: seq<Option<EnvVar>>)
    ensures |r| == |rows| && forall i | 0 <= i < |rows| :: r[i] == ReadLine(rows[i].line)
  {
    seq(|rows|, i requires 0 <= i < |rows| => ReadLine(rows[i].line))
  }

  /** The variables that were printed. */
  function Vars(rows: seq<Row>): seq<EnvVar> {
    Present(WantedLines(rows))
  }

  predicate AllFit(rows: seq<Row>) {
    forall i | 0 <= i < |rows| :: RowFits(rows[i])
  }

  predicate RowFits(row: Row) {
    row.line.Set? ==> Fits(row.line.style, row.line.v.value, row.line.remark.Some?)
  }

  function DropCr(line: string): string {
    if line != "" && line[|line| - 1] == '\r' then line[..|line| - 1] else line
  }

  lemma SplitFront(front: string, rest: string)
    requires '\n' !in front
    ensures SplitLines(front + ['\n'] + rest) == [DropCr(front)] + SplitLines(rest)
  {
    var s := front + ['\n'] + rest;
    IndexAfter(front, '\n', rest);
    assert s[..|front|] == front && s[|front| + 1..] == rest;
    if front != "" {
      assert s[..|front| - 1] == front[..|front| - 1];
    }
  }

  lemma ParseDropped(line: string)
    ensures ParseLine(DropCr(line)) == ParseLine(line)
  {
    if line != "" && line[|line| - 1] == '\r' {
      var piece := line[..|line| - 1];
      TrimSpace(piece, '\r');
      assert line == piece + ['\r'];
    }
  }

  lemma EolShape(line: string, crlf: bool, rest: string)
    ensures line + (Eol(crlf) + rest) == (if crlf then line + ['\r'] else line) + ['\n'] + rest
  {
    var cr: string := ['\r'];
    var lf: string := ['\n'];
    if crlf {
      assert Eol(crlf) == cr + lf;
      assert line + (cr + lf + rest) == line + cr + lf + rest;
    } else {
      assert Eol(crlf) == lf;
      ConcatAssociates(line, lf, rest);
    }
  }

  lemma SplitEol(line: string, crlf: bool, rest: string)
    requires '\n' !in line
    ensures SplitLines(line + (Eol(crlf) + rest)) == [if crlf then line else DropCr(line)] + SplitLines(rest)
  {
    var front := if crlf then line + ['\r'] else line;
    EolShape(line, crlf, rest);
    SplitFront(front, rest);
    assert crlf ==> DropCr(front) == line;
  }

  /** A carriage return before the line feed makes no difference, whichever of the two it belongs to. */
  lemma AssignmentsCons(line: string, crlf: bool, rest: string)
    requires '\n' !in line
    ensures Assignments(line + (Eol(crlf) + rest)) == Append([], ParseLine(line)) + Assignments(rest)
  {
    var piece := if crlf then line else DropCr(line);
    SplitEol(line, crlf, rest);
    ParseDropped(line);
    MapCons(ParseLine, piece, SplitLines(rest));
    PresentCons(ParseLine(piece), Entries(SplitLines(rest)));
  }

  lemma {:induction false} AssignmentsOfPrint(rows: seq<Row>)
    requires forall i | 0 <= i < |rows| :: WellFormed(rows[i].line)
    ensures Assignments(Print(rows)) == Present(ReadLines(rows))
  {
    if rows == [] {
      AssignmentsEmpty();
    } else {
      ParseAnyLine(rows[0].line);
      AssignmentsCons(PrintLine(rows[0].line), rows[0].crlf, Print(rows[1..]));
      AssignmentsOfPrint(rows[1..]);
      ReadLinesCons(rows);
    }
  }

  lemma ReadLinesCons(rows: seq<Row>)
    requires rows != []
    ensures Present(ReadLines(rows)) == Append([], ReadLine(rows[0].line)) + Present(ReadLines(rows[1..]))
  {
    assert ReadLines(rows) == [ReadLine(rows[0].line)] + ReadLines(rows[1..]);
    PresentCons(ReadLine(rows[0].line), ReadLines(rows[1..]));
  }

  /** The same keys in the same places. */
  predicate SameKeys(a: seq<Option<EnvVar>>, b: seq<Option<EnvVar>>) {
    |a| == |b| && forall i | 0 <= i < |a| ::
      a[i].Some? == b[i].Some? && (a[i].Some? ==> a[i].value.key == b[i].value.key)
  }

  lemma {:induction false} PresentEqualIff(a: seq<Option<EnvVar>>, b: seq<Option<EnvVar>>)
    requires SameKeys(a, b)
    ensures |Present(a)| == |Present(b)|
    ensures forall i | 0 <= i < |Present(a)| :: Present(a)[i].key == Present(b)[i].key
    ensures Present(a) == Present(b) <==> a == b
  {
    if a != [] {
      var n := |a| - 1;
      PresentEqualIff(a[..n], b[..n]);
      SnocEqualIff(a[..n], a[n], b[..n], b[n]);
      assert a == a[..n] + [a[n]] && b == b[..n] + [b[n]];
      if a[n].Some? {
        SnocEqualIff(Present(a[..n]), a[n].value, Present(b[..n]), b[n].value);
      }
    }
  }

  lemma SnocEqualIff<T>(xs: seq<T>, x: T, ys: seq<T>, y: T)
    requires |xs| == |ys|
    ensures xs + [x] == ys + [y] <==> xs == ys && x == y
  {
    assert (xs + [x])[..|xs|] == xs && (ys + [y])[..|ys|] == ys;
    assert (xs + [x])[|xs|] == x && (ys + [y])[|ys|] == y;
  }

  lemma ReadsWellIff(row: Row)
    ensures ReadLine(row.line) == Wanted(row.line) <==> RowFits(row)
  {
    var l := row.line;
    if l.Set? {
      ReadValueIff(l.style, l.v.value, l.remark);
    }
  }

  /** Reading keeps the keys of the variables, and their values exactly if all fit. */
  lemma ReadsAreVarsIff(rows: seq<Row>)
    ensures SameKeys(ReadLines(rows), WantedLines(rows))
    ensures ReadLines(rows) == WantedLines(rows) <==> AllFit(rows)
  {
    forall i | 0 <= i < |rows| ensures ReadLines(rows)[i] == WantedLines(rows)[i] <==> RowFits(rows[i]) {
      ReadsWellIff(rows[i]);
    }
  }

  /**
   A file of assignments in any styles, with or without `export`, indentation and comments, among blank lines, comments
   and text, is read as the variables it was printed from if and only if each value fits its style.
   */
  lemma RoundTripIff(rows: seq<Row>, parsed: seq<EnvVar>)
    requires forall i | 0 <= i < |rows| :: WellFormed(rows[i].line)
    requires DistinctKeys(Vars(rows))
    requires LastWins(Assignments(Print(rows)), parsed)
    ensures parsed == Vars(rows) <==> AllFit(rows)
  {
    AssignmentsOfPrint(rows);
    ReadsAreVarsIff(rows);
    PresentEqualIff(ReadLines(rows), WantedLines(rows));
    assert DistinctKeys(Present(ReadLines(rows)));
    NothingLost(Present(ReadLines(rows)), parsed);
  }

  method ParsePrintedFile(rows: seq<Row>) returns (parsed: seq<EnvVar>)
    requires forall i | 0 <= i < |rows| :: WellFormed(rows[i].line)
    requires DistinctKeys(Vars(rows))
    ensures parsed == Vars(rows) <==> AllFit(rows)
  {
    parsed := ParseEnvFile(Print(rows));
    RoundTripIff(rows, parsed);
  }

  // ----- Line breaks ----------------------------------------------------------------------------

  /** A value with a line break comes from double quotes only, which take room in the line. */
  lemma ValueWithBreak(x: string)
    requires '\n' !in x && '\n' in Unquote(x)
    ensures |Unquote(x)| + 2 <= |x|
  {
    NotInTrimmed(x, '\n');
    NotInTrimmed(TrimStart(x), '\n');
    var t := Trim(x);
    if LooksQuoted(t) {
      var inner := t[1..|t| - 1];
      assert forall c <- inner :: c in t;
      UnescapeShrinks(inner);
    }
  }

  lemma StripIsPrefix(value: string)
    ensures StripFrom(value, 0, None) <= value
  {
    if NoComment(value) {
      StripNot(value);
    } else {
      var k := FirstCommentFrom(value, 0);
      StripAt(value, k);
    }
  }

  lemma AssignmentWithBreak(left: string, right: string)
    requires '\n' !in right && Assignment(left, right).Some? && '\n' in Assignment(left, right).value.value
    ensures var v := Assignment(left, right).value; |v.key| <= |left| && |v.value| + 2 <= |right|
  {
    var x := StripFrom(right, 0, None);
    StripIsPrefix(right);
    NotInPrefix(right, x, '\n');
    ValueWithBreak(x);
  }

  lemma NormalizedWithBreak(normalized: string)
    requires '\n' !in normalized
    ensures var r := ParseAssignment(normalized);
            r.Some? && '\n' in r.value.value ==> |r.value.key| + 1 + |r.value.value| + 2 <= |normalized|
  {
    var separator := IndexOf(normalized, '=');
    if separator > 0 {
      var left, right := normalized[..separator], normalized[separator + 1..];
      assert '\n' !in right;
      if Assignment(left, right).Some? && '\n' in Assignment(left, right).value.value {
        AssignmentWithBreak(left, right);
      }
    }
  }

  lemma LineWithBreak(line: string)
    requires '\n' !in line
    ensures var r := ParseLine(line);
            r.Some? && '\n' in r.value.value ==> |r.value.key| + 1 + |r.value.value| + 2 <= |line|
  {
    NotInTrimmed(line, '\n');
    NotInTrimmed(TrimStart(line), '\n');
    var t := Trim(line);
    if "export " <= t {
      assert '\n' !in t[7..];
      NotInTrimmed(t[7..], '\n');
      NotInTrimmed(TrimStart(t[7..]), '\n');
      NormalizedWithBreak(Trim(t[7..]));
    } else {
      NormalizedWithBreak(t);
    }
  }

  ghost predicate BreaksCost(all: seq<EnvVar>, n: nat) {
    forall a <- all :: '\n' in a.value ==> |a.value| + 3 <= n
  }

  /** The last line of a text, which no line feed ends. */
  lemma AssignmentsOfLast(line: string)
    requires '\n' !in line
    ensures Assignments(line) == Append([], ParseLine(line))
  {
    assert SplitLines(line) == [line];
    MapCons(ParseLine, line, []);
    assert [line] == [line] + [];
    assert Present([ParseLine(line)]) == Append([], ParseLine(line)) by {
      assert [ParseLine(line)][..0] == [];
    }
  }

  lemma {:induction false} TextWithBreaks(s: string)
    ensures BreaksCost(Assignments(s), |s|)
    decreases |s|
  {
    var i := IndexOf(s, '\n');
    if i == -1 {
      AssignmentsOfLast(s);
      LineWithBreak(s);
    } else {
      var front, rest := s[..i], s[i + 1..];
      assert s == front + (Eol(false) + rest);
      AssignmentsCons(front, false, rest);
      LineWithBreak(front);
      TextWithBreaks(rest);
    }
  }

  lemma BreakInFirst(key: string, f: string, rest: string, v: string)
    requires IsKey(key) && '\n' !in f && '\n' in v
    requires EnvVar(key, v) in Assignments(key + "=" + f + (Eol(false) + rest))
    ensures |v| + 2 <= |f| || |v| + 3 <= |rest|
  {
    var line := key + "=" + f;
    KeyIsTight(key);
    assert '\n' !in line;
    AssignmentsCons(line, false, rest);
    LineWithBreak(line);
    TextWithBreaks(rest);
  }

  /** The pieces of `key=value` before and behind the first line break. */
  lemma CutAtBreak(key: string, q: string) returns (f: string, rest: string)
    requires '\n' in q
    ensures q == f + ['\n'] + rest && '\n' !in f
    ensures key + "=" + q + "\n" == key + "=" + f + (Eol(false) + (rest + "\n"))
  {
    var i := IndexOf(q, '\n');
    f, rest := q[..i], q[i + 1..];
    assert q == f + ['\n'] + rest;
  }

  /** Only double quotes carry a line break: bare or in single quotes such a value never comes back. */
  lemma LineBreakIsLost(key: string, style: Style, v: string, parsed: seq<EnvVar>)
    requires IsKey(key) && style != Double && '\n' in v
    requires LastWins(Assignments(key + "=" + Quoted(style, v) + "\n"), parsed)
    ensures parsed != [EnvVar(key, v)]
  {
    var q := Quoted(style, v);
    var f, rest := CutAtBreak(key, q);
    var all := Assignments(key + "=" + q + "\n");
    LastWinsLeaves(all, parsed);
    if EnvVar(key, v) in all {
      BreakInFirst(key, f, rest + "\n", v);
    }
    if |parsed| == 1 {
      LeavesMember(all, parsed, 0);
    }
  }
}
