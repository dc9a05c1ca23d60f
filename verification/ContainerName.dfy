/**
 Container names of databases (apps/api/src/databases/spawner.ts) against the rule of the agent
 (agent/ploydok-agent/src/validator.rs).
 */
module ContainerName {

  predicate IsWord(c: char) {
    'a' <= c <= 'z' || '0' <= c <= '9'
  }

  predicate IsAllowed(c: char) {
    IsWord(c) || c == '-'
  }

  predicate NotAllowed(c: char) {
    !IsAllowed(c)
  }

  predicate IsDash(c: char) {
    c == '-'
  }

  predicate AllAllowed(s: string) {
    forall c <- s :: IsAllowed(c)
  }

  // ----- The passes ---------------------------------------------------------------------------------

  function DropWhile(s: string, p: char -> bool): (r: string)
    ensures |r| <= |s|
    ensures r == "" || !p(r[0])
  {
    if s != "" && p(s[0]) then DropWhile(s[1..], p) else s
  }

  lemma {:induction false} DropWhileIsSuffix(s: string, p: char -> bool)
    ensures var r := DropWhile(s, p); r == s[|s| - |r|..]
  {
    if s != "" && p(s[0]) {
      DropWhileIsSuffix(s[1..], p);
    }
  }

  /** Every longest run of characters in `p` becomes one dash. */
  function RunsToDash(s: string, p: char -> bool): string
    decreases |s|
  {
    if s == "" then ""
    else if p(s[0]) then "-" + RunsToDash(DropWhile(s[1..], p), p)
    else [s[0]] + RunsToDash(s[1..], p)
  }

  function DropDashesAtEnd(s: string): (r: string)
    ensures r <= s && (r == "" || r[|r| - 1] != '-')
  {
    if s != "" && s[|s| - 1] == '-' then DropDashesAtEnd(s[..|s| - 1]) else s
  }

  /** `normalizeDatabaseRuntimeToken`, with the lower-casing left open. */
  function Normalize(lower: string -> string, id: string, maxLength: nat): string {
    var s1 := RunsToDash(lower(id), NotAllowed);
    var s2 := RunsToDash(s1, IsDash);
    var s3 := DropDashesAtEnd(DropWhile(s2, IsDash));
    var s4 := if |s3| <= maxLength then s3 else s3[..maxLength];
    if s4 == "" then "db" else s4
  }

  function Name(lower: string -> string, id: string, maxLength: nat): string {
    "ploydok-" + ("db-" + Normalize(lower, id, maxLength))
  }

  // ----- The agent's rule -----------------------------------------------------------------------------

  /** `^ploydok-[a-z0-9][a-z0-9-]{0,62}$` */
  predicate AgentAccepts(name: string) {
    && "ploydok-" <= name
    && var rest := name[8..]; 1 <= |rest| <= 63 && IsWord(rest[0]) && AllAllowed(rest)
  }

  lemma {:induction false} RunsToDashAllows(s: string, p: char -> bool)
    requires forall c <- s :: p(c) || IsAllowed(c)
    ensures AllAllowed(RunsToDash(s, p))
    decreases |s|
  {
    if s != "" {
      if p(s[0]) {
        var rest := DropWhile(s[1..], p);
        DropWhileIsSuffix(s[1..], p);
        assert forall c <- rest :: c in s[1..] && c in s;
        RunsToDashAllows(rest, p);
      } else {
        assert forall c <- s[1..] :: c in s;
        RunsToDashAllows(s[1..], p);
      }
    }
  }

  /** No two dashes in a row, if dashes are what is collapsed. */
  predicate NoDoubleDash(s: string) {
    forall i | 0 < i < |s| :: s[i - 1] != '-' || s[i] != '-'
  }

  lemma {:induction false} DashesCollapse(s: string)
    ensures var r := RunsToDash(s, IsDash);
            NoDoubleDash(r) && (r != "" && r[0] == '-' ==> s != "" && s[0] == '-')
    decreases |s|
  {
    if s != "" {
      DashesCollapse(if s[0] == '-' then DropWhile(s[1..], IsDash) else s[1..]);
    }
  }

  predicate Tidy(s: string) {
    AllAllowed(s) && NoDoubleDash(s)
  }

  lemma PartIsTidy(s: string, i: nat, j: nat)
    requires Tidy(s) && i <= j <= |s|
    ensures Tidy(s[i..j])
  {
  }

  lemma CollapsedIsTidy(s: string)
    ensures Tidy(RunsToDash(RunsToDash(s, NotAllowed), IsDash))
  {
    var s1 := RunsToDash(s, NotAllowed);
    RunsToDashAllows(s, NotAllowed);
    RunsToDashAllows(s1, IsDash);
    DashesCollapse(s1);
  }

  lemma TrimmedIsTidy(s: string)
    requires Tidy(s)
    ensures var t := DropDashesAtEnd(DropWhile(s, IsDash)); Tidy(t) && (t == "" || IsWord(t[0]))
  {
    var t := DropWhile(s, IsDash);
    DropWhileIsSuffix(s, IsDash);
    PartIsTidy(s, |s| - |t|, |s|);
    var u := DropDashesAtEnd(t);
    PartIsTidy(t, 0, |u|);
    assert t[..|u|] == u;
    if u != "" {
      assert u[0] == t[0] && u[0] in u;
    }
  }

  /** The token is made of allowed characters, has no double dash and does not begin with one. */
  lemma TokenShape(lower: string -> string, id: string, maxLength: nat)
    ensures var t := Normalize(lower, id, maxLength);
            1 <= |t| && Tidy(t) && IsWord(t[0]) && (|t| <= maxLength || t == "db")
  {
    var s := RunsToDash(RunsToDash(lower(id), NotAllowed), IsDash);
    CollapsedIsTidy(lower(id));
    TrimmedIsTidy(s);
    var t := DropDashesAtEnd(DropWhile(s, IsDash));
    if |t| > maxLength {
      PartIsTidy(t, 0, maxLength);
      assert t[0..maxLength] == t[..maxLength];
    }
  }

  lemma AcceptsShort(token: string)
    requires token != "" && AllAllowed(token)
    ensures AgentAccepts("ploydok-" + ("db-" + token)) <==> |token| <= 60
  {
    var name := "ploydok-" + ("db-" + token);
    assert name[8..] == "db-" + token;
  }

  /** Whatever the database id and however it is lower-cased, the agent accepts the name. */
  lemma NameAccepted(lower: string -> string, id: string)
    ensures AgentAccepts(Name(lower, id, 60))
  {
    TokenShape(lower, id, 60);
    AcceptsShort(Normalize(lower, id, 60));
  }

  // ----- What the token is made of ----------------------------------------------------------------

  predicate NotWord(c: char) {
    !IsWord(c)
  }

  /** The longest runs of small letters and digits, in order. */
  function Words(s: string): (r: seq<string>)
    ensures forall i | 0 <= i < |r| :: r[i] != ""
    ensures s != "" && IsWord(s[0]) ==> r != []
  {
    if s == "" then []
    else if !IsWord(s[0]) then Words(s[1..])
    else if s[1..] != "" && IsWord(s[1]) then
      var rest := Words(s[1..]);
      [[s[0]] + rest[0]] + rest[1..]
    else [[s[0]]] + Words(s[1..])
  }

  function Join(words: seq<string>): string {
    if words == [] then ""
    else if |words| == 1 then words[0]
    else words[0] + "-" + Join(words[1..])
  }

  lemma {:induction false} DropAfterDrop(s: string)
    ensures DropWhile(DropWhile(s, NotAllowed), NotWord) == DropWhile(s, NotWord)
  {
    if s != "" && NotAllowed(s[0]) {
      DropAfterDrop(s[1..]);
    }
  }

  /** Dropping the dashes that runs have become drops the runs. */
  lemma {:induction false} DropRuns(s: string)
    ensures DropWhile(RunsToDash(s, NotAllowed), IsDash) == RunsToDash(DropWhile(s, NotWord), NotAllowed)
    decreases |s|
  {
    if s != "" {
      if NotAllowed(s[0]) {
        var rest := DropWhile(s[1..], NotAllowed);
        DropRuns(rest);
        DropAfterDrop(s[1..]);
        assert ("-" + RunsToDash(rest, NotAllowed))[1..] == RunsToDash(rest, NotAllowed);
      } else if IsDash(s[0]) {
        DropRuns(s[1..]);
        assert ([s[0]] + RunsToDash(s[1..], NotAllowed))[1..] == RunsToDash(s[1..], NotAllowed);
      }
    }
  }

  lemma DashThen(y: string)
    ensures RunsToDash("-" + y, IsDash) == "-" + RunsToDash(DropWhile(y, IsDash), IsDash)
  {
    assert ("-" + y)[1..] == y;
  }

  /** The first two passes together replace every run of other characters by one dash. */
  lemma {:induction false} TwoPassesAreOne(s: string)
    ensures RunsToDash(RunsToDash(s, NotAllowed), IsDash) == RunsToDash(s, NotWord)
    decreases |s|
  {
    if s != "" {
      if NotAllowed(s[0]) {
        var rest := DropWhile(s[1..], NotAllowed);
        DashThen(RunsToDash(rest, NotAllowed));
        DropRuns(rest);
        DropAfterDrop(s[1..]);
        TwoPassesAreOne(DropWhile(s[1..], NotWord));
      } else if IsDash(s[0]) {
        DashThen(RunsToDash(s[1..], NotAllowed));
        DropRuns(s[1..]);
        TwoPassesAreOne(DropWhile(s[1..], NotWord));
      } else {
        TwoPassesAreOne(s[1..]);
        var y := RunsToDash(s[1..], NotAllowed);
        assert ([s[0]] + y)[1..] == y;
      }
    }
  }

  lemma {:induction false} WordsAfterDrop(s: string)
    ensures Words(DropWhile(s, NotWord)) == Words(s)
  {
    if s != "" && NotWord(s[0]) {
      WordsAfterDrop(s[1..]);
    }
  }

  lemma {:induction false} DropDashesBehind(a: string, x: string)
    requires a != "" && a[|a| - 1] != '-'
    ensures DropDashesAtEnd(a + x) == a + DropDashesAtEnd(x)
  {
    if x == "" {
      assert a + x == a;
    } else if x[|x| - 1] == '-' {
      DropDashesBehind(a, x[..|x| - 1]);
      assert (a + x)[..|a + x| - 1] == a + x[..|x| - 1];
    }
  }

  lemma DropDashesDash(y: string)
    ensures DropDashesAtEnd("-" + y) == if DropDashesAtEnd(y) == "" then "" else "-" + DropDashesAtEnd(y)
    decreases |y|
  {
    if y == "" {
      assert "-" + y == "-" && "-"[..0] == "";
    } else if y[|y| - 1] == '-' {
      DropDashesDash(y[..|y| - 1]);
      assert ("-" + y)[..|y|] == "-" + y[..|y| - 1];
    }
  }

  lemma JoinCons(c: char, words: seq<string>)
    requires words != []
    ensures Join([[c] + words[0]] + words[1..]) == [c] + Join(words)
  {
    var longer := [[c] + words[0]] + words[1..];
    assert longer[1..] == words[1..];
    if |words| > 1 {
      assert [c] + words[0] + "-" + Join(words[1..]) == [c] + (words[0] + "-" + Join(words[1..]));
    }
  }

  lemma JoinNew(c: char, words: seq<string>)
    ensures Join([[c]] + words) == [c] + if words == [] then "" else "-" + Join(words)
  {
    var more := [[c]] + words;
    assert more[1..] == words;
    if words != [] {
      assert [c] + "-" + Join(words) == [c] + ("-" + Join(words));
    }
  }

  lemma JoinOfWords(words: seq<string>)
    requires words != [] && words[0] != ""
    ensures Join(words) != ""
  {
  }

  /** The words with a dash in front if the text does not start with one. */
  function Dashed(s: string): string {
    (if s != "" && NotWord(s[0]) && Words(s) != [] then "-" else "") + Join(Words(s))
  }

  lemma DashedOther(s: string)
    requires s != "" && NotWord(s[0])
    requires var rest := DropWhile(s[1..], NotWord); DropDashesAtEnd(RunsToDash(rest, NotWord)) == Dashed(rest)
    ensures DropDashesAtEnd(RunsToDash(s, NotWord)) == Dashed(s)
  {
    var rest := DropWhile(s[1..], NotWord);
    WordsAfterDrop(s[1..]);
    DropDashesDash(RunsToDash(rest, NotWord));
    if Words(rest) != [] {
      JoinOfWords(Words(rest));
    }
  }

  lemma DashedCons(s: string)
    requires s != "" && IsWord(s[0])
    ensures Dashed(s) == [s[0]] + Dashed(s[1..])
  {
    var c, tail := s[0], s[1..];
    var words := Words(tail);
    if tail != "" && IsWord(tail[0]) {
      assert Words(s) == [[c] + words[0]] + words[1..];
      JoinCons(c, words);
      assert Dashed(tail) == Join(words);
    } else {
      assert Words(s) == [[c]] + words;
      JoinNew(c, words);
      assert Dashed(tail) == if words == [] then "" else "-" + Join(words);
    }
  }

  lemma DashedWord(s: string)
    requires s != "" && IsWord(s[0])
    requires DropDashesAtEnd(RunsToDash(s[1..], NotWord)) == Dashed(s[1..])
    ensures DropDashesAtEnd(RunsToDash(s, NotWord)) == Dashed(s)
  {
    DropDashesBehind([s[0]], RunsToDash(s[1..], NotWord));
    DashedCons(s);
  }

  lemma {:induction false} DashedWords(s: string)
    ensures DropDashesAtEnd(RunsToDash(s, NotWord)) == Dashed(s)
    decreases |s|
  {
    if s != "" {
      if NotWord(s[0]) {
        DashedWords(DropWhile(s[1..], NotWord));
        DashedOther(s);
      } else {
        DashedWords(s[1..]);
        DashedWord(s);
      }
    }
  }

  /** The four passes leave the words of the id, joined by single dashes. */
  lemma PassesJoinWords(s: string)
    ensures DropDashesAtEnd(DropWhile(RunsToDash(RunsToDash(s, NotAllowed), IsDash), IsDash)) == Join(Words(s))
  {
    TwoPassesAreOne(s);
    var d := RunsToDash(s, NotWord);
    if s != "" && NotWord(s[0]) {
      var rest := DropWhile(s[1..], NotWord);
      assert d == "-" + RunsToDash(rest, NotWord);
      assert d[1..] == RunsToDash(rest, NotWord);
      assert DropWhile(d, IsDash) == RunsToDash(rest, NotWord);
      DashedWords(rest);
      WordsAfterDrop(s[1..]);
    } else {
      assert DropWhile(d, IsDash) == d;
      DashedWords(s);
    }
  }

  /** The name of a database: its id's words joined by dashes, at most sixty characters, or "db" if it has none. */
  lemma NameIs(lower: string -> string, id: string)
    ensures var token := Join(Words(lower(id)));
            Name(lower, id, 60) == "ploydok-db-" + if token == "" then "db" else if |token| <= 60 then token
                                                                                  else token[..60]
  {
    PassesJoinWords(lower(id));
    var token := Normalize(lower, id, 60);
    assert "ploydok-" + ("db-" + token) == "ploydok-db-" + token;
  }

  // ----- The limit ------------------------------------------------------------------------------------

  function Letters(n: nat): (s: string)
    ensures |s| == n && forall i | 0 <= i < n :: s[i] == 'a'
  {
    seq(n, _ => 'a')
  }

  lemma {:induction false} RunsToDashKeeps(s: string, p: char -> bool)
    requires forall i | 0 <= i < |s| :: !p(s[i])
    ensures RunsToDash(s, p) == s
  {
    if s != "" {
      RunsToDashKeeps(s[1..], p);
    }
  }

  lemma LettersStay(lower: string -> string, n: nat)
    requires lower(Letters(n)) == Letters(n) && n > 0
    ensures Normalize(lower, Letters(n), n) == Letters(n)
  {
    RunsToDashKeeps(Letters(n), NotAllowed);
    RunsToDashKeeps(Letters(n), IsDash);
  }

  /** Sixty is exactly the limit: names of every id are accepted for a bound just if it is at most 60. */
  lemma SixtyIsExact(lower: string -> string, maxLength: nat)
    requires forall n: nat :: lower(Letters(n)) == Letters(n)
    ensures (forall id :: AgentAccepts(Name(lower, id, maxLength))) <==> maxLength <= 60
  {
    if maxLength <= 60 {
      forall id
        ensures AgentAccepts(Name(lower, id, maxLength))
      {
        TokenShape(lower, id, maxLength);
        AcceptsShort(Normalize(lower, id, maxLength));
      }
    } else {
      var id := Letters(maxLength);
      LettersStay(lower, maxLength);
      AcceptsShort(id);
      assert !AgentAccepts(Name(lower, id, maxLength));
    }
  }
}
