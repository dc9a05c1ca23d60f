/**
 Credential rotation of a managed database (apps/api/src/databases/rotation.ts).

 `RotatePassword` changes the engine's users, the stored row, the secrets of the
 linked apps and the lock one await at a time, and any await may fail: before its
 effect, or after it with the reply lost.  The question is whether every
 credential that is stored somewhere is accepted by the engine at every instant.
 */
module Rotation {
  import opened Wrappers

  // ----- Data -----------------------------------------------------------------

  datatype Kind = Postgres | Mongo | Redis

  /** A connection URL, parsed. */
  datatype Conn = Conn(user: string, password: string, host: string, port: string, query: map<string, string>)

  datatype Status = Missing | Running | NotRunning

  /** The `databases` row. */
  datatype Row = Row(kind: Kind, status: Status, hasContainer: bool, locked: bool,
                     password: Option<string>, conn: Option<Conn>)

  datatype Link = Link(app: string, prefix: string)

  /** Linking writes all of these, the last one not for Redis; rotation knows only the first five. */
  datatype Field = Url | Password | User | Host | Port | Name

  datatype Value = Conn_(conn: Conn) | Text(text: string)

  /** A row of `secrets` whose `linked_database_id` is this database. */
  datatype Secret = Secret(app: string, prefix: string, field: Field, value: Value)

  /** What a rotation records besides: a row of `password_history`, or a redeploy in the queue. */
  datatype Entry = OldPassword(password: string) | Redeploy(app: string)

  /** One redeploy for each link, in order. */
  function Redeploys(links: seq<Link>): (r: seq<Entry>)
    ensures |r| == |links| && forall i | 0 <= i < |links| :: r[i] == Redeploy(links[i].app)
  {
    seq(|links|, i requires 0 <= i < |links| => Redeploy(links[i].app))
  }

  /** The passwords the engine accepts for each user. */
  type Users = map<string, set<string>>

  predicate Accepts(users: Users, user: string, password: string) {
    user in users && password in users[user]
  }

  // ----- The pure parts of the code ---------------------------------------------

  /** The user name the code derives from the row; "ploydok" without a connection string. */
  function OldUser(row: Row): string {
    if row.conn.Some? then row.conn.value.user else "ploydok"
  }

  function NewUser(kind: Kind, oldUser: string): string {
    if kind == Redis then "default_new" else oldUser + "_new"
  }

  function Rebuild(conn: Conn, user: string, password: string): Conn {
    conn.(user := user, password := password)
  }

  /** The Doctrine defaults that `normalizePostgresConnectionString` adds. */
  function Normalize(kind: Kind, conn: Conn): Conn {
    if kind != Postgres then conn
    else conn.(query := map["serverVersion" := "16", "charset" := "utf8"] + conn.query)
  }

  /** The credential written to an app, with the URL it is taken from. */
  datatype Grant = Grant(kind: Kind, conn: Conn, user: string, password: string)

  /** The variables `buildSecretVars` writes, in order; Redis apps get no user. */
  function FieldsOf(kind: Kind): seq<Field> {
    if kind == Redis then [Url, Password, Host, Port] else [Url, Password, User, Host, Port]
  }

  /** `buildSecretVars` for one link and one variable. */
  function SecretFor(g: Grant, link: Link, field: Field): Secret
    requires field != Name
  {
    Secret(link.app, link.prefix, field,
           match field
           case Url => Conn_(Normalize(g.kind, g.conn))
           case Password => Text(g.password)
           case User => Text(g.user)
           case Host => Text(g.conn.host)
           case Port => Text(g.conn.port))
  }

  /** The secret holds its part of the credential. */
  predicate Carries(s: Secret, g: Grant) {
    match s.field
    case Url => s.value.Conn_? && s.value.conn.user == g.conn.user && s.value.conn.password == g.conn.password
    case Password => s.value == Text(g.password)
    case User => s.value == Text(g.user)
    case _ => true
  }

  function WithoutApp(secrets: set<Secret>, app: string): set<Secret> {
    set s | s in secrets && s.app != app
  }

  /** The secrets after the loop over the first `n` links. */
  function AfterLinks(secrets: set<Secret>, links: seq<Link>, n: nat, g: Grant): set<Secret>
    requires n <= |links|
  {
    if n == 0 then secrets
    else WithoutApp(AfterLinks(secrets, links, n - 1, g), links[n - 1].app) +
         (set f | f in FieldsOf(g.kind) :: SecretFor(g, links[n - 1], f))
  }

  /** The secrets after the delete for a link and the first `i` inserts. */
  function Written(secrets: set<Secret>, link: Link, g: Grant, i: nat): set<Secret>
    requires i <= |FieldsOf(g.kind)|
  {
    WithoutApp(secrets, link.app) + (set f | f in FieldsOf(g.kind)[..i] :: SecretFor(g, link, f))
  }

  lemma WrittenStart(secrets: set<Secret>, link: Link, g: Grant)
    ensures Written(secrets, link, g, 0) == WithoutApp(secrets, link.app)
  {
  }

  lemma WrittenSnoc(secrets: set<Secret>, link: Link, g: Grant, i: nat)
    requires i < |FieldsOf(g.kind)|
    ensures Written(secrets, link, g, i + 1)
         == Written(secrets, link, g, i) + {SecretFor(g, link, FieldsOf(g.kind)[i])}
  {
    var fields := FieldsOf(g.kind);
    assert fields[..i + 1] == fields[..i] + [fields[i]];
  }

  lemma WrittenAll(secrets: set<Secret>, link: Link, g: Grant)
    ensures Written(secrets, link, g, |FieldsOf(g.kind)|)
         == WithoutApp(secrets, link.app) + (set f | f in FieldsOf(g.kind) :: SecretFor(g, link, f))
  {
    assert FieldsOf(g.kind)[..|FieldsOf(g.kind)|] == FieldsOf(g.kind);
  }

  /** Nothing changes for apps without a link row. */
  lemma WrittenLeaves(links: seq<Link>, secrets: set<Secret>, link: Link, g: Grant, i: nat)
    requires link in links && i <= |FieldsOf(g.kind)|
    ensures Unlinked(Written(secrets, link, g, i), links) == Unlinked(secrets, links)
  {
    var k :| 0 <= k < |links| && links[k] == link;
    assert Linked(links, |links|, link.app);
  }

  lemma WrittenCarries(secrets: set<Secret>, link: Link, g: Grant, i: nat)
    requires i <= |FieldsOf(g.kind)|
    ensures forall s <- Written(secrets, link, g, i) | s.app == link.app :: Carries(s, g)
  {
  }

  /** One poll of the statuses of the linked apps. */
  datatype Poll = AllRunning | SomeFailed | Waiting

  /** The polls before the deadline end well: the first decisive one finds every app running. */
  predicate Healthy(polls: seq<Poll>) {
    polls != [] && (polls[0] == AllRunning || (polls[0] == Waiting && Healthy(polls[1..])))
  }

  /** That is: all polls before some poll are undecided, and that one finds every app running. */
  lemma {:induction false} HealthyIff(polls: seq<Poll>)
    ensures Healthy(polls) <==>
              exists i | 0 <= i < |polls| :: polls[i] == AllRunning && forall j | 0 <= j < i :: polls[j] == Waiting
  {
    if polls != [] {
      HealthyIff(polls[1..]);
      if Healthy(polls) && polls[0] == Waiting {
        var rest := polls[1..];
        var i :| 0 <= i < |rest| && rest[i] == AllRunning && forall j | 0 <= j < i :: rest[j] == Waiting;
        assert polls[i + 1] == AllRunning && forall j | 0 <= j < i + 1 :: polls[j] == Waiting;
      }
      if i :| 0 < i < |polls| && polls[i] == AllRunning && forall j | 0 <= j < i :: polls[j] == Waiting {
        assert polls[1..][i - 1] == AllRunning && forall j | 0 <= j < i - 1 :: polls[1..][j] == Waiting;
      }
    }
  }

  // ----- Safety -----------------------------------------------------------------

  /** The credential stored in the row opens the database. */
  predicate RowAccepted(users: Users, row: Row) {
    && (row.password.Some? ==> Accepts(users, OldUser(row), row.password.value))
    && (row.conn.Some? ==> Accepts(users, row.conn.value.user, row.conn.value.password))
  }

  /** Every URL, and every user and password an app can combine, opens the database. */
  predicate SecretsAccepted(users: Users, secrets: set<Secret>) {
    && (forall s <- secrets | s.field == Url && s.value.Conn_? ::
          Accepts(users, s.value.conn.user, s.value.conn.password))
    && (forall s <- secrets, t <- secrets |
          s.app == t.app && s.field == User && t.field == Password && s.value.Text? && t.value.Text? ::
          Accepts(users, s.value.text, t.value.text))
  }

  predicate Safe(users: Users, row: Row, secrets: set<Secret>) {
    RowAccepted(users, row) && SecretsAccepted(users, secrets)
  }

  predicate Linked(links: seq<Link>, n: nat, app: string)
    requires n <= |links|
  {
    exists i | 0 <= i < n :: links[i].app == app
  }

  /** The secrets of apps that have no link row, which a rotation leaves alone. */
  function Unlinked(secrets: set<Secret>, links: seq<Link>): set<Secret> {
    set s | s in secrets && !Linked(links, |links|, s.app)
  }

  /** No URL, and no user that stands beside a password of the same app, is this user. */
  predicate Spares(secrets: set<Secret>, user: string) {
    && (forall s <- secrets | s.field == Url && s.value.Conn_? :: s.value.conn.user != user)
    && (forall s <- secrets, t <- secrets |
          s.app == t.app && s.field == User && t.field == Password && s.value.Text? && t.value.Text? ::
          s.value.text != user)
  }

  /** The secret is one that the loop writes for `link`. */
  predicate WrittenFor(s: Secret, g: Grant, link: Link) {
    s.field in FieldsOf(g.kind) && s == SecretFor(g, link, s.field)
  }

  lemma AfterLinksMember(secrets: set<Secret>, links: seq<Link>, n: nat, g: Grant, s: Secret)
    requires 0 < n <= |links|
    ensures s in AfterLinks(secrets, links, n, g) <==>
              (s in AfterLinks(secrets, links, n - 1, g) && s.app != links[n - 1].app) ||
              WrittenFor(s, g, links[n - 1])
  {
  }

  /** After the loop every secret of a linked app carries the credential that was written; the others stay. */
  lemma {:induction false} AfterLinksCarry(secrets: set<Secret>, links: seq<Link>, n: nat, g: Grant, s: Secret)
    requires n <= |links|
    requires s in AfterLinks(secrets, links, n, g)
    ensures if Linked(links, n, s.app) then Carries(s, g) else s in secrets
  {
    if n > 0 {
      AfterLinksMember(secrets, links, n, g, s);
      if s.app != links[n - 1].app {
        AfterLinksCarry(secrets, links, n - 1, g, s);
      }
    }
  }

  /**
   Which links keep their variables.  The unique index of `app_db_links` is on app, database
   and prefix.  Linking deletes the other links of the app and database first, so only racing
   requests leave an app linked twice; the delete for its second link then also removes what was just
   written for the first.
   */
  lemma {:induction false} LinkSurvivesIffLast(secrets: set<Secret>, links: seq<Link>, n: nat, i: nat, g: Grant,
                                               f: Field)
    requires i < n <= |links|
    requires forall a, b | 0 <= a < b < |links| :: links[a] != links[b]
    requires f in FieldsOf(g.kind)
    ensures SecretFor(g, links[i], f) in AfterLinks(secrets, links, n, g)
            <==> (forall j | i < j < n :: links[j].app != links[i].app)
  {
    AfterLinksMember(secrets, links, n, g, SecretFor(g, links[i], f));
    if i < n - 1 {
      LinkSurvivesIffLast(secrets, links, n - 1, i, g, f);
    }
  }

  /** The loop leaves a linked app no variables but those it writes, and an unlinked one all it had. */
  lemma {:induction false} AfterLinksFields(secrets: set<Secret>, links: seq<Link>, n: nat, g: Grant, s: Secret)
    requires n <= |links|
    ensures s in AfterLinks(secrets, links, n, g) && Linked(links, n, s.app) ==> s.field in FieldsOf(g.kind)
    ensures !Linked(links, n, s.app) ==> (s in AfterLinks(secrets, links, n, g) <==> s in secrets)
  {
    if n > 0 {
      AfterLinksMember(secrets, links, n, g, s);
      AfterLinksFields(secrets, links, n - 1, g, s);
    }
  }

  /**
   Which variables a link has after the loop, of a rotation as of a completed rollback: those that
   `buildSecretVars` knows.  The database name that linking wrote is lost.
   */
  lemma VariablesAfterRewrite(secrets: set<Secret>, links: seq<Link>, i: nat, g: Grant, field: Field)
    requires i < |links| && DistinctApps(links)
    ensures (exists s <- AfterLinks(secrets, links, |links|, g) ::
               s.app == links[i].app && s.prefix == links[i].prefix && s.field == field)
            <==> field in FieldsOf(g.kind)
  {
    if field in FieldsOf(g.kind) {
      LinkSurvivesIffLast(secrets, links, |links|, i, g, field);
      assert SecretFor(g, links[i], field) in AfterLinks(secrets, links, |links|, g);
    } else if s :| s in AfterLinks(secrets, links, |links|, g) && s.app == links[i].app && s.field == field {
      AfterLinksFields(secrets, links, |links|, g, s);
    }
  }

  // What the apps hold after the loop, variable by variable.

  /** Host, port and query of a URL with another credential; Postgres gets two defaults where it has no own entry. */
  predicate SameDatabase(c: Conn, kind: Kind, conn: Conn) {
    && c.host == conn.host && c.port == conn.port
    && (forall k <- conn.query :: k in c.query && c.query[k] == conn.query[k])
    && (forall k <- c.query | k !in conn.query ::
          kind == Postgres &&
          ((k == "serverVersion" && c.query[k] == "16") || (k == "charset" && c.query[k] == "utf8")))
    && (kind == Postgres ==> "serverVersion" in c.query && "charset" in c.query)
  }

  /** A credential: the one in the URL, and the one in the variables of its own. */
  datatype Login = Login(urlUser: string, urlPassword: string, user: string, password: string)

  predicate HasRightValue(s: Secret, kind: Kind, conn: Conn, login: Login) {
    match s.field
    case Url =>
      s.value.Conn_? && SameDatabase(s.value.conn, kind, conn) &&
      s.value.conn.user == login.urlUser && s.value.conn.password == login.urlPassword
    case Host => s.value == Text(conn.host)
    case Port => s.value == Text(conn.port)
    case User => s.value == Text(login.user) && kind != Redis
    case Password => s.value == Text(login.password)
    case Name => false
  }

  predicate HasVariable(secrets: set<Secret>, link: Link, field: Field) {
    exists s <- secrets :: s.app == link.app && s.prefix == link.prefix && s.field == field
  }

  /** The app has URL, password, host and port, except on Redis a user, and all of them are right. */
  predicate Delivers(secrets: set<Secret>, link: Link, kind: Kind, conn: Conn, login: Login) {
    && (forall s <- secrets | s.app == link.app :: s.prefix == link.prefix && HasRightValue(s, kind, conn, login))
    && HasVariable(secrets, link, Url) && HasVariable(secrets, link, Password)
    && HasVariable(secrets, link, Host) && HasVariable(secrets, link, Port)
    && (kind != Redis ==> HasVariable(secrets, link, User))
  }

  predicate DistinctApps(links: seq<Link>) {
    forall a, b | 0 <= a < b < |links| :: links[a].app != links[b].app
  }

  predicate DeliversAll(secrets: set<Secret>, links: seq<Link>, kind: Kind, conn: Conn, login: Login) {
    forall i | 0 <= i < |links| :: Delivers(secrets, links[i], kind, conn, login)
  }

  lemma NormalizedIsSame(kind: Kind, c: Conn, conn: Conn)
    requires c.host == conn.host && c.port == conn.port && c.query == conn.query
    ensures SameDatabase(Normalize(kind, c), kind, conn)
    ensures Normalize(kind, c).user == c.user && Normalize(kind, c).password == c.password
  {
  }

  /** Every secret of a linked app after the loop was written for its last link. */
  lemma {:induction false} WrittenForLink(secrets: set<Secret>, links: seq<Link>, n: nat, i: nat, g: Grant, s: Secret)
    requires i < n <= |links| && DistinctApps(links)
    requires s in AfterLinks(secrets, links, n, g) && s.app == links[i].app
    ensures WrittenFor(s, g, links[i])
  {
    AfterLinksMember(secrets, links, n, g, s);
    if i < n - 1 {
      WrittenForLink(secrets, links, n - 1, i, g, s);
    }
  }

  lemma WrittenIsRight(s: Secret, g: Grant, link: Link, conn: Conn)
    requires WrittenFor(s, g, link)
    requires g.conn.host == conn.host && g.conn.port == conn.port && g.conn.query == conn.query
    ensures s.prefix == link.prefix
    ensures HasRightValue(s, g.kind, conn, Login(g.conn.user, g.conn.password, g.user, g.password))
  {
    NormalizedIsSame(g.kind, g.conn, conn);
  }

  lemma VariableIsThere(secrets: set<Secret>, links: seq<Link>, i: nat, g: Grant, field: Field)
    requires i < |links| && DistinctApps(links) && field in FieldsOf(g.kind)
    ensures HasVariable(AfterLinks(secrets, links, |links|, g), links[i], field)
  {
    VariablesAfterRewrite(secrets, links, i, g, field);
  }

  /** The loop delivers the credential it is given to every app, whatever the apps held before. */
  lemma LoopDelivers(secrets: set<Secret>, links: seq<Link>, g: Grant, conn: Conn)
    requires DistinctApps(links)
    requires g.conn.host == conn.host && g.conn.port == conn.port && g.conn.query == conn.query
    ensures DeliversAll(AfterLinks(secrets, links, |links|, g), links, g.kind, conn,
                        Login(g.conn.user, g.conn.password, g.user, g.password))
  {
    var after, login := AfterLinks(secrets, links, |links|, g), Login(g.conn.user, g.conn.password, g.user, g.password);
    forall i | 0 <= i < |links| ensures Delivers(after, links[i], g.kind, conn, login) {
      forall s <- after | s.app == links[i].app
        ensures s.prefix == links[i].prefix && HasRightValue(s, g.kind, conn, login)
      {
        WrittenForLink(secrets, links, |links|, i, g, s);
        WrittenIsRight(s, g, links[i], conn);
      }
      VariableIsThere(secrets, links, i, g, Url);
      VariableIsThere(secrets, links, i, g, Password);
      VariableIsThere(secrets, links, i, g, Host);
      VariableIsThere(secrets, links, i, g, Port);
      if g.kind != Redis {
        VariableIsThere(secrets, links, i, g, User);
      }
    }
  }

  lemma UnlinkedStay(secrets: set<Secret>, links: seq<Link>, g: Grant)
    ensures Unlinked(AfterLinks(secrets, links, |links|, g), links) == Unlinked(secrets, links)
  {
    forall s: Secret | !Linked(links, |links|, s.app)
      ensures s in AfterLinks(secrets, links, |links|, g) <==> s in secrets
    {
      AfterLinksFields(secrets, links, |links|, g, s);
    }
  }

  /** What no engine user opens, no accepted secret names. */
  lemma AcceptedSpares(users: Users, secrets: set<Secret>, links: seq<Link>, user: string)
    requires SecretsAccepted(users, secrets) && user !in users
    ensures Spares(Unlinked(secrets, links), user)
  {
  }

  lemma NewNameIsSpared(users: Users, row: Row, newPwd: string, secrets: set<Secret>, links: seq<Link>)
    ensures SecretsAccepted(users, secrets) && row.kind != Redis && NewUsers(users, row, newPwd).Some? ==>
              Spares(Unlinked(secrets, links), NewUser(row.kind, OldUser(row)))
  {
    if SecretsAccepted(users, secrets) && row.kind != Redis && NewUsers(users, row, newPwd).Some? {
      AcceptedSpares(users, secrets, links, NewUser(row.kind, OldUser(row)));
    }
  }

  /** Once linked apps have another credential, a drop cuts nothing off exactly if no other app names the user. */
  lemma DropKeepsAcceptedIff(users: Users, secrets: set<Secret>, links: seq<Link>, g: Grant, dropped: string)
    requires SecretsAccepted(users, secrets)
    requires forall s <- secrets | Linked(links, |links|, s.app) :: Carries(s, g)
    requires g.user != dropped && g.conn.user != dropped
    ensures SecretsAccepted(users - {dropped}, secrets) <==> Spares(Unlinked(secrets, links), dropped)
  {
  }

  /**
   Exactly when a rotation cuts off no secret: no URL of an app without a link row names the old user, and
   no user variable beside a password variable of such an app does.  Linking inserts the secrets
   before the link row, so a failure in between leaves such an app behind.
   */
  lemma RotationCutsNothingOffIff(users: Users, row: Row, newPwd: string, secrets: set<Secret>, links: seq<Link>)
    requires Sound(row) && NewUsers(users, row, newPwd).Some? && SecretsAccepted(users, secrets)
    ensures SecretsAccepted(NewUsers(users, row, newPwd).value - {OldUser(row)},
                            AfterLinks(secrets, links, |links|, NewGrant(row, newPwd)))
            <==> Spares(Unlinked(secrets, links), OldUser(row))
  {
    var g, users' := NewGrant(row, newPwd), NewUsers(users, row, newPwd).value;
    var after := AfterLinks(secrets, links, |links|, g);
    AllCarry(secrets, links, g);
    UnlinkedStay(secrets, links, g);
    RewriteKeepsAccepted(users, users', secrets, links, g);
    DropKeepsAcceptedIff(users', after, links, g, OldUser(row));
  }

  /** What linking inserts, in order, before it inserts the link row. */
  function LinkInserts(kind: Kind, conn: Conn, name: string, link: Link): seq<Secret> {
    var of := (field, value) => Secret(link.app, link.prefix, field, value);
    [of(Url, Conn_(Normalize(kind, conn))), of(Host, Text(conn.host)), of(Port, Text(conn.port))] +
    if kind == Redis then [of(Password, Text(conn.password))]
    else [of(User, Text(conn.user)), of(Password, Text(conn.password)), of(Name, Text(name))]
  }

  /**
   Where such an app comes from.  Linking deletes the old variables and the old link, inserts the new variables
   and last the link row; if it fails in between, after any insert but not before the first, the app is one that
   the next rotation cuts off.
   */
  lemma FailedLinkIsCutOffIff(secrets: set<Secret>, links: seq<Link>, row: Row, name: string, link: Link, i: nat)
    requires row.conn.Some? && !Linked(links, |links|, link.app)
    requires i <= |LinkInserts(row.kind, row.conn.value, name, link)|
    requires Spares(Unlinked(secrets, links), OldUser(row))
    ensures var inserts := LinkInserts(row.kind, row.conn.value, name, link);
            var after := WithoutApp(secrets, link.app) + (set s | s in inserts[..i]);
            Spares(Unlinked(after, links), OldUser(row)) <==> i == 0
  {
    var inserts := LinkInserts(row.kind, row.conn.value, name, link);
    var after := WithoutApp(secrets, link.app) + (set s | s in inserts[..i]);
    if i == 0 {
      assert inserts[..0] == [];
    } else {
      assert inserts[..i][0] == inserts[0];
      assert inserts[0] in Unlinked(after, links);
    }
  }

  lemma RewriteKeepsAccepted(users: Users, users': Users, secrets: set<Secret>, links: seq<Link>, g: Grant)
    requires SecretsAccepted(users, secrets) && forall u <- users :: u in users' && users[u] <= users'[u]
    requires Accepts(users', g.conn.user, g.conn.password) && Accepts(users', g.user, g.password)
    ensures SecretsAccepted(users', AfterLinks(secrets, links, |links|, g))
  {
    forall s <- AfterLinks(secrets, links, |links|, g)
      ensures if Linked(links, |links|, s.app) then Carries(s, g) else s in secrets
    {
      AfterLinksCarry(secrets, links, |links|, g, s);
    }
  }

  /** Growing the set of accepted credentials keeps every stored one accepted. */
  lemma GrowthKeepsSafe(users: Users, users': Users, row: Row, secrets: set<Secret>)
    requires Safe(users, row, secrets)
    requires forall u <- users :: u in users' && users[u] <= users'[u]
    ensures Safe(users', row, secrets)
  {
  }

  // ----- The protocol -------------------------------------------------------------

  /** What becomes of one await: a command may be refused without effect, a reply may be lost. */
  datatype Fault = Pass | Refused | ErrorBefore | ErrorAfter

  /** CREATE USER and createUser refuse an existing name; ACL SETUSER adds a password to it. */
  function Created(users: Users, kind: Kind, user: string, password: string): Option<Users> {
    if user !in users then Some(users[user := {password}])
    else if kind == Redis then Some(users[user := users[user] + {password}])
    else None
  }

  datatype Outcome = Rejected | Failed | RolledBack(complete: bool) | Completed(dropped: bool)

  /** The two conditions on the row without which a rotation cuts off the stored credential. */
  predicate Sound(row: Row) {
    row.conn.Some? && NewUser(row.kind, OldUser(row)) != OldUser(row)
  }

  predicate Rotatable(row: Row) {
    row.status == Running && !row.locked && row.hasContainer && row.password.Some?
  }

  function OldGrant(row: Row): Grant
    requires row.conn.Some? && row.password.Some?
  {
    Grant(row.kind, row.conn.value, OldUser(row), row.password.value)
  }

  function NewGrant(row: Row, newPwd: string): Grant
    requires row.conn.Some?
  {
    var user := NewUser(row.kind, OldUser(row));
    Grant(row.kind, Rebuild(row.conn.value, user, newPwd), user, newPwd)
  }

  /** The row after step 6: the new password, and the new URL when there was one. */
  function Switched(row: Row, newPwd: string): Row {
    row.(password := Some(newPwd),
         conn := if row.conn.Some? then Some(NewGrant(row, newPwd).conn) else None)
  }

  /** The engine's users after step 4, if the engine creates the user at all. */
  function NewUsers(users: Users, row: Row, newPwd: string): Option<Users> {
    Created(users, row.kind, NewUser(row.kind, OldUser(row)), newPwd)
  }

  // ----- Counting awaits ------------------------------------------------------------

  /** One delete, and one insert for each variable. */
  function LinkAwaits(kind: Kind): nat {
    1 + |FieldsOf(kind)|
  }

  /** The loop over the first `n` links. */
  function LinksAwaits(kind: Kind, n: nat): nat {
    if n == 0 then 0 else LinksAwaits(kind, n - 1) + LinkAwaits(kind)
  }

  /** Polls up to and including the decisive one. */
  function PollsRead(polls: seq<Poll>): nat {
    if polls == [] then 0 else if polls[0] == Waiting then 1 + PollsRead(polls[1..]) else 1
  }

  /** User, history, row, links, the loop over the links and their redeploys. */
  function SwitchAwaits(kind: Kind, links: nat): nat {
    4 + LinksAwaits(kind, links) + links
  }

  /** The try block up to the decision to finish or to roll back. */
  function AwaitsToDecision(kind: Kind, links: nat, polls: seq<Poll>): nat {
    SwitchAwaits(kind, links) + if links == 0 then 0 else PollsRead(polls)
  }

  class World {
    var users: Users
    var row: Row
    var secrets: set<Secret>
    var log: seq<Entry>
    const links: seq<Link>
    const faults: nat -> Fault
    var awaits: nat
    /** How many awaits have failed of those whose failure the code does not merely log. */
    ghost var failures: nat
    /** Every state since construction was safe. */
    ghost var safeSoFar: bool

    constructor (users: Users, row: Row, secrets: set<Secret>, links: seq<Link>, faults: nat -> Fault)
      ensures this.users == users && this.row == row && this.secrets == secrets && log == []
      ensures this.links == links && this.faults == faults && awaits == 0 && failures == 0
      ensures safeSoFar == Safe(users, row, secrets)
    {
      this.users, this.row, this.secrets, this.links, this.faults := users, row, secrets, links, faults;
      log, awaits, failures := [], 0, 0;
      safeSoFar := Safe(users, row, secrets);
    }

    ghost predicate SafeNow()
      reads this
    {
      Safe(users, row, secrets)
    }

    /** The secrets of apps without a link row. */
    ghost function Left(): set<Secret>
      reads this`secrets
    {
      Unlinked(secrets, links)
    }

    /** How many of the first `n` awaits go wrong. */
    ghost function Bad(n: nat): nat {
      if n == 0 then 0 else Bad(n - 1) + if faults(n - 1) == Pass then 0 else 1
    }

    /** Since await number `from`, no more failures have been counted than awaits have gone wrong. */
    ghost predicate Tied(from: nat, before: nat)
      reads this`awaits, this`failures
    {
      from <= awaits && before <= failures <= before + Bad(awaits) - Bad(from)
    }

    lemma {:induction false} NoneBad(from: nat, to: nat)
      requires from <= to && forall k: nat | from <= k < to :: faults(k) == Pass
      ensures Bad(to) == Bad(from)
    {
      if from < to {
        assert faults(to - 1) == Pass;
        NoneBad(from, to - 1);
      }
    }

    /** No failure is counted while every await passes. */
    lemma NoFaultNoFailure(from: nat, before: nat)
      requires Tied(from, before) && forall k: nat | from <= k < awaits :: faults(k) == Pass
      ensures failures == before
    {
      NoneBad(from, awaits);
    }

    /** One await; a fault counts as a failure. */
    method Await() returns (f: Fault)
      modifies this`awaits, this`failures
      ensures Tied(old(awaits), old(failures))
      ensures f == faults(old(awaits)) && awaits == old(awaits) + 1
      ensures failures == old(failures) + if f == Pass then 0 else 1
    {
      f := faults(awaits);
      awaits := awaits + 1;
      failures := failures + if f == Pass then 0 else 1;
    }

    /** A step fails exactly if one of its awaits does. */
    ghost predicate Counted(ok: bool, before: nat)
      reads this`failures
    {
      failures == before + if ok then 0 else 1
    }

    method UpdateRow(r: Row) returns (ok: bool)
      modifies this`row, this`awaits, this`failures, this`safeSoFar
      ensures Tied(old(awaits), old(failures))
      ensures ok <==> faults(old(awaits)) == Pass
      ensures Counted(ok, old(failures))
      ensures row == if faults(old(awaits)) in {Pass, ErrorAfter} then r else old(row)
      ensures awaits == old(awaits) + 1
      ensures safeSoFar == (old(safeSoFar) && SafeNow())
    {
      var f := Await();
      if f == Pass || f == ErrorAfter {
        row := r;
      }
      safeSoFar := safeSoFar && SafeNow();
      ok := f == Pass;
    }

    method CreateUser(kind: Kind, user: string, password: string) returns (ok: bool)
      modifies this`users, this`awaits, this`failures, this`safeSoFar
      ensures Tied(old(awaits), old(failures))
      ensures users == old(users) || Created(old(users), kind, user, password) == Some(users)
      ensures ok ==> Created(old(users), kind, user, password) == Some(users)
      ensures ok <==> faults(old(awaits)) == Pass && Created(old(users), kind, user, password).Some?
      ensures Counted(faults(old(awaits)) == Pass, old(failures))
      ensures awaits == old(awaits) + 1
      ensures old(SafeNow()) ==> SafeNow() && safeSoFar == old(safeSoFar)
    {
      var f := Await();
      var after := Created(users, kind, user, password);
      if after.Some? && (f == Pass || f == ErrorAfter) {
        users := after.value;
      }
      if old(SafeNow()) {
        GrowthKeepsSafe(old(users), users, row, secrets);
      }
      safeSoFar := safeSoFar && SafeNow();
      ok := after.Some? && f == Pass;
    }

    /** A refused drop is only logged, so it counts as a success that dropped nothing. */
    method DropUser(user: string) returns (ok: bool, dropped: bool)
      modifies this`users, this`awaits, this`failures, this`safeSoFar
      ensures Tied(old(awaits), old(failures))
      ensures users == if dropped then old(users) - {user} else old(users)
      ensures safeSoFar == (old(safeSoFar) && SafeNow())
      ensures ok <==> faults(old(awaits)) in {Pass, Refused}
      ensures dropped <==> faults(old(awaits)) in {Pass, ErrorAfter}
      ensures Counted(ok, old(failures))
      ensures awaits == old(awaits) + 1
    {
      var f := Await();
      dropped := f == Pass || f == ErrorAfter;
      if dropped {
        users := users - {user};
      }
      safeSoFar := safeSoFar && SafeNow();
      ok := f == Pass || f == Refused;
      failures := old(failures) + if ok then 0 else 1;
    }

    method DeleteSecrets(app: string) returns (ok: bool)
      modifies this`secrets, this`awaits, this`failures, this`safeSoFar
      ensures Tied(old(awaits), old(failures))
      ensures secrets == WithoutApp(old(secrets), app) || (secrets == old(secrets) && !ok)
      ensures ok <==> faults(old(awaits)) == Pass
      ensures Counted(ok, old(failures))
      ensures awaits == old(awaits) + 1
      ensures old(SafeNow()) ==> SafeNow() && safeSoFar == old(safeSoFar)
    {
      var f := Await();
      if f == Pass || f == ErrorAfter {
        secrets := WithoutApp(secrets, app);
      }
      safeSoFar := safeSoFar && SafeNow();
      ok := f == Pass;
    }

    method InsertSecret(s: Secret) returns (ok: bool)
      modifies this`secrets, this`awaits, this`failures, this`safeSoFar
      ensures Tied(old(awaits), old(failures))
      ensures secrets == old(secrets) + {s} || (secrets == old(secrets) && !ok)
      ensures ok <==> faults(old(awaits)) == Pass
      ensures Counted(ok, old(failures))
      ensures awaits == old(awaits) + 1
      ensures safeSoFar == (old(safeSoFar) && SafeNow())
    {
      var f := Await();
      if f == Pass || f == ErrorAfter {
        secrets := secrets + {s};
      }
      safeSoFar := safeSoFar && SafeNow();
      ok := f == Pass;
    }

    /** An insert into `password_history` or into the job queue, without effect on credentials. */
    method Record(entry: Entry) returns (ok: bool)
      modifies this`log, this`awaits, this`failures
      ensures Tied(old(awaits), old(failures))
      ensures ok <==> faults(old(awaits)) == Pass
      ensures log == if faults(old(awaits)) in {Pass, ErrorAfter} then old(log) + [entry] else old(log)
      ensures Counted(ok, old(failures)) && awaits == old(awaits) + 1
    {
      var f := Await();
      if f == Pass || f == ErrorAfter {
        log := log + [entry];
      }
      ok := f == Pass;
    }

    /** A step takes `n` awaits, or fewer, the last of them failing. */
    ghost predicate Took(ok: bool, from: nat, n: nat)
      reads this`awaits
    {
      if ok then awaits == from + n else from < awaits <= from + n && faults(awaits - 1) != Pass
    }

    ghost predicate GrantAccepted(g: Grant)
      reads this
    {
      Accepts(users, g.conn.user, g.conn.password) && Accepts(users, g.user, g.password)
    }

    /** The inner loop: delete the variables of the app, then insert the fresh ones key by key. */
    method WriteLink(link: Link, g: Grant) returns (ok: bool)
      requires link in links
      modifies this`secrets, this`awaits, this`failures, this`safeSoFar
      ensures Tied(old(awaits), old(failures))
      ensures Left() == old(Left())
      ensures old(SafeNow()) && GrantAccepted(g) ==> SafeNow() && safeSoFar == old(safeSoFar)
      ensures ok ==> secrets == WithoutApp(old(secrets), link.app) +
                                (set f | f in FieldsOf(g.kind) :: SecretFor(g, link, f))
      ensures Counted(ok, old(failures)) && Took(ok, old(awaits), LinkAwaits(g.kind))
    {
      WrittenStart(secrets, link, g);
      WrittenLeaves(links, secrets, link, g, 0);
      ok := DeleteSecrets(link.app);
      if !ok {
        return;
      }
      var fields := FieldsOf(g.kind);
      var i := 0;
      while i < |fields|
        invariant 0 <= i <= |fields| && ok
        invariant awaits == old(awaits) + 1 + i && failures == old(failures) && Tied(old(awaits), old(failures))
        invariant secrets == Written(old(secrets), link, g, i)
        invariant old(SafeNow()) && GrantAccepted(g) ==> SafeNow() && safeSoFar == old(safeSoFar)
      {
        ok := InsertVariable(link, g, i, old(secrets));
        if !ok {
          return;
        }
        i := i + 1;
      }
      WrittenLeaves(links, old(secrets), link, g, i);
      WrittenAll(old(secrets), link, g);
    }

    /** One turn of the inner loop. */
    method InsertVariable(link: Link, g: Grant, i: nat, ghost before: set<Secret>) returns (ok: bool)
      requires link in links
      requires i < |FieldsOf(g.kind)| && secrets == Written(before, link, g, i)
      modifies this`secrets, this`awaits, this`failures, this`safeSoFar
      ensures Tied(old(awaits), old(failures))
      ensures Left() == old(Left())
      ensures old(SafeNow()) && GrantAccepted(g) ==> SafeNow() && safeSoFar == old(safeSoFar)
      ensures ok ==> secrets == Written(before, link, g, i + 1)
      ensures ok <==> faults(old(awaits)) == Pass
      ensures Counted(ok, old(failures))
      ensures awaits == old(awaits) + 1
    {
      var s := SecretFor(g, link, FieldsOf(g.kind)[i]);
      ok := InsertSecret(s);
      WrittenSnoc(before, link, g, i);
      WrittenLeaves(links, before, link, g, i);
      WrittenLeaves(links, before, link, g, i + 1);
      WrittenCarries(before, link, g, i);
      if old(SafeNow()) && GrantAccepted(g) {
        InsertKeepsAccepted(users, old(secrets), s, g);
      }
    }

    /** The loop over all links, as rotation and rollback both run it. */
    method WriteLinks(g: Grant) returns (ok: bool)
      modifies this`secrets, this`awaits, this`failures, this`safeSoFar
      ensures Tied(old(awaits), old(failures))
      ensures Left() == old(Left())
      ensures old(SafeNow()) && GrantAccepted(g) ==> SafeNow() && safeSoFar == old(safeSoFar)
      ensures ok ==> secrets == AfterLinks(old(secrets), links, |links|, g)
      ensures Counted(ok, old(failures)) && Took(ok, old(awaits), LinksAwaits(g.kind, |links|))
    {
      ok := true;
      var i := 0;
      while i < |links|
        invariant 0 <= i <= |links| && ok
        invariant awaits == old(awaits) + LinksAwaits(g.kind, i) && failures == old(failures)
        invariant Tied(old(awaits), old(failures))
        invariant Left() == old(Left())
        invariant secrets == AfterLinks(old(secrets), links, i, g)
        invariant old(SafeNow()) && GrantAccepted(g) ==> SafeNow() && safeSoFar == old(safeSoFar)
      {
        ok := WriteLink(links[i], g);
        if !ok {
          LinksAwaitsGrow(g.kind, i + 1, |links|);
          return;
        }
        i := i + 1;
      }
    }

    /** One queue insertion per link; rollback only logs the ones that fail. */
    method EnqueueRedeploys(ignoreErrors: bool) returns (ok: bool)
      modifies this`log, this`awaits, this`failures
      ensures Tied(old(awaits), old(failures))
      ensures if ignoreErrors then ok && failures == old(failures) && awaits == old(awaits) + |links|
              else Counted(ok, old(failures)) && Took(ok, old(awaits), |links|)
      ensures old(log) <= log
      ensures ok && (!ignoreErrors || NoFaults()) ==> log == old(log) + Redeploys(links)
    {
      ok := true;
      var i := 0;
      while i < |links|
        invariant 0 <= i <= |links| && ok
        invariant awaits == old(awaits) + i && failures == old(failures) && Tied(old(awaits), old(failures))
        invariant old(log) <= log && (!ignoreErrors || NoFaults() ==> log == old(log) + Redeploys(links)[..i])
      {
        var done := Record(Redeploy(links[i].app));
        if ignoreErrors {
          failures := old(failures);
        } else if !done {
          return false;
        }
        RedeploysNext(links, i);
        i := i + 1;
      }
      assert Redeploys(links)[..|links|] == Redeploys(links);
    }

    /** The polling loop; `polls` are the answers that arrive before the deadline. */
    method PollApps(polls: seq<Poll>) returns (ok: bool, allHealthy: bool)
      modifies this`awaits, this`failures
      ensures Tied(old(awaits), old(failures))
      ensures ok ==> allHealthy == Healthy(polls)
      ensures Counted(ok, old(failures)) && Took(ok, old(awaits), PollsRead(polls))
    {
      ok, allHealthy := true, false;
      var i := 0;
      while i < |polls|
        invariant 0 <= i <= |polls| && ok && !allHealthy
        invariant Healthy(polls) == Healthy(polls[i..])
        invariant PollsRead(polls) == i + PollsRead(polls[i..])
        invariant awaits == old(awaits) + i && failures == old(failures) && Tied(old(awaits), old(failures))
      {
        var f := Await();
        if f != Pass {
          ok := false;
          return;
        }
        if polls[i] == SomeFailed {
          return;
        }
        if polls[i] == AllRunning {
          allHealthy := true;
          return;
        }
        i := i + 1;
      }
    }

    /** Every secret of a linked app carries `g`. */
    ghost predicate LinkedCarry(g: Grant)
      reads this`secrets
    {
      forall s <- secrets | Linked(links, |links|, s.app) :: Carries(s, g)
    }

    /** `dropOldUser` once every stored credential names `g.user`. */
    method DropUnused(user: string, g: Grant) returns (ok: bool, dropped: bool)
      requires OldUser(row) == g.user == g.conn.user && LinkedCarry(g)
      modifies this`users, this`awaits, this`failures, this`safeSoFar
      ensures Tied(old(awaits), old(failures))
      ensures users == if dropped then old(users) - {user} else old(users)
      ensures old(SafeNow()) && user != g.user && user !in users ==> (SafeNow() <==> Spares(Left(), user))
      ensures old(SafeNow()) && user != g.user && Spares(Left(), user) ==> SafeNow() && safeSoFar == old(safeSoFar)
      ensures ok <==> faults(old(awaits)) in {Pass, Refused}
      ensures dropped <==> faults(old(awaits)) in {Pass, ErrorAfter}
      ensures Counted(ok, old(failures))
      ensures awaits == old(awaits) + 1
    {
      ok, dropped := DropUser(user);
      if old(SafeNow()) && user != g.user {
        DropKeepsAcceptedIff(old(users), secrets, links, g, user);
        if user !in old(users) {
          AcceptedSpares(old(users), secrets, links, user);
        }
      }
    }

    /** With the new user gone, nothing is cut off exactly if no app without a link row names that user. */
    ghost predicate Undone(before: Row)
      reads this
    {
      var user := NewUser(before.kind, OldUser(before));
      user !in users ==> (SafeNow() <==> Spares(Left(), user))
    }

    /** The try block of `rollbackRotation`: restore the row, rewrite the secrets, drop the new user. */
    method Restore(before: Row) returns (complete: bool)
      requires before.conn.Some? && before.password.Some?
      modifies this
      ensures Tied(old(awaits), old(failures))
      ensures Left() == old(Left())
      ensures row == old(row) || row == old(row).(password := before.password, conn := before.conn)
      ensures old(SafeNow()) && old(GrantAccepted(OldGrant(before))) &&
              NewUser(before.kind, OldUser(before)) != OldUser(before) &&
              Spares(Left(), NewUser(before.kind, OldUser(before))) ==>
                SafeNow() && safeSoFar == old(safeSoFar)
      ensures old(SafeNow()) && old(GrantAccepted(OldGrant(before))) && Sound(before) && complete ==> Undone(before)
      ensures Counted(complete, old(failures)) && awaits > old(awaits)
      ensures NoFaults() ==> complete
      ensures complete ==> row == old(row).(password := before.password, conn := before.conn)
      ensures complete ==> secrets == AfterLinks(old(secrets), links, |links|, OldGrant(before))
      ensures complete ==>
                users == old(users) - {NewUser(before.kind, OldUser(before))} || (users == old(users) && !NoFaults())
      ensures old(log) <= log && (NoFaults() ==> log == old(log) + Redeploys(links))
      ensures faults(old(awaits)) in {ErrorBefore, Refused} ==>
                !complete && awaits == old(awaits) + 1 &&
                row == old(row) && secrets == old(secrets) && users == old(users)
    {
      var g := OldGrant(before);
      complete := UpdateRow(row.(password := before.password, conn := before.conn));
      if !complete {
        return;
      }
      complete := RewriteSecrets(g);
      if !complete {
        return;
      }
      var _ := EnqueueRedeploys(true);
      AllCarry(old(secrets), links, g);
      var dropped;
      complete, dropped := DropUnused(NewUser(before.kind, OldUser(before)), g);
    }

    /** The query for the links, and the loop over them. */
    method RewriteSecrets(g: Grant) returns (ok: bool)
      modifies this`secrets, this`awaits, this`failures, this`safeSoFar
      ensures Tied(old(awaits), old(failures))
      ensures Left() == old(Left())
      ensures old(SafeNow()) && GrantAccepted(g) ==> SafeNow() && safeSoFar == old(safeSoFar)
      ensures ok ==> secrets == AfterLinks(old(secrets), links, |links|, g)
      ensures Counted(ok, old(failures)) && Took(ok, old(awaits), 1 + LinksAwaits(g.kind, |links|))
    {
      var f := Await();
      if f != Pass {
        return false;
      }
      ok := WriteLinks(g);
    }

    /** What the first half of a rotation records: the old password, and a redeploy of each linked app. */
    ghost function Logged(log0: seq<Entry>, row0: Row): seq<Entry>
      requires row0.password.Some?
    {
      log0 + [OldPassword(row0.password.value)] + Redeploys(links)
    }

    /** Steps 4 to 8: create the user, switch the row, rewrite the secrets, request redeploys. */
    method Switch(newPwd: string) returns (ok: bool)
      requires row.password.Some?
      modifies this
      ensures Tied(old(awaits), old(failures))
      ensures Left() == old(Left())
      ensures row == old(row) || (row == Switched(old(row), newPwd) && NewUsers(old(users), old(row), newPwd).Some?)
      ensures old(SafeNow() && Sound(row)) ==> SafeNow() && safeSoFar == old(safeSoFar)
      ensures old(SafeNow()) && old(row).conn.Some? ==> GrantAccepted(OldGrant(old(row)))
      ensures ok ==> log == Logged(old(log), old(row))
      ensures ok ==> row == Switched(old(row), newPwd)
      ensures ok ==> NewUsers(old(users), old(row), newPwd) == Some(users)
      ensures ok ==> if old(row).conn.Some?
                     then secrets == AfterLinks(old(secrets), links, |links|, NewGrant(old(row), newPwd))
                     else links == [] && secrets == old(secrets)
      ensures ok || NoFaults() ==> failures == old(failures)
      ensures (old(row).conn.Some? || links == []) && NewUsers(old(users), old(row), newPwd).Some? ==>
                Counted(ok, old(failures)) && Took(ok, old(awaits), SwitchAwaits(old(row).kind, |links|))
      ensures NewUsers(old(users), old(row), newPwd).None? ==>
                !ok && users == old(users) && row == old(row) && secrets == old(secrets) &&
                (old(SafeNow()) ==> safeSoFar == old(safeSoFar))
      ensures HistoryFails(old(awaits)) && NewUsers(old(users), old(row), newPwd).Some? ==>
                !ok && NewUsers(old(users), old(row), newPwd) == Some(users) && row == old(row) &&
                secrets == old(secrets) && awaits == old(awaits) + 2
    {
      var before := row;
      ok := SwitchRow(newPwd);
      if !ok {
        return;
      }
      ok := Spread(if before.conn.Some? then Some(NewGrant(before, newPwd)) else None);
    }

    /** Steps 7 and 8, with the credential if there is a URL to write. */
    method Spread(g: Option<Grant>) returns (ok: bool)
      modifies this`secrets, this`log, this`awaits, this`failures, this`safeSoFar
      ensures ok ==> log == old(log) + Redeploys(links)
      ensures Tied(old(awaits), old(failures))
      ensures Left() == old(Left())
      ensures old(SafeNow()) && g.Some? && GrantAccepted(g.value) ==> SafeNow() && safeSoFar == old(safeSoFar)
      ensures ok ==> if g.Some? then secrets == AfterLinks(old(secrets), links, |links|, g.value)
                     else links == [] && secrets == old(secrets)
      ensures ok || NoFaults() ==> failures == old(failures)
      ensures g.Some? ==> Took(ok, old(awaits), 1 + LinksAwaits(g.value.kind, |links|) + |links|)
      ensures g.None? && links == [] ==> Took(ok, old(awaits), 1)
      ensures g.Some? || links == [] ==> Counted(ok, old(failures))
    {
      if g.None? {
        var f := Await();  // the query for the links
        ok := f == Pass && links == [];  // without a URL, building the variables of the first link throws
      } else {
        ok := RewriteSecrets(g.value);
      }
      if ok {
        ok := EnqueueRedeploys(false);
      }
    }

    /** Steps 4 to 6: create the user, record the old password, switch the row. */
    method SwitchRow(newPwd: string) returns (ok: bool)
      requires row.password.Some?
      modifies this`users, this`row, this`log, this`awaits, this`failures, this`safeSoFar
      ensures Tied(old(awaits), old(failures))
      ensures ok ==> log == old(log) + [OldPassword(old(row).password.value)]
      ensures row == old(row) || (row == Switched(old(row), newPwd) && NewUsers(old(users), old(row), newPwd).Some?)
      ensures old(SafeNow() && Sound(row)) ==> SafeNow() && safeSoFar == old(safeSoFar)
      ensures old(SafeNow()) && old(row).conn.Some? ==> GrantAccepted(OldGrant(old(row)))
      ensures ok ==> row == Switched(old(row), newPwd)
      ensures ok ==> NewUsers(old(users), old(row), newPwd) == Some(users)
      ensures ok && old(row).conn.Some? ==> GrantAccepted(NewGrant(old(row), newPwd))
      ensures ok || NoFaults() ==> failures == old(failures)
      ensures NewUsers(old(users), old(row), newPwd).Some? ==> Counted(ok, old(failures)) && Took(ok, old(awaits), 3)
      ensures NewUsers(old(users), old(row), newPwd).None? ==>
                !ok && users == old(users) && row == old(row) && (old(SafeNow()) ==> safeSoFar == old(safeSoFar))
      ensures HistoryFails(old(awaits)) && NewUsers(old(users), old(row), newPwd).Some? ==>
                !ok && NewUsers(old(users), old(row), newPwd) == Some(users) && row == old(row) &&
                awaits == old(awaits) + 2
    {
      ok := CreateUser(row.kind, NewUser(row.kind, OldUser(row)), newPwd);
      if !ok {
        return;
      }
      ok := Record(OldPassword(row.password.value));
      if !ok {
        return;
      }
      ok := UpdateRow(Switched(row, newPwd));
    }

    /**
     Nothing that is stored can be cut off, whether the rotation completes or is undone.  Redis, which takes an
     existing user again, could lose one on the way back.
     */
    ghost predicate Secure(r: Row)
      reads this`secrets
    {
      && Sound(r) && Spares(Left(), OldUser(r))
      && (r.kind == Redis ==> Spares(Left(), NewUser(r.kind, OldUser(r))))
    }

    /** The two stored states a rotation may leave, and exactly when it ends well or in a completed rollback. */
    ghost predicate Ending(users0: Users, row0: Row, secrets0: set<Secret>, log0: seq<Entry>, failures0: nat,
                           newPwd: string, polls: seq<Poll>, outcome: Outcome)
      reads this
    {
      && (row.(locked := false) == row0.(locked := false) ||
          (row.(locked := false) == Switched(row0, newPwd).(locked := false) && NewUsers(users0, row0, newPwd).Some?))
      && (outcome.Completed? <==>
            failures == failures0 && Rotatable(row0) && CanComplete(users0, row0, newPwd, polls))
      && (outcome == RolledBack(true) <==>
            failures == failures0 && Rotatable(row0) && MustRollBack(users0, row0, newPwd, polls))
      && (outcome.Completed? ==> CompletedFrom(users0, row0, secrets0, newPwd, outcome.dropped))
      && (outcome == RolledBack(true) ==> RolledBackFrom(users0, row0, secrets0, newPwd))
      && (row0.password.Some? && outcome.Completed? ==> log == Logged(log0, row0))
      && (row0.password.Some? && outcome == RolledBack(true) ==>
            Logged(log0, row0) <= log && (NoFaults() ==> log == Logged(log0, row0) + Redeploys(links)))
    }

    /**
     Two single faults in a rotation that begins at await `start`.  At the insert into `password_history` it fails
     with the new user left behind and nothing else changed; at the await that should restore the row a rollback is
     reported although the new credential stays in place.
     */
    ghost predicate OneFault(start: nat, users0: Users, row0: Row, secrets0: set<Secret>, newPwd: string,
                             polls: seq<Poll>, outcome: Outcome)
      reads this
    {
      && (Rotatable(row0) && NewUsers(users0, row0, newPwd).Some? && OnlyFault(start + 3) ==>
            outcome == Failed && NewUsers(users0, row0, newPwd) == Some(users) && secrets == secrets0 && row == row0)
      && (Rotatable(row0) && MustRollBack(users0, row0, newPwd, polls) &&
          OnlyFault(start + 2 + AwaitsToDecision(row0.kind, |links|, polls)) ==>
            outcome == RolledBack(false) && row == Switched(row0, newPwd))
    }

    /** The user name a rotation changes to. */
    ghost function FreshName(row0: Row): string {
      if row0.kind == Redis then "default_new"
      else if row0.conn.Some? then row0.conn.value.user + "_new"
      else "ploydok_new"
    }

    /**
     What is stored at the end of a rotation, and of a completed rollback: the row has its password and its URL, which
     leads to the same database, every linked app has the same, and the engine accepts them.
     */
    ghost predicate Stored(row0: Row, newPwd: string, outcome: Outcome)
      reads this
    {
      && (outcome.Completed? ==>
            && row.password == Some(newPwd) && Accepts(users, FreshName(row0), newPwd) == NewNameStays(row0, outcome)
            && (row0.conn.Some? ==> row.conn == Some(Conn(FreshName(row0), newPwd, row0.conn.value.host,
                                                           row0.conn.value.port, row0.conn.value.query)))
            && (row0.conn.Some? && DistinctApps(links) ==>
                  DeliversAll(secrets, links, row0.kind, row0.conn.value,
                              Login(FreshName(row0), newPwd, FreshName(row0), newPwd))))
      && (outcome == RolledBack(true) ==>
            && row0.conn.Some? && row0.password.Some? && row == row0.(locked := false)
            && (DistinctApps(links) ==>
                  DeliversAll(secrets, links, row0.kind, row0.conn.value,
                              Login(row0.conn.value.user, row0.conn.value.password,
                                    row0.conn.value.user, row0.password.value))))
    }

    /** The new user is not the one that the rotation drops at its end. */
    ghost predicate NewNameStays(row0: Row, outcome: Outcome) {
      outcome == Completed(true) ==> FreshName(row0) != if row0.conn.Some? then row0.conn.value.user else "ploydok"
    }

    lemma EndingStores(users0: Users, row0: Row, secrets0: set<Secret>, log0: seq<Entry>, failures0: nat,
                       newPwd: string, polls: seq<Poll>, outcome: Outcome)
      requires Ending(users0, row0, secrets0, log0, failures0, newPwd, polls, outcome)
      ensures Stored(row0, newPwd, outcome)
    {
      if outcome.Completed? {
        CompletedStores(users0, row0, secrets0, newPwd, outcome.dropped);
      } else if outcome == RolledBack(true) {
        var switched := AfterLinks(secrets0, links, |links|, NewGrant(row0, newPwd));
        if DistinctApps(links) {
          LoopDelivers(switched, links, OldGrant(row0), row0.conn.value);
        }
      }
    }

    lemma CompletedStores(users0: Users, row0: Row, secrets0: set<Secret>, newPwd: string, dropped: bool)
      requires CompletedFrom(users0, row0, secrets0, newPwd, dropped)
      ensures Stored(row0, newPwd, Completed(dropped))
    {
      assert FreshName(row0) == NewUser(row0.kind, OldUser(row0));
      if row0.conn.Some? && DistinctApps(links) {
        LoopDelivers(secrets0, links, NewGrant(row0, newPwd), row0.conn.value);
      }
    }

    /** The engine refused the new user: nothing but the lock may have changed. */
    twostate predicate Untouched()
      reads this
    {
      users == old(users) && secrets == old(secrets) && row.(locked := false) == old(row).(locked := false)
    }

    /** The new user is created, and then recording the old password fails. */
    ghost predicate HistoryFails(from: nat) {
      faults(from) == Pass && faults(from + 1) != Pass
    }

    /** The try block of `rotatePassword`. */
    method TryRotate(before: Row, newPwd: string, polls: seq<Poll>, ghost start: nat) returns (outcome: Outcome)
      requires Rotatable(before) && row == before.(locked := true) && awaits == start + 2
      modifies this
      ensures Tied(old(awaits), old(failures))
      ensures Left() == old(Left()) && !outcome.Rejected?
      ensures Ending(old(users), before, old(secrets), old(log), old(failures), newPwd, polls, outcome)
      ensures old(SafeNow() && Secure(before)) ==> SafeNow() && safeSoFar == old(safeSoFar)
      ensures old(SafeNow()) && outcome == Completed(true) ==>
                (SafeNow() <==> Sound(before) && Spares(Left(), OldUser(before)))
      ensures old(SafeNow()) && Sound(before) && outcome == RolledBack(true) ==> Undone(before)
      ensures NewUsers(old(users), before, newPwd).None? ==>
                Untouched() && outcome == Failed && (old(SafeNow()) ==> safeSoFar == old(safeSoFar))
      ensures !outcome.Failed? ==> !row.locked
      ensures NoFaults() ==> failures == old(failures) && outcome != Completed(false) && outcome != RolledBack(false)
      ensures MustRollBack(old(users), before, newPwd, polls) &&
              OnlyFault(start + 2 + AwaitsToDecision(before.kind, |links|, polls)) ==>
                outcome == RolledBack(false) && row == Switched(before, newPwd)
      ensures OnlyFault(start + 3) && NewUsers(old(users), before, newPwd).Some? ==>
                outcome == Failed && NewUsers(old(users), before, newPwd) == Some(users) &&
                secrets == old(secrets) && row.(locked := false) == before && awaits == start + 4
    {
      NewNameIsSpared(users, before, newPwd, secrets, links);
      ghost var decided := start + 2 + AwaitsToDecision(before.kind, |links|, polls);
      var ok := SwitchLocked(before, newPwd, polls, start, decided);
      if !ok {
        return Failed;
      }
      outcome := ConcludeSwitched(before, newPwd, polls, old(users), old(secrets), old(log), decided);
    }

    /** The first half of the try block, in terms of the row before the lock. */
    method SwitchLocked(before: Row, newPwd: string, ghost polls: seq<Poll>, ghost start: nat, ghost decided: nat)
      returns (ok: bool)
      requires Rotatable(before) && row == before.(locked := true) && awaits == start + 2
      requires decided == start + 2 + AwaitsToDecision(before.kind, |links|, polls)
      modifies this
      ensures Tied(old(awaits), old(failures))
      ensures Left() == old(Left())
      ensures old(SafeNow()) && Sound(before) ==> SafeNow() && safeSoFar == old(safeSoFar)
      ensures old(SafeNow()) && before.conn.Some? ==> GrantAccepted(OldGrant(before))
      ensures ok ==> failures == old(failures) && SwitchedFrom(old(users), before, old(secrets), old(log), newPwd)
      ensures ok && MustRollBack(old(users), before, newPwd, polls) ==> decided == awaits + PollsRead(polls)
      ensures !ok ==> Ending(old(users), before, old(secrets), old(log), old(failures), newPwd, polls, Failed)
      ensures !ok && MustRollBack(old(users), before, newPwd, polls) ==> !OnlyFault(decided)
      ensures NoFaults() ==> failures == old(failures)
      ensures NewUsers(old(users), before, newPwd).None? ==>
                !ok && Untouched() && (old(SafeNow()) ==> safeSoFar == old(safeSoFar))
      ensures OnlyFault(start + 3) && NewUsers(old(users), before, newPwd).Some? ==>
                !ok && NewUsers(old(users), before, newPwd) == Some(users) &&
                secrets == old(secrets) && row.(locked := false) == before && awaits == start + 4
    {
      LockAside(users, before, newPwd);
      ok := Switch(newPwd);
      if !ok {
        assert MustRollBack(old(users), before, newPwd, polls) ==> awaits - 1 < decided;
      }
    }

    /** The state that the first half of the try block leaves when it succeeds. */
    ghost predicate SwitchedFrom(users0: Users, before: Row, secrets0: set<Secret>, log0: seq<Entry>, newPwd: string)
      requires before.password.Some?
      reads this
    {
      && log == Logged(log0, before)
      && NewUsers(users0, before, newPwd) == Some(users) && row == Switched(before, newPwd).(locked := true)
      && if before.conn.Some? then secrets == AfterLinks(secrets0, links, |links|, NewGrant(before, newPwd))
         else links == [] && secrets == secrets0
    }

    /** The second half, in terms of the state before the first. */
    method ConcludeSwitched(before: Row, newPwd: string, polls: seq<Poll>, ghost users0: Users,
                            ghost secrets0: set<Secret>, ghost log0: seq<Entry>, ghost decided: nat)
      returns (outcome: Outcome)
      requires Rotatable(before) && SwitchedFrom(users0, before, secrets0, log0, newPwd)
      modifies this
      ensures Tied(old(awaits), old(failures))
      ensures Left() == old(Left()) && !outcome.Rejected?
      ensures Ending(users0, before, secrets0, log0, old(failures), newPwd, polls, outcome)
      ensures old(SafeNow()) && Secure(before) && Spares(Left(), NewUser(before.kind, OldUser(before))) &&
              old(GrantAccepted(OldGrant(before))) ==>
                SafeNow() && safeSoFar == old(safeSoFar)
      ensures (old(SafeNow()) || !Sound(before)) && outcome == Completed(true) ==>
                (SafeNow() <==> Sound(before) && Spares(Left(), OldUser(before)))
      ensures old(SafeNow()) && Sound(before) && old(GrantAccepted(OldGrant(before))) && outcome == RolledBack(true) ==>
                Undone(before)
      ensures !outcome.Failed? ==> !row.locked
      ensures NoFaults() ==> failures == old(failures) && outcome != Completed(false) && outcome != RolledBack(false)
      ensures links != [] && !Healthy(polls) && decided == old(awaits) + PollsRead(polls) && OnlyFault(decided) ==>
                outcome == RolledBack(false) && row == Switched(before, newPwd)
    {
      LockAside(users, before, newPwd);
      if before.conn.Some? {
        AllCarry(secrets0, links, NewGrant(before, newPwd));
      }
      outcome := Conclude(before.(locked := true), newPwd, polls, decided);
    }

    /** The try block and its handler, which releases the lock and ignores it if that fails. */
    method RotateLocked(before: Row, newPwd: string, polls: seq<Poll>, ghost start: nat) returns (outcome: Outcome)
      requires Rotatable(before) && row == before.(locked := true) && awaits == start + 2
      modifies this
      ensures Tied(old(awaits), old(failures))
      ensures Left() == old(Left()) && !outcome.Rejected?
      ensures Ending(old(users), before, old(secrets), old(log), old(failures), newPwd, polls, outcome)
      ensures old(SafeNow() && Secure(before)) ==> SafeNow() && safeSoFar == old(safeSoFar)
      ensures old(SafeNow()) && outcome == Completed(true) ==>
                (SafeNow() <==> Sound(before) && Spares(Left(), OldUser(before)))
      ensures old(SafeNow()) && Sound(before) && outcome == RolledBack(true) ==> Undone(before)
      ensures NewUsers(old(users), before, newPwd).None? ==>
                Untouched() && outcome == Failed && (old(SafeNow()) ==> safeSoFar == old(safeSoFar))
      ensures row.locked ==> outcome.Failed? && awaits > 0 && faults(awaits - 1) != Pass
      ensures NoFaults() ==> outcome == Expected(old(users), before, newPwd, polls)
      ensures OneFault(start, old(users), before, old(secrets), newPwd, polls, outcome)
    {
      outcome := TryRotate(before, newPwd, polls, start);
      if !outcome.Completed? {
        Release();
      }
    }

    /** Releasing the lock in the handler: whether it works makes no difference to the outcome. */
    method Release()
      modifies this`row, this`awaits, this`failures, this`safeSoFar
      ensures Tied(old(awaits), old(failures))
      ensures SafeNow() == old(SafeNow()) && (old(SafeNow()) ==> safeSoFar == old(safeSoFar))
      ensures row == if faults(old(awaits)) in {Pass, ErrorAfter} then old(row).(locked := false) else old(row)
      ensures awaits == old(awaits) + 1 && failures == old(failures)
    {
      var _ := UpdateRow(row.(locked := false));
      failures := old(failures);
    }

    /** Steps 9 to 11: poll the apps, then finish or roll back. */
    method Conclude(before: Row, newPwd: string, polls: seq<Poll>, ghost decided: nat) returns (outcome: Outcome)
      requires before.password.Some? && row == Switched(before, newPwd)
      requires before.conn.Some? || links == []
      requires before.conn.Some? ==> LinkedCarry(NewGrant(before, newPwd))
      modifies this
      ensures Tied(old(awaits), old(failures))
      ensures Left() == old(Left()) && !outcome.Rejected?
      ensures row.(locked := false) == before.(locked := false) ||
              row.(locked := false) == Switched(before, newPwd).(locked := false)
      ensures old(SafeNow()) && Secure(before) && Spares(Left(), NewUser(before.kind, OldUser(before))) &&
              old(GrantAccepted(OldGrant(before))) ==>
                SafeNow() && safeSoFar == old(safeSoFar)
      ensures (old(SafeNow()) || !Sound(before)) && outcome == Completed(true) ==>
                (SafeNow() <==> Sound(before) && Spares(Left(), OldUser(before)))
      ensures old(SafeNow()) && Sound(before) && old(GrantAccepted(OldGrant(before))) && outcome == RolledBack(true) ==>
                Undone(before)
      ensures !outcome.Failed? ==> !row.locked
      ensures outcome.Completed? ==>
                row == Switched(before, newPwd).(locked := false) && secrets == old(secrets) &&
                users == if outcome.dropped then old(users) - {OldUser(before)} else old(users)
      ensures outcome.Completed? ==> log == old(log)
      ensures outcome == RolledBack(true) ==> old(log) <= log && (NoFaults() ==> log == old(log) + Redeploys(links))
      ensures outcome == RolledBack(true) ==>
                before.conn.Some? && row == before.(locked := false) &&
                secrets == AfterLinks(old(secrets), links, |links|, OldGrant(before))
      ensures outcome == RolledBack(true) ==>
                users == old(users) - {NewUser(before.kind, OldUser(before))} || (users == old(users) && !NoFaults())
      ensures outcome.Completed? <==> failures == old(failures) && (links == [] || Healthy(polls))
      ensures outcome == RolledBack(true) <==> failures == old(failures) && links != [] && !Healthy(polls)
      ensures NoFaults() ==> failures == old(failures) && outcome != Completed(false) && outcome != RolledBack(false)
      ensures links != [] && !Healthy(polls) && decided == old(awaits) + PollsRead(polls) && OnlyFault(decided) ==>
                outcome == RolledBack(false) && row == old(row).(locked := false)
    {
      if links != [] {
        var ok, allHealthy := PollApps(polls);
        if !ok {
          return Failed;
        }
        if !allHealthy {
          outcome := RollbackRotation(before);
          return;
        }
      }
      outcome := Finish(before, newPwd);
    }

    /** `rollbackRotation`: a failure inside is logged and swallowed, the lock is released in any case. */
    method RollbackRotation(before: Row) returns (outcome: Outcome)
      requires before.conn.Some? && before.password.Some?
      modifies this
      ensures Tied(old(awaits), old(failures))
      ensures Left() == old(Left()) && (outcome.RolledBack? || outcome.Failed?)
      ensures row.(locked := false) == old(row).(locked := false) ||
              row.(locked := false) == old(row).(password := before.password, conn := before.conn, locked := false)
      ensures old(SafeNow()) && old(GrantAccepted(OldGrant(before))) && Sound(before) &&
              Spares(Left(), NewUser(before.kind, OldUser(before))) ==>
                SafeNow() && safeSoFar == old(safeSoFar)
      ensures old(SafeNow()) && old(GrantAccepted(OldGrant(before))) && Sound(before) &&
              outcome == RolledBack(true) ==>
                Undone(before)
      ensures outcome == RolledBack(true) <==> failures == old(failures)
      ensures NoFaults() ==> outcome == RolledBack(true)
      ensures outcome == RolledBack(true) ==>
                row == old(row).(password := before.password, conn := before.conn, locked := false) &&
                secrets == AfterLinks(old(secrets), links, |links|, OldGrant(before)) &&
                (users == old(users) - {NewUser(before.kind, OldUser(before))} || (users == old(users) && !NoFaults()))
      ensures old(log) <= log && (NoFaults() ==> log == old(log) + Redeploys(links))
      // The last await is the release of the lock, whatever failed before it.
      ensures awaits > old(awaits) && (outcome.RolledBack? <==> faults(awaits - 1) == Pass)
      ensures row.locked == (old(row.locked) && faults(awaits - 1) in {ErrorBefore, Refused})
      ensures faults(old(awaits)) in {ErrorBefore, Refused} && faults(old(awaits) + 1) == Pass ==>
                outcome == RolledBack(false) &&
                row == old(row).(locked := false) && secrets == old(secrets) && users == old(users)
    {
      var complete := Restore(before);
      var ok := UpdateRow(row.(locked := false));
      outcome := if ok then RolledBack(complete) else Failed;
    }

    /** Steps 10 and 11: drop the old user and release the lock. */
    method Finish(before: Row, newPwd: string) returns (outcome: Outcome)
      requires row == Switched(before, newPwd)
      requires before.conn.Some? ==> LinkedCarry(NewGrant(before, newPwd))
      modifies this`users, this`row, this`awaits, this`failures, this`safeSoFar
      ensures Tied(old(awaits), old(failures))
      ensures outcome.Completed? || outcome.Failed?
      ensures row == old(row) || row == old(row).(locked := false)
      ensures old(SafeNow()) && Sound(before) && Spares(Left(), OldUser(before)) ==>
                SafeNow() && safeSoFar == old(safeSoFar)
      ensures (old(SafeNow()) || !Sound(before)) && outcome == Completed(true) ==>
                (SafeNow() <==> Sound(before) && Spares(Left(), OldUser(before)))
      ensures outcome.Completed? ==>
                !row.locked && users == if outcome.dropped then old(users) - {OldUser(before)} else old(users)
      ensures outcome.Completed? <==> failures == old(failures)
      ensures NoFaults() ==> failures == old(failures) && outcome != Completed(false)
    {
      var ok, dropped;
      if before.conn.Some? {
        ok, dropped := DropUnused(OldUser(before), NewGrant(before, newPwd));
      } else {
        ok, dropped := DropUser(OldUser(before));
      }
      if !ok {
        return Failed;
      }
      ok := UpdateRow(row.(locked := false));
      outcome := if ok then Completed(dropped) else Failed;
    }

    /**
     `rotatePassword`.  Under `Secure` no fault at any await makes a stored credential unusable, not even for an
     instant.  When the drop of the old user takes effect, the final state is safe exactly if the row has a URL,
     the new name differs from the old, and no app without a link row names the old user.  Which faults let a
     rotation end well, and which let it end in a completed rollback, is stated exactly.
     */
    method RotatePassword(newPwd: string, polls: seq<Poll>) returns (outcome: Outcome)
      modifies this
      ensures Tied(old(awaits), old(failures))
      ensures Left() == old(Left())
      ensures Ending(old(users), old(row), old(secrets), old(log), old(failures), newPwd, polls, outcome)
      ensures old(SafeNow() && Secure(row)) ==> SafeNow() && safeSoFar == old(safeSoFar)
      ensures !old(Rotatable(row)) ==>
                outcome in {Rejected, Failed} && row == old(row) && users == old(users) && secrets == old(secrets) &&
                log == old(log) && safeSoFar == old(safeSoFar)
      ensures old(SafeNow()) && outcome == Completed(true) ==>
                (SafeNow() <==> old(Sound(row)) && Spares(Left(), OldUser(old(row))))
      ensures old(SafeNow() && Sound(row)) && outcome == RolledBack(true) ==> Undone(old(row))
      ensures Stored(old(row), newPwd, outcome)
      // A user of the new name that is there already stops every rotation, except of Redis.
      ensures NewUsers(old(users), old(row), newPwd).None? ==> Untouched() && outcome in {Rejected, Failed}
      ensures OneFault(old(awaits), old(users), old(row), old(secrets), newPwd, polls, outcome)
      ensures NoFaults() ==> outcome == Expected(old(users), old(row), newPwd, polls)
      // The lock stays behind only if the last await failed: one that should have released it, or this one.
      ensures old(Rotatable(row)) && faults(old(awaits)) == Pass && faults(old(awaits) + 1) == ErrorAfter ==>
                outcome == Failed && row == old(row).(locked := true)
      ensures row.locked && !old(row.locked) ==> outcome.Failed? && awaits > 0 && faults(awaits - 1) != Pass
    {
      var dbRow := row;
      var go;
      go, outcome := Acquire(newPwd, polls);
      if !go {
        return;
      }
      outcome := RotateLocked(dbRow, newPwd, polls, old(awaits));
      EndingStores(old(users), dbRow, old(secrets), old(log), old(failures), newPwd, polls, outcome);
    }

    /** Steps 1 to 3: read the row, check it and take the lock. */
    method Acquire(ghost newPwd: string, ghost polls: seq<Poll>) returns (go: bool, outcome: Outcome)
      modifies this`row, this`awaits, this`failures, this`safeSoFar
      ensures Tied(old(awaits), old(failures))
      ensures SafeNow() == old(SafeNow()) && (old(SafeNow()) ==> safeSoFar == old(safeSoFar))
      ensures go <==>
                && old(row).status == Running && !old(row).locked && old(row).hasContainer && old(row).password.Some?
                && faults(old(awaits)) == Pass && faults(old(awaits) + 1) == Pass
      ensures go ==> row == old(row).(locked := true) && awaits == old(awaits) + 2 && failures == old(failures)
      ensures !go ==> outcome in {Rejected, Failed} && (old(Rotatable(row)) ==> outcome == Failed)
      ensures !go ==> Ending(users, old(row), secrets, log, old(failures), newPwd, polls, outcome)
      ensures !go ==> Stored(old(row), newPwd, outcome) && Untouched()
      ensures !go ==> OneFault(old(awaits), users, old(row), secrets, newPwd, polls, outcome)
      ensures !go && old(Rotatable(row)) ==> failures != old(failures) && faults(awaits - 1) != Pass
      ensures !go ==>
                row == if old(Rotatable(row)) && faults(old(awaits)) == Pass && faults(old(awaits) + 1) == ErrorAfter
                       then old(row).(locked := true) else old(row)
      ensures !old(Rotatable(row)) ==> safeSoFar == old(safeSoFar)
      ensures !old(Rotatable(row)) && faults(old(awaits)) == Pass ==> outcome == Rejected
    {
      go := false;
      var f := Await();
      if f != Pass {
        return false, Failed;
      }
      if !Rotatable(row) {
        return false, Rejected;
      }
      go := UpdateRow(row.(locked := true));
      outcome := Failed;
    }

    /** Any number of rotations of a Postgres or Mongo database, whatever fails in them. */
    method RotateRepeatedly(times: nat, passwords: nat -> string, polls: nat -> seq<Poll>)
      requires SafeNow() && Spares(Left(), OldUser(row))
      requires row.kind != Redis && row.conn.Some?
      modifies this
      ensures Tied(old(awaits), old(failures))
      ensures SafeNow() && safeSoFar == old(safeSoFar)
    {
      var i := 0;
      while i < times
        invariant SafeNow() && safeSoFar == old(safeSoFar) && Tied(old(awaits), old(failures))
        invariant row.kind != Redis && row.conn.Some? && Spares(Left(), OldUser(row))
      {
        LongerNameDiffers(OldUser(row));
        NewNameIsSpared(users, row, passwords(i), secrets, links);
        var _ := RotatePassword(passwords(i), polls(i));
        i := i + 1;
      }
    }

    /** A user of the new name that is there already stops every rotation of Postgres or Mongo, without a fault too. */
    method RotateStuck(times: nat, passwords: nat -> string, polls: nat -> seq<Poll>) returns (outcomes: seq<Outcome>)
      requires row.kind != Redis && NewUser(row.kind, OldUser(row)) in users
      modifies this
      ensures Tied(old(awaits), old(failures))
      ensures users == old(users) && secrets == old(secrets) && row.(locked := false) == old(row).(locked := false)
      ensures |outcomes| == times && forall o <- outcomes :: o == Rejected || o == Failed
    {
      outcomes := [];
      while |outcomes| < times
        invariant |outcomes| <= times && forall o <- outcomes :: o == Rejected || o == Failed
        invariant users == old(users) && secrets == old(secrets) && Tied(old(awaits), old(failures))
        invariant row.(locked := false) == old(row).(locked := false)
      {
        var o := RotatePassword(passwords(|outcomes|), polls(|outcomes|));
        outcomes := outcomes + [o];
      }
    }

    /**
     Retry after a failure.  One lost insert into `password_history`, after the new user is created and before
     the row names it, and no later rotation of this database ever succeeds.
     */
    method RotateAfterFailedHistory(newPwd: string, poll: seq<Poll>, times: nat, passwords: nat -> string,
                                    polls: nat -> seq<Poll>) returns (first: Outcome, later: seq<Outcome>)
      requires Rotatable(row) && row.kind != Redis && NewUser(row.kind, OldUser(row)) !in users
      requires OnlyFault(awaits + 3)
      modifies this
      ensures first == Failed && |later| == times && forall o <- later :: o == Rejected || o == Failed
      ensures users == old(users)[NewUser(old(row).kind, OldUser(old(row))) := {newPwd}]
      ensures secrets == old(secrets) && row.(locked := false) == old(row)
    {
      first := RotatePassword(newPwd, poll);
      later := RotateStuck(times, passwords, polls);
    }

    ghost predicate NoFaults() {
      forall k :: faults(k) == Pass
    }

    /** Await `k` fails without effect, and no other one fails. */
    ghost predicate OnlyFault(k: nat) {
      (faults(k) == ErrorBefore || faults(k) == Refused) && forall j: nat | j != k :: faults(j) == Pass
    }

    /** How a rotation ends if nothing fails. */
    ghost function Expected(users0: Users, row0: Row, newPwd: string, polls: seq<Poll>): Outcome {
      if !Rotatable(row0) then Rejected
      else if CanComplete(users0, row0, newPwd, polls) then Completed(true)
      else if MustRollBack(users0, row0, newPwd, polls) then RolledBack(true)
      else Failed
    }

    /** Redis always rotates to the same name: the second fault-free rotation deletes the user it just set. */
    method RotateRedisTwice(first: string, second: string, polls: seq<Poll>)
      requires SafeNow()
      requires Rotatable(row) && row.kind == Redis && row.conn.Some? && OldUser(row) != "default_new"
      requires NoFaults() && Healthy(polls)
      modifies this
      ensures Tied(old(awaits), old(failures))
      ensures !SafeNow()
    {
      var a := RotatePassword(first, polls);
      var b := RotatePassword(second, polls);
    }

    /**
     Apps that do not come up: without a fault the rotation is undone completely, down to the engine's
     users, and the database is free for the next one.
     */
    method RotateUnhealthy(newPwd: string, polls: seq<Poll>) returns (outcome: Outcome)
      requires SafeNow() && Rotatable(row)
      requires NoFaults() && !Healthy(polls) && links != [] && row.conn.Some?
      requires NewUser(row.kind, OldUser(row)) !in users
      modifies this
      ensures Tied(old(awaits), old(failures))
      ensures outcome == RolledBack(true)
      ensures row == old(row) && users == old(users)
    {
      outcome := RotatePassword(newPwd, polls);
    }

    /** Nothing but a fault stands between these inputs and a normal return. */
    ghost predicate CanComplete(users0: Users, row0: Row, newPwd: string, polls: seq<Poll>) {
      (links == [] || (Healthy(polls) && row0.conn.Some?)) && NewUsers(users0, row0, newPwd).Some?
    }

    /** Nothing but a fault stands between these inputs and a rollback. */
    ghost predicate MustRollBack(users0: Users, row0: Row, newPwd: string, polls: seq<Poll>) {
      links != [] && !Healthy(polls) && row0.conn.Some? && NewUsers(users0, row0, newPwd).Some?
    }

    /** Normal return: the row and all rewritten secrets hold the new credential, the lock is free. */
    ghost predicate CompletedFrom(users0: Users, row0: Row, secrets0: set<Secret>, newPwd: string, dropped: bool)
      reads this
    {
      var created := NewUsers(users0, row0, newPwd);
      && row == Switched(row0, newPwd).(locked := false)
      && created.Some?
      && users == (if dropped then created.value - {OldUser(row0)} else created.value)
      && (if row0.conn.Some? then secrets == AfterLinks(secrets0, links, |links|, NewGrant(row0, newPwd))
          else links == [] && secrets == secrets0)
    }

    /** A completed rollback: the row is what it was, and every secret was rewritten from it. */
    ghost predicate RolledBackFrom(users0: Users, row0: Row, secrets0: set<Secret>, newPwd: string)
      reads this
    {
      && row0.conn.Some? && row0.password.Some?
      && row == row0.(locked := false)
      && secrets == AfterLinks(AfterLinks(secrets0, links, |links|, NewGrant(row0, newPwd)), links, |links|,
                               OldGrant(row0))
      && var created := NewUsers(users0, row0, newPwd);
         created.Some? &&
         (users == created.value - {NewUser(row0.kind, OldUser(row0))} || (users == created.value && !NoFaults()))
    }
  }

  lemma RedeploysNext(links: seq<Link>, i: nat)
    requires i < |links|
    ensures Redeploys(links)[..i + 1] == Redeploys(links)[..i] + [Redeploy(links[i].app)]
  {
  }

  /** The lock plays no part in credentials. */
  lemma LockAside(users: Users, row: Row, newPwd: string)
    ensures var locked := row.(locked := true);
            && OldUser(locked) == OldUser(row)
            && NewUsers(users, locked, newPwd) == NewUsers(users, row, newPwd)
            && Switched(locked, newPwd) == Switched(row, newPwd).(locked := true)
            && (row.conn.Some? ==> NewGrant(locked, newPwd) == NewGrant(row, newPwd))
            && (row.conn.Some? && row.password.Some? ==> OldGrant(locked) == OldGrant(row))
            && (Sound(locked) <==> Sound(row))
  {
  }

  lemma {:induction false} LinksAwaitsGrow(kind: Kind, m: nat, n: nat)
    requires m <= n
    ensures LinksAwaits(kind, m) <= LinksAwaits(kind, n)
  {
    if m < n {
      LinksAwaitsGrow(kind, m, n - 1);
    }
  }

  lemma LongerNameDiffers(user: string)
    ensures user + "_new" != user
  {
    assert |user + "_new"| != |user|;
  }

  /** Once the old user is dropped, a row that still leads to it is refused. */
  lemma UnsoundIsUnsafe(users: Users, row: Row, newPwd: string, secrets: set<Secret>)
    requires !Sound(row) && NewUsers(users, row, newPwd).Some?
    ensures !Safe(NewUsers(users, row, newPwd).value - {OldUser(row)}, Switched(row, newPwd).(locked := false), secrets)
  {
    assert OldUser(Switched(row, newPwd).(locked := false)) == OldUser(row);
  }

  lemma AllCarry(secrets: set<Secret>, links: seq<Link>, g: Grant)
    ensures forall s <- AfterLinks(secrets, links, |links|, g) | Linked(links, |links|, s.app) :: Carries(s, g)
  {
    forall s <- AfterLinks(secrets, links, |links|, g) | Linked(links, |links|, s.app) ensures Carries(s, g) {
      AfterLinksCarry(secrets, links, |links|, g, s);
    }
  }

  /** Adding a variable that carries an accepted grant to an app whose variables all carry it. */
  lemma InsertKeepsAccepted(users: Users, secrets: set<Secret>, s: Secret, g: Grant)
    requires SecretsAccepted(users, secrets)
    requires Carries(s, g) && forall t <- secrets | t.app == s.app :: Carries(t, g)
    requires Accepts(users, g.conn.user, g.conn.password) && Accepts(users, g.user, g.password)
    ensures SecretsAccepted(users, secrets + {s})
  {
  }
}
