/** The helpers of lib/utils.py that the authentication flow and the command line rely on. */
module Utils {
  import opened Wrappers
  import Text
  import Lists
  import Config

  // ---------------------------------------------------------------------------------------------
  // Liveness (check_is_up)

  /** The verdict of the liveness probe on `GET /api/v2/sso-providers`; `None` is a timeout, a
      connection error or any other exception of the transport. Any HTTP answer below 600, client
      and server errors included, means the service is up. */
  function IsUp(probe: Option<int>): (up: bool)
    ensures up <==> probe.Some? && probe.value < 600
  {
    match probe
    case None => false
    case Some(status) => status < 600
  }

  // ---------------------------------------------------------------------------------------------
  // Password policy (generate_password)

  predicate IsLower(c: char) { 'a' <= c <= 'z' }
  predicate IsUpper(c: char) { 'A' <= c <= 'Z' }
  predicate IsDigit(c: char) { '0' <= c <= '9' }

  /** Python's `string.punctuation`: the 32 printable ASCII characters that are neither letters,
      digits nor the space, in four ASCII ranges. */
  predicate IsPunctuation(c: char) {
    ('!' <= c <= '/') || (':' <= c <= '@') || ('[' <= c <= '`') || ('{' <= c <= '~')
  }

  /** The alphabet `random.choices` draws from: ASCII letters, digits and punctuation. */
  predicate InAlphabet(c: char) {
    IsLower(c) || IsUpper(c) || IsDigit(c) || IsPunctuation(c)
  }

  /** One draw of `random.choices(alphabet, k=16)`. */
  predicate IsDraw(s: string) {
    |s| == 16 && forall i :: 0 <= i < |s| ==> InAlphabet(s[i])
  }

  /** The acceptance test of the rejection loop. */
  predicate MeetsPolicy(p: string) {
    && |p| >= 12
    && (exists i :: 0 <= i < |p| && IsLower(p[i]))
    && (exists i :: 0 <= i < |p| && IsUpper(p[i]))
    && (exists i :: 0 <= i < |p| && IsPunctuation(p[i]))
    && (exists i :: 0 <= i < |p| && IsDigit(p[i]))
  }

  /** Some draw from position `from` on passes the policy (the loop is then bound to stop). */
  ghost predicate StrongDrawAhead(draws: nat -> string, from: nat) {
    exists i: nat :: from <= i && MeetsPolicy(draws(i))
  }

  /** If some draw from `from` on passes `test`, a first such draw exists. */
  lemma {:induction false} FirstStrongExists(test: string -> bool, draws: nat -> string, from: nat, w: nat)
    requires from <= w && test(draws(w))
    ensures exists k: nat :: from <= k && test(draws(k)) && forall j: nat :: from <= j < k ==> !test(draws(j))
    decreases w - from
  {
    if test(draws(from)) {
      assert forall j: nat :: from <= j < from ==> !test(draws(j));
    } else {
      FirstStrongExists(test, draws, from + 1, w);
      var k: nat :| from + 1 <= k && test(draws(k)) && forall j: nat :: from + 1 <= j < k ==> !test(draws(j));
      assert forall j: nat :: from <= j < k ==> !test(draws(j));
    }
  }

  /** The position of the first draw, from `from` on, that passes the policy. */
  ghost function NextStrong(draws: nat -> string, from: nat): (k: nat)
    requires StrongDrawAhead(draws, from)
    ensures from <= k && MeetsPolicy(draws(k))
    ensures forall j: nat :: from <= j < k ==> !MeetsPolicy(draws(j))
  {
    var w: nat :| from <= w && MeetsPolicy(draws(w));
    FirstStrongExists(MeetsPolicy, draws, from, w);
    var k: nat :| from <= k && MeetsPolicy(draws(k)) && forall j: nat :: from <= j < k ==> !MeetsPolicy(draws(j));
    k
  }

  /** `generate_password()`: draw 16 characters until the draw passes the policy. `draws(i)` is the
      i-th draw of the random generator and `from` the number of draws made so far; `next` is that
      number afterwards. */
  method GeneratePassword(draws: nat -> string, from: nat) returns (password: string, next: nat)
    requires forall i: nat :: IsDraw(draws(i))
    requires StrongDrawAhead(draws, from)
    ensures next == NextStrong(draws, from) + 1 && password == draws(next - 1)
    ensures |password| == 16 && forall i :: 0 <= i < |password| ==> InAlphabet(password[i])
    ensures |password| >= 12
    ensures exists i :: 0 <= i < |password| && IsLower(password[i])
    ensures exists i :: 0 <= i < |password| && IsUpper(password[i])
    ensures exists i :: 0 <= i < |password| && IsPunctuation(password[i])
    ensures exists i :: 0 <= i < |password| && IsDigit(password[i])
  {
    ghost var stop := NextStrong(draws, from);
    var n := from;
    password := draws(n);
    while !MeetsPolicy(password)
      invariant from <= n <= stop
      invariant password == draws(n)
      decreases stop - n
    {
      assert n != stop;
      n := n + 1;
      password := draws(n);
    }
    PolicyShape(password);
    assert IsDraw(draws(n));
    next := n + 1;
  }

  /** What passing the policy says, character by character. */
  lemma PolicyShape(p: string)
    requires MeetsPolicy(p)
    ensures |p| >= 12
    ensures exists i :: 0 <= i < |p| && IsLower(p[i])
    ensures exists i :: 0 <= i < |p| && IsUpper(p[i])
    ensures exists i :: 0 <= i < |p| && IsPunctuation(p[i])
    ensures exists i :: 0 <= i < |p| && IsDigit(p[i])
  {
  }

  /** The sentinel "none" never passes the policy, so a generated password is never the sentinel. */
  lemma PolicyExcludesSentinel(p: string)
    requires MeetsPolicy(p)
    ensures p != "none"
  {
  }

  // ---------------------------------------------------------------------------------------------
  // Initial password recovery (the parsing half of retrieve_initial_password)

  const Marker := "Initial Password Set To:"
  const NoPasswordFound := "No password found"

  predicate IsMarkerLine(line: string) {
    Text.IsInfix(Marker, line)
  }

  /** `line.split("#", 1)[1].split(":", 1)[1].strip().split()[0]`; `None` where Python raises
      `IndexError`. */
  function ExtractPassword(line: string): (r: Option<string>)
    ensures '#' !in line ==> r.None?
    ensures r.Some? ==> r.value != "" && forall i :: 0 <= i < |r.value| ==> !Text.IsSpace(r.value[i])
    ensures r.Some? ==> Text.IsInfix(r.value, line)
  {
    match Text.AfterFirst(line, '#')
    case None => None
    case Some(afterHash) =>
      match Text.AfterFirst(afterHash, ':')
      case None => None
      case Some(afterColon) =>
        var w := Text.FirstWord(afterColon);
        if w.Some? then
          Text.AfterFirstInfix(w.value, afterHash, ':');
          Text.AfterFirstInfix(w.value, line, '#');
          w
        else
          None
  }

  /** A single word is never the "No password found" sentinel. */
  lemma WordIsNotSentinel(w: string)
    requires forall i :: 0 <= i < |w| ==> !Text.IsSpace(w[i])
    ensures w != NoPasswordFound
  {
    if w == NoPasswordFound {
      assert w[2] == ' ';
      assert Text.IsSpace(w[2]);
    }
  }

  /** A recovered password is a single word, so it is never the "No password found" sentinel. */
  lemma ExtractedIsNotSentinel(line: string)
    ensures ExtractPassword(line) != Some(NoPasswordFound)
  {
    var r := ExtractPassword(line);
    if r.Some? {
      WordIsNotSentinel(r.value);
    }
  }

  /** `c` first occurs in `s` at index `i`. */
  predicate FirstAt(s: string, c: char, i: nat) {
    i < |s| && s[i] == c && forall j :: 0 <= j < i ==> s[j] != c
  }

  /** The parsing rule: with the first '#' at `i` and the first ':' after it at `j`, the password is
      the first whitespace-delimited word of what follows that ':'. */
  lemma ExtractPasswordAt(line: string, i: nat, j: nat, w: string, k: nat)
    requires FirstAt(line, '#', i)
    requires i < j < |line| && line[j] == ':' && forall m :: i < m < j ==> line[m] != ':'
    requires w != [] && forall m :: 0 <= m < |w| ==> !Text.IsSpace(w[m])
    requires Text.IsWordAt(w, line[j + 1..], k)
    ensures ExtractPassword(line) == Some(w)
  {
    Text.AfterFirstAt(line, '#', i);
    ColonAfterHash(line, i, j);
    ExtractPasswordSteps(line, line[i + 1..], line[j + 1..]);
    Text.FirstWordAt(w, line[j + 1..], k);
  }

  /** The first `IndexError` case: no ':' follows the first '#'. */
  lemma ExtractPasswordNoColon(line: string, i: nat)
    requires FirstAt(line, '#', i)
    requires forall m :: i < m < |line| ==> line[m] != ':'
    ensures ExtractPassword(line).None?
  {
    Text.AfterFirstAt(line, '#', i);
    NoColonAfterHash(line, i);
  }

  /** The second `IndexError` case: only whitespace follows the first ':' after the first '#'. */
  lemma ExtractPasswordBlank(line: string, i: nat, j: nat)
    requires FirstAt(line, '#', i)
    requires i < j < |line| && line[j] == ':' && forall m :: i < m < j ==> line[m] != ':'
    requires forall m :: j < m < |line| ==> Text.IsSpace(line[m])
    ensures ExtractPassword(line).None?
  {
    Text.AfterFirstAt(line, '#', i);
    ColonAfterHash(line, i, j);
    ExtractPasswordSteps(line, line[i + 1..], line[j + 1..]);
    var rest := line[j + 1..];
    forall m | 0 <= m < |rest| ensures Text.IsSpace(rest[m]) { assert rest[m] == line[j + 1 + m]; }
  }

  /** `ExtractPassword` in terms of the two splits it makes. */
  lemma ExtractPasswordSteps(line: string, afterHash: string, afterColon: string)
    requires Text.AfterFirst(line, '#') == Some(afterHash)
    requires Text.AfterFirst(afterHash, ':') == Some(afterColon)
    ensures ExtractPassword(line) == Text.FirstWord(afterColon)
  {
  }

  /** The first ':' after the first '#' splits the part after the '#'. */
  lemma ColonAfterHash(line: string, i: nat, j: nat)
    requires i < j < |line| && line[j] == ':' && forall m :: i < m < j ==> line[m] != ':'
    ensures Text.AfterFirst(line[i + 1..], ':') == Some(line[j + 1..])
  {
    var afterHash := line[i + 1..];
    forall m | 0 <= m < j - i - 1 ensures afterHash[m] != ':' { assert afterHash[m] == line[i + 1 + m]; }
    Text.AfterFirstAt(afterHash, ':', j - i - 1);
    assert afterHash[j - i..] == line[j + 1..];
  }

  /** Without a ':' after the first '#', the part after the '#' holds none. */
  lemma NoColonAfterHash(line: string, i: nat)
    requires i < |line| && forall m :: i < m < |line| ==> line[m] != ':'
    ensures ':' !in line[i + 1..]
  {
    var afterHash := line[i + 1..];
    forall m | 0 <= m < |afterHash| ensures afterHash[m] != ':' { assert afterHash[m] == line[i + 1 + m]; }
  }

  /** The decision of the first log line that carries the marker; `None` when no line does. */
  function FirstMarked(lines: seq<string>): (r: Option<string>)
    ensures r.None? <==> forall i :: 0 <= i < |lines| ==> !IsMarkerLine(lines[i])
  {
    if lines == [] then None
    else if IsMarkerLine(lines[0]) then Some(ExtractPassword(lines[0]).GetOr(NoPasswordFound))
    else FirstMarked(lines[1..])
  }

  /** Only marked lines count, and the first of them decides. */
  lemma {:induction false} FirstMarkedDecides(lines: seq<string>)
    ensures FirstMarked(lines).Some? ==>
      exists k :: 0 <= k < |lines| && IsMarkerLine(lines[k])
                  && (forall j :: 0 <= j < k ==> !IsMarkerLine(lines[j]))
                  && FirstMarked(lines).value == ExtractPassword(lines[k]).GetOr(NoPasswordFound)
  {
    if lines != [] && !IsMarkerLine(lines[0]) {
      var rest := lines[1..];
      FirstMarkedDecides(rest);
      assert forall i :: 0 < i < |lines| ==> lines[i] == rest[i - 1];
      if FirstMarked(rest).Some? {
        var k :| 0 <= k < |rest| && IsMarkerLine(rest[k])
                 && (forall j :: 0 <= j < k ==> !IsMarkerLine(rest[j]))
                 && FirstMarked(rest).value == ExtractPassword(rest[k]).GetOr(NoPasswordFound);
        assert lines[k + 1] == rest[k];
      }
    }
  }

  /** What `retrieve_initial_password` returns for the text of the service's logs: `None` when no
      line carries the marker, otherwise the password or "No password found". */
  function RecoveredPassword(logs: string): Option<string> {
    FirstMarked(Text.SplitLines(logs))
  }

  /** The first line kept by the marker filter is the first marked line. */
  lemma {:induction false} FilterThenFirst(lines: seq<string>)
    ensures var kept := Lists.Filter(lines, IsMarkerLine);
            FirstMarked(lines) == if kept == [] then None else Some(ExtractPassword(kept[0]).GetOr(NoPasswordFound))
  {
    if lines != [] && !IsMarkerLine(lines[0]) {
      FilterThenFirst(lines[1..]);
    }
  }

  /** The parsing half of `retrieve_initial_password`: filter the marked lines, then let the first
      one decide. */
  method RetrieveInitialPassword(logs: string) returns (r: Option<string>)
    ensures r == RecoveredPassword(logs)
  {
    var filteredLogs := Lists.Filter(Text.SplitLines(logs), IsMarkerLine);
    FilterThenFirst(Text.SplitLines(logs));
    // The body always returns, so the loop never gets past its first element.
    for i := 0 to |filteredLogs|
      invariant i == 0
    {
      var password := ExtractPassword(filteredLogs[i]);
      return Some(password.GetOr(NoPasswordFound));
    }
    return None;
  }

  /** The sample line "... # Initial Password Set To: Abc123!@#  " carries the marker and yields
      "Abc123!@#". */
  lemma SampleLogLine(line: string)
    requires line == "... # Initial Password Set To: Abc123!@#  "
    ensures IsMarkerLine(line)
    ensures ExtractPassword(line) == Some("Abc123!@#")
  {
    SampleMarked(line);
    SampleHash(line);
    SampleColon(line);
    SampleWord(line);
  }

  lemma SampleMarked(line: string)
    requires line == "... # Initial Password Set To: Abc123!@#  "
    ensures IsMarkerLine(line)
  {
    assert forall k :: 6 <= k < 30 ==> line[k] == Marker[k - 6];
    assert line[6..30] == Marker;
    Text.OccursInfix(Marker, line, 6);
  }

  lemma SampleHash(line: string)
    requires line == "... # Initial Password Set To: Abc123!@#  "
    ensures Text.AfterFirst(line, '#') == Some(line[5..])
  {
    assert forall j :: 0 <= j < 4 ==> line[j] != '#';
    Text.AfterFirstAt(line, '#', 4);
  }

  lemma SampleColon(line: string)
    requires line == "... # Initial Password Set To: Abc123!@#  "
    ensures Text.AfterFirst(line[5..], ':') == Some(line[30..])
  {
    var afterHash := line[5..];
    assert forall j :: 5 <= j < 29 ==> line[j] != ':';
    assert forall j :: 0 <= j < 24 ==> afterHash[j] == line[j + 5];
    Text.AfterFirstAt(afterHash, ':', 24);
    assert afterHash[25..] == line[30..];
  }

  lemma SampleWord(line: string)
    requires line == "... # Initial Password Set To: Abc123!@#  "
    ensures Text.FirstWord(line[30..]) == Some("Abc123!@#")
  {
    var afterColon := line[30..];
    var w := "Abc123!@#";
    assert afterColon[1..10] == w;
    assert Text.IsWordAt(w, afterColon, 1);
    Text.FirstWordAt(w, afterColon, 1);
  }

  // ---------------------------------------------------------------------------------------------
  // Session login (login_get_token)

  /** The `data` object of a successful `POST /api/v2/login`. */
  datatype LoginData = LoginData(userId: string, sessionToken: string, authExpired: bool)

  /** The decoded reply of `POST /api/v2/login`: with or without `data`. */
  datatype LoginReply = LoginReply(data: Option<LoginData>)

  /** The list `login_get_token` returns: `[user_id, session_token, auth_expired]` or `[None, None]`. */
  datatype LoginResult = NoSession | Session(userId: string, sessionToken: string, mustChange: bool)

  /** The value written to MUST_CHANGE_PASSWORD. */
  function MustChangeFlag(authExpired: bool): (flag: string)
    ensures flag == "yes" <==> authExpired
    ensures flag == "no" <==> !authExpired
  {
    if authExpired then "yes" else "no"
  }

  /** How `login_get_token` reads the reply. */
  function InterpretLogin(reply: LoginReply): (r: LoginResult)
    ensures r.Session? <==> reply.data.Some?
    ensures r.Session? ==> r.userId == reply.data.value.userId && r.sessionToken == reply.data.value.sessionToken
                           && r.mustChange == reply.data.value.authExpired
  {
    match reply.data
    case None => NoSession
    case Some(d) => Session(d.userId, d.sessionToken, d.authExpired)
  }

  /** The caller's test of a login result, the negation of `not result or not result[0]`. */
  predicate LoggedIn(r: LoginResult) {
    r.Session? && r.userId != ""
  }

  /** `login_get_token` once the reply has arrived: record the forced-change flag when the reply
      carries `data`, and return the session. */
  method LoginGetToken(store: Config.ConfigStore, reply: LoginReply) returns (r: LoginResult)
    modifies store
    ensures r == InterpretLogin(reply)
    ensures reply.data.Some? ==>
      && store.environ == old(store.environ)["MUST_CHANGE_PASSWORD" := MustChangeFlag(reply.data.value.authExpired)]
      && store.envFile == Some(Config.UpsertFile(old(store.envFile), "MUST_CHANGE_PASSWORD", MustChangeFlag(reply.data.value.authExpired)))
    ensures reply.data.None? ==> store.environ == old(store.environ) && store.envFile == old(store.envFile)
  {
    match reply.data
    case Some(d) =>
      if d.authExpired {
        store.UpdateEnvVariables("MUST_CHANGE_PASSWORD", "yes");
      } else {
        store.UpdateEnvVariables("MUST_CHANGE_PASSWORD", "no");
      }
      return Session(d.userId, d.sessionToken, d.authExpired);
    case None =>
      return NoSession;
  }

  // ---------------------------------------------------------------------------------------------
  // New password choice (change_password_api, and the forced change of the authentication flow)

  /** A fresh password is generated when the configured next password is the sentinel "none" or the
      same as the current one. */
  predicate NeedsFreshPassword(configured: Option<string>, current: Option<string>) {
    configured == Some("none") || configured == current
  }

  /** The password `change_password_api` moves to, given the one it would generate. */
  function NewPasswordChoice(configured: Option<string>, current: Option<string>, generated: string): (r: Option<string>)
    ensures NeedsFreshPassword(configured, current) ==> r == Some(generated)
    ensures r == Some("none") ==> generated == "none"
    ensures r == current ==> r == Some(generated)
    ensures !NeedsFreshPassword(configured, current) ==> r == configured
  {
    if NeedsFreshPassword(configured, current) then Some(generated) else configured
  }

  /** With a generated password that passes the policy and differs from the current one, the choice
      is neither the sentinel nor the current password. */
  lemma NewPasswordIsFresh(configured: Option<string>, current: Option<string>, generated: string)
    requires MeetsPolicy(generated) && current != Some(generated)
    ensures NewPasswordChoice(configured, current, generated) != Some("none")
    ensures NewPasswordChoice(configured, current, generated) != current
  {
    PolicyExcludesSentinel(generated);
  }

  // ---------------------------------------------------------------------------------------------
  // API key (create_initial_api_key reply, update_env_api_key)

  datatype TokenData = TokenData(id: string, key: string, name: string)

  /** The decoded reply of `POST /api/v2/tokens`: with or without `data`. */
  datatype TokenReply = TokenReply(data: Option<TokenData>)

  /** `update_env_api_key`: persist the new pair and return `[id, key, name]`. */
  method UpdateEnvApiKey(store: Config.ConfigStore, reply: TokenReply) returns (tokenId: string, tokenKey: string, tokenName: string)
    requires reply.data.Some?
    modifies store
    ensures tokenId == reply.data.value.id && tokenKey == reply.data.value.key && tokenName == reply.data.value.name
    ensures store.environ == old(store.environ)["BHE_TOKEN_ID" := tokenId]["BHE_TOKEN_KEY" := tokenKey]
    ensures store.envFile == Some(Config.UpsertFile(Some(Config.UpsertFile(old(store.envFile), "BHE_TOKEN_ID", tokenId)), "BHE_TOKEN_KEY", tokenKey))
  {
    tokenName := reply.data.value.name;
    tokenId := reply.data.value.id;
    tokenKey := reply.data.value.key;
    store.UpdateEnvVariables("BHE_TOKEN_ID", tokenId);
    store.UpdateEnvVariables("BHE_TOKEN_KEY", tokenKey);
  }

  // ---------------------------------------------------------------------------------------------
  // Upload status (check_upload_file_status)

  datatype UploadState = Complete | PartiallyComplete | InProgress | Failed

  function CheckUploadFileStatus(status: int): (r: UploadState)
    ensures r == Complete <==> status == 2
    ensures r == PartiallyComplete <==> status == 8
    ensures r == InProgress <==> status in {0, 1, 6, 7}
    ensures r == Failed <==> status !in {0, 1, 2, 6, 7, 8}
  {
    if status == 2 then Complete
    else if status == 8 then PartiallyComplete
    else if status in [3, 4, 5, -1] then Failed
    else if status in [0, 1, 6, 7] then InProgress
    else Failed
  }

  // ---------------------------------------------------------------------------------------------
  // Database directories (list_neo4j_databases)

  /** Entries of neo4j's databases directory that are not databases. */
  const ReservedEntries := ["system", "logs", "store_lock", "transactions", "server_id", "dbms", "databases"]

  predicate IsDatabase(entry: string) {
    entry !in ReservedEntries
  }

  /** The directory listing without the reserved entries, in listing order. */
  function ListNeo4jDatabases(entries: seq<string>): (r: seq<string>)
    ensures forall d :: d in r <==> d in entries && d !in ReservedEntries
    ensures |r| <= |entries|
  {
    Lists.Filter(entries, IsDatabase)
  }
}
