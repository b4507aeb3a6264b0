/** The configuration store of lib/config.py: the process environment (`os.environ`) and the
    `.env` file, seen as a list of lines. */
module Config {
  import opened Wrappers
  import Text

  /** `os.getenv(key)`. */
  function Get(environ: map<string, string>, key: string): Option<string> {
    if key in environ then Some(environ[key]) else None
  }

  /** How a Python f-string renders an optional string: `None` becomes "None". */
  function Show(v: Option<string>): string {
    match v
    case Some(s) => s
    case None => "None"
  }

  /** The named entries `load_env_variables` returns (every entry except the derived `build_url`). */
  datatype Setting =
    | Domain | Port | Scheme | TokenId | TokenKey | Username | MustChangePassword
    | InitialPassword | Password | NewPassword | Debug | Neo4jDatabaseName | Neo4jDataDir
    | DockerComposeDir

  /** The environment variable each entry is read from. */
  function EnvName(s: Setting): string {
    match s
    case Domain => "BHE_DOMAIN"
    case Port => "BHE_PORT"
    case Scheme => "BHE_SCHEME"
    case TokenId => "BHE_TOKEN_ID"
    case TokenKey => "BHE_TOKEN_KEY"
    case Username => "BHE_USERNAME"
    case MustChangePassword => "MUST_CHANGE_PASSWORD"
    case InitialPassword => "BHE_INITIAL_PASSWORD"
    case Password => "BHE_PASSWORD"
    case NewPassword => "BHE_NEW_PASSWORD"
    case Debug => "DEBUG"
    case Neo4jDatabaseName => "NEO4J_DATABASE_NAME"
    case Neo4jDataDir => "NEO4J_DATA_DIR"
    case DockerComposeDir => "DOCKER_COMPOSE_DIR"
  }

  /** The dictionary `load_env_variables` returns. */
  datatype EnvVars = EnvVars(
    baseUrl: Option<string>, basePort: Option<string>, baseScheme: Option<string>, buildUrl: string,
    tokenId: Option<string>, tokenKey: Option<string>, username: Option<string>,
    mustChangePassword: Option<string>, initialPassword: Option<string>, password: Option<string>,
    newPassword: Option<string>, debug: Option<string>, neo4jDatabaseName: Option<string>,
    neo4jDataDir: Option<string>, dockerComposeDir: Option<string>)
  {
    /** The entry of this dictionary that corresponds to `s`. */
    function Entry(s: Setting): Option<string> {
      match s
      case Domain => baseUrl
      case Port => basePort
      case Scheme => baseScheme
      case TokenId => tokenId
      case TokenKey => tokenKey
      case Username => username
      case MustChangePassword => mustChangePassword
      case InitialPassword => initialPassword
      case Password => password
      case NewPassword => newPassword
      case Debug => debug
      case Neo4jDatabaseName => neo4jDatabaseName
      case Neo4jDataDir => neo4jDataDir
      case DockerComposeDir => dockerComposeDir
    }
  }

  /** The server URL: scheme, "://", domain, ":", port, each rendered as an f-string renders it. */
  function BuildUrl(environ: map<string, string>): (url: string)
    ensures Text.StartsWith(url, Show(Get(environ, "BHE_SCHEME")) + "://")
  {
    Show(Get(environ, "BHE_SCHEME")) + "://" + Show(Get(environ, "BHE_DOMAIN")) + ":" + Show(Get(environ, "BHE_PORT"))
  }

  predicate IsColon(c: char) {
    c == ':'
  }

  /** Reads a URL of the form scheme "://" domain ":" port back into its three parts. */
  function SplitUrl(url: string): Option<(string, string, string)> {
    match Text.FirstIndex(url, IsColon)
    case None => None
    case Some(i) =>
      var rest := url[i + 1..];
      if !Text.StartsWith(rest, "//") then None
      else
        var hostPort := rest[2..];
        match Text.FirstIndex(hostPort, IsColon)
        case None => None
        case Some(j) => Some((url[..i], hostPort[..j], hostPort[j + 1..]))
  }

  /** A colon-free first part is found again in front of the first colon. */
  lemma FirstColonAfter(prefix: string, rest: string)
    requires ':' !in prefix
    ensures Text.FirstIndex(prefix + ":" + rest, IsColon) == Some(|prefix|)
  {
    var s := prefix + ":" + rest;
    assert s[|prefix|] == ':';
    forall k | 0 <= k < |prefix| ensures !IsColon(s[k]) {
      assert s[k] == prefix[k];
    }
  }

  /** Splitting a URL built from colon-free scheme and domain gives back the three parts. */
  lemma SplitUrlJoined(scheme: string, domain: string, port: string)
    requires ':' !in scheme && ':' !in domain
    ensures SplitUrl(scheme + "://" + domain + ":" + port) == Some((scheme, domain, port))
  {
    var url := scheme + "://" + domain + ":" + port;
    assert url == scheme + ":" + ("//" + domain + ":" + port);
    FirstColonAfter(scheme, "//" + domain + ":" + port);
    var rest := url[|scheme| + 1..];
    assert rest == "//" + domain + ":" + port;
    var hostPort := rest[2..];
    assert hostPort == domain + ":" + port;
    FirstColonAfter(domain, port);
    assert url[..|scheme|] == scheme;
    assert hostPort[..|domain|] == domain;
    assert hostPort[|domain| + 1..] == port;
  }

  /** The server URL determines its parts when neither scheme nor domain contains a colon. */
  lemma BuildUrlRoundTrip(environ: map<string, string>)
    requires ':' !in Show(Get(environ, "BHE_SCHEME")) && ':' !in Show(Get(environ, "BHE_DOMAIN"))
    ensures SplitUrl(BuildUrl(environ)) ==
      Some((Show(Get(environ, "BHE_SCHEME")), Show(Get(environ, "BHE_DOMAIN")), Show(Get(environ, "BHE_PORT"))))
  {
    SplitUrlJoined(Show(Get(environ, "BHE_SCHEME")), Show(Get(environ, "BHE_DOMAIN")), Show(Get(environ, "BHE_PORT")));
  }

  /** `load_env_variables()`: each entry read with `os.getenv`, plus the server URL, which is built
      from the scheme, domain and port entries of the same load. */
  function LoadEnvVariables(environ: map<string, string>): (r: EnvVars)
    ensures r.buildUrl == Show(r.baseScheme) + "://" + Show(r.baseUrl) + ":" + Show(r.basePort)
  {
    EnvVars(
      Get(environ, EnvName(Domain)), Get(environ, EnvName(Port)), Get(environ, EnvName(Scheme)),
      BuildUrl(environ), Get(environ, EnvName(TokenId)), Get(environ, EnvName(TokenKey)),
      Get(environ, EnvName(Username)), Get(environ, EnvName(MustChangePassword)),
      Get(environ, EnvName(InitialPassword)), Get(environ, EnvName(Password)),
      Get(environ, EnvName(NewPassword)), Get(environ, EnvName(Debug)),
      Get(environ, EnvName(Neo4jDatabaseName)), Get(environ, EnvName(Neo4jDataDir)),
      Get(environ, EnvName(DockerComposeDir)))
  }

  /** Every entry of a load is `os.getenv` of the variable behind it. */
  lemma LoadReads(environ: map<string, string>, s: Setting)
    ensures LoadEnvVariables(environ).Entry(s) == Get(environ, EnvName(s))
  {
    match s
    case Domain =>
    case Port =>
    case Scheme =>
    case TokenId =>
    case TokenKey =>
    case Username =>
    case MustChangePassword =>
    case InitialPassword =>
    case Password =>
    case NewPassword =>
    case Debug =>
    case Neo4jDatabaseName =>
    case Neo4jDataDir =>
    case DockerComposeDir =>
  }

  /** `base_url()`: the `build_url` entry of a fresh load. */
  function BaseUrl(environ: map<string, string>): (url: string)
    ensures url == LoadEnvVariables(environ).buildUrl
  {
    BuildUrl(environ)
  }

  /** No two entries are read from the same variable. */
  lemma EnvNamesDistinct(s: Setting, t: Setting)
    requires s != t
    ensures EnvName(s) != EnvName(t)
  {
  }

  /** After an update of the variable behind `s`, a load reports the new value for `s` and the old
      value for every other entry. */
  lemma LoadAfterUpdate(environ: map<string, string>, s: Setting, value: string)
    ensures LoadEnvVariables(environ[EnvName(s) := value]).Entry(s) == Some(value)
    ensures forall t: Setting :: t != s ==>
      LoadEnvVariables(environ[EnvName(s) := value]).Entry(t) == LoadEnvVariables(environ).Entry(t)
  {
    LoadReads(environ[EnvName(s) := value], s);
    forall t: Setting | t != s
      ensures LoadEnvVariables(environ[EnvName(s) := value]).Entry(t) == LoadEnvVariables(environ).Entry(t)
    {
      EnvNamesDistinct(s, t);
      LoadReads(environ[EnvName(s) := value], t);
      LoadReads(environ, t);
    }
  }

  /** The line `update_env_variables` writes for `key`. */
  function EnvLine(key: string, value: string): string {
    key + "=" + value + "\n"
  }

  /** The test of lib/config.py:51: the stripped line starts with "key=". */
  predicate Defines(line: string, key: string) {
    Text.StartsWith(Text.Strip(line), key + "=")
  }

  /** Replace the first line satisfying `target` by `line`, or append `line` when none does. */
  function ReplaceFirst(lines: seq<string>, line: string, target: string -> bool): seq<string> {
    if lines == [] then [line]
    else if target(lines[0]) then [line] + lines[1..]
    else [lines[0]] + ReplaceFirst(lines[1..], line, target)
  }

  /** `Defines` as a test on lines. */
  function DefinesKey(key: string): string -> bool {
    line => Defines(line, key)
  }

  /** The lines of an existing `.env` after `update_env_variables(key, value)`. */
  function Upsert(lines: seq<string>, key: string, value: string): seq<string> {
    ReplaceFirst(lines, EnvLine(key, value), DefinesKey(key))
  }

  /** The `.env` lines after the upsert; `None` stands for a missing file. */
  function UpsertFile(file: Option<seq<string>>, key: string, value: string): seq<string> {
    match file
    case None => [EnvLine(key, value)]
    case Some(lines) => Upsert(lines, key, value)
  }

  /** When line `i` is the first target, exactly that line is replaced. */
  lemma {:induction false} ReplaceFirstAt(lines: seq<string>, line: string, target: string -> bool, i: nat)
    requires i < |lines| && target(lines[i])
    requires forall j :: 0 <= j < i ==> !target(lines[j])
    ensures ReplaceFirst(lines, line, target) == lines[i := line]
  {
    if i > 0 {
      assert !target(lines[0]);
      ReplaceFirstAt(lines[1..], line, target, i - 1);
      assert lines[1..][i - 1 := line] == lines[i := line][1..];
    }
  }

  /** When no line is a target, the line is appended after all the others, in their order. */
  lemma {:induction false} ReplaceFirstAppends(lines: seq<string>, line: string, target: string -> bool)
    requires forall j :: 0 <= j < |lines| ==> !target(lines[j])
    ensures ReplaceFirst(lines, line, target) == lines + [line]
  {
    if lines != [] {
      ReplaceFirstAppends(lines[1..], line, target);
      assert lines == [lines[0]] + lines[1..];
    }
  }

  /** Replacing again with a line that is itself a target changes nothing more. */
  lemma {:induction false} ReplaceFirstIdempotent(lines: seq<string>, line: string, target: string -> bool)
    requires target(line)
    ensures ReplaceFirst(ReplaceFirst(lines, line, target), line, target) == ReplaceFirst(lines, line, target)
  {
    if lines != [] && !target(lines[0]) {
      ReplaceFirstIdempotent(lines[1..], line, target);
    }
  }

  /** When line `i` is the first to define `key`, exactly that line becomes "key=value\n": every other
      line is unchanged and the number of lines is kept. */
  lemma UpsertReplacesFirst(lines: seq<string>, key: string, value: string, i: nat)
    requires i < |lines| && Defines(lines[i], key)
    requires forall j :: 0 <= j < i ==> !Defines(lines[j], key)
    ensures Upsert(lines, key, value) == lines[i := EnvLine(key, value)]
  {
    ReplaceFirstAt(lines, EnvLine(key, value), DefinesKey(key), i);
  }

  /** When no line defines `key`, "key=value\n" is appended after all the others, in their order. */
  lemma UpsertAppends(lines: seq<string>, key: string, value: string)
    requires forall j :: 0 <= j < |lines| ==> !Defines(lines[j], key)
    ensures Upsert(lines, key, value) == lines + [EnvLine(key, value)]
  {
    ReplaceFirstAppends(lines, EnvLine(key, value), DefinesKey(key));
  }

  /** Keys as the client uses them: they do not begin with whitespace (the file's own line for such a
      key would not be recognised again once stripped). */
  predicate PlainKey(key: string) {
    key == [] || !Text.IsSpace(key[0])
  }

  /** The written line defines its key. */
  lemma EnvLineDefines(key: string, value: string)
    requires PlainKey(key)
    ensures Defines(EnvLine(key, value), key)
  {
    var line := EnvLine(key, value);
    var l := Text.TrimLeft(line);
    assert line[|key|] == '=';
    assert !Text.IsSpace(line[0]);
    assert l == line;
    var r := Text.TrimRight(l);
    assert !Text.IsSpace(line[|key|]);
    assert |r| > |key|;
    assert r[..|key| + 1] == line[..|key| + 1] == key + "=";
  }

  /** Upserting the same entry twice leaves the same lines as upserting it once. */
  lemma UpsertIdempotent(lines: seq<string>, key: string, value: string)
    requires PlainKey(key)
    ensures Upsert(Upsert(lines, key, value), key, value) == Upsert(lines, key, value)
  {
    EnvLineDefines(key, value);
    ReplaceFirstIdempotent(lines, EnvLine(key, value), DefinesKey(key));
  }

  /** The same for the whole file, present or missing. */
  lemma UpsertFileIdempotent(file: Option<seq<string>>, key: string, value: string)
    requires PlainKey(key)
    ensures UpsertFile(Some(UpsertFile(file, key, value)), key, value) == UpsertFile(file, key, value)
  {
    EnvLineDefines(key, value);
    if file.Some? {
      UpsertIdempotent(file.value, key, value);
    } else {
      UpsertReplacesFirst([EnvLine(key, value)], key, value, 0);
    }
  }

  /** The loop of `update_env_variables` over the lines read from `.env`: replace the first line
      that `target` recognises, stopping there, or append the new line when none does. */
  method RewriteLines(fileLines: seq<string>, line: string, target: string -> bool) returns (lines: seq<string>)
    ensures lines == ReplaceFirst(fileLines, line, target)
  {
    lines := fileLines;
    var keyFound := false;
    var i := 0;
    while i < |lines|
      invariant 0 <= i <= |lines|
      invariant !keyFound ==> lines == fileLines
      invariant !keyFound ==> forall j :: 0 <= j < i ==> !target(fileLines[j])
      invariant keyFound ==> lines == ReplaceFirst(fileLines, line, target)
    {
      if target(lines[i]) {
        ReplaceFirstAt(fileLines, line, target, i);
        lines := lines[i := line];
        keyFound := true;
        break;
      }
      i := i + 1;
    }
    if !keyFound {
      ReplaceFirstAppends(fileLines, line, target);
      lines := lines + [line];
    }
  }

  /** The process environment and the `.env` file, both of which `update_env_variables` writes. */
  class ConfigStore {
    var environ: map<string, string>
    var envFile: Option<seq<string>>

    constructor (environ: map<string, string>, envFile: Option<seq<string>>)
      ensures this.environ == environ && this.envFile == envFile
    {
      this.environ := environ;
      this.envFile := envFile;
    }

    /** `load_env_variables()` against the current environment. */
    function Load(): EnvVars
      reads this
    {
      LoadEnvVariables(environ)
    }

    /** `update_env_variables(key, value)`: set the variable, then rewrite or create `.env`. */
    method UpdateEnvVariables(key: string, value: string)
      modifies this
      ensures environ == old(environ)[key := value]
      ensures envFile == Some(UpsertFile(old(envFile), key, value))
    {
      environ := environ[key := value];
      match envFile
      case None =>
        envFile := Some([EnvLine(key, value)]);
      case Some(fileLines) =>
        var lines := RewriteLines(fileLines, EnvLine(key, value), DefinesKey(key));
        envFile := Some(lines);
    }
  }
}
