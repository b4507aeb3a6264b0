# BloodHound Toolkit client core, modelled in Dafny

This project models the sequential logic of the BloodHound Toolkit client (`bhtk`) that sits
around its Docker and HTTP plumbing:

- the authentication state machine `authenticate()` (auth_flow.py): the existing-token shortcut,
  the "none" password sentinel, the first login, the fallback on the initial password found in
  the service logs, the move to the configured password, the forced password change, API-key
  provisioning and the final signed self check;
- the signed-request layer (lib/bh_utils.py): the three-link HMAC chain of `_request`, the URL
  and body composition of `pass_request`, and the 200 test of `verify_access`;
- the helpers of lib/utils.py: the password-policy rejection loop, the initial-password log
  parser, the login reply handling, the new-password choice, the API-key write, the upload status
  classification, the liveness status rule and the Neo4j database filter;
- the configuration store of lib/config.py: `load_env_variables`, `base_url` and the `.env`
  upsert of `update_env_variables`;
- the query helpers of lib/queries.py: the legacy query conversion, the SpecterOps prebuilt
  filter and the numbered import loop.

The server, the service logs, the clock, `random.choices`, HMAC-SHA-256, base64, UTF-8 and
`json.dumps` are inputs: a `BhUtils.Primitives` value holds the foreign functions, and an
`AuthFlow.Service` value holds the server's answers (each a function of the moment of the call,
so that a password change can make a new password valid), the log text, the clock and the
stream of random draws. `os.environ` is a `map<string, string>`. The `.env` file is the list of
its lines as `readlines` returns them, or `None` when the file is missing.

Layout: `wrappers.dfy` (Option), `text.dfy` (the Python `str` operations the client uses),
`json.dfy` (JSON values), `lists.dfy` (list comprehension with a condition), `config.dfy`,
`utils.dfy`, `bh_utils.dfy`, `queries.dfy` and `auth_flow.dfy`, one module per file.

`authenticate()` is the method `AuthFlow.Authenticator.Authenticate`. It works on a
`Config.ConfigStore` object, whose fields are the environment and the `.env` lines, and it records
every server call and every write as an `AuthFlow.Event`. It is split into one method per stage
of the source. Each stage method is proved equal to a function of the state before it
(`Flow`, `FromCredentials`, `Recover`, `MoveToConfigured`, `FromSession`, `ForcedChange`,
`ChangeToNext`, `Provision`). The lemmas state what each path does in terms of those functions.

## Model

| member | source | states |
|---|---|---|
| Config.BuildUrl | lib/config.py:16 | the URL starts with the scheme (rendered as an f-string renders it) followed by "://" |
| Config.BuildUrlRoundTrip | lib/config.py:16 | when scheme and domain hold no ':', splitting the built URL at "://" and at the next ':' gives back scheme, domain and port |
| Config.LoadEnvVariables | lib/config.py:11-28 | the build_url entry is the scheme, "://", the domain, ":" and the port entries of the same load, each rendered as an f-string renders it |
| Config.LoadReads | lib/config.py:11-28 | every entry of the dictionary is the value of its fixed environment variable (token_id from BHE_TOKEN_ID, and so on) |
| Config.EnvNamesDistinct | lib/config.py:12-27 | distinct entries are read from distinct variables |
| Config.BaseUrl | lib/config.py:31-33 | `base_url()` is the build_url entry of a fresh load |
| Config.LoadAfterUpdate | lib/config.py:40 | after setting the variable of one entry, the next load shows the new value for it and the old value for every other entry |
| Config.ReplaceFirstAt | lib/config.py:49-54 | when line i is the first target, the result is the lines with exactly line i replaced |
| Config.ReplaceFirstAppends | lib/config.py:56-57 | when no line is a target, the new line is appended after all the others, in their order |
| Config.ReplaceFirstIdempotent | lib/config.py:49-57 | replacing again with a line that is itself a target changes nothing |
| Config.UpsertReplacesFirst | lib/config.py:49-54 | when line i is the first whose stripped text starts with "key=", exactly that line becomes "key=value\n"; every other line and the number of lines are kept |
| Config.UpsertAppends | lib/config.py:56-57 | when no line defines the key, "key=value\n" is appended and the earlier lines keep their order |
| Config.EnvLineDefines | lib/config.py:51-52 | the written line "key=value\n" is recognised as defining its key |
| Config.UpsertIdempotent | lib/config.py:49-57 | upserting the same entry twice gives the same lines as upserting it once |
| Config.UpsertFileIdempotent | lib/config.py:44-65 | the same for the whole file, a missing file included |
| Config.ConfigStore.UpdateEnvVariables | lib/config.py:36-65 | the environment maps the key to the value; an existing file becomes its upsert; a missing file becomes exactly ["key=value\n"] |
| Config.RewriteLines | lib/config.py:49-57 | the indexed loop with a found flag and a break computes the upsert: the first recognised line is replaced, or the new line is appended when none is |
| Lists.Filter | lib/utils.py:238-242 | the comprehension keeps exactly the elements that pass, and is never longer than its input |
| Lists.FilterAppend | lib/queries.py:13 | filtering keeps the input order: filtering a concatenation concatenates the filtered parts |
| Lists.FilterAllKept | lib/queries.py:13 | the filter changes nothing exactly when every element passes |
| Lists.FilterIdempotent | lib/queries.py:13 | filtering twice is filtering once |
| Utils.IsUp | lib/utils.py:26-30 | the service counts as up exactly when a status arrives and it is below 600 |
| Utils.FirstStrongExists | lib/utils.py:106-115 | if some draw from a point on passes the policy, a first such draw exists |
| Utils.NextStrong | lib/utils.py:106-115 | the index of the first draw from a point on that passes the policy |
| Utils.GeneratePassword | lib/utils.py:105-116 | the rejection loop returns the first passing draw; the password has 16 characters of letters, digits and punctuation, length at least 12, and at least one lower-case letter, upper-case letter, punctuation character and digit |
| Utils.PolicyExcludesSentinel | lib/utils.py:108-114 | a password that passes the policy is never the sentinel "none" |
| Utils.ExtractPassword | lib/utils.py:131 | a line without '#' gives nothing; a result is a non-empty word without whitespace that occurs in the line |
| Utils.ExtractPasswordAt | lib/utils.py:131 | with the first '#' at i and the first ':' after it at j, the result is the first whitespace-delimited word of the text after j |
| Utils.ExtractPasswordNoColon | lib/utils.py:131-134 | when no ':' follows the first '#', the result is None (the IndexError case) |
| Utils.ExtractPasswordBlank | lib/utils.py:131-134 | when only whitespace follows the first ':' after the first '#', there is no word and the result is None (the IndexError case) |
| Utils.SampleLogLine | lib/utils.py:126-131 | the line "... # Initial Password Set To: Abc123!@#  " is kept by the filter and yields "Abc123!@#" |
| Utils.ExtractedIsNotSentinel | lib/utils.py:131-134 | an extracted password is never the text "No password found" |
| Utils.FirstMarked | lib/utils.py:126-134 | the result is None exactly when no line carries "Initial Password Set To:" |
| Utils.FirstMarkedDecides | lib/utils.py:126-134 | a result comes from the first line that carries the marker, which alone decides it: its password, or "No password found" when extraction fails |
| Utils.FilterThenFirst | lib/utils.py:126-134 | filtering the marked lines and taking the first gives the same decision |
| Utils.RetrieveInitialPassword | lib/utils.py:125-134 | the filter and the loop with its early return compute the decision of the first marked line of the log text |
| Utils.MustChangeFlag | lib/utils.py:151-154 | MUST_CHANGE_PASSWORD is "yes" exactly when auth_expired is true, and "no" exactly when it is not |
| Utils.InterpretLogin | lib/utils.py:145-158 | a session exactly when the reply has "data", carrying its user_id, session_token and auth_expired |
| Utils.LoginGetToken | lib/utils.py:137-158 | returns the interpreted reply; with "data" it writes MUST_CHANGE_PASSWORD through the store, without it the store is unchanged |
| Utils.NewPasswordChoice | lib/utils.py:177-179 | when BHE_NEW_PASSWORD is "none" or the current password, the generated password is used; otherwise the configured value is kept; so the choice is "none" or the current password only when the generated one is |
| Utils.NewPasswordIsFresh | lib/utils.py:177-179 | with a policy-passing draw that differs from the current password, the chosen password is neither "none" nor the current one |
| Utils.UpdateEnvApiKey | lib/utils.py:224-231 | returns data.id, data.key and data.name, after writing BHE_TOKEN_ID then BHE_TOKEN_KEY to the environment and the file |
| Utils.CheckUploadFileStatus | lib/utils.py:392-404 | complete exactly for 2, partially complete exactly for 8, in progress exactly for 0, 1, 6 and 7, failed for every other code |
| Utils.ListNeo4jDatabases | lib/utils.py:234-243 | the result holds exactly the entries that are not reserved names, and is never longer than the listing |
| BhUtils.DateStamp | lib/bh_utils.py:57-58 | the signed part of the timestamp is its prefix of 13 characters (the whole of a shorter one) |
| BhUtils.Signature | lib/bh_utils.py:37-68 | the signature is the base64 of a three-link HMAC chain from the token key over verb+path, the first 13 characters of the timestamp, and the body (no bytes when there is none) |
| BhUtils.Dispatched | lib/bh_utils.py:27-97 | a request exits exactly when the service is down and fails exactly when it is up and the token key is missing; a sent request goes to full_url, or to the path when full_url is empty, and carries the verb, the body, the fixed user agent and content type, "bhesignature " and the token id, the full timestamp, and the signature over verb, path, hour and body |
| BhUtils.Digester.Update | lib/bh_utils.py:45 | a digester accumulates what is written to it |
| BhUtils.Request | lib/bh_utils.py:27-97 | the three successive digesters compute the request described by `Dispatched`, the chain B64(HMAC(HMAC(HMAC(key, method+path), ts[..13]), body)) |
| BhUtils.NoDelimiter | lib/bh_utils.py:45 | method and path enter the first link with no delimiter: any split of the same text signs alike |
| BhUtils.HourTruncation | lib/bh_utils.py:57-58 | two timestamps with the same first 13 characters give the same signature |
| BhUtils.NoBodySignsAsEmpty | lib/bh_utils.py:63-68 | a request without a body signs as one with an empty body |
| BhUtils.PayloadBytes | lib/bh_utils.py:105-107 | no body stays absent, bytes pass through unchanged, any other body becomes the UTF-8 bytes of its JSON text |
| BhUtils.PassRequest | lib/bh_utils.py:100-110 | sent to build_url + endpoint, signed over the endpoint alone, with the encoded body; always sent when the service is up and a token key is set |
| BhUtils.SignatureIgnoresServer | lib/bh_utils.py:100-109 | two environments with the same token key, which may differ in BHE_SCHEME, BHE_DOMAIN, BHE_PORT or anything else, make `pass_request` send both or neither; sent requests have the same signature and differ at most in URL and token id header |
| BhUtils.VerifyAccess | lib/bh_utils.py:113-123 | a GET of /api/v2/self with no body, sent to build_url + "/api/v2/self"; the result is true exactly when it was sent and the server answered 200 |
| Queries.SavedQuery.ToJson | lib/queries.py:103-106 | the converted query has exactly the keys name and query |
| Queries.Field.Get | lib/queries.py:89 | `get(key, default)` gives the default for an absent key and None exactly for an explicit null |
| Queries.QueryText | lib/queries.py:93-96 | the text of queryList[0] when queryList is present and non-empty, an AttributeError exactly when that element is null, otherwise the top-level query; an absent text reads "" and a null one None |
| Queries.ConvertOne | lib/queries.py:88-106 | an entry raises exactly when its name is null or (not being a separator) its first queryList element is null; it is dropped exactly when its name contains the separator of 14 dashes or its text is empty or null; a kept entry is named "<category> - <name>" with an absent category read "Unknown", a null one "None" and an absent name "Unnamed Query" |
| Queries.NullCategory | lib/queries.py:104 | a null category gives "None - n" where an absent one gives "Unknown - n" |
| Queries.NullName | lib/queries.py:89 | a null name raises where an absent one is kept as "Unnamed Query" |
| Queries.NullListEntry | lib/queries.py:93-94 | a null first queryList element raises where an element without a query key is skipped |
| Queries.ConvertedAppend | lib/queries.py:84-110 | the conversion keeps the input order: converting a concatenation concatenates the converted parts, and a raise in either part is a raise of the whole |
| Queries.ConvertedRaises | lib/queries.py:84-110 | the conversion raises exactly when some entry raises |
| Queries.ConvertedNoLonger | lib/queries.py:84-110 | without a raise, the output is never longer than the input |
| Queries.ConvertedMembers | lib/queries.py:84-110 | without a raise, the output holds exactly the conversions of the kept entries |
| Queries.ConvertLegacyQueries | lib/queries.py:84-110 | the loop with its two `continue`s and its two raising reads computes the conversion, None when an exception leaves it |
| Queries.FilterSpecterOps | lib/queries.py:13 | keeps exactly the queries whose "prebuilt" is not truthy, and is never longer than the input |
| Queries.FilterSpecterOpsOrder | lib/queries.py:13 | the filter keeps the input order and filtering twice is filtering once |
| Queries.ImportQueries | lib/queries.py:28-35 | the i-th outcome is exactly `pass_request`'s dispatch of a POST of /api/v2/saved-queries with the i-th query as body, signed at `clock(i)` (so signature and every header are those of `Dispatched`), in input order, with the counter running 0..n-1 and never more outcomes than queries; when the service is down or no token key is set, the first request ends the loop |
| AuthFlow.Authenticator.Authenticate | auth_flow.py:42-150 | the method's outcome and final state are those of `Flow` on the initial state |
| AuthFlow.Authenticator.FromCredentialsSteps | auth_flow.py:55-104 | from "Get credentials" on, the method computes `FromCredentials` |
| AuthFlow.Authenticator.RecoverSteps | auth_flow.py:71-86 | the recovery stage computes `Recover` |
| AuthFlow.Authenticator.MoveToConfiguredSteps | auth_flow.py:88-104 | the move to the configured password computes `MoveToConfigured` |
| AuthFlow.Authenticator.FromSessionSteps | auth_flow.py:106-109 | the logged-in stage computes `FromSession` |
| AuthFlow.Authenticator.ForcedChangeSteps | auth_flow.py:108-132 | the forced change computes `ForcedChange` |
| AuthFlow.Authenticator.ChangeToNextSteps | auth_flow.py:116-132 | the change to the chosen password, the two writes and the login with it compute `ChangeToNext` |
| AuthFlow.Authenticator.ProvisionSteps | auth_flow.py:134-150 | token creation, `update_env_api_key` and the final check compute `Provision` |
| AuthFlow.Authenticator.LoginStep | lib/utils.py:137-158 | one login: the reply recorded as an event, MUST_CHANGE_PASSWORD written when it has "data" |
| AuthFlow.Authenticator.DrawPassword | lib/utils.py:105-116 | `generate_password()` consumes draws up to and including the first that passes the policy |
| AuthFlow.Authenticator.WriteStep | lib/config.py:36-65 | `update_env_variables` through the store, recorded as one write event; the state is `Write` of the old state |
| AuthFlow.Authenticator.RetrieveStep | lib/utils.py:119-134 | `retrieve_initial_password()` returns the decision of the first marked line of the service's logs, after recording the log read |
| AuthFlow.Authenticator.ChangeSecretStep | auth_flow.py:116-118 | one `change_password` call: its status is the server's answer to the request at that moment, recorded as an event |
| AuthFlow.Authenticator.VerifyAccessStep | lib/bh_utils.py:113-123 | one `verify_access()` against the current environment and clock, its dispatch and result recorded as an event; the result is `CheckAccess` of the old state |
| AuthFlow.ExistingTokensShortcut | auth_flow.py:45-52 | with both token fields non-empty and an accepted self check, the result is True, with no login and no configuration write |
| AuthFlow.MissingTokensSkipShortcut | auth_flow.py:48 | when either token field is missing or empty, no self check is made first: the flow starts at "Get credentials" |
| AuthFlow.NoneSentinelPersistedFirst | auth_flow.py:59-68 | a "none" password is replaced by a generated one that passes the policy, persisted to BHE_PASSWORD as the first effect, and used by the first login |
| AuthFlow.MissingCredentials | auth_flow.py:63-65 | without a username or a usable password the result is False and no login is attempted; at most the sentinel's write happens |
| AuthFlow.RecoveryUnavailable | auth_flow.py:71-78 | when the logs give no password, an empty one or "No password found", the result is False right after reading them: nothing written, no token requested |
| AuthFlow.RecoveryOpening | auth_flow.py:74-86 | recovery reads the logs, writes BHE_INITIAL_PASSWORD, logs in with the initial password, and gives False when that login fails |
| AuthFlow.RecoveryContinues | auth_flow.py:84-92 | after that login succeeds, recovery goes on with the move to the configured password using that login's session, from the world that the log read, the BHE_INITIAL_PASSWORD write and that login leave |
| AuthFlow.MoveToConfiguredPath | auth_flow.py:88-104 | the change goes from the initial password to the configured one with the session's user id and token; any status but 200 gives False at once; after a 200 BHE_PASSWORD is written and a failed login with it gives False |
| AuthFlow.ChooseNextPath | auth_flow.py:110-114 | when BHE_NEW_PASSWORD is "none" or the current password, a policy-passing password other than "none" is generated and persisted to BHE_NEW_PASSWORD as the only effect; otherwise the configured value is used and nothing happens |
| AuthFlow.ChangeToNextSent | auth_flow.py:116-122 | the change goes from the current password to the chosen one with the session's user id and token; a status other than 200 gives False at once with no variable written; a 200 with no password to set crashes |
| AuthFlow.ChangeToNextWrites | auth_flow.py:124-125 | after an accepted change, BHE_PASSWORD holds the new password and BHE_NEW_PASSWORD is "none" for the rest of the flow |
| AuthFlow.ProvisionPath | auth_flow.py:134-150 | a token reply without "data" gives False with nothing written; otherwise BHE_TOKEN_ID and BHE_TOKEN_KEY hold the new id and key, and the result is the final self check, signed with the new key |
| AuthFlow.LoginKeeps | lib/utils.py:150-154 | a login writes no variable but MUST_CHANGE_PASSWORD and only appends events |
| AuthFlow.ProvisionKeeps | auth_flow.py:135-141 | provisioning writes no variable but BHE_TOKEN_ID and BHE_TOKEN_KEY |
| AuthFlow.RecoverExtends | auth_flow.py:71-104 | every stage only appends to the record of effects |
| AuthFlow.AuthenticatedEndsVerified | auth_flow.py:49-52 | True is only ever returned right after a self check that was sent and accepted |
| AuthFlow.NeverAuthenticatesAsWritten | auth_flow.py:51 | as written, `authenticate()` never returns True; where the intended flow accepts existing tokens, the code as written raises |

## Left out

- Docker control, `subprocess` and the reading of the logs: the log text is an input of the
  service. HTTP transport, the proxy switch, timeouts and the exception branches of
  `check_is_up` are left out too; a response is an oracle value.
- Queries.ConvertOne: a legacy query's fields are absent, null or strings. Other JSON types (a
  number as name, a `queryList` that is not a list, an element that is not an object) raise or
  render differently in the source and are not modelled. A raise is the `None` result of
  `ConvertLegacyQueries`; the exception's type and message are not kept.
- `check_is_up` itself is not modelled. Its status rule is `Utils.IsUp`, over an optional status
  that is `None` when no response arrives. Every request in a run sees the same probe.
- The `sys.exit(1)` of `_request` is the result `Exited`, and the AttributeError of a missing
  token key is the result `NoKey`. In `authenticate()` these become the outcomes `Exited` and
  `Crashed`. Other exceptions (a JSON reply without the expected keys, a network error) are not
  modelled.
- HMAC-SHA-256, base64, UTF-8 encoding, `json.dumps`, `datetime.now` and `random.choices` are
  uninterpreted functions. Properties of the real functions (collision resistance, the RFC 3339
  format of the timestamp) are not stated.
- Utils.GeneratePassword: requires that some later draw passes the policy. A run of
  `random.choices` in which no draw ever passes would loop forever in the source and is not modelled.
- AuthFlow.ServiceValid: the authentication flow assumes the draws have the 16-character shape
  and that a passing draw always lies ahead.
- Utils.UpdateEnvApiKey: requires a reply with "data". The source raises KeyError without it. The
  caller in the authentication flow checks for "data" first (auth_flow.py:137-141). The other caller,
  the API-key command at bhtk.py:157, passes what `create_api_key` returns, which is the inner
  "data" object (lib/utils.py:220-221) and has no "data" key of its own, so that call raises
  KeyError. bhtk.py and `create_api_key` are not part of this model.
- `Text.SplitLines` yields empty lines where Python's `splitlines` does not (after a final line
  break, inside "\r\n"). An empty line never carries the marker, so the recovered password is
  unaffected.
- The `.env` file is the list of lines `readlines` gives, not its text. How lines are glued back
  by `writelines` (a last line without "\n" followed by an appended line) is not modelled.
- JSON replies are modelled by the fields the client reads: `data.user_id`, `session_token`,
  `auth_expired` (a bool, where the source tests `is True`), and `data.id`, `key` and `name`.
  A login reply with "data" but an empty user id counts as a failed login, as the caller's
  `not result[0]` test makes it.
- Unicode: `str.isspace` is a fixed character set, and `islower`/`isupper`/`isdigit` are ASCII.
  The draws only hold ASCII letters, digits and punctuation, so nothing depends on the rest.
- `rate_limit_sleep` pacing is the no-op `AuthFlow.Authenticator.Pace`. `debug_print` and every
  `print` are output only.
- Not part of the model, being Docker, file-system or CLI work: `start_containers`,
  `stop_containers`, `restart_containers`, `show_docker_logs`, `get_user_info`,
  `create_api_key`, `change_initial_password`, `get_current_db`, `set_current_db`, the upload
  and polling functions (`wait_for_upload_complete` among them), `load_custom_queries`,
  `delete_all_saved_queries`, `get_saved_queries`, `set_query_scope`,
  `set_queries_permissions` and bhtk.py. `change_password_api` is modelled by its choice of the
  new password only.
- `change_password` and `create_initial_api_key` are the server oracles `changeSecret` and
  `createToken`. The JSON bodies they send are not modelled; the recorded events carry the
  values sent.
- The comment at lib/utils.py:130 speaks of the part "after the second ':'"; the code at line 131
  splits at the first ':' that follows the first '#', and the model follows the code. The
  signature chain has three links, the last of which signs no bytes when there is no body.
  MUST_CHANGE_PASSWORD is written only when the login reply has "data".

## Findings

| source | as written | input that shows it | evidently intended | confidence | as-written member | corrected member |
|---|---|---|---|---|---|---|
| auth_flow.py:51 | `sleep(rate_limit_sleep)` is called, but `sleep` is never imported in auth_flow.py, so the call raises NameError (the same at lines 69, 82, 94, 102, 119 and 128) | BHE_TOKEN_ID and BHE_TOKEN_KEY set, and a self check that answers 200: the call at line 51 raises instead of returning True | pause, then return True | not executed | AuthFlow.NeverAuthenticatesAsWritten | AuthFlow.ExistingTokensShortcut |
