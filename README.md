# CyberShield in Dafny

CyberShield is a small network-threat dashboard. A FastAPI backend scores
traffic features with an anomaly model. It stores each verdict in MySQL and
can blacklist an address. When `AUTO_BLOCK` is set, it also blocks that
address in the Windows firewall through `netsh`. A React client lets an
operator run detections, list them, export them as CSV, and manage the
blacklist.

This project models the logic of that system and proves what it promises.
It covers:

- **Backend (`Backend`):** the endpoints in `backend/app.py`, as a `Store`
  class that holds the three tables, plus the firewall it drives. The
  anomaly score of a request is an input.
- **Firewall (`Firewall`):** `backend/utils/firewall.py`. The address
  patterns and the normalisation helpers are functions. `block_ip`,
  `unblock_ip` and `status_ip` are methods of a `RuleTable` class that
  stands for the rules netsh manages.
- **Rows (`Models`):** the table rows of `backend/models_user.py`, with
  their column limits and uniqueness constraints, as table invariants.
- **Features (`Preprocessing`):** the feature vector and the normalised
  JSON of `backend/ml/preprocessing.py`.
- **Settings (`Config`):** the defaults, the database URI and the CORS
  origin list of `backend/config.py`.
- **HTTP client (`Api`):** the client of `frontend/src/api.js`: the base
  URL, the error-message interceptor and the requests each helper builds.
  `Uri` models `encodeURIComponent` and its inverse `decodeURIComponent`;
  `Backend.DeleteRouteIp` models how the server decodes and routes the
  delete path.
- **Dashboard page (`DashboardView`):** `frontend/src/components/Dashboard.js`:
  - CSV and field parsing into the feature array;
  - the detect and refresh handlers, over a `Dashboard` class of React
    state;
  - CSV export;
  - "Quick Fill".
- **Blacklist page (`BlacklistView`):** `frontend/src/components/Blacklist.js`:
  - the client-side filter;
  - the load, add and unblock handlers, over a `BlacklistPage` class of
    React state.
- **Support:**
  - `Js`: the JavaScript semantics the client relies on (truthiness, `||`,
    `String(v)`, `Number(s)`).
  - `Text`: trimming, splitting, joining and lower-casing.
  - `Seqs`: order-preserving filtering.
  - `Wrappers`: `Option` and `Result`.

Server replies, the answer to a confirmation dialog, the platform and the
process's elevation are all inputs or constructor parameters.

## Model

| member | source | states |
|---|---|---|
| Config.DatabaseUri | backend/config.py:19-24 | the URI is "mysql+pymysql://", the user, ":password" only when a password is set, then "@host:port/name" |
| Config.UriShowsPasswordOnlyWhenSet | backend/config.py:21-24 | the user info before "@" holds a ":" exactly when the password is not empty |
| Config.DefaultUri | backend/config.py:5-10 | the default settings give the scheme, user "root" with no password part, "@127.0.0.1", port "3306" and "/cybershield_db" |
| Config.CorsOriginsList | backend/config.py:26-28 | the origins are the comma-separated entries, stripped and non-empty, in order, each as many times as it occurs; none has blanks at its ends or holds a comma |
| Config.DefaultCorsOrigins | backend/config.py:12 | the default setting allows exactly the two local development origins |
| Config.TwoOrigins | backend/config.py:26-28 | two comma-separated entries without surrounding blanks come back unchanged |
| Models.InsertUserKeepsTable | backend/models_user.py:5-11 | a user with the next id, a fresh username and email and fitting columns keeps the users table valid |
| Models.InsertDetectionKeepsTable | backend/models_user.py:13-25 | a detection with the next id and fitting columns keeps the detections table valid |
| Models.InsertEntryKeepsTable | backend/models_user.py:27-32 | an entry with the next id, a fresh ip and fitting columns keeps the blacklist table valid |
| Models.RemoveEntryKeepsTable | backend/models_user.py:27-32 | deleting any row keeps the blacklist table valid: ids ordered, ips unique |
| Preprocessing.FromDict | backend/ml/preprocessing.py:21-24 | one slot per feature name, in feature order, each the value under that name or 0.0, and the JSON object has the same pairs |
| Preprocessing.ToFeatureVector | backend/ml/preprocessing.py:10-31 | a dict gives six values; a list is kept as it is; text that is not JSON, and anything that is neither dict nor list, is an error |
| Preprocessing.FeatureOrderDistinct | backend/ml/preprocessing.py:5-8 | there are six feature names and they are pairwise distinct |
| Preprocessing.ExtraKeysIgnored | backend/ml/preprocessing.py:21-23 | keys that are not feature names do not change the result |
| Preprocessing.DictRoundTrip | backend/ml/preprocessing.py:21-29 | six values sent as a dict keyed by the feature names give back the same vector |
| Preprocessing.TextLikeDecoded | backend/ml/preprocessing.py:18-19 | JSON text is handled exactly like the dict or list it decodes to |
| Firewall.OctetIff | backend/utils/firewall.py:27 | an octet of the IPv4 pattern is one to three digits worth at most 255, a three-digit one not starting with "0" |
| Firewall.CanonicalOctet | backend/utils/firewall.py:27 | every number from 0 to 255 written in decimal is an octet |
| Firewall.IPv4IsNotIPv6 | backend/utils/firewall.py:27-28 | no string matches both the IPv4 and the IPv6 pattern |
| Firewall.IPv4Characters | backend/utils/firewall.py:27 | a matching IPv4 address holds no ":", "/", "-" or "," |
| Firewall.StripPort | backend/utils/firewall.py:30-41 | the result is the input, the host between "[" and the first "]", or the IPv4 address before the only ":" |
| Firewall.StripBracketed | backend/utils/firewall.py:35-37 | "[host]..." gives the host |
| Firewall.StripIPv4Port | backend/utils/firewall.py:39-40 | an IPv4 address followed by ":port" gives the address |
| Firewall.StripKeeps | backend/utils/firewall.py:39-41 | text not starting with "[" and without exactly one ":" is kept |
| Firewall.NormalizeIp | backend/utils/firewall.py:43-48 | the result holds one "/" when the stripped input holds one, and none otherwise |
| Firewall.NormalizeCidr | backend/utils/firewall.py:46-47 | "host/mask/..." gives the port-stripped host, "/" and the mask; anything after a second "/" is dropped |
| Firewall.NormalizePlain | backend/utils/firewall.py:45-48 | without a "/", normalising is stripping then removing the port; a missing address gives "" |
| Firewall.RemoteIpArgCases | backend/utils/firewall.py:50-64 | a single IPv4 address gets "/32", a single IPv6 address "/128", and anything else (CIDR, range, list, name) is passed through, each as an if-and-only-if |
| Firewall.RemoteIpArgIdempotent | backend/utils/firewall.py:50-64 | building the argument from its own result changes nothing |
| Firewall.RuleNames | backend/utils/firewall.py:66-67 | the inbound and outbound names differ |
| Firewall.RuleNamesDistinct | backend/utils/firewall.py:66-67 | no inbound name is an outbound name, and each name determines its address |
| Firewall.BlockLeavesOnePair | backend/utils/firewall.py:70-103 | after a block, exactly one rule carries each of the address's two names, whatever the table held |
| Firewall.BlockIdempotent | backend/utils/firewall.py:70-99 | blocking twice leaves the same rules as blocking once (the docstring's "idempotent") |
| Firewall.UnblockUndoesBlock | backend/utils/firewall.py:105-121 | unblocking after a block leaves what unblocking alone leaves, and no rule of the address survives |
| Firewall.RuleTable.RunDelete | backend/utils/firewall.py:9-21 | deleting by name succeeds only when elevated and some rule has the name; it removes every rule of that name; unelevated it reports the admin message |
| Firewall.RuleTable.RunAdd | backend/utils/firewall.py:9-21 | adding succeeds exactly when elevated and netsh accepts the rule's `remoteip=` value, and only then appends the rule; a failure always reports output, the admin message when unelevated |
| Firewall.RuleTable.DeletePair | backend/utils/firewall.py:84-86 | when elevated both names' rules are removed, first the inbound then the outbound; unelevated nothing changes |
| Firewall.RuleTable.AddPair | backend/utils/firewall.py:88-100 | both additions run; each succeeds exactly when elevated and netsh accepts that rule's `remoteip=` value, and the inbound then the outbound rule is appended, each only if its addition succeeded |
| Firewall.RuleTable.ReplacePair | backend/utils/firewall.py:84-100 | on Windows both additions succeed together, exactly when elevated and netsh accepts the address's `remoteip=` value; the table becomes the one `Blocked` gives |
| Firewall.RuleTable.BlockedOutcome | backend/utils/firewall.py:70-103 | with admin rights on Windows a block leaves exactly one rule under each of the address's names when netsh takes the `remoteip=` value and none when it refuses it; blocking twice is blocking once |
| Firewall.RuleTable.RunShow | backend/utils/firewall.py:132-134 | the output says "No rules match" exactly when no rule carries the name |
| Firewall.RuleTable.BlockIp | backend/utils/firewall.py:70-103 | off Windows it fails with the fixed message and changes nothing; otherwise it succeeds exactly when elevated and netsh accepts the normalised address's `remoteip=` value; the table becomes the block of that address, or only loses its two old rules when netsh refuses the value |
| Firewall.RuleTable.UnblockIp | backend/utils/firewall.py:105-121 | off Windows it fails and changes nothing; otherwise it succeeds when either rule existed, and both names' rules are gone |
| Firewall.RuleTable.StatusIp | backend/utils/firewall.py:123-135 | it finds a rule exactly on Windows when either name is carried by a rule; off Windows the text is "Not Windows." |
| Backend.ManualReason | backend/app.py:129 | the stored reason is the given one, or "manual" when it is missing or empty; never empty |
| Backend.Clamp | backend/app.py:182 | the threshold is limited to [0, 1] and kept when already inside |
| Backend.ClampMonotone | backend/app.py:182 | clamping keeps the order of thresholds and clamping twice is clamping once |
| Backend.SearchIsSubstring | backend/app.py:117-119 | for a search text without "%" or "_", `LIKE '%q%'` matches exactly the addresses containing q |
| Backend.BlankSearchMatchesAll | backend/app.py:117-119 | a blank search text matches every address |
| Backend.EntryIndex | backend/app.py:126 | the lookup finds an entry with the address, or reports that none has it |
| Backend.UserIndexByEmail | backend/app.py:108 | the lookup finds a user with the email, or reports that none has it |
| Backend.RemoveIpRemovesAll | backend/app.py:141-145 | removing the entry for an address leaves none for it, keeps every other one and keeps the table valid |
| Backend.NewestFirst | backend/app.py:153 | the result is the last `limit` detections (or all of them), in reverse order |
| Backend.NewestFirstOrdered | backend/app.py:153 | over a valid detections table the newest rows come out with strictly falling ids, each above every row left out |
| Backend.Store.CreateUser | backend/app.py:95-104 | 409 for a taken username, then for a taken email; otherwise the user is stored under the next id with the password or "changeme"; over-long columns give 500 and no change |
| Backend.Store.Login | backend/app.py:107-111 | succeeds exactly when a user has the email and the password, returning that user without the password; otherwise 401 |
| Backend.Store.GetBlacklist | backend/app.py:115-121 | every entry, or with a non-empty search text exactly those matching `LIKE '%q%'`, in ascending id order |
| Backend.Store.AddBlacklist | backend/app.py:124-136 | an existing stripped address is returned unchanged; otherwise, when the address and reason fit their columns, a new entry is stored under the next id and, with `AUTO_BLOCK`, the firewall blocks the address; a column that is too long gives 500 and no change |
| Backend.Store.DeleteBlacklist | backend/app.py:139-148 | 404 when absent; otherwise the entry is removed and the firewall unblocks the address whatever `AUTO_BLOCK` says, reporting whether a rule was removed |
| Backend.Store.ListDetections | backend/app.py:152-161 | at most the 200 newest detections, newest first, ids strictly decreasing, none older left out |
| Backend.Store.Detect | backend/app.py:165-226 | 500 without a model or for unreadable features; 400 unless six values; with six readable values it succeeds exactly when the row fits its columns and is a 500 with no change otherwise; on success the detection is stored under the next detection id, which advances by one, malicious when the score reaches the clamped threshold, and a malicious flow's chosen address is blacklisted once (the next entry id advancing only then) and, with `AUTO_BLOCK`, blocked |
| Js.Or | frontend/src/api.js:10-12 | `a \|\| b` is `a` when it is truthy and `b` otherwise |
| Js.StringToNumber | frontend/src/components/Dashboard.js:36 | `Number` of blank text is 0 |
| Js.StringToNumberTrimmed | frontend/src/components/Dashboard.js:36 | trimming before `Number` changes nothing |
| Js.IntegerRoundTrip | frontend/src/components/Dashboard.js:49 | `Number(String(n))` is `n` for every integer |
| Js.IntegerToString | frontend/src/components/Dashboard.js:100 | an integer prints as its decimal text |
| Js.NonNumericStart | frontend/src/components/Dashboard.js:36-37 | text starting with anything but a digit, ".", a sign or "I" is NaN |
| Js.LetterIsNaN | frontend/src/components/Dashboard.js:36-37 | "x" is NaN |
| Uri.DecodeEncode | frontend/src/api.js:43 | decoding `encodeURIComponent(s)` gives `s` back, for any text |
| Uri.EncodeInjective | frontend/src/api.js:43 | distinct texts encode differently |
| Uri.EncodedIsSafe | frontend/src/api.js:43 | encoded text holds only unreserved characters and "%" |
| Api.DeletePathDecodes | frontend/src/api.js:43 | the server's decoding of the whole delete path is "/blacklist/" followed by the address |
| Backend.DeleteRouteIp | backend/app.py:138 | as declared, the route hands over a non-empty address without "/", the rest of the decoded path after "/blacklist/" |
| Backend.DeleteRoutePathIp | backend/app.py:138 | declared as `{ip:path}`, the route hands over everything after "/blacklist/" in the decoded path, and routes exactly the paths that decode to "/blacklist/" followed by some text |
| Api.DeleteRouteDropsSlash | backend/app.py:138 | a delete from the page reaches the handler with its address exactly when the address is non-empty and holds no "/" |
| Api.CidrDeleteUnrouted | backend/app.py:138 | deleting "10.0.0.0/8" from the page is answered by the router with 404 |
| Api.DeleteRouteKeepsAddress | backend/app.py:138 | with a `{ip:path}` route every address the page sends reaches the handler unchanged |
| Api.BaseUrl | frontend/src/api.js:9-12 | `window.__API_BASE__` when present and truthy, else the environment's URL when truthy, else "http://127.0.0.1:8000" |
| Api.BaseUrlTruthy | frontend/src/api.js:9-12 | the base URL is always truthy and is one of the three candidates |
| Api.ErrorMessage | frontend/src/api.js:23-28 | the message is the first truthy of `detail`, `message` and the error's own message, as text, else "Request failed" |
| Api.DetailShown | frontend/src/api.js:23-28 | a server `{"detail": text}` surfaces as exactly that text |
| Api.NothingToShow | frontend/src/api.js:23-28 | a failure without response or message reports "Request failed" |
| Api.ObjectDetailShown | frontend/src/api.js:23-28 | a `detail` list with one object surfaces as "[object Object]" |
| Api.Intercept | frontend/src/api.js:20-30 | successes pass through untouched; failures become their message |
| Api.BlacklistParams | frontend/src/api.js:41 | the parameter `q` is sent exactly when `q` is truthy, with that value, and no other |
| Api.DeletePathRoundTrip | frontend/src/api.js:43 | the delete path is "/blacklist/" and one segment without "/", "?" or "#" that decodes back to the address |
| Api.DeletePathInjective | frontend/src/api.js:43 | distinct addresses are sent to distinct paths |
| DashboardView.SameFeatureOrder | frontend/src/components/Dashboard.js:24-31 | the client's feature order is the backend's |
| DashboardView.ParseCsv | frontend/src/components/Dashboard.js:33-37 | the result holds no NaN, keeps the pieces' order and keeps every piece that is a number, each value as many times as the pieces hold it |
| DashboardView.BlankPieceKept | frontend/src/components/Dashboard.js:33-37 | a blank CSV piece counts as 0 and is kept |
| DashboardView.FieldNumbers | frontend/src/components/Dashboard.js:49 | six numbers, the i-th read from the field of the i-th feature name |
| DashboardView.BuildFeatureArray | frontend/src/components/Dashboard.js:39-54 | in CSV mode: success exactly when six numbers are parsed, with those numbers, else the CSV message; in field mode: success exactly when no field is NaN, else the fields message |
| DashboardView.BlankFieldsAccepted | frontend/src/components/Dashboard.js:49-52 | six blank fields are accepted as six zeros |
| DashboardView.CsvOfNumbers | frontend/src/components/Dashboard.js:33-37 | comma-joined decimal numbers parse back as those numbers |
| DashboardView.StrayPieceDropped | frontend/src/components/Dashboard.js:33-37 | one non-numeric piece anywhere among decimal numbers is dropped silently |
| DashboardView.StrayLetterAccepted | frontend/src/components/Dashboard.js:39-47 | "1,2,x,3,4,5,6" is accepted as the numbers 1 to 6 |
| DashboardView.ExportCsv | frontend/src/components/Dashboard.js:89-100 | no text exactly when there are no detections |
| DashboardView.HeaderTexts | frontend/src/components/Dashboard.js:91 | the header cells are the six column names |
| DashboardView.ExportLines | frontend/src/components/Dashboard.js:89-100 | when no cell holds a line break, the export splits into the header line and one line per detection, in order |
| DashboardView.RowFields | frontend/src/components/Dashboard.js:92-100 | when no cell holds a comma, a line splits back into its six cells |
| DashboardView.MissingDestCell | frontend/src/components/Dashboard.js:96 | the third cell is written as "" when `dest_ip` is falsy: missing, null or the empty string |
| DashboardView.QuickFillText | frontend/src/components/Dashboard.js:110-119 | the demo CSV text is the decimal text of the demo values |
| DashboardView.QuickFillModesAgree | frontend/src/components/Dashboard.js:110-120 | after Quick Fill, CSV mode and field mode give the same six numbers |
| DashboardView.OrElse | frontend/src/components/Dashboard.js:71 | the message shown is the error's message or the fallback, and never empty |
| DashboardView.Dashboard.constructor | frontend/src/components/Dashboard.js:5-22 | blank fields, field mode, threshold 0.5, blocking the destination, no result, no messages |
| DashboardView.Dashboard.HandleDetect | frontend/src/components/Dashboard.js:56-75 | a feature-array error is shown and nothing is sent; otherwise the demo addresses, the array, the threshold and the target are sent, and the reply or its failure is shown; loading ends |
| DashboardView.Dashboard.HandleGetDetections | frontend/src/components/Dashboard.js:77-87 | a success replaces the list; a failure keeps it and shows the message or "Failed to load detections"; loading ends |
| DashboardView.Dashboard.QuickFill | frontend/src/components/Dashboard.js:110-120 | the demo values are put in the fields and in the CSV text |
| BlacklistView.Needle | frontend/src/components/Blacklist.js:58 | the needle is empty exactly when the filter text is blank |
| BlacklistView.Filtered | frontend/src/components/Blacklist.js:57-65 | every row for a blank filter; otherwise exactly the rows whose address or reason contains the filter ignoring case, in loaded order, each as many times as it was loaded |
| BlacklistView.FilterIgnoresCase | frontend/src/components/Blacklist.js:58 | typing the filter in lower case shows the same rows |
| BlacklistView.FilterIdempotentView | frontend/src/components/Blacklist.js:57-65 | filtering the shown rows again changes nothing |
| BlacklistView.QueryCases | frontend/src/components/Blacklist.js:19 | the server query is sent, trimmed, exactly when it is not blank |
| BlacklistView.Loaded | frontend/src/components/Blacklist.js:16-26 | both messages are cleared; a success replaces the rows; a failure keeps them and shows why; loading ends; inputs are untouched |
| BlacklistView.AddBodyCases | frontend/src/components/Blacklist.js:32-35 | nothing is posted for a blank address; otherwise the trimmed address and the trimmed reason or "manual" |
| BlacklistView.AddPayload | frontend/src/components/Blacklist.js:35 | the body's `reason` is "manual" when the reason is empty |
| BlacklistView.Added | frontend/src/components/Blacklist.js:30-43 | as written: a blank address only shows an error; a failure shows its message; a success sets the message, clears the inputs and reloads |
| BlacklistView.Unblocked | frontend/src/components/Blacklist.js:45-55 | as written: nothing without confirmation; a failure shows its message; a success sets the message and reloads |
| BlacklistView.AddMessageLost | frontend/src/components/Blacklist.js:36-39 | as written, the "Blocked" message of a successful add is cleared by the reload |
| BlacklistView.UnblockMessageLost | frontend/src/components/Blacklist.js:50-51 | as written, the "Unblocked" message is cleared by the reload |
| BlacklistView.AddMessageShown | frontend/src/components/Blacklist.js:36-39 | with the message set after the reload, a successful add shows it, and the page is otherwise as written |
| BlacklistView.UnblockMessageShown | frontend/src/components/Blacklist.js:50-51 | with the message set after the reload, a confirmed successful unblock shows it, and the page is otherwise as written |
| BlacklistView.BlockedWithoutReason | frontend/src/components/Blacklist.js:36 | a row without a reason is reported as "Blocked ip (-)" |
| BlacklistView.BlacklistPage.constructor | frontend/src/components/Blacklist.js:6-14 | no rows, loading, no messages, empty inputs |
| BlacklistView.BlacklistPage.Load | frontend/src/components/Blacklist.js:16-26 | requests the rows for the server query, and the new state is `Loaded` of the old |
| BlacklistView.BlacklistPage.HandleAdd | frontend/src/components/Blacklist.js:30-43 | posts the add body unless the address is blank; the new state is the corrected handler's |
| BlacklistView.BlacklistPage.HandleUnblock | frontend/src/components/Blacklist.js:45-55 | sends the delete only after confirmation; the new state is the corrected handler's |
| Text.Split | backend/config.py:28 | one more part than separators, no part holds the separator, and joining the parts gives the text back |
| Text.SplitJoin | frontend/src/components/Dashboard.js:100 | splitting parts joined by a separator none of them holds gives the parts back |
| Text.LowerTrimCommute | frontend/src/components/Blacklist.js:58 | trimming and ASCII lower-casing commute |

## Left out

- The anomaly model: `joblib` loading, `decision_function` and the sigmoid that maps it to a score. The score is an input of `Backend.Store.Detect`, and whether a model loaded is a constructor parameter.
- MongoDB logging (`logger_mongo.py`) and the `loguru` log lines: they do not change any result.
- `database.py`: sessions, commits and the engine. Each endpoint is one atomic update of the `Store`, and concurrent requests are not modelled.
- Backend.Store.Detect: the score is stored exactly. The rounding to six places and to the `DECIMAL(6, 4)` column, and float conversion, are not modelled.
- Backend.Store: MySQL's case-insensitive collation and trailing-space comparison are not modelled; every comparison the database makes on stored text is exact equality here. That covers the username and email checks of CreateUser (app.py:96-98), Login's email lookup (app.py:108), the address lookups of AddBlacklist (app.py:126), DeleteBlacklist (app.py:141) and Detect (app.py:219), the unique index on `Blacklist.ip`, and GetBlacklist's `LIKE`. With "ABCD::1" stored, the model's AddBlacklist("abcd::1") stores a second entry where MySQL would return the existing one.
- Backend.Store.GetBlacklist: `LIKE`'s backslash escape is not modelled; `%` and `_` are the only wildcards.
- Backend.Store: a column value that is too long is modelled as a 500 with no change (strict SQL mode), in CreateUser (username, email and password), AddBlacklist (address and reason) and Detect (source and destination addresses). A non-strict server would truncate the value and store the row instead.
- `created_at` timestamps are left out of the rows. The database sets them, and the endpoints only echo them as text.
- The `/` and `/health` endpoints, the CORS middleware, the lifespan hook and pydantic's request validation (422 answers) are left out. Request bodies arrive already typed.
- Preprocessing.ToFeatureVector: `json.loads` and `float()` are not modelled. A text input carries its decoded value, and the numbers are the values `float()` gives.
- Firewall: `subprocess` and the netsh command strings are not modelled. `_run` becomes `RunDelete`, `RunAdd` and `RunShow` over a rule table. Only the "No rules match" and administrator messages of netsh are modelled. A refused addition reports the stand-in text `RefusedMessage`, and other output is "".
- Firewall.RuleTable.RunAdd: netsh's own check of the `remoteip=` value (names and malformed input are passed through to it) is not modelled. Which values it accepts is the constructor input `accepts`.
- Firewall.RuleTable.BlockIp: `_run` runs the command through the shell with the rule names and `remoteip=` unquoted. An address holding a space, a quote or `&` therefore changes the command itself. The model treats the address as one argument, so it does not capture that injection.
- Firewall: `_run`'s `Exception: ...` result, when the command cannot be started at all, is not modelled.
- Firewall: Python's `\d` is modelled as ASCII digits only; it also accepts other Unicode decimal digits.
- Js: numbers are exact rationals. Rounding to doubles and the exponent notation of `Number::toString` are not modelled.
- Js: `toLowerCase` is modelled for ASCII letters only.
- BlacklistView: a row whose `ip` or `reason` is not a string is converted with ToString; the page as written would throw on `toLowerCase` there.
- React rendering, the intermediate states between the `set...` calls of a handler (for example `loading` while a request is pending), the `alert` of an empty export, and the `Blob` download are not modelled. Only the settled state after a handler is.
- `window.confirm` is a boolean input of `HandleUnblock`.
- DashboardView.Dashboard: the threshold is held as a number, so `Number(threshold)` is that number.
- Backend.DeleteRouteIp: the server's `urllib.parse.unquote` is modelled by `decodeURIComponent`. They agree on the well-formed escapes the page sends; `unquote` replaces a malformed escape where `decodeURIComponent` fails.
- Backend.Store.DeleteBlacklist takes the address itself, as the corrected `{ip:path}` route would hand it over.
- Register.js, Login.js, App.js and train.py are not part of this model.
- The two front-end parses differ from what the interface text promises, and the model follows the code:
  - the field mode accepts blank fields as 0, although its message says "no blanks";
  - the CSV mode silently drops pieces that are not numbers, so "1,2,x,3,4,5,6" counts as six numbers.

## Findings

| source | as written | input that shows it | evidently intended | confidence | as-written member | corrected member |
|---|---|---|---|---|---|---|
| frontend/src/components/Blacklist.js:36-39 | `handleAdd` sets the "Blocked ..." message and then awaits `load()`, whose first step clears `ok`, so the settled page never shows the message | any successful add of a non-blank address, e.g. ip "1.2.3.4", with any reload outcome | show "Blocked ip (reason)" after the reload | not executed | BlacklistView.AddMessageLost | BlacklistView.AddMessageShown |
| frontend/src/components/Blacklist.js:50-51 | `handleUnblock` sets "Unblocked ..." and then awaits `load()`, which clears it | any confirmed successful unblock | show "Unblocked ip" after the reload | not executed | BlacklistView.UnblockMessageLost | BlacklistView.UnblockMessageShown |
| backend/app.py:138 | the route declares `{ip}`, which matches no "/", and the server matches routes against the percent-decoded path, so the page's "%2F" turns back into "/" before routing | deleting the entry "10.0.0.0/8" from the Blacklist page: the path "/blacklist/10.0.0.0%2F8" gets 404 | declare the route `{ip:path}` so that every address the page sends reaches the handler | not executed | Api.CidrDeleteUnrouted | Api.DeleteRouteKeepsAddress |
