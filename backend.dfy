/**
 * The HTTP endpoints of the backend (backend/app.py) over an in-memory
 * database: user registration and login, the blacklist, the detection
 * history and the detection endpoint with its optional automatic block.
 * The anomaly score the trained model gives a request is an input.
 */
module Backend {
  import opened Wrappers
  import opened Text
  import opened Seqs
  import opened Preprocessing
  import opened Models
  import Firewall
  import Uri

  /** An error answered as an HTTP status with a `detail` text. */
  datatype HttpError = HttpError(status: nat, detail: string)

  /** A user as the endpoints return it: never with the password. */
  datatype UserView = UserView(id: nat, username: string, email: string)

  /** The answer of `DELETE /blacklist/{ip}`. */
  datatype Unblocked = Unblocked(ip: string, unblocked: bool, message: string)

  /** Which address of a malicious flow `/detect` blocks. */
  datatype Target = Src | Dest

  datatype DetectRequest = DetectRequest(srcIp: string, destIp: Option<string>, features: PyValue,
                                         threshold: real, blockTarget: Target)

  /** The answer of `POST /detect`. */
  datatype Verdict = Verdict(id: nat, isMalicious: bool, score: real)

  const DetectionLimit := 200
  const InternalError := HttpError(500, "Internal Server Error")
  const InvalidFeaturesDetail :=
    "Invalid features: expected exactly 6 values in order ['bytes_in', 'bytes_out', 'packets', "
    + "'duration', 'src_port', 'dest_port']. Example list: [1200, 800, 40, 3, 54321, 443]"

  function ViewOf(u: User): UserView { UserView(u.id, u.username, u.email) }

  /** The reason stored for a manual entry: the given one, or "manual" when it is missing or empty. */
  function ManualReason(reason: Option<string>): (r: string)
    ensures r != ""
    ensures reason.Some? && reason.value != "" ==> r == reason.value
  {
    if reason.Some? && reason.value != "" then reason.value else "manual"
  }

  /** The reason stored for an automatic entry. */
  function AutoReason(t: Target): string {
    match t
    case Src => "auto-src"
    case Dest => "auto-dest"
  }

  /** The threshold limited to [0, 1]: `max(0.0, min(1.0, t))`. */
  function Clamp(t: real): (r: real)
    ensures 0.0 <= r <= 1.0
    ensures 0.0 <= t <= 1.0 ==> r == t
    ensures t < 0.0 ==> r == 0.0
    ensures t > 1.0 ==> r == 1.0
  {
    var upper := if t < 1.0 then t else 1.0;
    if upper > 0.0 then upper else 0.0
  }

  /** Clamping keeps the order of thresholds and clamping twice changes nothing. */
  lemma ClampMonotone(s: real, t: real)
    requires s <= t
    ensures Clamp(s) <= Clamp(t)
    ensures Clamp(Clamp(t)) == Clamp(t)
  {
  }

  /** The address `/detect` would block for a request, if it names one. */
  function TargetIp(req: DetectRequest): Option<string> {
    match req.blockTarget
    case Src => Some(req.srcIp)
    case Dest => req.destIp
  }

  // ------------------------------------------------------------------ LIKE

  /**
   * The SQL `LIKE` match: `%` matches any run of characters, `_` any one
   * character, every other character itself.
   */
  predicate LikeMatch(s: string, pattern: string)
    decreases |s|, |pattern|
  {
    if pattern == [] then s == []
    else if pattern[0] == '%' then LikeMatch(s, pattern[1..]) || (s != [] && LikeMatch(s[1..], pattern))
    else s != [] && (pattern[0] == '_' || s[0] == pattern[0]) && LikeMatch(s[1..], pattern[1..])
  }

  predicate Literal(q: string) { '%' !in q && '_' !in q }

  /** The `ip LIKE '%q%'` filter of `GET /blacklist?q=`, with q stripped. */
  predicate SearchMatches(ip: string, q: string) {
    LikeMatch(ip, "%" + PyStrip(q) + "%")
  }

  /** A trailing `%` matches whatever follows. */
  lemma {:induction false} AnyRest(s: string)
    ensures LikeMatch(s, "%")
  {
    if s != [] {
      AnyRest(s[1..]);
    }
  }

  /** A literal followed by `%` matches exactly the strings it starts. */
  lemma {:induction false} PrefixThenAny(s: string, q: string)
    requires Literal(q)
    ensures LikeMatch(s, q + "%") <==> q <= s
  {
    if q == [] {
      assert q + "%" == "%";
      AnyRest(s);
    } else {
      assert (q + "%")[1..] == q[1..] + "%";
      if s != [] {
        PrefixThenAny(s[1..], q[1..]);
      }
    }
  }

  /** For a search text free of wildcards, the `LIKE` filter is substring search. */
  lemma {:induction false} SearchIsSubstring(s: string, q: string)
    requires Literal(q)
    ensures LikeMatch(s, "%" + q + "%") <==> Contains(s, q)
  {
    assert ("%" + q + "%")[1..] == q + "%";
    PrefixThenAny(s, q);
    if s != [] {
      SearchIsSubstring(s[1..], q);
    }
  }

  /** An empty or blank search text matches every address. */
  lemma BlankSearchMatchesAll(ip: string, q: string)
    requires Blank(q, IsPySpace)
    ensures SearchMatches(ip, q)
  {
    assert PyStrip(q) == [];
    var pattern := "%" + PyStrip(q) + "%";
    assert pattern == "%%" && pattern[1..] == "%";
    AnyRest(ip);
    assert LikeMatch(ip, pattern[1..]);
  }

  // ------------------------------------------------------------ lookups

  /** The position of the blacklist entry for `ip`, if any. */
  function EntryIndex(es: seq<BlacklistEntry>, ip: string): (k: Option<nat>)
    ensures k.Some? ==> k.value < |es| && es[k.value].ip == ip
    ensures k.None? ==> forall e | e in es :: e.ip != ip
  {
    if es == [] then None
    else if es[0].ip == ip then Some(0)
    else match EntryIndex(es[1..], ip)
      case Some(k) => Some(k + 1)
      case None => None
  }

  /** The position of the user with `email`, if any. */
  function UserIndexByEmail(users: seq<User>, email: string): (k: Option<nat>)
    ensures k.Some? ==> k.value < |users| && users[k.value].email == email
    ensures k.None? ==> forall u | u in users :: u.email != email
  {
    if users == [] then None
    else if users[0].email == email then Some(0)
    else match UserIndexByEmail(users[1..], email)
      case Some(k) => Some(k + 1)
      case None => None
  }

  /** Whether some user has the username. */
  predicate UsernameTaken(users: seq<User>, username: string) {
    exists u | u in users :: u.username == username
  }

  /** Whether some user has the email. */
  predicate EmailTaken(users: seq<User>, email: string) {
    exists u | u in users :: u.email == email
  }

  /** The blacklist without the entry for `ip`. */
  function RemoveIp(es: seq<BlacklistEntry>, ip: string): seq<BlacklistEntry> {
    match EntryIndex(es, ip)
    case Some(k) => es[..k] + es[k + 1..]
    case None => es
  }

  /** As blacklist addresses are unique, removing the entry for `ip` leaves none for it and keeps every other. */
  lemma RemoveIpRemovesAll(es: seq<BlacklistEntry>, next: nat, ip: string)
    requires BlacklistTable(es, next)
    ensures forall e | e in RemoveIp(es, ip) :: e.ip != ip
    ensures forall e | e in es && e.ip != ip :: e in RemoveIp(es, ip)
    ensures BlacklistTable(RemoveIp(es, ip), next)
  {
    match EntryIndex(es, ip)
    case None =>
    case Some(k) =>
      var r := es[..k] + es[k + 1..];
      forall e | e in r ensures e.ip != ip {
        var i :| 0 <= i < |r| && r[i] == e;
        assert r[i] == es[Skip(i, k)];
      }
      forall e | e in es && e.ip != ip ensures e in r {
        var i :| 0 <= i < |es| && es[i] == e;
        if i < k { assert r[i] == e; } else { assert r[i - 1] == e; }
      }
      RemoveEntryKeepsTable(es, next, k);
  }

  /** The `limit` newest detections, newest first (ids grow with insertion). */
  function NewestFirst(ds: seq<Detection>, limit: nat): (r: seq<Detection>)
    ensures |r| == if |ds| < limit then |ds| else limit
    ensures forall i | 0 <= i < |r| :: r[i] == ds[|ds| - 1 - i]
  {
    if limit == 0 || ds == [] then []
    else [ds[|ds| - 1]] + NewestFirst(ds[..|ds| - 1], limit - 1)
  }

  /** Over a detections table, the newest rows come out with falling ids, each above every row left out. */
  lemma NewestFirstOrdered(ds: seq<Detection>, next: nat, limit: nat, rows: seq<Detection>)
    requires DetectionsTable(ds, next) && rows == NewestFirst(ds, limit)
    ensures forall i, j | 0 <= i < j < |rows| :: rows[i].id > rows[j].id
    ensures forall k, i | 0 <= k < |ds| - |rows| && 0 <= i < |rows| :: ds[k].id < rows[i].id
  {
    var n := |ds|;
    var ids := DetectionIds(ds);
    forall i, j | 0 <= i < j < |rows| ensures rows[i].id > rows[j].id {
      assert rows[i].id == ids[n - 1 - i] && rows[j].id == ids[n - 1 - j];
    }
    forall k, i | 0 <= k < n - |rows| && 0 <= i < |rows| ensures ds[k].id < rows[i].id {
      assert ds[k].id == ids[k] && rows[i].id == ids[n - 1 - i];
    }
  }

  // --------------------------------------------------------------- store

  /**
   * The database of the backend and the firewall it drives: the three
   * tables, the next id of each, whether a model was loaded at start-up
   * and the `AUTO_BLOCK` setting.
   */
  // ------------------------------------------------------------ routing

  /**
   * The `ip` that `DELETE /blacklist/{ip}` hands to `delete_blacklist` for
   * the raw request path, as the app declares the route: the ASGI server
   * percent-decodes the whole path before routing (`urllib.parse.unquote`,
   * which agrees with `decodeURIComponent` on well-formed escapes), and
   * `{ip}` then matches one or more characters other than "/". None: the
   * handler is not reached.
   */
  function DeleteRouteIp(rawPath: string): (ip: Option<string>)
    ensures ip.Some? ==> ip.value != [] && '/' !in ip.value
    ensures ip.Some? ==> Uri.DecodeUriComponent(rawPath) == Some("/blacklist/" + ip.value)
  {
    match Uri.DecodeUriComponent(rawPath)
    case None => None
    case Some(path) =>
      if |path| > 11 && path[..11] == "/blacklist/" && '/' !in path[11..] then
        assert path == "/blacklist/" + path[11..];
        Some(path[11..])
      else
        None
  }

  /**
   * The same route declared as `{ip:path}`: everything after "/blacklist/"
   * in the decoded path, slashes included, is the address.
   */
  function DeleteRoutePathIp(rawPath: string): (ip: Option<string>)
    ensures ip.Some? <==> exists a :: Uri.DecodeUriComponent(rawPath) == Some("/blacklist/" + a)
    ensures ip.Some? ==> Uri.DecodeUriComponent(rawPath) == Some("/blacklist/" + ip.value)
  {
    match Uri.DecodeUriComponent(rawPath)
    case None => None
    case Some(path) =>
      if |path| >= 11 && path[..11] == "/blacklist/" then
        assert path == "/blacklist/" + path[11..];
        Some(path[11..])
      else
        None
  }

  class Store {
    var users: seq<User>
    var detections: seq<Detection>
    var blacklist: seq<BlacklistEntry>
    var nextUserId: nat
    var nextDetectionId: nat
    var nextEntryId: nat
    const modelLoaded: bool
    const autoBlock: bool
    const fw: Firewall.RuleTable

    predicate Valid()
      reads this
    {
      && UsersTable(users, nextUserId)
      && DetectionsTable(detections, nextDetectionId)
      && BlacklistTable(blacklist, nextEntryId)
    }

    constructor (modelLoaded: bool, autoBlock: bool, fw: Firewall.RuleTable)
      ensures Valid()
      ensures users == [] && detections == [] && blacklist == []
      ensures this.modelLoaded == modelLoaded && this.autoBlock == autoBlock && this.fw == fw
    {
      users, detections, blacklist := [], [], [];
      nextUserId, nextDetectionId, nextEntryId := 1, 1, 1;
      this.modelLoaded := modelLoaded;
      this.autoBlock := autoBlock;
      this.fw := fw;
    }

    /**
     * `POST /users`: 409 when the username, then when the email, is taken;
     * 500 when a column is too long; otherwise the user is stored under the
     * next id with the given password, or "changeme" when none is given.
     */
    method CreateUser(username: string, email: string, password: Option<string>)
      returns (r: Result<UserView, HttpError>)
      requires Valid()
      modifies this
      ensures Valid()
      ensures unchanged(this`detections, this`blacklist, this`nextDetectionId, this`nextEntryId)
      ensures UsernameTaken(old(users), username) ==>
                r == Err(HttpError(409, "Username already exists")) && users == old(users)
      ensures !UsernameTaken(old(users), username) && EmailTaken(old(users), email) ==>
                r == Err(HttpError(409, "Email already exists")) && users == old(users)
      ensures !UsernameTaken(old(users), username) && !EmailTaken(old(users), email) ==>
                var u := User(old(nextUserId), username, email, password.GetOr(DefaultPassword));
                if UserFits(u) then
                  r == Ok(ViewOf(u)) && users == old(users) + [u] && nextUserId == old(nextUserId) + 1
                else
                  r == Err(InternalError) && users == old(users) && nextUserId == old(nextUserId)
    {
      if UsernameTaken(users, username) {
        return Err(HttpError(409, "Username already exists"));
      }
      if EmailTaken(users, email) {
        return Err(HttpError(409, "Email already exists"));
      }
      var u := User(nextUserId, username, email, password.GetOr(DefaultPassword));
      if !UserFits(u) {
        return Err(InternalError);
      }
      InsertUserKeepsTable(users, nextUserId, u);
      users := users + [u];
      nextUserId := nextUserId + 1;
      r := Ok(ViewOf(u));
    }

    /** `POST /auth/login`: the user with the email, if the password is theirs; otherwise 401. */
    method Login(email: string, password: string) returns (r: Result<UserView, HttpError>)
      requires Valid()
      ensures r.Ok? <==> exists u | u in users :: u.email == email && u.password == password
      ensures r.Ok? ==> exists u | u in users :: u.email == email && r.value == ViewOf(u)
      ensures r.Err? ==> r.error == HttpError(401, "Invalid email or password")
    {
      match UserIndexByEmail(users, email)
      case None =>
        r := Err(HttpError(401, "Invalid email or password"));
      case Some(k) =>
        var u := users[k];
        assert u in users;
        if u.password != password {
          forall v | v in users && v.email == email ensures v.password != password {
            var j :| 0 <= j < |users| && users[j] == v;
            assert j == k;
          }
          r := Err(HttpError(401, "Invalid email or password"));
        } else {
          r := Ok(ViewOf(u));
        }
    }

    /**
     * `GET /blacklist`: every entry, or with a non-empty search text only
     * those whose address is `LIKE '%q%'` for the stripped text, in
     * ascending id order.
     */
    method GetBlacklist(q: Option<string>) returns (rows: seq<BlacklistEntry>)
      requires Valid()
      ensures forall e :: e in rows <==> e in blacklist && (q.Some? && q.value != "" ==> SearchMatches(e.ip, q.value))
      ensures forall i, j | 0 <= i < j < |rows| :: rows[i].id < rows[j].id
      ensures IsSubsequence(rows, blacklist)
    {
      if q.Some? && q.value != "" {
        var text := q.value;
        rows := Filter(blacklist, (e: BlacklistEntry) => SearchMatches(e.ip, text));
        FilterKeeps(blacklist, (e: BlacklistEntry) => SearchMatches(e.ip, text));
      } else {
        rows := blacklist;
        assert IsSubsequence(rows, blacklist) by { SubsequenceRefl(blacklist); }
      }
      var ids := EntryIds(blacklist);
      assert forall i, j | 0 <= i < j < |blacklist| :: blacklist[i].id < blacklist[j].id by {
        forall i, j | 0 <= i < j < |blacklist| ensures blacklist[i].id < blacklist[j].id {
          assert ids[i] == blacklist[i].id && ids[j] == blacklist[j].id;
        }
      }
      SubsequenceIncreasing(rows, blacklist, (e: BlacklistEntry) => e.id as int);
    }

    /** Adding and committing a blacklist row: it is appended under the next id and the tables stay valid. */
    method InsertEntry(e: BlacklistEntry)
      requires Valid()
      requires e.id == nextEntryId && EntryFits(e)
      requires forall x | x in blacklist :: x.ip != e.ip
      modifies this`blacklist, this`nextEntryId
      ensures Valid()
      ensures blacklist == old(blacklist) + [e] && nextEntryId == old(nextEntryId) + 1
    {
      InsertEntryKeepsTable(blacklist, nextEntryId, e);
      blacklist := blacklist + [e];
      nextEntryId := nextEntryId + 1;
    }

    /** With `AUTO_BLOCK` on, `block_ip` of the address; the firewall's outcome is not reported. */
    method BlockIfAuto(ip: string)
      modifies fw`rules
      ensures fw.rules == if autoBlock then fw.Blocked(old(fw.rules), Firewall.NormalizeIp(Some(ip))) else old(fw.rules)
    {
      if autoBlock {
        var _, _ := fw.BlockIp(ip);
      }
    }

    /**
     * `POST /blacklist`: the address is stripped; an entry that already
     * exists is returned as it is; otherwise a new entry is stored with the
     * given reason or "manual" and, with `AUTO_BLOCK`, the firewall blocks
     * the address.
     */
    method AddBlacklist(ip: string, reason: Option<string>) returns (r: Result<BlacklistEntry, HttpError>)
      requires Valid()
      modifies this`blacklist, this`nextEntryId, fw
      ensures Valid()
      ensures unchanged(this`users, this`detections, this`nextUserId, this`nextDetectionId)
      ensures var key := PyStrip(ip);
              match EntryIndex(old(blacklist), key)
              case Some(k) =>
                r == Ok(old(blacklist)[k]) && blacklist == old(blacklist) && unchanged(fw)
              case None =>
                var e := BlacklistEntry(old(nextEntryId), key, Some(ManualReason(reason)));
                if EntryFits(e) then
                  && r == Ok(e) && blacklist == old(blacklist) + [e] && nextEntryId == old(nextEntryId) + 1
                  && fw.rules == (if autoBlock then fw.Blocked(old(fw.rules), Firewall.NormalizeIp(Some(key)))
                                  else old(fw.rules))
                else
                  r == Err(InternalError) && blacklist == old(blacklist) && unchanged(fw)
    {
      var key := PyStrip(ip);
      match EntryIndex(blacklist, key)
      case Some(k) =>
        r := Ok(blacklist[k]);
      case None =>
        var e := BlacklistEntry(nextEntryId, key, Some(ManualReason(reason)));
        if !EntryFits(e) {
          return Err(InternalError);
        }
        InsertEntry(e);
        BlockIfAuto(key);
        r := Ok(e);
    }

    /**
     * `DELETE /blacklist/{ip}`: the address is stripped; 404 when no entry
     * has it; otherwise the entry is removed and the firewall unblocks the
     * address whatever `AUTO_BLOCK` says.
     */
    method DeleteBlacklist(ip: string) returns (r: Result<Unblocked, HttpError>)
      requires Valid()
      modifies this`blacklist, fw
      ensures Valid()
      ensures unchanged(this`users, this`detections, this`nextUserId, this`nextDetectionId, this`nextEntryId)
      ensures var key := PyStrip(ip);
              if EntryIndex(old(blacklist), key).None? then
                r == Err(HttpError(404, "IP not found in blacklist")) && blacklist == old(blacklist) && unchanged(fw)
              else
                && r.Ok? && r.value.ip == key
                && blacklist == RemoveIp(old(blacklist), key)
                && (forall e | e in blacklist :: e.ip != key)
                && r.value.unblocked == (fw.windows && fw.elevated
                     && (Firewall.Named(old(fw.rules), Firewall.InRuleName(Firewall.NormalizeIp(Some(key)))) > 0
                         || Firewall.Named(old(fw.rules), Firewall.OutRuleName(Firewall.NormalizeIp(Some(key)))) > 0))
                && fw.rules == (if fw.windows && fw.elevated
                                then Firewall.AfterUnblock(old(fw.rules), Firewall.NormalizeIp(Some(key)))
                                else old(fw.rules))
    {
      var key := PyStrip(ip);
      if EntryIndex(blacklist, key).None? {
        return Err(HttpError(404, "IP not found in blacklist"));
      }
      RemoveIpRemovesAll(blacklist, nextEntryId, key);
      blacklist := RemoveIp(blacklist, key);
      assert Valid();
      var ok, msg := fw.UnblockIp(key);
      r := Ok(Unblocked(key, ok, msg));
    }

    /** `GET /detections`: the 200 newest detections, newest first. */
    method ListDetections() returns (rows: seq<Detection>)
      requires Valid()
      ensures |rows| == if |detections| < DetectionLimit then |detections| else DetectionLimit
      ensures forall i | 0 <= i < |rows| :: rows[i] == detections[|detections| - 1 - i]
      ensures forall i, j | 0 <= i < j < |rows| :: rows[i].id > rows[j].id
      ensures forall k, i | 0 <= k < |detections| - |rows| && 0 <= i < |rows| :: detections[k].id < rows[i].id
    {
      rows := NewestFirst(detections, DetectionLimit);
      NewestFirstOrdered(detections, nextDetectionId, DetectionLimit, rows);
    }

    /**
     * `POST /detect`: 500 without a model or when the features cannot be
     * read; 400 unless they give exactly six values; 500 when the row does
     * not fit its columns; otherwise the detection is stored, malicious when the score reaches the clamped
     * threshold, and a malicious flow's chosen address, when it has one,
     * is blacklisted (once) as "auto-src" or "auto-dest" and, with
     * `AUTO_BLOCK`, blocked.
     */
    method Detect(req: DetectRequest, score: real) returns (r: Result<Verdict, HttpError>)
      requires Valid()
      modifies this, fw
      ensures Valid()
      ensures unchanged(this`users, this`nextUserId)
      ensures !modelLoaded ==> r == Err(HttpError(500, "Model not loaded")) && unchanged(this, fw)
      ensures modelLoaded && ToFeatureVector(req.features).Err? ==> r == Err(InternalError) && unchanged(this, fw)
      ensures modelLoaded && ToFeatureVector(req.features).Ok? && |ToFeatureVector(req.features).value.vector| != |FeatureOrder| ==>
                r == Err(HttpError(400, InvalidFeaturesDetail)) && unchanged(this, fw)
      ensures modelLoaded && ToFeatureVector(req.features).Ok? && |ToFeatureVector(req.features).value.vector| == |FeatureOrder| ==>
                var d := Detection(old(nextDetectionId), req.srcIp, req.destIp, score, score >= Clamp(req.threshold),
                                   Some(ToFeatureVector(req.features).value.json));
                if DetectionFits(d) then r.Ok? else r == Err(InternalError) && unchanged(this, fw)
      ensures r.Ok? ==>
                && modelLoaded && ToFeatureVector(req.features).Ok?
                && |ToFeatureVector(req.features).value.vector| == |FeatureOrder|
                && r.value == Verdict(old(nextDetectionId), score >= Clamp(req.threshold), score)
                && nextDetectionId == old(nextDetectionId) + 1
                && detections == old(detections) + [Detection(old(nextDetectionId), req.srcIp, req.destIp, score,
                                                               r.value.isMalicious, Some(ToFeatureVector(req.features).value.json))]
      ensures r.Ok? ==>
                var t := TargetIp(req);
                if r.value.isMalicious && t.Some? && t.value != "" then
                  && (EntryIndex(old(blacklist), t.value).Some? ==>
                        blacklist == old(blacklist) && nextEntryId == old(nextEntryId))
                  && (EntryIndex(old(blacklist), t.value).None? ==>
                        && blacklist == old(blacklist) + [BlacklistEntry(old(nextEntryId), t.value, Some(AutoReason(req.blockTarget)))]
                        && nextEntryId == old(nextEntryId) + 1)
                  && fw.rules == (if autoBlock then fw.Blocked(old(fw.rules), Firewall.NormalizeIp(Some(t.value)))
                                  else old(fw.rules))
                else
                  blacklist == old(blacklist) && nextEntryId == old(nextEntryId) && unchanged(fw)
      ensures r.Err? ==> unchanged(this, fw)
    {
      if !modelLoaded {
        return Err(HttpError(500, "Model not loaded"));
      }
      var converted := ToFeatureVector(req.features);
      if converted.Err? {
        return Err(InternalError);
      }
      var features := converted.value;
      if |features.vector| != |FeatureOrder| {
        return Err(HttpError(400, InvalidFeaturesDetail));
      }
      var threshold := Clamp(req.threshold);
      var malicious := score >= threshold;
      var d := Detection(nextDetectionId, req.srcIp, req.destIp, score, malicious, Some(features.json));
      if !DetectionFits(d) {
        return Err(InternalError);
      }
      InsertDetectionKeepsTable(detections, nextDetectionId, d);
      detections := detections + [d];
      nextDetectionId := nextDetectionId + 1;
      r := Ok(Verdict(d.id, malicious, score));
      if malicious {
        var target := TargetIp(req);
        if target.Some? && target.value != "" {
          var ip := target.value;
          if EntryIndex(blacklist, ip).None? {
            var e := BlacklistEntry(nextEntryId, ip, Some(AutoReason(req.blockTarget)));
            InsertEntry(e);
          }
          BlockIfAuto(ip);
        }
      }
    }
  }
}
