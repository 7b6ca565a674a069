/**
 * The blacklist page (frontend/src/components/Blacklist.js): the
 * client-side filter over the loaded rows, and the page state that
 * loading, adding and unblocking leave behind. Server replies and the
 * answer to the confirmation dialog are inputs.
 */
module BlacklistView {
  import opened Wrappers
  import opened Text
  import opened Seqs
  import opened Js
  import Api

  const BlankIpError := "Please enter an IP to block."
  const DefaultReason := "manual"

  // ------------------------------------------------------------ filter

  /** The filter text as it is matched: trimmed and lower-cased. */
  function Needle(clientFilter: string): (f: string)
    ensures f == [] <==> Blank(clientFilter, IsJsSpace)
  {
    ToLowerAscii(JsTrim(clientFilter))
  }

  /** `(r[key] || "").toLowerCase()`. */
  function Field(r: JsValue, key: string): string {
    ToLowerAscii(ToString(Or(Get(r, key), Str(""))))
  }

  /** A row matches when its address or its reason contains the needle. */
  predicate RowMatches(r: JsValue, f: string) {
    Contains(Field(r, "ip"), f) || Contains(Field(r, "reason"), f)
  }

  function Matcher(f: string): JsValue -> bool {
    (r: JsValue) => RowMatches(r, f)
  }

  /**
   * `filtered`: every row when the filter is blank; otherwise exactly the
   * rows whose address or reason contains the filter, ignoring ASCII case,
   * in their loaded order, a repeated row as often as it occurs.
   */
  function Filtered(items: seq<JsValue>, clientFilter: string): (shown: seq<JsValue>)
    ensures Blank(clientFilter, IsJsSpace) ==> shown == items
    ensures forall r | r in shown :: r in items
    ensures !Blank(clientFilter, IsJsSpace) ==> forall r | r in shown :: RowMatches(r, Needle(clientFilter))
    ensures !Blank(clientFilter, IsJsSpace) ==>
              forall i | 0 <= i < |items| && RowMatches(items[i], Needle(clientFilter)) :: items[i] in shown
    ensures IsSubsequence(shown, items)
    ensures !Blank(clientFilter, IsJsSpace) ==>
              forall r | r in items :: multiset(shown)[r] == if RowMatches(r, Needle(clientFilter)) then multiset(items)[r] else 0
  {
    var f := Needle(clientFilter);
    if f == [] then
      SubsequenceRefl(items);
      items
    else
      FilterKeeps(items, Matcher(f));
      FilterCounts(items, Matcher(f));
      Filter(items, Matcher(f))
  }

  /** The filter ignores the case of what is typed into it. */
  lemma FilterIgnoresCase(items: seq<JsValue>, clientFilter: string)
    ensures Filtered(items, ToLowerAscii(clientFilter)) == Filtered(items, clientFilter)
  {
    LowerTrimCommute(clientFilter);
    ToLowerIdempotent(JsTrim(clientFilter));
  }

  /** Applying the filter to what it shows changes nothing. */
  lemma FilterIdempotentView(items: seq<JsValue>, clientFilter: string)
    ensures Filtered(Filtered(items, clientFilter), clientFilter) == Filtered(items, clientFilter)
  {
    var f := Needle(clientFilter);
    if f != [] {
      FilterIdempotent(items, Matcher(f));
    }
  }

  // -------------------------------------------------------- page state

  /** The page's React state. */
  datatype Page = Page(items: seq<JsValue>, loading: bool, err: string, ok: string,
                       ip: string, reason: string, serverQuery: string, clientFilter: string)

  /** `serverQuery.trim() || undefined`: what `load` passes to `getBlacklist`. */
  function Query(serverQuery: string): JsValue {
    Or(Str(JsTrim(serverQuery)), Undefined)
  }

  /** The query is left out exactly when the input is blank, and is otherwise the trimmed input. */
  lemma QueryCases(serverQuery: string)
    ensures Query(serverQuery) == Undefined <==> Blank(serverQuery, IsJsSpace)
    ensures Query(serverQuery) != Undefined ==> Query(serverQuery) == Str(JsTrim(serverQuery))
    ensures "q" in Api.BlacklistParams(Query(serverQuery)) <==> !Blank(serverQuery, IsJsSpace)
  {
  }

  /**
   * `load`: both messages are cleared; a successful reply replaces the
   * rows, a failure keeps them and shows its message; loading ends either
   * way and the inputs are untouched.
   */
  function Loaded(p: Page, reply: Result<seq<JsValue>, string>): (r: Page)
    ensures r.ok == "" && !r.loading
    ensures reply.Ok? ==> r.items == reply.value && r.err == ""
    ensures reply.Err? ==> r.items == p.items && r.err == reply.error
    ensures r.ip == p.ip && r.reason == p.reason && r.serverQuery == p.serverQuery && r.clientFilter == p.clientFilter
  {
    match reply
    case Ok(data) => p.(items := data, err := "", ok := "", loading := false)
    case Err(message) => p.(err := message, ok := "", loading := false)
  }

  /** The body `handleAdd` posts: the trimmed address and the trimmed reason, "manual" when blank; nothing for a blank address. */
  function AddBody(p: Page): Option<JsValue> {
    if JsTrim(p.ip) == [] then None
    else Some(AddPayload(JsTrim(p.ip), JsTrim(p.reason)))
  }

  /** Nothing is posted for a blank address; otherwise the trimmed address, and the trimmed reason or "manual". */
  lemma AddBodyCases(p: Page)
    ensures AddBody(p).None? <==> Blank(p.ip, IsJsSpace)
    ensures AddBody(p).Some? ==> Get(AddBody(p).value, "ip") == Str(JsTrim(p.ip))
    ensures AddBody(p).Some? ==>
              Get(AddBody(p).value, "reason") == if Blank(p.reason, IsJsSpace) then Str(DefaultReason) else Str(JsTrim(p.reason))
  {
  }

  /** `{ ip, reason: reason || "manual" }`. */
  function AddPayload(ip: string, reason: string): (body: JsValue)
    ensures Get(body, "ip") == Str(ip)
    ensures Get(body, "reason") == if reason == "" then Str(DefaultReason) else Str(reason)
  {
    var props := map["ip" := Str(ip), "reason" := Or(Str(reason), Str(DefaultReason))];
    assert "ip" != "reason" by { assert "ip"[0] != "reason"[0]; }
    Object(props)
  }

  /** `Blocked ${ip} (${reason || "-"})`. */
  function BlockedMessage(data: JsValue): string {
    "Blocked " + ToString(Get(data, "ip")) + " (" + ToString(Or(Get(data, "reason"), Str("-"))) + ")"
  }

  /** `Unblocked ${ip}`. */
  function UnblockedMessage(data: JsValue): string {
    "Unblocked " + ToString(Get(data, "ip"))
  }

  /**
   * `handleAdd` as written: a blank address only shows an error. Otherwise
   * both messages are cleared; a failure shows its message; a success sets
   * the "Blocked" message, empties both inputs and reloads.
   */
  function Added(p: Page, reply: Result<JsValue, string>, reload: Result<seq<JsValue>, string>): (r: Page)
    ensures Blank(p.ip, IsJsSpace) ==> r == p.(err := BlankIpError)
    ensures !Blank(p.ip, IsJsSpace) && reply.Err? ==> r == p.(err := reply.error, ok := "")
    ensures !Blank(p.ip, IsJsSpace) && reply.Ok? ==>
              r == Loaded(p.(err := "", ok := BlockedMessage(reply.value), ip := "", reason := ""), reload)
  {
    if JsTrim(p.ip) == [] then p.(err := BlankIpError)
    else
      var cleared := p.(err := "", ok := "");
      match reply
      case Err(message) => cleared.(err := message)
      case Ok(data) => Loaded(cleared.(ok := BlockedMessage(data), ip := "", reason := ""), reload)
  }

  /**
   * `handleUnblock` as written: nothing happens unless confirmed. Otherwise
   * both messages are cleared; a failure shows its message; a success sets
   * the "Unblocked" message and reloads.
   */
  function Unblocked(p: Page, confirmed: bool, reply: Result<JsValue, string>, reload: Result<seq<JsValue>, string>): (r: Page)
    ensures !confirmed ==> r == p
    ensures confirmed && reply.Err? ==> r == p.(err := reply.error, ok := "")
    ensures confirmed && reply.Ok? ==> r == Loaded(p.(err := "", ok := UnblockedMessage(reply.value)), reload)
  {
    if !confirmed then p
    else
      var cleared := p.(err := "", ok := "");
      match reply
      case Err(message) => cleared.(err := message)
      case Ok(data) => Loaded(cleared.(ok := UnblockedMessage(data)), reload)
  }

  /**
   * The success message of an add is never left on the page: the reload
   * that follows clears it, whether or not the reload succeeds.
   */
  lemma AddMessageLost(p: Page, data: JsValue, reload: Result<seq<JsValue>, string>)
    requires !Blank(p.ip, IsJsSpace)
    ensures Added(p, Ok(data), reload).ok == ""
    ensures BlockedMessage(data) != ""
  {
  }

  /** The same holds for the message of an unblock. */
  lemma UnblockMessageLost(p: Page, data: JsValue, reload: Result<seq<JsValue>, string>)
    ensures Unblocked(p, true, Ok(data), reload).ok == ""
    ensures UnblockedMessage(data) != ""
  {
  }

  /** `handleAdd` with the message set after the reload. */
  function AddedAsIntended(p: Page, reply: Result<JsValue, string>, reload: Result<seq<JsValue>, string>): Page {
    if JsTrim(p.ip) == [] then p.(err := BlankIpError)
    else AddReplied(p, reply, reload)
  }

  /** The part of the corrected `handleAdd` after the post: the reply decides between the error and the reload. */
  function AddReplied(p: Page, reply: Result<JsValue, string>, reload: Result<seq<JsValue>, string>): Page {
    var cleared := p.(err := "", ok := "");
    match reply
    case Err(message) => cleared.(err := message)
    case Ok(data) => Loaded(cleared.(ip := "", reason := ""), reload).(ok := BlockedMessage(data))
  }

  /** `handleUnblock` with the message set after the reload. */
  function UnblockedAsIntended(p: Page, confirmed: bool, reply: Result<JsValue, string>, reload: Result<seq<JsValue>, string>): Page {
    if !confirmed then p
    else
      var cleared := p.(err := "", ok := "");
      match reply
      case Err(message) => cleared.(err := message)
      case Ok(data) => Loaded(cleared, reload).(ok := UnblockedMessage(data))
  }

  /**
   * With the message set after the reload, a successful add shows it, and
   * leaves the page otherwise as the handler as written does.
   */
  lemma AddMessageShown(p: Page, reply: Result<JsValue, string>, reload: Result<seq<JsValue>, string>)
    ensures !Blank(p.ip, IsJsSpace) && reply.Ok? ==> AddedAsIntended(p, reply, reload).ok == BlockedMessage(reply.value)
    ensures AddedAsIntended(p, reply, reload).(ok := "") == Added(p, reply, reload).(ok := "")
  {
  }

  /** With the message set after the reload, a confirmed successful unblock shows it. */
  lemma UnblockMessageShown(p: Page, confirmed: bool, reply: Result<JsValue, string>, reload: Result<seq<JsValue>, string>)
    ensures confirmed && reply.Ok? ==> UnblockedAsIntended(p, confirmed, reply, reload).ok == UnblockedMessage(reply.value)
    ensures UnblockedAsIntended(p, confirmed, reply, reload).(ok := "") == Unblocked(p, confirmed, reply, reload).(ok := "")
  {
  }

  /** The message for a row without a reason. */
  lemma BlockedWithoutReason(ip: string)
    ensures BlockedMessage(Object(map["ip" := Str(ip), "reason" := Null])) == "Blocked " + ip + " (-)"
  {
  }

  // ------------------------------------------------------------ object

  /** The page component's state, updated by its handlers. */
  class BlacklistPage {
    var items: seq<JsValue>
    var loading: bool
    var err: string
    var ok: string
    var ip: string
    var reason: string
    var serverQuery: string
    var clientFilter: string

    function State(): Page
      reads this
    {
      Page(items, loading, err, ok, ip, reason, serverQuery, clientFilter)
    }

    /** No rows yet, loading, no messages, empty inputs. */
    constructor ()
      ensures State() == Page([], true, "", "", "", "", "", "")
    {
      items, loading, err, ok := [], true, "", "";
      ip, reason, serverQuery, clientFilter := "", "", "", "";
    }

    /** `load`: asks for the rows matching the server query and records the reply. */
    method Load(reply: Result<seq<JsValue>, string>) returns (sent: Api.Request)
      modifies this`items, this`loading, this`err, this`ok
      ensures sent == Api.GetBlacklist(Query(old(serverQuery)))
      ensures State() == Loaded(old(State()), reply)
    {
      match reply {
        case Ok(data) =>
          items, err, ok, loading := data, "", "", false;
        case Err(message) =>
          err, ok, loading := message, "", false;
      }
      assert State() == Loaded(old(State()), reply);
      sent := Api.GetBlacklist(Query(serverQuery));
    }

    /**
     * `handleAdd`: posts the new row, unless the address is blank, and
     * reloads after a success; the "Blocked" message is set after the
     * reload, so that it stays on the page.
     */
    method HandleAdd(reply: Result<JsValue, string>, reload: Result<seq<JsValue>, string>) returns (sent: Option<Api.Request>)
      modifies this`items, this`loading, this`err, this`ok, this`ip, this`reason
      ensures sent == if AddBody(old(State())).Some? then Some(Api.AddBlacklist(AddBody(old(State())).value)) else None
      ensures State() == AddedAsIntended(old(State()), reply, reload)
    {
      ghost var before := State();
      var trimmed := JsTrim(ip);
      if trimmed == [] {
        err := BlankIpError;
        assert State() == before.(err := BlankIpError);
        return None;
      }
      var body := AddPayload(trimmed, JsTrim(reason));
      assert AddBody(before) == Some(body);
      sent := Some(Api.AddBlacklist(body));
      TakeAddReply(reply, reload);
      assert State() == AddReplied(before, reply, reload);
    }

    /** What `handleAdd` does once the post is answered, with the message set after the reload. */
    method TakeAddReply(reply: Result<JsValue, string>, reload: Result<seq<JsValue>, string>)
      modifies this`items, this`loading, this`err, this`ok, this`ip, this`reason
      ensures State() == AddReplied(old(State()), reply, reload)
    {
      ghost var cleared := State().(err := "", ok := "");
      err, ok := "", "";
      match reply {
        case Err(message) =>
          err := message;
        case Ok(data) =>
          ip, reason := "", "";
          assert State() == cleared.(ip := "", reason := "");
          var _ := Load(reload);
          assert State() == Loaded(cleared.(ip := "", reason := ""), reload);
          ok := BlockedMessage(data);
      }
    }

    /**
     * `handleUnblock`: after confirmation, deletes the row and reloads
     * after a success; the "Unblocked" message is set after the reload.
     */
    method HandleUnblock(target: string, confirmed: bool, reply: Result<JsValue, string>, reload: Result<seq<JsValue>, string>)
      returns (sent: Option<Api.Request>)
      modifies this`items, this`loading, this`err, this`ok
      ensures sent == if confirmed then Some(Api.DeleteBlacklist(target)) else None
      ensures State() == UnblockedAsIntended(old(State()), confirmed, reply, reload)
    {
      if !confirmed {
        return None;
      }
      err, ok := "", "";
      sent := Some(Api.DeleteBlacklist(target));
      match reply {
        case Err(message) =>
          err := message;
        case Ok(data) =>
          var _ := Load(reload);
          ok := UnblockedMessage(data);
      }
    }
  }
}
