/** The background script: the connection to the native host, the dispatch
    of the host's messages, the routing of commands to browser actions or to
    the content script, and the acknowledgement sent back for each command.
    The browser's tab list is an input; each awaited browser call is
    recorded, and whether it rejects (and with which message) is a
    parameter. */
module Background {
  import opened Common
  import Content

  // ---------------------------------------------------------------------
  // Tabs and tab cycling
  // ---------------------------------------------------------------------

  /** A tab of the current window, as `browser.tabs.query` reports it. */
  datatype Tab = Tab(id: nat, active: bool)

  /** The position of the first active tab: `tabs.find(t => t.active)`
      followed by `indexOf`, and also `tabs[0]` of the query restricted to
      active tabs. */
  function FirstActive(tabs: seq<Tab>): (i: Option<nat>)
    ensures i.Some? ==> i.value < |tabs| && tabs[i.value].active
    ensures i.Some? ==> forall j :: 0 <= j < i.value ==> !tabs[j].active
    ensures i.None? ==> forall j :: 0 <= j < |tabs| ==> !tabs[j].active
  {
    if tabs == [] then None
    else if tabs[0].active then Some(0)
    else match FirstActive(tabs[1..])
      case None => None
      case Some(k) => Some(k + 1)
  }

  /** `(currentIndex + 1) % tabs.length`: the tab after `i`, the first
      after the last. */
  function NextIndex(i: nat, n: nat): (r: nat)
    requires i < n
    ensures r < n
    ensures r == if i + 1 < n then i + 1 else 0
  {
    (i + 1) % n
  }

  /** `(currentIndex - 1 + tabs.length) % tabs.length`: the tab before `i`,
      the last before the first. The operand is never negative, so
      JavaScript's truncating `%` and Dafny's agree. */
  function PrevIndex(i: nat, n: nat): (r: nat)
    requires i < n
    ensures r < n
    ensures r == if i > 0 then i - 1 else n - 1
  {
    (i - 1 + n) % n
  }

  /** Going forward then back returns to the same tab. */
  lemma PrevOfNext(i: nat, n: nat)
    requires i < n
    ensures PrevIndex(NextIndex(i, n), n) == i
  {
  }

  /** Going back then forward returns to the same tab. */
  lemma NextOfPrev(i: nat, n: nat)
    requires i < n
    ensures NextIndex(PrevIndex(i, n), n) == i
  {
  }

  // ---------------------------------------------------------------------
  // Messages on the native port
  // ---------------------------------------------------------------------

  /** A message from the native host. `kind` is the JSON `type` field;
      absent fields are None. */
  datatype NativeMessage = NativeMessage(kind: Option<string>, id: Option<string>, name: Option<string>, args: Option<Args>)

  /** The `ok` field of an acknowledgement: `true`, or the text "pong". */
  datatype AckValue = Flag(b: bool) | Text(s: string)

  /** What the background script posts to the native host. */
  datatype PortMessage =
    | Ack(id: Option<string>, ok: AckValue)           // {type: "ack", id, ok}
    | Failure(id: Option<string>, message: string)    // {type: "error", id, message}

  // ---------------------------------------------------------------------
  // Command routing
  // ---------------------------------------------------------------------

  /** The branch of `handleCommand`'s switch a command name selects. */
  datatype Action =
    | NavBack | NavForward | NavReload
    | NewTab | CloseTab | NextTab | PrevTab
    | FocusAddress | OpenUrl
    | ToContent
    | Unknown

  /** The names forwarded to the content script. */
  const ForwardedCommands: set<string> := {
    "scroll_up", "scroll_down", "page_up", "page_down", "jump_top",
    "jump_bottom", "show_hints", "hide_hints", "hint_click"
  }

  /** Every name `handleCommand` has a branch for. */
  const KnownCommands: set<string> := {
    "back", "forward", "reload", "new_tab", "close_tab", "next_tab",
    "prev_tab", "previous_tab", "focus_address", "open_url"
  } + ForwardedCommands

  /** The branch of the switch for `name`. Exactly the forwarded names
      reach the content script; both spellings of the previous-tab command
      select the same action; a name is unknown exactly when it has no
      branch. */
  function Route(name: Option<string>): (action: Action)
    ensures action == ToContent <==> name.Some? && name.value in ForwardedCommands
    ensures action == PrevTab <==> name == Some("prev_tab") || name == Some("previous_tab")
    ensures action == NextTab <==> name == Some("next_tab")
    ensures action == Unknown <==> name.None? || name.value !in KnownCommands
  {
    if name.None? then Unknown
    else match name.value
      case "back" => NavBack
      case "forward" => NavForward
      case "reload" => NavReload
      case "new_tab" => NewTab
      case "close_tab" => CloseTab
      case "next_tab" => NextTab
      case "prev_tab" => PrevTab
      case "previous_tab" => PrevTab
      case "focus_address" => FocusAddress
      case "open_url" => OpenUrl
      case "scroll_up" => ToContent
      case "scroll_down" => ToContent
      case "page_up" => ToContent
      case "page_down" => ToContent
      case "jump_top" => ToContent
      case "jump_bottom" => ToContent
      case "show_hints" => ToContent
      case "hide_hints" => ToContent
      case "hint_click" => ToContent
      case _ => Unknown
  }

  // ---------------------------------------------------------------------
  // Browser actions
  // ---------------------------------------------------------------------

  /** The browser calls the actions await. */
  datatype BrowserCall =
    | GoBack(tab: nat) | GoForward(tab: nat) | Reload(tab: nat)
    | Create(url: Option<string>) | Remove(tab: nat) | Activate(tab: nat)
    | SendToContent(tab: nat, message: Content.Message)

  /** The calls a command made and the message of the error it ended with. */
  datatype Outcome = Outcome(calls: seq<BrowserCall>, error: Option<string>)

  /** What `String(name)` prints in the unknown-command error. */
  function NameText(name: Option<string>): string {
    if name.Some? then name.value else "undefined"
  }

  /** `args?.url` under JavaScript truthiness: absent and "" are no URL. */
  function UrlArg(args: Option<Args>): Option<string> {
    if args.Some? && "url" in args.value && args.value["url"] != "" then Some(args.value["url"]) else None
  }

  /** `args || {}`. */
  function ArgsOrEmpty(args: Option<Args>): Args {
    if args.Some? then args.value else map[]
  }

  /** One awaited call: it is issued, and it fails when it rejects. */
  function Await(call: BrowserCall, rejection: Option<string>): Outcome {
    Outcome([call], rejection)
  }

  /** The awaited call on the first active tab, or nothing when no tab is
      active (`executeBack`, `executeForward`, `executeReload`,
      `executeCloseTab`). */
  function OnActiveTab(tabs: seq<Tab>, call: BrowserCall, rejection: Option<string>): (r: Outcome)
    ensures FirstActive(tabs).None? ==> r == Outcome([], None)
    ensures FirstActive(tabs).Some? ==> r.calls == [call] && r.error == rejection
  {
    if FirstActive(tabs).Some? then Await(call, rejection) else Outcome([], None)
  }

  /** The id of the first active tab, or 0 when there is none. */
  function ActiveId(tabs: seq<Tab>): nat {
    var active := FirstActive(tabs);
    if active.Some? then tabs[active.value].id else 0
  }

  /** `executeNextTab`: activate the tab after the first active one, the
      first tab after the last; with no active tab do nothing. */
  function ExecuteNextTab(tabs: seq<Tab>, rejection: Option<string>): (r: Outcome)
    ensures FirstActive(tabs).None? ==> r == Outcome([], None)
    ensures FirstActive(tabs).Some? ==>
      var i := FirstActive(tabs).value;
      r == Outcome([Activate(tabs[if i + 1 < |tabs| then i + 1 else 0].id)], rejection)
  {
    var active := FirstActive(tabs);
    if active.Some? then Await(Activate(tabs[NextIndex(active.value, |tabs|)].id), rejection)
    else Outcome([], None)
  }

  /** `executePrevTab`: activate the tab before the first active one, the
      last tab before the first; with no active tab do nothing. */
  function ExecutePrevTab(tabs: seq<Tab>, rejection: Option<string>): (r: Outcome)
    ensures FirstActive(tabs).None? ==> r == Outcome([], None)
    ensures FirstActive(tabs).Some? ==>
      var i := FirstActive(tabs).value;
      r == Outcome([Activate(tabs[if i > 0 then i - 1 else |tabs| - 1].id)], rejection)
  {
    var active := FirstActive(tabs);
    if active.Some? then Await(Activate(tabs[PrevIndex(active.value, |tabs|)].id), rejection)
    else Outcome([], None)
  }

  /** `executeOpenUrl`: refuse a missing or empty URL without calling the
      browser, else open a tab on it. */
  function ExecuteOpenUrl(args: Option<Args>, rejection: Option<string>): (r: Outcome)
    ensures args.None? || "url" !in args.value || args.value["url"] == "" ==>
      r == Outcome([], Some("URL not provided"))
    ensures args.Some? && "url" in args.value && args.value["url"] != "" ==>
      r == Outcome([Create(Some(args.value["url"]))], rejection)
  {
    var url := UrlArg(args);
    if url.None? then Outcome([], Some("URL not provided"))
    else Await(Create(url), rejection)
  }

  /** `forwardToContentScript`: refuse when no tab is active, else send the
      command with `args || {}` to the active tab, rewording a rejection. */
  function ForwardToContentScript(command: string, args: Option<Args>, tabs: seq<Tab>, rejection: Option<string>): (r: Outcome)
    ensures FirstActive(tabs).None? ==> r == Outcome([], Some("No active tab found"))
    ensures FirstActive(tabs).Some? ==>
      && r.calls == [SendToContent(tabs[FirstActive(tabs).value].id, Content.Message(command, Some(ArgsOrEmpty(args))))]
      && (r.error.None? <==> rejection.None?)
    ensures args.None? ==> forall c :: c in r.calls ==> c.message.args == Some(map[])
  {
    var active := FirstActive(tabs);
    if active.None? then Outcome([], Some("No active tab found"))
    else
      var message := Content.Message(command, Some(ArgsOrEmpty(args)));
      Outcome([SendToContent(tabs[active.value].id, message)],
              if rejection.Some? then Some("Content script not ready: " + rejection.value) else None)
  }

  /** The body of the branch `handleCommand`'s switch selects. `rejection`
      is the message the awaited browser call rejects with, if it does. */
  function Execute(action: Action, m: NativeMessage, tabs: seq<Tab>, rejection: Option<string>): (r: Outcome)
    ensures |r.calls| <= 1
    ensures action == Unknown ==> r == Outcome([], Some("Unknown command: " + NameText(m.name)))
    ensures r.error.Some? && r.calls == [] ==> action == Unknown || action == OpenUrl || action == ToContent
    ensures rejection.None? && action != Unknown && action != OpenUrl && action != ToContent ==> r.error.None?
  {
    match action
    case NavBack => OnActiveTab(tabs, GoBack(ActiveId(tabs)), rejection)
    case NavForward => OnActiveTab(tabs, GoForward(ActiveId(tabs)), rejection)
    case NavReload => OnActiveTab(tabs, Reload(ActiveId(tabs)), rejection)
    case NewTab => Await(Create(None), rejection)
    case CloseTab => OnActiveTab(tabs, Remove(ActiveId(tabs)), rejection)
    case NextTab => ExecuteNextTab(tabs, rejection)
    case PrevTab => ExecutePrevTab(tabs, rejection)
    case FocusAddress => Outcome([], None)
    case OpenUrl => ExecuteOpenUrl(m.args, rejection)
    case ToContent => ForwardToContentScript(NameText(m.name), m.args, tabs, rejection)
    case Unknown => Outcome([], Some("Unknown command: " + NameText(m.name)))
  }

  /** The one message `handleCommand` posts: an ack when the action
      completed, else the error's message, both under the command's id. */
  function CommandReply(m: NativeMessage, outcome: Outcome): (reply: PortMessage)
    ensures reply.id == m.id
    ensures reply.Ack? <==> outcome.error.None?
    ensures reply.Ack? ==> reply.ok == Flag(true)
    ensures reply.Failure? ==> reply.message == outcome.error.value
  {
    if outcome.error.None? then Ack(m.id, Flag(true)) else Failure(m.id, outcome.error.value)
  }

  /** `handleCommand` as a whole: the calls it makes and the message it posts. */
  function HandleCommand(m: NativeMessage, tabs: seq<Tab>, rejection: Option<string>): (r: (seq<BrowserCall>, PortMessage))
    ensures |r.0| <= 1
    ensures r.1.id == m.id
    ensures r.1.Ack? ==> r.1.ok == Flag(true)
  {
    var outcome := Execute(Route(m.name), m, tabs, rejection);
    (outcome.calls, CommandReply(m, outcome))
  }

  /** Every command is answered exactly once, under its own id: with
      `ok: true` when its action did not fail, else with the failure's
      message. */
  lemma CommandAnswered(m: NativeMessage, tabs: seq<Tab>, rejection: Option<string>)
    ensures var outcome := Execute(Route(m.name), m, tabs, rejection);
      var (calls, reply) := HandleCommand(m, tabs, rejection);
      && calls == outcome.calls
      && reply.id == m.id
      && (reply == Ack(m.id, Flag(true)) <==> outcome.error.None?)
      && (reply.Failure? <==> outcome.error.Some?)
      && (reply.Failure? ==> reply.message == outcome.error.value)
  {
  }

  /** An unknown name makes no call and is answered with
      "Unknown command: <name>". */
  lemma UnknownCommandFails(m: NativeMessage, tabs: seq<Tab>, rejection: Option<string>)
    requires m.name.None? || m.name.value !in KnownCommands
    ensures HandleCommand(m, tabs, rejection) == ([], Failure(m.id, "Unknown command: " + NameText(m.name)))
  {
  }

  /** `open_url` without a URL makes no call and fails with
      "URL not provided"; with one it opens a tab on it. */
  lemma OpenUrlGuard(m: NativeMessage, tabs: seq<Tab>, rejection: Option<string>)
    requires m.name == Some("open_url")
    ensures UrlArg(m.args).None? ==>
      HandleCommand(m, tabs, rejection) == ([], Failure(m.id, "URL not provided"))
    ensures UrlArg(m.args).Some? ==>
      HandleCommand(m, tabs, rejection).0 == [Create(UrlArg(m.args))]
  {
  }

  /** A forwarded command fails with "No active tab found" when no tab is
      active; otherwise it sends the command and its arguments (`{}` when
      absent) to the active tab, and succeeds unless that send rejects. */
  lemma ForwardGuard(m: NativeMessage, tabs: seq<Tab>, rejection: Option<string>)
    requires m.name.Some? && m.name.value in ForwardedCommands
    ensures FirstActive(tabs).None? ==>
      HandleCommand(m, tabs, rejection) == ([], Failure(m.id, "No active tab found"))
    ensures FirstActive(tabs).Some? ==>
      var tab := tabs[FirstActive(tabs).value].id;
      var sent := SendToContent(tab, Content.Message(m.name.value, Some(ArgsOrEmpty(m.args))));
      HandleCommand(m, tabs, rejection)
        == ([sent], if rejection.None? then Ack(m.id, Flag(true))
                    else Failure(m.id, "Content script not ready: " + rejection.value))
  {
  }

  /** A command routed to the next-tab branch (`next_tab`) activates the next tab and is acknowledged with
      `ok: true`, also when no tab is active. */
  lemma NextTabCommand(m: NativeMessage, tabs: seq<Tab>)
    requires Route(m.name) == NextTab
    ensures var (calls, reply) := HandleCommand(m, tabs, None);
      && reply == Ack(m.id, Flag(true))
      && calls == if FirstActive(tabs).Some? then [Activate(tabs[NextIndex(FirstActive(tabs).value, |tabs|)].id)] else []
  {
  }

  /** A command routed to the previous-tab branch (`prev_tab` and
      `previous_tab`) activates the previous tab and
      is acknowledged with `ok: true`, also when no tab is active. */
  lemma PrevTabCommand(m: NativeMessage, tabs: seq<Tab>)
    requires Route(m.name) == PrevTab
    ensures var (calls, reply) := HandleCommand(m, tabs, None);
      && reply == Ack(m.id, Flag(true))
      && calls == if FirstActive(tabs).Some? then [Activate(tabs[PrevIndex(FirstActive(tabs).value, |tabs|)].id)] else []
  {
  }

  // ---------------------------------------------------------------------
  // The native message listener
  // ---------------------------------------------------------------------

  /** What one host message leads to: the browser calls and the message
      posted back, if any. `message` is None for a null message. */
  datatype Dispatch = Dispatch(calls: seq<BrowserCall>, reply: Option<PortMessage>)

  /** `message.type` under JavaScript truthiness. */
  function TypeOf(message: Option<NativeMessage>): (kind: Option<string>)
    ensures kind != Some("")
    ensures kind.Some? ==> message.Some? && message.value.kind == kind
  {
    if message.Some? && message.value.kind.Some? && message.value.kind.value != "" then message.value.kind
    else None
  }

  /** `handleNativeMessage`: a message without a type, or with a type other
      than "command" and "ping", is dropped; a ping is answered "pong" under
      its id; a command is answered exactly once, under its id. */
  function HandleNativeMessage(message: Option<NativeMessage>, tabs: seq<Tab>, rejection: Option<string>): (d: Dispatch)
    ensures var kind := TypeOf(message);
      && (kind.None? || (kind.value != "command" && kind.value != "ping") <==> d == Dispatch([], None))
      && (kind == Some("ping") ==> d == Dispatch([], Some(Ack(message.value.id, Text("pong")))))
      && (kind == Some("command") ==> d.reply.Some? && d.reply.value.id == message.value.id)
  {
    match TypeOf(message)
    case None => Dispatch([], None)
    case Some(kind) =>
      if kind == "command" then
        var (calls, reply) := HandleCommand(message.value, tabs, rejection);
        Dispatch(calls, Some(reply))
      else if kind == "ping" then Dispatch([], Some(Ack(message.value.id, Text("pong"))))
      else Dispatch([], None)
  }

  /** A command message for a forwarded name, with a tab active and the
      content script listening, is sent on and acknowledged with `ok: true`. */
  lemma ForwardedDispatch(m: NativeMessage, tabs: seq<Tab>)
    requires TypeOf(Some(m)) == Some("command")
    requires m.name.Some? && m.name.value in ForwardedCommands
    requires FirstActive(tabs).Some?
    ensures var sent := Content.Message(m.name.value, Some(ArgsOrEmpty(m.args)));
      HandleNativeMessage(Some(m), tabs, None)
        == Dispatch([SendToContent(tabs[FirstActive(tabs).value].id, sent)], Some(Ack(m.id, Flag(true))))
  {
    ForwardGuard(m, tabs, None);
  }

  // ---------------------------------------------------------------------
  // The script's state
  // ---------------------------------------------------------------------

  /** The background script's globals: whether `nativePort` is set, what has
      been posted on it, and the browser calls made. */
  class BackgroundScript {
    var connected: bool
    var posted: seq<PortMessage>
    var calls: seq<BrowserCall>

    /** Script start-up runs `connectNativeHost`; `connects` says whether
      `connectNative` returned a port. */
    constructor (connects: bool)
      ensures connected == connects && posted == [] && calls == []
    {
      connected := connects;
      posted := [];
      calls := [];
    }

    /** `connectNativeHost`: a port is stored when `connectNative` returns
      one; when it throws the previous value stays. */
    method Connect(connects: bool)
      modifies this`connected
      ensures connected == (connects || old(connected))
    {
      if connects {
        connected := true;
      }
    }

    /** The port's disconnect listener: `nativePort = null`. */
    method Disconnect()
      modifies this`connected
      ensures !connected
    {
      connected := false;
    }

    /** `sendAck`: posts `{type: "ack", id, ok}`, or nothing without a port. */
    method SendAck(id: Option<string>, ok: AckValue)
      modifies this`posted
      ensures posted == old(posted) + if connected then [Ack(id, ok)] else []
    {
      if !connected {
        return;
      }
      posted := posted + [Ack(id, ok)];
    }

    /** `sendError`: posts `{type: "error", id, message}`, or nothing without
      a port. */
    method SendError(id: Option<string>, message: string)
      modifies this`posted
      ensures posted == old(posted) + if connected then [Failure(id, message)] else []
    {
      if !connected {
        return;
      }
      posted := posted + [Failure(id, message)];
    }

    /** `handleCommand`: run the routed action, then ack or report its error. */
    method HandleCommandOn(m: NativeMessage, tabs: seq<Tab>, rejection: Option<string>)
      modifies this`posted, this`calls
      ensures var (made, reply) := HandleCommand(m, tabs, rejection);
        calls == old(calls) + made
        && posted == old(posted) + if connected then [reply] else []
    {
      var outcome := Execute(Route(m.name), m, tabs, rejection);
      calls := calls + outcome.calls;
      if outcome.error.None? {
        SendAck(m.id, Flag(true));
      } else {
        SendError(m.id, outcome.error.value);
      }
    }

    /** `handleNativeMessage`, the port's message listener. */
    method OnNativeMessage(message: Option<NativeMessage>, tabs: seq<Tab>, rejection: Option<string>)
      modifies this`posted, this`calls
      ensures var d := HandleNativeMessage(message, tabs, rejection);
        calls == old(calls) + d.calls
        && posted == old(posted) + if connected && d.reply.Some? then [d.reply.value] else []
    {
      var kind := TypeOf(message);
      if kind.None? {
        return;
      }
      if kind.value == "command" {
        HandleCommandOn(message.value, tabs, rejection);
      } else if kind.value == "ping" {
        SendAck(message.value.id, Text("pong"));
      }
    }
  }
}
