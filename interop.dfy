/** How the three components fit together: the commands the daemon's
    parser produces, the background script's routing of them, and the
    content script's handling of the ones forwarded to it. */
module Interop {
  import opened Common
  import Parser
  import Background
  import Content

  /** The message the host receives for a parsed command once the daemon
      has given it an id. */
  function ToNative(c: Parser.Command, id: string): Background.NativeMessage {
    Background.NativeMessage(Some(c.kind), Some(id), Some(c.name), Some(c.args))
  }

  /** Every name the parser can produce has a branch in the background
      script's router; none of them is the `prev_tab` spelling, so the
      router's previous-tab branch is reached through `previous_tab`. */
  lemma ParsedNamesRouted(transcript: string, confidence: real)
    requires Parser.ParseCommand(transcript, confidence).Some?
    ensures var c := Parser.ParseCommand(transcript, confidence).value;
      && c.name in Background.KnownCommands
      && Background.Route(Some(c.name)) != Background.Unknown
      && c.name != "prev_tab"
  {
    var c := Parser.ParseCommand(transcript, confidence).value;
    assert Parser.CommandNames <= Background.KnownCommands;
  }

  /** The names the background script forwards are exactly the names the
      content script's listener handles. */
  lemma ForwardedAreHandled()
    ensures Background.ForwardedCommands == Content.HandledCommands
  {
  }

  /** The two spellings of the previous-tab command route alike, and only
      `previous_tab` is a parser name. */
  lemma PreviousTabSpellings()
    ensures Background.Route(Some("prev_tab")) == Background.Route(Some("previous_tab")) == Background.PrevTab
    ensures "previous_tab" in Parser.CommandNames && "prev_tab" !in Parser.CommandNames
  {
  }

  /** A hint-click command from the parser carries its code under `hint`
      and nothing under `label`. */
  lemma ParsedHintClickArgs(transcript: string, confidence: real)
    requires Parser.ParseCommand(transcript, confidence).Some?
    requires Parser.ParseCommand(transcript, confidence).value.name == "hint_click"
    ensures var c := Parser.ParseCommand(transcript, confidence).value;
      c.kind == "command" && c.args.Keys == {"hint"} && "label" !in c.args
  {
  }

  /** A hint-click command without a `label` reaches the content script,
      which clicks nothing whatever hints are shown and answers `{ok: true}`;
      the host is acknowledged with `ok: true`. */
  lemma UnlabelledHintClickClicksNothing(c: Parser.Command, id: string,
                                         tabs: seq<Background.Tab>, hintMap: map<string, Content.ElementId>)
    requires c.kind == "command" && c.name == "hint_click" && "label" !in c.args
    requires Background.FirstActive(tabs).Some?
    ensures var d := Background.HandleNativeMessage(Some(ToNative(c, id)), tabs, None);
      var sent := Content.Message("hint_click", Some(c.args));
      && d.reply == Some(Background.Ack(Some(id), Background.Flag(true)))
      && d.calls == [Background.SendToContent(tabs[Background.FirstActive(tabs).value].id, sent)]
      && Content.LabelArg(sent.args).None?
      && Content.ClickTarget(hintMap, sent.args) == None
      && Content.Respond(sent.command, None) == Content.Ok
  {
    assert "hint_click" in Background.ForwardedCommands;
    Background.ForwardedDispatch(ToNative(c, id), tabs);
  }

  /** So a spoken "click …" clicks nothing, and the host is still told the
      command succeeded. */
  lemma SpokenHintClickClicksNothing(transcript: string, confidence: real, c: Parser.Command, id: string,
                                     tabs: seq<Background.Tab>, hintMap: map<string, Content.ElementId>)
    requires Parser.ParseCommand(transcript, confidence) == Some(c) && c.name == "hint_click"
    requires Background.FirstActive(tabs).Some?
    ensures var d := Background.HandleNativeMessage(Some(ToNative(c, id)), tabs, None);
      && d.reply == Some(Background.Ack(Some(id), Background.Flag(true)))
      && d.calls == [Background.SendToContent(tabs[Background.FirstActive(tabs).value].id,
                                              Content.Message("hint_click", Some(c.args)))]
      && Content.ClickTarget(hintMap, Some(c.args)) == None
  {
    ParsedHintClickArgs(transcript, confidence);
    UnlabelledHintClickClicksNothing(c, id, tabs, hintMap);
  }
}
