# Xavier voice browser control — a Dafny model of its core

Xavier turns spoken commands into browser actions. A local daemon normalises
each transcript and matches it against a fixed grammar. It sends the resulting
command to a Firefox extension over the native-messaging channel: a 4-byte
length followed by a UTF-8 JSON payload. The extension's background script
routes the command to a browser action or forwards it to the page's content
script. The content script scrolls the page, or shows lettered hints over
clickable elements and clicks one by its spoken label.

This project models four pieces of that system and proves their properties:

- `parser.dfy` (module `Parser`) models `daemon/core/parser.py`. It holds
  `normalize_transcript` as the function `Normalize`, the ordered
  first-match-wins rule table as `RuleAt`/`FirstMatch`, the
  `^click\s+([a-z\s]+)$` pattern as `MatchClick`, and `parse_command` as
  `ParseCommand`. The proofs cover idempotence, the shape of normalised text,
  rule precedence, the exact "no command" condition, the hint-click argument
  and the shape of every command (no `id`, verbatim `raw`, caller's
  confidence). `parser_scenarios.dfy` proves what the grammar makes of five
  concrete utterances: "Scroll Down!" at confidence 0.9 is `scroll_down`,
  "Go Back" is `back`, "click a f" is `hint_click` with hint "AF", and both
  "please scroll down now" and "click 5" are no command.
- `framing.dfy` (module `Framing`) models `daemon/native_messaging/framing.py`.
  The class `NativeChannel` holds the stdin bytes, a read position and the
  stdout bytes written so far. `ReadMessage` is proved equal to the
  specification function `ReadFrame` with its failure ladder: short header,
  zero length, truncated payload, undecodable payload. `SendMessage` appends
  exactly the length header and the payload, or raises. A lemma proves the
  round trip with any bytes before and after the frame.
- `content.dfy` (module `Content`) models `extension/content/content.js`.
  `GenerateHintLabel` is the do-while loop, proved equal to the bijective
  base-26 function `Label`, which is proved injective and onto the non-empty
  capital strings. The class `ContentScript` holds `hintMap`, `hintElements`
  and the overlay, with `ShowHints`, `HideHints`, `HintClick` and the
  `onMessage` listener.
- `background.dfy` (module `Background`) models
  `extension/background/background.js`: message dispatch, command routing,
  the tab actions and their modular index arithmetic, the `open_url` and
  forwarding guards, and the class `BackgroundScript` holding the native port
  flag and the posted messages.
- `interop.dfy` (module `Interop`) connects the three components.
  Every parser name has a branch in the router. The forwarded names are
  exactly the content script's names. A parsed `hint_click` carries its code
  under `hint`, but the content script reads `label`, so a spoken hint click
  reaches `hintClick` without a label. It clicks nothing, and the daemon is
  still acknowledged with `ok: true`. This mismatch is modelled as written.
  The router also accepts both `prev_tab` and `previous_tab`, while the parser
  only emits `previous_tab`.
- `common.dfy` (module `Common`) holds `Option`, the string-valued argument
  map, bytes and ASCII case conversion.

Three facts about the source that the model keeps:

- Normalisation keeps `\w`, which includes `_` and digits.
- The ping reply's `ok` is the string "pong"; a command's ack carries `true`.
- The length header uses the host's native byte order. The model fixes that
  order to little-endian.

Environment inputs are parameters:

- the page's visible clickable elements, as opaque ids;
- the current window's tab list, which the tab query always delivers;
- whether `connectNative` returns a port;
- whether an awaited browser action call rejects, and with which message;
- whether a content-script handler throws;
- the JSON codec, as an `encode` that may refuse a value and a `decode` that
  may refuse bytes. The round trip assumes `decode` inverts `encode` and that
  encoded text is never empty.

## Model

| member | source | states |
|---|---|---|
| Parser.StripPunctuation | daemon/core/parser.py:19 | deleting `[^\w\s]` leaves only word characters and whitespace, never lengthening the text |
| Parser.StripPunctuationAppend | daemon/core/parser.py:19 | punctuation deletion distributes over concatenation, so it decides each character on its own |
| Parser.StripPunctuationChar | daemon/core/parser.py:19 | a single character is kept exactly when it is a word character or whitespace, and deleted otherwise |
| Parser.SkipSpaces | daemon/core/parser.py:21 | the leading-whitespace trim leaves a suffix that does not start with whitespace, and only whitespace was dropped |
| Parser.Strip | daemon/core/parser.py:21 | `strip()` returns the slice of the text that starts after its leading whitespace run and is followed only by whitespace, with no whitespace at either end: exactly the text with its leading and trailing whitespace removed |
| Parser.TrimRight | daemon/core/parser.py:21 | the trailing-whitespace trim leaves a prefix that does not end with whitespace, and only whitespace was dropped |
| Parser.CollapseSpaces | daemon/core/parser.py:20 | `re.sub(r'\s+', ' ', s)` never lengthens the text; `WordsCollapse`, `CollapseSingleSpaces` and `CollapseChars` state what it keeps and what it produces |
| Parser.CollapseSingleSpaces | daemon/core/parser.py:20 | after `\s+` becomes one space, no two spaces are adjacent |
| Parser.CollapseChars | daemon/core/parser.py:20 | collapsing turns every whitespace character into a plain space |
| Parser.NormalizeStepsNormalize | daemon/core/parser.py:18-21 | lower-casing, deleting punctuation, collapsing and stripping always end in normal form, and give the words of the punctuation-free text joined by single spaces |
| Parser.Normalize | daemon/core/parser.py:11-21 | `normalize_transcript` always returns normal form (only lower-case word characters and single spaces, no space at either end), and its result is `' '.join(text.split())` of the lower-cased text with punctuation deleted |
| Parser.Words | daemon/core/parser.py:20-21 | the whitespace-separated words of a text, as `str.split()` gives them: each non-empty and free of whitespace, the first starting with the text's first character when that is not whitespace |
| Parser.WordsStrip | daemon/core/parser.py:21 | `strip()` keeps the words of the text |
| Parser.WordsCollapse | daemon/core/parser.py:20 | collapsing whitespace runs to one space keeps the words of the text |
| Parser.NormalizedIsJoin | daemon/core/parser.py:11-21 | a text in normal form is its own words joined by single spaces, so normal form is decided by the words alone |
| Parser.WordsOfJoin | daemon/core/parser.py:20-21 | splitting words joined by single spaces gives the same words back |
| Parser.NormalizeFixesNormalized | daemon/core/parser.py:18-21 | text already in normal form is left unchanged by normalisation |
| Parser.NormalizeIdempotent | daemon/core/parser.py:11-21 | normalising twice is the same as normalising once |
| Parser.MatchClick | daemon/core/parser.py:95 | `re.match(r'^click\s+([a-z\s]+)$', t)`: a match means the text is "click", whitespace, then a non-empty captured run of letters and whitespace ending the text |
| Parser.MatchClickNormalized | daemon/core/parser.py:95 | on normalised text the pattern matches exactly "click " plus a non-empty run of letters and spaces, and captures that run |
| Parser.RemoveSpaces | daemon/core/parser.py:97 | `replace(' ', '')` leaves no space, never lengthens, keeps a leading non-space first, and on letters and spaces leaves letters only |
| Parser.RemoveSpacesAppend | daemon/core/parser.py:97 | removing spaces distributes over concatenation |
| Parser.RemoveSpacesChar | daemon/core/parser.py:97 | a single character is deleted exactly when it is a space |
| Parser.HintCode | daemon/core/parser.py:97 | `replace(' ', '').upper()` leaves no spaces and no lower-case letters, never lengthens, and turns letters and spaces into capitals only |
| Parser.HintCodeAppend | daemon/core/parser.py:97 | the code of a concatenation is the concatenation of the codes |
| Parser.HintCodeChar | daemon/core/parser.py:97 | a space contributes nothing to the code, and any other character its upper-case form; with `HintCodeAppend` this gives the code of every group, letters upper-cased in order |
| Parser.HintCodeLetters | daemon/core/parser.py:97 | the hint code built from a normalised capture is a non-empty string of capitals A-Z |
| Parser.RuleAt | daemon/core/parser.py:44-102 | the 17 rules in source order: only rule 15 is the click pattern, and every other rule has phrases, all among the accepted phrases, and names a grammar command other than `hint_click` |
| Parser.FirstMatchFrom | daemon/core/parser.py:44-105 | trying the rules from index i on yields a grammar name with empty args, or `hint_click` with the single key `hint` |
| Parser.FirstMatch | daemon/core/parser.py:44-105 | the whole cascade yields a grammar name with empty args, or `hint_click` with the single key `hint` |
| Parser.FirstMatchWins | daemon/core/parser.py:44-105 | when rule k fires and no earlier rule does, the cascade answers rule k's production |
| Parser.FirstMatchReaches | daemon/core/parser.py:44-105 | if any rule fires, the cascade answers something |
| Parser.FirstMatchMisses | daemon/core/parser.py:104-105 | if no rule fires, the cascade answers no command |
| Parser.MatchedRule | daemon/core/parser.py:44-105 | every answer is the production of the first rule that fires |
| Parser.RuleProductions | daemon/core/parser.py:45-102 | every rule yields one of the 17 grammar names; only the click rule yields `hint_click`, and all other rules give empty args |
| Parser.PhraseRule | daemon/core/parser.py:45-102 | every accepted phrase belongs to an exact-match rule of the table |
| Parser.ParseCommand | daemon/core/parser.py:24-118 | every parsed command has type "command", no id, the caller's confidence, the verbatim transcript as raw, a grammar name, and empty args unless it is a hint click with the single key `hint` |
| Parser.TableMissIff | daemon/core/parser.py:44-105 | the table misses exactly when the text is no exact phrase and does not match the click pattern |
| Parser.ParseCommandNoneIff | daemon/core/parser.py:41-105 | parsing yields None exactly when the normalised transcript is no exact phrase and does not match the click pattern |
| Parser.RulesBeforeClickMiss | daemon/core/parser.py:44-93 | none of the 15 rules before the click rule fires on text starting "click " |
| Parser.TableClick | daemon/core/parser.py:94-98 | text starting "click " that matches the pattern is decided by the click rule |
| Parser.ClickRuleApplies | daemon/core/parser.py:95-98 | the click rule yields `hint_click` with the capture's letters, spaces removed, upper-cased |
| Parser.ParseHintClick | daemon/core/parser.py:95-98 | a normalised "click" plus letters and spaces parses as `hint_click` whose `hint` is the capture without spaces, upper-cased: non-empty and over A-Z |
| Parser.HintClickNeedsPattern | daemon/core/parser.py:94-98 | `hint_click` is produced only from such a transcript |
| Parser.ClickIsNoPhrase | daemon/core/parser.py:45-93 | no exact phrase starts with "click " |
| ParserScenarios.ScrollDownScenario | daemon/core/parser.py:58-59 | "Scroll Down!" at confidence 0.9 is `scroll_down` with empty args and raw "Scroll Down!" |
| ParserScenarios.GoBackScenario | daemon/core/parser.py:45-46 | "Go Back" is `back` with empty args |
| ParserScenarios.ClickAFScenario | daemon/core/parser.py:95-98 | "click a f" is `hint_click` with hint "AF" |
| ParserScenarios.PleaseScrollDownNowScenario | daemon/core/parser.py:104-105 | "please scroll down now" is no command |
| ParserScenarios.ClickDigitScenario | daemon/core/parser.py:95-105 | "click 5" is no command: digits fall through the click pattern |
| Framing.DecodeEncodeLength | daemon/native_messaging/framing.py:55 | unpacking a packed 32-bit length gives the length back |
| Framing.EncodeLength | daemon/native_messaging/framing.py:55 | `struct.pack('=I', n)` for n < 2^32 is four bytes, the base-256 digits of n, least significant first |
| Framing.DecodeLength | daemon/native_messaging/framing.py:25 | `struct.unpack('=I', h)` of four bytes is below 2^32 |
| Framing.EncodeDecodeLength | daemon/native_messaging/framing.py:25 | every 4-byte header is the packing of exactly the length it unpacks to |
| Framing.Frame | daemon/native_messaging/framing.py:54-58 | a frame is 4 + len bytes; its header unpacks to len and the rest is the payload |
| Framing.ReadFrame | daemon/native_messaging/framing.py:14-45 | a read never moves the position backwards or past the end of input |
| Framing.ShortHeaderGivesNothing | daemon/native_messaging/framing.py:20-23 | fewer than 4 bytes left gives no message and exhausts the input |
| Framing.ZeroLengthGivesNothing | daemon/native_messaging/framing.py:27-29 | a zero header gives no message and consumes only the header |
| Framing.TruncatedGivesNothing | daemon/native_messaging/framing.py:31-34 | a header announcing more bytes than remain gives no message and exhausts the input |
| Framing.FrameAt | daemon/native_messaging/framing.py:54-58 | inside any stream, a frame's header and payload sit at the expected offsets |
| Framing.BadPayloadGivesNothing | daemon/native_messaging/framing.py:36-45 | a complete frame whose payload does not decode gives no message and consumes the whole frame |
| Framing.ReadFrameRoundTrip | daemon/native_messaging/framing.py:25-38 | reading the frame written for m gives m and consumes exactly 4 + len bytes, whatever surrounds it |
| Framing.TruncatedScenario | daemon/native_messaging/framing.py:31-34 | a header announcing 10 bytes followed by 3 gives no message |
| Framing.NativeChannel.constructor | daemon/native_messaging/framing.py:20 | a fresh channel reads from position 0 and has written nothing |
| Framing.NativeChannel.Read | daemon/native_messaging/framing.py:20 | `read(n)` returns the next min(n, remaining) bytes and advances past them |
| Framing.NativeChannel.ReadMessage | daemon/native_messaging/framing.py:14-45 | `read_message` returns what `ReadFrame` says and leaves the position where `ReadFrame` says; it never raises |
| Framing.NativeChannel.SendMessage | daemon/native_messaging/framing.py:48-65 | unserialisable or over-long payloads raise and write nothing; otherwise exactly header + payload is appended |
| Framing.Loopback | daemon/native_messaging/framing.py:14-59 | two messages sent in order are read back in order by the other end |
| Content.Letter | extension/content/content.js:255 | `fromCharCode(65 + d)` is the capital whose offset from 'A' is d |
| Content.Label | extension/content/content.js:248-260 | every hint label is a non-empty string over A-Z |
| Content.ValueOfLabel | extension/content/content.js:248-260 | the label of index i is the bijective base-26 numeral of i + 1 |
| Content.LabelOfValue | extension/content/content.js:248-260 | every non-empty capital string is the label of exactly one index |
| Content.LabelInjective | extension/content/content.js:250-260 | distinct indices get distinct labels |
| Content.LabelExamples | extension/content/content.js:248-260 | 0, 25, 26, 701 and 702 are labelled A, Z, AA, ZZ and AAA |
| Content.GenerateHintLabel | extension/content/content.js:250-260 | the do-while loop terminates and returns `Label(index)` |
| Content.KeyInjective | extension/content/content.js:199 | lower-cased labels of distinct indices differ, so `hintMap` keys never collide |
| Content.Key | extension/content/content.js:199 | the `hintMap` key `label.toLowerCase()` is a non-empty string of lower-case letters |
| Content.HintTable | extension/content/content.js:173-201 | the map built by one `hintMap.set` per element, in order, maps only to visible elements |
| Content.Badges | extension/content/content.js:173-201 | `hintElements` holds one badge per element, no two reading the same label |
| Content.HintTableKeys | extension/content/content.js:173-201 | the table's keys are exactly the lower-cased labels of the element indices |
| Content.HintTableAt | extension/content/content.js:173-201 | the key of element k maps to element k; no later element overwrites it |
| Content.HintTableSize | extension/content/content.js:173-201 | the table has exactly one entry per visible element |
| Content.HintTableComplete | extension/content/content.js:173-201 | the table has one entry per element, and the key of element k maps to element k |
| Content.HintTableLookup | extension/content/content.js:173-201 | every key of the table belongs to some element index and maps to that element |
| Content.RemoveJsSpaces | extension/content/content.js:232 | `replace(/\s+/g, '')` leaves no whitespace, adds no capitals and changes space-free text not at all |
| Content.RemoveJsSpacesAppend | extension/content/content.js:232 | removing whitespace distributes over concatenation |
| Content.RemoveJsSpacesChar | extension/content/content.js:232 | a single character is deleted exactly when it is JavaScript whitespace |
| Content.NormalizeLabel | extension/content/content.js:232 | `label.toLowerCase().replace(/\s+/g, '')` has neither whitespace nor capitals |
| Content.NormalizeLabelAppend | extension/content/content.js:232 | the key of a concatenation is the concatenation of the keys |
| Content.NormalizeLabelChar | extension/content/content.js:232 | whitespace contributes nothing to the key, and any other character its lower-case form; with `NormalizeLabelAppend` this gives the key of every spoken label |
| Content.LabelArg | extension/content/content.js:225-230 | `args?.label` under JavaScript truthiness: never the empty string, and present only when `args` has it |
| Content.ClickTarget | extension/content/content.js:225-238 | a missing or empty label clicks nothing whatever the table holds, and a clicked element is always one the table maps to |
| Content.NormalizeLabelOfLabel | extension/content/content.js:232 | a displayed label normalises to its own `hintMap` key |
| Content.ClickByLabel | extension/content/content.js:232-242 | over a shown table, a label normalising to element k's key clicks element k |
| Content.ClickOnlyShown | extension/content/content.js:232-242 | over a shown table, only a shown element is clicked, and only by a label normalising to its key |
| Content.PageEffectOf | extension/content/content.js:26-104 | exactly the handled commands other than the three hint commands scroll the page |
| Content.Respond | extension/content/content.js:26-73 | the answer is `{ok: true}` exactly for a handled command whose handler did not throw, and `{error: "Unknown command"}` for an unhandled one |
| Content.ContentScript.constructor | extension/content/content.js:14-15 | the script starts with an empty `hintMap` and `hintElements` |
| Content.ContentScript.HideHints | extension/content/content.js:209-219 | afterwards `hintMap` and `hintElements` are empty and the overlay is gone; nothing else changes |
| Content.ContentScript.ShowHints | extension/content/content.js:109-204 | prior hints are discarded; there are n badges and n keys, and the key of `Label(k)` maps to element k with a badge reading `Label(k)` |
| Content.ContentScript.HintClick | extension/content/content.js:224-245 | no label or an unknown key leaves the state unchanged; otherwise the mapped element is clicked once and the hints are cleared |
| Content.ContentScript.OnMessage | extension/content/content.js:20-74 | unknown commands answer `{error: "Unknown command"}`, throwing handlers answer their message, others answer `{ok: true}` with the handler's effect |
| Background.FirstActive | extension/background/background.js:178-181 | the answer is the first active tab's index, or None when no tab is active |
| Background.NextIndex | extension/background/background.js:183 | `(i+1) % n` is in `[0, n)` and is the next index, wrapping from the last to the first |
| Background.PrevIndex | extension/background/background.js:194 | `(i-1+n) % n` is in `[0, n)` and is the previous index, wrapping from the first to the last |
| Background.PrevOfNext | extension/background/background.js:177-197 | going to the next tab and then back returns to the same index |
| Background.NextOfPrev | extension/background/background.js:177-197 | going to the previous tab and then forward returns to the same index |
| Background.Route | extension/background/background.js:74-130 | exactly the nine page commands are forwarded; `prev_tab` and `previous_tab` both select the prev-tab action, and only `next_tab` the next-tab one; a name is unknown exactly when it has no branch |
| Background.OnActiveTab | extension/background/background.js:142-174 | back, forward, reload and close-tab call the browser once on the active tab and fail only if that call rejects; with no active tab they do nothing and succeed |
| Background.ExecuteNextTab | extension/background/background.js:177-186 | the tab after the first active one is activated, the first after the last; with no active tab nothing happens |
| Background.ExecutePrevTab | extension/background/background.js:188-197 | the tab before the first active one is activated, the last before the first; with no active tab nothing happens |
| Background.ExecuteOpenUrl | extension/background/background.js:208-215 | a missing or empty url fails with "URL not provided" and calls nothing; otherwise one tab is created on the url |
| Background.ForwardToContentScript | extension/background/background.js:220-239 | with no active tab it fails with "No active tab found"; otherwise it sends the name and `args` or `{}` to that tab, and fails exactly when the send rejects |
| Background.Execute | extension/background/background.js:74-130 | every branch makes at most one browser call; an unknown name fails with "Unknown command: <name>"; a failure without a call comes only from the unknown, `open_url` and forwarding branches |
| Background.CommandReply | extension/background/background.js:132-135 | the reply carries the command's id, and is an ack `ok: true` exactly when the action did not fail, else an error with the failure's message |
| Background.HandleCommand | extension/background/background.js:68-137 | one command makes at most one browser call and gets one reply under its id; an ack always carries `ok: true` |
| Background.CommandAnswered | extension/background/background.js:68-137 | each command gets exactly one reply under its own id: an ack `ok: true` when the action succeeded, else an error with the failure's message |
| Background.UnknownCommandFails | extension/background/background.js:128-129 | an unknown name makes no call and is answered "Unknown command: <name>" |
| Background.OpenUrlGuard | extension/background/background.js:208-215 | `open_url` without a URL makes no call and fails with "URL not provided"; with one it opens a tab on it |
| Background.ForwardGuard | extension/background/background.js:220-239 | with no active tab a forwarded command fails with "No active tab found"; otherwise it sends the name and `args` or `{}` to that tab, and is acked unless the send rejects |
| Background.NextTabCommand | extension/background/background.js:97-99 | a next-tab command activates the next tab and is acked `ok: true` |
| Background.PrevTabCommand | extension/background/background.js:101-104 | a previous-tab command activates the previous tab and is acked `ok: true` |
| Background.TypeOf | extension/background/background.js:46 | `message.type` under JavaScript truthiness: never the empty string, and present only on a message that has it |
| Background.HandleNativeMessage | extension/background/background.js:43-63 | a message with no type or an unknown type is dropped; a ping is answered "pong" under its id; a command is answered once under its id |
| Background.ForwardedDispatch | extension/background/background.js:51-54 | a forwarded command, with a tab active and the send succeeding, is sent on and acked `ok: true` |
| Background.BackgroundScript.constructor | extension/background/background.js:273-274 | at start-up the port is set exactly when `connectNative` returns one, and nothing has been posted |
| Background.BackgroundScript.Connect | extension/background/background.js:18-38 | a returned port is stored; when `connectNative` throws, the previous port stays |
| Background.BackgroundScript.Disconnect | extension/background/background.js:26-28 | the disconnect listener clears the port |
| Background.BackgroundScript.SendAck | extension/background/background.js:244-255 | one ack is posted when there is a port, and nothing otherwise |
| Background.BackgroundScript.SendError | extension/background/background.js:260-271 | one error is posted when there is a port, and nothing otherwise |
| Background.BackgroundScript.HandleCommandOn | extension/background/background.js:68-137 | the routed action's calls are made and exactly the reply `HandleCommand` specifies is posted, if there is a port |
| Background.BackgroundScript.OnNativeMessage | extension/background/background.js:43-63 | the listener makes the calls and posts the reply that `HandleNativeMessage` specifies, if there is a port |
| Interop.ParsedNamesRouted | extension/background/background.js:74-130 | every name the parser produces has a branch in the router, and none is `prev_tab` |
| Interop.ForwardedAreHandled | extension/content/content.js:26-62 | the names the router forwards are exactly the names the content script handles |
| Interop.PreviousTabSpellings | extension/background/background.js:101-102 | `prev_tab` and `previous_tab` route alike, and only `previous_tab` is a parser name |
| Interop.ParsedHintClickArgs | daemon/core/parser.py:97-98 | a parsed hint click carries its code under `hint` and has no `label` |
| Interop.UnlabelledHintClickClicksNothing | extension/content/content.js:224-230 | a hint click without `label` is forwarded and acked `ok: true`, and clicks nothing whatever hints are shown |
| Interop.SpokenHintClickClicksNothing | extension/content/content.js:224-230 | so a spoken "click …" clicks nothing while the daemon is told it succeeded |

## Left out

- `daemon/main.py` is not part of this model: process start-up, logging set-up, sleeping, the one-shot loop and `uuid4` id generation. The parser leaves `id` absent for that caller to fill.
- `daemon/core/stt_interface.py` is not part of this model. It wraps the speech recogniser and reports a fixed confidence of 1.0; here confidence is a parameter passed through unchanged.
- Parser.ParseCommand: `parse_command`'s default `confidence=1.0` is made explicit; callers that omit it, as `daemon/main.py` does, pass 1.0.
- The `daemon/platform/` host-registration files are not part of this model. They only register the host with the operating system, and the Windows one is a stub.
- JSON serialisation and UTF-8 encoding and decoding are foreign library calls. They are the parameter `Codec`: an `encode` that may refuse a value and a `decode` that may refuse bytes. No JSON parser is modelled.
- In the source, a payload holding JSON `null` makes `json.loads` return Python `None`, which the caller cannot tell apart from the failure paths. The model keeps the two apart: such a frame makes `ReadMessage` return `Some(m)` for the decoded value.
- `struct '=I'` uses the host's native byte order. The model fixes it to little-endian.
- Python's Unicode `\w`, `\s` and `str.lower`, and JavaScript's `toLowerCase`, are restricted to ASCII. `\w` keeps letters, digits and `_`. Non-ASCII characters are treated as neither word nor whitespace, so normalisation deletes them. Python's `\s` includes the ASCII separators 0x1C-0x1F; JavaScript's does not.
- The stdout flush, a failing read on stdin (which `read_message`'s `except Exception` turns into None) and a failing write on stdout are not modelled. The streams are byte sequences: reads deliver what is there and writes always succeed.
- Python `logger` calls are not modelled: the unmatched-transcript warning in the parser and the debug, warning and error lines of `read_message` and `send_message`. They do not change what is returned.
- The DOM is not modelled: the selector query, visibility filtering, overlay styling and element creation. The visible clickable elements are an input sequence of opaque ids, and `element.click()` is recorded in `clicked`.
- Scrolling is recorded as an effect. `pageUp` and `pageDown` scroll by 0.9 of the window height, which is floating point and left symbolic. `jumpBottom`'s target height is left symbolic.
- Content.ContentScript.OnMessage: a handler that throws is modelled as throwing before it changes any state. Where a real DOM call would throw part-way is not captured.
- Command argument values are strings. A non-string `label` or `url` and the exceptions `toLowerCase` would throw on it are not modelled.
- The background script's browser API is not modelled: `browser.tabs.*`, `connectNative`, `postMessage` and `tabs.sendMessage`. The `browser.tabs.query` result is an input, the current window's tab list, and that query never fails in the model. In the source a rejected query ends in the error reply with its message; the model does not produce that reply. Every other awaited call is recorded in the outcome, and whether it rejects is a parameter. An exception thrown by `postMessage` itself is not modelled.
- The content script's response does not flow back into the background script. A `{error: …}` response still counts as a successful send there, as in the source.
- Concurrency and timing are not modelled: `async`/`await` interleaving, the unawaited `handleCommand` call, the 3-second reconnect timer and all `console` logging.
- `executeFocusAddress` does nothing in the source. It is modelled as an action with no calls that succeeds.
