/** The content script's page-level half: hint labels in bijective base 26,
    the hint table built over the page's visible clickable elements, clicking
    by spoken label, and the dispatch of commands forwarded by the background
    script. DOM elements are opaque handles; the page's list of visible
    clickable elements is an input; scrolling and clicking are recorded as
    effects rather than performed. */
module Content {
  import opened Common

  // ---------------------------------------------------------------------
  // Hint labels: A..Z, AA..ZZ, AAA..
  // ---------------------------------------------------------------------

  /** `String.fromCharCode(65 + d)`: the letter for one base-26 digit. */
  function Letter(d: nat): (c: char)
    requires d < 26
    ensures IsUpper(c) && c as int - 65 == d
  {
    (65 + d) as char
  }

  predicate AllUpper(s: string) {
    forall k :: 0 <= k < |s| ==> IsUpper(s[k])
  }

  /** The label of the hint with index `i`: its last letter is digit
      `i % 26`, and the letters before it label `i / 26 - 1` when that is
      not negative. */
  function Label(i: nat): (s: string)
    ensures |s| > 0 && AllUpper(s)
    decreases i
  {
    if i < 26 then [Letter(i)] else Label(i / 26 - 1) + [Letter(i % 26)]
  }

  /** The numeric value of one letter: A is 1 and Z is 26. */
  function Digit(c: char): (d: nat)
    requires IsUpper(c)
    ensures 1 <= d <= 26
  {
    c as int - 64
  }

  /** Reading a string of capitals as a bijective base-26 numeral. */
  function Value(s: string): nat
    requires AllUpper(s)
  {
    if s == [] then 0 else 26 * Value(s[..|s| - 1]) + Digit(s[|s| - 1])
  }

  /** The label of index `i` is the numeral of `i + 1`. */
  lemma {:induction false} ValueOfLabel(i: nat)
    ensures Value(Label(i)) == i + 1
    decreases i
  {
    var s := Label(i);
    if i < 26 {
      assert s[..|s| - 1] == [];
    } else {
      ValueOfLabel(i / 26 - 1);
      assert s[..|s| - 1] == Label(i / 26 - 1);
      assert s[|s| - 1] == Letter(i % 26);
    }
  }

  /** Every non-empty string of capitals is the label of exactly the index
      its numeral names, less one: no label is skipped. */
  lemma {:induction false} LabelOfValue(s: string)
    requires |s| > 0 && AllUpper(s)
    ensures Value(s) >= 1 && Label(Value(s) - 1) == s
    decreases |s|
  {
    var p, c := s[..|s| - 1], s[|s| - 1];
    assert s == p + [c];
    if p == [] {
      assert Value(s) == Digit(c);
      assert Letter(Digit(c) - 1) == c;
    } else {
      LabelOfValue(p);
      var i := Value(s) - 1;
      assert i == 26 * Value(p) + (Digit(c) - 1);
      assert i / 26 == Value(p) && i % 26 == Digit(c) - 1;
      assert Letter(Digit(c) - 1) == c;
    }
  }

  /** Distinct indices get distinct labels. */
  lemma LabelInjective(i: nat, j: nat)
    requires Label(i) == Label(j)
    ensures i == j
  {
    ValueOfLabel(i);
    ValueOfLabel(j);
  }

  /** The numbering the source's comment promises. */
  lemma LabelExamples()
    ensures Label(0) == "A" && Label(25) == "Z"
    ensures Label(26) == "AA" && Label(701) == "ZZ" && Label(702) == "AAA"
  {
    assert Label(25) == "Z";
    assert Label(26) == Label(0) + "A";
    assert Label(701) == Label(25) + "Z";
    assert Label(702) == Label(26) + "A";
  }

  /** `generateHintLabel`: a do-while loop that prepends the letter for
      `num % 26` and moves to `floor(num / 26) - 1` until that is negative. */
  method GenerateHintLabel(index: nat) returns (hint: string)
    ensures hint == Label(index)
  {
    hint := "";
    var num: int := index;
    while true
      invariant 0 <= num
      invariant Label(index) == Label(num) + hint
      decreases num
    {
      var digit := Letter(num % 26);
      if num >= 26 {
        assert Label(num) == Label(num / 26 - 1) + [digit];
        assert Label(num / 26 - 1) + [digit] + hint == Label(num / 26 - 1) + ([digit] + hint);
      }
      hint := [digit] + hint;
      num := num / 26 - 1;
      if num < 0 {
        break;
      }
    }
  }

  // ---------------------------------------------------------------------
  // The hint table
  // ---------------------------------------------------------------------

  /** An opaque handle on a DOM element. */
  type ElementId = nat

  /** One overlay badge: a div whose text is the hint's label. */
  datatype Badge = Badge(text: string)

  /** The `hintMap` key of the hint with index `k`: `label.toLowerCase()`,
      a non-empty string of lower-case letters. */
  function Key(k: nat): (key: string)
    ensures |key| > 0 && forall j :: 0 <= j < |key| ==> IsLower(key[j])
  {
    LowerString(Label(k))
  }

  /** The `hintMap` that `showHints` builds over `elements`, one `set` per
      element in order. */
  function HintTable(elements: seq<ElementId>): (table: map<string, ElementId>)
    ensures table.Values <= set x | x in elements
    decreases |elements|
  {
    if elements == [] then map[]
    else
      var n := |elements| - 1;
      var earlier := HintTable(elements[..n]);
      var table := earlier[Key(n) := elements[n]];
      assert table.Values <= set x | x in elements by {
        forall v | v in table.Values ensures v in elements {
          var key :| key in table && table[key] == v;
          if key != Key(n) {
            assert v in earlier.Values;
          }
        }
      }
      table
  }

  /** The `hintElements` that `showHints` builds over `n` elements: `n`
      badges, no two of them reading the same label. */
  function Badges(n: nat): (badges: seq<Badge>)
    ensures |badges| == n
    ensures forall i, j :: 0 <= i < j < n ==> badges[i] != badges[j]
  {
    assert forall i, j :: 0 <= i < j < n ==> Label(i) != Label(j) by {
      forall i, j | 0 <= i < j < n ensures Label(i) != Label(j) {
        if Label(i) == Label(j) {
          LabelInjective(i, j);
        }
      }
    }
    seq(n, k requires 0 <= k < n => Badge(Label(k)))
  }

  /** One more element adds the badge of the next label at the end. */
  lemma BadgesGrow(n: nat)
    ensures Badges(n + 1) == Badges(n) + [Badge(Label(n))]
  {
  }

  /** Distinct indices get distinct keys, even after lower-casing. */
  lemma KeyInjective(i: nat, j: nat)
    requires Key(i) == Key(j)
    ensures i == j
  {
    LowerInjectiveOnUpper(Label(i), Label(j));
    LabelInjective(i, j);
  }

  /** The keys of the table are exactly the keys of the elements' indices. */
  lemma {:induction false} HintTableKeys(elements: seq<ElementId>, key: string)
    ensures key in HintTable(elements) <==> exists k :: 0 <= k < |elements| && key == Key(k)
    decreases |elements|
  {
    if elements != [] {
      var n := |elements| - 1;
      HintTableKeys(elements[..n], key);
    }
  }

  /** The key of element `k` maps to element `k`: no later element
      overwrites it. */
  lemma {:induction false} HintTableAt(elements: seq<ElementId>, k: nat)
    requires k < |elements|
    ensures Key(k) in HintTable(elements) && HintTable(elements)[Key(k)] == elements[k]
    decreases |elements|
  {
    var n := |elements| - 1;
    if k < n {
      HintTableAt(elements[..n], k);
      if Key(n) == Key(k) {
        KeyInjective(n, k);
      }
    }
  }

  /** No two elements share a key: the table has one entry per element. */
  lemma {:induction false} HintTableSize(elements: seq<ElementId>)
    ensures |HintTable(elements)| == |elements|
    decreases |elements|
  {
    if elements != [] {
      var n := |elements| - 1;
      HintTableSize(elements[..n]);
      HintTableKeys(elements[..n], Key(n));
      if Key(n) in HintTable(elements[..n]) {
        var k :| 0 <= k < n && Key(n) == Key(k);
        KeyInjective(n, k);
      }
    }
  }

  /** The table has one entry per element, and the key of element `k` maps
      to element `k`. */
  lemma HintTableComplete(elements: seq<ElementId>)
    ensures |HintTable(elements)| == |elements|
    ensures forall k :: 0 <= k < |elements| ==>
      Key(k) in HintTable(elements) && HintTable(elements)[Key(k)] == elements[k]
  {
    HintTableSize(elements);
    forall k | 0 <= k < |elements|
      ensures Key(k) in HintTable(elements) && HintTable(elements)[Key(k)] == elements[k]
    {
      HintTableAt(elements, k);
    }
  }

  /** Every key of the table is the key of some element's index, and maps
      to that element. */
  lemma HintTableLookup(elements: seq<ElementId>, key: string) returns (k: nat)
    requires key in HintTable(elements)
    ensures k < |elements| && key == Key(k) && HintTable(elements)[key] == elements[k]
  {
    HintTableKeys(elements, key);
    k :| 0 <= k < |elements| && key == Key(k);
    HintTableAt(elements, k);
  }

  // ---------------------------------------------------------------------
  // Clicking by label
  // ---------------------------------------------------------------------

  /** JavaScript's `\s`: ASCII tab to carriage return, space, and the
      Unicode space separators, line and paragraph separators and BOM. */
  predicate IsJsSpace(c: char) {
    var n := c as int;
    n == 32 || 9 <= n <= 13 || n == 0xA0 || n == 0x1680 || 0x2000 <= n <= 0x200A
    || n == 0x2028 || n == 0x2029 || n == 0x202F || n == 0x205F || n == 0x3000 || n == 0xFEFF
  }

  /** `replace(/\s+/g, '')`: every whitespace character removed. */
  function RemoveJsSpaces(s: string): (r: string)
    ensures |r| <= |s|
    ensures forall k :: 0 <= k < |r| ==> !IsJsSpace(r[k])
    ensures (forall k :: 0 <= k < |s| ==> !IsUpper(s[k])) ==> forall k :: 0 <= k < |r| ==> !IsUpper(r[k])
    ensures (forall k :: 0 <= k < |s| ==> !IsJsSpace(s[k])) ==> r == s
  {
    if s == [] then []
    else (if IsJsSpace(s[0]) then [] else [s[0]]) + RemoveJsSpaces(s[1..])
  }

  /** The `hintMap` key a spoken label is looked up under; it has neither
      whitespace nor capitals. */
  function NormalizeLabel(spoken: string): (key: string)
    ensures forall k :: 0 <= k < |key| ==> !IsJsSpace(key[k]) && !IsUpper(key[k])
  {
    RemoveJsSpaces(LowerString(spoken))
  }

  /** Removing whitespace works character by character: it distributes over
      concatenation, and `RemoveJsSpacesChar` gives the single character case. */
  lemma {:induction false} RemoveJsSpacesAppend(a: string, b: string)
    ensures RemoveJsSpaces(a + b) == RemoveJsSpaces(a) + RemoveJsSpaces(b)
  {
    if a == [] {
      assert a + b == b;
    } else {
      assert (a + b)[0] == a[0];
      assert (a + b)[1..] == a[1..] + b;
      RemoveJsSpacesAppend(a[1..], b);
    }
  }

  /** A single character is kept exactly when it is not whitespace. */
  lemma RemoveJsSpacesChar(c: char)
    ensures RemoveJsSpaces([c]) == if IsJsSpace(c) then [] else [c]
  {
    assert [c][1..] == [];
  }

  /** The key of a concatenation is the concatenation of the keys; with
      `NormalizeLabelChar` this determines the key of every spoken label. */
  lemma NormalizeLabelAppend(a: string, b: string)
    ensures NormalizeLabel(a + b) == NormalizeLabel(a) + NormalizeLabel(b)
  {
    LowerAppend(a, b);
    RemoveJsSpacesAppend(LowerString(a), LowerString(b));
  }

  /** A single character contributes nothing if it is whitespace, and its
      lower-case form otherwise. */
  lemma NormalizeLabelChar(c: char)
    ensures NormalizeLabel([c]) == if IsJsSpace(c) then [] else [ToLower(c)]
  {
    assert LowerString([c]) == [ToLower(c)];
    RemoveJsSpacesChar(ToLower(c));
  }

  /** `args?.label` under JavaScript truthiness: an absent label and the
      empty string are both no label. */
  function LabelArg(args: Option<Args>): (spoken: Option<string>)
    ensures spoken != Some("")
    ensures spoken.Some? ==> args.Some? && "label" in args.value && args.value["label"] == spoken.value
  {
    if args.Some? && "label" in args.value && args.value["label"] != "" then Some(args.value["label"])
    else None
  }

  /** The element `hintClick(args)` clicks, if any: never one without a
      label, and always one the table maps to. */
  function ClickTarget(hintMap: map<string, ElementId>, args: Option<Args>): (target: Option<ElementId>)
    ensures args.None? || "label" !in args.value || args.value["label"] == "" ==> target == None
    ensures target.Some? ==> target.value in hintMap.Values
  {
    match LabelArg(args)
    case None => None
    case Some(spoken) =>
      var key := NormalizeLabel(spoken);
      if key in hintMap then Some(hintMap[key]) else None
  }

  /** A label as displayed normalises to its own key. */
  lemma NormalizeLabelOfLabel(k: nat)
    ensures NormalizeLabel(Label(k)) == Key(k)
  {
    var low := LowerString(Label(k));
    assert forall j :: 0 <= j < |low| ==> IsLower(low[j]);
  }

  /** Over a table built by `showHints`, a label that normalises to the key
      of element `k` clicks element `k`. */
  lemma ClickByLabel(visible: seq<ElementId>, k: nat, spoken: string)
    requires k < |visible| && NormalizeLabel(spoken) == Key(k)
    ensures ClickTarget(HintTable(visible), Some(map["label" := spoken])) == Some(visible[k])
  {
    HintTableAt(visible, k);
    assert |Key(k)| > 0;
  }

  /** Over a table built by `showHints`, only a shown element is ever
      clicked, and only by a label that normalises to its key. */
  lemma ClickOnlyShown(visible: seq<ElementId>, args: Option<Args>) returns (k: nat)
    requires ClickTarget(HintTable(visible), args).Some?
    ensures LabelArg(args).Some?
    ensures k < |visible| && NormalizeLabel(LabelArg(args).value) == Key(k)
    ensures ClickTarget(HintTable(visible), args) == Some(visible[k])
  {
    var key := NormalizeLabel(LabelArg(args).value);
    k := HintTableLookup(visible, key);
  }

  // ---------------------------------------------------------------------
  // The content script's state and its message listener
  // ---------------------------------------------------------------------

  /** The page-level calls the scroll commands make. `pageUp` and `pageDown`
      scroll by 0.9 of the window height, which is left symbolic. */
  datatype PageEffect = ScrollBy(pixels: int) | ScrollByPage(down: bool) | ScrollToTop | ScrollToBottom

  /** A command forwarded by the background script. */
  datatype Message = Message(command: string, args: Option<Args>)

  /** What the listener passes to `sendResponse`: `{ok: true}` or `{error: …}`. */
  datatype Response = Ok | Error(message: string)

  /** The commands the listener's switch handles. */
  const HandledCommands: set<string> := {
    "scroll_up", "scroll_down", "page_up", "page_down", "jump_top",
    "jump_bottom", "show_hints", "hide_hints", "hint_click"
  }

  /** The page call each scroll command makes. The handled commands other
      than the three hint commands are exactly the ones that scroll. */
  function PageEffectOf(command: string): (effect: Option<PageEffect>)
    ensures effect.Some? <==>
      command in HandledCommands && command != "show_hints" && command != "hide_hints" && command != "hint_click"
  {
    match command
    case "scroll_up" => Some(ScrollBy(-100))
    case "scroll_down" => Some(ScrollBy(100))
    case "page_up" => Some(ScrollByPage(false))
    case "page_down" => Some(ScrollByPage(true))
    case "jump_top" => Some(ScrollToTop)
    case "jump_bottom" => Some(ScrollToBottom)
    case _ => None
  }

  /** The listener's response: unknown commands are refused, a handler
      that throws answers with its message, and every other command is
      acknowledged. */
  function Respond(command: string, thrown: Option<string>): (response: Response)
    ensures response == Ok <==> command in HandledCommands && thrown.None?
    ensures command !in HandledCommands ==> response == Error("Unknown command")
  {
    if command !in HandledCommands then Error("Unknown command")
    else if thrown.Some? then Error(thrown.value)
    else Ok
  }

  /** The module-level state of one page's content script. */
  class ContentScript {
    var hintMap: map<string, ElementId>
    var hintElements: seq<Badge>
    /** Whether the hint overlay container is in the document. */
    var overlay: bool
    /** Every `element.click()` so far, in order. */
    var clicked: seq<ElementId>
    /** Every scroll call so far, in order. */
    var page: seq<PageEffect>
    /** The elements the current hints label, in index order. */
    ghost var shown: seq<ElementId>

    ghost predicate Valid()
      reads this
    {
      hintMap == HintTable(shown) && hintElements == Badges(|shown|) && (|shown| > 0 ==> overlay)
    }

    constructor ()
      ensures Valid()
      ensures hintMap == map[] && hintElements == [] && !overlay && clicked == [] && page == []
    {
      hintMap := map[];
      hintElements := [];
      overlay := false;
      clicked := [];
      page := [];
      shown := [];
    }

    /** `hideHints`: remove the overlay and forget every hint. */
    method HideHints()
      modifies this
      ensures Valid()
      ensures hintMap == map[] && hintElements == [] && !overlay && shown == []
      ensures clicked == old(clicked) && page == old(page)
    {
      overlay := false;
      hintMap := map[];
      hintElements := [];
      shown := [];
    }

    /** `showHints`: discard the previous hints, then label each visible
      element in order, element `k` under the key of `Label(k)`. */
    method ShowHints(visible: seq<ElementId>)
      modifies this
      ensures Valid()
      ensures shown == visible && overlay
      ensures hintMap == HintTable(visible) && hintElements == Badges(|visible|)
      ensures |hintElements| == |hintMap| == |visible|
      ensures forall k :: 0 <= k < |visible| ==>
        Key(k) in hintMap && hintMap[Key(k)] == visible[k] && hintElements[k].text == Label(k)
      ensures clicked == old(clicked) && page == old(page)
    {
      HideHints();
      overlay := true;
      hintMap := map[];
      hintElements := [];
      var index := 0;
      while index < |visible|
        invariant 0 <= index <= |visible|
        invariant hintMap == HintTable(visible[..index])
        invariant hintElements == Badges(index)
        invariant overlay && clicked == old(clicked) && page == old(page)
      {
        var hint := GenerateHintLabel(index);
        assert visible[..index + 1][..index] == visible[..index];
        assert HintTable(visible[..index + 1]) == HintTable(visible[..index])[Key(index) := visible[index]];
        BadgesGrow(index);
        hintMap := hintMap[LowerString(hint) := visible[index]];
        hintElements := hintElements + [Badge(hint)];
        index := index + 1;
      }
      assert visible[..index] == visible;
      shown := visible;
      HintTableComplete(visible);
    }

    /** `hintClick`: without a label, or with one whose normalised form is
      not a key, nothing happens; otherwise the mapped element is clicked
      and the hints are hidden. */
    method HintClick(args: Option<Args>)
      requires Valid()
      modifies this
      ensures Valid() && page == old(page)
      ensures var target := ClickTarget(old(hintMap), args);
        (if target.None? then unchanged(this)
         else (clicked == old(clicked) + [target.value]
           && hintMap == map[] && hintElements == [] && !overlay && shown == []))
    {
      var spoken := LabelArg(args);
      if spoken.None? {
        return;
      }
      var normalized := NormalizeLabel(spoken.value);
      if normalized !in hintMap {
        return;
      }
      var element := hintMap[normalized];
      clicked := clicked + [element];
      HideHints();
    }

    /** The `onMessage` listener: run the handler for the command and answer
      with `Respond`. `visible` is what the page's element query would find;
      `thrown` is the message of an exception the handler raises, which is
      modelled as raised before the handler changes anything. */
    method OnMessage(message: Message, visible: seq<ElementId>, thrown: Option<string>)
      returns (response: Response)
      requires Valid()
      modifies this
      ensures Valid()
      ensures response == Respond(message.command, thrown)
      ensures message.command !in HandledCommands ==> response == Error("Unknown command")
      ensures message.command in HandledCommands ==>
        response == (if thrown.Some? then Error(thrown.value) else Ok)
      ensures response != Ok ==> unchanged(this)
      ensures response == Ok && PageEffectOf(message.command).Some? ==>
        page == old(page) + [PageEffectOf(message.command).value]
        && hintMap == old(hintMap) && hintElements == old(hintElements) && overlay == old(overlay)
        && shown == old(shown) && clicked == old(clicked)
      ensures response == Ok && message.command == "show_hints" ==>
        shown == visible && hintMap == HintTable(visible) && hintElements == Badges(|visible|)
        && overlay && clicked == old(clicked) && page == old(page)
      ensures response == Ok && message.command == "hide_hints" ==>
        hintMap == map[] && hintElements == [] && !overlay && shown == []
        && clicked == old(clicked) && page == old(page)
      ensures response == Ok && message.command == "hint_click" ==>
        var target := ClickTarget(old(hintMap), message.args);
        page == old(page)
        && (if target.None? then unchanged(this)
            else (clicked == old(clicked) + [target.value]
              && hintMap == map[] && hintElements == [] && !overlay && shown == []))
    {
      var command := message.command;
      if command !in HandledCommands {
        return Error("Unknown command");
      }
      if thrown.Some? {
        return Error(thrown.value);
      }
      if command == "show_hints" {
        ShowHints(visible);
      } else if command == "hide_hints" {
        HideHints();
      } else if command == "hint_click" {
        HintClick(message.args);
      } else {
        page := page + [PageEffectOf(command).value];
      }
      response := Ok;
    }
  }
}
