/** The menu data model of MenuMaker, the exact text one drawing of a menu
    shows, and the behaviour of one `display()` call as a function of the
    menus and of the input tokens it is given. */
module Menus {
  import opened Decimal

  /** Stands for the function pointer an action item calls. */
  type ActionId = nat
  /** Position of a menu in the arena that holds all menus. */
  type MenuId = nat

  /** The tagged union of an item: which variant it holds is fixed by the
      constructor that built the item. */
  datatype Payload = Action(action: ActionId) | Submenu(menu: MenuId)

  datatype MenuItem = MenuItem(name: string, description: string, payload: Payload)
  {
    predicate IsSubmenu() { payload.Submenu? }
  }

  datatype Menu = Menu(title: string, description: string, items: seq<MenuItem>)

  /** Every submenu reference names a menu of the arena: the source's
      requirement that a submenu pointer be valid whenever it can be chosen. */
  ghost predicate WellFormed(menus: seq<Menu>)
  {
    forall m, j :: 0 <= m < |menus| && 0 <= j < |menus[m].items| && menus[m].items[j].IsSubmenu() ==>
      menus[m].items[j].payload.menu < |menus|
  }

  // ---------------------------------------------------------------- rendering

  const ExitLine := "0. Exit\n"
  const Prompt := "Choice: "
  const InvalidInputMessage := "Invalid input! Please enter a number.\n"

  function InvalidChoiceMessage(count: nat): string
  {
    "Invalid choice! Please select a number between 0 and " + NatToString(count) + ".\n"
  }

  /** Title line, then the description framed by blank lines when it is not empty. */
  function Header(menu: Menu): string
  {
    "\n=== " + menu.title + " ===\n" +
    (if menu.description != "" then "\n" + menu.description + "\n\n" else "")
  }

  /** The line of the item numbered `number`. */
  function ItemLine(number: nat, item: MenuItem): string
  {
    NatToString(number) + ". " + item.name +
    (if item.description != "" then " - " + item.description else "") + "\n"
  }

  /** The lines of `items`, numbered from `first` on in order. */
  function ItemLines(items: seq<MenuItem>, first: nat): string
  {
    if items == [] then "" else ItemLine(first, items[0]) + ItemLines(items[1..], first + 1)
  }

  /** The whole text one pass of the display loop prints before reading a choice. */
  function Render(menu: Menu): string
  {
    Header(menu) + ItemLines(menu.items, 1) + ExitLine + Prompt
  }

  /** A drawing is, in order: the title line, the description framed by blank
      lines exactly when there is one, the item lines, the exit line and the
      prompt. */
  lemma RenderLayout(menu: Menu)
    ensures var r := Render(menu);
            var title := "\n=== " + menu.title + " ===\n";
            var block := "\n" + menu.description + "\n\n";
            var tail := ExitLine + Prompt;
            var body := |Header(menu)|;
            |title| <= body && body + |tail| <= |r| &&
            r[..|title|] == title &&
            (menu.description != "" ==> body == |title| + |block| && r[|title|..body] == block) &&
            (menu.description == "" ==> body == |title|) &&
            r[body..|r| - |tail|] == ItemLines(menu.items, 1) &&
            r[|r| - |tail|..] == tail
  {
    var title := "\n=== " + menu.title + " ===\n";
    var block := "\n" + menu.description + "\n\n";
    var lines := ItemLines(menu.items, 1);
    var tail := ExitLine + Prompt;
    var r := Render(menu);
    if menu.description != "" {
      assert Header(menu) == title + block;
      assert r == title + block + lines + tail;
      assert r[|title|..|title| + |block|] == block;
    } else {
      assert Header(menu) == title;
      assert r == title + lines + tail;
    }
    assert r == Header(menu) + lines + tail;
    assert r[..|title|] == title;
    assert r[|Header(menu)|..|r| - |tail|] == lines;
  }

  /** The range message names the item count: its digits read back as the count. */
  lemma InvalidChoiceMessageNamesCount(count: nat)
    ensures var msg := InvalidChoiceMessage(count);
            var lead := "Invalid choice! Please select a number between 0 and ";
            var digits := msg[|lead|..|msg| - 2];
            |lead| + 2 < |msg| &&
            msg[..|lead|] == lead && msg[|msg| - 2..] == ".\n" &&
            AllDigits(digits) && DecimalValue(digits) == count
  {
    var lead := "Invalid choice! Please select a number between 0 and ";
    var msg := InvalidChoiceMessage(count);
    NatToStringIsDecimal(count);
    DecimalRoundTrip(count);
    assert msg == lead + NatToString(count) + ".\n";
    assert msg[|lead|..|msg| - 2] == NatToString(count);
  }

  lemma {:induction false} ItemLinesConcat(a: seq<MenuItem>, b: seq<MenuItem>, first: nat)
    ensures ItemLines(a + b, first) == ItemLines(a, first) + ItemLines(b, first + |a|)
  {
    if a == [] {
      assert a + b == b;
    } else {
      assert (a + b)[1..] == a[1..] + b;
      ItemLinesConcat(a[1..], b, first + 1);
      Associative(ItemLine(first, a[0]), ItemLines(a[1..], first + 1), ItemLines(b, first + |a|));
    }
  }

  lemma Associative(x: string, y: string, z: string)
    ensures x + (y + z) == (x + y) + z
  {
  }

  /** Drawing one more item adds its line, numbered one past the others, at the end. */
  lemma ItemLinesAppend(items: seq<MenuItem>, item: MenuItem)
    ensures ItemLines(items + [item], 1) == ItemLines(items, 1) + ItemLine(|items| + 1, item)
  {
    ItemLinesConcat(items, [item], 1);
    assert [item][1..] == [];
  }

  /** The `k`-th item (counting from 0) is drawn as the line numbered `k + 1`,
      right after the lines of the items before it. */
  lemma RenderShowsItem(menu: Menu, k: nat)
    requires k < |menu.items|
    ensures var off := |Header(menu)| + |ItemLines(menu.items[..k], 1)|;
            var line := ItemLine(k + 1, menu.items[k]);
            off + |line| <= |Render(menu)| && Render(menu)[off..off + |line|] == line
  {
    var items := menu.items;
    var line := ItemLine(k + 1, items[k]);
    var before := ItemLines(items[..k], 1);
    var after := ItemLines(items[k + 1..], k + 2);
    assert ItemLines(items[k..], 1 + k) == line + after by {
      assert items[k..][1..] == items[k + 1..];
    }
    assert ItemLines(items, 1) == before + (line + after) by {
      assert items == items[..k] + items[k..];
      ItemLinesConcat(items[..k], items[k..], 1);
    }
    SliceOfMiddle(Header(menu), before, line, after, ExitLine + Prompt);
  }

  lemma SliceOfMiddle(h: string, before: string, line: string, after: string, tail: string)
    ensures var s := h + (before + (line + after)) + tail;
            var off := |h| + |before|;
            off + |line| <= |s| && s[off..off + |line|] == line
  {
    var s := h + (before + (line + after)) + tail;
    assert s == (h + before) + line + (after + tail);
  }

  /** Appending an item adds exactly its line, numbered one past the old count,
      just above the exit line; the rest of the drawing is unchanged. */
  lemma RenderAfterAppend(menu: Menu, item: MenuItem)
    ensures var tail := ExitLine + Prompt;
            var old_ := Render(menu);
            |tail| <= |old_| &&
            Render(menu.(items := menu.items + [item])) ==
              old_[..|old_| - |tail|] + ItemLine(|menu.items| + 1, item) + tail
  {
    var longer := menu.(items := menu.items + [item]);
    var line := ItemLine(|menu.items| + 1, item);
    ItemLinesAppend(menu.items, item);
    assert Header(longer) == Header(menu);
    InsertBeforeTail(Header(menu), ItemLines(menu.items, 1), line, ExitLine + Prompt);
  }

  lemma InsertBeforeTail(h: string, lines: string, line: string, tail: string)
    ensures var s := h + lines + tail;
            |tail| <= |s| && h + (lines + line) + tail == s[..|s| - |tail|] + line + tail
  {
    var s := h + lines + tail;
    assert s[..|s| - |tail|] == h + lines;
  }

  // ----------------------------------------------------------- the display loop

  /** One input token: one successful `>> int` read, or one failed read
      together with the rest of its line. */
  datatype Token = Int(value: int) | Malformed

  /** What the user sees, in order: text printed by the menu, and action calls
      (whose own effects are outside this model). */
  datatype Event = Text(text: string) | Call(action: ActionId)

  /** `Exited`: `0` was chosen. `InputExhausted`: the input ended while a prompt
      waited for a choice (the source keeps retrying forever then). */
  datatype Status = Exited | InputExhausted

  datatype Outcome = Outcome(status: Status, trace: seq<Event>, rest: seq<Token>)

  /** The action ids a trace calls, in order. */
  function Calls(trace: seq<Event>): seq<ActionId>
  {
    if trace == [] then []
    else (if trace[0].Call? then [trace[0].action] else []) + Calls(trace[1..])
  }

  lemma {:induction false} CallsConcat(a: seq<Event>, b: seq<Event>)
    ensures Calls(a + b) == Calls(a) + Calls(b)
  {
    if a == [] {
      assert a + b == b;
    } else {
      var head := if a[0].Call? then [a[0].action] else [];
      assert (a + b)[0] == a[0] && (a + b)[1..] == a[1..] + b;
      assert Calls(a + b) == head + Calls(a[1..] + b);
      CallsConcat(a[1..], b);
      assert Calls(a) == head + Calls(a[1..]);
    }
  }

  /** Text alone calls nothing. */
  lemma {:induction false} CallsOfText(trace: seq<Event>)
    requires forall i :: 0 <= i < |trace| ==> trace[i].Text?
    ensures Calls(trace) == []
  {
    if trace != [] {
      CallsOfText(trace[1..]);
    }
  }

  /** `o` preceded by the events `prefix`. */
  function Then(prefix: seq<Event>, o: Outcome): Outcome
  {
    o.(trace := prefix + o.trace)
  }

  /** What the retry loop prints for one malformed token. */
  const Retry: seq<Event> := [Text(InvalidInputMessage), Text(Prompt)]

  /** One whole `display()` call on menu `m`: draw it, then wait for a choice. */
  function Session(menus: seq<Menu>, m: MenuId, input: seq<Token>): (r: Outcome)
    requires WellFormed(menus) && m < |menus|
    ensures |r.rest| <= |input|
    decreases |input|, 2
  {
    Then([Text(Render(menus[m]))], AwaitChoice(menus, m, input))
  }

  /** The retry loop after a drawing: each malformed token prints the retry
      message and the prompt again; the first integer goes to `Dispatch`. */
  function AwaitChoice(menus: seq<Menu>, m: MenuId, input: seq<Token>): (r: Outcome)
    requires WellFormed(menus) && m < |menus|
    ensures |r.rest| <= |input|
    decreases |input|, 1
  {
    if input == [] then Outcome(InputExhausted, [], [])
    else
      match input[0]
      case Malformed => Then(Retry, AwaitChoice(menus, m, input[1..]))
      case Int(choice) => Dispatch(menus, m, choice, input[1..])
  }

  /** What a choice read at menu `m` does: `0` exits; `1..N` calls the action
      or runs the submenu's display loop, then the loop of `m` goes on; any
      other number prints the range and the loop of `m` goes on. */
  function Dispatch(menus: seq<Menu>, m: MenuId, choice: int, rest: seq<Token>): (r: Outcome)
    requires WellFormed(menus) && m < |menus|
    ensures |r.rest| <= |rest|
    decreases |rest| + 1, 0
  {
    var items := menus[m].items;
    if choice == 0 then Outcome(Exited, [], rest)
    else if 0 < choice <= |items| then
      match items[choice - 1].payload
      case Action(a) => Then([Call(a)], Session(menus, m, rest))
      case Submenu(s) =>
        var sub := Session(menus, s, rest);
        if sub.status == InputExhausted then sub
        else Then(sub.trace, Session(menus, m, sub.rest))
    else Then([Text(InvalidChoiceMessage(|items|))], Session(menus, m, rest))
  }
}
