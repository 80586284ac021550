/** The menus of a program, held in an arena instead of behind raw pointers,
    with the operations of the source's `Menu` class as methods that change
    the arena in place or read it. */
module MenuArena {
  import opened Decimal
  import opened Menus
  import DisplayProperties

  class Arena {
    /** Menu `id` is `menus[id]`; a submenu item holds the id of its menu. */
    var menus: seq<Menu>

    ghost predicate Valid()
      reads this
    {
      WellFormed(menus)
    }

    constructor ()
      ensures Valid() && menus == []
    {
      menus := [];
    }

    /** A new menu with no items, under the source's default title and description. */
    method NewMenu(title: string := "Menu", description: string := "") returns (id: MenuId)
      requires Valid()
      modifies this
      ensures Valid()
      ensures id == |old(menus)| && menus == old(menus) + [Menu(title, description, [])]
    {
      id := |menus|;
      menus := menus + [Menu(title, description, [])];
    }

    /** Appends an action item to menu `m`; nothing else in the arena changes. */
    method AddItem(m: MenuId, name: string, action: ActionId, description: string := "")
      requires Valid() && m < |menus|
      modifies this
      ensures Valid()
      ensures menus == old(menus)[m := old(menus[m]).(items := old(menus[m]).items + [MenuItem(name, description, Action(action))])]
    {
      var menu := menus[m];
      menus := menus[m := menu.(items := menu.items + [MenuItem(name, description, Action(action))])];
    }

    /** Appends to menu `m` an item that opens menu `submenu`, which must exist
        (the source dereferences the pointer when the item is chosen). Shared and
        cyclic references are allowed. */
    method AddSubmenu(m: MenuId, name: string, submenu: MenuId, description: string := "")
      requires Valid() && m < |menus| && submenu < |menus|
      modifies this
      ensures Valid()
      ensures menus == old(menus)[m := old(menus[m]).(items := old(menus[m]).items + [MenuItem(name, description, Submenu(submenu))])]
    {
      var menu := menus[m];
      menus := menus[m := menu.(items := menu.items + [MenuItem(name, description, Submenu(submenu))])];
    }

    /** Draws menu `m`: title, description, one numbered line per item, the exit line, the prompt. */
    method Draw(m: MenuId) returns (screen: string)
      requires m < |menus|
      ensures screen == Render(menus[m])
    {
      var menu := menus[m];
      screen := "\n=== " + menu.title + " ===\n";
      if menu.description != "" {
        screen := screen + "\n" + menu.description + "\n\n";
      }
      assert screen == Header(menu) + ItemLines(menu.items[..0], 1);
      for i := 0 to |menu.items|
        invariant screen == Header(menu) + ItemLines(menu.items[..i], 1)
      {
        var item := menu.items[i];
        var line := NatToString(i + 1) + ". " + item.name;
        if item.description != "" {
          line := line + (" - " + item.description);
        } else {
          assert line + "" == line;
        }
        line := line + "\n";
        ItemLinesAppend(menu.items[..i], item);
        assert menu.items[..i + 1] == menu.items[..i] + [item];
        Associative(Header(menu), ItemLines(menu.items[..i], 1), line);
        screen := screen + line;
      }
      assert menu.items[..|menu.items|] == menu.items;
      screen := screen + "0. Exit\n";
      screen := screen + "Choice: ";
    }

    /** The display loop of menu `m` over the input `input`: it returns what was
        shown and called, why it stopped, and the input it did not read. */
    method Display(m: MenuId, input: seq<Token>) returns (trace: seq<Event>, status: Status, rest: seq<Token>)
      requires Valid() && m < |menus|
      ensures Outcome(status, trace, rest) == Session(menus, m, input)
      decreases |input|
    {
      trace := [];
      var pending := input;
      while true
        invariant |pending| <= |input|
        invariant Session(menus, m, input) == Then(trace, Session(menus, m, pending))
        decreases |pending|
      {
        ghost var before := pending;
        var screen := Draw(m);
        DisplayProperties.ThenThen(trace, [Text(screen)], AwaitChoice(menus, m, pending));
        trace := trace + [Text(screen)];

        // the retry loop: one malformed token is one failed read together with the rest of its line
        while pending != [] && pending[0].Malformed?
          invariant |pending| <= |before|
          invariant Session(menus, m, input) == Then(trace, AwaitChoice(menus, m, pending))
        {
          DisplayProperties.StepMalformed(menus, m, pending);
          DisplayProperties.ThenThen(trace, Retry, AwaitChoice(menus, m, pending[1..]));
          assert trace + Retry == trace + [Text(InvalidInputMessage)] + [Text(Prompt)];
          trace := trace + [Text("Invalid input! Please enter a number.\n")];
          trace := trace + [Text("Choice: ")];
          pending := pending[1..];
        }
        if pending == [] {
          assert trace + [] == trace;
          status, rest := InputExhausted, [];
          return;
        }
        var choice := pending[0].value;
        DisplayProperties.StepChoice(menus, m, pending, choice);
        pending := pending[1..];
        assert Session(menus, m, input) == Then(trace, Dispatch(menus, m, choice, pending));

        var items := menus[m].items;
        if choice == 0 {
          assert trace + [] == trace;
          status, rest := Exited, pending;
          return;
        }
        if 0 < choice <= |items| {
          var item := items[choice - 1];
          if !item.IsSubmenu() {
            DisplayProperties.ThenThen(trace, [Call(item.payload.action)], Session(menus, m, pending));
            trace := trace + [Call(item.payload.action)];
          } else {
            assert item.payload.menu < |menus|;
            var subTrace, subStatus, subRest := Display(item.payload.menu, pending);
            if subStatus == InputExhausted {
              trace := trace + subTrace;
              status, rest := InputExhausted, subRest;
              return;
            }
            DisplayProperties.ThenThen(trace, subTrace, Session(menus, m, subRest));
            trace := trace + subTrace;
            pending := subRest;
          }
        } else {
          var message := "Invalid choice! Please select a number between 0 and " + NatToString(|items|) + ".\n";
          assert message == InvalidChoiceMessage(|items|);
          DisplayProperties.ThenThen(trace, [Text(message)], Session(menus, m, pending));
          trace := trace + [Text(message)];
        }
      }
    }
  }

  /** Builds the two-level example of `DisplayProperties.ConfigDemo` through the
      arena's own operations and runs it on the input `2, 1, 0, 0`. */
  method RunConfigDemo() returns (trace: seq<Event>, status: Status, rest: seq<Token>)
    ensures var main := "\n=== Main ===\n" + "1. Start\n" + "2. Config\n" + ExitLine + Prompt;
            var config := "\n=== Config ===\n" + "1. Toggle\n" + ExitLine + Prompt;
            status == Exited && rest == [] &&
            trace == [Text(main), Text(config), Call(1), Text(config), Text(main)]
  {
    var arena := new Arena();
    var main := arena.NewMenu("Main");
    var config := arena.NewMenu("Config");
    assert main == 0 && config == 1;
    assert arena.menus == [Menu("Main", "", []), Menu("Config", "", [])];
    arena.AddItem(main, "Start", 0);
    arena.AddSubmenu(main, "Config", config);
    assert arena.menus[0].items == [MenuItem("Start", "", Action(0)), MenuItem("Config", "", Submenu(1))];
    arena.AddItem(config, "Toggle", 1);
    assert arena.menus[1].items == [MenuItem("Toggle", "", Action(1))];
    assert arena.menus[0] == DisplayProperties.ConfigDemo()[0];
    assert arena.menus[1] == DisplayProperties.ConfigDemo()[1];
    assert arena.menus == DisplayProperties.ConfigDemo();
    DisplayProperties.ConfigScenario();
    trace, status, rest := arena.Display(main, [Int(2), Int(1), Int(0), Int(0)]);
  }
}
