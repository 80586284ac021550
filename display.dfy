/** What one `display()` call does, stated about `Session` for every arena
    and every input: the four kinds of choice, the retry on malformed lines,
    how much input a call reads, and what it can show or call. */
module DisplayProperties {
  import opened Decimal
  import opened Menus

  // ------------------------------------------------ one step of the loop

  lemma ThenThen(a: seq<Event>, b: seq<Event>, o: Outcome)
    ensures Then(a, Then(b, o)) == Then(a + b, o)
  {
    assert a + (b + o.trace) == (a + b) + o.trace;
  }

  lemma StepMalformed(menus: seq<Menu>, m: MenuId, input: seq<Token>)
    requires WellFormed(menus) && m < |menus|
    requires input != [] && input[0] == Malformed
    ensures AwaitChoice(menus, m, input) == Then(Retry, AwaitChoice(menus, m, input[1..]))
  {
  }

  lemma StepChoice(menus: seq<Menu>, m: MenuId, input: seq<Token>, choice: int)
    requires WellFormed(menus) && m < |menus|
    requires input != [] && input[0] == Int(choice)
    ensures AwaitChoice(menus, m, input) == Dispatch(menus, m, choice, input[1..])
  {
  }

  // ------------------------------------------------------------ one choice

  /** Choosing `0` ends the call after a single drawing: nothing is called,
      no submenu is entered, and the input after the `0` is left unread. */
  lemma ChooseExit(menus: seq<Menu>, m: MenuId, rest: seq<Token>)
    requires WellFormed(menus) && m < |menus|
    ensures Session(menus, m, [Int(0)] + rest) == Outcome(Exited, [Text(Render(menus[m]))], rest)
  {
    StepChoice(menus, m, [Int(0)] + rest, 0);
    assert ([Int(0)] + rest)[1..] == rest;
  }

  /** Choosing an action item calls its action once, then draws the same
      menu again and goes on with the next token. */
  lemma ChooseAction(menus: seq<Menu>, m: MenuId, k: int, rest: seq<Token>)
    requires WellFormed(menus) && m < |menus|
    requires 1 <= k <= |menus[m].items| && !menus[m].items[k - 1].IsSubmenu()
    ensures var a := menus[m].items[k - 1].payload.action;
            var next := Session(menus, m, rest);
            Session(menus, m, [Int(k)] + rest) == Then([Text(Render(menus[m])), Call(a)], next) &&
            next.trace[0] == Text(Render(menus[m])) &&
            Calls(Session(menus, m, [Int(k)] + rest).trace) == [a] + Calls(next.trace)
  {
    var a := menus[m].items[k - 1].payload.action;
    var R := Text(Render(menus[m]));
    StepChoice(menus, m, [Int(k)] + rest, k);
    assert ([Int(k)] + rest)[1..] == rest;
    var next := Session(menus, m, rest);
    ThenThen([R], [Call(a)], next);
    assert [R] + [Call(a)] == [R, Call(a)];
    CallsConcat([R], [Call(a)]);
    CallsConcat([R, Call(a)], next.trace);
    CallsOfText([R]);
    assert Calls([Call(a)]) == [a] by {
      assert [Call(a)][1..] == [];
    }
  }

  /** Choosing a submenu item runs the submenu's own display loop to its end;
      when it exits, the same menu is drawn again and reads the input the
      submenu left. */
  lemma ChooseSubmenu(menus: seq<Menu>, m: MenuId, k: int, rest: seq<Token>)
    requires WellFormed(menus) && m < |menus|
    requires 1 <= k <= |menus[m].items| && menus[m].items[k - 1].IsSubmenu()
    ensures var s := menus[m].items[k - 1].payload.menu;
            s < |menus| &&
            var sub := Session(menus, s, rest);
            var r := Session(menus, m, [Int(k)] + rest);
            sub.trace[0] == Text(Render(menus[s])) &&
            (sub.status == InputExhausted ==> r == Then([Text(Render(menus[m]))], sub)) &&
            (sub.status == Exited ==>
               r == Then([Text(Render(menus[m]))] + sub.trace, Session(menus, m, sub.rest)) &&
               Session(menus, m, sub.rest).trace[0] == Text(Render(menus[m])))
  {
    StepChoice(menus, m, [Int(k)] + rest, k);
    assert ([Int(k)] + rest)[1..] == rest;
    var s := menus[m].items[k - 1].payload.menu;
    var sub := Session(menus, s, rest);
    if sub.status == Exited {
      ThenThen([Text(Render(menus[m]))], sub.trace, Session(menus, m, sub.rest));
    }
  }

  /** A number outside `0..N` calls nothing, names the range, and the whole
      menu is drawn again. */
  lemma ChooseOutOfRange(menus: seq<Menu>, m: MenuId, k: int, rest: seq<Token>)
    requires WellFormed(menus) && m < |menus|
    requires k < 0 || k > |menus[m].items|
    ensures var next := Session(menus, m, rest);
            var r := Session(menus, m, [Int(k)] + rest);
            r == Then([Text(Render(menus[m])), Text(InvalidChoiceMessage(|menus[m].items|))], next) &&
            next.trace[0] == Text(Render(menus[m])) &&
            Calls(r.trace) == Calls(next.trace)
  {
    StepChoice(menus, m, [Int(k)] + rest, k);
    assert ([Int(k)] + rest)[1..] == rest;
    var next := Session(menus, m, rest);
    var pre := [Text(Render(menus[m])), Text(InvalidChoiceMessage(|menus[m].items|))];
    ThenThen([pre[0]], [pre[1]], next);
    assert [pre[0]] + [pre[1]] == pre;
    CallsConcat(pre, next.trace);
    CallsOfText(pre);
  }

  // ------------------------------------------------------- malformed input

  /** `k` copies of the retry output. */
  function Retries(k: nat): seq<Event>
  {
    if k == 0 then [] else Retry + Retries(k - 1)
  }

  lemma {:induction false} RetriesCallNothing(k: nat)
    ensures Calls(Retries(k)) == []
  {
    if k > 0 {
      RetriesCallNothing(k - 1);
      CallsOfText(Retry);
      CallsConcat(Retry, Retries(k - 1));
    }
  }

  /** A run of malformed tokens only adds one retry message and prompt per
      token: after it, the prompt waits exactly as if the run had not been
      there. */
  lemma {:induction false} MalformedRetry(menus: seq<Menu>, m: MenuId, bad: seq<Token>, input: seq<Token>)
    requires WellFormed(menus) && m < |menus|
    requires forall i :: 0 <= i < |bad| ==> bad[i] == Malformed
    ensures AwaitChoice(menus, m, bad + input) == Then(Retries(|bad|), AwaitChoice(menus, m, input))
  {
    if bad == [] {
      assert bad + input == input;
    } else {
      assert (bad + input)[0] == Malformed;
      assert (bad + input)[1..] == bad[1..] + input;
      StepMalformed(menus, m, bad + input);
      MalformedRetry(menus, m, bad[1..], input);
      ThenThen(Retry, Retries(|bad| - 1), AwaitChoice(menus, m, input));
    }
  }

  /** Seen from the whole call: malformed tokens before a choice change the
      output only by the retry lines after the first drawing, and change
      neither the calls, nor how the call ends, nor the input it leaves. */
  lemma MalformedThenChoice(menus: seq<Menu>, m: MenuId, bad: seq<Token>, input: seq<Token>)
    requires WellFormed(menus) && m < |menus|
    requires forall i :: 0 <= i < |bad| ==> bad[i] == Malformed
    ensures var with := Session(menus, m, bad + input);
            var without := Session(menus, m, input);
            with.status == without.status && with.rest == without.rest &&
            with.trace == [Text(Render(menus[m]))] + Retries(|bad|) + without.trace[1..] &&
            Calls(with.trace) == Calls(without.trace)
  {
    MalformedRetry(menus, m, bad, input);
    var R := [Text(Render(menus[m]))];
    var after := AwaitChoice(menus, m, input);
    ThenThen(R, Retries(|bad|), after);
    assert Session(menus, m, input).trace[1..] == after.trace;
    CallsConcat(R + Retries(|bad|), after.trace);
    CallsConcat(R, after.trace);
    CallsConcat(R, Retries(|bad|));
    RetriesCallNothing(|bad|);
    CallsOfText(R);
  }

  /** Input that ends in the retry loop ends the call with `InputExhausted`,
      where the source would print the retry message and the prompt forever. */
  lemma OnlyMalformed(menus: seq<Menu>, m: MenuId, bad: seq<Token>)
    requires WellFormed(menus) && m < |menus|
    requires forall i :: 0 <= i < |bad| ==> bad[i] == Malformed
    ensures var r := Session(menus, m, bad);
            r == Outcome(InputExhausted, [Text(Render(menus[m]))] + Retries(|bad|), [])
  {
    MalformedRetry(menus, m, bad, []);
    assert bad + [] == bad;
    ThenThen([Text(Render(menus[m]))], Retries(|bad|), Outcome(InputExhausted, [], []));
  }

  /** The retry loop as the source writes it, run for at most `steps` reads:
      `Chose` when a read succeeds, `Waiting` while every read so far failed.
      At end of input a failed read does not consume anything, and clearing
      the stream does not bring more input, so the next read fails again. */
  datatype Read = Chose(choice: int, rest: seq<Token>) | Waiting

  function RetryAsWritten(input: seq<Token>, steps: nat): (r: (seq<Event>, Read))
    ensures r.1.Waiting? ==> r.0 == Retries(steps)
    ensures r.1.Chose? ==> |r.1.rest| < |input| && |input| - |r.1.rest| <= steps &&
                           r.1.rest == input[|input| - |r.1.rest|..] &&
                           input[|input| - |r.1.rest| - 1] == Int(r.1.choice) &&
                           r.0 == Retries(|input| - |r.1.rest| - 1)
    decreases steps
  {
    if steps == 0 then ([], Waiting)
    else if input != [] && input[0].Int? then ([], Chose(input[0].value, input[1..]))
    else
      var next := RetryAsWritten(if input == [] then [] else input[1..], steps - 1);
      (Retry + next.0, next.1)
  }

  /** At end of input the source's retry loop never reads a choice, however
      long it runs, and prints one retry message and prompt per pass. */
  lemma {:induction false} EndOfInputSpins(steps: nat)
    ensures RetryAsWritten([], steps) == (Retries(steps), Waiting)
  {
    if steps > 0 {
      EndOfInputSpins(steps - 1);
    }
  }

  /** Before the end of input the source's retry loop does what the model's
      does: one retry message and prompt per malformed token, then the choice. */
  lemma {:induction false} RetryAsWrittenReadsChoice(bad: seq<Token>, choice: int, rest: seq<Token>)
    requires forall i :: 0 <= i < |bad| ==> bad[i] == Malformed
    ensures RetryAsWritten(bad + [Int(choice)] + rest, |bad| + 1) == (Retries(|bad|), Chose(choice, rest))
  {
    var input := bad + [Int(choice)] + rest;
    if bad == [] {
      assert input == [Int(choice)] + rest;
      assert input[1..] == rest;
    } else {
      assert input[0] == Malformed;
      assert input[1..] == bad[1..] + [Int(choice)] + rest;
      RetryAsWrittenReadsChoice(bad[1..], choice, rest);
    }
  }

  // ------------------------------------------------------- input consumption

  predicate IsSuffix(s: seq<Token>, t: seq<Token>)
  {
    |s| <= |t| && s == t[|t| - |s|..]
  }

  /** `r` read a prefix of `input` and left the rest; it exited only right
      after reading a `0`, it ran out of input only by reading all of it, and
      it called at most one action per token it read. */
  ghost predicate Consumed(input: seq<Token>, r: Outcome)
  {
    IsSuffix(r.rest, input) &&
    (r.status == Exited ==> |r.rest| < |input| && input[|input| - |r.rest| - 1] == Int(0)) &&
    (r.status == InputExhausted ==> r.rest == []) &&
    |Calls(r.trace)| <= |input| - |r.rest|
  }

  /** Every call reads its input as `Consumed` says. */
  lemma {:induction false} SessionConsumes(menus: seq<Menu>, m: MenuId, input: seq<Token>)
    requires WellFormed(menus) && m < |menus|
    ensures Consumed(input, Session(menus, m, input))
    decreases |input|, 2
  {
    var R := [Text(Render(menus[m]))];
    var after := AwaitChoice(menus, m, input);
    AwaitChoiceConsumes(menus, m, input);
    CallsConcat(R, after.trace);
    CallsOfText(R);
  }

  lemma {:induction false} AwaitChoiceConsumes(menus: seq<Menu>, m: MenuId, input: seq<Token>)
    requires WellFormed(menus) && m < |menus|
    ensures Consumed(input, AwaitChoice(menus, m, input))
    decreases |input|, 1
  {
    if input == [] {
      return;
    }
    match input[0]
    case Malformed =>
      StepMalformed(menus, m, input);
      AwaitChoiceConsumes(menus, m, input[1..]);
      CallsOfText(Retry);
      StepConsumed(input, Retry, AwaitChoice(menus, m, input[1..]));
    case Int(choice) =>
      StepChoice(menus, m, input, choice);
      DispatchConsumes(menus, m, choice, input[1..]);
      assert input == [Int(choice)] + input[1..];
  }

  /** The token that carried the choice is read, and `Consumed` holds of the whole. */
  lemma {:induction false} DispatchConsumes(menus: seq<Menu>, m: MenuId, choice: int, rest: seq<Token>)
    requires WellFormed(menus) && m < |menus|
    ensures Consumed([Int(choice)] + rest, Dispatch(menus, m, choice, rest))
    decreases |rest| + 1, 0
  {
    var input := [Int(choice)] + rest;
    assert input[1..] == rest;
    var items := menus[m].items;
    if choice == 0 {
      assert input[|input| - |rest| - 1] == Int(0);
    } else if 0 < choice <= |items| {
      match items[choice - 1].payload
      case Action(a) =>
        SessionConsumes(menus, m, rest);
        assert Calls([Call(a)]) == [a] by { assert [Call(a)][1..] == []; }
        StepConsumed(input, [Call(a)], Session(menus, m, rest));
      case Submenu(s) =>
        assert items[choice - 1].IsSubmenu();
        var sub := Session(menus, s, rest);
        SessionConsumes(menus, s, rest);
        if sub.status == Exited {
          SessionConsumes(menus, m, sub.rest);
          ChainConsumed(input, sub, Session(menus, m, sub.rest));
        } else {
          assert Calls([]) == [];
          StepConsumed(input, [], sub);
          assert Then([], sub) == sub;
        }
    } else {
      var msg := [Text(InvalidChoiceMessage(|items|))];
      SessionConsumes(menus, m, rest);
      CallsOfText(msg);
      StepConsumed(input, msg, Session(menus, m, rest));
    }
  }

  /** Reading one token that adds the events `pre` (at most one call) in front of `next`. */
  lemma StepConsumed(input: seq<Token>, pre: seq<Event>, next: Outcome)
    requires |input| > 0 && Consumed(input[1..], next) && |Calls(pre)| <= 1
    ensures Consumed(input, Then(pre, next))
  {
    CallsConcat(pre, next.trace);
    SuffixStep(next.rest, input);
  }

  /** A submenu that exited, followed by the rest of the parent's loop. */
  lemma ChainConsumed(input: seq<Token>, sub: Outcome, next: Outcome)
    requires |input| > 0 && Consumed(input[1..], sub) && sub.status == Exited
    requires Consumed(sub.rest, next)
    ensures Consumed(input, Then(sub.trace, next))
  {
    CallsConcat(sub.trace, next.trace);
    SuffixStep(sub.rest, input);
    SuffixTrans(next.rest, sub.rest, input);
    if next.status == Exited {
      var i := |sub.rest| - |next.rest| - 1;
      assert sub.rest[i] == Int(0);
      assert input[|input| - |sub.rest| + i] == sub.rest[i];
    }
  }

  lemma SuffixStep(s: seq<Token>, t: seq<Token>)
    requires |t| > 0 && IsSuffix(s, t[1..])
    ensures IsSuffix(s, t)
  {
    assert t[1..][|t| - 1 - |s|..] == t[|t| - |s|..];
  }

  lemma SuffixTrans(s: seq<Token>, t: seq<Token>, u: seq<Token>)
    requires IsSuffix(s, t) && IsSuffix(t, u)
    ensures IsSuffix(s, u)
  {
    assert u[|u| - |t|..][|t| - |s|..] == u[|u| - |s|..];
  }

  // ------------------------------------------------ what a call can show

  /** An action some item of the arena was built with. */
  ghost predicate Registered(menus: seq<Menu>, a: ActionId)
  {
    exists i, j :: 0 <= i < |menus| && 0 <= j < |menus[i].items| && menus[i].items[j].payload == Action(a)
  }

  /** The events a display loop can produce: a drawing of a menu of the arena,
      the retry message, the prompt, the range message of a menu of the arena,
      or a call of a registered action. */
  ghost predicate Allowed(menus: seq<Menu>, e: Event)
  {
    match e
    case Call(a) => Registered(menus, a)
    case Text(t) =>
      t == InvalidInputMessage || t == Prompt ||
      exists i :: 0 <= i < |menus| && (t == Render(menus[i]) || t == InvalidChoiceMessage(|menus[i].items|))
  }

  ghost predicate AllAllowed(menus: seq<Menu>, trace: seq<Event>)
  {
    forall i :: 0 <= i < |trace| ==> Allowed(menus, trace[i])
  }

  lemma AllAllowedConcat(menus: seq<Menu>, a: seq<Event>, b: seq<Event>)
    requires AllAllowed(menus, a) && AllAllowed(menus, b)
    ensures AllAllowed(menus, a + b)
  {
    forall i | 0 <= i < |a + b|
      ensures Allowed(menus, (a + b)[i])
    {
      if i >= |a| {
        assert (a + b)[i] == b[i - |a|];
      }
    }
  }

  /** A display loop shows only menus of the arena and their messages, and
      calls only actions that some item holds. */
  lemma {:induction false} SessionShowsOnlyArena(menus: seq<Menu>, m: MenuId, input: seq<Token>)
    requires WellFormed(menus) && m < |menus|
    ensures AllAllowed(menus, Session(menus, m, input).trace)
    decreases |input|, 2
  {
    assert Allowed(menus, Text(Render(menus[m])));
    AwaitChoiceShowsOnlyArena(menus, m, input);
    AllAllowedConcat(menus, [Text(Render(menus[m]))], AwaitChoice(menus, m, input).trace);
  }

  lemma {:induction false} AwaitChoiceShowsOnlyArena(menus: seq<Menu>, m: MenuId, input: seq<Token>)
    requires WellFormed(menus) && m < |menus|
    ensures AllAllowed(menus, AwaitChoice(menus, m, input).trace)
    decreases |input|, 1
  {
    if input == [] {
      return;
    }
    match input[0]
    case Malformed =>
      StepMalformed(menus, m, input);
      AwaitChoiceShowsOnlyArena(menus, m, input[1..]);
      assert AllAllowed(menus, Retry);
      AllAllowedConcat(menus, Retry, AwaitChoice(menus, m, input[1..]).trace);
    case Int(choice) =>
      StepChoice(menus, m, input, choice);
      DispatchShowsOnlyArena(menus, m, choice, input[1..]);
  }

  lemma {:induction false} DispatchShowsOnlyArena(menus: seq<Menu>, m: MenuId, choice: int, rest: seq<Token>)
    requires WellFormed(menus) && m < |menus|
    ensures AllAllowed(menus, Dispatch(menus, m, choice, rest).trace)
    decreases |rest| + 1, 0
  {
    var items := menus[m].items;
    if choice == 0 {
    } else if 0 < choice <= |items| {
      match items[choice - 1].payload
      case Action(a) =>
        SessionShowsOnlyArena(menus, m, rest);
        assert Registered(menus, a) by {
          assert menus[m].items[choice - 1].payload == Action(a);
        }
        assert AllAllowed(menus, [Call(a)]);
        AllAllowedConcat(menus, [Call(a)], Session(menus, m, rest).trace);
      case Submenu(s) =>
        assert items[choice - 1].IsSubmenu();
        var sub := Session(menus, s, rest);
        SessionShowsOnlyArena(menus, s, rest);
        if sub.status == Exited {
          SessionShowsOnlyArena(menus, m, sub.rest);
          AllAllowedConcat(menus, sub.trace, Session(menus, m, sub.rest).trace);
        }
    } else {
      var msg := [Text(InvalidChoiceMessage(|items|))];
      SessionShowsOnlyArena(menus, m, rest);
      assert Allowed(menus, msg[0]);
      AllAllowedConcat(menus, msg, Session(menus, m, rest).trace);
    }
  }

  // ------------------------------------------------------ a worked example

  /** Menu 0, "Main", holds the action "Start" (action 0) and the submenu
      "Config" (menu 1); menu 1 holds the action "Toggle" (action 1). */
  function ConfigDemo(): seq<Menu>
  {
    [ Menu("Main", "", [MenuItem("Start", "", Action(0)), MenuItem("Config", "", Submenu(1))]),
      Menu("Config", "", [MenuItem("Toggle", "", Action(1))]) ]
  }

  lemma DemoMainRender()
    ensures Render(ConfigDemo()[0]) == "\n=== Main ===\n" + "1. Start\n" + "2. Config\n" + ExitLine + Prompt
  {
    var menu := ConfigDemo()[0];
    assert ItemLine(1, menu.items[0]) == "1. Start\n" by {
      assert NatToString(1) == "1";
    }
    assert ItemLine(2, menu.items[1]) == "2. Config\n" by {
      assert NatToString(2) == "2";
    }
    assert ItemLines(menu.items[1..], 2) == "2. Config\n" by {
      assert menu.items[1..][1..] == [];
    }
    assert ItemLines(menu.items, 1) == "1. Start\n" + "2. Config\n";
    assert Header(menu) == "\n=== Main ===\n";
  }

  lemma DemoConfigRender()
    ensures Render(ConfigDemo()[1]) == "\n=== Config ===\n" + "1. Toggle\n" + ExitLine + Prompt
  {
    var menu := ConfigDemo()[1];
    assert NatToString(1) == "1";
    assert ItemLines(menu.items, 1) == "1. Toggle\n" by {
      assert menu.items[1..] == [];
    }
    assert Header(menu) == "\n=== Config ===\n";
  }

  lemma DemoWellFormed()
    ensures WellFormed(ConfigDemo())
  {
    var menus := ConfigDemo();
    forall m, j | 0 <= m < |menus| && 0 <= j < |menus[m].items| && menus[m].items[j].IsSubmenu()
      ensures menus[m].items[j].payload.menu < |menus|
    {
      assert m == 0 && j == 1;
    }
  }

  /** Input `2, 1, 0, 0` on the example, in terms of the two drawings. */
  lemma ConfigTrace()
    ensures WellFormed(ConfigDemo())
    ensures var main := Text(Render(ConfigDemo()[0]));
            var config := Text(Render(ConfigDemo()[1]));
            Session(ConfigDemo(), 0, [Int(2), Int(1), Int(0), Int(0)]) ==
              Outcome(Exited, [main, config, Call(1), config, main], [])
  {
    var menus := ConfigDemo();
    DemoWellFormed();
    var main := Text(Render(menus[0]));
    var config := Text(Render(menus[1]));
    ChooseExit(menus, 0, []);
    ChooseExit(menus, 1, [Int(0)]);
    assert [Int(1), Int(0), Int(0)] == [Int(1)] + [Int(0), Int(0)];
    ChooseAction(menus, 1, 1, [Int(0), Int(0)]);
    assert Session(menus, 1, [Int(1), Int(0), Int(0)]) == Outcome(Exited, [config, Call(1), config], [Int(0)]);
    assert [Int(2), Int(1), Int(0), Int(0)] == [Int(2)] + [Int(1), Int(0), Int(0)];
    ChooseSubmenu(menus, 0, 2, [Int(1), Int(0), Int(0)]);
    assert [main] + [config, Call(1), config] + [main] == [main, config, Call(1), config, main];
  }

  /** Input `2, 1, 0, 0`: draw Main, enter Config, draw it, call Toggle, draw
      Config again, leave it, draw Main again, leave Main. */
  lemma ConfigScenario()
    ensures WellFormed(ConfigDemo())
    ensures var main := "\n=== Main ===\n" + "1. Start\n" + "2. Config\n" + ExitLine + Prompt;
            var config := "\n=== Config ===\n" + "1. Toggle\n" + ExitLine + Prompt;
            Session(ConfigDemo(), 0, [Int(2), Int(1), Int(0), Int(0)]) ==
              Outcome(Exited, [Text(main), Text(config), Call(1), Text(config), Text(main)], [])
  {
    ConfigTrace();
    DemoMainRender();
    DemoConfigRender();
  }
}
