# MenuMaker in Dafny

MenuMaker is a header-only C++ library for nested console menus. It has one class, `Menu`, in `menu.h`. A menu has a title, an optional description and a list of items. Items are only ever appended. Each item is either an action, which calls a function pointer, or a submenu, which holds a non-owning pointer to another `Menu`. `display()` runs the interactive loop. Each pass draws the menu, reads an integer choice and acts on it:

- a failed read of an integer drops the rest of its line, "Invalid input!" is printed, and the prompt repeats;
- `0` leaves the loop;
- `1..N` calls the action, or runs the submenu's own `display()`;
- any other number prints "Invalid choice!" with the valid range.

After a choice other than `0`, the loop draws the whole menu again.

This project models that class:

- `decimal.dfy`, module `Decimal`: the decimal text that `operator<<` prints for item numbers and the item count, and the parse that reads it back.
- `menu.dfy`, module `Menus`: the data model as datatypes. `Payload = Action(id) | Submenu(menuId)` is the tagged union, and the constructor that builds it fixes the tag. It also holds `Render`, the exact text of one drawing. Finally it gives `Session`, `AwaitChoice` and `Dispatch`: what one `display()` call shows, calls and leaves unread, as a function of the menus and the input tokens. `Session` is one drawing followed by `AwaitChoice`, the retry loop. `AwaitChoice` hands the first integer to `Dispatch`, the exit, item and range branches.
- `arena.dfy`, module `MenuArena`: class `Arena`. The menus live in a sequence indexed by menu id, instead of behind raw pointers. Submenu references are ids, so they can be shared or cyclic. `NewMenu`, `AddItem` and `AddSubmenu` update the arena in place. `Draw` is the item loop that draws a menu. `Display` is the `while (true)` loop with its retry loop and the recursive submenu call. `Display` is proved to produce exactly what `Session` specifies.
- `display.dfy`, module `DisplayProperties`: properties of `Session` that hold for every arena and every input.

Input is injected as a sequence of tokens. `Int(k)` is one successful `>> int` read. That read skips leading whitespace, newlines included, so one line can carry several integers or none. `Malformed` is one failed read together with the rest of its line, which `ignore` discards. For example, an empty line contributes no token, the line `5abc` is `Int(5), Malformed`, and the line `1 2` is `Int(1), Int(2)`. Output is a trace of events. `Text(s)` is text printed by the menu. `Call(a)` is a call of action `a`, whose own effects lie outside the model. The trace keeps calls in order with the redraws around them. `display()` takes no `modifies` clause in the model (`Arena.Display` changes nothing), so every redraw of a menu in one session is the same `Render` text.

The loop ends on its measure, the length of the unread input. Every pass reads at least one token, and a nested call reads no more than it was given. This holds for cyclic submenu references too. When the input ends at a prompt, the model stops with status `InputExhausted`. The source behaves differently there (see Findings).

## Model

| member | source | states |
|---|---|---|
| `MenuArena.Arena.NewMenu` | menu.h:63-64 | a new menu gets the next id, has the given title and description (defaults "Menu" and ""), has no items, and the other menus are unchanged |
| `MenuArena.Arena.AddItem` | menu.h:72-74 | appends exactly one action item, built by the action constructor, so its tag says "not a submenu", at the end of menu `m`; earlier items, title, description and every other menu are unchanged; every submenu reference still names a menu |
| `MenuArena.Arena.AddSubmenu` | menu.h:82-84 | appends exactly one submenu item, tagged as a submenu, referencing an existing menu, at the end of menu `m`; nothing else changes; shared and cyclic references are allowed |
| `MenuArena.Arena.Draw` | menu.h:100-112 | the item loop produces exactly `Render` of the menu |
| `MenuArena.Arena.Display` | menu.h:98-135 | the loop, with its retry loop and recursive submenu calls, returns exactly the trace, status and unread input that `Session` specifies |
| `MenuArena.RunConfigDemo` | menu.h:98-135 | a Main menu with action Start and submenu Config, where Config holds the action Toggle, is built through the arena's operations; on input `2, 1, 0, 0` it draws Main, draws Config, calls Toggle, draws Config, draws Main, and exits with nothing unread |
| `Decimal.NatToStringIsDecimal` | menu.h:105 | a printed number is a non-empty string of decimal digits, with no leading zero except for 0 itself; it has one digit exactly when the number is below 10 |
| `Decimal.DecimalRoundTrip` | menu.h:105 | reading the printed digits back gives the number |
| `Decimal.NatToStringInjective` | menu.h:131-132 | different counts print differently, so the range message determines the item count |
| `Menus.Session` | menu.h:98-135 | a `display()` call never leaves more input unread than it was given, which is also its termination measure |
| `Menus.AwaitChoice` | menu.h:114-120 | the retry loop after a drawing leaves no more input than it was given |
| `Menus.Dispatch` | menu.h:122-133 | acting on a choice leaves no more input than followed the choice, even through a nested submenu call |
| `Menus.RenderLayout` | menu.h:100-112 | `Render`, the text of one drawing, is the title line `"\n=== title ===\n"`, then `"\n" + description + "\n\n"` exactly when the description is not empty, then the item lines, then `"0. Exit\n"` and `"Choice: "` |
| `Menus.InvalidChoiceMessageNamesCount` | menu.h:131-132 | the range message is `"Invalid choice! Please select a number between 0 and "`, then the item count in decimal, then `".\n"`; its digits read back as the count |
| `Menus.ItemLinesConcat` | menu.h:104-110 | the item lines of two lists in a row are the lines of the first list, then the lines of the second list numbered on from where the first stopped |
| `Menus.ItemLinesAppend` | menu.h:104-110 | drawing one more item adds exactly its line, numbered one past the other items, at the end of the item lines |
| `Menus.RenderShowsItem` | menu.h:104-110 | item `k` (counting from 0) is drawn as the line numbered `k + 1`, `"k+1. name"` plus `" - desc"` when the description is not empty, placed right after the header and the lines of the items before it |
| `Menus.RenderAfterAppend` | menu.h:72-74 | after an append, the drawing is the old drawing with just one new line, numbered one past the old count, inserted above `"0. Exit"` |
| `Menus.CallsConcat` | menu.h:126 | the actions called by two traces in a row are those of the first trace, then those of the second |
| `DisplayProperties.ChooseExit` | menu.h:122 | choosing `0` ends the call after a single drawing; nothing is called, no submenu is entered, and the input after the `0` is left for the caller |
| `DisplayProperties.ChooseAction` | menu.h:123-126 | choosing an action item calls exactly that action once, after the drawing, and then the same menu is drawn again |
| `DisplayProperties.ChooseSubmenu` | menu.h:127-129 | choosing a submenu item runs the submenu's own loop, which starts with the submenu's drawing; if it exits, the parent is drawn again and reads the input the submenu left |
| `DisplayProperties.ChooseOutOfRange` | menu.h:130-133 | a choice below 0 or above N prints the range message naming N, calls nothing, and the whole menu is drawn again |
| `DisplayProperties.MalformedRetry` | menu.h:115-120 | a run of malformed tokens adds one "Invalid input!" message and one prompt per token, and nothing else; the wait for a choice then goes on as if the run were absent |
| `DisplayProperties.MalformedThenChoice` | menu.h:115-120 | malformed tokens before a choice leave the status, the unread input and the actions called unchanged; the only change is the retry lines right after the first drawing, with no redraw between them |
| `DisplayProperties.OnlyMalformed` | menu.h:115-120 | input that ends inside the retry loop gives status `InputExhausted` after one drawing and one retry per token |
| `DisplayProperties.SessionConsumes` | menu.h:98-135 | a call reads a prefix of its input; it exits only right after reading a `0`; it runs out of input only after reading all of it; it calls at most one action per token read |
| `DisplayProperties.AwaitChoiceConsumes` | menu.h:114-120 | the same, for the retry loop and what follows it |
| `DisplayProperties.DispatchConsumes` | menu.h:122-133 | the same, for acting on a choice, counting the token that carried the choice as read; `0` exits right after that token |
| `DisplayProperties.SessionShowsOnlyArena` | menu.h:124-129 | a call shows only drawings and range messages of menus in the arena, the retry message and the prompt; it calls only actions that some action item of the arena holds. That the call is the chosen item's own action, read through the variant its tag names, is what `ChooseAction` and `ChooseSubmenu` state |
| `DisplayProperties.AwaitChoiceShowsOnlyArena` | menu.h:114-120 | the same, for the retry loop and what follows it |
| `DisplayProperties.DispatchShowsOnlyArena` | menu.h:122-133 | the same, for acting on a choice: an action item yields a call of an action the arena holds, a submenu item only events of a menu in the arena |
| `DisplayProperties.ConfigTrace` | menu.h:98-135 | on the two-level example with input `2, 1, 0, 0`, the events are the Main drawing, the Config drawing, the call of Toggle, the Config drawing and the Main drawing; the call exits with nothing unread |
| `DisplayProperties.ConfigScenario` | menu.h:98-135 | the two-level example on input `2, 1, 0, 0` gives exactly the five events listed for `RunConfigDemo`, with the drawings written out as text |
| `DisplayProperties.RetryAsWritten` | menu.h:115-120 | the retry loop as the source writes it, for a bounded number of reads: while every read fails it has printed the retry message and the prompt once per read; when a read succeeds within the bound, it has printed one retry message and prompt per token before that read, the read took an integer token, and it returns that integer as the choice together with exactly the input after it |
| `DisplayProperties.EndOfInputSpins` | menu.h:115-120 | the retry loop as written never reads a choice at end of input; after any number of passes it has printed that many retry messages and prompts |
| `DisplayProperties.RetryAsWrittenReadsChoice` | menu.h:115-120 | before the end of input, the retry loop as written prints one retry per malformed token and then reads the choice, just as the model does |

## Left out

- Real `std::cin`/`std::cout` and the stream calls `clear` and `ignore`. Input is a sequence of tokens, one per `>> int` read: `Int(k)` for a read that succeeds after skipping whitespace and newlines, `Malformed` for a read that fails together with the rest of its line. Splitting raw text into these tokens is not modelled. Output is an event trace.
- Integer parsing details: overflow of `>> int` and the `static_cast<int>` of the item count. A token that parses as an integer is a mathematical integer; anything else is `Malformed`.
- Function pointers and raw `Menu*` pointers. Actions are opaque ids recorded as `Call` events, and what they do is outside the model. Submenus are arena ids. A callback that changes a menu while it is displayed is not modelled: the source re-reads the item list on every pass, so an appended item appears at the next drawing; the model fixes the menus for a whole call.
- Stack depth: `Session` specifies the display loop, so the model does not capture a stack overflow from very deep or cyclic nesting. Every nested call still ends, because each one reads input.
- Memory management: lifetime, `new`/`delete` and dangling submenu pointers. The arena keeps every menu for as long as the arena exists.
- main.cpp, the demo program, is not part of this model. `RunConfigDemo` and `ConfigScenario` use an example of their own.

## Findings

| source | as written | input that shows it | evidently intended | confidence | as-written member | corrected member |
|---|---|---|---|---|---|---|
| menu.h:115-120 | At end of input, `std::cin >> choice` fails, `clear()` resets the flags, and `ignore` finds nothing. The next read fails again, so the loop prints "Invalid input! Please enter a number." and "Choice: " forever. | input that ends at any prompt, e.g. an empty input | the retry loop recovers from a malformed line and then stops waiting when there is no more input | high, from reading the code; not executed | `DisplayProperties.EndOfInputSpins` | `DisplayProperties.OnlyMalformed` |
