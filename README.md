# Nanobots of the idle game, in Dafny

This project models the nanobot module of a terminal idle game. A player builds
nanobots from *nano cores*. A nanobot has a name, a specialisation (`Nanotype`),
six stats fixed by that specialisation, and a small behaviour script. The script
has lines of two forms:

- `idle <action>`: what the nanobot does when nothing happens;
- `on <event> <action>`: what it does when an event fires.

The player can do four things with nanobots:

- **create** one (`nano`), which costs one normal core, plus one core of the
  specialisation for a specialised nanobot;
- **remove** a functional one, which gives those cores back;
- **repair** a broken one (`fsck`) for 50 gold, or 20 gold in quick mode;
- **list** them all.

Modules:

- `Wrappers` (wrappers.dfy): `Option`, which stands for Python's `None`.
- `Text` (text.dfy): the Python string operations the script reader relies on,
  stated exactly:
  - `str.isspace`, with the full Unicode white-space set;
  - `strip()`;
  - `startswith`;
  - `split()` with no separator;
  - `splitlines()`, with every Python line boundary, `\r\n` counting as one
    boundary, and no empty line after a final boundary;
  - `"\n".join`.
- `Catalog` (catalog.dfy): the specialisations, the stat table and the
  complexity score. Stats and complexity are exact reals where the game uses
  floats.
- `Script` (script.dfy): the meaning of a behaviour script as a pure function.
  - `Classify` turns one line into a declaration.
  - `ParseDecls` folds the declarations in order, so a later one overrides an
    earlier one.
  - `ParseScript` reads a whole script.
  - The lemmas cover last-wins, well-formedness, the serialise/parse round trip
    and idempotence.
- `Nanobots` (nanobots.dfy): the `Nanobot` class.
  - Its fields are updated in place, as in the game: the stats in `SetStats`,
    the complexity in `UpdateComplexity`, and the behaviour in `ParseLogic`,
    a loop over the script's lines.
  - `Valid()` ties the fields to the specification functions.
  - `CurrentAction` resolves what the nanobot is doing.
- `Roster` (roster.dfy): the `Player` class, with its roster, core pools and
  gold, and the four commands.
  - Each command first runs its checks in the game's order (`CheckCreate`,
    `CheckRemove`, `CheckFsck`). These are proved equal to a pure verdict
    function.
  - Then it applies its effect (`Enlist`, `Dismiss`, `Mend`).
  - A failed check leaves every part of the player unchanged.
  - `Player.Valid()` says:
    - every pool is present and non-negative;
    - gold is non-negative;
    - names are distinct;
    - every nanobot is as it was built.
  - Every command preserves `Player.Valid()`.

How the game's inputs appear in the model:

- Prompts become parameters. `confirmed` is the answer to a yes/no prompt, or
  the `-y` flag. `name` is the name that was given or typed. `entered` is the
  script lines typed before `done`.
- A declined prompt is the outcome `Declined`, with nothing changed.
- Each printed message becomes an `Outcome` value.

The game prompts for a name only when none is given, and accepts whatever is
typed, including the empty string. So `CreateVerdict` lets an empty name through.

## Model

| member | source | states |
|---|---|---|
| Catalog.StatsOfBoostsOnly | idlegame/nanobots.py:23-46 | each stat of a new nanobot is its baseline (mining 1, defense 1, warp 0, learn 0.2, scan 0.01, connection 0.1) unless its type boosts it, in which case it has the boosted value (mining or defense 1.3, warp 0.1, learn 0.5, scan 0.2, connection 0.3), which is higher |
| Catalog.BoostCount | idlegame/nanobots.py:31-46 | a normal nanobot has no boosted stat, a super one has two (mining and defense), every other type has exactly one |
| Catalog.ComplexityDoubles | idlegame/nanobots.py:53-55 | a specialised nanobot's complexity is exactly twice that of a normal one with a script of the same length |
| Catalog.ComplexityMonotone | idlegame/nanobots.py:53-55 | a longer script never has a lower complexity |
| Catalog.Complexity | idlegame/nanobots.py:53-55 | complexity is never negative |
| Nanobots.Nanobot.constructor | idlegame/nanobots.py:18-51 | a new nanobot keeps its name and type, stores its script stripped, is functional, and is valid: its stats are its type's, its complexity is its script's, and its behaviour is the one its script declares |
| Nanobots.Nanobot.Initialise | idlegame/nanobots.py:24-51 | on a nanobot with no behaviour yet, reading the script, computing the complexity and setting the stats leave it valid: its stats are its type's, its complexity is its script's, and its behaviour is the one its script declares |
| Nanobots.Nanobot.SetStats | idlegame/nanobots.py:24-46 | after the baseline assignments and the type's overrides, the stats are exactly the type's row of the stat table |
| Nanobots.Nanobot.UpdateComplexity | idlegame/nanobots.py:53-55 | the complexity becomes a tenth of the script length, doubled for non-normal types |
| Nanobots.Nanobot.ParseLogic | idlegame/nanobots.py:57-67 | the loop over the script's lines leaves, on a nanobot with no behaviour yet, exactly the behaviour the script declares |
| Nanobots.Nanobot.ReadLine | idlegame/nanobots.py:61-67 | one trimmed line updates the idle action, or one event binding, or nothing, exactly as its declaration says |
| Nanobots.Nanobot.CurrentAction | idlegame/nanobots.py:69-77 | "BROKEN" exactly when not functional; otherwise a bound non-empty event gives the event sentence; otherwise a non-empty idle action gives the idle sentence; "IDLE" exactly when none of these applies; never empty |
| Script.IdleLastWins | idlegame/nanobots.py:60-63 | the idle action is set by the last idle declaration, to its action |
| Script.IdleUntouched | idlegame/nanobots.py:60-63 | without an idle declaration, the idle action stays what it was |
| Script.EventsLastWins | idlegame/nanobots.py:64-67 | an event is bound to the action of the last declaration for it |
| Script.EventsUntouched | idlegame/nanobots.py:64-67 | declarations for other events leave an event's binding, or its absence, as it was |
| Script.EventsComeFromDecls | idlegame/nanobots.py:64-67 | every bound event was bound before or is named by a declaration |
| Script.EventsBound | idlegame/nanobots.py:64-67 | starting from no behaviour, an event is bound exactly when some declaration names it |
| Script.ScriptIdleLastWins | idlegame/nanobots.py:59-63 | a script's idle action is the action of its last `idle` line |
| Script.ScriptNoIdle | idlegame/nanobots.py:59-63 | a script with no `idle` line leaves the idle action unset |
| Script.ScriptEventLastWins | idlegame/nanobots.py:59-67 | a script binds an event to the action of its last `on` line for that event |
| Script.ClassifyWellFormed | idlegame/nanobots.py:61-67 | a line with no line boundary declares a non-empty, single-line, trimmed idle action, or two single words, or nothing |
| Script.ParseScriptWellFormed | idlegame/nanobots.py:57-67 | whatever the script, the idle action is unset or non-empty, trimmed and single-line, and every event and action is one word |
| Script.ClassifyRender | idlegame/nanobots.py:61-67 | a well-formed declaration written as a line (`idle a`, `on e a`) reads back as itself |
| Script.ReadRendered | idlegame/nanobots.py:59-67 | rendered declarations joined by newlines read back as those declarations |
| Script.RoundTrip | idlegame/nanobots.py:57-67 | serialising a well-formed behaviour and parsing it gives the behaviour back |
| Script.ParseIdempotent | idlegame/nanobots.py:57-67 | parsing the serialisation of a parsed script gives the same behaviour |
| Script.ParseExample | idlegame/nanobots.py:57-67 | the script `idle i` / `on e a1` / `on e a2` declares idle `i` and binds only `e`, to `a2` |
| Text.Strip | idlegame/nanobots.py:48 | the result is the input with a run of leading and a run of trailing white space cut off, and no white space is left at either end; it is empty exactly when the input is all white space, and an already trimmed input comes back unchanged |
| Text.SplitLines | idlegame/nanobots.py:59 | no line contains a line boundary |
| Text.SplitJoinLines | idlegame/nanobots.py:59 | splitting the newline-join of non-empty single-line lines gives those lines back |
| Text.SplitWs | idlegame/nanobots.py:65 | every word is non-empty and free of white space |
| Text.SplitWsPair | idlegame/nanobots.py:65 | splitting two words joined by a space gives the two words |
| Roster.FindIndex | idlegame/nanobots.py:129 | the position found holds the name and no earlier nanobot has it; nothing is found exactly when no nanobot has the name |
| Roster.Lookup | idlegame/nanobots.py:129 | the search loop returns the position of the first nanobot with the name |
| Roster.RepairFee | idlegame/nanobots.py:184 | the fee is positive, at most the standard 50, and below it exactly in quick mode |
| Roster.CreateVerdict | idlegame/nanobots.py:85-108 | creation succeeds exactly when there is a normal core, a core of the type for a specialised nanobot, a confirmation, a name of at most 15 characters and no nanobot of that name; each failure is reported exactly when its check is the first to fail, in that order: no normal core, no core of the type, declined, name too long, duplicate name |
| Roster.CheckCreate | idlegame/nanobots.py:85-108 | the checks, in the game's order, give the creation verdict |
| Roster.HandleNano | idlegame/nanobots.py:79-120 | on failure nothing changes; on success one new functional nanobot with the name, type and stripped script is appended, one normal core and, for a specialised type, one core of the type are taken; gold is untouched and the player stays valid |
| Roster.Enlist | idlegame/nanobots.py:113-117 | appending a valid nanobot with a new name and debiting its cores keeps the player valid |
| Roster.RemoveVerdict | idlegame/nanobots.py:124-137 | removal succeeds exactly when a name is given, a nanobot has it, and the first such nanobot is functional; missing name exactly when none is given; not found exactly when no nanobot has the name; broken exactly when the first nanobot with it is broken |
| Roster.CheckRemove | idlegame/nanobots.py:124-137 | the checks, in the game's order, give the removal verdict and the nanobot's position |
| Roster.HandleRemove | idlegame/nanobots.py:122-146 | on failure nothing changes; on success the first nanobot with the name is taken out, its cores are credited back, gold is untouched and the player stays valid |
| Roster.Dismiss | idlegame/nanobots.py:139-143 | taking a nanobot out and crediting its cores keeps the player valid |
| Roster.FsckVerdict | idlegame/nanobots.py:167-193 | repair succeeds exactly when a name is given, the first nanobot with it is broken, the gold covers the fee and the repair is confirmed; missing name, not found, already functional, not enough gold and declined are each reported exactly when their check is the first to fail, in that order |
| Roster.CheckFsck | idlegame/nanobots.py:167-193 | the checks, in the game's order, give the repair verdict and the nanobot's position |
| Roster.HandleFsck | idlegame/nanobots.py:165-200 | on failure nothing changes; on success gold drops by exactly the fee and only the named nanobot becomes functional; no nanobot's stats, complexity or behaviour change, pools never change, and the player stays valid, so gold never goes negative |
| Roster.Mend | idlegame/nanobots.py:195-197 | charging a fee the gold covers and making a listed nanobot functional keeps the player valid |
| Roster.ListRow | idlegame/nanobots.py:157-161 | a row shows the nanobot's name and type; the idle action when it is set and non-empty, "None" otherwise; the event bindings when there are any, no events exactly when none are bound; and the current action without an event, which is never empty, so the "None" fallback never shows |
| Roster.HandleList | idlegame/nanobots.py:148-163 | an empty roster gives no rows, otherwise one row per nanobot in roster order |
| Roster.Debit | idlegame/nanobots.py:115-117 | building takes one normal core and, for a specialised type, one core of the type; no other pool changes and no pool appears or disappears |
| Roster.Credit | idlegame/nanobots.py:139-141 | taking a nanobot apart gives back one normal core and, for a specialised type, one core of the type; no other pool changes and no pool appears or disappears |
| Roster.Without | idlegame/nanobots.py:143 | the roster loses exactly the nanobot at the position; the others keep their order |
| Roster.CreditUndoesDebit | idlegame/nanobots.py:115-141 | crediting a type's cores back after debiting them gives the pools as they were |
| Roster.DebitKeepsPoolsValid | idlegame/nanobots.py:85-117 | debiting cores that the checks found present leaves no pool negative and raises none |
| Roster.CreditKeepsPoolsValid | idlegame/nanobots.py:139-141 | crediting cores leaves no pool negative and lowers none |
| Roster.FindAppended | idlegame/nanobots.py:106-129 | a nanobot appended under a new name is found at the end |
| Roster.CreateThenRemoveRestores | idlegame/nanobots.py:113-143 | creating a nanobot under a new name and removing it by name restores the roster and the pools |
| Roster.CreateThenRemove | idlegame/nanobots.py:79-146 | a confirmed creation that succeeds, followed by removal by the same name, succeeds and leaves roster and pools as they were |
| Roster.UniqueAppend | idlegame/nanobots.py:106-114 | appending a nanobot whose name is new keeps the names distinct |
| Roster.UniqueWithout | idlegame/nanobots.py:143 | removing a nanobot keeps the names distinct |

## Left out

- Terminal input and output are not modelled: `input()`, `print`, the column
  formatting of the listing, and the loading bar (`animated_loading_bar`,
  `time.sleep`). Prompt answers become parameters and messages become `Outcome`
  values.
- `player.save()` and the autosaving player are not part of this model. Saving
  is persistence outside the module.
- The type argument is not converted from a string (`.upper()`, `Nanotype[...]`
  and the lower-case pool key). The model takes a `Nanotype` directly, so an
  unknown type string is not represented.
- Floats are modelled as exact reals. Rounding in `len/10` and in the stat
  constants is not modelled.
- Only the listing's contents are modelled. The event column is the set of
  bindings, not the comma-joined text in dictionary insertion order; it shows
  "None" exactly when no event is bound.
- Nothing in this module ever sets `functional` to false. It is a plain field
  that the model leaves free.
- Nanobots.Nanobot.ParseLogic: the result is stated only for a nanobot with no
  behaviour yet. That is the one way the game calls it, from the constructor.
  The loop invariant does prove the general fold over any starting behaviour.
- Nanobots.Nanobot.constructor: the fields are set in a different order from
  the game's. The script is read first and the stats are set last. None of
  these steps reads a field another one writes, so the new nanobot is the same.
- Python's `list.remove` drops the first element identical to the one found.
  The model removes at the found position, which is the same element.
- Roster.Player.Valid requires every pool, including the normal pool, to be
  present. The game subtracts from and adds to the pool keys directly, and an
  absent key would raise an error, which the model does not represent.
