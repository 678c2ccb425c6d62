# cli-framework, modelled in Dafny

A model of the small header-only C++ toolkit for command-line tools. It has three parts:

- **`cli::Flags`** (`cli-framework/flags.hpp`) holds a registry of typed flags, keyed by `"-" + name`. Each flag is bound to a destination variable. `parse` walks `argv[1..argc)`:
  - a registered flag writes its destination: `-flag`, `-flag value` or `-flag=value`;
  - the help keyword, or (with auto-help) an unknown dash-led token, shows help and ends the parse;
  - every other token becomes a *clean argument*.
- **`cli::CommandHandler`** (`cli-framework/command.hpp`) keeps commands in a `std::map` by name. `run(name, args)` does three things:
  - resolves `name` through the alias lists;
  - refuses a command still inside its cooldown window;
  - otherwise calls the command's callback with `args`.
- **`vec_util`** (`tests/vec_util.hpp`) provides in-place `reverse`, and `split`, `join`, `format` and `includes`.

## Layout

| file | module | contents |
|---|---|---|
| `option.dfy` | `Optional` | `Option` |
| `strings.dfy` | `Strings` | `Less`, the order of `std::string`, which is lexicographic by character code; concatenation of lines and where each line lands |
| `ordered_map.dfy` | `OrderedMap` | `std::map<std::string, V>` as a strictly ascending association list |
| `flags.dfy` | `FlagParser` | the flag registry, `get_equal`, the parse of one token and of the whole vector (`Walk`), and the class `Flags` |
| `flag_properties.dfy` | `FlagProperties` | what a parse does with every token, the `-key=value` split, and worked examples |
| `command.dfy` | `Commands` | alias resolution, the cooldown gate (`Dispatch`), and the class `CommandHandler` |
| `command_properties.dfy` | `CommandProperties` | properties of alias resolution and of the cooldown gate |
| `vec_util.dfy` | `VecUtil` | each helper as a method, proved against a function that says what it computes |
| `vec_util_properties.dfy` | `VecUtilProperties` | round trips, counts and shapes of those functions |

## How the source is represented

**Loops become methods.** Each loop of the source is a method with that loop: `parse`, `get_equal`, `help_str`, `findbyAlias`, `help`, `reverse`, `split`, `join`, `format` and `includes`. Each method is proved equal to a function, and the properties are lemmas about that function. For example, `Flags.Parse` is proved equal to `Walk` over `argv[1..]`.

**Flag destinations.** The source stores a `void*` per flag. The model keeps a map `dests` from flag key to a tagged `Value`, and the tag picks the `set` overload.

**Number conversions.**
- `std::stol`, `std::stoll` and `std::stof` are parameters of type `Conversions`; `None` stands for a thrown exception.
- Assigning a `long` to an `int32_t` is written out as `Wrap32`.
- `std::chrono::milliseconds(size_t)` is written out as `Millis`.

**Commands.** Two members of `CommandHandler` are replaced:
- The clock becomes a parameter `now`, in milliseconds.
- The callback becomes an `Invocation` appended to the ghost log `invoked`.

**Quirks of the code.**
- **Alias before name.** `run` looks up aliases *before* names. When `name` is some command's alias, that command runs, even if `name` is itself a command key (`AliasBeforeName`).
- **Alias search stops early.** The alias search stops with nothing found at the first command, in key order, whose alias list is empty (`EmptyAliasesStop`).
- **No re-arm after expiry.** A cooldown that has expired is erased, not re-armed. The next call therefore runs without a gate and arms again, so after an expiry two calls can run back to back (`CooldownTrace`).
- **Zero cooldown.** A command with cooldown 0 is refused on a second call within the same millisecond, because the test is `<=` (`ZeroCooldownSameMillisecond`).
- **Type label of `int32_t`.** The label is `number`.
- **`get_args` before `parse`.** The comment at `cli-framework/flags.hpp:136-137` says that calling `get_args` before `parse` returns the arguments with the flags still in them. In fact `clean_args` starts empty, so `get_args` returns an empty vector until `parse` runs.
- **`get_equal` is not a plain split at '='.**
  - A registered key ends the key part as soon as it has been read.
  - The character right after that key is dropped.
  - Every '=' is dropped (`SplitEqualDropsNextChar`).
- **Duplicate keys in the initializer list.** The model keeps the first entry for a key (`OrderedMap.FromListGet`). This is what libstdc++ does; the C++ standard leaves the choice unspecified.
- **`format` of one element.** A one-element vector formats as `"[ e, "`, with no closing bracket (`FormattedOne`).

## Model

| member | source | states |
|---|---|---|
| OrderedMap.Get | cli-framework/flags.hpp:92 | `contains`/`find`: nothing is found exactly when no entry has the key |
| OrderedMap.Put | cli-framework/flags.hpp:225 | `flags[key] = data`: the only new entry is `(key, data)`, and every entry of another key is kept |
| OrderedMap.FromList | cli-framework/command.hpp:33-34 | every entry of the map built from an initializer list comes from that list |
| OrderedMap.PutGet | cli-framework/flags.hpp:225 | after `flags[key] = data`, looking up `key` gives `data`, and every other key is unchanged |
| OrderedMap.PutSorted | cli-framework/flags.hpp:225 | inserting into the map keeps the keys strictly ascending |
| OrderedMap.FromListSorted | cli-framework/command.hpp:33-34 | the map built from an initializer list has strictly ascending keys |
| OrderedMap.FromListGet | cli-framework/command.hpp:33-34 | in the map built from an initializer list, each key holds its first entry in the list |
| OrderedMap.SortedGet | cli-framework/flags.hpp:104 | in a map with ascending keys, the lookup of an entry's key finds that entry |
| FlagParser.Wrap32 | cli-framework/flags.hpp:246 | a `long` stored into an `int32_t` lands in [-2^31, 2^31), is congruent to it mod 2^32, and is unchanged when it already fits |
| FlagParser.Convert | cli-framework/flags.hpp:243-250 | a conversion yields a value of the flag's own type; a string is taken verbatim; an int is within 32 bits |
| FlagParser.Write | cli-framework/flags.hpp:229-254 | writing one flag leaves every other destination as it was; an existing destination stays; a bool destination becomes true |
| FlagParser.WriteTyped | cli-framework/flags.hpp:229-254 | writing a flag's destination keeps every destination holding a value of its flag's type |
| FlagParser.EnumToStr | cli-framework/flags.hpp:148-172 | the type label shown in the help text is never empty |
| FlagParser.FlagLine | cli-framework/flags.hpp:130 | a help line is the key, the type label and the description plus five characters (' ', " \| " and the newline) |
| FlagParser.FlagLinesInOrder | cli-framework/flags.hpp:128-131 | in a registry in key order, each flag line sits verbatim at its offset of the text, and the lines start in ascending key order |
| FlagParser.EqualScan | cli-framework/flags.hpp:191-204 | the value collected by the `get_equal` loop never gains an '=', and its key part is only ever set to a registered key |
| FlagParser.SplitEqual | cli-framework/flags.hpp:186-209 | `get_equal` returns a value with no '=' and a key that is empty or registered |
| FlagParser.Classify | cli-framework/flags.hpp:83-104 | a flag token carries the registry's own entry for its key, and that key is never the help key |
| FlagParser.Walk | cli-framework/flags.hpp:71-108 | once help has been shown it stays shown for the rest of the parse |
| FlagParser.WalkTyped | cli-framework/flags.hpp:71-108 | a whole parse keeps every destination holding a value of its flag's type |
| FlagParser.WalkFlag | cli-framework/flags.hpp:104-106 | a flag token writes its destination and consumes one token (bool, or `=` form) or two tokens (bare non-bool); a bare non-bool flag as the last token has no parse |
| FlagParser.Flags.constructor | cli-framework/flags.hpp:31-39 | the help key is `"-" + help_keyword`; registry, destinations and clean arguments start empty |
| FlagParser.Flags.Set | cli-framework/flags.hpp:41-69 | registers the flag under `"-" + name`, with the type of the bound value and its description; binds the destination; changes nothing else and returns the same parser |
| FlagParser.Flags.AddFlag | cli-framework/flags.hpp:212-226 | the registry entry under `"-" + name` is created or replaced; the registry stays in key order |
| FlagParser.Flags.GetEqual | cli-framework/flags.hpp:186-209 | the character loop computes `SplitEqual`, the (key, value) pair of a `-key=value` token |
| FlagParser.Flags.ParseType | cli-framework/flags.hpp:229-254 | a bool destination becomes true; any other destination takes the converted `=` value or next token, or keeps its value when conversion fails; `skip_next` is set exactly for a bare non-bool flag, even when conversion fails |
| FlagParser.Flags.ParseToken | cli-framework/flags.hpp:83-106 | one loop iteration, by the token's class: the help stop sets only the help flag and stops; a positional token is appended to the clean arguments and nothing else changes; a flag writes its destination with the `=` value or the next token, nothing else changes, and `skip_next` is set exactly for a bare non-bool flag; `Walk` advances past exactly the token (and its value) |
| FlagParser.Flags.Parse | cli-framework/flags.hpp:71-108 | the clean arguments, destinations and help flag after `parse` are those of `Walk` over `argv[1..argc)`; destinations stay typed |
| FlagParser.Flags.Help | cli-framework/flags.hpp:110-119 | help has been shown |
| FlagParser.Flags.HelpStr | cli-framework/flags.hpp:121-134 | the text is the flag lines concatenated; each line `name type-label \| description` sits at its offset, and lines appear in ascending key order |
| FlagParser.Flags.GetArgs | cli-framework/flags.hpp:138 | returns the clean arguments, which the constructor leaves empty and `Parse` fills (`CleanArePositionals`) |
| FlagProperties.RegisterAgainReplaces | cli-framework/flags.hpp:225 | registering a key twice is the same as registering it once with the second data: the last registration wins |
| FlagProperties.LabelNamesKind | cli-framework/flags.hpp:148-172 | each type label names its type back: the label alone determines the type |
| FlagProperties.HasEqualAt | cli-framework/flags.hpp:174-180 | `has_equal` holds exactly when the token starts with '-' and has an '=' at some later position |
| FlagProperties.TypeLabelsDistinct | cli-framework/flags.hpp:148-172 | the five type labels are pairwise distinct |
| FlagProperties.SplitEqualFlagForm | cli-framework/flags.hpp:186-209 | `key=value` splits into (key, value) when key is registered, no shorter prefix is, and no proper prefix of the value is a key |
| FlagProperties.SplitEqualExample | cli-framework/flags.hpp:186-209 | with `-s` registered, `-s=hello` splits into (`-s`, `hello`) |
| FlagProperties.SplitEqualDropsNextChar | cli-framework/flags.hpp:193-197 | with `-s` registered, `-sx=1` splits into (`-s`, `1`): the character after a registered prefix is lost |
| FlagProperties.HelpKeywordStops | cli-framework/flags.hpp:95-96 | the bare help key stops the parse |
| FlagProperties.AutoHelpStops | cli-framework/flags.hpp:95-96 | with auto-help, an unregistered dash-led token stops the parse |
| FlagProperties.UnknownIsPositional | cli-framework/flags.hpp:98-102 | without auto-help, an unregistered token other than the help key is a clean argument |
| FlagProperties.StopIgnoresRest | cli-framework/flags.hpp:95-96 | after a stopping token, help is shown and the parse result does not depend on any later token |
| FlagProperties.BoolFlagTakesNoValue | cli-framework/flags.hpp:232-236 | a registered bool flag sets its destination to true and the parse continues with the very next token |
| FlagProperties.BoolFlagIgnoresInlineValue | cli-framework/flags.hpp:232-236 | `-x=anything` on a bool flag still sets true and consumes no extra token |
| FlagProperties.EqualFormMatchesBare | cli-framework/flags.hpp:238-247 | `-k=v` and `-k v` leave the same destinations and resume at the same token |
| FlagProperties.FailedConversionSkipsValue | cli-framework/flags.hpp:240-253 | a value the conversion rejects leaves the destinations unchanged, and the value token is still skipped |
| FlagProperties.MissingValue | cli-framework/flags.hpp:238 | a bare non-bool flag as the last token has no parse (the source reads past `argv`) |
| FlagProperties.Roles | cli-framework/flags.hpp:75-106 | each token gets exactly one role: positional, flag, value, help stop or unreached |
| FlagProperties.NoPositionals | cli-framework/flags.hpp:98-102 | tokens with no positional role contribute no clean arguments |
| FlagProperties.CleanArePositionals | cli-framework/flags.hpp:98-102 | the parse appends to the clean arguments exactly the positional tokens, in their input order |
| FlagProperties.HelpMeansStop | cli-framework/flags.hpp:95-96 | help is shown exactly when some token has the help-stop role |
| FlagProperties.NothingAfterStop | cli-framework/flags.hpp:95-96 | every token after the help stop is unreached |
| FlagProperties.ValueFollowsFlag | cli-framework/flags.hpp:238-241 | a value token comes right after a bare, registered, non-bool flag |
| FlagProperties.RolesFollowClassify | cli-framework/flags.hpp:85-102 | positional tokens are unregistered, flag tokens registered, and the stop is a help token |
| FlagProperties.BoolStaysTrue | cli-framework/flags.hpp:232-236 | once a bool destination is true it stays true for the rest of the parse |
| FlagProperties.BoolFlagSetsTrue | cli-framework/flags.hpp:232-236 | every registered bool flag that the parse meets ends up true |
| FlagProperties.UnnamedFlagKeepsValue | cli-framework/flags.hpp:71-108 | a flag that no examined token names keeps the value its destination had before the parse |
| FlagProperties.ExampleRegistryBuilt | cli-framework/flags.hpp:41-69 | registering `x`, `i` and `s` in that order gives the registry in key order `-i`, `-s`, `-x` |
| FlagProperties.ExampleParse | cli-framework/flags.hpp:71-108 | `prog -x -i 42 echo hi there` sets x to true and i to 42, leaves s as it was, and keeps `echo hi there` as clean arguments |
| FlagProperties.ExampleFailedConversion | cli-framework/flags.hpp:243-253 | `-i=notanumber` leaves i at its old value |
| Commands.Millis | cli-framework/command.hpp:52 | a `size_t` read as signed 64-bit milliseconds: in range, congruent mod 2^64, unchanged below 2^63 |
| Commands.AliasOwner | cli-framework/command.hpp:88-103 | a nonempty result is the key of a command whose alias list holds the name |
| Commands.Resolve | cli-framework/command.hpp:40-41 | when the alias search yields "" the key looked up is the name itself; otherwise it is the command that owns the alias |
| Commands.Dispatch | cli-framework/command.hpp:38-75 | the key gated is the resolved one; a refused call changes no cooldown; a call that runs is for a registered command and flips whether that command is armed |
| Commands.CommandLine | cli-framework/command.hpp:81 | a help line is the key and the description plus three characters (": " and the newline) |
| Commands.CommandHandler.constructor | cli-framework/command.hpp:33-34 | the commands are the initializer list in key order (first entry per key); no cooldowns, no calls |
| Commands.CommandHandler.Empty | cli-framework/command.hpp:36 | no commands, no cooldowns, no calls |
| Commands.CommandHandler.FindByAlias | cli-framework/command.hpp:88-103 | the nested loop with early returns computes `AliasOwner` |
| Commands.CommandHandler.Run | cli-framework/command.hpp:38-75 | result and new cooldowns are those of `Dispatch`; the resolved command's callback is called with `args`, once, exactly when `run` returns true; `cmds` is untouched and stays in key order |
| Commands.CommandHandler.Help | cli-framework/command.hpp:77-83 | the text is one `key: description` line per command, each in place, in ascending key order |
| CommandProperties.OwnerAt | cli-framework/command.hpp:90-99 | the first command the search reaches that lists the alias is the owner |
| CommandProperties.EmptyAliasesStop | cli-framework/command.hpp:92-93 | a reached command with no aliases ends the search with "" |
| CommandProperties.NoOwner | cli-framework/command.hpp:102 | a search that passes every command finds nothing |
| CommandProperties.OwnerIsFirst | cli-framework/command.hpp:88-103 | a nonempty answer is the key of the first reached command listing the alias (converse of the three above) |
| CommandProperties.OwnerListsAlias | cli-framework/command.hpp:95-98 | the owner's own record, as looked up in the map, lists the alias |
| CommandProperties.EmptyKeyNotFoundByAlias | cli-framework/command.hpp:40-41 | a command registered under "" is never found through its alias, because "" reads as "no owner" |
| CommandProperties.UnknownRefused | cli-framework/command.hpp:43-44 | a name that resolves to no command runs nothing and changes no cooldown |
| CommandProperties.AliasBeforeName | cli-framework/command.hpp:40-41 | when `name` is a reached command's alias, that command is the one gated and run, even if `name` is itself a key |
| CommandProperties.FirstCallArms | cli-framework/command.hpp:48-57 | a command that is not armed runs and is armed with its own cooldown from `now` |
| CommandProperties.WithinWindowRefused | cli-framework/command.hpp:62-67 | an armed command within its window is refused and the record is unchanged |
| CommandProperties.ExpiredRunsAndDisarms | cli-framework/command.hpp:68-69 | an expired command runs and its record is erased, not re-armed |
| CommandProperties.RanIff | cli-framework/command.hpp:38-75 | `run` succeeds exactly when the key is a command that is not armed or whose window has passed |
| CommandProperties.OtherCooldownsKept | cli-framework/command.hpp:48-70 | only the resolved key's cooldown record can change |
| CommandProperties.ArmedAreRegistered | cli-framework/command.hpp:43-56 | only registered commands are ever armed |
| CommandProperties.ZeroCooldownSameMillisecond | cli-framework/command.hpp:66 | with cooldown 0, a second call in the same millisecond is refused |
| CommandProperties.CooldownTrace | cli-framework/command.hpp:48-72 | arm at t0, refuse within the window, run and disarm after it, then run again immediately |
| CommandProperties.EchoByAlias | cli-framework/command.hpp:38-75 | `run("e", args)` calls `echo`'s callback with `args`; `run("echo", …)` 5000 ms later is refused |
| VecUtil.Reversed | tests/vec_util.hpp:9-24 | the reversal has the length and the elements of the original, each as often as before |
| VecUtil.ReversedAt | tests/vec_util.hpp:9-24 | element k of the reversal is element n-1-k of the original, for every k |
| VecUtil.Reverse | tests/vec_util.hpp:9-24 | the swap loop leaves the array holding the reversal of its old contents |
| VecUtil.SplitFrom | tests/vec_util.hpp:59-84 | no piece holds the separator |
| VecUtil.Pieces | tests/vec_util.hpp:59-84 | no piece of `split` holds the separator |
| VecUtil.Split | tests/vec_util.hpp:59-84 | the character loop computes `Pieces` |
| VecUtil.JoinedSnoc | tests/vec_util.hpp:100-107 | joining one more element appends the symbol and that element |
| VecUtil.Joined | tests/vec_util.hpp:87-110 | with the empty symbol, `join` writes the elements one after another |
| VecUtil.Join | tests/vec_util.hpp:87-110 | the loop computes `Joined`: the symbol after every element but the last |
| VecUtil.Formatted | tests/vec_util.hpp:27-57 | the display is "[]" exactly for the empty vector, and any other display starts with "[ " |
| VecUtil.Format | tests/vec_util.hpp:27-57 | the loop computes `Formatted`: "[]" for no elements, else the piece of each element in turn |
| VecUtil.Includes | tests/vec_util.hpp:115-122 | true exactly when the value occurs in the vector |
| VecUtilProperties.ReversedTwice | tests/vec_util.hpp:14-23 | reversing twice restores the original |
| VecUtilProperties.SplitFromEmpty | tests/vec_util.hpp:65-81 | the loop yields some piece exactly when there is input left |
| VecUtilProperties.SplitFromCount | tests/vec_util.hpp:65-81 | one piece per separator, plus one when the input ends in another character |
| VecUtilProperties.SplitShape | tests/vec_util.hpp:59-84 | `split("")` is empty, no piece holds the separator, and the count is as above |
| VecUtilProperties.JoinSplitFrom | tests/vec_util.hpp:59-84 | joining the pieces with the separator rebuilds the collected prefix plus the rest |
| VecUtilProperties.SplitJoin | tests/vec_util.hpp:59-110 | `join(split(s, c), c) == s` for nonempty s not ending in c |
| VecUtilProperties.SplitExamples | tests/vec_util.hpp:69-80 | neighbouring separators give an empty piece, a trailing one gives none, a leading one gives an empty first piece |
| VecUtilProperties.JoinedAppend | tests/vec_util.hpp:100-107 | joining two nonempty vectors is joining their results with one symbol |
| VecUtilProperties.JoinedEnds | tests/vec_util.hpp:100-107 | the result starts with the first element and ends with the last: no leading or trailing symbol |
| VecUtilProperties.FormatTail | tests/vec_util.hpp:40-54 | from element 1 on, the pieces read as the rest joined with ", " and then " ]" |
| VecUtilProperties.FormattedMany | tests/vec_util.hpp:29-54 | two or more elements format as "[ " + join(v, ", ") + " ]" |
| VecUtilProperties.FormattedOne | tests/vec_util.hpp:38-49 | one element formats as "[ e, " with no closing bracket |

## Left out

- Console output is not modelled:
  - `Flags::help` is reduced to the fact that it ran (`helpShown`).
  - The usage banner that `help_str(true)` sends to `std::cout` is dropped, together with the `usage` parameter.
  - `CommandHandler::help` is modelled as the text it writes.
- FlagParser.Flags.Help: states only that help was shown, not the banner and flag lines written to the console.
- Text is a sequence of Dafny `char`s, and each `char` stands for one byte of a `std::string`. Multi-byte UTF-8 text is not modelled. The byte loops of `get_equal` (`cli-framework/flags.hpp:191`) and `split` (`tests/vec_util.hpp:65`) can cut a multi-byte character in two: with `-s` registered, `-sé=1` drops only the first byte of `é` and leaves its second byte in the value, while the model drops the whole character.
- The wall clock is a parameter `now` in whole milliseconds. The truncation of `duration_cast` below a millisecond is therefore not modelled.
- The command callbacks (`std::function exec`) are not modelled. A call is recorded as an `Invocation` in a ghost log.
- Flag destinations are a map from flag key to value, not pointers. Consequences:
  - binding two flags to one variable (aliasing) is not modelled;
  - the caller reading its variables after `parse` is not modelled.
- `std::stol`, `std::stoll` and `std::stof` are parameters. Their digit parsing, `out_of_range` cases and float rounding are not modelled. Floats are kept as their 32-bit patterns.
- FlagParser.Convert: does not bound `int64_t` (BigInt) values to 64 bits, because the bound comes from `std::stoll`, which is a parameter.
- FlagParser.Flags.Parse: requires that no bare non-bool flag is the last token. There the source reads `argv[argc]`, which is undefined behaviour.
- FlagParser.Flags.ParseType: requires `i + 1 < argc` for a bare non-bool flag, for the same reason.
- Callers assigning to the public `cmds` member directly are not modelled.
- `format` and `join` are modelled for `std::string` elements only. Streaming integers or chars through `std::stringstream` is not modelled.
- `reverse` works on a Dafny `array`, not a `std::vector`. Its `int` indices are unbounded, so vectors longer than 2^31 - 1 elements are not considered. The same holds for the `int` counters of `format` and `join`.
- The default arguments (`separator = ' '`, `symbol = ""`, `help_keyword = "help"`, `auto_help = false`) are not modelled; callers pass every argument.
- `cli-framework/util.hpp` (`vecArgs`) is not part of this model: with `argv` as a sequence of strings, it is the identity.
- `tests/main.cpp` is not part of this model. Its example values appear in `ExampleParse` and `EchoByAlias`.
