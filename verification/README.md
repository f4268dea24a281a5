# gitpm profile manager — Dafny model

gitpm keeps a store of named git identities (profile name, user name, e-mail,
remote URL) in a JSON dictionary and applies one of them to git's global
configuration. This project models the decision layer of `src/main.rs`:

- how `add` derives the key of the new profile from the service selector,
- how `add`, `remove` and `remove-all` change the store,
- the selection prompt (validation and retry loop) and the `y`/`n` confirmation,
- the git invocations `switch` makes,
- the rule by which `current` decides whether an identity is set.

Everything is a pure function. The store a handler loads is a
`map<string, Profile>` parameter. What a handler would write back is returned
as `saved: Option<Store>`, where `None` means nothing is written. Standard input
is a finite `seq<string>` of raw lines. Each `read_input` call trims the next
line; at end of input `read_line` succeeds with nothing read, so every later
prompt sees `""`. A git invocation is returned as its argument list (the
program is always `git`) instead of being spawned. The outputs that `current`
captures are string parameters.

Modules:

- `Optional` (optional.dfy): `Option`.
- `Text` (text.dfy): `trim` over the full Unicode `White_Space` set, and ASCII
  `to_lowercase`.
- `Decimal` (decimal.dfy): `parse::<usize>` as the checked left-to-right digit
  loop of the Rust core library, and `format!("{}", n)` for the numbers
  printed beside listed keys.
- `Profiles` (profiles.dfy): `Profile`, `Store`, the invariants, and the
  listing order of keys.
- `Prompt` (prompt.dfy): `read_input`, `confirm`, `select_profile`.
- `Git` (git.dfy): the argument lists, plus a small abstract model of the git
  settings they touch (global name, global e-mail, `origin` URL). The abstract
  model is not part of the program. It exists to state what a command plan
  achieves.
- `Commands` (commands.dfy): the handlers `add`, `add_custom_profile`,
  `switch`, `remove`, `remove-all` and the decision in `current`.
- `Scenarios` (scenarios.dfy): concrete runs of the handlers, derived from
  the general contracts.

`HashMap` iteration order is not fixed. `switch` and `remove` therefore take
the listing `order` as a parameter, and require only that it lists every key
of the store exactly once (`IsListing`).

The invariant: in a store built only by these commands, every entry is stored
under its own `profile_name`, and all its fields are trimmed (`WellFormed`).
`add` re-establishes it for the entry it writes, and `remove` and `remove-all`
preserve it. `switch` saves nothing.

Selector `"3"` reads one more line and uses that line as the key
(src/main.rs:121-124).

## Model

| member | source | states |
|---|---|---|
| Text.TrimStartSpec | src/main.rs:271 | `trim` first drops exactly the leading white space: the result is the longest suffix that does not start with white space |
| Text.TrimEndSpec | src/main.rs:271 | `trim` then drops exactly the trailing white space: the result is the longest prefix that does not end with white space |
| Text.TrimSpec | src/main.rs:271 | a trimmed line is a contiguous slice of the raw line; only white space is cut away; no white space is left at either end |
| Text.TrimOfTrimmed | src/main.rs:271 | trimming is idempotent: a line with no white-space margins is unchanged |
| Text.TrimDropsTerminator | src/main.rs:238-239 | trimming git's output removes the line break after a value that is itself trimmed, giving back exactly that value |
| Text.LowerIsY | src/main.rs:296 | exactly "y" and "Y" lower-case to "y" |
| Decimal.AccumulateValue | src/main.rs:283 | the checked left-to-right digit loop succeeds exactly when all characters are digits and the unbounded decimal value fits in a usize; it then returns that value |
| Decimal.ParseUsizeSpec | src/main.rs:283 | `parse::<usize>` accepts exactly one optional `+` followed by a non-empty run of digits whose value is at most `usize::MAX`, and returns that value |
| Decimal.ValueOfRender | src/main.rs:278 | the decimal text printed for `n` denotes `n` |
| Decimal.ParseRender | src/main.rs:278-283 | parsing the number printed beside a key, with or without a `+`, gives that number back |
| Decimal.ParseOverflow | src/main.rs:283 | a number larger than `usize::MAX` never parses |
| Decimal.ParseRejects | src/main.rs:283 | the empty line, a lone `+`, `-1`, letters and inner spaces do not parse |
| Profiles.ListingEmpty | src/main.rs:276 | the key listing is empty exactly when the store is |
| Prompt.ReadInput | src/main.rs:266-272 | `read_input` returns the next line trimmed and consumes one line; at end of input it returns "" |
| Prompt.Confirm | src/main.rs:293-297 | `confirm` answers yes exactly when the trimmed response is "y" or "Y"; it consumes one line |
| Prompt.ConfirmExamples | src/main.rs:293-297 | "y", "Y" and " y " confirm; "yes", "n", "" and end of input refuse |
| Prompt.Choice | src/main.rs:283-285 | a line is a valid choice exactly when it parses as a usize `n` with `1 <= n <= count`; the choice is `n` |
| Prompt.ChoiceOfRendered | src/main.rs:278-285 | typing the printed position `n` of any listed key is a valid choice of `n` |
| Prompt.ChoiceRejects | src/main.rs:283-288 | "0", "-1", "abc", "" and `count + 1` are refused |
| Prompt.Select | src/main.rs:275-290 | a selection always returns one of the listed keys, and consumes at least the line that chose it |
| Prompt.SelectSpec | src/main.rs:281-289 | selection stops at the first valid line, returning the key at the position it gives and the input after it; every earlier line is refused; `None` only when no line is valid |
| Prompt.SelectLoop | src/main.rs:281-289 | the retry loop as written (read, validate, return or prompt again) computes exactly what `Select` specifies |
| Prompt.SelectSkips | src/main.rs:281-289 | refused lines placed before the rest of the input leave the selection unchanged |
| Prompt.SelectDisplayed | src/main.rs:276-285 | typing the number printed beside the i-th listed key selects that key and consumes only that line |
| Commands.AddCustom | src/main.rs:158-181 | reads user name, e-mail and remote; writes exactly one entry, under the given key, whose `profile_name` is that key; every other entry is unchanged |
| Commands.AddForService | src/main.rs:132-152 | for a service, the key is `<service>_<user name>`; exactly that one entry is inserted or overwritten; every other entry is unchanged |
| Commands.Add | src/main.rs:114-181 | selectors "1" and "2" store under `GitHub_<user>` and `GitLab_<user>` with `name` = the user line; "3" stores under the next line; any other selector text, "" included, is the key itself; one entry is written and the others are unchanged; 4 or 5 lines are consumed |
| Commands.PrefixedTrimmed | src/main.rs:135 | a `GitHub_`/`GitLab_` key built from a trimmed user name is trimmed |
| Commands.AddKeepsWellFormed | src/main.rs:143-152 | after `add`, every entry is still stored under its own `profile_name` with trimmed fields |
| Commands.SwitchPlan | src/main.rs:195-210 | the plan is exactly: set the global user name, then set the global e-mail, then `remote set-url origin <remote>` as a third and last command only when the profile's remote is non-empty; it addresses a remote exactly in that case |
| Commands.SwitchPlanEffect | src/main.rs:195-210 | running the plan makes the profile's name and e-mail git's global identity; `origin` becomes the remote only when the remote is non-empty and `origin` exists; nothing else changes |
| Commands.Switch | src/main.rs:183-216 | on an empty store: no git invocation and no input read; otherwise the plan of the selected profile, which is always in the store; nothing is saved |
| Commands.Remove | src/main.rs:299-320 | only after a confirmed selection is anything saved: the store without exactly the selected key, which was in it, with every other entry unchanged; a refusal or an empty store saves nothing; well-formedness is kept |
| Commands.RemoveAll | src/main.rs:322-330 | on confirmation the empty store is saved, whatever was stored before; on refusal nothing is saved |
| Commands.ShowCurrent | src/main.rs:238-247 | an identity is shown exactly when both trimmed outputs are non-empty, and then the shown name and e-mail are exactly the trimmed outputs |
| Commands.SwitchThenCurrent | src/main.rs:195-247 | after switching to a profile of a well-formed store, `current` shows that profile's name and e-mail, or no identity when either is empty |
| Scenarios.AddGitHubAlice | src/main.rs:118-152 | selector "1" with user "alice" adds exactly the key "GitHub_alice", whose name is "alice" |
| Scenarios.AddCustomWork | src/main.rs:121-129 | "work", given after "3" or typed directly as the selector, becomes the key and the stored profile name |
| Scenarios.AddEmptySelector | src/main.rs:126-129 | an empty selector line is used as the key |
| Scenarios.SelectAfterRefusals | src/main.rs:281-289 | with one key listed, "0", "-1", "abc" and "2" are skipped and "1" selects the key |
| Scenarios.SwitchToBob | src/main.rs:195-210 | switching to a profile with an empty remote sets name "Bob" and e-mail "bob@x.com" and does not touch the remote |
| Scenarios.RemoveAllTwice | src/main.rs:322-330 | `remove-all` confirmed twice leaves the store empty both times |

## Left out

- Command-line parsing, verb aliases and the dispatch in `main` (src/main.rs:12-52, 85-98). These are library-driven and hold no logic of their own.
- Loading and saving the JSON file, including the silent fallback to an empty store when the file is missing or unparsable (src/main.rs:100-112). This is file I/O through a serialisation library. The loaded store is a parameter, and the store written back is the `saved` result.
- `get_profile_file_path` and `doctor` (src/main.rs:70-83, 218-225). They only touch the filesystem and print paths.
- `list_profiles` (src/main.rs:250-264) and `version` (src/main.rs:64-68). They only print.
- All printed messages and prompt texts. Each handler's final message becomes a `Report` value.
- Spawning git, the exit status of each run, and the `expect` panics when a spawn fails. A git run is an argument list. The outputs of `current` are strings, already decoded from bytes (`from_utf8_lossy` is not modelled).
- A failing read of standard input, which panics in `read_input`. End of input is modelled, as the empty line `read_line` then yields.
- Prompt.Select: the source keeps prompting forever once input is exhausted without a valid line. The model stops with `None`, reported as `AwaitingSelection`.
- Text.ToLower: maps only ASCII letters, not the full Unicode case mapping of `to_lowercase`. The `confirm` rule is unaffected, because only "y" and "Y" lower-case to "y".
- Decimal.ParseUsizeSpec: `usize` is taken to be 64 bits wide.
- The "profile not found" branches of `switch` (src/main.rs:213-214) and `remove` (src/main.rs:314-316) have no counterpart in `Report`. The selected key is proved to be in the store, so these branches cannot be reached.
- The `Git` module's settings model is an abstraction covering three settings. It does not model git's configuration files or its behaviour outside a repository, apart from `remote set-url` failing when there is no `origin`.
