# OSC Whispers forwarding core, in Dafny

OSC Whispers receives Open Sound Control messages and forwards each of them
to downstream clients. The rules come from `.otw` files. A rule line reads
`prefix indicator host:port host:port …`; `#` starts a comment.
The indicator is `+` (forward the path unchanged) or `-` (drop the
top-level segment before forwarding). A message is forwarded by every rule
whose prefix equals the message's top-level path segment.

This project models:

- **Text** (`text.dfy`): the Python string operations the core relies on,
  written on `seq<char>`: `s.split(c)`, the argument-less `s.split()`,
  `s.split(c)[0]` and `s.strip(c)`.
- **Paths** (`paths.dfy`): `OSC.pathPrefix` and `OSC.truncatePathPrefix`.
- **Registry** (`registry.dfy`): the destination registry, meaning each
  distinct `host:port` target once, in first-seen order, with its position
  as its identity. It also covers the linear identity lookup.
- **OtwRules** (`otw_rules.dfy`): `OTWFiles.parseOtwFiles`.
  - The first pass, with its cumulative re-scan, is written out as a loop
    (`ScanTargets`). It is proved equal to the reference
    `Number(Dedup(AllTargets(lines)))`.
  - The second pass compiles each non-blank line into a rule.
- **Forwarding** (`forwarding.dfy`): `OSC.forwardMessage`.
  - The network send is replaced by a record of the calls made
    (`Send(client, path, args)`).
  - The two exceptions modelled become a `Fault` that ends the dispatch
    after the sends already made: `pathPrefix` on a path without `/`, and
    `oscClients[id]` past the end of the list.
  - The loop as written (`ForwardMessage`) is proved equal to the pure
    `Forward`. `Forward` is proved equal to the intended delivery list
    (`Deliveries`) whenever the path contains `/` and every identity has
    a client.
- **Settings** (`settings.dfy`): `ConfigFile.parseConfigFile`, with its
  defaults.
- **Results** (`results.dfy`): `Option` and `Result`.

In the places below, the code does something other than what a reader
would expect from a message forwarder. The model follows the code:

- **A bad truncation indicator.** The error branch evidently means to
  report the offending file and stop cleanly. The code builds its message
  from an undefined name (`otwFileName`, OSCWhispers.py:405), so it raises
  `NameError` before printing anything, and the `exit` after it is never
  reached. A rule line without an indicator stops with an `IndexError`.
  Both are modelled as a `CompileError` carrying the offending line, and
  the first malformed line decides which one is raised.
- **A path without `/`.** `pathPrefix` raises here. This happens as soon
  as one rule is checked; with no rules, nothing is raised.
- **A path that is only `/foo`.** It truncates to the empty path `""`.
  `Paths.TopLevelPath` states this.
- **No isolation between sends.** A forwarder would be expected to keep
  one failed send from stopping the sends to the other clients. The code
  has no such protection: an exception inside the loop ends the dispatch. Only an identity with no client can raise in
  the model. Compiled tables never contain one: see
  `Forwarding.CompiledTableNeverFaults`.

## Model

| member | source | states |
|---|---|---|
| Text.SplitOn | OSCToolkit/OSCWhispers.py:526-534 | `str.split(c)`: at least one piece. `Text.JoinSplit` and `Text.SplitJoin` make it the inverse of joining. |
| Text.SplitPiecesFree | OSCToolkit/OSCWhispers.py:526-534 | no piece of a split contains the separator |
| Text.JoinSplit | OSCToolkit/OSCWhispers.py:526-534 | joining the pieces of a split gives the original string back |
| Text.SplitJoin | OSCToolkit/OSCWhispers.py:526-534 | splitting a join of separator-free pieces gives the pieces back |
| Text.BeforeFirst | OSCToolkit/OSCWhispers.py:357 | `s.split('#')[0]` is the longest prefix without `#`, and it stops at the first `#` |
| Text.Words | OSCToolkit/OSCWhispers.py:357 | `s.split()` yields only non-empty, whitespace-free words, and yields none exactly when `s` is all whitespace. `Text.WordsSkipGap` and `Text.WordsStep` fix its value on every input. |
| Text.WordsSkipGap | OSCToolkit/OSCWhispers.py:357 | leading whitespace of any kind and length yields no words |
| Text.WordsStep | OSCToolkit/OSCWhispers.py:357 | after leading whitespace, the first word is the whole run of non-whitespace up to the next whitespace or the end, followed by the words of the rest |
| Text.WordsOfLayout | OSCToolkit/OSCWhispers.py:357 | words with any whitespace before, between (at least one character) and after them split back into exactly those words |
| Text.WordsOfJoin | OSCToolkit/OSCWhispers.py:357 | words separated by single spaces split back into the same words |
| Text.Strip | OSCToolkit/OSCWhispers.py:393 | `s.strip(c)` is the slice after the leading run of `c`. It neither starts nor ends with `c`, and only `c` follows it. |
| Paths.PathPrefix | OSCToolkit/OSCWhispers.py:532-535 | defined exactly when the path contains `/`. Its value has no `/` and is the text after the first `/` up to the next one. |
| Paths.TruncatePathPrefix | OSCToolkit/OSCWhispers.py:522-528 | the truncated path is empty or starts with `/` |
| Paths.TruncateKeepsRemainder | OSCToolkit/OSCWhispers.py:522-528 | truncation keeps everything from the second `/` on; it gives `""` when there is no second `/` or no `/` at all |
| Paths.PrefixBetweenSlashes | OSCToolkit/OSCWhispers.py:532-535 | the prefix is the slice between the first and second `/` |
| Paths.PathRoundTrip | OSCToolkit/OSCWhispers.py:522-535 | for a path containing `/`, the path equals its leading piece, then `/`, then its prefix, then its truncation |
| Paths.SlashPathRoundTrip | OSCToolkit/OSCWhispers.py:522-535 | for a path starting with `/`: `"/" + prefix + truncation == path` |
| Paths.SlashedPrefixNeverMatches | OSCToolkit/OSCWhispers.py:468 | a rule prefix that contains `/` matches no path |
| Paths.NestedPath | OSCToolkit/OSCWhispers.py:522-535 | `/a/b` has prefix `a` and truncates to `/b` |
| Paths.TopLevelPath | OSCToolkit/OSCWhispers.py:522-535 | `/a` has prefix `a` and truncates to `""` |
| Registry.FirstIndex | OSCToolkit/OSCWhispers.py:412-415 | the position of the first occurrence: it holds the value and no earlier position does |
| Registry.AddUnique | OSCToolkit/OSCWhispers.py:365-372 | the scan only appends to what it started with, and it keeps a duplicate-free list duplicate-free |
| Registry.AddUniqueMembers | OSCToolkit/OSCWhispers.py:365-372 | after the scan, a value is held iff it was held before or was scanned |
| Registry.Dedup | OSCToolkit/OSCWhispers.py:365-372 | duplicate-free, with the same members as the input |
| Registry.RescanIsDedup | OSCToolkit/OSCWhispers.py:354-372 | re-scanning all targets seen so far, plus the new ones, gives the same list as deduplicating everything once |
| Registry.DedupFirstSeenOrder | OSCToolkit/OSCWhispers.py:365-372 | the deduplicated list is in order of first occurrence |
| Registry.Number | OSCToolkit/OSCWhispers.py:375-379 | entry `i` has identity `i` and holds the `i`-th target |
| Registry.TargetsOfNumber | OSCToolkit/OSCWhispers.py:375-379 | reading back the targets of a numbered list gives the list |
| Registry.Lookup | OSCToolkit/OSCWhispers.py:412-415 | gives `None` exactly when no entry holds the target |
| Registry.LookupFirst | OSCToolkit/OSCWhispers.py:412-415 | the search returns the identity of the first entry holding the target (the `break`) |
| Registry.LookupNumbered | OSCToolkit/OSCWhispers.py:409-415 | in a numbered list, a held target is found under the position of its first occurrence |
| OtwRules.LineTokens | OSCToolkit/OSCWhispers.py:355-358 | the fields are whitespace-free words, and a blank line without `#` has none |
| OtwRules.LineTokensOfLayout | OSCToolkit/OSCWhispers.py:355-358 | a line holding some fields, with any whitespace around and between them and an optional `#` comment behind, has exactly those fields |
| OtwRules.TargetTokens | OSCToolkit/OSCWhispers.py:361 | the target fields are the fields from index 2 on |
| OtwRules.SplitTargets | OSCToolkit/OSCWhispers.py:362 | each target field is split on `:` |
| OtwRules.AllTargetsStep | OSCToolkit/OSCWhispers.py:354-362 | handling one more line appends that line's targets |
| OtwRules.AppendTargets | OSCToolkit/OSCWhispers.py:360-362 | the loop appends the line's split targets to the list of all targets |
| OtwRules.IsHeld | OSCToolkit/OSCWhispers.py:366-370 | the inner search loop reports redundancy iff the target is already stored |
| OtwRules.Rescan | OSCToolkit/OSCWhispers.py:365-372 | the re-scan loop computes the unique-append scan from the stored list |
| OtwRules.NumberTargets | OSCToolkit/OSCWhispers.py:375-379 | the `enumerate` loop gives entry `i` identity `i` and the `i`-th target |
| OtwRules.ScanTargets | OSCToolkit/OSCWhispers.py:350-379 | the first pass as written equals numbering the deduplicated list of all targets |
| OtwRules.RegistryIdentities | OSCToolkit/OSCWhispers.py:375-379 | entry `i` of the registry has identity `i` |
| OtwRules.RegistryUniqueAndComplete | OSCToolkit/OSCWhispers.py:354-379 | the registry has no duplicates and holds exactly the targets the file names |
| OtwRules.RegistryFirstSeenOrder | OSCToolkit/OSCWhispers.py:354-379 | registry order is order of first mention in the file |
| OtwRules.Indicator | OSCToolkit/OSCWhispers.py:395-406 | `+` gives no truncation and `-` gives truncation, both iff. A missing indicator and any other indicator are errors. |
| OtwRules.ResolveIds | OSCToolkit/OSCWhispers.py:409-415 | at most one identity per target field |
| OtwRules.ResolveRegistered | OSCToolkit/OSCWhispers.py:409-415 | when every target is registered, the field `j` resolves to the first-occurrence position of its target |
| OtwRules.CompileLine | OSCToolkit/OSCWhispers.py:386-418 | a line compiles iff it is blank or has a valid indicator. A blank line gives no rule. Any other line gives a rule whose prefix is its first field stripped of `/`, whose flag is set iff the indicator is `-`, and whose ids resolve its target fields. |
| OtwRules.CompileRules | OSCToolkit/OSCWhispers.py:383-418 | at most one rule per line; a failure names a line of the file that is not well formed |
| OtwRules.CompileRulesFailsAtFirst | OSCToolkit/OSCWhispers.py:386-406 | the rules pass stops at the first malformed line, with that line's error |
| OtwRules.CompileRulesSucceedsIff | OSCToolkit/OSCWhispers.py:386-418 | the rules pass succeeds iff every line is well formed |
| OtwRules.CompileRulesShape | OSCToolkit/OSCWhispers.py:386-418 | one rule per non-blank line, in file order. The prefix is the first field stripped of `/`, the flag is `-`, and the ids resolve the target fields. |
| OtwRules.RuleTargetsListed | OSCToolkit/OSCWhispers.py:354-362 | every target field of a rule line was collected by the first pass |
| OtwRules.RulesResolve | OSCToolkit/OSCWhispers.py:409-415 | resolution never drops a target. Each identity is a valid registry index, and its entry holds that target. |
| OtwRules.Compile | OSCToolkit/OSCWhispers.py:324-423 | `parseOtwFiles`: at most one rule per line; a failure names a line of the file that is not well formed |
| OtwRules.CompileSucceedsIff | OSCToolkit/OSCWhispers.py:324-423 | `parseOtwFiles` succeeds iff every line is well formed |
| OtwRules.CompileFailsAtFirst | OSCToolkit/OSCWhispers.py:386-406 | `parseOtwFiles` fails at the first malformed line: `MissingIndicator` when that line has one field (the `IndexError`), otherwise `BadIndicator` naming its second field (the `NameError` branch) |
| OtwRules.CompileSound | OSCToolkit/OSCWhispers.py:324-423 | a successful compile returns the first-pass registry and one resolved rule per non-blank line |
| OtwRules.SharedTargetSharedId | OSCToolkit/OSCWhispers.py:409-415 | equal targets in any two rule lines get the same identity |
| OtwRules.NonBlank | OSCToolkit/OSCWhispers.py:355-358 | keeps only lines that have fields, and the kept lines give the same fields, in the same order, as the whole file |
| OtwRules.NonBlankMembers | OSCToolkit/OSCWhispers.py:355-358 | a line is kept iff it occurs in the file and has fields |
| OtwRules.BlankLinesIgnored | OSCToolkit/OSCWhispers.py:355-358 | dropping blank and comment-only lines leaves the compile result unchanged |
| Forwarding.OutPath | OSCToolkit/OSCWhispers.py:468-482 | a `+` rule forwards the path unchanged. A `-` rule forwards an empty path or one starting with `/`; for a path starting with `/`, `/`, the prefix and the forwarded path rebuild the original. |
| Forwarding.FanOut | OSCToolkit/OSCWhispers.py:469-482 | send `j` goes to `clients[ids[j]]` with the given path and arguments. There is no fault iff every identity has a client; otherwise the dispatch stops at the first identity without one. |
| Forwarding.RuleDispatch | OSCToolkit/OSCWhispers.py:467-482 | a rule whose prefix differs sends nothing. A matching rule sends to `clients[ids[j]]` in order with its forwarded path, and faults iff one of its identities has no client. |
| Forwarding.ForwardRules | OSCToolkit/OSCWhispers.py:466-483 | every send goes to a listed client, with the arguments unchanged and the path kept or truncated. The only fault is a missing client. |
| Forwarding.Forward | OSCToolkit/OSCWhispers.py:465-483 | the same guarantees on sends. The prefix fault happens iff there are rules and the path has no `/`, and it happens before any send. |
| Forwarding.DeliveriesSnoc | OSCToolkit/OSCWhispers.py:466-483 | the intended deliveries of `rules + [r]` are those of `rules` followed by those of `r` |
| Forwarding.RuleDispatchIntended | OSCToolkit/OSCWhispers.py:467-482 | when every identity has a client, one rule sends to exactly its targets in order (or nothing when its prefix differs) |
| Forwarding.ForwardRulesIntended | OSCToolkit/OSCWhispers.py:466-483 | when every identity has a client, the rule loop makes exactly the intended deliveries, with no fault |
| Forwarding.ForwardIsDeliveries | OSCToolkit/OSCWhispers.py:465-483 | for a path with `/` and every identity backed by a client, `forwardMessage` emits exactly the intended deliveries. That is the concatenation, in rule order, over the matching rules, of one send per target, with no dedup. |
| Forwarding.ThenAssociative | OSCToolkit/OSCWhispers.py:466-483 | running dispatches in sequence does not depend on grouping |
| Forwarding.ForwardRulesAppend | OSCToolkit/OSCWhispers.py:466-483 | forwarding with `r1 + r2` is forwarding with `r1`, then (unless it faulted) with `r2` |
| Forwarding.ForwardRulesNoMatch | OSCToolkit/OSCWhispers.py:466-468 | if no rule prefix matches, there are no sends and no fault |
| Forwarding.ForwardNoMatch | OSCToolkit/OSCWhispers.py:465-483 | a message whose top-level segment no rule names is sent nowhere |
| Forwarding.TwoRulesOnePrefix | OSCToolkit/OSCWhispers.py:465-483 | a truncating rule and a non-truncating rule for `a` turn `/a/b` into exactly `/b` to the first client, then `/a/b` to the second |
| Forwarding.RepeatedIdentitySendsTwice | OSCToolkit/OSCWhispers.py:469-482 | a repeated identity is sent the message twice |
| Forwarding.CompiledIdsBelow | OSCToolkit/OSCWhispers.py:409-415 | every identity in a compiled table is an index into its registry |
| Forwarding.CompiledTableNeverFaults | OSCToolkit/OSCWhispers.py:506-518 | with one client per registry entry (as `setupOscClients` builds them), forwarding through a compiled table never faults on a path with `/`, and it makes exactly the intended deliveries |
| Forwarding.ForwardRulesStops | OSCToolkit/OSCWhispers.py:466-483 | once a rule faults, later rules are not reached |
| Forwarding.SendToClients | OSCToolkit/OSCWhispers.py:469-482 | the inner loop as written appends exactly the fan-out's sends and reports its fault |
| Forwarding.ForwardMessage | OSCToolkit/OSCWhispers.py:465-483 | the loop as written, re-computing the prefix for each rule, equals `Forward` |
| Settings.Fields | OSCToolkit/OSCWhispers.py:100 | the fields contain no space and, joined with single spaces, give back the text before the first `#` |
| Settings.ParseInt | OSCToolkit/OSCWhispers.py:103-119 | `int(s)` as modelled: an accepted value ends in a digit, has only digits after its first character, and is negative only with a leading `-`; plain digits read as their decimal value. `Settings.ParseShow` is its inverse. |
| Settings.KeyOf | OSCToolkit/OSCWhispers.py:102-119 | a field names key `k` iff it equals that key's spelling |
| Settings.Apply | OSCToolkit/OSCWhispers.py:102-119 | sets the named key to `bool(n)`, or to `n` for the port, and changes no other key. `verboseCommandPort` is untouched. |
| Settings.ParseShow | OSCToolkit/OSCWhispers.py:103 | `int(str(n)) == n` for the decimal forms modelled |
| Settings.ApplyLine | OSCToolkit/OSCWhispers.py:97-119 | a line is accepted iff it is empty, names no known key, or names one followed by an integer. An accepted line sets exactly the value it names. An error carries the line: `MissingValue` when a recognised key has no value after it (the `IndexError`), `NotAnInteger` naming the value otherwise (the `ValueError`). |
| Settings.ParseFrom | OSCToolkit/OSCWhispers.py:97-119 | parsing never changes `verboseCommandPort` |
| Settings.ParseConfig | OSCToolkit/OSCWhispers.py:71-76 | the result never has `verboseCommandPort` set |
| Settings.NothingSetGivesDefaults | OSCToolkit/OSCWhispers.py:71-76 | a file that sets no recognised key leaves every flag off and the port at 9000 |
| Settings.LastValueIsLast | OSCToolkit/OSCWhispers.py:97-119 | the last value of a key is the one on the last line that sets it |
| Settings.LastSettingWins | OSCToolkit/OSCWhispers.py:71-119 | each key ends at the value of the last line setting it, or at its default (flags off, port 9000) |
| Settings.ParseFromSucceedsIff | OSCToolkit/OSCWhispers.py:97-119 | the file is accepted iff every line is acceptable |
| Settings.ParseFromFailsAtFirst | OSCToolkit/OSCWhispers.py:97-119 | a rejected file is rejected at its first unacceptable line: with `MissingValue` when that line has no value field (the `IndexError`), otherwise with `NotAnInteger` naming its second field (the `ValueError`) |
| Settings.UnknownLinesIgnored | OSCToolkit/OSCWhispers.py:97-119 | lines naming no known key change nothing |
| Settings.SettingLineApplies | OSCToolkit/OSCWhispers.py:98-119 | a written `key value` line is read back as that setting |
| Settings.SettingLinesApply | OSCToolkit/OSCWhispers.py:97-119 | written setting lines are read back as those settings, in order |
| Settings.RenderRoundTrip | OSCToolkit/OSCWhispers.py:71-128 | writing every setting of a configuration and parsing the file gives the configuration back |

## Left out

- Reading files (`loadOtwFiles`, `loadConfigFile`) is left out. The model starts from the list of lines as the loaders produce them. `open(…, 'r')` decodes the file in text mode, which turns `\r\n` and a lone `\r` into `\n`, and `.split('\n')` then cuts the text into lines. So no line holds a carriage return.
- Command-line parsing (`ParseArgs`) and `verboseOutput` are left out. They do not touch the rule table.
- The liblo server, method registration and client creation (`setupOscServer`, `setupOscClients`) are left out. Clients are a parameter with one handle per registry entry, and an `AddressError` from liblo is not modelled. One handle per entry assumes every target has a `:`. A target token without one (`foo + host`) compiles, but `setupOscClients` then reads its missing port (OSCWhispers.py:513-514) and stops with an `IndexError` that its `except AddressError` does not catch. That startup crash is not modelled.
- `sendOSC` is left out. It builds and `exec`s a call; it is modelled as appending `Send(client, path, args)`, and an exception raised inside the transport is not modelled.
- OtwRules.CompileLine: the source's exact failure is left out, because it depends on the error branch crashing. A bad indicator gives a `NameError`, and a missing one gives an `IndexError`. The model returns an error value carrying the line.
- Settings.ParseInt: Python `int()` also accepts surrounding whitespace, `_` digit separators and non-ASCII digits. The model accepts only an optional sign followed by ASCII digits, and rejects the rest. So a value followed by a tab inside the line (`… 1\t`) is rejected here, while the source accepts it.
- Settings.ApplyLine: a value that is not an integer is an error. A non-ASCII decimal that Python would accept is rejected here.
- Nothing in the model has mutable state, so "the rule table is not modified by forwarding" holds by construction and is not stated separately.
