# ip-list: a Dafny model of the reloadable IP list store

The ip-list plugin keeps named IP address/network lists for a mail transfer
agent. Each list is loaded from a text file into a longest-prefix-match (LPM)
trie. Scripts ask "is this address in list L, and with which tag". An
operator command reloads a list from its file without a restart.

This project models `ip-list.cpp`, the code around the LPM library:

- `list_file.dfy` (module `ListFile`): tokenising one line of a list file.
  - `#` comment detection.
  - The split into an address token and a trimmed tag, written as the
    `find_first_of` / `find_first_not_of` / `find_last_not_of` / `substr`
    slicing the C++ does.
  - The truncation at the first NUL that `c_str()` implies.
- `loader.dfy` (module `Loader`): `lpm_load`.
  - A method with the source's loop, its 1-based line counter `cline` and its
    `loaded` count.
  - The method is proved equal to a specification function `LoadLines`.
  - Lemmas about `LoadLines`:
    - what is counted;
    - which lines are reported as skipped, and under which number;
    - comment lines never contribute.
- `registry.dfy` (module `ListRegistry`): the global `lists` map as a
  `Registry` class, with `list_open`, `list_lookup` and `list_reload` as
  methods.
  - Each registered list is an `IpList` object whose trie a reload swaps in
    place.
  - The methods are proved against value-level functions `OpenIn`, `FindIn`
    and `ReloadIn`.
  - Those functions' contracts state the registry's state machine.
- `plugin.dfy` (module `Plugin`): the decisions the plugin entry points make.
  - `Halon_init`'s loop over the configured lists.
  - `Halon_plugin_command`'s `reload:` command.
  - The value `ip_list_lookup` hands back to the script.
- `lpm.dfy` (module `Lpm`): the interface of the LPM library (`lpm.h`), which
  is not part of this model.
  - `Lpm<T>` bundles an opaque empty trie (`lpm_create`), the address codec
    (`lpm_strtobin`), an insert that may fail (`lpm_insert`) and a lookup
    (`lpm_lookup`).
  - Every result proved here holds for any behaviour of the library.
  - No longest-match or duplicate-key behaviour is assumed.
- `base.dfy` (module `Base`): `Option`, `Result`, `Outcome`, and the errors
  the C++ throws as `std::runtime_error`, with their exact message texts.

Inputs the code gets from the outside world become parameters:

- The file system is a `FileSystem` map from path to the lines `getline`
  yields. A path that is absent cannot be opened.
- The configuration's `lists` array is `Option<seq<ListConfig>>`.
- A command is the character string the host passes.

Where the code departs from the usual reading of the list file format and
of the script function, the model follows the code:

- A match whose tag is empty is returned to the script as boolean `true`,
  not as an empty string (`LookupValue`).
- A line that starts with a separator has an empty address token
  (`SplitLeadingSpace`). The code does not skip leading whitespace.
- When `list_lookup` throws (unknown id, bad address), `ip_list_lookup`
  logs it and leaves the return value unset. It does not return `false`
  (`ScriptLookup` returns `None`).

## Model

| member | source | states |
|---|---|---|
| `Base.Error.Message` | ip-list.cpp:117-201 | the text of each error the code throws, which `what()` returns: `Bad ip-list file: <path>`, `Duplicate ip-list id`, `No such ip-list id` and `Bad address format: <address>`; no message is empty |
| `ListFile.IsSpace` | ip-list.cpp:128-134 | the definition the tokeniser's contracts build on: the separator set is space, tab, carriage return and line feed |
| `ListFile.IsComment` | ip-list.cpp:127 | the definition the loader's contracts build on: a line is a comment when its first character is `#`; an empty line, whose `address[0]` is the terminating NUL, is not |
| `ListFile.CString` | ip-list.cpp:136-142 | what C sees of a string is its longest NUL-free prefix, ending just before the first NUL |
| `ListFile.FindFrom` | ip-list.cpp:128-133 | the result is the first index at or after `from` whose character is (or is not) a separator; every character before it is on the other side; None means there is no such index |
| `ListFile.FindLastNonSpace` | ip-list.cpp:134 | the result is the last non-separator index; everything after it is a separator; None means the line is all separators |
| `ListFile.SplitLine` | ip-list.cpp:128-140 | the token is the longest separator-free prefix of the line, ended by a separator or the end of the line; the tag is the rest of the line with separators trimmed from both ends (`Trim`), so it is "" when nothing but separators follows |
| `ListFile.SplitJoin` | ip-list.cpp:128-140 | splitting `address + separators + tag + separators` gives back `address` and `tag` when the address has no separator and the tag no separator at either end: the split inverts the file format |
| `ListFile.SplitBareToken` | ip-list.cpp:128-140 | a line without any separator is the token itself with the empty tag |
| `ListFile.SplitLeadingSpace` | ip-list.cpp:128-137 | a line starting with a separator yields the empty token |
| `ListFile.BlankLine` | ip-list.cpp:127-140 | an empty line is not a comment and splits into an empty token and an empty tag |
| `ListFile.CStringNoNul` | ip-list.cpp:136-142 | passing a NUL-free string through `c_str()` changes nothing |
| `Loader.Initial` | ip-list.cpp:119-124 | the definition the loader's contracts build on: the loop starts from the library's empty trie (`lpm_create`), with `loaded` 0 and nothing reported |
| `Loader.Token` | ip-list.cpp:137-142 | the token given to the codec is a NUL-free prefix of the line's address part: the address as a C string |
| `Loader.InsertLine` | ip-list.cpp:147 | the definition `ProcessInsert` builds on: the insert of a parsed line is of its key with its tag as a C string |
| `Loader.ProcessLine` | ip-list.cpp:127-152 | a comment line changes nothing; a line whose token the codec rejects leaves the trie and the count unchanged and is reported as a bad-format line with its number; any other data line either adds one to `loaded` or is reported, never both |
| `Loader.ProcessInsert` | ip-list.cpp:147-152 | a data line whose token parses is inserted with its key and its tag as a C string; the trie becomes the one the insert returns; a successful insert adds one to `loaded` and reports nothing; a failed insert is reported as `InsertFailed` with the line number and token and is not counted |
| `Loader.LoadLines` | ip-list.cpp:124-153 | every line is a comment, a loaded entry or a reported line: `loaded + reports + comments == lines`, so `loaded` never exceeds the number of lines. Together with `SkipsAccurate`, `BadFormatReported` and `InsertFailedReported`, the reports are exactly the lines that are rejected or whose insert fails, so `loaded` is the number of successful inserts |
| `Loader.Load` | ip-list.cpp:113-117 | loading fails, with `Bad ip-list file: <path>` and before any trie exists, exactly when the file cannot be opened |
| `Loader.LoadFile` | ip-list.cpp:113-157 | the loop with `cline` and `loaded` computes exactly `Load`: the trie, the count and the reported lines |
| `Loader.SkipsAccurate` | ip-list.cpp:142-151 | each report names a data line by its 1-based number with that line's token; it says bad format exactly when the codec rejected the token, and otherwise the insert into the trie built from the earlier lines failed; reports come in increasing line order, so no line is reported twice |
| `Loader.BadFormatReported` | ip-list.cpp:142-146 | conversely, every data line whose token the codec rejects is reported as a bad-format line under its number |
| `Loader.InsertFailedReported` | ip-list.cpp:147-151 | conversely, every data line whose token parses but whose insert into the trie built from the earlier lines fails is reported as a failed insert under its number |
| `Loader.CommentsIgnored` | ip-list.cpp:127 | whatever the comment lines contain, a file loads into the same trie, with the same count and the same number of reports, as the file without them |
| `Loader.LoadsLine` | ip-list.cpp:136-152 | for a data line split into an address and a tag, whose C-string address parses and whose insert of the C-string tag succeeds, that insert is the only change to the trie, and `loaded` goes up by one |
| `Loader.ExampleFile` | ip-list.cpp:125-153 | for a file with a comment, `10.0.0.0/8 bad`, a tab- and CR-separated `10.1.2.3 good` and an untagged `172.16.0.0/12`, the trie is built by exactly three inserts in file order with tags "bad", "good" and "", and `loaded` is 3 |
| `ListRegistry.OpenIn` | ip-list.cpp:159-169 | opening succeeds exactly when the id is new and the file opens; a duplicate id fails with `Duplicate ip-list id` and a load failure is passed on; on success only the new id is added, with its path and freshly loaded trie, and every other entry is unchanged |
| `ListRegistry.FindIn` | ip-list.cpp:171-190 | an unknown id is `No such ip-list id`; a known id with an address the codec rejects is `Bad address format: <address>`, distinct from a miss; otherwise the lookup succeeds, and its value is the library lookup in that list's trie on the parsed address bytes and their byte length (`len`, not the prefix length) |
| `ListRegistry.ReloadIn` | ip-list.cpp:197-209 | reloading succeeds exactly when the id is known and its own stored path opens; an unknown id or unreadable file fails with nothing changed; on success the ids and the list's path stay the same, only its trie becomes the one loaded from that path, and all other lists are unchanged |
| `ListRegistry.FindInFrame` | ip-list.cpp:184-189 | a lookup depends only on the named list's trie |
| `ListRegistry.ReloadThenFind` | ip-list.cpp:197-209 | after a successful reload the list answers every lookup exactly as a list freshly opened from the same path would, and every other list answers as before |
| `ListRegistry.ReloadIdempotent` | ip-list.cpp:197-209 | with the files unchanged, reloading a list a second time succeeds and leaves the registry exactly as the first reload left it |
| `ListRegistry.IpList.constructor` | ip-list.cpp:166-168 | a new list holds the given path and trie |
| `ListRegistry.Registry.constructor` | ip-list.cpp:111 | the registry starts empty |
| `ListRegistry.Registry.Open` | ip-list.cpp:159-169 | `list_open` changes the registry as `OpenIn` says, keeps distinct ids on distinct list objects, and leaves the registry untouched on failure |
| `ListRegistry.Registry.Lookup` | ip-list.cpp:171-190 | `list_lookup` returns the error, `false` or `true` as `FindIn` says, and assigns the tag output only on a hit; on an error or a miss the caller's tag is returned unchanged |
| `ListRegistry.Registry.Reload` | ip-list.cpp:197-209 | `list_reload` changes only the reloaded list's trie, as `ReloadIn` says, keeping the map itself, and changes nothing on failure |
| `ListRegistry.DuplicateOpen` | ip-list.cpp:159-190 | opening "A" from a readable file succeeds; opening "A" again from another file fails with `Duplicate ip-list id`; "A" still answers from the first file's content, with the tag stored there on a hit and the caller's empty tag otherwise |
| `Plugin.ReloadTarget` | ip-list.cpp:51-54 | a command names a reload exactly when its C string starts with `reload:`, and the id is everything after those 7 characters |
| `Plugin.ReloadTargetOf` | ip-list.cpp:51-54 | `reload:<id>` for a NUL-free id reloads exactly `<id>` |
| `Plugin.ReloadReply` | ip-list.cpp:53-60 | a successful reload replies `OK` with true; a failed one replies with the error's message and false |
| `Plugin.Command` | ip-list.cpp:49-64 | a `reload:` command reloads the id as `ReloadIn` says and replies `OK`/true or the error message/false; any other command replies `Unknown command`/false and changes nothing |
| `Plugin.LookupValue` | ip-list.cpp:85-91 | the value is boolean false exactly on a miss, boolean true exactly on a match with an empty tag, and the tag string exactly on a match with a non-empty tag |
| `Plugin.LookupValueDistinguishes` | ip-list.cpp:88-91 | a miss never gives the same value as a match, and matches with different tags give different values |
| `Plugin.ScriptLookup` | ip-list.cpp:85-94 | the id and the address reach `list_lookup` as C strings; when the lookup throws, the script's return value is left unset; otherwise it is false on a miss, true on an empty-tag match, or the tag |
| `Plugin.Complete` | ip-list.cpp:34-37 | the definition the init contracts build on: an element takes part only when it has both an `id` and a `path` string |
| `Plugin.IdOf` | ip-list.cpp:34-38 | the definition the init contracts build on: the id `list_open` receives is the configured string as a C string (`CString`, whose contract makes it the NUL-free prefix up to the first NUL) |
| `Plugin.PathOf` | ip-list.cpp:35-38 | the definition the init contracts build on: the path `list_open` receives is the configured string as a C string (`CString`) |
| `Plugin.InitFrom` | ip-list.cpp:30-45 | initialisation only adds lists: every list registered before keeps its entry |
| `Plugin.InitIn` | ip-list.cpp:26-45 | without a `lists` setting, initialisation opens nothing and returns true; in every case each list registered before keeps its entry |
| `Plugin.Init` | ip-list.cpp:21-46 | the loop over the configured lists returns what `InitIn` says, and leaves the registry as `InitIn` says: elements without an id or a path are skipped, the id and the path are opened as C strings, and the first failing open stops the loop with false |
| `Plugin.InitSucceedsIff` | ip-list.cpp:30-44 | initialisation returns true exactly when every complete element names a readable file and an id not registered before, and no two complete elements share an id; then every such element is registered under its id with its path and the trie loaded from it, and the registered ids are exactly the ids registered before plus the ids of the complete elements |
| `Plugin.InitStopsAtFailure` | ip-list.cpp:30-44 | when initialisation returns false, it stopped at the first element whose open fails: every complete element before it opened and is registered as `list_open` adds it; no other list was added, so no later element is registered; that element fails to open on the registry the earlier ones left |

## Left out

- The LPM library itself (`lpm_create`, `lpm_insert`, `lpm_lookup`,
  `lpm_clear`, `lpm_destroy`, `lpm_strtobin`). It is foreign code and not
  part of this model, so it appears only as the parameters in `Lpm<T>`.
  - Longest-match semantics, family isolation and what happens on a
    duplicate prefix are properties of that library, so they are not stated.
  - A failed insert is allowed to leave the trie in any state.
- The `std::shared_mutex` locking in `list_lookup` and `list_reload`. It
  exists only for concurrency; the operations are modelled as sequential
  steps. Reload atomicity under concurrent readers is therefore not modelled.
- File reading through `std::ifstream` and `getline`. A file is the sequence
  of lines `getline` would yield, or absent when it cannot be opened.
- The `syslog` messages. Their text is not modelled. Which lines are
  reported as skipped, with their 1-based line number and token, is modelled
  (`Loader.Skip`), as is the `loaded` count in the summary message.
- Memory management:
  - `strdup`/`free` of tags and replies;
  - `lpm_dtor` and the `lpm_clear`/`lpm_destroy` of the replaced trie after a
    reload;
  - the tag that `lpm_load` leaks on a skipped line.
- Host glue:
  - `Halon_version` and `Halon_hsl_register`;
  - the HalonMTA configuration and HSL value accessors;
  - the argument type checks of `ip_list_lookup`, which return without a
    value when an argument is not a string.

  `ScriptLookup` takes the two arguments as strings.
- Exceptions other than `std::runtime_error`, such as allocation failure.
  The code does not catch them, and the model has none.
- `ListRegistry.Registry.Lookup`: the tag the library returns is taken as
  the stored C string. The NUL truncation of `std::string(t)` is applied
  when the tag is stored (`CString` of the trimmed tag), not again on lookup.
- `Plugin.Command`: the `len` argument of `Halon_plugin_command` is ignored,
  as in the code, which reads the command as a NUL-terminated string.
