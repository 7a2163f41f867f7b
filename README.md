# Docgen core in Dafny

This project models the core of Docgen, a documentation generator that lexes
C++ sources for doc comments (`///`, `/*!`, tags such as `@sdesc`, `@tparam`,
`@param`, `@return`) and turns what it finds into JSON. The model covers the
parts of the C++ tree that hold the program's logic, and proves the
properties that the code's comments and unit tests promise:

- **Keyword tries.** `RuntimeTrie` is the trie of src/core/lexer/trie.hpp:
  nodes live in a map and have parent pointers, and a cursor moves through
  them. `LexTrie` is the trie of src/core/lex/lextrie.hpp: a chain of
  active-child positions through nested children, built from the description
  that `TrieParams` computes.
- **The streaming lexer.** It reads one character at a time and always emits
  the longest keyword match. `LexerSpec` holds its steps as functions and
  `Lexer.Lexer` holds the object with its fields. `LexerLongest` proves the
  longest-match property for every table and input
  (`LexerLongest.LongestMatchAfterRun`). `LexerRuns`, `LexerExamples` and
  `LexerMixes` prove what whole runs give, including the inputs of the
  lexer's unit tests. The four generations of the
  lexer are one state machine, selected by `Generation`:
  - src/core/lexer_trie.hpp;
  - src/core/lex/legacy_2/lexer.hpp;
  - src/core/lexer/lexer.cpp;
  - src/core/lex/lexer.hpp and lexer.cpp.
- **The compile-time list algebra.** `Lists` models list.hpp, valuelist.hpp
  and array_constant.hpp, and the filters of string_array_utils.hpp. The
  operations are size, get, concat, membership, `set` (dedup), `left_shift`,
  zip/unzip, `transform`, `subset_idx`/`subset` and head extraction.
  `TrieParams` models trie_params.hpp and the array version in
  src/core/utils/trie.hpp. It builds the trie description: strings are
  grouped by first character, accepting children are marked, and the build
  recurses on the suffixes.
- **The sorted map.** `SortedMap` models src/core/utils/map.hpp, a sorted
  array searched by binary search.
- **The legacy file lexer.** `LegacyRoutines` models the free routines of
  src/core/lex/legacy/lexer_routines.hpp and .cpp. They run over a reader
  with one character of push-back, and `LegacyExamples` works through whole
  inputs.
- **JSON writers.** `Json` is the value type. `JsonWriterSpec`,
  `JsonWriterProps` and `JsonWriter` model the newer writer
  (src/core/parse/core/json_writer.hpp). `OldJsonWriterSpec` and
  `OldJsonWriter` model the older writer (src/core/json_writer.hpp).
  `ParseFeederSpec` and `ParseFeeder` model src/core/parse_feeder.hpp.
  `FeedTokens` holds the whitespace classes that the older writer and the
  feeder share.
- **Parse workers.** `ParseWorkerCore` and `ParseWorkerCoreProps` model the
  handler state machine of src/core/parse/core/parse_worker.hpp.
  `ParseWorkerOld` and `ParseWorkerOldProps` model the older one in
  src/core/parse_worker.hpp.
- **Chunk reading.** `ParseSymbol` models the fixed-capacity `Symbol<N>` of
  src/parse/core/symbol.hpp. `ReadRoutine` models `process_slash` and
  `routine<READ>::run` of src/parse/core/routine.hpp.
- **Exceptions.** `Exceptions` models the message composition of
  src/exceptions/exceptions.hpp.
- **Shared helpers.** `CStrings` (NUL-terminated strings and character
  classes) and `Wrappers` (`Option`).

Most objects the source changes in place are Dafny classes with the
source's fields: the tries, the lexer, the sorted map, the legacy reader and
session, the three JSON writers and the symbol buffer. The parse workers are
the exception: `Handler` and `Worker` of both `ParseWorkerCore` and
`ParseWorkerOld` are datatypes, their setters and steps are functions that
return the updated value, and the `Run*` methods carry the loops over values
(see "## Left out"). Each method is proved to
leave the object in the state that a function of the old state describes.
The properties themselves are lemmas about those functions. Where the unit
tests and the code disagree, the model follows the code (see "## Left out").

## Model

| member | source | states |
|---|---|---|
| CStrings.CStr | src/exceptions/exceptions.hpp:19-22 | what `c_str()` shows of a string: a prefix of it with no NUL, ending just before the first NUL, the whole string when it holds none |
| CStrings.CStrAppend | src/exceptions/exceptions.hpp:15-21 | `c_str()` of a NUL-free prefix followed by anything keeps that prefix whole |
| CStrings.CStrCut | src/parse/core/symbol.hpp:26-29 | a scan that stops at the first NUL or at the end has read exactly what `c_str()` shows |
| Exceptions.What | src/exceptions/exceptions.hpp:19-22 | `what()` is a prefix of the stored message and starts with "Docgen encountered a problem: " |
| Exceptions.WhatIsPrefixed | src/exceptions/exceptions.hpp:12-27 | every exception reports the fixed prefix followed by the text its constructor composed, cut at its first NUL |
| Exceptions.BaseWhat | src/exceptions/exceptions.hpp:15-17 | the base exception reports the prefix and its message, and two NUL-free messages with the same report are equal |
| Exceptions.ControlFlowWhat | src/exceptions/exceptions.hpp:41-47 | `control_flow_error` inserts "control flow error: " between the prefix and the message |
| Exceptions.SystemErrorWhat | src/exceptions/exceptions.hpp:29-39 | `system_error` reports the prefix, the message, ": " and the `strerror` text of the error number |
| Exceptions.FileExistUsesEnoent | src/exceptions/exceptions.hpp:49-67 | `file_exist_error` reports exactly what `file_open_error` with ENOENT reports: the quoted path, ": " and `strerror(ENOENT)` |
| Exceptions.BadFileWhat | src/exceptions/exceptions.hpp:69-75 | `bad_file` quotes the path and adds " is not a regular file" |
| Exceptions.FixedWhats | src/exceptions/exceptions.hpp:77-91 | `bad_flags` reports "bad flags" and `bad_source` its fixed guidance text, after the prefix |
| Lists.Size | src/core/utils/list.hpp:78-100 | `size_v` counts the values of the list: it equals the sequence length |
| Lists.IsEmpty | src/core/utils/list.hpp:60-75 | `is_empty_v` holds exactly when `size_v` is 0 |
| Lists.Get | src/core/utils/list.hpp:125-147 | `get_v<List, Idx>` is the value at position Idx, for Idx below the size |
| Lists.Concat | src/core/utils/list.hpp:150-168 | `concat_t` has the size of both lists together; its front is the first list and its back the second |
| Lists.Prepend | src/core/utils/array_constant.hpp:163-175 | concatenating an element constant with an array puts the element first and the array after it |
| Lists.Append | src/core/utils/array_constant.hpp:148-160 | concatenating an array with an element constant keeps the array and puts the element last |
| Lists.IsIn | src/core/utils/list.hpp:170-199 | `is_in_v` holds exactly when the value occurs in the list |
| Lists.Dedup | src/core/utils/array_constant.hpp:394-428 | `set_t` has no repeated value, holds exactly the values of its input and is no longer than it |
| Lists.DedupKeepsLastOccurrences | src/core/utils/array_constant.hpp:399-415 | `set_t` keeps the values in the order of their last occurrences in the input |
| Lists.DedupExample | test/core/utils/array_constant_unittest.cpp:238-246 | {0, 1, 2, 1} becomes {0, 2, 1} |
| Lists.DedupSize | src/core/utils/array_constant.hpp:434-439 | the deduplicated list is as long as the input exactly when the input has no repeated value |
| Lists.IsUnique | src/core/utils/array_constant.hpp:434-439 | `is_unique_v` holds exactly when no value occurs twice |
| Lists.LeftShift | src/core/utils/list.hpp:235-262 | `left_shift_t` drops the head of a non-empty list and returns the empty list unchanged |
| Lists.Zip | src/core/utils/list.hpp:316-350 | `zip_t` has one two-element row per position of the two lists of equal size, holding the elements of both lists at that position |
| Lists.Unzip | src/core/utils/list.hpp:353-409 | `unzip_t` of a non-empty list has one column per element of the first row, each as long as the list, and element i of column j is element j of row i; the empty list comes back empty |
| Lists.UnzipZip | src/core/utils/list.hpp:316-409 | `unzip_t` of the `zip_t` of two lists of equal size gives back the two lists (one empty list for two empty ones) |
| Lists.ZipUnzip | src/core/utils/list.hpp:352-409 | a non-empty list of pairs is rebuilt by zipping the two columns `unzip_t` returns |
| Lists.ZipPairsRoundTrip | src/core/utils/array_constant.hpp:271-357 | `unzip_t<·, 0>` and `unzip_t<·, 1>` of a zipped pair array give back both arrays, and zipping the two columns of a pair array gives it back |
| Lists.Transform | src/core/utils/list.hpp:412-444 | `transform_t` maps the i-th element to the transformer applied to the i-th input element, keeping the length |
| Lists.SubsetIdxFrom | src/core/utils/list.hpp:446-490 | `subset_idx` walked from index I yields increasing indices, all at least I, each naming an element that satisfies the condition |
| Lists.SubsetIdx | src/core/utils/valuelist.hpp:153-188 | `subset_idx_t` is the increasing list of exactly the indices whose element satisfies the condition |
| Lists.Subset | src/core/utils/valuelist.hpp:191-219 | `subset_t` has exactly one element per index; which elements it picks is stated by `Lists.SubsetByIdx` and `Lists.SubsetOfSubsetIdx` |
| Lists.Filter | src/core/utils/list.hpp:556 | keeping the elements that satisfy a condition, as `subset_t<List, subset_idx_t<List, Condition>>` does, never lengthens the list, keeps only elements of it that satisfy the condition and keeps every element that does; `Lists.SubsetOfSubsetIdx` states that the order is kept |
| Lists.SubsetByIdx | src/core/utils/list.hpp:496-530 | `subset_t` of a second list of equal size at those indices picks the partners of the chosen elements |
| Lists.SubsetOfSubsetIdx | src/core/utils/valuelist.hpp:191-219 | `subset_t<L, subset_idx_t<L, C>>` is L filtered by C, in order |
| Lists.FilterKeepsAll | src/core/lex/experimental/string_array_utils.hpp:66-109 | filtering never lengthens a list and keeps all of it exactly when every element qualifies |
| Lists.SubsetIdxExample | test/core/lex/string_array_utils_unittest.cpp:28-44 | on {"", "ab", "abc"} with the non-empty condition the indices are {1, 2} |
| Lists.Heads | src/core/utils/list.hpp:533-588 | one first value per non-empty list: never more values than lists, and exactly as many when no list is empty |
| Lists.FirstValues | src/core/utils/list.hpp:533-588 | `get_first_value_t` is the first value of every non-empty list, in order |
| Lists.HeadsOfFiltered | src/core/utils/list.hpp:550-558 | after pruning the empty lists, every remaining list is non-empty and its head is the matching first value |
| Lists.HeadsMembers | src/core/utils/list.hpp:550-588 | a value is among the first values exactly when some non-empty list starts with it |
| SortedMap.SearchIn | src/core/utils/map.hpp:28-53 | the bisection on [begin, end) returns a position in the window holding the key, or the size; over sorted keys it returns the size exactly when the window holds no such key |
| SortedMap.Search | src/core/utils/map.hpp:28-53 | the search over the whole map finds an entry with the key, or returns `end()`, which over sorted keys means the key is absent |
| SortedMap.Map.constructor | src/core/utils/map.hpp:24-26 | the map stores the given pairs in their order, and `end() - begin()` is their number |
| SortedMap.Map.Find | src/core/utils/map.hpp:28-53 | the loop of `find` returns what the bisection returns: an entry with the key, or `end()` exactly when a sorted map lacks the key |
| SortedMap.Map.FindMut | src/core/utils/map.hpp:55-58 | the non-const `find` returns what the const one does |
| SortedMap.FindExample | test/core/utils/map_unittest.cpp:22-34 | in the map {'a': 1, 'b': 3}, 'a' and 'b' are found at their entries and 'c' at `end()` |
| RuntimeTrie.InsertKey | src/core/lexer/trie.hpp:82-99 | after one insertion the key's node exists and accepts with the symbol, and every node present before is still present |
| RuntimeTrie.InsertKeyAt | src/core/lexer/trie.hpp:82-99 | one insertion adds exactly the missing nodes on the key's path (fresh and non-accepting), makes the key's node accept with the symbol, and leaves every other node as it was |
| RuntimeTrie.Inserted | src/core/lexer/trie.hpp:136-147 | the trie the constructor builds always has its root |
| RuntimeTrie.InsertKeyClosed | src/core/lexer/trie.hpp:94-98 | insertion keeps the root and the parent of every node present |
| RuntimeTrie.InsertedClosed | src/core/lexer/trie.hpp:136-147 | the constructed trie has a root and a parent for every other node |
| RuntimeTrie.InsertedKeys | src/core/lexer/trie.hpp:136-147 | the nodes of the constructed trie are the root and the prefixes of the strings, each read up to its first NUL |
| RuntimeTrie.InsertedAccept | src/core/lexer/trie.hpp:88-92 | a node of the constructed trie accepts exactly when some string ends there, and has a symbol exactly when it accepts |
| RuntimeTrie.InsertedAcceptEnds | src/core/lexer/trie.hpp:136-147 | after all insertions a node accepts exactly when some inserted string ends at it |
| RuntimeTrie.InsertedAcceptSymbol | src/core/lexer/trie.hpp:50-55 | the symbol of a node is present exactly when the node accepts |
| RuntimeTrie.InsertedSymbol | src/core/lexer/trie.hpp:88-92 | a string that no later pair repeats ends at a node accepting with that string's own symbol, so later duplicates win |
| RuntimeTrie.Trie.constructor | src/core/lexer/trie.hpp:68-75 | a fresh trie is a lone non-accepting root with the cursor on it |
| RuntimeTrie.Trie.Insert | src/core/lexer/trie.hpp:82-99 | the descent of `insert` changes the tree exactly as one insertion of the string read up to its first NUL, keeps the cursor, and keeps every parent present |
| RuntimeTrie.Trie.Transition | src/core/lexer/trie.hpp:149-154 | `transition(c)` moves to the child labelled c when there is one; otherwise `at` throws and the cursor stays |
| RuntimeTrie.Trie.BackTransition | src/core/lexer/trie.hpp:184-193 | `back_transition()` moves to the parent, and at the root throws `control_flow_error` with "Attempt to back transition past the root" |
| RuntimeTrie.Trie.Reset | src/core/lexer/trie.hpp:170-182 | `reset()` puts the cursor on the root, so `is_reset()` holds, and the tree is unchanged |
| RuntimeTrie.Make | src/core/lexer/trie.hpp:136-147 | the constructor throws `control_flow_error` "strings must be non-empty" exactly when some string is empty; otherwise the trie is all the pairs inserted in order, with the cursor on the root |
| RuntimeTrie.BuiltQueries | src/core/lexer/trie.hpp:156-200 | on a constructed trie, `is_accept` holds exactly when a string ends at the cursor, `get_symbol` is then that string's symbol (the last pair's for duplicates), and `get_children` holds exactly the next characters of the strings extending the cursor's path |
| RuntimeTrie.TransitionThenBack | src/core/lexer/trie.hpp:149-193 | a successful `transition` followed by `back_transition` returns to the starting node without error |
| LexerSpec.SymbolFor | src/core/lex/lexer.cpp:52-56 | the trie reports a symbol exactly at an accepting node, and it is a symbol the table lists with the string that leads there |
| LexerSpec.SymbolForKey | src/core/lex/lexer.hpp:95-117 | a keyword listed once in the table gets the symbol it is listed with |
| LexerSpec.UpdatedInv | src/core/lex/lexer.hpp:184-195 | `update_state` keeps `buf_` equal to the characters consumed past the last accepting node and does not move the trie |
| LexerSpec.ExtendInv | src/core/lex/lexer.cpp:16-25 | following a transition and buffering the character keeps that invariant |
| LexerSpec.Processed | src/core/lex/lexer.cpp:12-44 | `process(c)` keeps the invariant, descends at most one level and only appends to the token queue |
| LexerSpec.Missed | src/core/lex/lexer.cpp:27-43 | handling a missing transition keeps the invariant and only appends to the queue |
| LexerSpec.Emitted | src/core/lex/lexer.cpp:46-63 | the emitting half of `backtrack` ends with empty text and buffer, the trie at the root and no backtracking, the old queue kept in front |
| LexerSpec.Backtracked | src/core/lex/lexer.cpp:46-69 | `backtrack(c)` keeps the invariant, ends no deeper than it started and only appends to the queue |
| LexerSpec.Reprocessed | src/core/lex/lexer.cpp:65-68 | reprocessing a string keeps the invariant and only appends to the queue |
| LexerSpec.Flushed | src/core/lex/lexer.cpp:71-85 | `flush()` keeps the invariant and only appends to the queue |
| LexerSpec.Run | src/core/lex/lexer.cpp:12-44 | feeding any input one character at a time keeps the invariant |
| LexerSpec.ProcessedExtends | src/core/lex/lexer.cpp:16-25 | a character that extends the trie path is appended to `buf_` and nothing is emitted |
| LexerSpec.ProcessedMisses | src/core/lex/lexer.cpp:27-43 | a character with no transition is handled by the miss case after `update_state` |
| LexerSpec.MissedSpills | src/core/lexer/lexer.cpp:51-58 | in the two generations that do not reprocess, a miss without backtracking appends `buf_` and then the character to `text_` and resets the trie |
| LexerSpec.MissedAtRoot | src/core/lex/lexer.cpp:30-35 | at the root, without backtracking, the character goes straight into `text_` |
| LexerSpec.MissedRetries | src/core/lex/lexer.cpp:36-39 | away from the root, without backtracking, `buf_` moves into `text_` and the character is processed again from the root |
| LexerSpec.MissedBacktracks | src/core/lex/lexer.cpp:42-43 | a miss while backtracking is `backtrack(c)` |
| LexerSpec.ProcessedFacts | src/core/lex/lexer.cpp:12-44 | `process(c)` accounts for exactly one more character (in the queue, the text or the trie path), and every token it emits is TEXT with content or a table symbol without |
| LexerSpec.MissedFacts | src/core/lex/lexer.cpp:27-43 | the miss case accounts for exactly one more character and emits only well-formed tokens |
| LexerSpec.EmittedFacts | src/core/lex/lexer.cpp:46-63 | the emitting half moves the text and the accepted keyword into the queue and leaves only `buf_` to reprocess |
| LexerSpec.TokenizedFacts | src/core/lex/lexer.hpp:162-167 | `tokenize_text` moves the pending text into the queue as one well-formed TEXT token |
| LexerSpec.NulLeavesTrie | src/core/lex/lexer.cpp:75-77 | no keyword holds a NUL, so a NUL never extends the trie path |
| LexerSpec.BacktrackedFacts | src/core/lex/lexer.cpp:46-69 | `backtrack(c)` accounts for exactly one more character and emits only well-formed tokens |
| LexerSpec.ReprocessedFacts | src/core/lex/lexer.cpp:65-68 | reprocessing a string accounts for exactly its characters and emits only well-formed tokens |
| LexerSpec.ProcessedNul | src/core/lex/lexer.cpp:30-34 | processing a NUL ends at the root, not backtracking, with the NUL the last character of the pending text |
| LexerSpec.MissedNul | src/core/lex/lexer.cpp:27-43 | the miss case on a NUL ends the same way |
| LexerSpec.BacktrackedNul | src/core/lex/lexer.cpp:75-77 | `backtrack(0)` ends at the root with the NUL pending, unemitted, at the end of the text |
| LexerSpec.FlushedPlain | src/core/lex/lexer.cpp:79-84 | `flush()` when not backtracking emits `text_` + `buf_` as one TEXT token (none when both are empty) and returns to the initial state apart from the queue |
| LexerSpec.FlushedBacktracking | src/core/lex/lexer.cpp:75-77 | `flush()` while backtracking leaves a NUL at the end of a text it never emits |
| LexerSpec.FlushedWeight | src/core/lex/lexer.cpp:71-85 | `flush()` loses no character: it accounts for what was pending, plus the NUL when it backtracks, and emits only well-formed tokens |
| LexerSpec.FlushedWeightBacktracking | src/core/lex/lexer.cpp:75-77 | while backtracking `flush()` accounts for one more character, the NUL |
| LexerSpec.FlushedWeightPlain | src/core/lex/lexer.cpp:79-84 | without backtracking `flush()` accounts for exactly what was pending |
| Lexer.UniformByLength | src/core/lex/lexer.hpp:95-117 | a table whose keyword lengths match their symbols has uniform lengths per symbol |
| Lexer.TablesValid | src/core/lex/lexer.hpp:95-117 | every generation's table has non-empty, NUL-free, distinct keywords of uniform length per symbol, none standing for TEXT |
| Lexer.CurrentShape | src/core/lex/lexer.hpp:95-117 | the 20-entry table of the newest two generations is non-empty, NUL-free and length-uniform per symbol |
| Lexer.Legacy2Shape | src/core/lex/legacy_2/lexer.hpp:102-115 | the 10-entry table is non-empty, NUL-free and length-uniform per symbol |
| Lexer.EarliestShape | src/core/lexer_trie.hpp:44-62 | the 16-entry table is non-empty, NUL-free and length-uniform per symbol |
| Lexer.TableValid | src/core/lex/lexer.hpp:95-117 | entry-wise facts of a table give its three whole-table properties |
| Lexer.CurrentDistinct | src/core/lexer/lexer.cpp:11-34 | no keyword of the 20-entry table is listed twice |
| Lexer.Legacy2Distinct | src/core/lex/legacy_2/lexer.hpp:102-115 | no keyword of the 10-entry table is listed twice |
| Lexer.EarliestDistinct | src/core/lexer_trie.hpp:44-62 | no keyword of the 16-entry table is listed twice |
| Lexer.Lexer.constructor | src/core/lex/lexer.hpp:150-160 | a new lexer of any generation installs that generation's table, with empty text, buffer and queue, the trie at its root and no backtracking |
| Lexer.Lexer.TokenizeText | src/core/lex/lexer.hpp:162-167 | `tokenize_text` queues one TEXT token carrying `text_` only when it is non-empty, and moves the text out |
| Lexer.Lexer.UpdateState | src/core/lex/lexer.hpp:184-195 | at an accepting node `update_state` starts backtracking and clears `buf_`; elsewhere nothing changes |
| Lexer.Lexer.Reset | src/core/lex/lexer.hpp:208-214 | `reset` clears `text_` and `buf_`, returns the trie to the root and drops backtracking, keeping the queue |
| Lexer.Lexer.Process | src/core/lex/lexer.cpp:12-44 | the recursive `process(c)` leaves the lexer in the state `Processed` describes, for each generation |
| Lexer.Lexer.Extend | src/core/lex/lexer.cpp:16-25 | a successful transition appends c to `buf_` and moves the path one level down, nothing else |
| Lexer.Lexer.Miss | src/core/lex/lexer.cpp:27-43 | the no-transition branch of `process` leaves the state `Missed` describes |
| Lexer.Lexer.BackOffAtOnce | src/core/lex/lexer.cpp:52 | `back_transition(n)` of the newest trie drops min(n, depth) levels of the path and changes nothing else |
| Lexer.Lexer.BackOffStepwise | src/core/lexer/lexer.cpp:70-72 | the loop of one `back_transition()` per buffered character drops exactly that many levels |
| Lexer.Lexer.Backtrack | src/core/lex/lexer.cpp:46-69 | `backtrack(c)` leaves the state `Backtracked` describes |
| Lexer.Lexer.Emit | src/core/lex/lexer.cpp:48-63 | the emitting half of `backtrack` leaves the state `Emitted` describes and returns the old `buf_` as the string to reprocess |
| Lexer.Lexer.Reprocess | src/core/lex/lexer.cpp:65-68 | the reprocessing loop leaves the state `Reprocessed` describes |
| Lexer.Lexer.Flush | src/core/lex/lexer.cpp:71-85 | `flush()` leaves the state `Flushed` describes |
| Lexer.Lexer.Feed | src/core/lex/lexer.cpp:12-44 | feeding a string character by character leaves the state `Run` describes |
| Lexer.Lexer.Drain | src/core/lex/lexer.hpp:197-206 | calling `next_token` until it returns none yields the whole queue in FIFO order and empties it |
| Lexer.Lexer.NextToken | src/core/lex/lexer.hpp:197-206 | `next_token` returns none on an empty queue and otherwise pops and returns its front |
| Lexer.Lex | src/core/lex/lexer.hpp:136-138 | feeding an input, flushing and draining yields the tokens `Flushed(Run(...))` holds |
| LexerRuns.StepText | src/core/lex/lexer.cpp:30-35 | at the root, a character that begins no keyword joins the text, in every generation |
| LexerRuns.StepFollow | src/core/lex/lexer.cpp:16-25 | away from an accepting node, a character that extends the path is buffered |
| LexerRuns.StepFollowAccepted | src/core/lex/lexer.hpp:184-195 | past an accepting node, the lexer starts backtracking and the buffer restarts with the new character |
| LexerRuns.AfterKeyword | src/core/lex/lexer.cpp:46-63 | after an accepted keyword the pending text, then the keyword's symbol, are queued and the lexer is empty at the root |
| LexerRuns.EmittedAtAccept | src/core/lex/lexer.cpp:46-63 | at an accepting node, `update_state` then the emitting half of `backtrack` queue exactly the text and that node's symbol |
| LexerRuns.BacktrackedEmpty | src/core/lex/lexer.cpp:58-68 | with an empty buffer, `backtrack(c)` emits and then processes only c |
| LexerRuns.StepAccept | src/core/lex/lexer.cpp:42-43 | a character that cannot extend an accepted keyword emits the keyword and is processed again from the root |
| LexerRuns.FlushText | src/core/lex/lexer.cpp:79-84 | `flush()` without an accepted keyword emits text and buffer as one TEXT token and resets |
| LexerRuns.FlushAccept | src/core/lex/lexer.cpp:75-77 | `flush()` at an accepting node emits the keyword and leaves a lone NUL as pending text |
| LexerRuns.RunSnoc | src/core/lex/lexer.cpp:12-44 | feeding one more character is one more `process` call |
| LexerRuns.StepSpill | src/core/lexer/lexer.cpp:51-58 | in the generations that do not reprocess, a failed partial match puts `buf_` and the character in the text and resets |
| LexerRuns.StepRetry | src/core/lex/lexer.cpp:36-39 | in the generations that reprocess, a failed partial match moves `buf_` into the text and processes the character again from the root |
| LexerRuns.RunAppend | src/core/lex/lexer.cpp:12-44 | feeding a + b is feeding a, then b |
| LexerRuns.TextRun | src/core/lex/lexer.cpp:30-35 | characters that begin no keyword are appended to the text one by one |
| LexerRuns.FollowRun | src/core/lex/lexer.cpp:16-25 | a run that stays on the trie without passing a keyword is buffered whole |
| LexerExamples.TableShape | src/core/lex/lexer.hpp:95-117 | the installed table has non-empty, NUL-free keywords |
| LexerExamples.LetterNotFirst | src/core/lex/lexer.hpp:95-117 | no keyword begins with a lower-case letter |
| LexerExamples.AtKeysLong | src/core/lex/lexer.hpp:113-116 | every keyword beginning with '@' has six or seven characters |
| LexerExamples.SdescKeyword | src/core/lex/lexer.hpp:113 | "@sdesc" is listed once, for SDESC |
| LexerExamples.SdescSymbol | src/core/lex/lexer.hpp:113 | the node for "@sdesc" exists and carries SDESC |
| LexerExamples.AtDeadEnds | src/core/lex/lexer.hpp:113-116 | no keyword continues "@" with '@' or "@sdes" with 's' |
| LexerExamples.SdescEnds | src/core/lex/lexer.hpp:113-116 | nothing continues "@sdesc" |
| LexerExamples.SdescMinimal | src/core/lex/lexer.hpp:95-117 | no keyword is a proper prefix of "@sdesc" |
| LexerExamples.LettersOff | src/core/lex/lexer.hpp:95-117 | a lower-case letter neither begins a keyword nor continues "@sdesc" |
| LexerExamples.CurrentIsSdescTable | src/core/lex/lexer.hpp:95-117 | the installed table has every property the test's run needs |
| LexerExamples.Letters | src/core/lex/lexer.cpp:30-35 | lower-case letters at the root join the text |
| LexerExamples.FollowSdesc | src/core/lex/lexer.cpp:16-25 | the characters along a prefix of "@sdesc" are followed and buffered |
| LexerExamples.AtAgainRetried | src/core/lex/lexer.cpp:36-39 | a second '@' in the generations that reprocess: the first joins the text, the second starts the path again |
| LexerExamples.AtFromRoot | src/core/lex/lexer.cpp:16-25 | from the root, '@' is followed |
| LexerExamples.AtAgainSpilled | src/core/lexer/lexer.cpp:51-58 | a second '@' in the runtime generation: both join the text and the trie returns to the root |
| LexerExamples.SdesDeadEnd | src/core/lex/lexer.cpp:36-39 | an 's' after "@sdes" ends the partial match in every generation: all six characters join the text |
| LexerExamples.SdesRetried | src/core/lex/lexer.cpp:36-39 | in the generations that reprocess, that 's' is retried from the root and joins the text |
| LexerExamples.SdesSpilled | src/core/lexer/lexer.cpp:51-58 | in the generations that do not reprocess, that 's' is put in the text with the buffer |
| LexerExamples.SdescAccepted | src/core/lex/lexer.cpp:46-69 | a letter after "@sdesc" emits the pending text and SDESC and starts a new text with the letter |
| LexerExamples.SdescPart1 | test/core/lexer/lexer_unittest.cpp:324-330 | "ssdesc@" in every generation: the letters are text and the trie is at "@" |
| LexerExamples.CurrentSdescPart2 | test/core/lexer/lexer_unittest.cpp:324-330 | in the current generation, the first '@' of "@@sdesc" is text and the second begins "@sdesc" |
| LexerExamples.EmittedAtF | test/core/lexer/lexer_unittest.cpp:332-338 | the 'f' after "@sdesc" queues TEXT "ssdesc@" and SDESC |
| LexerExamples.CurrentSdescPart3 | test/core/lexer/lexer_unittest.cpp:324-338 | in the current generation, after "ssdesc@@sdescf@sdes" SDESC has been emitted and the trie is at "@sdes" |
| LexerExamples.CurrentSdescPart4 | test/core/lexer/lexer_unittest.cpp:324-342 | in the current generation, the whole input leaves "f@sdesscf" pending behind the two tokens |
| LexerExamples.CurrentSdescRun | test/core/lexer/lexer_unittest.cpp:324-346 | in the current generation the test's input lexes to TEXT "ssdesc@", SDESC, TEXT "f@sdesscf" |
| LexerExamples.CurrentSdescFlush | src/core/lex/lexer.cpp:79-84 | the final `flush()` emits the pending "f@sdesscf" |
| LexerExamples.RuntimeSdescPart2 | src/core/lexer/lexer.cpp:51-58 | in the runtime generation both '@' and "sdescf" are text after "ssdesc@@sdescf", and the trie is at "@sdes" |
| LexerExamples.RuntimeSdescPart3 | src/core/lexer/lexer.cpp:51-58 | in the runtime generation the whole input is pending text |
| LexerExamples.RuntimeSdescRun | src/core/lexer/lexer.cpp:36-105 | in the runtime generation the test's input lexes to one TEXT token holding all of it |
| LexerExamples.RuntimeSdescFlush | src/core/lexer/lexer.cpp:91-105 | the final `flush()` of the runtime generation emits the whole input as TEXT |
| LexerExamples.CurrentLexesSdescTest | test/core/lexer/lexer_unittest.cpp:324-346 | `setup_lexer` then `next_token` until none, on the current lexer, yields exactly the test's three tokens |
| LexerExamples.RuntimeFailsSdescTest | test/core/lexer/lexer_unittest.cpp:324-346 | on the runtime lexer the test file is written for, the same input yields one TEXT token instead |
| LexerLongest.AcceptingOnTrie | src/core/lex/lextrie.hpp:221-233 | an accepting node lies on the trie |
| LexerLongest.DeepestUpdated | src/core/lex/lexer.hpp:184-195 | `update_state` keeps the invariant and the fact that no accepting node lies strictly between the last one passed and the position, since it forgets the buffer at an accepting node |
| LexerLongest.DeepestExtends | src/core/lex/lexer.cpp:16-25 | following a character keeps that fact when the position was not accepting or nothing was buffered |
| LexerLongest.DeepestProcessed | src/core/lex/lexer.cpp:12-44 | `process(c)` keeps that fact |
| LexerLongest.DeepestMissed | src/core/lex/lexer.cpp:27-43 | the failed-transition branches of `process` (text at the root, spill and retry, backtrack) keep that fact |
| LexerLongest.DeepestReprocessed | src/core/lex/lexer.cpp:65-68 | reprocessing a string character by character keeps that fact |
| LexerLongest.DeepestRun | src/core/lex/lexer.cpp:12-69 | every state reached from a fresh lexer has that fact |
| LexerLongest.NoLongerKeyword | src/core/lex/lexer.cpp:46-69 | when a character leads off the trie while backtracking, no prefix of the path plus that character longer than the last accepting node is a keyword |
| LexerLongest.LongestMatch | src/core/lex/lexer.cpp:46-69 | in that case `process` emits the pending text and the symbol of the last accepting node, which is a keyword and a prefix of the path, no longer prefix being one, and reprocesses the buffered characters and the new one |
| LexerLongest.LongestMatchAfterRun | src/core/lex/lexer.cpp:12-69 | after any input from a fresh lexer, a character that leads off the trie while backtracking emits the longest keyword that is a prefix of what was read since the last emission, then reprocesses the rest |
| LexerMixes.KeyAt | src/core/lex/lexer.hpp:97-112 | each of the first sixteen keywords but '#', '{' and '}' is a node of the trie carrying its own symbol |
| LexerMixes.OffStart | src/core/lex/lexer.hpp:97-116 | no keyword begins with a character outside the thirteen first characters of the table |
| LexerMixes.CurrentIsTextTable | src/core/lex/lexer.hpp:97-116 | the installed table has non-empty, NUL-free keywords, none of them beginning outside those thirteen characters |
| LexerMixes.FourSlashesOff | src/core/lex/lexer.hpp:97-116 | no keyword continues "///" |
| LexerMixes.SlashNode | src/core/lex/lexer.hpp:108-111 | "/" begins keywords but is none |
| LexerMixes.CurrentIsSlashTable | src/core/lex/lexer.hpp:108-110 | "/" is a node but no keyword, "//" carries BEGIN_NLINE_COMMENT, "///" carries BEGIN_SLINE_COMMENT, and nothing continues "///" |
| LexerMixes.SlashStarStarOff | src/core/lex/lexer.hpp:97-116 | no keyword continues "/*" with '*' |
| LexerMixes.StarEnds | src/core/lex/lexer.hpp:105-112 | no keyword continues "*" with anything but '/', nor "*/" at all |
| LexerMixes.CurrentIsBlockTable | src/core/lex/lexer.hpp:105-111 | "/*" and "/*!" carry their block-comment symbols, "*" carries STAR, and no keyword continues "/*" with '*' or "*" with '!' |
| LexerMixes.CurrentIsEndTable | src/core/lex/lexer.hpp:105-112 | "*" carries STAR, "*/" carries END_BLOCK_COMMENT, and no keyword continues "*" with '*' or "*/" with 'f' |
| LexerMixes.ShortKeyEnds | src/core/lex/lexer.hpp:97-103 | the seven whitespace and semicolon keywords are one character long and no keyword continues them |
| LexerMixes.Word | src/core/lex/lexer.cpp:27-33 | characters that begin no keyword, read at the root, join the text |
| LexerMixes.FirstWord | src/core/lex/lexer.cpp:27-33 | such a word read by a fresh lexer is exactly the pending text |
| LexerMixes.RunFollow | src/core/lex/lexer.cpp:16-25 | after a run ending at a non-accepting node, a character on the trie is followed and buffered |
| LexerMixes.RunFollowAccepted | src/core/lex/lexer.hpp:184-195 | after a run ending at an accepting node, a character on the trie starts backtracking with only that character buffered |
| LexerMixes.RunAcceptText | src/core/lex/lexer.cpp:46-69 | after a run ending at an accepting node, a character off the trie that begins no keyword emits the text and the keyword and becomes the new text |
| LexerMixes.RunAcceptFollow | src/core/lex/lexer.cpp:46-69 | after a run ending at an accepting node, a character off the trie that begins a keyword emits the text and the keyword and starts a new match |
| LexerMixes.TextToken | src/core/lex/lexer.hpp:162-167 | `tokenize_text` emits one TEXT token exactly when the text is not empty |
| LexerMixes.WordKeyword | src/core/lex/lexer.cpp:16-33 | a word then a one-character keyword leaves the keyword as a match in progress, whose emission yields the word's TEXT token and the keyword's symbol |
| LexerMixes.KeywordNext | src/core/lex/lexer.cpp:46-69 | a word, a one-character keyword no keyword continues with the next character, and that character: the word and the symbol are emitted and the character is the new text |
| LexerMixes.KeywordWord | src/core/lex/lexer.cpp:12-69 | the same with a whole second word, which becomes the pending text |
| LexerMixes.KeywordBetween | src/core/lex/lexer.cpp:12-85 | after `flush()`, a word, such a keyword and another word are exactly the word's TEXT token, the symbol and the second word's TEXT token |
| LexerMixes.KeywordLast | src/core/lex/lexer.cpp:71-85 | a keyword as the last character is still emitted by `flush()`, after the word's TEXT token |
| LexerMixes.ShortBetween | src/core/lex/lexer.hpp:97-103 | on the installed table, any of the seven whitespace and semicolon keywords between two plain words lexes to the first word, the symbol and the second word |
| LexerMixes.ShortLast | src/core/lex/lexer.hpp:97-103 | any of those keywords after a plain word, as the last character, lexes to the word and the symbol |
| LexerMixes.NewlineTest | test/core/lexer/lexer_unittest.cpp:33-55 | "somecrazy1492text\nmvn2b" lexes to TEXT, NEWLINE, TEXT as the test expects |
| LexerMixes.SpaceTest | test/core/lexer/lexer_unittest.cpp:57-80 | ",m.,m. abn" lexes to TEXT, WHITESPACE, TEXT |
| LexerMixes.TabTest | test/core/lexer/lexer_unittest.cpp:82-105 | "h0f2n.1", a tab, then "1234" and a vertical bar lexes to TEXT "h0f2n.1", WHITESPACE, and TEXT with the rest |
| LexerMixes.VerticalTabTest | test/core/lexer/lexer_unittest.cpp:107-126 | "hello!\v" lexes to TEXT, WHITESPACE |
| LexerMixes.CarriageReturnTest | test/core/lexer/lexer_unittest.cpp:128-151 | "hello!\rwsdescorrld!!" lexes to TEXT, WHITESPACE, TEXT |
| LexerMixes.FormFeedTest | test/core/lexer/lexer_unittest.cpp:153-176 | "hello!\fwsdescorrld!!" lexes to TEXT, WHITESPACE, TEXT |
| LexerMixes.SemicolonTest | test/core/lexer/lexer_unittest.cpp:178-197 | ";wsdescorrld!!" lexes to SEMICOLON, TEXT with no TEXT token before |
| LexerMixes.SlashRuns3 | src/core/lex/lexer.cpp:16-25 | after "abc", one, two and three '/' walk down the trie; at "///" backtracking has started |
| LexerMixes.AfterSline | src/core/lex/lexer.cpp:46-58 | backtracking from "abc///" emits TEXT "abc" and BEGIN_SLINE_COMMENT |
| LexerMixes.SlashRuns6 | src/core/lex/lexer.cpp:46-69 | a fourth '/' emits "///" and starts a new match, which the fifth and sixth '/' continue |
| LexerMixes.SlineTest | test/core/lexer/lexer_unittest.cpp:200-218 | "abc///" lexes to TEXT "abc" and BEGIN_SLINE_COMMENT, the longest keyword, rather than "//" |
| LexerMixes.LineComment4Run | src/core/lex/lexer.cpp:71-85 | on any table with those properties, "abc////" lexes to TEXT, BEGIN_SLINE_COMMENT, TEXT "/" |
| LexerMixes.LineComment4Test | test/core/lexer/lexer_unittest.cpp:353-375 | "abc////" lexes to TEXT "abc", BEGIN_SLINE_COMMENT, TEXT "/" |
| LexerMixes.LineComment5Test | test/core/lexer/lexer_unittest.cpp:378-400 | "abc/////" lexes to TEXT "abc", BEGIN_SLINE_COMMENT, BEGIN_NLINE_COMMENT |
| LexerMixes.LineComment6Test | test/core/lexer/lexer_unittest.cpp:403-425 | "abc//////" lexes to TEXT "abc" and BEGIN_SLINE_COMMENT twice |
| LexerMixes.OffBangAndF | src/core/lex/lexer.hpp:97-116 | neither '!' nor 'f' begins a keyword |
| LexerMixes.SlashStarRun | src/core/lex/lexer.cpp:16-25 | "abc/*" leaves the trie at "/*", buffered |
| LexerMixes.SblockRun | src/core/lex/lexer.cpp:71-85 | on any table with those properties, "abc/*!" lexes to TEXT and BEGIN_SBLOCK_COMMENT |
| LexerMixes.SblockTest | test/core/lexer/lexer_unittest.cpp:221-239 | "abc/*!" lexes to TEXT "abc" and BEGIN_SBLOCK_COMMENT, the longest keyword, rather than "/*" |
| LexerMixes.NblockStarRun | src/core/lex/lexer.cpp:46-69 | in "abc/**" the second '*' emits "/*" and begins a STAR match |
| LexerMixes.AfterNblockStar | src/core/lex/lexer.cpp:46-58 | backtracking from that STAR emits it after TEXT and BEGIN_NBLOCK_COMMENT |
| LexerMixes.NblockBangRun | src/core/lex/lexer.cpp:46-69 | in "abc/**!" the '!' emits the STAR and becomes the new text |
| LexerMixes.NblockRun | src/core/lex/lexer.cpp:71-85 | on any table with those properties, "abc/**!" lexes to TEXT, BEGIN_NBLOCK_COMMENT, STAR, TEXT "!" |
| LexerMixes.NblockTest | test/core/lexer/lexer_unittest.cpp:242-268 | "abc/**!" lexes to TEXT "abc", BEGIN_NBLOCK_COMMENT, STAR, TEXT "!" |
| LexerMixes.EndThenF | src/core/lex/lexer.cpp:46-85 | "*/f" from the root emits the pending tokens, END_BLOCK_COMMENT and TEXT "f" |
| LexerMixes.EndNoStarRun | src/core/lex/lexer.cpp:71-85 | on any table with those properties, "abc*/f" lexes to TEXT, END_BLOCK_COMMENT, TEXT "f" |
| LexerMixes.EndNoStarTest | test/core/lexer/lexer_unittest.cpp:271-293 | "abc*/f" lexes to TEXT "abc", END_BLOCK_COMMENT, TEXT "f": the longest keyword "*/" rather than "*" |
| LexerMixes.StarStarRun | src/core/lex/lexer.cpp:46-69 | in "abc**" the second '*' emits the first as STAR and begins a new match |
| LexerMixes.EndStarRun | src/core/lex/lexer.cpp:71-85 | on any table with those properties, "abc**/f" lexes to TEXT, STAR, END_BLOCK_COMMENT, TEXT "f" |
| LexerMixes.EndStarTest | test/core/lexer/lexer_unittest.cpp:295-321 | "abc**/f" lexes to TEXT "abc", STAR, END_BLOCK_COMMENT, TEXT "f" |
| LexTrie.InsertByKey | src/core/lex/lextrie.hpp:89-110 | placing one entry into a key-sorted children list keeps it sorted and adds exactly that entry |
| LexTrie.SortByKey | src/core/lex/lextrie.hpp:93-97 | the argsort of the characters yields the children sorted by key, with the same entries |
| LexTrie.MakeChildren | src/core/lex/lextrie.hpp:89-110 | `make_children` builds a key-sorted map with one entry per child, pairing each character with its own child and nothing else |
| LexTrie.ChildLookup | src/core/lex/lextrie.hpp:187-189 | with distinct characters, `children_.find(c)` finds an entry exactly when c is a child's character, and that entry holds c's child |
| LexTrie.BuildProper | src/core/utils/trie_params.hpp:196-251 | the description `trie_params` builds has, at every node, distinct characters, one child per character and children that are themselves well formed |
| LexTrie.UnderProper | src/core/lex/lextrie.hpp:178-185 | the node any active chain reaches is well formed |
| LexTrie.WalkSnoc | src/core/lex/lextrie.hpp:172-195 | extending the active chain by c reaches c's child of the deepest active node, and fails at a leaf or when c is not a child |
| LexTrie.WalkPrefix | src/core/lex/lextrie.hpp:197-219 | every prefix of an active chain is an active chain, so backing off always lands on a node |
| LexTrie.BackCount | src/core/lex/lextrie.hpp:196-218 | the count `back_transition(num)` returns never exceeds `num` or the number of active levels |
| LexTrie.BackCountIsMin | src/core/lex/lextrie.hpp:197-219 | `back_transition(num)` undoes exactly min(num, active depth) levels |
| LexTrie.Trie.constructor | src/core/lex/lextrie.hpp:41-43 | a default-constructed root over a well-formed description has no active child |
| LexTrie.Trie.Transition | src/core/lex/lextrie.hpp:172-195 | `transition(c, f)` succeeds exactly when the deepest active node has a child for c; then the child is activated and f runs once, otherwise nothing changes and f does not run |
| LexTrie.Trie.BackTransition | src/core/lex/lextrie.hpp:197-219 | `back_transition(num)` deactivates the last min(num, depth) links and returns that count |
| LexTrie.Trie.Reset | src/core/lex/lextrie.hpp:241-253 | `reset()` deactivates the whole chain, so `is_reset()` holds |
| LexTrie.BuiltTransition | src/core/lex/lextrie.hpp:172-195 | on a trie built from pairs, a transition succeeds exactly when the chain extended by c is a prefix of some string |
| LexTrie.BuiltQueries | src/core/lex/lextrie.hpp:221-270 | on a built trie `is_accept` holds exactly when a string ends at the chain, `get_symbol` is then that string's symbol, and every active chain is a prefix of some string |
| LexTrie.LeafFacts | src/core/lex/lextrie.hpp:276-282 | from a leaf, no character transitions |
| TrieParams.HasEmpty | src/core/utils/trie_params.hpp:40-49 | `has_empty_valuelist_v` holds exactly when some list of the typelist is empty |
| TrieParams.SuffixesMembers | src/core/utils/trie_params.hpp:185-197 | the pruned group for c holds exactly the non-empty remainders of the strings beginning with c, each with its own symbol |
| TrieParams.SuffixesWellFormed | src/core/utils/trie_params.hpp:204-211 | the pairs of a sub-description are again non-empty, distinct strings, and strictly shorter, so the recursion ends |
| TrieParams.Build | src/core/utils/trie_params.hpp:144-251 | `trie_params_t` is `leaf_tag` exactly for the empty pair list; otherwise its character set is distinct, has one child per character, and holds exactly the first characters of the strings |
| TrieParams.BuildChild | src/core/utils/trie_params.hpp:204-220 | the child for c is the description of the pruned suffixes; it accepts exactly when the string "c" itself is listed, with that string's symbol, and otherwise carries the symbol of the group's first string |
| TrieParams.GroupPipeline | src/core/utils/trie_params.hpp:163-197 | the chain `subset_idx_t`/`subset_t`/`transform_t`/`subset_t`/`zip_t` of the source computes the group for c, its strings without their first character, and the pruned suffix pairs |
| TrieParams.GroupMembers | src/core/utils/trie_params.hpp:163-183 | the group for c has distinct strings, all listed and beginning with c, and a remainder is empty exactly for the string "c" |
| TrieParams.AtMostOneEnds | src/core/utils/trie_params.hpp:66-71 | with distinct strings at most one remainder in a group is empty, so `choose_symbol`'s one-index assertion holds |
| TrieParams.AcceptFact | src/core/utils/trie_params.hpp:212-215 | the accept flag of the child for c holds exactly when the string "c" is listed |
| TrieParams.ExactSymbolFact | src/core/utils/trie_params.hpp:66-78 | when "c" is listed, `choose_symbol` picks its symbol |
| TrieParams.FirstSymbolFact | src/core/utils/trie_params.hpp:80-87 | when "c" is not listed, `choose_symbol` picks the symbol of the first string beginning with c |
| TrieParams.ChildFacts | src/core/utils/trie_params.hpp:204-220 | the three parts of a child's information, together: its group is non-empty, its accept flag and its symbol are as above |
| TrieParams.WalkBuild | src/core/utils/trie_params.hpp:99-110 | following a path through the description succeeds exactly for prefixes of the strings, accepts exactly at a listed string and then carries its symbol |
| TrieParams.WalkRoot | src/core/utils/trie_params.hpp:204-241 | the first step from the root reaches the child built for that character |
| TrieParams.WalkBuildOne | src/core/utils/trie_params.hpp:204-220 | the path facts for a path of one character |
| TrieParams.WalkBuildMiss | src/core/utils/trie_params.hpp:157-161 | a path whose first character begins no string reaches nothing and is no prefix of any string |
| TrieParams.BuildAcceptsEachString | src/core/utils/trie_params.hpp:99-110 | every listed string leads to an accepting node that carries its symbol |
| TrieParams.LeafChildAccepts | src/core/utils/trie_params.hpp:199-203 | a child whose sub-description is a leaf accepts: some string ended there |
| TrieParams.DepthTwoChars | test/core/utils/trie_params_unittest.cpp:73-96 | for "a" → 0, "ab" → 1, "ba" → 1 the root characters are 'a' and 'b' |
| TrieParams.DepthTwoAccepts | test/core/utils/trie_params_unittest.cpp:98-137 | in that case "a" and "ab" accept with symbols 0 and 1 |
| TrieParams.DepthTwoInner | test/core/utils/trie_params_unittest.cpp:90-96 | in that case "b" is a node on the way to "ba" that does not accept |
| TrieParams.DepthTwoOutside | test/core/utils/trie_params_unittest.cpp:73-137 | in that case "abc" leads nowhere |
| TrieParams.FirstChars | src/core/utils/trie.hpp:39-74 | `get_first_chars_t` maps every (non-empty) string to its first character |
| TrieParams.RemoveFirstChars | src/core/utils/trie.hpp:77-112 | `remove_first_chars_t` keeps one entry per string, the string without its first character |
| TrieParams.MakeTrieChecks | src/core/utils/trie.hpp:295-313 | `make_trie` compiles exactly for a non-empty pair array with unique strings |
| LegacyRoutines.Next | src/io/file_reader.hpp:20-23 | reading yields no character exactly at end of input, otherwise one character fewer remains, and pushing the read character back restores the input |
| LegacyRoutines.Reader.constructor | src/io/file_reader.hpp:12-18 | a fresh reader sees the whole input and has nothing pushed back |
| LegacyRoutines.Reader.Read | src/io/file_reader.hpp:20-23 | reading consumes the pushed-back character first, then the input, and clears the push-back |
| LegacyRoutines.Reader.Back | src/io/file_reader.hpp:25-28 | pushing back a character makes it the next one read; pushing back end of input changes nothing |
| LegacyRoutines.Reader.Peek | src/io/file_reader.hpp:30-35 | peeking returns the next character and leaves what remains to be read unchanged |
| LegacyRoutines.Span | src/core/lex/legacy/lexer_routines.hpp:24-29 | the length of the longest prefix whose characters all satisfy the predicate: every character before it does, the one at it does not |
| LegacyRoutines.NextAt | src/core/lex/legacy/lexer_routines.hpp:24-29 | reading at an offset into the input yields the character at that offset and the input past it |
| LegacyRoutines.Ignored | src/core/lex/legacy/lexer_routines.hpp:24-29 | ignoring until the predicate fails also consumes the first failing character; at end of input nothing remains |
| LegacyRoutines.Session.IgnoreUntil | src/core/lex/legacy/lexer_routines.hpp:24-29 | the loop returns the first character failing the predicate (or end of input) and leaves the reader just past it |
| LegacyRoutines.Session.ReadUntil | src/core/lex/legacy/lexer_routines.hpp:35-43 | the loop appends the longest run of characters satisfying the predicate to the line, returns the terminator and leaves the reader just past it |
| LegacyRoutines.CloseAt | src/core/lex/legacy/lexer_routines.cpp:41-42 | the offset of the first "*/" in the input, or its length when there is none |
| LegacyRoutines.Closed | src/core/lex/legacy/lexer_routines.cpp:56-64 | skipping a block comment leaves what follows the first "*/", or nothing when the comment is unterminated |
| LegacyRoutines.Session.IgnoreUntilClose | src/core/lex/legacy/lexer_routines.cpp:41-42 | the loop stops on the '*' of the first "*/" (or end of input) and leaves the reader at the '/' |
| LegacyRoutines.Session.SkipBlockComment | src/core/lex/legacy/lexer_routines.cpp:63-64 | ignoring until "*/" and reading the '/' leaves the reader exactly past the first "*/" |
| LegacyRoutines.EndNotSpace | src/core/lex/legacy/lexer_routines.hpp:56 | the position after the last non-whitespace character: everything from it on is whitespace |
| LegacyRoutines.Trim | src/core/lex/legacy/lexer_routines.hpp:48-72 | the trimmed line is the slice of the original at the returned leading-whitespace count, only whitespace lies outside it, it neither starts nor ends with whitespace, and an all-whitespace line gives the empty string and its own length |
| LegacyRoutines.TrimTwice | src/core/lex/legacy/lexer_routines.hpp:48-72 | trimming is idempotent: a trimmed non-empty line trims to itself with no leading whitespace |
| LegacyRoutines.Tokenized | src/core/lex/legacy/lexer_routines.hpp:76-87 | the text is cleared and at most one token is appended; one is appended exactly when the text holds a non-whitespace character, and it is a TEXT token holding the trimmed text as a slice of the original at its leading-whitespace count |
| LegacyRoutines.Session.TokenizeText | src/core/lex/legacy/lexer_routines.hpp:76-87 | the session's text and tokens become what Tokenized describes |
| LegacyRoutines.CharProcessed | src/core/lex/legacy/lexer_routines.hpp:94-116 | a character is processed exactly when it is one of newline, ';', '{', '}'; then the pending text is tokenized and that character's symbol follows; otherwise nothing changes |
| LegacyRoutines.Session.ProcessChar | src/core/lex/legacy/lexer_routines.hpp:94-116 | the returned flag and the new session state are those CharProcessed describes |
| LegacyRoutines.TagNameTokenized | src/core/lex/legacy/lexer_routines.hpp:120-141 | the run of tag characters after '@' is consumed; a name in the tag set flushes the text and emits a TAGNAME with that name, any other name leaves the tokens alone and appends '@' and the name to the text |
| LegacyRoutines.Session.TokenizeTagName | src/core/lex/legacy/lexer_routines.hpp:120-141 | the session and reader become what TagNameTokenized describes |
| LegacyRoutines.TagNameProcessed | src/core/lex/legacy/lexer_routines.hpp:146-154 | processed exactly when the character is '@'; otherwise nothing changes |
| LegacyRoutines.Session.ProcessTagName | src/core/lex/legacy/lexer_routines.hpp:146-154 | the returned flag and the new state are those TagNameProcessed describes |
| LegacyRoutines.LineCommentProcessed | src/core/lex/legacy/lexer_routines.cpp:9-36 | after "//", a third '/' followed by whitespace flushes the text and emits BEGIN_LINE_COMMENT with the whitespace left unread; anything else skips the rest of the line including its newline |
| LegacyRoutines.Session.ProcessLineComment | src/core/lex/legacy/lexer_routines.cpp:9-36 | the session and reader become what LineCommentProcessed describes |
| LegacyRoutines.BlockCommentProcessed | src/core/lex/legacy/lexer_routines.cpp:39-66 | after "/*", '!' followed by whitespace flushes the text and emits BEGIN_BLOCK_COMMENT; otherwise text and tokens are untouched and the comment is skipped, as written starting the search for "*/" one or two characters late, once corrected from the first character |
| LegacyRoutines.Session.ProcessBlockComment | src/core/lex/legacy/lexer_routines.cpp:39-66 | the session and reader become what BlockCommentProcessed describes |
| LegacyRoutines.StringProcessed | src/core/lex/legacy/lexer_routines.cpp:77-112 | processed exactly for '/' and '*': "//" and "/*" go to the comment routines, '/' before another character adds both to the text, "*/" emits END_BLOCK_COMMENT and a lone '*' emits STAR with the next character left unread; every other character changes nothing |
| LegacyRoutines.Session.ProcessString | src/core/lex/legacy/lexer_routines.cpp:77-112 | the returned flag and the new state are those StringProcessed describes |
| LegacyRoutines.Stepped | src/core/lex/legacy/lexer_routines.cpp:121-143 | one iteration of the main loop never lengthens the input still to read |
| LegacyRoutines.SteppedPlain | src/core/lex/legacy/lexer_routines.cpp:141-142 | a character that no routine claims is appended to the text |
| LegacyRoutines.SteppedChar | src/core/lex/legacy/lexer_routines.cpp:124-127 | a single-character symbol flushes the text and emits its symbol |
| LegacyRoutines.SteppedTag | src/core/lex/legacy/lexer_routines.cpp:130-133 | '@' is handed to the tag-name routine |
| LegacyRoutines.SteppedString | src/core/lex/legacy/lexer_routines.cpp:136-139 | '/' and '*' are handed to the string routine |
| LegacyRoutines.Looped | src/core/lex/legacy/lexer_routines.cpp:121-143 | the main loop runs until the input is exhausted |
| LegacyRoutines.TokenizedGood | src/core/lex/legacy/lexer_routines.hpp:76-87 | tokenizing only appends well-formed tokens: a TEXT token holds trimmed non-empty text |
| LegacyRoutines.EmitGood | src/core/lex/legacy/lexer_routines.hpp:98-111 | flushing the text and emitting a symbol token only appends well-formed tokens |
| LegacyRoutines.TagNameGood | src/core/lex/legacy/lexer_routines.hpp:120-141 | the tag-name routine only appends well-formed tokens: a TAGNAME holds a tag-set name made of tag characters |
| LegacyRoutines.LineCommentGood | src/core/lex/legacy/lexer_routines.cpp:9-36 | the line-comment routine only appends well-formed tokens |
| LegacyRoutines.BlockCommentGood | src/core/lex/legacy/lexer_routines.cpp:39-66 | the block-comment routine only appends well-formed tokens |
| LegacyRoutines.StringGood | src/core/lex/legacy/lexer_routines.cpp:77-112 | the string routine only appends well-formed tokens |
| LegacyRoutines.SteppedGood | src/core/lex/legacy/lexer_routines.cpp:121-143 | one loop iteration only appends well-formed tokens |
| LegacyRoutines.LoopedGood | src/core/lex/legacy/lexer_routines.cpp:121-143 | the whole loop only appends well-formed tokens, none of them END_OF_FILE |
| LegacyRoutines.Session.constructor | src/core/lex/legacy/lexer_routines.cpp:114-118 | processing starts with empty text, no tokens and a reader over the whole input |
| LegacyRoutines.Session.Process | src/core/lex/legacy/lexer_routines.cpp:114-148 | the tokens become the old tokens followed by what Processed gives for the input, the text is empty and the input is fully read |
| LegacyRoutines.ProcessedShape | src/core/lex/legacy/lexer_routines.cpp:114-148 | processing keeps the earlier tokens as a prefix, appends well-formed tokens and ends with END_OF_FILE |
| LegacyRoutines.OneEndOfFile | src/core/lex/legacy/lexer_routines.cpp:145-147 | a processed file holds exactly one END_OF_FILE, the last token |
| LegacyRoutines.UnderscoreTagsUnreachable | src/core/lex/legacy/lexer_routines.hpp:122-133 | as written, reading tag names with isalpha means "end_section" and "end_example", although in the tag set, never become TAGNAME tokens |
| LegacyRoutines.AlphaTagName | src/core/tag_set.hpp:8-17 | a TAGNAME read with isalpha alone cannot be either of the two tag-set names that contain '_' |
| LegacyExamples.PlainRun | src/core/lex/legacy/lexer_routines.cpp:141-142 | a run of characters no routine claims passes straight into the pending text |
| LegacyExamples.PlainToEnd | src/core/lex/legacy/lexer_routines.cpp:121-143 | input made only of plain characters ends the loop as pending text with no tokens |
| LegacyExamples.SpanPrefix | src/core/lex/legacy/lexer_routines.hpp:35-43 | reading until the predicate fails stops exactly at the first failing character |
| LegacyExamples.TrimPlain | src/core/lex/legacy/lexer_routines.hpp:48-72 | text with no whitespace at either end trims to itself with no leading whitespace |
| LegacyExamples.TokenizedPlain | src/core/lex/legacy/lexer_routines.hpp:76-87 | tokenizing already trimmed text appends one TEXT token holding it unchanged |
| LegacyExamples.ProcessedFrom | src/core/lex/legacy/lexer_routines.cpp:145-147 | when the loop leaves trimmed text pending, processing ends with that TEXT token and END_OF_FILE |
| LegacyExamples.ProcessedTokens | src/core/lex/legacy/lexer_routines.cpp:145-147 | when the loop leaves no text pending, processing ends with END_OF_FILE alone |
| LegacyExamples.LoopedDone | src/core/lex/legacy/lexer_routines.cpp:121 | the loop does nothing once the input is exhausted |
| LegacyExamples.LoopedPlain | src/core/lex/legacy/lexer_routines.cpp:141-142 | a plain first character is moved to the text before the loop continues |
| LegacyExamples.LoopedChar | src/core/lex/legacy/lexer_routines.cpp:124-127 | a single-character symbol first in the input is emitted after the pending text before the loop continues |
| LegacyExamples.TagNotInSet | src/core/lex/legacy/lexer_routines.hpp:136-140 | a name outside the tag set is kept as "@" and the name in the text, and its terminator is left unread |
| LegacyExamples.TagInSet | src/core/lex/legacy/lexer_routines.hpp:130-134 | a tag-set name flushes the text and becomes a TAGNAME token, its terminator left unread |
| LegacyExamples.EndSectionSpanAsWritten | src/core/lex/legacy/lexer_routines.hpp:122-127 | as written, the tag name read from "end_section" stops at the '_' after "end" |
| LegacyExamples.EndSectionTagAsWritten | src/core/lex/legacy/lexer_routines.hpp:120-141 | as written, "@end_section" becomes the text "@end" with "_section" still to read |
| LegacyExamples.EndSectionAsWritten | src/core/lex/legacy/lexer_routines.hpp:120-141 | as written, the input "@end_section" lexes to a TEXT token "@end_section" and END_OF_FILE: the tag is lost |
| LegacyExamples.EndSectionSpanCorrected | src/core/lex/legacy/lexer_routines.hpp:122-127 | with '_' accepted, the whole of "end_section" is read as the tag name |
| LegacyExamples.EndSectionTagCorrected | src/core/lex/legacy/lexer_routines.hpp:130-134 | corrected, "@end_section" becomes a TAGNAME "end_section" |
| LegacyExamples.EndSectionCorrected | src/core/tag_set.hpp:8-17 | corrected, "@end_section" lexes to TAGNAME "end_section" and END_OF_FILE, so a tag-set name is reachable |
| LegacyExamples.EmptyCommentCloses | src/core/lex/legacy/lexer_routines.cpp:41-42 | the search for "*/" in "*/x;" finds it at once and leaves "x;" |
| LegacyExamples.EmptyCommentMissed | src/core/lex/legacy/lexer_routines.cpp:61-65 | starting one character late, the search in "/x;" finds no "*/" and consumes everything |
| LegacyExamples.EmptyCommentBlockAsWritten | src/core/lex/legacy/lexer_routines.cpp:61-65 | as written, the block comment routine on "*/x;" swallows the whole rest of the input |
| LegacyExamples.EmptyCommentBlockCorrected | src/core/lex/legacy/lexer_routines.cpp:61-65 | corrected, the block comment routine on "*/x;" leaves "x;" to read |
| LegacyExamples.EmptyCommentAsWritten | src/core/lex/legacy/lexer_routines.cpp:39-66 | as written, the input "/**/x;" lexes to END_OF_FILE alone: the text and ';' after an empty comment are lost |
| LegacyExamples.EmptyCommentCorrected | src/core/lex/legacy/lexer_routines.cpp:39-66 | corrected, "/**/x;" lexes to TEXT "x", SEMICOLON and END_OF_FILE |
| LegacyExamples.SlashAtEnd | src/core/lex/legacy/lexer_routines.cpp:81-94 | a '/' at the very end of the input adds '/' and whatever the variant adds for end of input to the text |
| LegacyExamples.SlashAtEndAsWritten | src/core/lex/legacy/lexer_routines.cpp:89-92 | as written, "a/" lexes to a TEXT token that ends in the byte EOF converts to, then END_OF_FILE |
| LegacyExamples.SlashAtEndCorrected | src/core/lex/legacy/lexer_routines.cpp:89-92 | corrected, "a/" lexes to TEXT "a/" and END_OF_FILE |
| Json.Clear | src/core/parse/core/json_writer.hpp:206-213 | clearing keeps the kind of value and empties it: a string becomes "", an array or object loses its elements |
| Json.At | src/core/parse/core/json_writer.hpp:116 | reading an absent key of an object, or any key of null, gives null; a present key gives its value |
| Json.Put | src/core/parse/core/json_writer.hpp:117 | assigning under a key makes null an object, sets that key to the value, adds it to the keys and leaves every other key's value alone |
| Json.Index | src/core/parse/core/json_writer.hpp:179 | the inserting subscript makes an object that has the key and changes no key's value |
| Json.Erase | src/core/parse/core/json_writer.hpp:170-173 | erasing removes exactly that key and leaves every other key's value alone |
| Json.PushBack | src/core/parse/core/json_writer.hpp:182 | appending to null starts an array with the element; appending to an array adds it at the end |
| Json.Materialized | src/core/parse/core/json_writer.hpp:114-120 | after val_() the handled key holds a string with the same text as before (null reads as ""), and no other key changes |
| Json.Appended | src/core/parse/core/json_writer.hpp:127 | appending to the handled value extends its text by exactly the appended characters and changes no other key |
| Json.TrimRight | src/core/parse/core/json_writer.hpp:166-169 | the trimmed text is a prefix of the original, does not end in whitespace, and everything removed is whitespace |
| Json.TrimRightIdempotent | src/core/parse/core/json_writer.hpp:166-169 | trimming trailing whitespace twice is the same as once |
| Json.TrimRightLongest | src/core/parse/core/json_writer.hpp:166-169 | the trimmed text is the shortest prefix beyond which only whitespace remains: every such prefix contains it |
| Json.Trimmed | src/core/parse/core/json_writer.hpp:163-175 | the handled value loses its trailing whitespace and its key is erased when nothing is left; other keys keep their values |
| JsonWriterSpec.Touched | src/core/parse/core/json_writer.hpp:114-120 | calling val_() only materialises a string under the handled key, when one is set, and keeps the values keyed |
| JsonWriterSpec.Written | src/core/parse/core/json_writer.hpp:93 | written() is true exactly when a key is set and its value is non-empty |
| JsonWriterSpec.JustWritten | src/core/parse/core/json_writer.hpp:94 | just_written() is true exactly when something is written and a write session is open |
| JsonWriterSpec.Write | src/core/parse/core/json_writer.hpp:123-142 | with a key set, the value grows by exactly the string and a counting write opens a session; with no key nothing changes |
| JsonWriterSpec.FirstNotSpace | src/core/parse/core/json_writer.hpp:152 | the position of the first character that is not ' ', or the length when there is none |
| JsonWriterSpec.FedValue | src/core/parse/core/json_writer.hpp:147-158 | a fed string while writing leaves a key set and the handled value reachable |
| JsonWriterSpec.Feed | src/core/parse/core/json_writer.hpp:144-161 | feeding does nothing unless writing with a key set; then a pending skip is used up without writing, and every feed clears the skip |
| JsonWriterSpec.TrimWritten | src/core/parse/core/json_writer.hpp:163-175 | trimming changes only the active value |
| JsonWriterSpec.ResetActive | src/core/parse/core/json_writer.hpp:206-213 | resetting the active part clears the key and every flag and leaves stored, stowed and the unstow key alone |
| JsonWriterSpec.Reset | src/core/parse/core/json_writer.hpp:215-219 | reset keeps the state well formed |
| JsonWriterSpec.StoreInto | src/core/parse/core/json_writer.hpp:177-185 | store moves the active value only when something is written and the slot is null or an array; otherwise the writer is unchanged and the slot is only inserted |
| JsonWriterSpec.Unstow | src/core/parse/core/json_writer.hpp:197-204 | unstowing clears the unstow key, keeps stored_ and leaves the values keyed |
| JsonWriterSpec.StowFor | src/core/parse/core/json_writer.hpp:187-195 | stowing leaves the values keyed and the new active value reachable |
| JsonWriterProps.FedText | src/core/parse/core/json_writer.hpp:147-158 | the text a feed writes only extends the current value |
| JsonWriterProps.FeedText | src/core/parse/core/json_writer.hpp:144-161 | feeding while writing and not skipping keeps the key, sets the value to the old text extended as a session continues or as a space-separated word after leading spaces are dropped, and changes nothing else |
| JsonWriterProps.FeedStartsSession | src/core/parse/core/json_writer.hpp:149-157 | after a feed a session is open exactly when one was open or the string had a character other than ' ' |
| JsonWriterProps.TrimWrittenValue | src/core/parse/core/json_writer.hpp:163-175 | trim_written leaves a prefix of the value with no trailing whitespace, removes only whitespace, erases the key when the value ends empty and keeps other keys |
| JsonWriterProps.TrimWrittenIdempotent | src/core/parse/core/json_writer.hpp:163-175 | trim_written twice is the same as once |
| JsonWriterProps.StoreIntoMoves | src/core/parse/core/json_writer.hpp:177-185 | a successful store appends the trimmed active value to the array at the parent key, changes no other key of the destination and resets the active part |
| JsonWriterProps.StoreIntoRefused | src/core/parse/core/json_writer.hpp:177-185 | a refused store leaves the writer alone and only inserts the parent key into the destination |
| JsonWriterProps.StoreKeepsListed | src/core/parse/core/json_writer.hpp:87 | storing into stored_ keeps every stored slot null or an array, and moves the active value exactly when it is non-empty after unstowing |
| JsonWriterProps.UnstowNothing | src/core/parse/core/json_writer.hpp:197-204 | with nothing stowed, unstow only clears the unstow key |
| JsonWriterProps.StowForEmpty | src/core/parse/core/json_writer.hpp:187-195 | with nothing stowed, stow_for moves the active value to stowed_, records the key and resets the active part |
| JsonWriterProps.StowThenUnstow | src/core/parse/core/json_writer.hpp:187-204 | what is written after stow_for(k) comes back, trimmed, as the last element of the array at k in the restored value, whose other keys are unchanged |
| JsonWriterProps.StowThenUnstowNothing | src/core/parse/core/json_writer.hpp:187-204 | when nothing was written after stow_for(k), unstowing restores the value with k inserted and keeps the current key and flags |
| JsonWriterProps.StowNothingUnnested | src/core/parse/core/json_writer.hpp:187-204 | stowing an empty value leaves nothing to unstow later |
| JsonWriterProps.WrittenMaterializes | src/core/parse/core/json_writer.hpp:93 | asking written() inserts "" under a handled key that was null and changes nothing but the active value |
| JsonWriterProps.SetKeyTrimsFirst | src/core/parse/core/json_writer.hpp:84-85 | set_key unstows first; then the value under the old key loses its trailing whitespace and the key is erased exactly when nothing is left, every other key keeps its value, the stored and stowed values and the writing and skip flags stay, and the key becomes k with the just-written flag down |
| JsonWriterProps.ResetClears | src/core/parse/core/json_writer.hpp:215-219 | reset empties stored_ and the active value, clears the key and flags and leaves the stowed value alone |
| JsonWriter.JSONWriter.constructor | src/core/parse/core/json_writer.hpp:101-108 | a new writer has null values, no keys and every flag down |
| JsonWriter.JSONWriter.ValPtr | src/core/parse/core/json_writer.hpp:114-120 | val_() returns the handled text and leaves a string under the key |
| JsonWriter.JSONWriter.Written | src/core/parse/core/json_writer.hpp:93 | the object answers and changes as JsonWriterSpec.Written describes |
| JsonWriter.JSONWriter.JustWritten | src/core/parse/core/json_writer.hpp:94 | the object answers and changes as JsonWriterSpec.JustWritten describes |
| JsonWriter.JSONWriter.Write | src/core/parse/core/json_writer.hpp:123-142 | the object's new state is JsonWriterSpec.Write of the old |
| JsonWriter.JSONWriter.Feed | src/core/parse/core/json_writer.hpp:144-161 | the object's new state is JsonWriterSpec.Feed of the old |
| JsonWriter.JSONWriter.TrimWritten | src/core/parse/core/json_writer.hpp:163-175 | the loop popping trailing whitespace leaves the state JsonWriterSpec.TrimWritten describes |
| JsonWriter.JSONWriter.ResetActive | src/core/parse/core/json_writer.hpp:206-213 | the object's new state is JsonWriterSpec.ResetActive of the old |
| JsonWriter.JSONWriter.Reset | src/core/parse/core/json_writer.hpp:215-219 | the object's new state is JsonWriterSpec.Reset of the old |
| JsonWriter.JSONWriter.StoreInto | src/core/parse/core/json_writer.hpp:177-185 | the object and the returned destination are what JsonWriterSpec.StoreInto describes |
| JsonWriter.JSONWriter.Unstow | src/core/parse/core/json_writer.hpp:197-204 | the object's new state is JsonWriterSpec.Unstow of the old |
| JsonWriter.JSONWriter.StowFor | src/core/parse/core/json_writer.hpp:187-195 | the object's new state is JsonWriterSpec.StowFor of the old |
| JsonWriter.JSONWriter.StartWriting | src/core/parse/core/json_writer.hpp:81 | writing is switched on and the session closed, nothing else changes |
| JsonWriter.JSONWriter.StopWriting | src/core/parse/core/json_writer.hpp:82 | writing is switched off and the handled value trimmed |
| JsonWriter.JSONWriter.SkipWrite | src/core/parse/core/json_writer.hpp:83 | the next fed string is marked to be skipped, nothing else changes |
| JsonWriter.JSONWriter.SetKeyActive | src/core/parse/core/json_writer.hpp:84 | the old value is trimmed, then the key is set and the session closed |
| JsonWriter.JSONWriter.SetKey | src/core/parse/core/json_writer.hpp:85 | the writer unstows, then sets the key as set_key_active does |
| JsonWriter.JSONWriter.ClearKey | src/core/parse/core/json_writer.hpp:86 | clear_key is set_key with the empty key |
| JsonWriter.JSONWriter.Store | src/core/parse/core/json_writer.hpp:87 | the writer unstows, then stores the active value into stored_ |
| FeedTokens.Spaces | src/core/json_writer.hpp:81 | a string of exactly n spaces |
| FeedTokens.SpacedText | src/core/json_writer.hpp:76-85 | feeding extends the value and ends it with the token's text; an empty value becomes exactly the token's text |
| OldJsonWriterSpec.Touched | src/core/json_writer.hpp:44-50 | calling val_() only materialises a string under the handled key, when one is set |
| OldJsonWriterSpec.Written | src/core/json_writer.hpp:33 | written() is true exactly when a key is set and its value is non-empty |
| OldJsonWriterSpec.Write | src/core/json_writer.hpp:54-69 | with a key set the value grows by exactly the string; with no key nothing changes |
| OldJsonWriterSpec.FedValue | src/core/json_writer.hpp:75-86 | a fed token while writing leaves a key set and the value reachable |
| OldJsonWriterSpec.Feed | src/core/json_writer.hpp:71-89 | feeding does nothing unless writing with a key set; then a pending skip is used up without writing, and every feed clears the skip |
| OldJsonWriterSpec.TrimWritten | src/core/json_writer.hpp:91-102 | trimming changes only the active value |
| OldJsonWriterSpec.Store | src/core/json_writer.hpp:104-112 | storing keeps stored_ keyed with every slot null or an array |
| OldJsonWriterSpec.Reset | src/core/json_writer.hpp:114-123 | reset keeps the state well formed |
| OldJsonWriterSpec.FeedText | src/core/json_writer.hpp:71-89 | feeding while writing and not skipping appends the token's text, separated from a non-empty value by one space when the session opens and by the token's leading whitespace as spaces within it, and marks something fed |
| OldJsonWriterSpec.TrimWrittenValue | src/core/json_writer.hpp:91-102 | trim_written leaves a prefix of the value with no trailing whitespace, removes only whitespace and erases the key when the value ends empty |
| OldJsonWriterSpec.StoreAppends | src/core/json_writer.hpp:104-112 | storing a non-null active value appends it, trimmed, to the array at the parent key, leaves active_ null and keeps the key and flags |
| OldJsonWriterSpec.ResetThenStoreAppendsEmpty | src/core/json_writer.hpp:104-123 | after reset an object active value is cleared to an empty object, not null, so the next store appends an empty object |
| OldJsonWriter.JSONWriter.constructor | src/core/json_writer.hpp:38-42 | a new writer has null values, no key and every flag down |
| OldJsonWriter.JSONWriter.ValPtr | src/core/json_writer.hpp:44-50 | val_() returns the handled text and leaves a string under the key |
| OldJsonWriter.JSONWriter.Written | src/core/json_writer.hpp:33 | the object answers and changes as OldJsonWriterSpec.Written describes |
| OldJsonWriter.JSONWriter.Write | src/core/json_writer.hpp:54-69 | the object's new state is OldJsonWriterSpec.Write of the old |
| OldJsonWriter.JSONWriter.Feed | src/core/json_writer.hpp:71-89 | the object's new state is OldJsonWriterSpec.Feed of the old |
| OldJsonWriter.JSONWriter.TrimWritten | src/core/json_writer.hpp:91-102 | the loop popping trailing whitespace leaves the state OldJsonWriterSpec.TrimWritten describes |
| OldJsonWriter.JSONWriter.Store | src/core/json_writer.hpp:104-112 | the object's new state is OldJsonWriterSpec.Store of the old |
| OldJsonWriter.JSONWriter.Reset | src/core/json_writer.hpp:114-123 | the object's new state is OldJsonWriterSpec.Reset of the old |
| OldJsonWriter.JSONWriter.StartWriting | src/core/json_writer.hpp:25 | writing is switched on and the session marked open, nothing else changes |
| OldJsonWriter.JSONWriter.StopWriting | src/core/json_writer.hpp:26 | writing is switched off and nothing is trimmed |
| OldJsonWriter.JSONWriter.SkipWrite | src/core/json_writer.hpp:27 | the next fed token is marked to be skipped |
| OldJsonWriter.JSONWriter.SetKey | src/core/json_writer.hpp:28 | the old value is trimmed, then the key is set and the session marked open |
| OldJsonWriter.JSONWriter.ClearKey | src/core/json_writer.hpp:29 | clear_key is set_key with the empty key |
| ParseFeederSpec.Touched | src/core/parse_feeder.hpp:40-46 | calling val_() only materialises a string under the current key, when one is set |
| ParseFeederSpec.Fed | src/core/parse_feeder.hpp:30 | fed() is true exactly when a key is set and its value is non-empty |
| ParseFeederSpec.ForceFeed | src/core/parse_feeder.hpp:50-63 | with a key set the value grows by exactly the string; with no key nothing changes |
| ParseFeederSpec.FedValue | src/core/parse_feeder.hpp:67-78 | a token fed while open leaves a key set and the value reachable |
| ParseFeederSpec.Feed | src/core/parse_feeder.hpp:65-81 | every feed clears the skip and keeps the state well formed |
| ParseFeederSpec.Trim | src/core/parse_feeder.hpp:83-93 | trimming changes only the value being parsed |
| ParseFeederSpec.Reset | src/core/parse_feeder.hpp:95-103 | reset keeps the state well formed |
| ParseFeederSpec.Parsed | src/core/parse_feeder.hpp:105-113 | parsed() keeps the state well formed |
| ParseFeederSpec.FeedOpen | src/core/parse_feeder.hpp:65-81 | feeding while open appends the token's text, separated from a non-empty value by one space when fresh and by its leading whitespace as spaces otherwise, marks something written, and returns whether the value is non-empty |
| ParseFeederSpec.FeedClosed | src/core/parse_feeder.hpp:65-81 | feeding while not open writes nothing, clears the skip and returns fed() |
| ParseFeederSpec.TrimValue | src/core/parse_feeder.hpp:83-93 | trim leaves a prefix of the value with no trailing whitespace, removes only whitespace and erases the key when the value ends empty |
| ParseFeederSpec.ParsedAppends | src/core/parse_feeder.hpp:105-113 | a non-null value being parsed is trimmed and appended to the "functions" array, after which nothing is being parsed and the key and flags stay |
| ParseFeederSpec.ParsedNothing | src/core/parse_feeder.hpp:105-113 | with nothing being parsed and no key, parsed() changes nothing |
| ParseFeederSpec.ParsedKeepsEmptyObject | src/core/parse_feeder.hpp:105-113 | with a key whose value is only whitespace, trim leaves an empty object rather than null, so parsed() appends an empty object to "functions" |
| ParseFeeder.ParseFeeder.constructor | src/core/parse_feeder.hpp:34-38 | a new feeder has null values, no key and every flag down |
| ParseFeeder.ParseFeeder.ValPtr | src/core/parse_feeder.hpp:40-46 | val_() returns the current text and leaves a string under the key |
| ParseFeeder.ParseFeeder.Fed | src/core/parse_feeder.hpp:30 | the object answers and changes as ParseFeederSpec.Fed describes |
| ParseFeeder.ParseFeeder.ForceFeed | src/core/parse_feeder.hpp:50-63 | the object's new state is ParseFeederSpec.ForceFeed of the old |
| ParseFeeder.ParseFeeder.Feed | src/core/parse_feeder.hpp:65-81 | the object answers and changes as ParseFeederSpec.Feed describes |
| ParseFeeder.ParseFeeder.Trim | src/core/parse_feeder.hpp:83-93 | the loop popping trailing whitespace leaves the state ParseFeederSpec.Trim describes |
| ParseFeeder.ParseFeeder.Reset | src/core/parse_feeder.hpp:95-103 | the object's new state is ParseFeederSpec.Reset of the old |
| ParseFeeder.ParseFeeder.Parsed | src/core/parse_feeder.hpp:105-113 | the object's new state is ParseFeederSpec.Parsed of the old, and the returned value is the new parsed_ |
| ParseFeeder.ParseFeeder.Go | src/core/parse_feeder.hpp:23 | writing is switched on and the feeder made fresh, nothing else changes |
| ParseFeeder.ParseFeeder.Stop | src/core/parse_feeder.hpp:24 | writing is switched off, nothing else changes |
| ParseFeeder.ParseFeeder.Skip | src/core/parse_feeder.hpp:25 | the next token is marked to be skipped |
| ParseFeeder.ParseFeeder.SetAt | src/core/parse_feeder.hpp:26 | the old value is trimmed, then the key is set and the feeder made fresh |
| ParseSymbol.Symbol.constructor | src/parse/core/symbol.hpp:37-40 | a new symbol has N + 1 cells, holding whatever they were initialised with, and nothing pushed |
| ParseSymbol.Symbol.Get | src/parse/core/symbol.hpp:26-29 | get() reads the cells from the first up to the first terminator; when the cells hold exactly what was pushed it is the pushed word |
| ParseSymbol.Symbol.PushBack | src/parse/core/symbol.hpp:17-23 | with room left, the character goes in the next cell, the one after it is terminated and the end moves by one, so the pushed word grows by that character |
| ParseSymbol.Symbol.Clear | src/parse/core/symbol.hpp:32-35 | as written, clear() only resets the end: nothing is pushed any more, yet get() reads the same word as before |
| ParseSymbol.Symbol.ClearCorrected | src/parse/core/symbol.hpp:32-35 | the corrected clear also terminates the first cell, so get() reads "" and only that cell changes |
| ParseSymbol.CStrInside | src/parse/core/symbol.hpp:26-29 | reading a C string from cells that contain a terminator stops inside them |
| ParseSymbol.Blank | src/parse/core/symbol.hpp:37-40 | a ten-character symbol with zeroed cells holds nothing and reads "" |
| ParseSymbol.PushedReadBack | src/parse/core/symbol.hpp:17-29 | pushing any word of at most N non-NUL characters and calling get() returns exactly that word |
| ParseSymbol.ClearKeepsWord | src/parse/core/symbol.hpp:32-35 | as written, pushing "abc" and clearing leaves get() reading "abc" |
| ParseSymbol.ClearCorrectedEmpties | src/parse/core/symbol.hpp:32-35 | with the corrected clear, pushing "abc" and clearing leaves get() reading "" |
| ReadRoutine.Cache.constructor | src/parse/core/routine.hpp:27-28 | a cache holds the parser state and the remembered symbol |
| ReadRoutine.AfterSlash | src/parse/core/routine.hpp:42-52 | after a '/', a second '/' starts a line comment, '*' a block comment, each handing over to IGNORE_WS; any other character keeps the state and returns to READ |
| ReadRoutine.FirstSlash | src/parse/core/routine.hpp:78-89 | the position of the first '/' at or after the cursor, or the end of the chunk |
| ReadRoutine.SlashFirstIn | src/parse/core/routine.hpp:78-89 | in a chunk whose first '/' comes after a slash-free head, the scan stops right after the head |
| ReadRoutine.ProcessSlash | src/parse/core/routine.hpp:34-58 | on an empty range nothing changes; otherwise one character is consumed, it decides the next routine and state as AfterSlash says, and the symbol is cleared so that it reads "" |
| ReadRoutine.ProcessSlashAsWritten | src/parse/core/routine.hpp:34-58 | as written, one character is consumed and decides as AfterSlash says, but the symbol goes on reading what it read before |
| ReadRoutine.Read | src/parse/core/routine.hpp:66-92 | a "/" pending from the previous chunk is settled by the first character; otherwise the chunk is scanned to its first '/', which is pushed and settled by the next character or kept for the next chunk; a chunk with no '/' is read to the end with the state unchanged |
| ReadRoutine.SlashPending | src/parse/core/routine.hpp:64-65 | a cache in the state DEFAULT whose symbol reads "/" |
| ReadRoutine.LineCommentAsWritten | src/parse/core/routine.hpp:34-58 | as written, the chunk "/ comment" after a pending "/" starts a line comment but leaves the symbol reading "/" |
| ReadRoutine.LineCommentCorrected | src/parse/core/routine.hpp:34-58 | with the corrected clear, the same chunk starts a line comment and leaves the symbol reading "" |
| ReadRoutine.ReadIncludeLine | src/parse/core/routine.hpp:78-89 | on "#include <nlohmann/json.hpp> // json" READ stops at the '/' inside the header path, consumes the 'j' after it and returns READ at position 20 with the symbol reading "" |
| ParseWorkerCore.NewHandler | src/core/parse/core/parse_worker.hpp:77-93 | a new handler waits for the given tokens with the given children, counts nothing, has tolerance 1, no timeout, no working child and is not negated |
| ParseWorkerCore.NewWorker | src/core/parse/core/parse_worker.hpp:129-131 | a new worker is unlimited, starts working at the second handler, does not block, and stands at the first handler with no pass done |
| ParseWorkerCore.WorkersOnly | src/core/parse/core/parse_worker.hpp:91-93 | a worker built from children alone has one handler waiting for END_OF_FILE with those children |
| ParseWorkerCore.Neg | src/core/parse/core/parse_worker.hpp:97 | `neg()` sets the negation flag and leaves every other field of the handler as it was |
| ParseWorkerCore.SetTolerance | src/core/parse/core/parse_worker.hpp:98 | `tolerance(t)` sets the match tolerance to t, so the handler is done exactly when its match counter reaches t; every other field stays the same |
| ParseWorkerCore.SetTimeout | src/core/parse/core/parse_worker.hpp:99 | `timeout(t)` sets the no-match timeout to t, so the handler times out exactly when t is not INF_ITERS and its no-match counter reaches t; every other field stays the same |
| ParseWorkerCore.InjectToken | src/core/parse/core/parse_worker.hpp:106-107 | `inject_token(t)` adds t to the token set, so a handler that is not negated then matches t; every other field stays the same |
| ParseWorkerCore.Block | src/core/parse/core/parse_worker.hpp:141 | `block()` sets the blocker flag and leaves every other field of the worker as it was |
| ParseWorkerCore.Limit | src/core/parse/core/parse_worker.hpp:142 | `limit(n)` sets the pass limit to n, so the worker is finished exactly when n is not INF_ITERS and its pass count has reached n; every other field stays the same |
| ParseWorkerCore.WorkingAt | src/core/parse/core/parse_worker.hpp:143 | `working_at(i)` sets the working position to i, so the worker is working exactly when its position is at least i and it is not finished; every other field stays the same |
| ParseWorkerCore.Stall | src/core/parse/core/parse_worker.hpp:148 | `stall()` sets the stalling flag and leaves every other field of the worker as it was |
| ParseWorkerCore.Match | src/core/parse/core/parse_worker.hpp:214-223 | a match increments only the match counter, a miss only the no-match counter |
| ParseWorkerCore.HandlerAt | src/core/parse/core/parse_worker.hpp:144 | handler positions wrap around the number of handlers |
| ParseWorkerCore.Rewind | src/core/parse/core/parse_worker.hpp:139 | rewinding goes back to the first handler, keeps the handler count and changes nothing but the handlers and the position |
| ParseWorkerCore.Reset | src/core/parse/core/parse_worker.hpp:140 | reset rewinds and clears the pass count |
| ParseWorkerCore.ResetHandler | src/core/parse/core/parse_worker.hpp:260-268 | a reset handler has both counters at 0, the same number of children, and nothing else changed but its children |
| ParseWorkerCore.RewindAll | src/core/parse/core/parse_worker.hpp:238-240 | every child is rewound, in place |
| ParseWorkerCore.Restart | src/core/parse/core/parse_worker.hpp:164 | a restart counts one more pass and rewinds |
| ParseWorkerCore.Advance | src/core/parse/core/parse_worker.hpp:191-199 | completing a handler keeps the handler count |
| ParseWorkerCore.Proc | src/core/parse/core/parse_worker.hpp:176-208 | proc never changes the handler count, the limit, the working_at position or the blocker flag |
| ParseWorkerCore.ProcWorkers | src/core/parse/core/parse_worker.hpp:231-255 | proc_workers_ changes only the children and the working child, and keeps the child count |
| ParseWorkerCore.ScanFrom | src/core/parse/core/parse_worker.hpp:244-252 | the scan over the children changes only the children and the working child |
| ParseWorkerCore.RunResetHandler | src/core/parse/core/parse_worker.hpp:260-268 | the loop resetting the children leaves the handler ResetHandler describes |
| ParseWorkerCore.RunProc | src/core/parse/core/parse_worker.hpp:176-208 | the method answers and leaves the worker as Proc describes |
| ParseWorkerCore.RunProcWorkers | src/core/parse/core/parse_worker.hpp:231-255 | the method answers and leaves the handler as ProcWorkers describes |
| ParseWorkerCore.RunRewindAll | src/core/parse/core/parse_worker.hpp:238-240 | the loop rewinding the children leaves what RewindAll describes |
| ParseWorkerCore.RunScan | src/core/parse/core/parse_worker.hpp:245-251 | the loop over the children ends where ScanFrom from the first child does |
| ParseWorkerCoreProps.NegFlips | src/core/parse/core/parse_worker.hpp:214-223 | a plain handler matches exactly its tokens, and negating it matches exactly the others |
| ParseWorkerCoreProps.MatchesReachTolerance | src/core/parse/core/parse_worker.hpp:104 | a run of matches adds its length to the match counter, and the handler is done exactly when that reaches the tolerance |
| ParseWorkerCoreProps.MissesReachTimeout | src/core/parse/core/parse_worker.hpp:105 | a run of misses adds its length to the no-match counter, and the handler times out exactly when a timeout is set and the counter reaches it |
| ParseWorkerCoreProps.HandlerAtWraps | src/core/parse/core/parse_worker.hpp:144 | handler_at is periodic in the handler count and is the plain index below it |
| ParseWorkerCoreProps.ResetHandlerResetsChildren | src/core/parse/core/parse_worker.hpp:260-268 | after reset_ the counters are 0, the handler is not done unless its tolerance is 0, and every child stands at its first handler with no pass done |
| ParseWorkerCoreProps.RewindResetsCurrent | src/core/parse/core/parse_worker.hpp:139 | rewind resets only the current handler, keeps the pass count and goes back to the first handler, where the worker is not working unless working_at is 0 |
| ParseWorkerCoreProps.RestartFinishes | src/core/parse/core/parse_worker.hpp:164-166 | a restart finishes the worker exactly when a limit is set and the new pass count reaches it |
| ParseWorkerCoreProps.ProcFinished | src/core/parse/core/parse_worker.hpp:178-180 | a finished worker answers false and does not change |
| ParseWorkerCoreProps.AdvanceSteps | src/core/parse/core/parse_worker.hpp:191-199 | completing a handler that is not the last resets it and moves to the next |
| ParseWorkerCoreProps.AdvanceWraps | src/core/parse/core/parse_worker.hpp:196-198 | completing the last handler wraps to the first and counts a pass |
| ParseWorkerCoreProps.ProcInRange | src/core/parse/core/parse_worker.hpp:176-208 | proc keeps the position within the handlers and adds at most one pass |
| ParseWorkerCoreProps.ProcBlocked | src/core/parse/core/parse_worker.hpp:182-184 | when the children block, proc answers true and only the current handler's children change |
| ParseWorkerCoreProps.ProcCompletes | src/core/parse/core/parse_worker.hpp:186-202 | a match that completes the handler returns the blocker flag, clears stalling, and moves to the next handler with the current one reset, or wraps and counts a pass after the last |
| ParseWorkerCoreProps.ProcStalled | src/core/parse/core/parse_worker.hpp:191-200 | a match while stalling keeps the worker at its handler without resetting it and clears the stall |
| ParseWorkerCoreProps.StallLastsOneMatch | src/core/parse/core/parse_worker.hpp:148 | stall() holds the worker at its handler for exactly one match, after which it no longer stalls |
| ParseWorkerCoreProps.ProcMisses | src/core/parse/core/parse_worker.hpp:203-207 | a miss answers false and restarts the worker exactly when the handler times out |
| ParseWorkerCoreProps.WorkingChildAlone | src/core/parse/core/parse_worker.hpp:235-243 | while a child is working and stays working, only that child processes the token |
| ParseWorkerCoreProps.WorkingChildStops | src/core/parse/core/parse_worker.hpp:235-252 | when the working child stops working, every child rewinds and then the children are scanned from the first |
| ParseWorkerCoreProps.NoWorkingChild | src/core/parse/core/parse_worker.hpp:244-252 | with no working child, the children are scanned from the first |
| ParseWorkerCoreProps.FirstWorking | src/core/parse/core/parse_worker.hpp:245-251 | the first child from a position on that is working after processing the token, or the child count |
| ParseWorkerCoreProps.Ran | src/core/parse/core/parse_worker.hpp:245-251 | the children the scan processes end within the list |
| ParseWorkerCoreProps.ScanPoints | src/core/parse/core/parse_worker.hpp:245-251 | after the scan the working child is the first child that started working, if any |
| ParseWorkerCoreProps.ScanRuns | src/core/parse/core/parse_worker.hpp:245-251 | the scan processes exactly the children from its start to the first that starts working, and leaves the others alone |
| ParseWorkerCoreProps.ScanBlocks | src/core/parse/core/parse_worker.hpp:245-251 | the scan blocks exactly when it started blocked or some processed child blocked |
| ParseWorkerCoreProps.FirstWorkingUnchanged | src/core/parse/core/parse_worker.hpp:245-251 | replacing a child that did not start working does not move the first working child after it |
| ParseWorkerCoreProps.FirstWorkingFrom | src/core/parse/core/parse_worker.hpp:245-251 | replacing a child before the scan position does not change the first working child found from it |
| ParseWorkerCoreProps.AnyBlocksUpdate | src/core/parse/core/parse_worker.hpp:245-251 | whether a range of processed children blocks does not depend on a child before it, and splits on its first child |
| ParseWorkerOld.NewHandler | src/core/parse_worker.hpp:66-72 | a new handler waits for the given tokens with the given children, has no working child and is not negated |
| ParseWorkerOld.NewWorker | src/core/parse_worker.hpp:99-101 | a new worker is unlimited, does not block and stands at the first handler with no pass done |
| ParseWorkerOld.WorkersOnly | src/core/parse_worker.hpp:74-76 | a worker built from children alone has one handler waiting for END_OF_FILE with those children |
| ParseWorkerOld.Neg | src/core/parse_worker.hpp:80 | `neg()` sets the negation flag and leaves the tokens, children and working child as they were |
| ParseWorkerOld.Block | src/core/parse_worker.hpp:111 | `block()` sets the blocker flag and leaves every other field of the worker as it was |
| ParseWorkerOld.Limit | src/core/parse_worker.hpp:112 | `limit(n)` sets the pass limit to n, so the worker is indefinite exactly when n is INF_ITERS; every other field stays the same |
| ParseWorkerOld.HandlerAt | src/core/parse_worker.hpp:128 | handler positions wrap around the number of handlers |
| ParseWorkerOld.Rewind | src/core/parse_worker.hpp:109 | rewinding goes back to the first handler and changes nothing but the handlers and the position |
| ParseWorkerOld.Reset | src/core/parse_worker.hpp:110 | reset rewinds and clears the pass count |
| ParseWorkerOld.ResetWorkers | src/core/parse_worker.hpp:206-212 | resetting a handler's children keeps their number and changes nothing else |
| ParseWorkerOld.RewindAll | src/core/parse_worker.hpp:183-185 | every child is rewound, in place |
| ParseWorkerOld.InjectPosition | src/core/parse_worker.hpp:113-114 | the handler inject_worker picks, computed with unsigned int and size_t wrap-around, is always a valid position |
| ParseWorkerOld.Advance | src/core/parse_worker.hpp:155-163 | a matched handler keeps the handler count |
| ParseWorkerOld.Proc | src/core/parse_worker.hpp:140-168 | proc never changes the handler count, the limit or the blocker flag |
| ParseWorkerOld.ProcWorkers | src/core/parse_worker.hpp:176-201 | proc_workers_ changes only the children and the working child, and keeps the child count |
| ParseWorkerOld.ScanFrom | src/core/parse_worker.hpp:189-198 | the scan over the children changes only the children and the working child |
| ParseWorkerOld.RunResetWorkers | src/core/parse_worker.hpp:206-212 | the loop resetting the children leaves what ResetWorkers describes |
| ParseWorkerOld.RunProc | src/core/parse_worker.hpp:140-168 | the method answers and leaves the worker as Proc describes |
| ParseWorkerOld.RunProcWorkers | src/core/parse_worker.hpp:176-201 | the method answers and leaves the handler as ProcWorkers describes |
| ParseWorkerOld.RunRewindAll | src/core/parse_worker.hpp:183-185 | the loop rewinding the children leaves what RewindAll describes |
| ParseWorkerOld.RunScan | src/core/parse_worker.hpp:191-197 | the loop over the children ends where ScanFrom from the first child does |
| ParseWorkerOldProps.NegFlips | src/core/parse_worker.hpp:218-223 | a plain handler matches exactly its tokens, and negating it matches exactly the others |
| ParseWorkerOldProps.ProcDone | src/core/parse_worker.hpp:142-144 | a done worker answers false and does not change |
| ParseWorkerOldProps.ProcInRange | src/core/parse_worker.hpp:140-168 | proc keeps the position at most the handler count and adds at most one pass |
| ParseWorkerOldProps.IndefiniteNeverDone | src/core/parse_worker.hpp:159-162 | without a limit a worker is never done and its pass count never grows |
| ParseWorkerOldProps.AdvanceSteps | src/core/parse_worker.hpp:155-163 | a matched handler other than the last moves to the next; after the last the worker rewinds when unlimited without counting, rewinds and counts while under the limit, and otherwise stays done past the last handler |
| ParseWorkerOldProps.ProcMatched | src/core/parse_worker.hpp:150-165 | a match returns the blocker flag; after the last handler the worker wraps exactly when unlimited or under the limit, is done exactly when the limit is reached, and counts the pass only when limited |
| ParseWorkerOldProps.LimitReached | src/core/parse_worker.hpp:159-163 | the match that reaches the limit leaves the worker done, and it ignores every later token |
| ParseWorkerOldProps.ProcUnmatched | src/core/parse_worker.hpp:146-167 | when the children block or the token does not match, only the current handler's children change and the answer is whether they blocked |
| ParseWorkerOldProps.RewoundNotWorking | src/core/parse_worker.hpp:109-110 | a rewound or reset worker is not working |
| ParseWorkerOld.InjectWorker | src/core/parse_worker.hpp:113-114 | `inject_worker` keeps the handler count, the limit, the blocker flag, the position and the pass count; the handler at the injection position gets the worker appended to its children, and every other handler's children, tokens, negation and working child stay the same |
| ParseWorkerOldProps.InjectAhead | src/core/parse_worker.hpp:113-114 | inject_worker appends the worker to the children of the handler offset + 1 ahead, wrapping around, and changes nothing else |
| ParseWorkerOldProps.InjectWraps | src/core/parse_worker.hpp:113 | when handler_i_ + 1 overflows unsigned int the injection position is the offset alone, wrapped around the handler count |
| ParseWorkerOldProps.WorkingChildAlone | src/core/parse_worker.hpp:180-188 | while a child is working and stays working, only that child processes the token |
| ParseWorkerOldProps.WorkingChildStops | src/core/parse_worker.hpp:180-198 | when the working child stops working, every child rewinds and then the children are scanned from the first |
| ParseWorkerOldProps.ScanStopsAtWorking | src/core/parse_worker.hpp:189-198 | the scan leaves the children before its start alone and, when one starts working, it is the working child and none after it is processed |

## Left out

- File and stream I/O: the `FILE*` reader of src/io/file_reader.hpp is a sequence of characters with one character of push-back. End of input is `None`; `EofByte` (0xFF) is the byte that `EOF` becomes when it is appended to the text as a `char`.
- `strerror` and `errno`: C library state, passed in as parameters of the exception constructors.
- `std::isspace` on a negative `char` is undefined; the model uses the C locale's whitespace set " \t\n\v\f\r".
- `isalpha` in `tokenize_tag_name` (src/core/lex/legacy/lexer_routines.hpp:122-123) is undefined on a negative `char`. `CStrings.IsAlpha` is the C locale's letter set, so such a character is no letter and ends the tag name.
- `const char*` arguments and return values are strings; `c_str()` is `CStr`, the part before the first NUL.
- LegacyRoutines.Trim: the leading-whitespace count is a `nat`, not a `uint32_t`, so lines of 2^32 characters or more are not modelled.
- ParseSymbol.Symbol.constructor: `Symbol<N>` leaves its array uninitialised. The model takes the first contents as an argument, and `Get` requires a NUL somewhere in the array.
- LexerSpec and Lexer.Lexer: the lexer sees the trie through the path consumed from its root. `RuntimeTrie` and `LexTrie` are proved separately to answer the lexer's questions for that path; the lexer does not hold a trie object.
- src/core/lexer/lexer.hpp, src/core/lex/legacy_2/trie.hpp and src/core/trie.hpp are not part of this model. The Runtime, Legacy2 and Earliest generations use the behaviour their .cpp/.hpp callers rely on.
- `TokenHandler::token()` and the match routines of both ParseWorker generations: a match runs no routine, because the routines are user callbacks.
- ParseWorkerCore.Proc and ParseWorkerOld.Proc work on values with a depth bound `d`. With `d` at least the nesting depth they agree with the source. `Handler` and `Worker` are datatypes rather than classes, because a worker owns handlers that own further workers to any depth. Not modelled:
  - the update in place of handlers and workers: each setter and step returns a new value, and the `Run*` methods loop over values;
  - pointer aliasing between workers;
  - the reallocation of a handler's worker vector in `inject_worker`, which can invalidate `working_`.
- ParseWorkerCore.Proc: a worker with no handlers divides by zero in the source; the model returns it unchanged.
- Counters of type `size_t` and `unsigned int` are unbounded, except in `ParseWorkerOld.InjectPosition`, which models both wrap-arounds.
- JSON writers:
  - Errors and undefined behaviour are preconditions (`ValOk`, `StoreIntoOk`, `UnstowOk`, `SetKeyOk`, `StoreOk`). These cover nlohmann::json's `type_error` on indexing a non-object, pushing to a non-array, and `get_ref` on a non-string.
  - Object key order is not modelled: an object is a list of distinct keys with values.
- Type-level plumbing with nothing to prove:
  - mapbox::eternal;
  - the `LexTrie` stub in src/core/utils/trie.hpp;
  - `make_pair_array` and `make_trie` of string_array_utils.hpp, which only pack their arguments into an array;
  - `sort_idx_t`, which is defined in no file of the model.
  - `for_each_t` of array_constant.hpp is `Lists.Transform`.
- Outside the core:
  - command-line drivers;
  - the boost::regex parsers;
  - the unimplemented chunk/doc parser stubs;
  - the worker compositions;
  - src/io/string_reader.hpp (behaviour depends on moved-from state);
  - the draft src/core/lexer_routines.hpp;
  - src/core/parse_worker.cpp;
  - the Node.js wrapper;
  - benchmarks.
- Unit tests that disagree with the code. The model follows the code:
  - test/core/utils/valuelist_unittest.cpp:183-189 expects `zip` of two lists of size 2 to have size 0. In src/core/utils/valuelist.hpp:229-258 the result has one pair per position, and `Lists.Zip` follows that (`Lists.UnzipZip`).
  - test/parse/core/symbol_unittest.cpp:13-25 uses a `Symbol` constructor that does not exist.
  - test/parse/core/symbol_unittest.cpp:65-74 expects `clear` to empty the string (see Findings).
  - test/parse/core/read_routine_unittest.cpp:20-36 (`slash_single_line`, `slash_block`) expect `begin` to be left at the start of the text (test/parse/core/routine_fixture.hpp:38). In src/parse/core/routine.hpp:55 `process_slash` consumes the character with `++begin`, and `ReadRoutine.ProcessSlash` follows the code.
  - test/parse/core/read_routine_unittest.cpp:38-45 (`slash_default`) expects the same unadvanced `begin` and a symbol reading "". The code advances `begin`, and with the as-written `clear` the symbol still reads "/" (`ReadRoutine.ProcessSlashAsWritten`).
  - test/parse/core/read_routine_unittest.cpp:81-131 assume READ keeps scanning after `process_slash`. In the code it returns. `ReadRoutine.ReadIncludeLine` shows READ stopping at the '/' of "nlohmann/json" at position 20.
  - test/core/lexer_routines_unittest.cpp:372-452 targets an older `tokenize_tag_name(reader, status)` with a separate "@" token.
  - test/core/lexer_unittest.cpp targets a different lexer API.
- ReadRoutine.Read uses the corrected `Symbol::clear` (`ClearCorrected`). The as-written clear is kept in `ReadRoutine.ProcessSlashAsWritten`.
- Behaviour the model keeps as written, though it may surprise:
  - In the newer ParseWorker, restarting on a timeout counts as passing the token on (no block).
  - In the older ParseWorker, a worker with no limit never counts iterations (`ParseWorkerOldProps.IndefiniteNeverDone`).
  - `just_written()` of the older JSONWriter returns the negation of its flag.
  - After `reset()`, the older writer's `store` appends an empty object (`OldJsonWriterSpec.ResetThenStoreAppendsEmpty`).
  - `ParseFeeder::parsed()` appends `{}` when the value under the key is only whitespace (`ParseFeederSpec.ParsedKeepsEmptyObject`).

## Findings

| source | as written | input that shows it | evidently intended | confidence | as-written member | corrected member |
|---|---|---|---|---|---|---|
| src/core/lexer/lexer.cpp:51-58 | a failed transition away from the root appends the buffer and then the failing character to the text, so that character is never processed from the root | "ssdesc@@sdescf@sdesscf" lexes into one TEXT token | TEXT "ssdesc@", SDESC, TEXT "f@sdesscf", as test/core/lexer/lexer_unittest.cpp:324-346 expects and the current lexer gives | not executed | LexerExamples.RuntimeSdescRun, LexerExamples.RuntimeFailsSdescTest | LexerExamples.CurrentSdescRun, LexerExamples.CurrentLexesSdescTest |
| src/parse/core/symbol.hpp:32-35 | `clear()` only resets `end_`, so `get()` still reads the old word | push 'a', 'b', 'c', then clear: `get()` is "abc" | `get()` is "" after `clear()`, as test/parse/core/symbol_unittest.cpp:65-74 expects | not executed | ParseSymbol.Symbol.Clear, ParseSymbol.ClearKeepsWord, ReadRoutine.ProcessSlashAsWritten, ReadRoutine.LineCommentAsWritten | ParseSymbol.Symbol.ClearCorrected, ParseSymbol.ClearCorrectedEmpties, ReadRoutine.ProcessSlash, ReadRoutine.LineCommentCorrected |
| src/core/lex/legacy/lexer_routines.hpp:120-141 | a tag name is read with `isalpha`, so the tags "end_section" and "end_example" of src/core/tag_set.hpp:8-17 can never be read | "@end_section" gives TEXT "@end_section" | TAGNAME "end_section" | not executed | LegacyExamples.EndSectionAsWritten, LegacyRoutines.UnderscoreTagsUnreachable | LegacyExamples.EndSectionCorrected |
| src/core/lex/legacy/lexer_routines.cpp:39-66 | the character after "/*" is read before the scan for "*/" starts, so the "*" of an immediate "*/" is consumed and the comment does not close there | "/**/x;" gives only END_OF_FILE | TEXT "x", SEMICOLON, END_OF_FILE | not executed | LegacyExamples.EmptyCommentAsWritten | LegacyExamples.EmptyCommentCorrected |
| src/core/lex/legacy/lexer_routines.cpp:81-93 | a '/' at the end of the file appends the end-of-file value, read as a `char`, to the text | "a/" gives a TEXT token ending in the byte 0xFF | TEXT "a/", END_OF_FILE | not executed | LegacyExamples.SlashAtEndAsWritten | LegacyExamples.SlashAtEndCorrected |
