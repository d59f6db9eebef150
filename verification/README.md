# LiquidRegex match results, modelled in Dafny

LiquidRegex wraps PHP's `preg_*` functions. This project models the two
classes that hold a match's capture record and the flag constants they use.

- **The lazy matches view** (`Result\Matches\Result`) is the main one.
  - At construction it validates a flag word, then builds a producer from the capture record.
  - The producer yields an *indexed* phase, an *associative* phase, or both.
  - The indexed phase renumbers the entries 0, 1, 2, …. The associative phase renames numeric keys to `result_<key>`.
  - The view pulls pairs one at a time into an insertion-ordered memo buffer (`ensureIndex`).
  - It iterates over that buffer with a cursor (`current`, `key`, `next`, `rewind`, `valid`).
  - Every array-style read drains the producer first (`materialize`).
  - Every write is refused.
- **The eager match result** (`Match_\Result`) is the older class. It wraps one raw capture record.
  - `toArray` drops the integer keys when any key is a string.
  - `count` counts the raw record.
  - `offsetExists` has `isset` semantics.
  - Writes are refused.

The model is written in plain functional Dafny. Each PHP object becomes an
immutable datatype, and each mutating method becomes a function from state to
state. The modules are:

- `OrderedMap` is a PHP array as an insertion-ordered map. Assigning `$a[$k] = $v` (`Put`) overwrites an existing key where it stands, and appends a new key at the end. `FromSeq` is the array built by assigning a sequence of pairs in order.
- `MapConcat` covers concatenation of maps with disjoint keys.
- `Captures` holds keys (`I(int)` or `S(string)`), captured values, the key filter and PHP's integer-to-string conversion.
- `ResultTypes` and `MatchFlags` hold the flag bits and `validateFlags`.
- `Producer` models the generator. It is the whole sequence of pairs the generator yields for a record and a flag word.
- `MatchesView` is the lazy view. The state is:
  - the producer's full output `gen`;
  - how many pairs have been `pulled`;
  - the `buffer`, the cursor `pos`, and the `done` and `valid` flags.

  The invariant is that the buffer is always the map built from the first `pulled` pairs.
- `Traversal` models a PHP `foreach` over the view. That is `rewind`, then `key`, `current` and `next` while `valid` holds. It also covers what a second loop sees.
- `LegacyResult` is the eager `Match_\Result` class.

`is_numeric` on strings is a parameter `numeric: string -> bool`. Integers are always numeric.

### The buffer can overwrite, so a second loop can show other values

The class is meant to replay the buffer on a second loop with nothing ever
overwritten. The code does not do that. It stores each pulled pair with
`$this->buffer[$k] = $v` (src/Result/Matches/Result.php:147), so a key the
producer yields twice keeps its first position but takes its last value.

The producer does yield a key twice when both of these hold:

- the flags are non-strict and include the associative phase;
- the record has a group named `result_1` as well as group 1.

This model follows the code.

- A second loop always sees the same keys in the same order (`Traversal.SecondLoopReplays`).
- It sees the same pairs when the producer never repeats a key (`Traversal.SecondLoopSeesSamePairs`).
- `Traversal.ReplayCanDiffer` shows a record where the first loop sees `result_1 => "a"` and the second loop sees `result_1 => "b"`.
- A view counts fewer entries than the producer yields exactly when the producer repeats a key (`MatchesView.Count`).

## Model

| member | source | states |
|---|---|---|
| ResultTypes.FlagLayout | src/Result/ResultTypes.php:10-19 | INDEXED and ASSOCIATIVE are distinct single bits, and BOTH = 3 is their union. TYPE_MASK = BOTH. STRICT = 8 is a single bit outside TYPE_MASK. ALL_FLAGS = TYPE_MASK \| STRICT = 11 |
| MatchFlags.ValidateFlags | src/Result/Matches/Result.php:154-169 | A flag word passes exactly when it is INDEXED, ASSOCIATIVE or BOTH, optionally with STRICT on a single type bit. Each error holds exactly for its case: an unknown bit, no type bit, or STRICT with both type bits |
| Producer.IndexedFrom | src/Result/Matches/Result.php:189-196 | The skip/yield loop with its counter yields the values of the walked entries under consecutive keys from the counter's start. Under STRICT only integer-keyed entries are walked |
| Producer.IndexedPhase | src/Result/Matches/Result.php:189-196 | The indexed phase yields, in record order, the value of every entry (integer-keyed ones only under STRICT) under the keys 0, 1, 2, … |
| Producer.Renamed | src/Result/Matches/Result.php:202 | The associative key is always a string. A non-numeric string key is kept unchanged |
| Producer.AssociativePhase | src/Result/Matches/Result.php:198-204 | Under STRICT it yields exactly the entries with non-numeric string keys, unchanged and in order. Otherwise it yields every entry in order, with numeric keys renamed `result_<key>`. Every yielded key is a string |
| Producer.Produce | src/Result/Matches/Result.php:173-187 | The producer yields the indexed phase when its bit is set, followed by the associative phase when its bit is set |
| Producer.ProduceShapes | src/Result/Matches/Result.php:173-187 | INDEXED alone yields only the indexed phase, ASSOCIATIVE alone only the associative phase, and BOTH the indexed phase followed by the associative one |
| Producer.ProducedKeysDistinct | src/Result/Matches/Result.php:189-204 | The producer never repeats a key in indexed mode, strict or not. It never repeats one in strict associative mode when the record has distinct keys |
| Producer.BothExportIsDisjointUnion | src/Result/Matches/Result.php:173-187 | Under BOTH the drained buffer is the INDEXED-only buffer followed by the ASSOCIATIVE-only buffer. The first holds only integer keys and the second only string keys |
| Producer.RenamedKeysCanCollide | src/Result/Matches/Result.php:198-204 | Without STRICT, a group named `result_1` and group 1 both yield the key `result_1`, so a record with distinct keys can give a producer that repeats a key |
| OrderedMap.PutKeys | src/Result/Matches/Result.php:147 | Assigning an existing key keeps the key order. Assigning a new key appends it last |
| OrderedMap.PutGet | src/Result/Matches/Result.php:147 | After `$a[$k] = $v`, `$k` reads `$v` and every other key reads what it read before |
| OrderedMap.PutDistinct | src/Result/Matches/Result.php:147 | Assignment never creates a duplicate key |
| OrderedMap.FromSeqKeys | src/Result/Matches/Result.php:141-149 | The buffer built from a sequence of pulls holds exactly the keys pulled |
| OrderedMap.FromSeqLastWins | src/Result/Matches/Result.php:147 | In the buffer built from a sequence of pulls, a key holds the value of its last pull |
| OrderedMap.FromSeqOfDistinct | src/Result/Matches/Result.php:141-149 | When no key is pulled twice, the buffer is the pulled sequence itself |
| OrderedMap.FromSeqPrefixKeys | src/Result/Matches/Result.php:141-149 | The keys buffered after i pulls are a prefix of the keys buffered after any later number of pulls, so buffer positions never change |
| MapConcat.FromSeqAppend | src/Result/Matches/Result.php:179-186 | Assigning `a` then `b`, when `b` has no key of `a`, gives the map of `a` followed by the map of `b` |
| Captures.Filter | src/Match_/Result.php:59-65 | Skipping the unselected entries keeps exactly the selected entries, in record order |
| Captures.FilterKeepsAll | src/Match_/Result.php:59-65 | The filter drops nothing exactly when every key is selected, and then it returns the record unchanged |
| MatchesView.BufferIsExportPrefix | src/Result/Matches/Result.php:141-149 | The buffered keys are always a prefix of the keys of the fully drained buffer |
| MatchesView.PullOne | src/Result/Matches/Result.php:145-148 | One pull assigns the producer's next pair into the buffer, advances the producer by one, and keeps the buffered keys as a prefix |
| MatchesView.EnsureIndex | src/Result/Matches/Result.php:134-152 | It returns true exactly when position n exists afterwards, and false only once the producer is drained. It never pulls when n is already buffered or the producer is done. It pulls only while the buffer holds at most n entries, and at least once when it turns false into true. The buffered keys stay a prefix |
| MatchesView.Materialize | src/Result/Matches/Result.php:116-121 | Draining leaves every pair pulled, `done` set, and the buffer equal to the map of the whole producer output. It does not move the cursor and does nothing once `done` |
| MatchesView.KeyAt | src/Result/Matches/Result.php:123-128 | The key at a position is the buffer's key there, or null when the position lies outside the buffer |
| MatchesView.CurrentKey | src/Result/Matches/Result.php:50-53 | `key()` is the buffered key under the cursor while `valid()` holds, and null otherwise |
| MatchesView.Current | src/Result/Matches/Result.php:44-48 | `current()` is the buffered value under the cursor, found through its key, and null once the cursor is past the buffer |
| MatchesView.IsValid | src/Result/Matches/Result.php:68-71 | `valid()` agrees with `key()` being non-null. When it is false, `current()` is null |
| MatchesView.Next | src/Result/Matches/Result.php:55-59 | `next()` moves the cursor by one. It is valid exactly when the new position is buffered. It pulls nothing when that position is already buffered or the view is drained |
| MatchesView.Rewind | src/Result/Matches/Result.php:61-66 | `rewind()` puts the cursor on 0 and never moves the producer back. It pulls nothing when the buffer is non-empty or drained. It is valid exactly when the export is non-empty |
| MatchesView.OffsetExists | src/Result/Matches/Result.php:75-79 | After draining, a key exists exactly when the producer ever yields it |
| MatchesView.OffsetGet | src/Result/Matches/Result.php:81-85 | After draining, a key reads the value of its last yield, and null when it is never yielded |
| MatchesView.OffsetSet | src/Result/Matches/Result.php:87-90 | A write always fails with the immutability error for this class and leaves the view unchanged |
| MatchesView.OffsetUnset | src/Result/Matches/Result.php:92-95 | An unset always fails with the immutability error for this class and leaves the view unchanged |
| MatchesView.Count | src/Result/Matches/Result.php:97-101 | After draining, the count is the number of distinct yielded keys. That is at most the number of yields, and equal to it exactly when no key repeats |
| MatchesView.ToArray | src/Result/Matches/Result.php:103-107 | After draining, the array is the map of the whole producer output. The keys the cursor has already reached come first, in the same order |
| MatchesView.JsonSerialize | src/Result/Matches/Result.php:109-112 | The serialised form has the same pairs as `toArray` and leaves the view in the same state |
| MatchesView.Construct | src/Result/Matches/Result.php:21-32 | Construction fails exactly when the flags fail validation, with the same error. Otherwise the view holds the producer for the record and flags, the cursor on 0, at most one pair pulled, and is valid exactly when the producer yields anything |
| MatchesView.ConstructDefault | src/Result/Matches/Result.php:21-32 | With the flags argument omitted, the default BOTH always validates. The view exists with the cursor on 0, and its producer is the indexed phase followed by the non-strict associative phase |
| OrderedMap.FromSeqShrinks | src/Result/Matches/Result.php:141-149 | The buffer built from a sequence of pulls is strictly shorter than the sequence exactly when some key is pulled twice |
| Traversal.WalkDrains | src/Result/Matches/Result.php:44-71 | Looping until `valid()` is false leaves the view drained, with the buffer holding the export. A loop over a drained view pulls nothing |
| Traversal.WalkSeesExportKeys | src/Result/Matches/Result.php:44-71 | From the cursor on, a loop sees the export's keys in export order, each once |
| Traversal.WalkSeesExport | src/Result/Matches/Result.php:44-71 | When the producer never repeats a key, or the view is drained, a loop sees exactly the export's pairs from the cursor on |
| Traversal.ForeachDrains | src/Result/Matches/Result.php:61-66 | After a `foreach` loop the view is drained and holds the export. A loop over a drained view pulls nothing |
| Traversal.ForeachSeesExportKeys | src/Result/Matches/Result.php:44-71 | Every `foreach` loop sees exactly the export's keys, in order |
| Traversal.ForeachSeesExport | src/Result/Matches/Result.php:44-71 | A `foreach` over a drained view, or any `foreach` when no key repeats, sees the export itself |
| Traversal.SecondLoopReplays | src/Result/Matches/Result.php:61-66 | A second loop pulls nothing, sees the same keys in the same order as the first, and sees the export's values |
| Traversal.SecondLoopSeesSamePairs | src/Result/Matches/Result.php:61-66 | When the producer never repeats a key, a second loop sees exactly the pairs the first one saw |
| Traversal.ReplayCanDiffer | src/Result/Matches/Result.php:147 | For a record with a group named `result_1` and a group 1, under non-strict ASSOCIATIVE flags, the first loop sees `result_1 => "a"` and the second sees `result_1 => "b"` |
| LegacyResult.HasStringKey | src/Match_/Result.php:50-56 | Named mode is chosen exactly when some key of the record is a string |
| LegacyResult.ToArray | src/Match_/Result.php:48-68 | The export is a PHP array, with no key twice, and holds at most as many entries as the record. Its keys and pairs are given by `ToArrayKeys` and `ToArrayOfArray` |
| LegacyResult.ToArrayKeys | src/Match_/Result.php:48-68 | A key is exported exactly when it is in the record and, in named mode, is a string |
| LegacyResult.ToArrayOfArray | src/Match_/Result.php:48-68 | In indexed mode the export is the record unchanged. In named mode it is exactly the string-keyed entries, in record order |
| LegacyResult.ExportKeepsMode | src/Match_/Result.php:48-68 | A named export holds only string keys and at least one. An indexed export holds none |
| LegacyResult.ToArrayIdempotent | src/Match_/Result.php:48-68 | Exporting the export of a record gives the same export |
| LegacyResult.Count | src/Match_/Result.php:43-46 | `count` is the size of the raw record, integer keys included, whatever `toArray` would drop |
| LegacyResult.CountVersusExport | src/Match_/Result.php:43-68 | `count` counts the raw record, so it is at least the size of the export. The two agree exactly in indexed mode or when every key is a string |
| LegacyResult.OffsetGet | src/Match_/Result.php:28-31 | A key absent from the record reads as null |
| LegacyResult.OffsetGetReadsEntry | src/Match_/Result.php:28-31 | Every key of the record reads its own value |
| LegacyResult.OffsetExists | src/Match_/Result.php:23-26 | `offsetExists` is true exactly when the key is present and its value is not null (`isset`) |
| LegacyResult.UnmatchedGroupIsNotSet | src/Match_/Result.php:23-26 | A group stored as null is not set, although its key is present |
| LegacyResult.OffsetSet | src/Match_/Result.php:33-36 | A write always fails with the immutability error for this class and leaves the result unchanged |
| LegacyResult.OffsetUnset | src/Match_/Result.php:38-41 | An unset always fails with the immutability error for this class and leaves the result unchanged |
| LegacyResult.JsonSerialize | src/Match_/Result.php:70-73 | The serialised form is the `toArray` export |

## Left out

- `is_numeric` is an abstract predicate on strings. PHP's exact rules (leading whitespace, exponents, hex) are not modelled.
- PHP's coercion of integer-looking string keys is not modelled, at assignment or at lookup (`$r['1']` reading key 1).
  - At assignment it never applies to the matches view. Indexed keys are integers. An associative key is either `result_<key>` or a string that `is_numeric` rejects.
  - Offsets given to the lookup functions are taken as already-coerced keys.
- The `(object)` cast in `jsonSerialize` of the matches view is not modelled. The model returns the same ordered pairs as `toArray`.
- The `pattern`, `haystack` and `didMatch` fields of the matches view are not modelled. They are pass-through data. The eager result carries them in its datatype but nothing reads them.
- Exceptions are error values (`FlagError`, `Immutability`), not message text. The exception classes are not part of this model.
- The PHP warning for reading a missing offset of the eager result is not modelled. The read returns null, as PHP does after the warning.
- The cursor `$pos` is an unbounded natural number. PHP's integer overflow after 2^63 `next()` calls is not modelled.
- The branch `$this->gen === null` in `ensureIndex` is folded into `done`. The generator is dropped exactly when `done` is set.
- The generator is a finite sequence plus a pull counter. Suspension and PHP generator objects are not modelled.
- The view's methods mutate one object in place. Here they are functions that take and return the view's state.
- The rest of the repository is not part of this model:
  - `Regex.php` and `Pcre.php`, which call into the PCRE engine;
  - the replace results;
  - the preg flag enums;
  - the exception classes.
