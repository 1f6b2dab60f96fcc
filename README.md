# Character-level n-gram language model

This project models a small Java text generator and proves properties of the model.

- **Training.** The generator slides a window of `windowLength` characters over a corpus. For each window it counts which characters follow it, keeping one frequency table per window in a `HashMap<String, List>`.
- **Tables.** Each table is a singly linked `List` of `CharData` records (`chr`, `count`, `p`, `cp`). A new character is prepended with count one. A known character has its count raised in place.
- **Probabilities.** After counting, every table gets its probabilities: `p` is the record's share of the table's total count, and `cp` is the running sum of the `p`s along the list.
- **Generation.** Generation extends a seed text by inverse-CDF sampling. It draws the first record whose `cp` reaches the random draw, from the table of the last `windowLength` characters. It stops early at a window that has no table.

The model keeps the source's imperative form:

- `List` is a class over its chain of `CharData` objects. The records are mutated in place.
- The iterator is an object that walks the chain.
- `LanguageModel` is a class whose `charDataMap` field is a `map<string, List>` that training fills.
- The three passes of `calculateProbabilities` are loops over the list's iterator. They write the records' `p` and `cp` fields.

Each method is proved against value-level specification functions:

- `Entries`: a table as a `seq<Entry>`.
- `Probabilities`: totals, the computed probabilities, sampling.
- `Training`: the tables after counting a corpus, and the number of occurrences they must agree with.
- `Generation`: the generated text for a sequence of draws.

Lemmas prove the promised properties about those functions.

Modelling choices:
- The corpus is a `string` argument; the source reads it from a file.
- `java.util.Random` is replaced by an explicit sequence of draws, one per generated character.
- `p` and `cp` are exact reals instead of doubles.
- A node chain is represented by the sequence of records it links. Relinking nodes reassigns that sequence.

## Model

| member | source | states |
|---|---|---|
| Entries.Find | List.java:51-62 | the index of the first record holding the character, or -1 exactly when no record holds it |
| Entries.UpdatedShape | List.java:67-74 | counting an absent character prepends a fresh record seen once; counting a present one keeps the length, raises only that record's count and leaves every other record as it was |
| Entries.UpdatedCounts | List.java:64-74 | counting keeps one record per character, raises the count of the counted character by one and leaves every other character's count unchanged |
| Entries.UpdatedIsTable | List.java:64-74 | counting turns the empty table or a well-formed table into a well-formed one: non-empty, one record per character, counts at least one |
| Entries.FindSameChars | List.java:51-62 | two tables with the same characters in the same order find every character at the same index |
| Entries.CountOfKept | LanguageModel.java:75-99 | setting probabilities, which keeps characters and counts, keeps the count of every character |
| Entries.TableKept | LanguageModel.java:75-99 | keeping characters and counts keeps a table well formed |
| Lists.CharData.constructor | List.java:29-34 | a fresh record holds its character with count one and no probabilities yet |
| Lists.ListIterator.constructor | List.java:141 | an iterator starts at the given node of the chain |
| Lists.ListIterator.HasNext | LanguageModel.java:79 | a node remains exactly when the rest of the chain is not empty |
| Lists.ListIterator.Next | LanguageModel.java:79-81 | `next` returns the current record and moves to the next node |
| Lists.List.constructor | List.java:14-17 | a new list is empty, with size zero |
| Lists.List.GetSize | List.java:20-22 | the size is the number of linked records |
| Lists.List.GetFirst | List.java:25-27 | the list's own first record (the same object, not a copy), holding the first value of a non-empty list |
| Lists.List.AddFirst | List.java:30-34 | a fresh record object for the character, seen once, is linked at index 0; the earlier record objects follow in their old order, unchanged; the size grows by one |
| Lists.List.IndexOf | List.java:51-62 | the smallest index whose record holds the character, or -1 when none does; a found index lies in [0, size) |
| Lists.List.Update | List.java:67-74 | the list afterwards is the table with the character counted: absent, a fresh record is linked in front of the old chain; present, the chain keeps the same record objects and only that record's count goes up, in place |
| Lists.List.Remove | List.java:79-101 | false, with the same chain of record objects and the same values, when no record holds the character; otherwise true, the record at `indexOf` is unlinked, the remaining record objects keep their order, and the size drops by one |
| Lists.List.Unlink | List.java:86-98 | unlinking the node at an index drops exactly that record object from the chain, keeps the others in order and keeps the list valid |
| Lists.List.Get | List.java:106-115 | the record at the index for every index in [0, size); the out-of-bounds exception exactly for the other indices (corrected check, see Findings) |
| Lists.GetRejectsAsWritten | List.java:107 | the check as written rejects negative indices and indices greater than `size` |
| Lists.GetCheckDiffers | List.java:107 | the check as written lets `index == size` through while the corrected check rejects it; they agree on every other index |
| Lists.List.ToArray | List.java:118-127 | a new array of length `size` holding the records in list order |
| Lists.List.ListIteratorAt | List.java:130-142 | null exactly for an empty list, otherwise an iterator starting at the record at the index |
| Probabilities.TotalBounds | LanguageModel.java:77-82 | with counts of at least one, each proper prefix totals less than the whole table, and a non-empty table totals at least one |
| Probabilities.TotalKept | LanguageModel.java:77-82 | tables with the same counts have the same total |
| Probabilities.PrefixGrows | LanguageModel.java:77-82 | longer prefixes of a table total more |
| Probabilities.CalculatedKeepsCounts | LanguageModel.java:75-99 | computing probabilities keeps each record's character and count |
| Probabilities.CalculatedRunningSum | LanguageModel.java:92-99 | in a computed table each later `cp` is the previous `cp` plus its own `p` |
| Probabilities.CalculatedIsFinalized | LanguageModel.java:75-99 | after computing probabilities, each `p` is count over total, the first `cp` is its `p`, and each later `cp` adds its `p` to the previous one |
| Probabilities.CumulativeShare | LanguageModel.java:92-99 | each `cp` is the share of the total counted up to and including its record |
| Probabilities.LastCumulativeIsOne | LanguageModel.java:92-99 | the last record's `cp` is exactly one |
| Probabilities.CumulativeIncreasing | LanguageModel.java:92-99 | the `cp` values strictly increase along the list and lie in (0, 1] |
| Probabilities.FirstReaching | LanguageModel.java:112-122 | the index of the first record whose `cp` reaches the draw: every earlier `cp` is below it |
| Probabilities.SampleHits | LanguageModel.java:112-122 | for a finalized table and a draw in [0, 1), some record's `cp` reaches the draw, so the 'X' fallback is never returned |
| Probabilities.SampleInterval | LanguageModel.java:112-122 | the record at k is drawn exactly for the draws in [0, cp[0]] when k = 0 and in (cp[k-1], cp[k]] when k > 0 |
| Training.WindowSlides | LanguageModel.java:63 | `substring(1) + c` on the window at a position gives the window at the next position |
| Training.CountedStep | LanguageModel.java:45-63 | counting one more position counts its character in the table of the window before it |
| Training.CountedTables | LanguageModel.java:40-63 | every key counted has the window length, and every table is non-empty with one record per character and positive counts |
| Training.TablesStored | LanguageModel.java:49-59 | storing a well-formed table under a key of the window length keeps the tables well formed |
| Training.CountedKeys | LanguageModel.java:45-63 | counted from no tables, the keys are exactly the windows at the counted positions |
| Training.CountStep | LanguageModel.java:49-59 | counting a character in one table raises the count of exactly that character in exactly that table |
| Training.CountedCounts | LanguageModel.java:45-63 | counted from no tables, each table's count for a character is the number of positions where the window is followed by it |
| Training.TrainedTables | LanguageModel.java:35-71 | after training every key has the window length and every table is well formed with its probabilities set |
| Training.TrainedKeys | LanguageModel.java:35-71 | trained from no tables, the keys are exactly the windows `corpus[i..i+W]` with `i + W < |corpus|` |
| Training.TrainedCounts | LanguageModel.java:35-71 | trained from no tables, the count a table holds for `c` is the number of positions where its window is followed by `c` |
| Generation.GeneratedStep | LanguageModel.java:137-145 | a step from a window with a table samples with the next draw, appends the character and slides the window over it |
| Generation.GeneratedLength | LanguageModel.java:137 | at most `textLength` characters are generated, none when it is not positive |
| Generation.GeneratedStops | LanguageModel.java:138-141 | generation falls short of `textLength` only when the window it reached has no table |
| Generation.GeneratedDrawnFrom | LanguageModel.java:138-144 | each generated character is the sample, with its draw, from the table of the window it follows |
| Generation.GeneratedFromTables | LanguageModel.java:138-144 | with finalized tables and draws in [0, 1), each generated character has a record in the table of the window it follows |
| LanguageModels.LanguageModel.constructor | LanguageModel.java:19-32 | a model with the window length and no tables |
| LanguageModels.LanguageModel.Train | LanguageModel.java:35-71 | the model afterwards holds the tables counted from the corpus with their probabilities computed, and stays valid; every window it already had keeps its list object |
| LanguageModels.LanguageModel.CountCorpus | LanguageModel.java:36-64 | the counting loop leaves the tables counted over every position of the corpus; every window already stored keeps its list object |
| LanguageModels.LanguageModel.CountNext | LanguageModel.java:47-63 | one iteration extends the counting by one position and returns the window at the next position; every window already stored keeps its list object |
| LanguageModels.LanguageModel.UpdateTable | LanguageModel.java:49-59 | the window's table, created empty if new, has the character counted; no other table changes, and every window already stored keeps its list object |
| LanguageModels.LanguageModel.TableOf | LanguageModel.java:49-56 | the list already stored under the window, the same object, or else a new empty list stored under it; no other entry of the map changes |
| LanguageModels.LanguageModel.CountIn | LanguageModel.java:59 | the table of the key has the character counted in place: the map keeps the same list objects and no other table changes |
| LanguageModels.LanguageModel.FinalizeTables | LanguageModel.java:68-70 | every table has its probabilities computed; the map and the lists stay the same |
| LanguageModels.LanguageModel.FinalizeTable | LanguageModel.java:69 | the table of one key has its probabilities computed; no other table changes |
| LanguageModels.LanguageModel.CalculateProbabilities | LanguageModel.java:75-99 | the list's records afterwards hold the computed probabilities of its counts, and the list stays valid |
| LanguageModels.LanguageModel.SumCounts | LanguageModel.java:77-82 | the first pass computes the total of the counts |
| LanguageModels.LanguageModel.SetShares | LanguageModel.java:84-89 | the second pass sets each `p` to its count over the total and changes nothing else |
| LanguageModels.LanguageModel.SetRunningSums | LanguageModel.java:91-99 | the third pass sets each `cp` to the sum of the `p`s up to and including its record |
| LanguageModels.LanguageModel.GetRandomChar | LanguageModel.java:112-122 | the character of the first record whose `cp` reaches the draw, or 'X' when none does |
| LanguageModels.LanguageModel.Generate | LanguageModel.java:131-147 | a seed shorter than the window comes back unchanged; otherwise the seed followed by the text generated from its last window with the draws |
| LanguageModels.LanguageModel.Extend | LanguageModel.java:135-146 | the generation loop appends exactly the text generated from the window with the draws |

## Left out

- Reading the corpus through `In` is not modelled. `train` takes the corpus as a string.
- `main` and its command-line handling are not modelled.
- `toString` of the model and of the list only format text, so they are not modelled.
- `java.util.Random` and its seeding are replaced by a sequence of draws passed to `Generate`. Its `requires textLength <= |draws|` supplies one draw per generated character.
- Double rounding is not modelled. `p` and `cp` are exact reals, so "the last `cp` is exactly one" holds for the model, not for Java doubles.
- Java `int` overflow of `count` and `numOfChars` is not modelled.
- `HashMap` hashing and iteration order are not modelled. Tables are finalized in an arbitrary order, which the result does not depend on.
- `Node` is not part of this model. A chain of nodes is the sequence of records it links.
- `CharData` and `ListIterator` are not part of this model as source files. They are modelled only by the fields and operations `List` and `LanguageModel` use.
- LanguageModels.LanguageModel.constructor: requires `windowLength >= 1`. The source accepts any length, but with a window shorter than one, `substring(1)` fails in training.
- LanguageModels.LanguageModel.Train: requires `|corpus| >= windowLength`. The source fails reading the first window of a shorter corpus.
- LanguageModels.LanguageModel.CalculateProbabilities: requires a non-empty list with counts of at least one. On an empty list the source dereferences a null iterator. Every list training builds has counts of at least one.
- LanguageModels.LanguageModel.GetRandomChar: requires a non-empty list, because the source dereferences a null iterator on an empty one.
- LanguageModels.LanguageModel.Extend: requires every table to be non-empty, which training guarantees.
- Lists.List.GetFirst: requires a non-empty list. On an empty list the source dereferences the null `first` and throws `NullPointerException`; that path is not modelled.
- Lists.List.ListIteratorAt: requires `index <= size` on a non-empty list. For a larger index the source's walk runs past the last node and throws `NullPointerException`; that path is not modelled.
- Characters are Unicode scalar values (Dafny `char`), not UTF-16 code units as in Java. The model covers text whose every character is a single UTF-16 code unit (the Basic Multilingual Plane without surrogates). For other text the source's `substring` windows can split a surrogate pair, which no Dafny `string` can hold.
- Lists.List.Remove: the walk to the predecessor node is modelled as unlinking by index in `Unlink`. The contract states the resulting chain in both cases: unchanged when nothing is removed, the old chain without the removed record otherwise.
- Lists.List.Get: returns null in place of throwing `IndexOutOfBoundsException`. It applies the corrected check (see Findings).
- LanguageModels.LanguageModel.SetRunningSums: states only the new `cp` fields. `CalculateProbabilities` combines them with the unchanged fields.

## Findings

| source | as written | input that shows it | evidently intended | confidence | as-written member | corrected member |
|---|---|---|---|---|---|---|
| List.java:107 | `get` throws only for negative indices and indices greater than `size`, so `index == size` passes the check and the walk dereferences the null after the last node | `get(size)` on any list, e.g. `get(0)` on an empty list | throw `IndexOutOfBoundsException` for every index without a node, that is also for `index == size` | not executed | Lists.GetRejectsAsWritten (shown by Lists.GetCheckDiffers) | Lists.List.Get |
