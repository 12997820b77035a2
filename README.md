# ASL flashcards: the study state of `FlashCardApp`

`ASL_LookUp.py` is a tkinter window for studying American Sign Language
vocabulary. It reads a word list, keeps a right/wrong counter pair per
word, shows one word at a time on a card, picks the next word at random
with weight (1 + wrong) / (1 + right), saves the counters to a progress
file after every answer, and opens a browser tab with a search for the
sign. This project models the state behind that window and proves what
its operations do to it.

- `wrappers.dfy` (`Wrappers`): `Option` and `Result`.
- `text.dfy` (`Text`): `str.strip()` on ASCII whitespace, as a forward scan and a backward scan. It is proved to cut exactly the surrounding whitespace, and to be idempotent.
- `vocabulary.dfy` (`Vocabulary`): the word table `map<string, Counts>`. It covers `load_words` as a loop, the key order of the Python dict, the merge rule of `load_progress`, and the counter updates of the two answer buttons.
- `selection.dfy` (`Selection`): `calculate_weight` as an exact `real`, and the weighted draw of `random.choices`. The value of `random()` is a parameter `u` in [0, 1). The pick is the first index whose cumulative weight exceeds `u * total`, searched over 0 .. n - 1 as `bisect` does. It is proved that index `k` is picked exactly when `u * total` falls in an interval of width `weight(k)`.
- `flashcards.dfy` (`FlashCards`): the class `FlashCardApp`. It holds the fields `words`, `order` (the dict's key order), `currentWord`, `lookupTab`, `card` (the card face), and `progressFile` (the contents of the progress file; `None` while there is none). A ghost set `openTabs` records the lookup tabs opened and not yet closed. The class invariant says that set is at most the one tab `lookupTab` names. The methods are the window's operations. `Launch` is the whole `FlashCardApp(...)` construction, including the first draw.
- `scenarios.dfy` (`Scenarios`): two worked sessions. One shows that a word with 3 wrong answers outweighs one with 5 right answers 24 to 1. The other shows a wrong answer written to the progress file.

What the program does, as the model captures it:
- `save_progress` opens the progress file for writing and dumps the whole table into it (ASL_LookUp.py:96-97).
- Construction always ends with `next_card` (ASL_LookUp.py:61), so `current_word` is a word of the table once the window exists.
- With an empty word list, the first `next_card` raises an `IndexError` inside `random.choices`. `Launch` returns `Failure(EmptyVocabulary)` for that case.
- Closing a lookup tab is guarded by an exception handler (ASL_LookUp.py:114-118). Opening one is not (ASL_LookUp.py:159-162, 183-186).

## Model

| member | source | states |
|---|---|---|
| Text.SpaceCharsListed | ASL_LookUp.py:76 | the whitespace `strip()` removes is exactly space, tab, line feed, vertical tab, form feed, carriage return and the separators 0x1C to 0x1F |
| Text.SkipForward | ASL_LookUp.py:76 | the leading scan of `strip()` skips only whitespace and stops at the first character that is not whitespace, or at the end |
| Text.SkipBackward | ASL_LookUp.py:76 | the trailing scan of `strip()` skips only whitespace and stops just past the last character that is not whitespace, or at the start of what is left |
| Text.Trim | ASL_LookUp.py:76 | `strip()` is no longer than the cell and has no whitespace at either end |
| Text.TrimIsStripped | ASL_LookUp.py:76 | `strip()` leaves a contiguous piece of the cell with only whitespace before and after it |
| Text.TrimUnique | ASL_LookUp.py:76 | any such piece without whitespace at its ends is `strip()` of the cell: the trim is uniquely determined |
| Text.TrimIdempotent | ASL_LookUp.py:76 | stripping twice is stripping once |
| Vocabulary.Trims | ASL_LookUp.py:75-76 | one trimmed cell per row |
| Vocabulary.TrimsAt | ASL_LookUp.py:75-76 | trimmed cell `i` is row `i`'s first cell, stripped |
| Vocabulary.Distinct | ASL_LookUp.py:75-77 | the dict's key order holds exactly the trimmed cells, each once |
| Vocabulary.Fresh | ASL_LookUp.py:75-77 | the table the loop builds: every trimmed cell is a key, each with `{right: 0, wrong: 0}` (its meaning is proved in LoadedTable) |
| Vocabulary.Extend | ASL_LookUp.py:77 | assigning a cell adds a new key at the end of the key order, and leaves a key already there in its place, with counters reset to 0 |
| Vocabulary.LoadWords | ASL_LookUp.py:72-78 | the loop builds the table of all trimmed cells with zero counters, and the dict key order of first appearance |
| Vocabulary.LoadedTable | ASL_LookUp.py:72-78 | the keys are exactly the trimmed first-column cells, repeats collapse to one key (at most one key per row), every value is `{right: 0, wrong: 0}` |
| Vocabulary.DistinctCovers | ASL_LookUp.py:75-77 | the key order lists every key of the loaded table exactly once, and is non-empty when the word list has a row |
| Vocabulary.LoadedKeyOrder | ASL_LookUp.py:72-78 | the key order of the loaded table lists each of its keys exactly once, and is empty exactly when the word list has no rows |
| Vocabulary.DistinctCard | ASL_LookUp.py:75-77 | a key order without repeats has as many keys as entries |
| Vocabulary.Merge | ASL_LookUp.py:88-90 | the merged table has the same words as the table before; entry by entry it obeys MergeRule |
| Vocabulary.Restore | ASL_LookUp.py:84-90 | `load_progress` as a whole: the words are unchanged, and with no progress file the table is left as it is |
| Vocabulary.MergeRule | ASL_LookUp.py:88-90 | merging keeps the same key set; a word in both takes the stored counters; a word only in the table keeps its own; a stored word not in the table is dropped |
| Vocabulary.StartingTable | ASL_LookUp.py:72-90 | the table a session starts from has exactly the trimmed cells as keys, each with its stored counters if the file has them, else zeros; no progress file leaves the fresh table |
| Vocabulary.SaveThenLoad | ASL_LookUp.py:88-97 | merging a saved table back into a table with the same keys gives the saved table |
| Vocabulary.MergeIdempotent | ASL_LookUp.py:88-90 | merging the same progress twice is merging it once |
| Vocabulary.RecordRight | ASL_LookUp.py:169 | `right` of the current word goes up by exactly 1, its `wrong` stays, the other words stay, no counter falls and no key is added or removed |
| Vocabulary.RecordWrong | ASL_LookUp.py:178 | `wrong` of the current word goes up by exactly 1, its `right` stays, the other words stay, no counter falls and no key is added or removed |
| Selection.Weight | ASL_LookUp.py:100-106 | the weight is strictly positive |
| Selection.UnansweredWeighsOne | ASL_LookUp.py:106 | a word with no answers weighs exactly 1 |
| Selection.WeightRisesWithWrong | ASL_LookUp.py:106 | with `right` fixed, more wrong answers give a strictly higher weight |
| Selection.WeightFallsWithRight | ASL_LookUp.py:106 | with `wrong` fixed, more right answers give a strictly lower weight |
| Selection.Weights | ASL_LookUp.py:128-129 | one positive weight per key, in key order |
| Selection.TotalPositive | ASL_LookUp.py:129-130 | the total weight of a non-empty table is positive, so the draw never sees a zero total |
| Selection.Sum | ASL_LookUp.py:130 | the running total of the weights; the sum of the first i + 1 weights is the cumulative weight of index i in `random.choices` (positivity in TotalPositive) |
| Selection.PrefixSumsRise | ASL_LookUp.py:130 | the cumulative weights rise strictly |
| Selection.ChoiceFrom | ASL_LookUp.py:130 | the bisect over cumulative weights returns an index from its start to n - 1 |
| Selection.Draw | ASL_LookUp.py:130 | the point `random() * total` that `random.choices` looks up; for `random()` in [0, 1) it lies in [0, total) (DrawInRange) |
| Selection.DrawInRange | ASL_LookUp.py:130 | for `random()` in [0, 1) and a positive total, the drawn point lies in [0, total) |
| Selection.Choose | ASL_LookUp.py:130 | the drawn index is a valid index of the key list |
| Selection.ChoiceIff | ASL_LookUp.py:130 | the point `x` in [0, total) selects index `k` if and only if `x` lies in `k`'s interval [cum(k), cum(k) + weight(k)) |
| Selection.ChooseIff | ASL_LookUp.py:130 | `random()` = `u` selects word `k` if and only if `u * total` lies in `k`'s interval of width `weight(k)`, which makes the probability `weight(k) / total` |
| FlashCards.SearchQuery | ASL_LookUp.py:156 | the search query: the current word followed by " in ASL" |
| FlashCards.SearchUrl | ASL_LookUp.py:156-157 | the search URL is exactly as long as the search prefix, the word and " in ASL" together; SearchUrlNamesWord places each piece |
| FlashCards.SearchUrlNamesWord | ASL_LookUp.py:156-157 | the query in the URL is the current word followed by " in ASL" |
| FlashCards.SearchUrlInjective | ASL_LookUp.py:181-182 | different words are looked up at different URLs |
| FlashCards.FrontOf | ASL_LookUp.py:132-134 | the front of the card: front image, title "ASL" and the word, both in black |
| FlashCards.Flipped | ASL_LookUp.py:144-147 | the back of the card: back image, title "ASL Sign" and no word, both in white |
| FlashCards.FlashCardApp.constructor | ASL_LookUp.py:12-20 | the state starts as the loaded and merged table with its key order, the given progress file, and no lookup tab |
| FlashCards.FlashCardApp.Load | ASL_LookUp.py:16-17 | the table is the first column's words merged with the progress file, the key order matches it, and it is empty exactly when the word list has no rows |
| FlashCards.FlashCardApp.LoadProgress | ASL_LookUp.py:80-90 | the table becomes the merge of itself with the progress file; with no file it is unchanged; keys and key order never change |
| FlashCards.FlashCardApp.SaveProgress | ASL_LookUp.py:92-98 | the progress file now holds the whole table |
| FlashCards.FlashCardApp.CloseLookupTabIfExists | ASL_LookUp.py:108-120 | afterwards no lookup tab is open; when none was open nothing changes, so a second call is a no-op |
| FlashCards.FlashCardApp.NextCard | ASL_LookUp.py:122-136 | the current word is the key the weighted draw selects, the card shows its front with title "ASL" and the word, and no counter changes |
| FlashCards.FlashCardApp.FlipCard | ASL_LookUp.py:140-147 | the card shows its back with title "ASL Sign" and no word |
| FlashCards.FlashCardApp.OpenLookupTab | ASL_LookUp.py:156-162 | with no tab open, the new tab becomes the only open tab, and it is sent to the search for the current word |
| FlashCards.FlashCardApp.ShowSign | ASL_LookUp.py:149-162 | the previous tab is closed before the new one opens, so exactly one tab is open; the card shows its back; the search is for the current word |
| FlashCards.FlashCardApp.GotItRight | ASL_LookUp.py:164-171 | one right answer is recorded for the old current word, the file holds the new table, no lookup tab is open, and the next word is drawn from the new weights |
| FlashCards.FlashCardApp.GotItWrong | ASL_LookUp.py:173-188 | one wrong answer is recorded for the old current word, the file holds the new table, exactly one tab is open on that word's search, and the next word is drawn from the new weights |
| FlashCards.FlashCardApp.OnClose | ASL_LookUp.py:190-198 | the file holds the table and no lookup tab is left open |
| FlashCards.Launch | ASL_LookUp.py:12-61 | construction fails exactly when the word list has no rows; otherwise the app holds the loaded and merged table, no tab, and a first card drawn by weight |
| Scenarios.WeakWordOdds | ASL_LookUp.py:129-130 | with HELLO = {right 0, wrong 3} listed before THANKS = {right 5, wrong 0}, HELLO is drawn exactly when `random()` < 24/25 |
| Scenarios.WrongAnswerIsPersisted | ASL_LookUp.py:173-179 | a first session over two words with no progress file, a first draw of `random()` = 0 and a wrong answer saves {first: right 0, wrong 1; second: right 0, wrong 0} |
| Scenarios.RestartRestores | ASL_LookUp.py:84-97 | a new session over the same word list starts from exactly the saved table |

## Left out

- The tkinter window: widgets, images, fonts, the progress label text, `mainloop` and the close protocol (ASL_LookUp.py:28-58, 136, 201-204). The card face is kept only as the record `Card` (image side, title, ink, word text).
- The Selenium driver: starting Chrome, `execute_script`, `window_handles`, `switch_to`, `get`, `quit`. A new tab's handle is a parameter of the methods that open one. The URL passed to `get` is returned as an out-parameter. Switching back to the main window is not modelled.
- FlashCards.FlashCardApp.CloseLookupTabIfExists: does not model the failure swallowed at ASL_LookUp.py:117-118. The tab is taken to be closed whenever `driver.close()` is called.
- `pandas.read_csv`: the header row, CSV parsing, and the coercion of empty cells to "nan". `LoadWords` takes the first-column cells as strings.
- Text.Trim: strips only the ASCII characters that `str.isspace()` accepts, not Unicode whitespace such as U+00A0 or U+2028.
- JSON reading and writing, and `os.path.exists`. The progress file is the field `progressFile`. Stored entries are taken to be well-formed `{right, wrong}` pairs of naturals, since the code does not check them.
- Selection.Choose: uses exact real arithmetic instead of floating point. With floats, `random() * total` can round up to the last cumulative weight. The clamp to index n - 1 that `bisect` gets from `hi = n - 1` is modelled, but the rounding is not. The generator behind `random()` is left out too: the draw `u` is a parameter.
- The `flip_timer` / `after_cancel` machinery (ASL_LookUp.py:19, 126-127, 138). The timer is never set, because its only setter is commented out.
- The console message printed by `save_progress`.
