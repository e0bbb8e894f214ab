# Personal library manager: the record store, in Dafny

The program is a Streamlit page over a personal book library. The library is an
ordered list of book records (title, author, year, genre, read flag) kept in the
session and saved to a JSON file after every change. This project models the core
under the widgets:

- **adding** a book, which happens only when the form is submitted with a non-empty
  title and author;
- **removing** the book at a selected position with `pop`;
- **searching** by title or author, case-insensitively, for a substring;
- the **statistics**: the total, the number of read books, the percentage read and
  the genre → count distribution.

Files:

- `text.dfy` (module `Text`): ASCII case folding (`Lower`, `LowerStr`) and
  `Contains`, which is Python's `t in s` on strings.
- `books.dfy` (module `Books`): the `Book` record and the specification
  functions over a list of books. `Filter` gives the search result, `ReadCount`
  the read count, `Tally` and `CountGenre` the genre counts, `MapSum` the sum of
  a dictionary's counts, and `Without` the list after `pop(i)`. The lemmas there
  say what each of these means.
- `library.dfy` (module `LibraryManager`): the class `Library`. Its `books`
  field is the session list. Its `file` field is the library file: what the
  last save wrote, or what startup found. `Add` and `Remove` change `books` in place
  on success and then call `Save`, which overwrites `file`; every other outcome
  changes neither field. `Search` and `GenreCounts` are loop methods, and `Stats` combines
  `ReadCount` with `GenreCounts`. All three read a snapshot of the list, and their
  results are tied to the functions in `Books`.

I/O and the UI are parameters. Whether the form was submitted and whether the
remove button was pressed are `bool` arguments. The selected index, the search
field and the term are arguments too. The file found at startup is a
`StoredFile` value: `Missing`, `Unreadable` or `Stored(books)`.

## Model

| member | source | states |
|---|---|---|
| `Text.Lower` | app.py:95 | an upper-case ASCII letter maps to its lower-case letter, all other characters are unchanged, and the result is never upper case |
| `Text.LowerStr` | app.py:95 | ASCII lowering of a string keeps its length, and position `i` of the result is `Lower(s[i])` |
| `Text.LowerStrIdempotent` | app.py:95-99 | lowering an already lowered term changes nothing, so lowering the term and then the field compares like with like |
| `Text.CaseVariantIff` | app.py:95-99 | two strings lower to the same string if and only if they agree position by position up to letter case |
| `Text.ContainsIff` | app.py:98-99 | `Contains(s, t)`, Python's `t in s`, holds if and only if `t` occurs in `s` at some position `k` |
| `Text.ContainsEmpty` | app.py:93-99 | the empty term is contained in every string, as Python's `"" in s` is |
| `Text.ContainsNoLonger` | app.py:98-99 | a term that occurs in a string is no longer than the string |
| `Books.Matches` | app.py:98-99 | the per-book test: the lowered field that `FieldText` picks (the title for the Title choice, the author for the Author choice) contains the already lowered term; the empty term matches every book, and a matching term is never longer than the chosen field |
| `Books.Filter` | app.py:94-100 | the list of matches is never longer than the library |
| `Books.FilterSubsequence` | app.py:97-100 | the matches are a subsequence of the library: library order is kept |
| `Books.FilterMultiset` | app.py:97-100 | each matching book appears in the result exactly as often as in the library; a non-matching book never appears |
| `Books.FilterMembership` | app.py:97-100 | a book is in the result if and only if it is in the library and its lowered field contains the lowered term |
| `Books.FilterCaseInsensitive` | app.py:95-99 | two terms that differ only in letter case give the same result list |
| `Books.ReadCount` | app.py:145 | the read count is at most the number of books |
| `Books.ReadCountAppend` | app.py:145 | the read count of a concatenation is the sum of the two counts |
| `Books.ReadCountExtremes` | app.py:144-145 | the read count equals the total if and only if every book is read; it is 0 if and only if no book is read |
| `Books.ReadCountWithout` | app.py:78 | removing a book lowers the read count by one if and only if that book was read |
| `Books.Bump` | app.py:165-168 | one loop step adds the genre to the keys, sets its count to the old count plus one (or 1 if it was new), and leaves every other genre's count as it was |
| `Books.Tally` | app.py:162-168 | the dictionary the loop builds, one `Bump` per book in library order; every count in it is at least 1 |
| `Books.CountGenre` | app.py:162-168 | the number of books with exactly genre `g` is at most the number of books |
| `Books.CountGenrePositive` | app.py:162-168 | a genre's count is positive if and only if some book has that genre, the empty genre included |
| `Books.CountGenreSnoc` | app.py:163-168 | appending a book adds one to the count of its own genre and nothing to any other |
| `Books.TallyKeys` | app.py:162-168 | the keys of the dictionary the loop builds are exactly the genres in the library, the empty genre included |
| `Books.TallyCounts` | app.py:162-168 | each value in the dictionary the loop builds is the number of books with exactly that genre |
| `Books.MapSumRemove` | app.py:162-168 | a dictionary's total is the same whichever key is counted first |
| `Books.BumpSum` | app.py:165-168 | each loop step raises the total of the counts by exactly one |
| `Books.TallySum` | app.py:162-168 | the genre counts sum to `total_books`, the number of books |
| `Books.Without` | app.py:78 | after `pop(i)` the list is one shorter; positions before `i` are unchanged and later ones move down by one |
| `Books.WithoutMultiset` | app.py:78 | `pop(i)` takes away exactly one copy of the book at `i` and keeps everything else |
| `Books.WithoutSubsequence` | app.py:78 | the remaining books keep their relative order |
| `LibraryManager.Library.constructor` | app.py:10-20 | at startup the library is the list held in the file, or empty when the file is missing or cannot be opened or parsed as JSON |
| `LibraryManager.Library.Save` | app.py:23-29 | the whole list overwrites the file, and the list itself is unchanged |
| `LibraryManager.Library.Add` | app.py:44-57 | with the form submitted and non-empty title and author, exactly one book goes on the end, with the given fields and `read == (status == "Yes")`, and the file is saved; otherwise the outcome is a warning or nothing, and neither the list nor the file changes |
| `LibraryManager.Library.Remove` | app.py:63-80 | an empty library reports empty; with the button pressed and `i` in range, the old `books[i]` is returned, the list becomes `Without(old, i)` and is saved; every outcome other than a removal leaves the list and the file unchanged |
| `LibraryManager.TolkienMatches` | app.py:95-99 | a book by "J.R.R. Tolkien" matches the lowered term "tolkien" on the author field |
| `LibraryManager.HerbertDoesNotMatch` | app.py:95-99 | a book by "Frank Herbert" does not match "tolkien" on the author field |
| `LibraryManager.SearchTolkien` | app.py:93-100 | over The Hobbit and Dune, an author search for "tolkien" or "TOLKIEN" gives The Hobbit alone |
| `LibraryManager.Search` | app.py:86-100 | an empty library reports empty; an empty term does no search; otherwise the result is `Filter(lib, field, LowerStr(term))`, and the lemmas about `Filter` above apply to it |
| `LibraryManager.PercentRead` | app.py:146 | 0 when the total is 0; otherwise the percentage times the total equals 100 times the read count; it lies between 0 and 100 when the read count is at most the total |
| `LibraryManager.GenreCounts` | app.py:162-168 | the keys are exactly the genres present; each count is the number of books with that genre; the counts sum to the number of books |
| `LibraryManager.Stats` | app.py:140-168 | an empty library shows nothing; otherwise `total_books` is the number of books, `read_books` is the read count and at most the total, the percentage is as above, and the genre counts are as in `GenreCounts` |

## Left out

- Records are typed. The source keeps any file that parses as JSON (app.py:16), even one that is not a list of complete book records, such as a record with no `genre` or `read`. Such a session later raises `KeyError` or `TypeError` in search (app.py:98-99) or the statistics (app.py:145, 164). The model has no such state: a `Stored` file always holds complete `Book` values.
- Loading and saving JSON (app.py:10-29). The file is modelled as a `StoredFile` value. Parsing and serialising are not modelled, so the save-then-load round trip is only the identity `Stored(books)` → `books` in the constructor.
- Save failures (app.py:28-29). A failed write is not modelled: `Save` always succeeds. The source does not roll back the in-memory list on a failed write either, so `books` behaves the same either way.
- Streamlit widgets, messages, the navigation radio and the page dispatch in `main` (app.py:33-42, 71-77, 90-91, 102-106, 148-157, 178-216). These are UI. Their inputs are method parameters, and their messages are the outcome datatypes.
- `display_books` and the pandas table (app.py:109-134). This is rendering through a foreign library.
- The bar chart (app.py:170-175), and the insertion order of the dictionary's keys, which only that chart uses.
- `LibraryManager.PercentRead`: the percentage is modelled as an exact `real`, so the float rounding and the one-decimal formatting (app.py:146, 157) are not captured.
- `Text.Lower`: folds ASCII letters only. Python's `str.lower` covers all of Unicode.
- `Text.LowerStr`: keeps the length only because it lowers ASCII. Python's `str.lower` can lengthen a string: `"İ".lower()` has two code points.
- The year bounds 1000–2100 are a widget constraint (app.py:38). `Add` takes any integer year, and `int(year)` is the identity on it.
- `LibraryManager.Library.Remove`: the selectbox only ever offers an index in `range(len(library))`. The index is therefore a `nat`, and an index past the end gets the `IndexError` outcome with no change, as when Python's `pop` raises. Python's negative indices are not modelled.
- The `if total_books > 0` guard before the genre distribution (app.py:160) always holds after the early return for an empty library, so `Stats` has no separate branch for it.
