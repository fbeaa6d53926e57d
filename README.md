# Fable collection extractor — a Dafny model

This project models `extraction.py`, which turns one anthology text file into
an ordered catalog of document records (id, title, raw text, terms) and
saves/loads such a catalog as a JSON array of six-key objects.

- `Text` (text.dfy): `str.strip()` and `str.split()` over one whitespace
  predicate, and how body lines are accumulated (`line + " "`).
- `Documents` (documents.dfy): the record, with every field optional.
- `Extraction` (extraction.dfy): the segmentation state machine. `State`
  holds the loop variables under the source's names (`currentTitle`,
  `currentText`, `insideRawText`, `blankLineCount`,
  `blankLineInsideRawText`, `documentId`, `catalog`); `Step` is one pass of
  the loop body, `Run` the fold over the lines after the 307-line preamble,
  `EndOfStream` the final flush. `ExtractCollection` is the same loop written
  imperatively, with its `continue`s, and is proved to return exactly
  `Collection(fileLines)`. `ExtractionScenarios` follows one document
  (title, two blanks, one body line, three blanks) through the machine,
  for any non-blank title and body line, surrounding whitespace included,
  and then the fable example.
- `Persistence` (persistence.dfy): the record ↔ dictionary mapping of
  `save_collection_as_json` / `load_collection_from_json`, the two loops as
  methods, and the load∘save round trip.

The quirks of the source are kept as written and stated as lemmas: a title
line does not reset the blank-line count; three blanks outside body mode
close a document only on the next non-blank line, which is dropped, even if
title and text are empty; four or more such blanks mean no document closes
until the end of the stream; inside body mode a non-blank line resets the
in-body blank count, and the third consecutive blank closes the document.

## Model

| member | source | states |
|---|---|---|
| `Text.Strip` | extraction.py:30 | The stripped line is empty exactly when the line is all whitespace, and otherwise starts and ends with non-whitespace. |
| `Text.StripIsSlice` | extraction.py:30 | Stripping only removes whitespace from the two ends: the result is a contiguous slice of the line. |
| `Text.Split` | extraction.py:46 | Every word is non-empty and holds no whitespace. |
| `Text.SplitAroundSpace` | extraction.py:46 | Splitting a text with a whitespace character inside gives the words before it followed by the words after it: words never span whitespace. |
| `Text.SplitOneWord` | extraction.py:46 | A non-empty run of non-whitespace is a single word. |
| `Text.SplitAllSpace` | extraction.py:46 | A text of whitespace only has no words. |
| `Text.SplitJoinSpace` | extraction.py:46 | The words of lines joined by single spaces are the words of each line in turn. |
| `Text.SplitJoinWords` | extraction.py:46 | Words without whitespace, joined by single spaces, split back into exactly those words. |
| `Text.Accumulate` | extraction.py:39 | Appending `line + " "` for each body line gives those lines joined by single spaces, plus one trailing space (nothing for no lines). |
| `Text.SplitKeepsNonSpace` | extraction.py:46 | The words of a text, glued back together, are the text with its whitespace removed; no word is empty or holds whitespace. |
| `Text.SplitIgnoresStrip` | extraction.py:46-50 | Splitting the stripped text gives the same words as splitting the unstripped text, so `terms` are the words of `raw_text`. |
| `Text.StripAccumulate` | extraction.py:39 | Stripping the accumulated `line + " "` pieces of stripped non-blank lines gives those lines joined by single spaces. |
| `Extraction.Remainder` | extraction.py:19-21 | The lines after the 307-line preamble; a file with at most 307 lines leaves none. |
| `Extraction.MakeDoc` | extraction.py:46-51 | A closed document's record has the given id and title, the stripped text as raw text (so no surrounding whitespace), the words of the text as terms (equal to the words of its raw text), and no filtered or stemmed terms. |
| `Extraction.Flush` | extraction.py:45-59 | Closing a document appends exactly one record, built from the current title and text with the current id, then clears title and text, leaves body mode, zeroes both counters and advances the id. |
| `Extraction.Step` | extraction.py:30-62 | One line leaves the earlier records in place and appends at most one, and the id advances exactly when a record is appended. |
| `Extraction.Run` | extraction.py:29-62 | Over any lines the earlier records stay in place, at most one record is appended per line, and the id advances by the number of records appended. |
| `Extraction.EndOfStream` | extraction.py:64-73 | After the loop a record is appended, with the next id, the pending title and the stripped pending text, exactly when text or a non-empty title is pending; otherwise the catalog is unchanged. |
| `Extraction.Collection` | extraction.py:8-75 | A file of at most 307 lines gives an empty catalog; otherwise record k has id k, terms equal to the words of its raw text, and stripped raw text. |
| `Extraction.StepReachable` | extraction.py:30-62 | One loop pass keeps the state invariant (outside body mode: no text and in-body count 0; inside: outer count 2 and in-body count at most 2; next id = number of records; every record well formed with its index as id) and only appends to the catalog. |
| `Extraction.RunReachable` | extraction.py:29-62 | The invariant holds after any number of lines, and the catalog only grows. |
| `Extraction.SegmentRecords` | extraction.py:45-73 | Record k of the catalog has id k (0..N-1 with no gaps, the end-of-stream record taking the next id), terms equal to the words of its raw text, and stripped raw text. |
| `Extraction.StepCloses` | extraction.py:41-59 | A line closes a document exactly when it is the third in-body blank or a non-blank line after exactly three outer blanks; closing appends one record from the current title and text, resets title, text, both counters and body mode, and the closing line adds nothing; any other line leaves the catalog and id alone. |
| `Extraction.BlankOutsideBody` | extraction.py:31-33 | A blank line outside body mode only increments the blank-line count. |
| `Extraction.TitleLine` | extraction.py:61-62 | A non-blank line outside body mode with a count other than 2 or 3 replaces the title and leaves the blank-line count unchanged. |
| `Extraction.BodyLine` | extraction.py:34-40 | With a count of 2, a non-blank line enters body mode, is appended with one trailing space, and resets the in-body blank count; the title is kept. |
| `Extraction.BlankInsideBody` | extraction.py:36-45 | In body mode a blank line only increments the in-body count, and the third in a row closes the document. |
| `Extraction.StuckAfterFourBlanks` | extraction.py:31-45 | Once four or more blanks are counted outside body mode, no later line closes a document or enters body mode. |
| `Extraction.EndOfStreamFlush` | extraction.py:65-73 | After the last line exactly one record is appended if and only if text or a title is pending; otherwise the catalog is returned unchanged. |
| `Extraction.TextIsAccumulatedBody` | extraction.py:34-40 | The pending text is always the pending body lines (stripped, non-blank) each followed by one space. |
| `Extraction.ClosedRecordJoinsBody` | extraction.py:45-52 | The record a closing line appends has as raw text the body lines joined by single spaces, and as terms the words of that text, which are the words of each body line in order. |
| `Extraction.FinalRecordJoinsBody` | extraction.py:65-73 | The same holds for the record flushed at the end of the stream. |
| `Extraction.ExtractCollection` | extraction.py:8-75 | The imperative loop, with the source's variables and `continue`s, returns exactly the catalog of the `Step` fold plus the end-of-stream flush. |
| `ExtractionScenarios.OneDocument` | extraction.py:29-73 | After the preamble, any non-blank title line, two blanks, any non-blank body line and three blanks give exactly one record: id 0, the stripped title, the stripped body as raw text, the body's words as terms; title and body may carry surrounding whitespace such as a trailing newline, while the five blank lines are empty strings. |
| `ExtractionScenarios.OneFable` | extraction.py:29-73 | Preamble, "The Fox", two blanks, "Once upon a time.", three blanks gives one record with id 0, that title, that raw text and the four words. |
| `Persistence.ToDict` | extraction.py:88-95 | A record is saved as an object with exactly the six keys, a key holding null exactly when its field is absent. |
| `Persistence.FromDict` | extraction.py:114-120 | For any object, partial ones included, each field takes the value stored under its key; a key that is missing, holds null, or holds a value of another kind leaves its field absent; an empty object gives an empty record. |
| `Persistence.FromDictToDict` | extraction.py:86-120 | Loading a saved object gives back the record field by field, absent fields included. |
| `Persistence.ToDictFromDict` | extraction.py:88-120 | Saving a loaded object of the saved shape gives back the same object. |
| `Persistence.SavedShapeOfToDict` | extraction.py:88-95 | Every saved object has the saved shape (six keys, each null or of its field's kind). |
| `Persistence.Saved` | extraction.py:85-96 | The saved array has one six-key object per record. |
| `Persistence.Loaded` | extraction.py:108-126 | Without a file the loaded collection is empty; otherwise it has one record per array element. |
| `Persistence.SavedAt` | extraction.py:86-96 | Element i of the saved array is the object of record i: the order is preserved. |
| `Persistence.LoadedAt` | extraction.py:113-121 | Record i of the loaded collection comes from element i of the array: the order is preserved. |
| `Persistence.LoadAfterSave` | extraction.py:85-121 | Loading what was saved gives back the same collection: same length, same order, same fields. |
| `Persistence.SaveCollection` | extraction.py:85-96 | The save loop builds exactly the saved array. |
| `Persistence.LoadCollection` | extraction.py:108-126 | The load loop builds exactly the loaded collection, and a missing file gives an empty one. |

## Left out

- Opening the files, `readline`, iterating the file handle and the UTF-8 decoding: the input is the sequence of the file's lines.
- `json.dump` / `json.load` and the JSON text on disk: the model stops at the array of dictionaries.
- The two `print` calls: they do not affect any result.
- Errors other than a missing JSON file (unreadable or unwritable paths, malformed JSON): they are I/O failures outside the logic.
- `document.py` is not part of this model: the record is a datatype whose fields are all optional, and a fresh record has every field absent, so the extractor leaves `filteredTerms` and `stemmedTerms` as `None`.
- Whitespace is the six ASCII characters space, tab, line feed, carriage return, vertical tab and form feed; Python's `str.strip` and `str.split` also treat other Unicode spaces (and `\x1c`-`\x1f`) as whitespace.
- Persistence.FromDict: a value of the wrong kind for its key (say a string under `document_id`) is read as `None`, whereas Python, being dynamically typed, would store it as it is.
