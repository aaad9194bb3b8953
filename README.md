# Posts and CSV labs, modelled in Dafny

This project models the three pieces of program logic in the
`script-languages` lab repository. The rest of that repository is GUI
wiring, ORM set-up and HTTP plumbing.

- **lab5 — `PostRepository`** (`post_store.dfy`, module `PostStore`).
  - The `posts` table is a class holding a map from id to post and the next id to hand out.
  - The table starts empty, because the in-memory database is dropped and re-created at start-up.
  - `add_one` and `add_many` store posts under fresh ids.
  - `find_all(skip, limit)` returns a page of the listing, following SQL `OFFSET`/`LIMIT` rules.
  - `find_one`, `update_one` and `delete_one` look up, replace or remove one row and report whether it existed.
  - SQLite stores an integer in 64 bits, and Python's `sqlite3` driver raises `OverflowError` for an `int` outside that range. `@logger.catch` turns the exception into a `None` result, and nothing is committed. The model gives every method an `Option` result. It is `None` when a user id, an id, `skip` or `limit` the method binds is out of range (and, for `find_one` and `update_one`, also when the id is absent). The table is then unchanged.
  - The listing is in ascending id order. The query has no `ORDER BY`; this is the order SQLite scans a rowid table, and the model assumes it.
- **lab6 — the CSV visualizer's "Update data" action** (`visualizer.dfy`, module `Visualizer`).
  - `ValidateRow` is the chain of checks on the typed line, in order:
    1. strip the line, and refuse it if empty;
    2. split on commas, and refuse anything but five fields;
    3. Value1 must be an `int`;
    4. Value2 must be a `float`;
    5. the flag must be exactly `True` or `False`.
  - The first failing check gives the status message.
  - The class `MainWindow` holds the loaded rows, the column names, the loaded flag and the status text. `UpdateData` appends the validated row or reports the error.
  - The row and column counts of `update_statistic` are modelled.
- **lab4 — the post record and the posts client** (`post_model.dfy`, module `PostModel`, and `post_api.dfy`, module `PostApi`).
  - `Post` is the four-field tuple. Its `repr`, which is also its `str`, is shown to lose nothing.
  - `to_model` builds a `Post` from a dictionary.
  - `_to_post` normalises a record to exactly four keys.
  - `fetch_all_posts` is modelled from the point where the response's status code and decoded records are known.

The Python built-ins these need are spelled out in four supporting modules:

- `PyText`: `str.strip()` and trimming by any class of characters, `str.split(",")`, `",".join` and the search for the first occurrence of a character.
- `PyNum`:
  - what `int(text)` accepts and returns;
  - `str(n)` for an integer;
  - which texts `float(text)` accepts;
  - the whitespace `int()` and `float()` skip around their text. It is not `str.isspace()`: CPython skips only ASCII `Py_ISSPACE` characters after turning non-ASCII whitespace into spaces, so the separators U+001C to U+001F, which `strip()` removes, make `int()` and `float()` fail.
- `PyRepr`: `repr()` of a string.
- `PyValue`: dictionary lookups, with their `KeyError`, and `int()`/`str()` on dictionary values.

The code needs Python 3.12 or later: lab4/src/api/api.py:5 uses a `type` statement. Those versions refuse to convert between an integer and decimal text of more than 4300 digits (`sys.int_info.default_max_str_digits`), with `ValueError`. The model keeps that bound:
- `int()` of longer text fails. A Value1 field of that length gives "Value1 should be an integer number".
- `str()` of a longer integer fails, and so does `repr()` of a post with such an id.

Some members of these modules are plain definitions of a built-in, whose contracts only describe their own branches. They have no row in the table below: `PyRepr.QuoteFor` (the quote `repr` picks), `PyValue.Lookup` (`d[key]`), `PyValue.PyInt` (`int(v)`) and `PyValue.PyStr` (`str(v)`). What they mean is stated by `PyRepr.StrReprRoundTrip`, `PyNum.IntToStringRoundTrip`, `PyValue.PyIntOfPyStr` and the outcome lemmas of `to_model` and `_to_post`.

`_to_post` reads the key `user_id` (lab4/src/api/api.py:18). The service named in lab4's configuration (lab4/src/config/config.py:7) and the lab5 client (lab5/http_client/jp.py:34) use `userId` for that field. `PostApi.CamelCaseUserIdRefused` states what the code as written does with such a record: it raises `KeyError('user_id')`. The idempotence of `_to_post` depends on the key it reads, so the model keeps the code as written.

## Model

| member | source | states |
|---|---|---|
| PostStore.RowsListing | lab5/store/post_repository.py:78-89 | the listing holds every stored row whose id is in range and nothing else, in strictly ascending id order |
| PostStore.RowsMembership | lab5/store/post_repository.py:78-89 | a post is listed if and only if it is stored under its own id |
| PostStore.RowsExtend | lab5/store/post_repository.py:36-41 | a row stored under a new highest id appears at the end of the listing |
| PostStore.RowsFrame | lab5/store/post_repository.py:78-89 | the listing of an id range depends only on the rows stored in that range |
| PostStore.RowsRun | lab5/store/post_repository.py:56-61 | rows stored under the consecutive ids following a range are listed after that range's rows, in id order |
| PostStore.StoreAllNumbered | lab5/store/post_repository.py:58 | `add_all` of rows numbered from a first id adds exactly those ids to the table, stores each row under its id, and changes no other row |
| PostStore.PageIsSlice | lab5/store/post_repository.py:76-87 | all four skip/limit branches give one contiguous run of the listing; it starts at `skip` (0 when negative) and its length is `min(limit, rows left)`, or all rows left when `limit` is negative |
| PostStore.PostRepository.constructor | lab5/store/database.py:31-35 | the repository starts with an empty table |
| PostStore.PostRepository.AddOne | lab5/store/post_repository.py:23-41 | `None`, with the table and counter unchanged, exactly when the user id is outside 64 bits; otherwise the returned row has the input's user id, title and body and an id no stored row had; the table gains exactly that row; the listing gains it at its end |
| PostStore.PostRepository.AddMany | lab5/store/post_repository.py:43-61 | `None`, with the table and counter unchanged, exactly when some user id is outside 64 bits; otherwise one stored row per input, in input order, under fresh consecutive ids; the table's ids become the old ones plus exactly those; every new row is findable; earlier rows are unchanged; the listing gains the new rows at its end |
| PostStore.PostRepository.FindAll | lab5/store/post_repository.py:63-90 | `None` exactly when `skip` or `limit` is outside 64 bits; otherwise the result is the page of the listing for `(skip, limit)`; the defaults `(0, -1)` give every stored row; a non-negative limit bounds the length; every returned row is stored; ids ascend; the table is not changed |
| PostStore.PostRepository.FindOne | lab5/store/post_repository.py:92-110 | `None` exactly when no row has the id or the id is outside 64 bits, otherwise the stored row |
| PostStore.PostRepository.UpdateOne | lab5/store/post_repository.py:112-138 | `None` and an unchanged table exactly when the id is absent or the id or the new user id is outside 64 bits; otherwise the row with that id has its user id, title and body replaced and the updated row returned; the id set and every other row are unchanged |
| PostStore.PostRepository.DeleteOne | lab5/store/post_repository.py:140-164 | `None` and an unchanged table exactly when the id is outside 64 bits; otherwise the answer is true exactly when the id was stored, exactly that id is removed, and the listing loses exactly that row |
| PyText.TrimIsSlice | lab6/main.py:123 | trimming, `strip()` among others, gives a contiguous slice of the text, and everything cut off at either end belongs to the trimmed class |
| PyText.TrimIdempotent | lab6/main.py:133-134 | trimming twice is trimming once |
| PyText.TrimEnds | lab6/main.py:123 | the trimmed text neither starts nor ends with a character of the trimmed class |
| PyText.Split | lab6/main.py:128 | `split(",")` gives one piece more than there are commas; no piece holds a comma; joining the pieces with commas gives the text back |
| PyText.SplitJoin | lab6/main.py:128 | splitting comma-free pieces joined by commas gives the pieces back |
| PyNum.NatToString | lab4/src/store/model.py:11 | `str(n)` of a natural number is non-empty decimal digits with no leading zero |
| PyNum.IntToStringRoundTrip | lab6/main.py:135-136 | `int(str(n)) == n` for every integer of at most 4300 digits; the text of a longer integer is refused by `int()` |
| PyNum.ParsedIntFits | lab6/main.py:135-136 | every integer `int()` reads has at most 4300 digits, so `str()` can write it back |
| PyRepr.StrReprRoundTrip | lab4/src/store/model.py:11 | the quoted literal `repr` writes reads back as the original string, whatever text follows it |
| PyValue.PyIntOfPyStr | lab4/src/store/model.py:19-22 | `str()` of an integer succeeds exactly when it has at most 4300 digits, and `int()` of that text is the integer again |
| Visualizer.ValidateRow | lab6/main.py:122-131 | every failure carries one of the four input messages; an input that is blank after stripping, or does not split into five fields, gives "Input data in CSV format"; an accepted line holds exactly four commas |
| Visualizer.ValidateFields | lab6/main.py:128-147 | a field count other than five gives the format message, and every other failure is a Value1, Value2 or flag message |
| Visualizer.ValidateFieldsAccepts | lab6/main.py:128-148 | the fields are accepted if and only if there are five, Value1 is an `int`, Value2 a `float` and the stripped flag `True` or `False`; the row then holds the stripped date and category, the Value2 text `float()` read, the `int` of Value1, and a flag that is true exactly when the stripped flag reads `True` |
| Visualizer.ValidateFieldsFirstFailure | lab6/main.py:129-147 | the checks run as field count, Value1, Value2, flag, and the first that fails decides the message |
| Visualizer.FlagIsCaseSensitive | lab6/main.py:145-147 | a flag reading `true` or `false` is refused: letter case matters |
| Visualizer.FlagTextStripped | lab6/main.py:145-148 | the written flag `True`/`False` passes the flag check and reads back as the same boolean |
| Visualizer.ValidatedIsRenderable | lab6/main.py:133-148 | an accepted row has text fields without commas or surrounding whitespace, and a Value2 that `float()` accepts |
| Visualizer.RenderedLineIsStripped | lab6/main.py:123 | a row written back as a line is left alone by `strip()` |
| Visualizer.MakeRowOfFields | lab6/main.py:133-148 | building a row from the fields of a row gives that row back |
| Visualizer.ValidateFieldsOfRow | lab6/main.py:128-148 | the fields of such a row pass every check and give the row back |
| Visualizer.SplitRendered | lab6/main.py:123-128 | a row written back as a line is left alone by `strip()` and splits on commas into exactly its five fields |
| Visualizer.ValidateRender | lab6/main.py:122-148 | any row the checks could produce, written as a line, is accepted and gives back exactly that row |
| Visualizer.ValidateIdempotent | lab6/main.py:122-148 | validating the line written from an accepted row gives the same row again |
| VisualizerExamples.LineAccepted | lab6/main.py:122-148 | the line `d,c,1,2.5,True` is accepted as the row with date `d`, category `c`, Value1 1, Value2 `2.5` and flag true |
| VisualizerExamples.LowerCaseFlagRefused | lab6/main.py:145-147 | the line `d,c,1,2.5,true` passes the first checks and is refused with "BooleanFlag should be 'True' or 'False'" |
| VisualizerExamples.SeparatorBeforeValue1Refused | lab6/main.py:135-139 | a Value1 field `\x1c1` is refused with "Value1 should be an integer number", although `strip()` would remove the U+001C |
| Visualizer.MainWindow.constructor | lab6/main.py:14-22 | the window starts with no table and the status "Data is not loaded" |
| Visualizer.MainWindow.UpdateStatistic | lab6/main.py:70-81 | with a table loaded, the status starts with its row count and column count, followed by the numeric-column lines; with none, nothing changes |
| Visualizer.MainWindow.LoadTable | lab6/main.py:66-68 | after a file is read, the table is loaded and the status starts with its counts, followed by the numeric-column lines |
| Visualizer.MainWindow.AppendRow | lab6/main.py:150-168 | the row is appended at the end of the loaded table, the five row columns join its columns, and the status reads "New values added successfully" |
| Visualizer.MainWindow.UpdateData | lab6/main.py:117-168 | with no table loaded, only the status changes, to "Load CSV data before updating data"; a failed check leaves the rows and columns as they were and shows its message; an accepted line appends exactly that row at the end, adds the five row columns, and shows "New values added successfully" |
| PostModel.ToModelOutcome | lab4/src/store/model.py:17-23 | `to_model` succeeds exactly when the four keys are present, both ids convert with `int()` and both texts with `str()`, and the post holds those conversions; otherwise, in argument order, a missing key raises `KeyError` naming it and a value that does not convert raises `ValueError`, for each of the four entries |
| PostModel.ToModel | lab4/src/store/model.py:17-23 | a successful `to_model` found all four keys, and a failing one raises `ValueError` or `KeyError` for one of them |
| PostModel.ToModelOfFields | lab4/src/store/model.py:17-23 | `to_model` rebuilds a post from a dictionary of its fields when the ids are integers, and when they are decimal text `int()` can read; the text of an id of more than 4300 digits raises `ValueError` |
| PostModel.Str | lab4/src/store/model.py:13-14 | `str(post)` has the same outcome as `repr(post)`, and a post can be read back from its text |
| PostModel.Repr | lab4/src/store/model.py:10-11 | `repr(post)` raises `ValueError` exactly when an id has more than 4300 digits; otherwise the post is read back from its text |
| PostModel.ReprRoundTrip | lab4/src/store/model.py:10-11 | the `<Post:self.id=…,self.user_id=…,self.title=…,self.body=…>` text reads back as the post |
| PostModel.ReprInjective | lab4/src/store/model.py:10-11 | two posts with the same successful `repr` are equal |
| PostApi.ToPost | lab4/src/api/api.py:15-21 | a successful result has exactly the keys `id`, `user_id`, `title` and `body`, with integer, integer, text and text values |
| PostApi.ToPostOutcome | lab4/src/api/api.py:15-21 | `_to_post` succeeds exactly when the four keys are present, both ids convert with `int()` and both texts with `str()`, and keeps those conversions; otherwise, in the literal's order, a missing key raises `KeyError` naming it and a value that does not convert raises `ValueError`, for each of the four entries |
| PostApi.ToPostOfPostDict | lab4/src/api/api.py:15-21 | a dictionary already in the normalised shape is returned unchanged |
| PostApi.ToPostIdempotent | lab4/src/api/api.py:16-21 | applying `_to_post` to its own result gives that result again |
| PostApi.CamelCaseUserIdRefused | lab4/src/api/api.py:18 | a record with a good `id` and `userId` in place of `user_id` raises `KeyError('user_id')` |
| PostApi.ToModelAfterToPost | lab4/src/api/api.py:15-21 | `to_model` after `_to_post` equals `to_model` alone; both fail on the same records with the same exception |
| PostApi.MapToPost | lab4/src/api/api.py:12 | the list is accepted exactly when every record is; it then has the same length and order, element `i` being `_to_post` of record `i`; otherwise the exception is that of the first record refused |
| PostApi.FetchAllPosts | lab4/src/api/api.py:8-12 | a status other than 200 raises `ConnectionError`; otherwise one normalised post per record in order, or the first record's exception |
| PostApi.FetchedPostsModel | lab4/src/api/api.py:12 | every fetched post is in the normalised shape, and `to_model` of it succeeds and equals `to_model` of the original record |

## Left out

- PostStore.PostRepository.AddOne: ids come from a counter that no delete lowers, so an id is never reused. SQLite hands out one more than the largest id present, so a deleted highest id can come back. The contracts tie new ids to the counter: `AddOne` returns the counter and raises it by one, `AddMany` hands out the ids from the counter on, and `DeleteOne` leaves the counter alone. After the highest row is deleted, the model's next id is therefore one more than SQLite's. Only the freshness of a new id, that no stored row has it, holds in both schemes.
- PostStore.PostRepository.AddOne: the counter is unbounded. Once SQLite's largest rowid, 2^63-1, is in use, SQLite picks an unused rowid at random or fails with `SQLITE_FULL`; the model goes on counting.
- PostStore.PostRepository.FindAll: the query has no `ORDER BY`, so the listing order is an assumption of the model: ascending id.
- PostStore.PostRepository.FindAll: the class documentation gives the default `limit` as 100, but the code's default is -1, meaning every row. The model follows the code.
- Sessions, flushes, commits and transactions of the ORM are not modelled. Of the exceptions `@logger.catch` turns into `None`, only the 64-bit bind failures are modelled; database and connection errors are not. Logging is left out too.
- `find_by_title` and `lazy_add` are called by other lab5 code but are not defined in the repository, so they are not modelled.
- The SQL `LIKE` title filter in lab4's window is not modelled.
- The lab5 producer/consumer that fetches posts on two threads is not modelled. Its termination rests on a queue timeout, and it calls the missing `lazy_add`.
- HTTP requests and JSON decoding are left out. `FetchAllPosts` takes the status code and the decoded records as parameters.
- Visualizer.MainWindow.LoadTable: the file dialog and `pd.read_csv` are left out. The rows and column names that were read are parameters.
- Visualizer.MainWindow.UpdateStatistic: only the row and column counts are modelled. The minimum and maximum lines for numeric columns depend on pandas type inference and floating point, so they are a text parameter `numericLines`, appended after the counts.
- Plot drawing and every other PyQt widget call are left out.
- Visualizer.Row: Value2 is kept as the text `float()` read, without the whitespace it skips, not as a floating-point number. Floating point is not modelled, and neither is the value `float()` returns.
- PyNum.ParseInt: only the ASCII digits 0-9 count as digits. Python also accepts other Unicode decimal digits.
- PyRepr.EscapeChar: non-ASCII characters are kept verbatim. Python escapes the non-printable ones as `\x`, `\u` or `\U`.
- PyValue.Value: dictionary values are integers or strings only. That is the declared value type of `to_model` (`Dict[str, str | int]`, lab4/src/store/model.py:17). For `_to_post`, declared over `Dict[Any, Any]` (lab4/src/api/api.py:15), it is an assumption of the model. JSON floats, booleans, `null`, lists and objects are left out.
- The configuration singletons and the Pydantic schemas are used only as the record types.
