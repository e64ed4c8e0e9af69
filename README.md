# walltag tag store, modelled in Dafny

`tagger.py` tags wallpaper files with three categories: `color`, `people` and `time`.
It keeps one row per wallpaper in a SQLite table `wallpapers(id, color, people, time)`.
A wallpaper's `id` is either a key the user gives or the MD5 hex digest of the file.
This project models the tag store, the cycling policy and the identity resolver:

- `table.dfy` (module `TagTable`) models the table as a value of type `map<string, Row>`.
  It holds the schema defaults (`warm`, `many`, `night`), the upsert that `set_tag`'s SQL performs, and the lookups `get_all_tags` and `get_tag`.
- `cycling.dfy` (module `Cycling`) holds the ordered value lists, `list.index`, the wrap-around successor and `cycle_tag` as a function on tables.
  It also proves the lemmas about cycling.
- `database.dfy` (module `Walltag`) holds the class `Database`, which models the open connection.
  Its `rows` field is what `init_schema`, `set_tag` and `cycle_tag` change in place.
  Each method is proved against the table functions above.
- `identity.dfy` (module `Identity`) models `get_file_hash`'s chunked read loop over the file's bytes, and `resolve_key`.
- `wrappers.dfy` holds `Option`, `Result` and `Outcome`.
  `None` stands for Python's `None`, and `Err`/`Fail` stand for a raised exception.

Some behaviours of the code are made explicit in the model:
- `get_tag` accepts any category string. The category `"id"` gives back the key itself.
- A stored value outside the list, for example one written by `set`, cycles to the list's second value. So does an absent row.
- Each schema default is the first value of its list. Cycling an absent row therefore gives the same result as cycling a row that holds the defaults (`CycleMissingRow`).
- `resolve_key` tests `if args.key:`. An empty key is false in Python, so it falls through to hashing. With no file name that hashing fails (`open(None)`).
- The cycle has period three, and three cycles of a listed value restore the whole table (`CycleThrice`).
  So five cycles do not return to the start: they have the same effect as two.

## Model

| member | source | states |
|---|---|---|
| `TagTable.WithColumn` | tagger.py:22 | updating one tag column sets it to the new value and keeps the other two columns |
| `TagTable.Upsert` | tagger.py:16-27 | set_tag's upsert: the key is in the new table and the targeted column holds the value. An existing row keeps its other columns; a new row gets the schema defaults in them. Every other row is unchanged, and no other key is added |
| `TagTable.AllTags` | tagger.py:30-40 | gives the empty dictionary exactly when no row has the key. Otherwise the keys are exactly id, color, people and time, the id entry is the key, and each tag entry is the stored column |
| `TagTable.GetTag` | tagger.py:43-47 | gives None exactly when the row is absent or the category is not a column name. Otherwise it gives the stored value, or the key itself for "id" |
| `TagTable.GetAfterSet` | tagger.py:16-47 | get_tag after set_tag on the same key and category gives the value that was set |
| `TagTable.SetLeavesOthers` | tagger.py:18-22 | set_tag leaves every other row's lookups unchanged. On the same row, the other columns read as before, or as a default row when the row is new |
| `TagTable.AllTagsAfterSet` | tagger.py:30-40 | after any set_tag, get_all_tags for that key has all four columns, the key as id and the value set |
| `TagTable.SetTwice` | tagger.py:21-22 | two sets of one column of one key leave the table as the second set alone would |
| `TagTable.SetSameValue` | tagger.py:21-22 | setting a column of an existing row to its current value leaves the table unchanged |
| `Cycling.CategoryValuesShape` | tagger.py:10-13 | the cyclable categories are exactly the three tag columns. Each list has three distinct values and begins with the schema default of that column (tagger.py:67-69) |
| `Cycling.IndexOf` | tagger.py:56 | list.index: the position of the first occurrence of the value |
| `Cycling.NextValue` | tagger.py:53-57 | the next value is always in the list. From a missing or unlisted value it is the list's element at index 1. From the value at index i of a list without repeats it is the element at (i+1) mod length |
| `Cycling.Cycle` | tagger.py:50-58 | fails with the KeyError exactly when the category has no value list. Otherwise the key's stored value is in the list, other rows are unchanged, and the other columns keep their old values or defaults |
| `Cycling.CycleAdvances` | tagger.py:55-57 | a stored value at index i becomes the value at index (i+1) mod 3 |
| `Cycling.CycleFromUnlisted` | tagger.py:53-54 | an absent row, or a stored value outside the list, is cycled to the list's element at index 1 |
| `Cycling.CycleMissingRow` | tagger.py:52-58 | cycling an absent key adds a row of defaults whose cycled column holds the list's second value. The result equals cycling a row that holds the defaults |
| `Cycling.CycleSetsNext` | tagger.py:55-58 | cycling a listed value is exactly set_tag of that value's successor |
| `Cycling.CycleThrice` | tagger.py:50-58 | three cycles of one category on a row holding a listed value give back the original table |
| `Cycling.CycleUnknownCategory` | tagger.py:51 | a category outside color, people and time raises the KeyError, and no table is produced |
| `Walltag.Database.Connect` | tagger.py:121 | opening a database file gives its table, or no table and no rows |
| `Walltag.Database.InitSchema` | tagger.py:61-72 | CREATE TABLE IF NOT EXISTS: afterwards the table exists and any rows already there are kept |
| `Walltag.Database.SetTag` | tagger.py:16-27 | the new rows are the upsert of the old rows, get_tag of the targeted column gives the value, and other rows are unchanged |
| `Walltag.Database.CycleTag` | tagger.py:50-58 | fails exactly on an unknown category, which leaves the rows unchanged. Otherwise the new rows are the Cycle of the old rows, and the stored value is in the category's list |
| `Walltag.ColorSession` | tagger.py:50-58 | after color is set to warm and then cycled three times, get_tag reads warm again |
| `Identity.Read` | tagger.py:79 | f.read(n) gives the next at most n bytes of the file, and fewer only at the end of the file |
| `Identity.FileHash` | tagger.py:75-83 | the chunked loop feeds exactly the whole file to the checksum, so the result is the digest of the file's contents |
| `Identity.ResolveKey` | tagger.py:86-90 | a non-empty key is returned unchanged, and no file or digest is consulted. Otherwise the result is the digest of the named file's contents, or an error when there is no file name or the file cannot be read |

## Left out

- The argparse command surface, help and `print` output (tagger.py:93-133).
  This is user-interface plumbing. ResolveKey takes the parsed key and file name as options.
- The SQLite connection, cursors and `commit`. Each write is taken as committed at once.
- `os.path.expanduser` on the database path (tagger.py:121).
  The constructor `Connect` receives the file's table directly.
- MD5 itself is not modelled. `digest` is a function parameter from the bytes fed to the checksum to the hex digest string.
  The checksum's state is modelled as the bytes fed to it so far.
- The file system is a map from readable paths to their contents.
  Every failure to open or read a path becomes the single error `UnreadableFile`.
- Walltag.Database.SetTag: requires the category to be color, people or time.
  The source interpolates any string into the SQL statement and leaves invalid names to SQLite. Those SQL errors, and the injection this allows, are not modelled.
- Walltag.Database.SetTag and Walltag.Database.CycleTag: require that the table exists.
  The program always runs `init_schema` before them, so SQLite's "no such table" error is not modelled.
- get_all_tags and get_tag are modelled as functions of the table's contents (`db.rows`), not as methods on the connection.
  For the same reason, their error when the table is missing is not modelled.
- Identity.ResolveKey is a method rather than a function, because it calls the chunked hashing loop.
- Concurrency between processes is not modelled, since the code has none of its own.
