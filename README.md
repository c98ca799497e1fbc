# Strapi backup import, modelled in Dafny

This project models the core of `scripts/import-strapi-backup.py`, the script
that copies a Strapi site's content from a PostgreSQL `pg_dump` text backup
into a Supabase database. It covers three parts:

- **The COPY-block scanner** (`parse_copy_data`). The script scans the dump
  line by line for the header `COPY public.<table> (<columns>) FROM stdin;`.
  It turns each following line into a column-to-value record, with
  tab-separated fields and `\N` for NULL. It stops at the first `\.` line
  inside the block. The model is module `CopyScanner`, built on the Python
  `str` operations in module `Text`.
- **Slug derivation** (`create_slug`): lower-case the title, drop characters
  other than word characters, whitespace and `-`, collapse separator runs
  into one `-`, and keep 255 characters. The model is module `Slugs`.
- **The imports.** Each `import_*` function turns a parsed row into the
  values it writes; module `RowTransforms` models this. The values are then
  written under one of three policies, modelled in module `TableWrites`:
  - `ON CONFLICT DO NOTHING` for tags and technologies;
  - `ON CONFLICT DO UPDATE` for blog and project posts;
  - look-up-then-update-or-insert for social links.

  Module `Import` runs the six imports in `main`'s order (tags,
  technologies, landing page, social links, blog posts, project posts).
  They run on a `Destination` object whose fields are the five written
  tables. An error raised outside a per-row `try` rolls every table back.

The destination tables are maps from each table's natural key (name, slug or
link) to the row's `created_at` and its replaceable fields. The database's
`NOW()` is a parameter `now`. SQL NULL is `None` of `Option`.

Five behaviours of the script are worth stating plainly, and the model has
each of them:

- A header is only recognised when it ends in `FROM stdin;`.
- Only the first block for a table is read, because the scan stops at that
  block's terminator.
- Every line is tested against the header pattern, the data lines of
  another table's block included. A data line there that reads exactly like
  this table's header opens a block for this table, and the other table's
  rows after it are read as this table's rows up to the next `\.` line.
- A header line is recognised inside a block too. It restarts the column
  list, and the rows after it continue the same record sequence; when there
  are records, the column list returned is the last one read.
- A `likes` value `int()` rejects, a NULL title that needs a slug, and a
  NULL `updated_at` among two or more landing rows each raise outside the
  per-row `try`. Each ends the whole run and rolls every table back; the
  model returns it as an `Abort`.

## Model

| member | source | states |
|---|---|---|
| `Text.IsSpace` | scripts/import-strapi-backup.py:43 | the characters `str.isspace` accepts and `strip()` with no argument removes, also `\s` in `re`: `\t\n\v\f\r`, U+001C to U+001F, space, and the non-ASCII whitespace code points |
| `Text.IsWord` | scripts/import-strapi-backup.py:69 | the characters of `\w` taken as ASCII: letters, digits and `_` |
| `Text.Split` | scripts/import-strapi-backup.py:39 | `s.split(sep)`: the maximal separator-free pieces in order, always at least one, `[""]` for the empty text |
| `Text.TrimLeft` | scripts/import-strapi-backup.py:39 | `lstrip`: removes leading characters while they are among those stripped |
| `Text.TrimRight` | scripts/import-strapi-backup.py:39-43 | `rstrip`: removes trailing characters while they are among those stripped |
| `Text.Strip` | scripts/import-strapi-backup.py:43 | `strip`: `lstrip` then `rstrip` of the same characters |
| `Text.StrLess` | scripts/import-strapi-backup.py:190 | `a < b` on `str`: code-point lexicographic order, a proper prefix before the longer text |
| `Text.IsIntSpace` | scripts/import-strapi-backup.py:89 | the characters `int()` strips around its digits: `str.isspace` characters other than U+001C to U+001F |
| `Text.DigitCount` | scripts/import-strapi-backup.py:89 | the number of decimal digits in a text, underscores not counted, never more than its length |
| `Text.IsConvertible` | scripts/import-strapi-backup.py:89 | the digits `int()` accepts: a digit string, single underscores only between digits, of at most 4300 digits |
| `Text.ParseInt` | scripts/import-strapi-backup.py:89 | `int(text)`: strips `int()`'s whitespace, reads an optional sign and a convertible digit string, and raises (`None`) for anything else |
| `Text.SplitPieces` | scripts/import-strapi-backup.py:39 | no piece of `s.split(sep)` contains the separator |
| `Text.JoinSplit` | scripts/import-strapi-backup.py:50 | joining the pieces of a split with the separator gives back the text, so splitting loses nothing |
| `Text.SplitJoin` | scripts/import-strapi-backup.py:50 | splitting the join of separator-free pieces gives back exactly those pieces |
| `Text.SplitGlue` | scripts/import-strapi-backup.py:39 | a separator-free prefix becomes part of the first piece of what follows it |
| `Text.TrimLeftRemovesPrefix` | scripts/import-strapi-backup.py:39 | `lstrip` drops exactly the leading run of stripped characters: the result is a suffix, every dropped character is a stripped one, and the result does not start with one |
| `Text.TrimRightRemovesSuffix` | scripts/import-strapi-backup.py:43 | `rstrip` drops exactly the trailing run of stripped characters, symmetrically |
| `Text.StripKeeps` | scripts/import-strapi-backup.py:39 | a text whose first and last characters are not stripped is its own `strip` |
| `Text.StrLessIrreflexive` | scripts/import-strapi-backup.py:190 | no string is below itself under Python's `str` order |
| `Text.StrLessAsymmetric` | scripts/import-strapi-backup.py:190 | `a < b` excludes `b < a` |
| `Text.StrLessTransitive` | scripts/import-strapi-backup.py:190 | `a < b` and `b < c` give `a < c` |
| `Text.StrLessTotal` | scripts/import-strapi-backup.py:190 | any two strings are equal or ordered one way, so `max` over text keys is well defined |
| `Text.ShowNatDigits` | scripts/import-strapi-backup.py:89 | `str(n)` of a natural number is a non-empty digit string denoting `n` |
| `Text.ParseUnsigned` | scripts/import-strapi-backup.py:89 | `int()` of a digit string is the number it denotes when it has at most 4300 digits, and raises otherwise |
| `Text.ParseNegative` | scripts/import-strapi-backup.py:89 | `int()` of `-` and a digit string is that number negated, within the same digit limit |
| `Text.ParsePadded` | scripts/import-strapi-backup.py:89 | `int()` ignores leading and trailing `\t\n\v\f\r`, spaces and non-ASCII whitespace around a convertible digit string |
| `Text.ParseRejectsSeparator` | scripts/import-strapi-backup.py:89 | `int()` raises for digits preceded by one of U+001C to U+001F, although `str.isspace` counts those as whitespace |
| `Text.ParseShowInt` | scripts/import-strapi-backup.py:89 | `int(str(n)) == n` for every integer of at most 4300 digits, the numbers `str` converts |
| `CopyScanner.HeaderPrefix` | scripts/import-strapi-backup.py:30 | the literal start `COPY public.<table>` of a header, the table name taken literally as `re.escape` makes it |
| `CopyScanner.MatchHeader` | scripts/import-strapi-backup.py:30-40 | `re.match` of the header pattern on one line: the parsed columns of the group between the first `(` after the whitespace run and the last `)` before the whitespace run and `FROM stdin;` ending the line, or no match |
| `CopyScanner.IsTerminator` | scripts/import-strapi-backup.py:43 | the line with surrounding whitespace stripped is exactly `\.` |
| `CopyScanner.FieldValue` | scripts/import-strapi-backup.py:54-59 | a field is NULL when it is exactly `\N`, else its text unchanged |
| `CopyScanner.Record` | scripts/import-strapi-backup.py:51-59 | the record of a data line: each column at a position that has a field is bound to that field's value, a later column of the same name overwriting an earlier one |
| `CopyScanner.Scan` | scripts/import-strapi-backup.py:33-60 | the line loop as a state machine: a header line opens a block with its columns; inside a block a terminator ends the scan, and any other line is split at tabs into one more record; outside a block other lines are skipped |
| `CopyScanner.CopyData` | scripts/import-strapi-backup.py:25-63 | `parse_copy_data`: the records of the scan from the start, closed, with no columns; the columns returned only when there are records |
| `CopyScanner.HeaderAt` | scripts/import-strapi-backup.py:30 | a line with the prefix, whitespace, `(` … `)`, whitespace and the tail at the end is a header whose columns come from the text between the parentheses |
| `CopyScanner.HeaderComplete` | scripts/import-strapi-backup.py:30-39 | every line `COPY public.<table>` + non-empty whitespace + `(group)` + non-empty whitespace + `FROM stdin;`, with no newline in `group`, opens a block whose columns are the parsed `group` |
| `CopyScanner.HeaderPositions` | scripts/import-strapi-backup.py:30-39 | an accepted header has the prefix, a whitespace run up to `(`, a `)` followed by a whitespace run up to `FROM stdin;`, and its columns are parsed from between the parentheses |
| `CopyScanner.HeaderSound` | scripts/import-strapi-backup.py:30-39 | conversely, every accepted line is exactly prefix + whitespace + `(group)` + whitespace + tail, for the returned pieces, and its columns come from that group |
| `CopyScanner.HeaderNamesOneTable` | scripts/import-strapi-backup.py:30 | the table name is matched literally: a header line for one identifier is never a header for another, so another table's header never opens a block for this table |
| `CopyScanner.TerminatorIsNotHeader` | scripts/import-strapi-backup.py:36-45 | a line whose whitespace-stripped text is `\.` is never taken for a header |
| `CopyScanner.RecordKeys` | scripts/import-strapi-backup.py:52-59 | a column is a key of the record iff one of its positions is below the number of fields, so short rows have fewer keys and extra fields are ignored |
| `CopyScanner.RecordValue` | scripts/import-strapi-backup.py:52-59 | a column's value is `None` iff its field is exactly `\N`, and otherwise the untrimmed field text (an empty field stays `Some("")`) |
| `CopyScanner.BuildRow` | scripts/import-strapi-backup.py:50-60 | the field-by-field loop builds exactly `Record(columns, fields)`, whose keys and values the two lemmas above describe |
| `CopyScanner.ParseCopyData` | scripts/import-strapi-backup.py:25-63 | the line loop, with its block flag, column list, `continue` and `break`, returns exactly `CopyData`, the scan the lemmas below describe |
| `CopyScanner.ScanSkips` | scripts/import-strapi-backup.py:34-48 | outside a block, lines that are not this table's header add nothing |
| `CopyScanner.ScanReadsBody` | scripts/import-strapi-backup.py:43-60 | inside a block, the data lines add one record each, in line order |
| `CopyScanner.ParseColumns` | scripts/import-strapi-backup.py:39-48 | a parsed column list is never empty, so the `columns` test before reading a data line always passes once a header is read |
| `CopyScanner.CopyDataOfBlock` | scripts/import-strapi-backup.py:34-63 | for a dump of the form other lines, header, data lines, then either the end or a terminator followed by anything: the records are one per data line in order, the header is not among them, later blocks are ignored, and the columns are returned iff there are records |
| `CopyScanner.CopyDataHeaderInBlock` | scripts/import-strapi-backup.py:34-63 | a second header inside the block restarts the column list: the rows before it are read with the first columns, the rows after it with the second, all in one record sequence, and the returned column list is the second one iff there are records |
| `CopyScanner.ScanKeepsColumns` | scripts/import-strapi-backup.py:36-60 | records are only added after a column list has been read |
| `CopyScanner.CopyDataColumns` | scripts/import-strapi-backup.py:63 | the returned column list is `None` exactly when there are no records, an empty block included |
| `CopyScanner.CopyDataWithoutHeader` | scripts/import-strapi-backup.py:33-63 | a dump without a header for the table yields no records and no column list |
| `CopyScanner.ParseColumnsStep` | scripts/import-strapi-backup.py:39 | the columns of `c, rest` are `c` followed by the columns of `rest`, for a plain name `c` |
| `CopyScanner.ParseColumnListText` | scripts/import-strapi-backup.py:39 | a list of plain column names written as `a, b, c` is parsed back to exactly that list |
| `CopyScanner.HeaderLineMatches` | scripts/import-strapi-backup.py:30-39 | the header `pg_dump` writes for a table and its columns is recognised, and yields those columns |
| `Slugs.KeepSlugChars` | scripts/import-strapi-backup.py:69 | `re.sub(r"[^\w\s-]", "", s)`: the word, whitespace and `-` characters of the text, in order; never longer than the text |
| `Slugs.Collapse` | scripts/import-strapi-backup.py:70 | `re.sub(r"[-\s]+", "-", s)`: each maximal run of whitespace and `-` replaced by one `-`, other characters kept in order |
| `Slugs.Lower` | scripts/import-strapi-backup.py:68 | lower-casing keeps the length, leaves no upper-case letter and changes no character's word or whitespace class |
| `Slugs.KeepSlugCharsKeeps` | scripts/import-strapi-backup.py:69 | the filter keeps only word characters, whitespace and `-`; it keeps a text made only of those unchanged; it adds no upper-case letter |
| `Slugs.KeepAppend` | scripts/import-strapi-backup.py:69 | the filter works character by character: it distributes over concatenation |
| `Slugs.CollapseStart` | scripts/import-strapi-backup.py:70 | the collapsed text starts with `-` exactly when the text starts with a separator |
| `Slugs.CollapseShape` | scripts/import-strapi-backup.py:70 | collapsing a text of slug characters and whitespace leaves only slug characters and no two adjacent hyphens |
| `Slugs.CollapseFixed` | scripts/import-strapi-backup.py:70 | collapsing leaves a text already in slug form unchanged |
| `Slugs.CollapseWordThen` | scripts/import-strapi-backup.py:70 | a separator-free prefix passes through collapsing unchanged |
| `Slugs.Slug` | scripts/import-strapi-backup.py:71 | a slug is at most 255 characters long |
| `Slugs.SlugShape` | scripts/import-strapi-backup.py:66-71 | a slug is at most 255 characters of lower-case word characters and `-`, with no whitespace and never two adjacent hyphens |
| `Slugs.SlugIdempotent` | scripts/import-strapi-backup.py:66-71 | making a slug of a slug changes nothing |
| `Slugs.SlugExample` | scripts/import-strapi-backup.py:66-71 | `"Hello, World!"` becomes `"hello-world"` |
| `TableWrites.Fresh` | scripts/import-strapi-backup.py:290-291 | the row a conflict-free insert stores: the item's `created_at` and fields |
| `TableWrites.InsertIfAbsent` | scripts/import-strapi-backup.py:290-292 | `INSERT ... ON CONFLICT DO NOTHING`: a stored key keeps its row, a new key gets the item's row; afterwards the key is always present |
| `TableWrites.Upsert` | scripts/import-strapi-backup.py:102-110 | `INSERT ... ON CONFLICT DO UPDATE`: a stored key keeps its `created_at` and takes the item's fields, a new key gets the item's row; afterwards the key holds the item's fields |
| `TableWrites.InsertAll` | scripts/import-strapi-backup.py:284-300 | the items inserted one after the other, in order, with `ON CONFLICT DO NOTHING` |
| `TableWrites.UpsertAll` | scripts/import-strapi-backup.py:82-129 | the items upserted one after the other, in order |
| `TableWrites.InsertAllAt` | scripts/import-strapi-backup.py:290-292 | after inserting with `ON CONFLICT DO NOTHING`: a stored key keeps its row, a new key holds the row of the first item with that key (first wins), and no other key appears |
| `TableWrites.UpsertAllAt` | scripts/import-strapi-backup.py:102-110 | after upserting: a key holds the fields of the last item with that key, keeps the `created_at` it was first stored with, keys no item names are untouched, and no other key appears |
| `TableWrites.InsertAllIdempotent` | scripts/import-strapi-backup.py:317-319 | inserting the same items again changes nothing |
| `TableWrites.UpsertAllIdempotent` | scripts/import-strapi-backup.py:152-159 | upserting the same items again changes nothing |
| `RowTransforms.Truthy` | scripts/import-strapi-backup.py:85 | Python truthiness of an optional text: present and not empty |
| `RowTransforms.Stamp` | scripts/import-strapi-backup.py:103 | `COALESCE(value, NOW())`: the value, or the clock reading when it is NULL |
| `RowTransforms.TagStep` | scripts/import-strapi-backup.py:284-295 | a `tags` row becomes the write of its name, falling back to `tag` and `"Uncategorized"` |
| `RowTransforms.TechnologyStep` | scripts/import-strapi-backup.py:311-322 | a `technologies` row becomes the write of its name, falling back to `technology` and `"Unknown"` |
| `RowTransforms.SocialStep` | scripts/import-strapi-backup.py:230-270 | a `social_links` row becomes `SocialOutcome` of it |
| `RowTransforms.BlogStep` | scripts/import-strapi-backup.py:82-123 | a `blog_posts` row becomes `BlogOutcome` of it |
| `RowTransforms.ProjectStep` | scripts/import-strapi-backup.py:140-171 | a `project_posts` row becomes `ProjectOutcome` of it |
| `RowTransforms.UpdatedKey` | scripts/import-strapi-backup.py:190 | the key `max` compares a landing row by: `row.get("updated_at", "")` |
| `RowTransforms.Get` | scripts/import-strapi-backup.py:84 | `row.get(key, default)` gives the stored value, `None` included, when the key is present, and the default only when it is absent |
| `RowTransforms.IsPublished` | scripts/import-strapi-backup.py:95-97 | `is_published` holds iff `published_at` is present, not NULL and not the text `\N` |
| `RowTransforms.Likes` | scripts/import-strapi-backup.py:88-92 | `likes` is 0 when absent, NULL, empty or `\N`; otherwise `int(value)`, and a value `int` rejects (malformed, padded with U+001C to U+001F, or over 4300 digits) ends the run with that text |
| `RowTransforms.LikesReadsNumber` | scripts/import-strapi-backup.py:88-92 | a `likes` field holding `str(n)`, for `n` of at most 4300 digits, yields `n` |
| `RowTransforms.NameFrom` | scripts/import-strapi-backup.py:285 | the name is `name` when truthy, otherwise the fallback column's value (`None` included), with the default only when that column is absent |
| `RowTransforms.NameOutcome` | scripts/import-strapi-backup.py:284-295 | a tag or technology row writes its derived name with `created_at`/`updated_at` or `now` for NULL, writes nothing when the name is NULL, and never ends the run |
| `RowTransforms.SocialOutcome` | scripts/import-strapi-backup.py:231-270 | a row is skipped iff its `link` is absent, NULL or empty; otherwise it writes under the link, with display name and icon defaulted only when absent, and never ends the run |
| `RowTransforms.BlogSlug` | scripts/import-strapi-backup.py:84-85 | the blog slug is the row's `slug` when truthy, otherwise `create_slug(title)` with `"Untitled"` for an absent title, and a NULL title ends the run |
| `RowTransforms.BlogOutcome` | scripts/import-strapi-backup.py:84-123 | a blog row writes under its slug the title, content, summary, likes, published flag and `updated_at`, with the stated defaults; it ends the run iff the slug or `likes` fails, the slug error first |
| `RowTransforms.ProjectOutcome` | scripts/import-strapi-backup.py:141-171 | a project row writes under `create_slug(title)` its title, summary, URL, published flag and `updated_at`; it ends the run iff the title is NULL |
| `RowTransforms.DerivedSlugShape` | scripts/import-strapi-backup.py:85 | every slug derived from a title, blog or project, is a well-formed slug of at most 255 characters |
| `RowTransforms.LatestIndex` | scripts/import-strapi-backup.py:190 | `max` by key returns a position whose key is greatest and strictly above every earlier key, so ties go to the first |
| `RowTransforms.LatestIndexUnique` | scripts/import-strapi-backup.py:190 | that position is the only one that is greatest with no equal key before it |
| `RowTransforms.SelectLanding` | scripts/import-strapi-backup.py:183-191 | no rows: no landing row; otherwise a row is always chosen unless the run ends: one row is chosen itself; with two or more the run ends iff some `updated_at` is NULL, else the first row with the greatest `updated_at` (text order, `""` when absent) is chosen |
| `RowTransforms.LandingFrom` | scripts/import-strapi-backup.py:193-195 | header, description and sub-headers default to `"Welcome"`, `""` and `""` only when absent |
| `Import.Collect` | scripts/import-strapi-backup.py:82-129 | a table's rows processed in order: the writes of the rows in row order, skipped rows adding nothing, up to the first row that raises, whose error ends the processing |
| `Import.Extend` | scripts/import-strapi-backup.py:82-129 | one more row processed: nothing changes once stopped; otherwise a write is appended, a skip adds nothing, a raise stops with its error |
| `Import.TableRows` | scripts/import-strapi-backup.py:76 | the rows `parse_copy_data` returns for a table of the dump |
| `Import.Landing` | scripts/import-strapi-backup.py:180-195 | `import_landing_page` up to its write: no content without rows, the content of the chosen row, or the error that ends the run |
| `Import.ImportNamed` | scripts/import-strapi-backup.py:353-354 | tags then technologies: each table becomes the first-wins insertion of its rows' writes |
| `Import.ImportPosts` | scripts/import-strapi-backup.py:357-358 | blog posts then project posts, each upserted, or the error of the first row that raises, blog posts first |
| `Import.ImportContent` | scripts/import-strapi-backup.py:356-358 | social links upserted, then `ImportPosts` |
| `Import.ImportAll` | scripts/import-strapi-backup.py:351-358 | the whole run on values: tags and technologies, the landing page, then social links and the posts; the final tables and the landing content, or the first error raised |
| `Import.CollectStopped` | scripts/import-strapi-backup.py:82-92 | rows after the one that raised are never looked at |
| `Import.CollectStopsAtFirst` | scripts/import-strapi-backup.py:82-92 | processing a table's rows ends early iff some row raises, and then with the error of the first such row |
| `Import.ImportAllKeepsStored` | scripts/import-strapi-backup.py:104-110 | a completed run never changes a stored tag or technology, nor the `created_at` of a stored social link, blog post or project post, and removes no key |
| `Import.ImportAllIdempotent` | scripts/import-strapi-backup.py:353-358 | with a fixed `now`, importing the same dump again after a completed run leaves every modelled table as it was |
| `Import.ImportLandingPage` | scripts/import-strapi-backup.py:180-195 | returns the landing content of the chosen row as `Landing` describes, or the run-ending error |
| `Import.InsertEach` | scripts/import-strapi-backup.py:284-300 | the row loop with insert-if-absent writes leaves exactly `InsertAll` of the collected writes and returns the error that stopped it, if any |
| `Import.UpsertEach` | scripts/import-strapi-backup.py:82-129 | the row loop with upserts leaves exactly `UpsertAll` of the collected writes and returns the error that stopped it, if any |
| `Import.LookUpThenWriteEach` | scripts/import-strapi-backup.py:230-273 | the look-up-then-update-or-insert loop has the effect of one upsert per row: exactly `UpsertAll` of the collected writes |
| `Import.Destination.Restore` | scripts/import-strapi-backup.py:366-367 | the rollback puts every table back as saved |
| `Import.Destination.ImportTags` | scripts/import-strapi-backup.py:276-300 | the tags table becomes the first-wins insertion of the rows' writes |
| `Import.Destination.ImportTechnologies` | scripts/import-strapi-backup.py:303-327 | the technologies table becomes the first-wins insertion of the rows' writes |
| `Import.Destination.ImportSocialLinks` | scripts/import-strapi-backup.py:222-273 | the social links table becomes the upsert of the rows' writes |
| `Import.Destination.ImportBlogPosts` | scripts/import-strapi-backup.py:74-129 | the blog posts table becomes the upsert of the writes before the first raising row, and that row's error is returned |
| `Import.Destination.ImportProjectPosts` | scripts/import-strapi-backup.py:132-177 | the same for project posts |
| `Import.Destination.ImportNamedTables` | scripts/import-strapi-backup.py:353-354 | tags then technologies: the tables become `ImportNamed` of the old ones |
| `Import.Destination.ImportPostTables` | scripts/import-strapi-backup.py:357-358 | blog posts then project posts: the tables of `ImportPosts`, or its error |
| `Import.Destination.ImportContentTables` | scripts/import-strapi-backup.py:356-358 | social links, then the posts: the tables of `ImportContent`, or its error |
| `Import.Destination.ImportInOrder` | scripts/import-strapi-backup.py:352-358 | the six imports in order: on completion the tables and landing content of `ImportAll`, otherwise its error |
| `Import.Destination.Run` | scripts/import-strapi-backup.py:351-369 | the transaction: a completed run leaves the tables `ImportAll` describes; a run that raises returns the error and leaves every table as it was |

## Left out

- The database connection, cursor, `execute`, `fetchone`, `RETURNING id`,
  `DB_CONFIG`, `conn.commit()`, `sys.exit` and the connection's failure
  path. These are foreign calls and process plumbing; the tables are maps.
- Opening the backup file, its encoding and the universal-newline
  translation. The scanner is given the file's lines without their
  terminators.
- Console output (`print`) throughout.
- Timestamp casts (`%s::timestamp`). Timestamps are opaque text, and a text
  the database would reject is not modelled.
- The landing-page write (`ON CONFLICT (id)` on a column the insert never
  supplies). Its effect depends on table definitions that are not part of
  this model, so only the row selection and field defaults are modelled.
- Per-row storage failures inside the `try` blocks: constraint violations,
  bad timestamps, connection errors. After such a failure PostgreSQL aborts
  the transaction, so every later statement also fails and the final commit
  keeps nothing. The model assumes no such failure occurs, with one
  exception, next line.
- RowTransforms.NameOutcome: a tag or technology whose name comes out NULL
  is taken as a row the store rejects and is skipped, as the per-row
  handler intends. The aborted-transaction effect of that rejection is not
  modelled.
- Slugs.Lower: lower-cases ASCII letters only. `str.lower()` also maps
  non-ASCII letters.
- Slugs.KeepSlugChars: `\w` is taken as `[A-Za-z0-9_]`. Python's Unicode
  `\w` also keeps non-ASCII letters and digits, which this model drops.
- Text.ParseInt: `int()` is modelled on ASCII digits only. Python also
  accepts other Unicode decimal digits. The 4300-digit limit is the default
  of current interpreters; a limit changed with `PYTHONINTMAXSTRDIGITS` or
  `-X int_max_str_digits`, and older interpreters without a limit, are not
  modelled.
