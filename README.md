# Obsidian note generators, modelled in Dafny

Three scripts keep a Markdown vault ("the brain") up to date:

- `bin/ob-indexer.py` refreshes every index block in the notes. A block
  starts at a line `%%+BEGIN: indexer%%` and is followed by a fenced
  ```` ```jinja2 ```` block. The first fenced line is a discovery query
  with three characters of quoting at each end. The remaining fenced lines
  are a template. The template is rendered over one record per discovered
  note (`build_item`: stem, title, `key:: value` lines, YAML front matter
  and a wiki link `ref`). The rendering replaces the old region, which ends
  at `%%+END%%`.
- `bin/ob-calibre.py` writes one note per book of a Calibre catalog. The
  note's name is built from the id, the brief authors and the safe title.
  The note holds a tag line, a "Meta" section and an optional "Comments"
  section.
- `bin/ob-bookmarks.py` exports the browser's bookmark tree. Each folder
  gets one Markdown file in its own directory, with one line (or one fenced
  bookmarklet) per child. The root is the "other" folder renamed `Roots`,
  with the bookmark bar put in front of its children.

All three replace a target file only when it is missing or its content
differs.

The project is organised as follows:

- `wrappers.dfy` holds `Option` and `MapAll`, a map that fails when any
  element fails.
- `text.dfy` holds the Python string builtins the scripts use: `find`,
  `in`, `split`, `'\n'.join`, `splitlines`, `strip` and `textwrap.indent`.
- `filesync.dfy` holds the file tree as a `map<Path, string>` and the
  replace-if-different rule, as functions over the tree. It also holds a
  `FileStore` class whose methods update the tree in place.
- `indexer.dfy` models `build_item`, `render_index` and `refresh_file`
  (a specification function `Refresh` and a method `RefreshFile` that
  mirrors the loop), and the loop over the notes.
- `indexer_laws.dfy` proves the properties of the refresher: pass-through,
  block replacement, region skipping, idempotence, and the second run
  writing nothing.
- `calibre.dfy` models `safe_name`, `brief_authors` and the row loop.
- `bookmarks.dfy` models `export_bookmarks_folder`, the root merge and the
  final copy of the scratch tree.

External collaborators are function-valued parameters:

- the discovery shell command, the YAML loader and jinja2 (`Indexer.Env`);
- `datetime.fromisoformat`/`strftime` and `urllib.parse.quote`
  (`Calibre.Externals`);
- the 7-character SHA-256 prefix (`digest` in `Bookmarks`).

An exception is `None` of an `Option`.

## Model

| member | source | states |
|---|---|---|
| Wrappers.MapAll | bin/ob-indexer.py:60-63 | The list of records, built one per discovered file; when it succeeds it has one record per file |
| Wrappers.MapAllEach | bin/ob-indexer.py:60-63 | Building the list succeeds iff every file's record does, and then element k is file k's record |
| Text.IndexOf | bin/ob-indexer.py:39-40 | `str.find`: -1 iff the pattern does not occur, else the first position where it occurs |
| Text.Contains | bin/ob-indexer.py:39 | `pat in s` holds iff the pattern occurs in s |
| Text.SplitOn | bin/ob-calibre.py:43 | `str.split(sep)` always gives at least one piece |
| Text.SplitOnPieces | bin/ob-calibre.py:43 | No piece of `str.split(sep)` contains the separator |
| Text.JoinSplit | bin/ob-bookmarks.py:32-34 | Joining the pieces of `split(sep)` with `sep` gives the original string back |
| Text.FirstPiece | bin/ob-calibre.py:22 | The first piece of `split(sep)` is the text before the first occurrence of sep (or all of it) |
| Text.Lines | bin/ob-indexer.py:26 | `splitlines()` gives lines that contain no newline |
| Text.LinesUnlines | bin/ob-indexer.py:73-75 | Splitting text printed line by line gives the same lines back |
| Text.SplitJoinLines | bin/ob-bookmarks.py:60 | Splitting lines joined with `'\n'` gives the same lines back |
| Text.IndentLines | bin/ob-bookmarks.py:60 | `textwrap.indent(text, prefix)` has as many lines as the text; line k is the prefix followed by the text's line k, or that line unchanged when it is blank |
| Text.UnlinesLines | bin/ob-indexer.py:73-75 | Printing every line of a text gives the text back, with a final newline added when it lacked one |
| Text.Strip | bin/ob-calibre.py:17 | `str.strip()` result starts and ends with a non-space, and is a slice of the input with only whitespace cut at both ends |
| Text.StripTrimmed | bin/ob-calibre.py:17 | Stripping text with no whitespace at its ends changes nothing |
| FileSync.SyncSettles | bin/ob-bookmarks.py:80-82 | After the generated files have been copied over a tree, copying them again replaces none |
| FileSync.ReplaceEach | bin/ob-calibre.py:34-105 | Writing generated files one after another in order keeps every existing file |
| FileSync.ReplaceEachOk | bin/ob-calibre.py:34-105 | The run finishes iff every job's content could be generated |
| FileSync.ReplaceEachFrame | bin/ob-calibre.py:100-102 | A file that no job targets keeps its content |
| FileSync.ReplaceEachResult | bin/ob-calibre.py:100-102 | With distinct targets, each target ends holding its content, and it is replaced iff it was missing or held something else |
| FileSync.WrittenTargets | bin/ob-calibre.py:100-102 | Only job targets are ever replaced |
| FileSync.QuietJobs | bin/ob-calibre.py:100-102 | Jobs whose targets already hold their content replace nothing |
| FileSync.ReplaceEachTwice | bin/ob-calibre.py:100-102 | Running the same jobs again over the result replaces nothing |
| FileSync.FileStore.Write | bin/ob-bookmarks.py:21 | Writing a file sets its content and leaves every other file alone |
| FileSync.FileStore.ReplaceIfDifferent | bin/ob-indexer.py:114-115 | The target ends holding the content; it was replaced iff it was missing or differed; otherwise the tree is unchanged |
| FileSync.FileStore.SyncFrom | bin/ob-bookmarks.py:74-85 | Every generated file ends in the tree; the set reported as new is exactly the generated files that were missing or differed |
| Indexer.MetaLineSplit | bin/ob-indexer.py:39-41 | A `key:: value` line is its key, `":: "` and its value, and the key holds no `":: "` |
| Indexer.MetaRun | bin/ob-indexer.py:38-43 | The scanned run is the longest prefix of lines that all contain `":: "` |
| Indexer.ScanMeta | bin/ob-indexer.py:38-43 | The scan of `key:: value` lines only adds keys to the record |
| Indexer.FenceIndex | bin/ob-indexer.py:32 | The front matter ends at the first `---` line after the opening one, or at the end of the file |
| Indexer.Fields | bin/ob-indexer.py:20-46 | The record read from a note always has a stem |
| Indexer.ItemOf | bin/ob-indexer.py:20-54 | A built record has stem, title and ref, and ref is `[[stem]]` when title equals stem and `[[stem\|title]]` otherwise |
| Indexer.BuildItem | bin/ob-indexer.py:20-54 | The imperative record builder computes `ItemOf` |
| Indexer.ScanLoop | bin/ob-indexer.py:38-43 | The `for line in chain(...)` loop computes the scan `ScanMeta` |
| Indexer.ScanMetaStops | bin/ob-indexer.py:42-43 | The scan stops at the first line without `":: "`; later lines play no part |
| Indexer.ScanMetaInOrder | bin/ob-indexer.py:39-41 | Each scanned line sets its key to its value, later lines overriding earlier ones |
| Indexer.ScanMetaKeeps | bin/ob-indexer.py:38-43 | A key that no scanned line sets keeps its presence and value |
| Indexer.EmptyFileItem | bin/ob-indexer.py:29-30 | An empty note gives exactly `{stem, title = stem, ref = [[stem]]}` |
| Indexer.ScanMetaLast | bin/ob-indexer.py:38-43 | A key ends up with the value of the last scanned line that sets it |
| Indexer.ItemScanned | bin/ob-indexer.py:34-43 | Without front matter, scanning starts after a `# ` heading and at the first line otherwise; any key but `ref` set by a scanned line ends in the record with the value of the last scanned line that sets it |
| Indexer.HeadingTitle | bin/ob-indexer.py:34-36 | A first line `# T` makes T the title, unless a `title::` line overrides it, and ref is computed from it |
| Indexer.PlainTitle | bin/ob-indexer.py:48-53 | Without front matter, heading or `title::` line, the title is the stem and ref is `[[stem]]` |
| Indexer.FrontMatterCutoff | bin/ob-indexer.py:31-33 | After front matter, the record is the stem updated with the YAML up to the next `---`; no `key:: value` line is merged |
| Indexer.FenceNotMeta | bin/ob-indexer.py:38-43 | The `---` line holds no `":: "`, so a scan restarted on it stops at once |
| Indexer.RenderIndex | bin/ob-indexer.py:57-65 | The imperative loop builds one record per discovered file and renders the template over them, failing when any step fails |
| Indexer.QueryOf | bin/ob-indexer.py:92 | `line[3:-3]` is the line with three characters cut from each end, or empty for lines of six characters or fewer |
| Indexer.PrintedRegion | bin/ob-indexer.py:84-87 | The closing fence is followed by a blank line, the stripped rendering, a blank line and `%%+END%%` |
| Indexer.RefreshFile | bin/ob-indexer.py:68-97 | The four-state loop computes the specification `Refresh` of the note |
| Indexer.RefreshAll | bin/ob-indexer.py:102-118 | Refreshing notes keeps the set of files, and only listed notes are ever written |
| Indexer.RefreshNotes | bin/ob-indexer.py:102-118 | The loop over the notes computes `RefreshAll`: the new tree, the files rewritten and whether it finished |
| IndexerLaws.NormalRun | bin/ob-indexer.py:74-77 | Lines before a begin marker are copied unchanged |
| IndexerLaws.HeaderRun | bin/ob-indexer.py:78-81 | Lines between the begin marker and the opening fence are copied unchanged |
| IndexerLaws.TemplateRun | bin/ob-indexer.py:91-94 | Fenced lines after the query are copied and appended to the template in order |
| IndexerLaws.RegionSkipped | bin/ob-indexer.py:95-97 | Lines of the old region before `%%+END%%` are dropped |
| IndexerLaws.RegionEnd | bin/ob-indexer.py:96-97 | `%%+END%%` is dropped and copying resumes in the normal state with nothing remembered |
| IndexerLaws.PassThrough | bin/ob-indexer.py:73-77 | A note without a begin-marker line is rewritten as itself, newline-terminated |
| IndexerLaws.OpenBlock | bin/ob-indexer.py:74-81 | The text up to and including the opening fence is copied, and the machine then waits for a query |
| IndexerLaws.QueryAndTemplate | bin/ob-indexer.py:91-94 | The first fenced line is copied and becomes the query, cut three characters at each end; the rest are copied and form the template |
| IndexerLaws.CloseFence | bin/ob-indexer.py:84-90 | At the closing fence the new region is printed, the old one is dropped up to `%%+END%%`, and the rest starts afresh |
| IndexerLaws.CloseBlock | bin/ob-indexer.py:82-97 | A whole fenced block and its old region become the block, the region rendered from its query and joined template, and the refreshed rest |
| IndexerLaws.RefreshBlock | bin/ob-indexer.py:68-97 | A note with one index block is refreshed to its text with the region re-rendered, and the rest refreshed the same way |
| IndexerLaws.MissingQuery | bin/ob-indexer.py:86 | A closing fence right after the opening one renders with no query and fails |
| IndexerLaws.RunIdempotent | bin/ob-indexer.py:68-97 | A second pass over the lines printed by a pass, from the corresponding state, prints them again |
| IndexerLaws.SecondClose | bin/ob-indexer.py:84-90 | On a second pass, the closing fence renders the same region and skips the one printed before |
| IndexerLaws.RefreshIdempotent | bin/ob-indexer.py:68-97 | Refreshing a refreshed note gives the same note, for a renderer whose output holds no `%%+END%%` line |
| IndexerLaws.RefreshAllFrame | bin/ob-indexer.py:102-118 | A file that is not a listed note keeps its content |
| IndexerLaws.RefreshAllResult | bin/ob-indexer.py:114-115 | Each distinct note ends holding its refresh, and is written iff that refresh differs from it |
| IndexerLaws.QuietRun | bin/ob-indexer.py:114-115 | Notes that are already fresh are not written |
| IndexerLaws.SecondRunWritesNothing | bin/ob-indexer.py:102-118 | A second run over the result of a run writes no file |
| Calibre.SkipRun | bin/ob-calibre.py:13 | The end of a maximal run of forbidden characters |
| Calibre.Collapse | bin/ob-calibre.py:13 | Substituting a space for each forbidden run leaves no forbidden character but lone spaces, and every other character comes from the input |
| Calibre.CollapseKeeps | bin/ob-calibre.py:13 | Substitution keeps every allowed character of the input, in order |
| Calibre.CollapseSplit | bin/ob-calibre.py:13 | Text that ends with an allowed character is substituted independently of what follows it |
| Calibre.CollapseWholeRun | bin/ob-calibre.py:13 | A maximal forbidden run at the start becomes exactly one space |
| Calibre.CollapseRun | bin/ob-calibre.py:13 | Each maximal forbidden run between allowed characters (or the ends of the text) becomes exactly one space, and the two sides are substituted unchanged |
| Calibre.SafeNameJoins | bin/ob-calibre.py:16-17 | Two clean words joined by a forbidden run come out of `safe_name` joined by one space |
| Calibre.SafeNameClean | bin/ob-calibre.py:16-17 | A safe name has no forbidden character but single spaces, no two spaces in a row and no whitespace at either end |
| Calibre.SafeNameIdempotent | bin/ob-calibre.py:16-17 | `safe_name(safe_name(s)) == safe_name(s)` |
| Calibre.SafeNameWithout | bin/ob-calibre.py:16-17 | A safe name adds no character but spaces |
| Calibre.SafeNameDrops | bin/ob-calibre.py:16-17 | A forbidden character other than space never survives `safe_name` |
| Calibre.BriefAuthorsOne | bin/ob-calibre.py:20-23 | With an `&` the brief is the safe name of the stripped text before the first `&` plus " et al"; otherwise the safe name of all authors |
| Calibre.BriefAuthorsDrops | bin/ob-calibre.py:20-23 | The brief holds no forbidden character other than space |
| Calibre.BriefAuthorsNoAmpersand | bin/ob-calibre.py:20-23 | The brief holds no `&` |
| Calibre.NoteNameFlat | bin/ob-calibre.py:36-38 | The note's file name holds no `/` when the id holds none, so the note lands in the export directory |
| Calibre.Prefixed | bin/ob-calibre.py:43 | Each item gets the prefix, one tag per item, in order |
| Calibre.LangTagsFollowCodes | bin/ob-calibre.py:46-49 | `#lang/en` is present iff `eng` occurs, `#lang/zh` iff `zho` occurs, English first |
| Calibre.RatingTagOne | bin/ob-calibre.py:54-57 | The last tag is `[[Books to Read]]` iff the rating is empty, else `#rating/` and the rating |
| Calibre.TagListOrder | bin/ob-calibre.py:43-59 | The tags are the user tags, `#from/calibre`, the language tags, the format tags and the rating tag, in that order |
| Calibre.CollectTags | bin/ob-calibre.py:43-57 | The appends build `TagList` |
| Calibre.AuthorLinksOne | bin/ob-calibre.py:65-67 | One author gives one link ` [[safe_name(author.strip())]]` |
| Calibre.AuthorLinksAppend | bin/ob-calibre.py:65-67 | The links follow the `&`-separated authors in order |
| Calibre.WriteAuthorLinks | bin/ob-calibre.py:64-68 | The print loop writes `AuthorLinks` |
| Calibre.MetaSections | bin/ob-calibre.py:64-84 | The "Meta" section opens with the authors and ends with the Calibre link. Publisher, publication date, update date and series appear iff the field is non-empty or the year is after 1000 |
| Calibre.NoteWritten | bin/ob-calibre.py:71-92 | A note is produced iff both dates parse and any cover lies under a `Dropbox` directory |
| Calibre.NoteSplit | bin/ob-calibre.py:40-97 | A note is its head, its "Meta" section, its cover links and its comments, in that order |
| Calibre.NoteOpening | bin/ob-calibre.py:41-63 | A note starts with the title, blank, the tag line, blank, `## Meta`, blank, then the "Meta" section |
| Calibre.CoverKinds | bin/ob-calibre.py:86-92 | The cover links include a Dropbox link iff there is a cover, and no comments heading |
| Calibre.CommentKinds | bin/ob-calibre.py:94-97 | The comments part has a comments heading iff there are comments, and no Dropbox link |
| Calibre.NoteCoverLinks | bin/ob-calibre.py:86-92 | A note has a Dropbox link iff the book has a cover |
| Calibre.NoteComments | bin/ob-calibre.py:94-97 | A note has a `## Comments` heading iff the comments are non-empty |
| Calibre.NoteCommentsLast | bin/ob-calibre.py:94-97 | With comments, a note ends with blank, `## Comments` and the comments |
| Calibre.PathParts | bin/ob-calibre.py:87-88 | The parts of a POSIX path are exactly its components that are neither empty nor `.` |
| Calibre.ParentOf | bin/ob-calibre.py:87 | The parent drops the last part, keeps absoluteness, and is the path itself when there is no part |
| Calibre.IndexOfPart | bin/ob-calibre.py:88 | `parts.index('Dropbox')`: -1 iff it is absent, else its first position |
| Calibre.WriteMeta | bin/ob-calibre.py:64-84 | The prints of the "Meta" section compute `MetaOf`, failing when a date does not parse |
| Calibre.WriteNote | bin/ob-calibre.py:40-97 | The body of the row loop prints `NoteText` |
| Calibre.Jobs | bin/ob-calibre.py:34-38 | One file per row, in catalog order |
| Calibre.JobsDistinct | bin/ob-calibre.py:36-38 | Rows with distinct note names target distinct files |
| Calibre.ExportOk | bin/ob-calibre.py:34-105 | The export finishes iff every row yields a note |
| Calibre.ExportWrites | bin/ob-calibre.py:100-102 | Each row's note ends in the export directory, and is replaced iff it was missing or differed |
| Calibre.ExportTwice | bin/ob-calibre.py:100-102 | Exporting the catalog again over the result writes nothing |
| Calibre.ExportCatalog | bin/ob-calibre.py:34-105 | The row loop computes `ExportAll`: the new tree, the notes replaced and whether it finished |
| Bookmarks.ContentAppend | bin/ob-bookmarks.py:21-61 | The content of a file is the content of its prints, one after the other |
| Bookmarks.NameParts | bin/ob-bookmarks.py:32-34 | Without a separator the display name is the whole name and there is no description; with one, the name is the display name, the separator and the rest, and the display name holds no separator |
| Bookmarks.ClassifyPrefix | bin/ob-bookmarks.py:36-53 | Exactly one kind fires: `javascript:`, else `data:`, else the folder-comment prefix, else an ordinary link |
| Bookmarks.HostAfterScheme | bin/ob-bookmarks.py:55 | A URL has a host iff it holds `://`; the host starts the text after the first `://`, holds no `/` and no `://`, and ends at the next `/` or the next `://`, whichever comes first, or at the end of the URL |
| Bookmarks.EntryMain | bin/ob-bookmarks.py:36-55 | A bookmark prints unless it is an ordinary URL without `://` (IndexError); its first print is a bookmarklet of the URL minus its 11-character prefix, a data bookmarklet of the whole URL, the comment line, or the link with its host |
| Bookmarks.EntryDescription | bin/ob-bookmarks.py:57-61 | A description is printed iff it is non-empty, then ends the entry with a blank line, and follows a blank line unless the URL is a folder comment |
| Bookmarks.FolderLinksAppend | bin/ob-bookmarks.py:25-28 | The folder links of a file are those of its parts, in order |
| Bookmarks.EntryLinks | bin/ob-bookmarks.py:29-61 | A bookmark prints no folder link |
| Bookmarks.BodyFolderLinks | bin/ob-bookmarks.py:25-28 | A folder's file links to its subfolders, one link each, in children order |
| Bookmarks.TreeFiles | bin/ob-bookmarks.py:17-28 | The export adds exactly one file per folder, `{name} - Bookmarks.md` in the folder's own directory |
| Bookmarks.SubfolderFiles | bin/ob-bookmarks.py:25-27 | Exporting the first k subfolders adds exactly their files |
| Bookmarks.OwnFile | bin/ob-bookmarks.py:21-23 | A folder's file holds `# {name} - Bookmarks`, blank, `#bookmarks #from/browser`, blank, then its children's prints |
| Bookmarks.BodyFails | bin/ob-bookmarks.py:25-61 | When one child fails, the folder fails |
| Bookmarks.SubfoldersFail | bin/ob-bookmarks.py:25-27 | When one subfolder fails, the folder fails |
| Bookmarks.WriteBookmark | bin/ob-bookmarks.py:30-61 | The prints for one bookmark compute `EntryLines` |
| Bookmarks.ExportFolder | bin/ob-bookmarks.py:17-61 | The recursive exporter succeeds iff the specification `ExportTree` does, and then the tree is its result |
| Bookmarks.RootFiles | bin/ob-bookmarks.py:69-72 | The export holds `Roots - Bookmarks.md` at the top and the bookmark bar's file in its own directory |
| Bookmarks.RootLinks | bin/ob-bookmarks.py:69-72 | The root file links to the bookmark bar first, then to the subfolders of "other" in their order |
| Bookmarks.ExportBookmarks | bin/ob-bookmarks.py:64-87 | The whole script: the merged tree is exported into a scratch tree, and its files are copied over the export directory where missing or different; on failure the export directory is unchanged |
| Bookmarks.ExportSettles | bin/ob-bookmarks.py:80-82 | Exporting the same bookmarks again replaces no file |

## Left out

- Process calls are not modelled: `rg` (`bin/ob-indexer.py:102`), the discovery command run by the shell (`bin/ob-indexer.py:61`) and `calibredb` (`bin/ob-calibre.py:31`). The discovery result is the opaque `Env.discover`. The notes to refresh are the parameter `notes`.
- jinja2 rendering and YAML parsing are opaque functions (`Env.render`, `Env.loadYaml`). A YAML result that is not a mapping is a failure.
- The current directory at refresh time is modelled as the parameter `envAt(Parent(note))`, which is fixed for the whole run. The model does not capture the discovery seeing files rewritten earlier in the same run. IndexerLaws.SecondRunWritesNothing likewise assumes that the second run's discovery returns what the first run's did; a query matching text that the first run rendered into a note would break that.
- Filesystem plumbing is not modelled: temporary files, `os.replace` atomicity, `filecmp`, `mkdir`, `os.walk`, `shutil.rmtree` and `chdir`. Only the replace-if-missing-or-different decision over a `map` from paths to contents is modelled.
- The per-run messages printed to standard output (`NEW:`, `New:`) are not modelled; the model returns the set or list of files written instead.
- `datetime.fromisoformat` and `strftime` are the opaque `Externals.parseDate`, giving a year and a day string. `urllib.parse.quote` is `Externals.quote`. `hashlib.sha256(...)[:7]` is the opaque `digest`. `json.load` and CSV reading are left out; their results are the `Folder` tree and the `Row` records.
- Text.Lines: `splitlines()` splits on `'\n'` only. Python also splits on `\r`, `\v`, `\f`, `\x1c`-`\x1e`, `\x85`, `\u2028` and `\u2029`.
- Text.Indent: lines are split on `'\n'` only, as for `Lines`.
- Calibre.ParentOf: a cover path is split on `/`, with empty and `.` components dropped as `pathlib` does. `pathlib`'s special case of a path starting with exactly two slashes is not modelled.
- Bookmarks.ExportBookmarks: when the export fails, the scratch tree and any files written into it before the failure are discarded, and the export directory is left unchanged. The script's partially written files and directories are not modelled. A folder whose file name clashes with a subfolder's directory (`mkdir` raising) is not modelled.
- Bookmarks.ExportTree: a folder's path is its name taken as one component. In the script, `pathlib` splits a name holding `/` into several components, so `mkdir` or `open` raises `FileNotFoundError` unless those directories happen to exist. An empty name makes `dir / ''` the parent directory itself, so that folder's files land beside its parent's.
- Indexer.ItemOf: front-matter values are modelled as strings (`Env.loadYaml` returns a `map<string, string>`). YAML keeps scalar types, so a title such as `2023` (an integer) or `2024-01-01` (a date) never equals the string stem in the script, which then writes `[[stem|title]]`. The model compares the text and writes `[[stem]]` when it matches the stem.
- Bookmarks.HostAfterScheme: the host follows the code's `split('://')[1]`, so a second `://` also ends it.
- IndexerLaws.RefreshIdempotent: idempotence is proved for renderers whose stripped output holds no `%%+END%%` line (`EndSafe`). With such a line in the output, a second pass would end the region early.
- Calibre.MetaSections: states which optional lines are present and the first and last lines, but not the relative order of the optional lines; that order follows from `OptionalMeta` directly.
