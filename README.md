# Storyworld character tools, modelled in Dafny

The storyworld keeps one JSON document per character. Two of its tools carry
real logic, and this project models that logic and proves properties of it:

* **The character selector and scene builder** (`character_selector.py`).
  * It scans the character catalogue for names that share a first token or a
    last token (`analyze_name_conflicts`).
  * It warns when characters picked for a scene share a first name
    (`check_scene_conflicts`).
  * It renders the text report of a scene (`generate_scene_output`).
* **The id migration** (`add_character_ids.py`, `add_ids_to_characters`).
  * It gives every character file that has no `id` one derived from its file
    name, placed in front of the document's other entries.
  * It counts the files it updated and the files it skipped.

## Modules

| file | module | what it holds |
|---|---|---|
| `options.dfy` | `Options` | `Option`, with `GetOr` for Python's `dict.get(key, default)` |
| `strings.dfy` | `Strings` | Python string operations used by the tools: `str.split()` (split on Python's whitespace set), `sep.join`, `str.endswith`, `str.replace(pat, '')`, and writing pieces one after another |
| `name_conflicts.dfy` | `NameConflicts` | both conflict detectors over an insertion-ordered `defaultdict(list)` |
| `scene_output.dfy` | `SceneOutput` | the scene report |
| `character_ids.dfy` | `CharacterIds` | JSON documents as ordered dictionaries, and the migration |

**Name conflicts.** Each detector puts every name into the bucket of one of its
tokens. A bucket is found through a key function: the first token, or the last
token of a name with two tokens or more. Buckets keep insertion order, as a
Python `dict` does. A bucket that ends up with more than one name is reported.

The buckets the loops build are also described declaratively by `Grouped`. It
lists the keys in the order their first name appears, each with the names that
carry it, in input order. The methods `AnalyzeNameConflicts` and
`CheckSceneConflicts` have the source's loops. They are proved equal to the
report over `Grouped`. The lemmas then state what that report means.

**Scene report.** `GenerateSceneOutput` builds the text with the same appends, in
the same order as the source. `SceneText` describes the result as a layout of
eight parts:

1. the header
2. one bullet block per character
3. the concept
4. the conflicts section, or nothing
5. the prompt heading
6. one prompt line per character
7. the footer
8. the NOTE, or nothing

The fixed texts (headings, labels, and the text printed for a missing value)
are a parameter of type `Wording`. The constant `Source` holds the exact
wording of `character_selector.py`. The placement lemmas hold for every
wording. The if-and-only-if lemmas hold for every wording that is
`Distinctive`:

* the conflicts heading and the prompt heading start with different
  characters;
* the NOTE's next-to-last character is not a line break.

`SourceDistinctive` proves that the source's wording qualifies, and
`SourceConflictsIff` states the if-and-only-if results for that wording.

**Id migration.** `AddIdsToCharacters` receives the folder as its listing:
`None` when the folder does not exist, otherwise the file names in `os.listdir`
order. Each file carries the document `json.load` reads from it, or `None`
when the file cannot be read or parsed. The method returns two things:

* every `.json` file as the run leaves it, in listing order;
* what the run reports: folder not found, no JSON files, or the updated,
  skipped and total counts.

`FolderAfter` is the whole folder after the run. `dict.update` is modelled
entry by entry (`Update`, `UpdateWith`, `Put`), with Python's dictionary
semantics: an existing key keeps its position and takes the new value, and a
new key goes last.

## Model

| member | source | states |
|---|---|---|
| NameConflicts.Listed | character_selector.py:41-42 | defined as the `if name and name != 'nan'` test: neither empty nor "nan" |
| NameConflicts.CatalogFirst | character_selector.py:41-46 | defined as the first-name key of a catalogue name: its first token, when the name is listed and has a token |
| NameConflicts.CatalogLast | character_selector.py:41-50 | defined as the last-name key of a catalogue name: its last token, when the name is listed and has two tokens or more |
| NameConflicts.SelectionFirst | character_selector.py:76-80 | defined as the key of a selected name: its first token, whenever `split()` yields one; no empty or "nan" filter |
| NameConflicts.Add | character_selector.py:46-46 | `d[key].append(name)` keeps the bucket keys; a new key is added last |
| NameConflicts.MembersShared | character_selector.py:53-54 | a bucket holds two names or more exactly when two distinct positions of the input carry its key |
| NameConflicts.KeyOrderFirstSeen | character_selector.py:37-50 | the keys of the dictionary appear in the order of their first occurrence in the input |
| NameConflicts.Grouped | character_selector.py:37-50 | defined as the dictionary after all names are appended: the keys in order of first occurrence, each with the names carrying it in input order |
| NameConflicts.CatalogConflicts | character_selector.py:52-69 | defined as the first-name report followed by the last-name report, each one conflict per bucket of more than one name, in bucket order |
| NameConflicts.AnalyzeNameConflicts | character_selector.py:32-69 | the loop over the catalogue yields the first-name report followed by the last-name report over the insertion-ordered buckets |
| NameConflicts.ConflictsWellFormed | character_selector.py:40-67 | every conflict lists at least two names and is the whole bucket of its key. Each listed name is neither empty nor "nan". A first-name conflict's names have its name as first token; a last-name conflict's names have two tokens or more, the last one being its name |
| NameConflicts.SingleTokenNeverLastName | character_selector.py:48-50 | a name of one token never appears in a last-name conflict |
| NameConflicts.ConflictsComplete | character_selector.py:53-67 | a conflict of a kind is reported for a key exactly when two listed names share that key |
| NameConflicts.ConflictsKindsInOrder | character_selector.py:53-67 | all first-name conflicts precede all last-name conflicts |
| NameConflicts.ConflictsOrderedWithinKind | character_selector.py:37-67 | within a kind, conflicts follow the first occurrence of their keys, so no key is reported twice |
| NameConflicts.SceneConflicts | character_selector.py:82-83 | defined as one entry per first-token bucket of more than one selected name, in bucket order |
| NameConflicts.Warning | character_selector.py:84-84 | defined as the warning text: the sign, the quoted first name, and the bucket's names joined by ", " |
| NameConflicts.CheckSceneConflicts | character_selector.py:71-86 | the loop over the selection yields one warning per first token shared by two or more selected names, in order of first occurrence |
| NameConflicts.SceneWarningsSpec | character_selector.py:76-84 | a warning exists for a first token exactly when two selected names share it. It quotes the token and every selected name starting with it, in selection order. No token is warned about twice. Empty or "nan" names are not filtered |
| Strings.Split | character_selector.py:43-43 | defined as `str.split()` without arguments: the maximal runs of non-whitespace, left to right; also used at line 77 |
| Strings.Join | character_selector.py:84-84 | defined as `sep.join(parts)`: the parts with `sep` between neighbours; also used at line 116 |
| Strings.SplitEmptyIffBlank | character_selector.py:43-44 | `name.split()` is empty exactly when the name is only whitespace |
| Strings.SplitTokens | character_selector.py:43-45 | every part of `split()` is a non-empty run of non-whitespace |
| Strings.SplitJoin | character_selector.py:43-43 | splitting tokens joined by single spaces gives back the tokens |
| SceneOutput.Source | character_selector.py:92-133 | the fixed texts of the report, character for character, and the defaults of each `.get` |
| SceneOutput.HasConflicts | character_selector.py:114-114 | defined as the truth of `scene_data.get('conflicts')`: present and not an empty list (also line 132) |
| SceneOutput.Header | character_selector.py:92-99 | defined as the banner, the timestamp, the group and the location (each "Not specified" when missing) and the characters heading |
| SceneOutput.Block | character_selector.py:102-107 | defined as one character's bullet block, each missing field replaced by its default |
| SceneOutput.ConceptSection | character_selector.py:109-112 | defined as the concept heading, the concept or "No concept provided", and a blank line |
| SceneOutput.ConflictSection | character_selector.py:115-118 | defined as the conflicts heading, the warnings one per line, and a blank line |
| SceneOutput.PromptHeader | character_selector.py:120-122 | defined as the prompt heading and the request naming the location, or "an unspecified location" |
| SceneOutput.PromptLine | character_selector.py:125-125 | defined as one character's prompt line: name and personality, with their defaults |
| SceneOutput.Footer | character_selector.py:127-130 | defined as the closing concept line and a blank line |
| SceneOutput.SceneText | character_selector.py:88-135 | defined as the eight parts in the order the source appends them |
| SceneOutput.AppendBlocks | character_selector.py:101-107 | the first loop appends the bullet blocks of all characters, in list order |
| SceneOutput.AppendPromptLines | character_selector.py:124-125 | the second loop appends the prompt lines of all characters, in list order |
| SceneOutput.RenderScene | character_selector.py:92-135 | the appends produce the eight-part layout `SceneText` for any wording |
| SceneOutput.GenerateSceneOutput | character_selector.py:88-135 | the report for a scene and a timestamp is `SceneText` in the source's wording |
| SceneOutput.SourceDistinctive | character_selector.py:115-133 | the source's headings differ in their first character, and the NOTE does not end in a blank line |
| SceneOutput.StartsWithHeader | character_selector.py:90-99 | the report opens with its header, which opens with the banner and the generation time |
| SceneOutput.BlockNext | character_selector.py:101-107 | each bullet block starts where the previous one ends |
| SceneOutput.BlockPlaced | character_selector.py:101-107 | the block of character `i` sits in the report after the header and the blocks of characters before it |
| SceneOutput.LineNext | character_selector.py:124-125 | each prompt line starts where the previous one ends |
| SceneOutput.LinePlaced | character_selector.py:120-125 | the prompt line of character `i` sits after the prompt heading and the lines before it |
| SceneOutput.HeadingsAfterConcept | character_selector.py:114-122 | the conflicts section is empty exactly when the scene has no conflicts; otherwise it opens with its heading |
| SceneOutput.ConflictSectionIffConflicts | character_selector.py:109-122 | right after the concept, the conflicts heading appears exactly when the scene has conflicts; otherwise the prompt heading comes there |
| SceneOutput.NoteIffConflicts | character_selector.py:127-133 | the report ends with the NOTE exactly when the scene has conflicts |
| SceneOutput.SourceConflictsIff | character_selector.py:114-133 | both statements above, for the report of `generate_scene_output` itself |
| CharacterIds.HasKey | add_character_ids.py:47-47 | defined as `key in d` for a document |
| CharacterIds.Put | add_character_ids.py:54-54 | `d[key] = value`: an existing key keeps its place, a new one is added last |
| CharacterIds.UpdateWith | add_character_ids.py:54-54 | defined as `base.update(entries)`: every entry put in turn |
| CharacterIds.WithId | add_character_ids.py:53-54 | defined as the document `{'id': id}` updated with the character's entries |
| CharacterIds.DerivedId | add_character_ids.py:44-44 | defined as `filename.replace('.json', '')` |
| CharacterIds.EffectOf | add_character_ids.py:38-66 | defined as what the loop does to one file: fails when it does not load, skipped when it has an `id`, updated otherwise |
| CharacterIds.Migrated | add_character_ids.py:38-61 | defined as the file after the loop's step: an updated file holds `WithId` of its derived id, any other is as it was |
| CharacterIds.MigrateAll | add_character_ids.py:35-61 | defined as every `.json` file after its step, in listing order |
| CharacterIds.Count | add_character_ids.py:32-61 | defined as the number of files with a given effect: the final `updated_count` and `skipped_count` |
| CharacterIds.FolderAfter | add_character_ids.py:35-58 | defined as the folder after the run: migrated `.json` files, other files untouched |
| CharacterIds.JsonFiles | add_character_ids.py:23-23 | only names ending in `.json` are processed |
| CharacterIds.Update | add_character_ids.py:53-54 | `updated_data.update(char_data)` puts the entries one by one |
| CharacterIds.UpdateKeepsUntouched | add_character_ids.py:53-54 | an entry whose key the update never puts keeps its place and value |
| CharacterIds.UpdateFresh | add_character_ids.py:53-54 | entries with new, distinct keys are appended in their order |
| CharacterIds.WithIdShape | add_character_ids.py:52-54 | the updated document has `id` as first key, holding the derived id; with distinct keys it is exactly that entry followed by the original entries |
| CharacterIds.DerivedIdOfStem | add_character_ids.py:43-44 | the id of `stem.json` is `stem` when the stem holds no ".json" |
| Strings.RemoveAll | add_character_ids.py:44-44 | defined as `s.replace(pat, '')`: scanning from the left, every non-overlapping occurrence is cut out |
| Strings.RemoveJsonAfter | add_character_ids.py:44-44 | when `base` holds no ".json", replacing in `base + ".json" + rest` gives `base` followed by the replacement in `rest` |
| CharacterIds.DerivedIdOfInterior | add_character_ids.py:44-44 | a ".json" inside the name is removed as well, not only the extension: the id of `stem.json` + rest is `stem` + the id of rest |
| CharacterIds.DerivedIdOfDoubleExtension | add_character_ids.py:44-44 | `stem.json.json` gets the id `stem` |
| CharacterIds.DerivedIdSinglePass | add_character_ids.py:44-44 | the replacement is one pass from the left: "a.j.jsonson" gets the id "a.json" |
| CharacterIds.MigratedFile | add_character_ids.py:38-61 | a file that fails to load, or already has an id, is left unchanged; any other file keeps its name and gains the id entry in front |
| CharacterIds.AddIdsToCharacters | add_character_ids.py:15-72 | the result when the folder is missing; the early return when no `.json` file exists; otherwise every `.json` file migrated in listing order, with updated and skipped counts and the total |
| CharacterIds.CountsAddUp | add_character_ids.py:32-72 | every `.json` file is updated, skipped or fails. Updated plus skipped is at most the total, with equality exactly when every file loaded |
| CharacterIds.MigratedIdempotent | add_character_ids.py:46-50 | migrating a migrated file changes nothing. An updated file is skipped the next time, and a failing one still fails |
| CharacterIds.RerunUpdatesNothing | add_character_ids.py:35-61 | a second pass over the results updates nothing, skips every file the first pass updated or skipped, and writes the same documents |
| CharacterIds.JsonFilesAfter | add_character_ids.py:23-23 | the `.json` files of the folder after the run are exactly the run's results |
| CharacterIds.SecondRun | add_character_ids.py:15-72 | running the migration again finds the same `.json` files, updates none, skips U + S of them, and leaves the folder as it is |

## Left out

- The Streamlit page (`st.*` calls, session state, widgets) is not part of this model. Neither are `storyworld_app.py` and `init_storyworld.py`. Only the core functions are modelled.
- Loading the catalogue (`load_json_files`, `pandas`) is left out. `analyze_name_conflicts` receives the `str(row.get('Name', ''))` values of the rows, in row order. A missing name reaches the model as `""` and pandas' NaN as `"nan"`, as `str` renders them.
- The `df` argument of `check_scene_conflicts` is never read. It is a type parameter of `CheckSceneConflicts` that the method ignores.
- `datetime.now().strftime(...)` is the `timestamp` argument of `GenerateSceneOutput`.
- Values in the scene record are taken as the text their f-string renders. A key present with the value `None` prints "None" in Python; here it counts as present, with whatever text it renders to.
- `json.load` is not modelled. A file's content is the parsed document, or `None` when reading or parsing fails. Both `except` branches behave the same: neither counter moves.
- `json.dump` formatting (`indent=2`, `ensure_ascii=False`) is not modelled. A written document, read again, is taken to be the document written. An exception raised while writing is not modelled.
- Only JSON objects are modelled as top-level documents. For a list or a string, `'id' in char_data` tests membership, not a key.
- `print` output (progress lines, the summary lines) is not modelled. The summary's three numbers are the `Summary` outcome.
- `os.listdir` order is the order of the given listing. A missing folder is `None`.
- An `os.listdir` failure is not modelled. When `characters` exists but is a regular file or an unreadable directory, `os.path.exists` holds, `os.listdir` raises outside the `try`, and the script stops before any summary. The model's folder is either missing or a listing, so it does not capture this uncaught exception.
- `check_scene_conflicts` calls `char_name.split()` without `str()`. The selection comes from `df['Name'].dropna().tolist()` (character_selector.py:220-232). A numeric Name column puts ints or floats there, and `split` then raises `AttributeError`. `CheckSceneConflicts` takes strings only, so this exception is not modelled.
- Strings are sequences of code points. `Strings.IsSpace` is the set of characters Python's `str.isspace` accepts. Normalisation and case folding play no part in the source.
