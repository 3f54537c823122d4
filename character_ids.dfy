/**
 * The character id migration of add_character_ids.py: every `.json` file of
 * the characters folder whose document has no "id" gets one, derived from its
 * file name and placed in front of the document's other entries.
 *
 * The folder is its listing, each entry a file name and the document
 * `json.load` reads from it (`None` when the file cannot be read or is not
 * valid JSON). Writing a document back and reading it again is taken to give
 * the same document.
 */
module CharacterIds {
  import opened Options
  import opened Strings

  /** A JSON value as `json.load` returns it. */
  datatype Json =
    | JNull
    | JBool(b: bool)
    | JNumber(text: string)
    | JString(s: string)
    | JArray(items: seq<Json>)
    | JObject(entries: seq<(string, Json)>)

  /** A character document: a JSON object, its entries in the order of the file. */
  type Document = seq<(string, Json)>

  /** One entry of the folder listing. */
  datatype FileEntry = FileEntry(name: string, content: Option<Document>)

  /** What the run reports. */
  datatype Outcome =
    | FolderNotFound
    | NoJsonFiles
    | Summary(updated: nat, skipped: nat, total: nat)

  // ---------------------------------------------------------------------------
  // Documents as Python dictionaries

  function Keys(d: Document): (ks: seq<string>)
    ensures |ks| == |d| && forall i :: 0 <= i < |d| ==> ks[i] == d[i].0
  {
    seq(|d|, i requires 0 <= i < |d| => d[i].0)
  }

  /** `key in d`. */
  predicate HasKey(d: Document, key: string) {
    key in Keys(d)
  }

  /** A dictionary holds each key once. */
  predicate DistinctKeys(d: Document) {
    forall i, j :: 0 <= i < j < |d| ==> d[i].0 != d[j].0
  }

  /** `d[key] = value`: an existing key keeps its place, a new one goes last. */
  function Put(d: Document, key: string, value: Json): (r: Document)
    ensures Keys(r) == if HasKey(d, key) then Keys(d) else Keys(d) + [key]
  {
    if HasKey(d, key) then
      var r := seq(|d|, i requires 0 <= i < |d| => if d[i].0 == key then (key, value) else d[i]);
      assert Keys(r) == Keys(d);
      r
    else
      var r := d + [(key, value)];
      assert Keys(r) == Keys(d) + [key];
      r
  }

  /** `base.update(entries)`: every entry put in turn. */
  function UpdateWith(base: Document, entries: Document): Document {
    if entries == [] then base
    else
      var e := entries[|entries| - 1];
      Put(UpdateWith(base, entries[..|entries| - 1]), e.0, e.1)
  }

  /** `updated_data = {'id': id}; updated_data.update(char_data)`. */
  function WithId(id: string, d: Document): Document {
    UpdateWith([("id", JString(id))], d)
  }

  // ---------------------------------------------------------------------------
  // One file

  predicate IsJsonName(name: string) {
    EndsWith(name, ".json")
  }

  /** `[f for f in os.listdir(folder) if f.endswith('.json')]`. */
  function JsonFiles(files: seq<FileEntry>): (js: seq<FileEntry>)
    ensures forall i :: 0 <= i < |js| ==> IsJsonName(js[i].name)
  {
    if files == [] then []
    else
      var f := files[|files| - 1];
      JsonFiles(files[..|files| - 1]) + (if IsJsonName(f.name) then [f] else [])
  }

  /** `filename.replace('.json', '')`. */
  function DerivedId(name: string): string {
    RemoveAll(name, ".json")
  }

  /** What happens to one file: it is updated, skipped, or fails to load. */
  datatype Effect = Updated | Skipped | Failed

  function EffectOf(f: FileEntry): Effect {
    match f.content
    case None => Failed
    case Some(d) => if HasKey(d, "id") then Skipped else Updated
  }

  /** The file after the run: an updated document carries its new id, every other file is as it was. */
  function Migrated(f: FileEntry): FileEntry {
    match f.content
    case None => f
    case Some(d) => if HasKey(d, "id") then f else FileEntry(f.name, Some(WithId(DerivedId(f.name), d)))
  }

  function MigrateAll(js: seq<FileEntry>): (r: seq<FileEntry>)
    ensures |r| == |js| && forall i :: 0 <= i < |js| ==> r[i] == Migrated(js[i])
  {
    seq(|js|, i requires 0 <= i < |js| => Migrated(js[i]))
  }

  /** The number of files of `js` with effect `e`. */
  function Count(js: seq<FileEntry>, e: Effect): (n: nat)
    ensures n <= |js|
  {
    if js == [] then 0
    else Count(js[..|js| - 1], e) + (if EffectOf(js[|js| - 1]) == e then 1 else 0)
  }

  /** The whole folder after the run: the `.json` files migrated, the others left alone. */
  function FolderAfter(files: seq<FileEntry>): (r: seq<FileEntry>)
    ensures |r| == |files|
  {
    seq(|files|, i requires 0 <= i < |files| => if IsJsonName(files[i].name) then Migrated(files[i]) else files[i])
  }

  // ---------------------------------------------------------------------------
  // The function of the source

  /** `updated_data.update(char_data)`, one entry at a time. */
  method Update(base: Document, entries: Document) returns (r: Document)
    ensures r == UpdateWith(base, entries)
  {
    r := base;
    for i := 0 to |entries|
      invariant r == UpdateWith(base, entries[..i])
    {
      assert entries[..i + 1][..i] == entries[..i];
      r := Put(r, entries[i].0, entries[i].1);
    }
    assert entries[..|entries|] == entries;
  }

  /**
   * `add_ids_to_characters()`, with the characters folder given as its listing
   * (`None` when the folder does not exist). Returns every `.json` file as the
   * run leaves it, in listing order, and what the run reports.
   */
  method AddIdsToCharacters(folder: Option<seq<FileEntry>>) returns (results: seq<FileEntry>, outcome: Outcome)
    ensures folder.None? ==> results == [] && outcome == FolderNotFound
    ensures folder.Some? && JsonFiles(folder.value) == [] ==> results == [] && outcome == NoJsonFiles
    ensures folder.Some? && JsonFiles(folder.value) != [] ==>
      var js := JsonFiles(folder.value);
      && results == MigrateAll(js)
      && outcome == Summary(Count(js, Updated), Count(js, Skipped), |js|)
  {
    if folder.None? {
      return [], FolderNotFound;
    }
    var jsonFiles := JsonFiles(folder.value);
    if |jsonFiles| == 0 {
      return [], NoJsonFiles;
    }
    var updatedCount, skippedCount := 0, 0;
    results := [];
    for i := 0 to |jsonFiles|
      invariant results == MigrateAll(jsonFiles[..i])
      invariant updatedCount == Count(jsonFiles[..i], Updated)
      invariant skippedCount == Count(jsonFiles[..i], Skipped)
    {
      var file := jsonFiles[i];
      ProcessedOneMore(jsonFiles, i);
      match file.content {
        case None =>
          results := results + [file];
        case Some(charData) =>
          var characterId := RemoveAll(file.name, ".json");
          if HasKey(charData, "id") {
            skippedCount := skippedCount + 1;
            results := results + [file];
          } else {
            var updatedData := Update([("id", JString(characterId))], charData);
            results := results + [FileEntry(file.name, Some(updatedData))];
            updatedCount := updatedCount + 1;
          }
      }
    }
    assert jsonFiles[..|jsonFiles|] == jsonFiles;
    outcome := Summary(updatedCount, skippedCount, |jsonFiles|);
  }

  /** Processing file `i` extends the results by its migrated entry and its effect's count by one. */
  lemma ProcessedOneMore(js: seq<FileEntry>, i: nat)
    requires i < |js|
    ensures MigrateAll(js[..i + 1]) == MigrateAll(js[..i]) + [Migrated(js[i])]
    ensures forall e :: Count(js[..i + 1], e) == Count(js[..i], e) + if EffectOf(js[i]) == e then 1 else 0
  {
    assert js[..i + 1][..i] == js[..i];
  }

  // ---------------------------------------------------------------------------
  // Dictionary properties

  /** Putting entries never moves or drops a key that is already there. */
  lemma {:induction false} UpdateKeepsPrefix(base: Document, entries: Document)
    ensures |UpdateWith(base, entries)| >= |base|
    ensures forall j :: 0 <= j < |base| ==> UpdateWith(base, entries)[j].0 == base[j].0
    decreases |entries|
  {
    if entries != [] {
      UpdateKeepsPrefix(base, entries[..|entries| - 1]);
    }
  }

  /** An entry whose key is never put again keeps its value. */
  lemma {:induction false} UpdateKeepsUntouched(base: Document, entries: Document, j: nat)
    requires j < |base| && !HasKey(entries, base[j].0)
    ensures |UpdateWith(base, entries)| >= |base| && UpdateWith(base, entries)[j] == base[j]
    decreases |entries|
  {
    UpdateKeepsPrefix(base, entries);
    if entries != [] {
      var init := entries[..|entries| - 1];
      assert Keys(init) == Keys(entries)[..|entries| - 1];
      UpdateKeepsUntouched(base, init, j);
    }
  }

  /** Entries with new, distinct keys are appended in order. */
  lemma {:induction false} UpdateFresh(base: Document, entries: Document)
    requires DistinctKeys(entries)
    requires forall i :: 0 <= i < |entries| ==> !HasKey(base, entries[i].0)
    ensures UpdateWith(base, entries) == base + entries
    decreases |entries|
  {
    if entries != [] {
      var init, e := entries[..|entries| - 1], entries[|entries| - 1];
      UpdateFresh(base, init);
      assert !HasKey(base + init, e.0) by {
        forall j | 0 <= j < |base + init| ensures (base + init)[j].0 != e.0 {
          if j >= |base| {
            assert (base + init)[j] == entries[j - |base|];
          } else {
            assert Keys(base)[j] == base[j].0;
          }
        }
      }
      assert base + init + [e] == base + entries;
    }
  }

  /**
   * The document written for a file without an id: "id" is its first key,
   * holding the derived id, and the original entries follow in their order
   * with their values.
   */
  lemma WithIdShape(id: string, d: Document)
    requires !HasKey(d, "id")
    ensures |WithId(id, d)| >= 1 && WithId(id, d)[0] == ("id", JString(id))
    ensures DistinctKeys(d) ==> WithId(id, d) == [("id", JString(id))] + d
  {
    var base := [("id", JString(id))];
    UpdateKeepsUntouched(base, d, 0);
    if DistinctKeys(d) {
      UpdateFresh(base, d);
    }
  }

  // ---------------------------------------------------------------------------
  // What the migration promises

  /** A file with an id, or one that fails to load, is left as it was; an updated file keeps its name. */
  lemma MigratedFile(f: FileEntry)
    ensures Migrated(f).name == f.name
    ensures EffectOf(f) != Updated <==> Migrated(f) == f
    ensures EffectOf(f) == Updated ==>
      && Migrated(f).content.Some?
      && Migrated(f).content.value[0] == ("id", JString(DerivedId(f.name)))
      && (DistinctKeys(f.content.value) ==>
            Migrated(f).content.value == [("id", JString(DerivedId(f.name)))] + f.content.value)
  {
    if EffectOf(f) == Updated {
      WithIdShape(DerivedId(f.name), f.content.value);
    }
  }

  /** A clean file name gets its stem as id. */
  lemma DerivedIdOfStem(stem: string)
    requires !Contains(stem, ".json")
    ensures DerivedId(stem + ".json") == stem
  {
    RemoveJsonSuffix(stem);
  }

  /**
   * `replace` removes every ".json" of the name, not only the extension: an
   * occurrence inside the name is cut out as well, and what follows it is
   * processed the same way.
   */
  lemma DerivedIdOfInterior(stem: string, rest: string)
    requires !Contains(stem, ".json")
    ensures DerivedId(stem + ".json" + rest) == stem + DerivedId(rest)
  {
    RemoveJsonAfter(stem, rest);
  }

  /** A doubled extension is removed twice: `stem.json.json` gets the id `stem`. */
  lemma DerivedIdOfDoubleExtension(stem: string)
    requires !Contains(stem, ".json")
    ensures DerivedId(stem + ".json" + ".json") == stem
  {
    DerivedIdOfInterior(stem, ".json");
    DerivedIdOfStem("");
    assert "" + ".json" == ".json";
  }

  /**
   * `replace` makes one pass from the left, so cutting an occurrence out can
   * leave a new ".json" behind: "a.j.jsonson" gets the id "a.json".
   */
  lemma DerivedIdSinglePass()
    ensures DerivedId("a.j.jsonson") == "a.json"
  {
    assert !Contains("a.j", ".json");
    assert "a.j.jsonson" == "a.j" + ".json" + "son";
    DerivedIdOfInterior("a.j", "son");
    assert DerivedId("son") == "son";
  }

  /**
   * Every file is counted once: updated, skipped or failed. So the updated and
   * skipped files together are at most all `.json` files, and exactly all of
   * them when none failed to load.
   */
  lemma {:induction false} CountsAddUp(js: seq<FileEntry>)
    ensures Count(js, Updated) + Count(js, Skipped) + Count(js, Failed) == |js|
    ensures Count(js, Updated) + Count(js, Skipped) <= |js|
    ensures Count(js, Updated) + Count(js, Skipped) == |js| <==> forall i :: 0 <= i < |js| ==> js[i].content.Some?
    decreases |js|
  {
    if js != [] {
      var init := js[..|js| - 1];
      CountsAddUp(init);
      if Count(init, Failed) == 0 {
        forall i | 0 <= i < |init| ensures js[i].content.Some? {
          assert js[i] == init[i];
        }
      }
    }
  }

  /** Running the migration on its own output changes no file a second time. */
  lemma MigratedIdempotent(f: FileEntry)
    ensures Migrated(Migrated(f)) == Migrated(f)
    ensures EffectOf(Migrated(f)) == if EffectOf(f) == Failed then Failed else Skipped
  {
    if EffectOf(f) == Updated {
      WithIdShape(DerivedId(f.name), f.content.value);
      assert Keys(Migrated(f).content.value)[0] == "id";
    }
  }

  /**
   * A second run over the first run's output updates nothing, skips every file
   * the first run updated or skipped, and writes the same documents.
   */
  lemma {:induction false} RerunUpdatesNothing(js: seq<FileEntry>)
    ensures MigrateAll(MigrateAll(js)) == MigrateAll(js)
    ensures Count(MigrateAll(js), Updated) == 0
    ensures Count(MigrateAll(js), Skipped) == Count(js, Updated) + Count(js, Skipped)
    ensures Count(MigrateAll(js), Failed) == Count(js, Failed)
    decreases |js|
  {
    forall i | 0 <= i < |js| ensures Migrated(Migrated(js[i])) == Migrated(js[i]) {
      MigratedIdempotent(js[i]);
    }
    if js != [] {
      var init, f := js[..|js| - 1], js[|js| - 1];
      RerunUpdatesNothing(init);
      MigratedIdempotent(f);
      assert MigrateAll(js)[..|js| - 1] == MigrateAll(init);
    }
  }

  /** The `.json` files of the folder after the run are the run's results; a file's name decides it. */
  lemma {:induction false} JsonFilesAfter(files: seq<FileEntry>)
    ensures JsonFiles(FolderAfter(files)) == MigrateAll(JsonFiles(files))
    decreases |files|
  {
    if files != [] {
      var init, f := files[..|files| - 1], files[|files| - 1];
      JsonFilesAfter(init);
      assert FolderAfter(files)[..|files| - 1] == FolderAfter(init);
      MigratedFile(f);
      MigrateAllAppend(JsonFiles(init), if IsJsonName(f.name) then [f] else []);
    }
  }

  lemma MigrateAllAppend(a: seq<FileEntry>, b: seq<FileEntry>)
    ensures MigrateAll(a + b) == MigrateAll(a) + MigrateAll(b)
  {
    assert forall i :: 0 <= i < |a + b| ==> MigrateAll(a + b)[i] == (MigrateAll(a) + MigrateAll(b))[i];
  }

  /**
   * Idempotence of the whole run: over the folder the first run leaves, a
   * second run finds the same `.json` files, updates none of them, skips each
   * one the first run updated or skipped, and leaves the folder as it is.
   */
  lemma SecondRun(files: seq<FileEntry>)
    ensures var js, js' := JsonFiles(files), JsonFiles(FolderAfter(files));
      && |js'| == |js|
      && Count(js', Updated) == 0
      && Count(js', Skipped) == Count(js, Updated) + Count(js, Skipped)
      && FolderAfter(FolderAfter(files)) == FolderAfter(files)
  {
    JsonFilesAfter(files);
    RerunUpdatesNothing(JsonFiles(files));
    forall i | 0 <= i < |files| ensures FolderAfter(FolderAfter(files))[i] == FolderAfter(files)[i] {
      MigratedFile(files[i]);
      MigratedIdempotent(files[i]);
    }
  }
}
