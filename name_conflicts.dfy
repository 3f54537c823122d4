/**
 * Name-conflict detection of the character selector (`analyze_name_conflicts`
 * and `check_scene_conflicts` in character_selector.py).
 *
 * Both functions split every name into whitespace tokens and append it to an
 * insertion-ordered `defaultdict(list)` keyed by a token; every bucket that ends
 * up with more than one name is reported. The dictionary is modelled as a
 * sequence of buckets. What the dictionary holds after a prefix of the names has
 * been inserted is given declaratively by `Grouped`: the keys in the order in
 * which they first occur, each with the names that carry it, in input order.
 */
module NameConflicts {
  import opened Options
  import opened Strings

  /** The catalogue skips an empty name and the text pandas prints for a missing one. */
  predicate Listed(name: string) {
    name != "" && name != "nan"
  }

  /** Which bucket, if any, a name goes into. */
  type KeyFn = string -> Option<string>

  /** `analyze_name_conflicts`, first names: the first token of every listed name. */
  function CatalogFirst(name: string): Option<string> {
    var parts := Split(name);
    if Listed(name) && |parts| > 0 then Some(parts[0]) else None
  }

  /** `analyze_name_conflicts`, last names: the last token of every listed name of two tokens or more. */
  function CatalogLast(name: string): Option<string> {
    var parts := Split(name);
    if Listed(name) && |parts| > 1 then Some(parts[|parts| - 1]) else None
  }

  /** `check_scene_conflicts`: the first token of every selected name, listed or not. */
  function SelectionFirst(name: string): Option<string> {
    var parts := Split(name);
    if |parts| > 0 then Some(parts[0]) else None
  }

  /** One entry of the insertion-ordered `defaultdict(list)`. */
  datatype Bucket = Bucket(key: string, members: seq<string>)

  function BucketKeys(d: seq<Bucket>): (ks: seq<string>)
    ensures |ks| == |d| && forall j :: 0 <= j < |d| ==> ks[j] == d[j].key
  {
    seq(|d|, j requires 0 <= j < |d| => d[j].key)
  }

  /**
   * `d[key].append(name)`: an existing bucket grows at its place, a new key
   * opens a bucket at the end.
   */
  function Add(d: seq<Bucket>, key: string, name: string): (r: seq<Bucket>)
    ensures BucketKeys(r) == if key in BucketKeys(d) then BucketKeys(d) else BucketKeys(d) + [key]
  {
    if key in BucketKeys(d) then
      var r := seq(|d|, j requires 0 <= j < |d| =>
        if d[j].key == key then Bucket(key, d[j].members + [name]) else d[j]);
      assert BucketKeys(r) == BucketKeys(d);
      r
    else
      var r := d + [Bucket(key, [name])];
      assert BucketKeys(r) == BucketKeys(d) + [key];
      r
  }

  // ---------------------------------------------------------------------------
  // What the dictionary holds

  /** The names of `names` that go into bucket `key`, in input order, duplicates kept. */
  function Members(keyOf: KeyFn, names: seq<string>, key: string): seq<string> {
    if names == [] then []
    else
      var last := names[|names| - 1];
      Members(keyOf, names[..|names| - 1], key) + (if keyOf(last) == Some(key) then [last] else [])
  }

  /** The distinct keys of `names`, in the order in which each first occurs. */
  function KeyOrder(keyOf: KeyFn, names: seq<string>): seq<string> {
    if names == [] then []
    else
      var earlier := KeyOrder(keyOf, names[..|names| - 1]);
      match keyOf(names[|names| - 1])
      case None => earlier
      case Some(k) => if k in earlier then earlier else earlier + [k]
  }

  /** The dictionary after every name of `names` has been inserted. */
  function Grouped(keyOf: KeyFn, names: seq<string>): seq<Bucket> {
    var ks := KeyOrder(keyOf, names);
    seq(|ks|, i requires 0 <= i < |ks| => Bucket(ks[i], Members(keyOf, names, ks[i])))
  }

  /** The index of the first name keyed `key`, or `|names|` when there is none. */
  function FirstSeen(keyOf: KeyFn, names: seq<string>, key: string): (p: nat)
    ensures p <= |names|
  {
    if names == [] then 0
    else
      var p := FirstSeen(keyOf, names[..|names| - 1], key);
      if p < |names| - 1 then p
      else if keyOf(names[|names| - 1]) == Some(key) then |names| - 1
      else |names|
  }

  /** Some name of `names` is keyed `key`. */
  predicate Occurs(keyOf: KeyFn, names: seq<string>, key: string) {
    exists i :: 0 <= i < |names| && keyOf(names[i]) == Some(key)
  }

  /** Two different positions of `names` are keyed `key`. */
  predicate Shared(keyOf: KeyFn, names: seq<string>, key: string) {
    exists i, j :: 0 <= i < j < |names| && keyOf(names[i]) == Some(key) && keyOf(names[j]) == Some(key)
  }

  // ---------------------------------------------------------------------------
  // Conflict reports

  datatype ConflictType = FirstName | LastName

  /** `{'type': ..., 'name': ..., 'characters': [...]}`. */
  datatype Conflict = Conflict(kind: ConflictType, name: string, characters: seq<string>)

  /** The key the conflicts of a type are about. */
  function KeyOfKind(kind: ConflictType): KeyFn {
    match kind
    case FirstName => CatalogFirst
    case LastName => CatalogLast
  }

  /** One conflict of type `kind` per bucket of `d` with more than one name, in bucket order. */
  function Report(kind: ConflictType, d: seq<Bucket>): seq<Conflict> {
    if d == [] then []
    else
      var b := d[|d| - 1];
      Report(kind, d[..|d| - 1]) + (if |b.members| > 1 then [Conflict(kind, b.key, b.members)] else [])
  }

  /** What `analyze_name_conflicts` returns for the catalogue's names. */
  function CatalogConflicts(names: seq<string>): seq<Conflict> {
    Report(FirstName, Grouped(CatalogFirst, names)) + Report(LastName, Grouped(CatalogLast, names))
  }

  /** The conflicts `check_scene_conflicts` finds among the selected names. */
  function SceneConflicts(selected: seq<string>): seq<Conflict> {
    Report(FirstName, Grouped(SelectionFirst, selected))
  }

  /** The warning line `check_scene_conflicts` emits for one shared first name. */
  function Warning(firstName: string, names: seq<string>): string {
    "\U{26A0}\U{FE0F} Multiple characters with first name '" + firstName + "': " + Join(names, ", ")
  }

  function Warnings(cs: seq<Conflict>): (ws: seq<string>)
    ensures |ws| == |cs|
  {
    seq(|cs|, i requires 0 <= i < |cs| => Warning(cs[i].name, cs[i].characters))
  }

  // ---------------------------------------------------------------------------
  // The two functions of the source

  /** `analyze_name_conflicts(df)` over the `Name` column, already turned into strings. */
  method AnalyzeNameConflicts(names: seq<string>) returns (conflicts: seq<Conflict>)
    ensures conflicts == CatalogConflicts(names)
  {
    var firstNames: seq<Bucket> := [];
    var lastNames: seq<Bucket> := [];
    for i := 0 to |names|
      invariant firstNames == Grouped(CatalogFirst, names[..i])
      invariant lastNames == Grouped(CatalogLast, names[..i])
    {
      var name := names[i];
      assert names[..i + 1] == names[..i] + [name];
      if name != "" && name != "nan" {
        var parts := Split(name);
        if |parts| > 0 {
          GroupedAdd(CatalogFirst, names[..i], name, parts[0]);
          firstNames := Add(firstNames, parts[0], name);
          if |parts| > 1 {
            GroupedAdd(CatalogLast, names[..i], name, parts[|parts| - 1]);
            lastNames := Add(lastNames, parts[|parts| - 1], name);
          } else {
            GroupedSkip(CatalogLast, names[..i], name);
          }
        } else {
          GroupedSkip(CatalogFirst, names[..i], name);
          GroupedSkip(CatalogLast, names[..i], name);
        }
      } else {
        GroupedSkip(CatalogFirst, names[..i], name);
        GroupedSkip(CatalogLast, names[..i], name);
      }
    }
    assert names[..|names|] == names;

    conflicts := [];
    for j := 0 to |firstNames|
      invariant conflicts == Report(FirstName, firstNames[..j])
    {
      var b := firstNames[j];
      if |b.members| > 1 {
        conflicts := conflicts + [Conflict(FirstName, b.key, b.members)];
      }
      assert firstNames[..j + 1][..j] == firstNames[..j];
    }
    assert firstNames[..|firstNames|] == firstNames;

    ghost var firstPart := conflicts;
    for j := 0 to |lastNames|
      invariant conflicts == firstPart + Report(LastName, lastNames[..j])
    {
      var b := lastNames[j];
      if |b.members| > 1 {
        conflicts := conflicts + [Conflict(LastName, b.key, b.members)];
      }
      assert lastNames[..j + 1][..j] == lastNames[..j];
    }
    assert lastNames[..|lastNames|] == lastNames;
  }

  /**
   * `check_scene_conflicts(selected_characters, df)`: the table argument is
   * accepted and never looked at.
   */
  method CheckSceneConflicts<Table>(selected: seq<string>, table: Table) returns (conflicts: seq<string>)
    ensures conflicts == Warnings(SceneConflicts(selected))
  {
    var firstNames: seq<Bucket> := [];
    for i := 0 to |selected|
      invariant firstNames == Grouped(SelectionFirst, selected[..i])
    {
      var name := selected[i];
      assert selected[..i + 1] == selected[..i] + [name];
      var parts := Split(name);
      if |parts| > 0 {
        GroupedAdd(SelectionFirst, selected[..i], name, parts[0]);
        firstNames := Add(firstNames, parts[0], name);
      } else {
        GroupedSkip(SelectionFirst, selected[..i], name);
      }
    }
    assert selected[..|selected|] == selected;

    conflicts := [];
    for j := 0 to |firstNames|
      invariant conflicts == Warnings(Report(FirstName, firstNames[..j]))
    {
      var b := firstNames[j];
      if |b.members| > 1 {
        conflicts := conflicts + [Warning(b.key, b.members)];
      }
      assert firstNames[..j + 1][..j] == firstNames[..j];
    }
    assert firstNames[..|firstNames|] == firstNames;
  }

  // ---------------------------------------------------------------------------
  // Inserting one name into the dictionary

  lemma {:induction false} KeyOrderHasMembers(keyOf: KeyFn, names: seq<string>, key: string)
    ensures key in KeyOrder(keyOf, names) <==> Members(keyOf, names, key) != []
    decreases |names|
  {
    if names != [] {
      KeyOrderHasMembers(keyOf, names[..|names| - 1], key);
    }
  }

  lemma GroupedKeys(keyOf: KeyFn, names: seq<string>)
    ensures BucketKeys(Grouped(keyOf, names)) == KeyOrder(keyOf, names)
  {
  }

  lemma MembersSnoc(keyOf: KeyFn, names: seq<string>, name: string, key: string)
    ensures Members(keyOf, names + [name], key) ==
      Members(keyOf, names, key) + (if keyOf(name) == Some(key) then [name] else [])
  {
    assert (names + [name])[..|names|] == names;
  }

  /** A name that goes into no bucket leaves the dictionary as it was. */
  lemma GroupedSkip(keyOf: KeyFn, names: seq<string>, name: string)
    requires keyOf(name) == None
    ensures Grouped(keyOf, names + [name]) == Grouped(keyOf, names)
  {
    var s := names + [name];
    assert s[..|s| - 1] == names;
    var ks := KeyOrder(keyOf, names);
    assert KeyOrder(keyOf, s) == ks;
    forall i | 0 <= i < |ks| ensures Members(keyOf, s, ks[i]) == Members(keyOf, names, ks[i]) {
      MembersSnoc(keyOf, names, name, ks[i]);
    }
  }

  /** Inserting a name keyed `key` updates the dictionary as `d[key].append(name)` does. */
  lemma GroupedAdd(keyOf: KeyFn, names: seq<string>, name: string, key: string)
    requires keyOf(name) == Some(key)
    ensures Grouped(keyOf, names + [name]) == Add(Grouped(keyOf, names), key, name)
  {
    var s := names + [name];
    assert s[..|s| - 1] == names;
    var before, after := Grouped(keyOf, names), Grouped(keyOf, s);
    var ks := KeyOrder(keyOf, names);
    GroupedKeys(keyOf, names);
    assert KeyOrder(keyOf, s) == if key in ks then ks else ks + [key];
    var added := Add(before, key, name);
    forall i | 0 <= i < |ks| ensures after[i] == added[i] {
      MembersSnoc(keyOf, names, name, ks[i]);
    }
    if key !in ks {
      KeyOrderHasMembers(keyOf, names, key);
      MembersSnoc(keyOf, names, name, key);
      assert after[|ks|] == added[|ks|];
    }
    assert |after| == |added|;
  }

  // ---------------------------------------------------------------------------
  // Properties of the declarative view

  lemma {:induction false} MembersKeyed(keyOf: KeyFn, names: seq<string>, key: string)
    ensures forall m :: m in Members(keyOf, names, key) ==> keyOf(m) == Some(key)
    decreases |names|
  {
    if names != [] {
      MembersKeyed(keyOf, names[..|names| - 1], key);
    }
  }

  /** Bucket `key` is non-empty exactly when some name is keyed `key`. */
  lemma {:induction false} MembersOccurs(keyOf: KeyFn, names: seq<string>, key: string)
    ensures Members(keyOf, names, key) != [] <==> Occurs(keyOf, names, key)
    decreases |names|
  {
    if names != [] {
      var n := |names| - 1;
      var init := names[..n];
      MembersOccurs(keyOf, init, key);
      if Occurs(keyOf, names, key) {
        var i :| 0 <= i < |names| && keyOf(names[i]) == Some(key);
        if i < n {
          assert init[i] == names[i];
          assert Occurs(keyOf, init, key);
        }
      }
      if Members(keyOf, names, key) != [] && keyOf(names[n]) != Some(key) {
        var i :| 0 <= i < |init| && keyOf(init[i]) == Some(key);
        assert names[i] == init[i];
      }
    }
  }

  /** Bucket `key` has two names or more exactly when two positions are keyed `key`. */
  lemma {:induction false} MembersShared(keyOf: KeyFn, names: seq<string>, key: string)
    ensures |Members(keyOf, names, key)| >= 2 <==> Shared(keyOf, names, key)
    decreases |names|
  {
    if names != [] {
      var n := |names| - 1;
      var init := names[..n];
      var last := names[n];
      MembersShared(keyOf, init, key);
      MembersOccurs(keyOf, init, key);
      assert Members(keyOf, names, key) == Members(keyOf, init, key) + (if keyOf(last) == Some(key) then [last] else []);
      if Shared(keyOf, names, key) {
        var i, j :| 0 <= i < j < |names| && keyOf(names[i]) == Some(key) && keyOf(names[j]) == Some(key);
        assert init[i] == names[i];
        if j < n {
          assert init[j] == names[j];
          assert Shared(keyOf, init, key);
        } else {
          assert Occurs(keyOf, init, key);
        }
      }
      if |Members(keyOf, names, key)| >= 2 {
        if keyOf(last) == Some(key) {
          var i :| 0 <= i < |init| && keyOf(init[i]) == Some(key);
          assert names[i] == init[i];
          assert keyOf(names[i]) == Some(key) && keyOf(names[n]) == Some(key);
        } else {
          var i, j :| 0 <= i < j < |init| && keyOf(init[i]) == Some(key) && keyOf(init[j]) == Some(key);
          assert names[i] == init[i] && names[j] == init[j];
        }
      }
    }
  }

  /** A bucket keeps its names in input order: the bucket of a concatenation is the concatenation of the buckets. */
  lemma {:induction false} MembersAppend(keyOf: KeyFn, s: seq<string>, t: seq<string>, key: string)
    ensures Members(keyOf, s + t, key) == Members(keyOf, s, key) + Members(keyOf, t, key)
    decreases |t|
  {
    if t == [] {
      assert s + t == s;
    } else {
      var t' := t[..|t| - 1];
      assert (s + t)[..|s + t| - 1] == s + t';
      MembersAppend(keyOf, s, t', key);
    }
  }

  /** A bucket holds every copy of every name keyed to it, and nothing else. */
  lemma {:induction false} MembersCount(keyOf: KeyFn, names: seq<string>, key: string, m: string)
    ensures multiset(Members(keyOf, names, key))[m] ==
      if keyOf(m) == Some(key) then multiset(names)[m] else 0
    decreases |names|
  {
    if names != [] {
      var init := names[..|names| - 1];
      MembersCount(keyOf, init, key, m);
      assert names == init + [names[|names| - 1]];
    }
  }

  /** `FirstSeen` is the position of the first name keyed `key`. */
  lemma {:induction false} FirstSeenSpec(keyOf: KeyFn, names: seq<string>, key: string)
    ensures FirstSeen(keyOf, names, key) < |names| ==> keyOf(names[FirstSeen(keyOf, names, key)]) == Some(key)
    ensures forall q :: 0 <= q < FirstSeen(keyOf, names, key) ==> keyOf(names[q]) != Some(key)
    ensures FirstSeen(keyOf, names, key) == |names| <==> !Occurs(keyOf, names, key)
    decreases |names|
  {
    if names != [] {
      var init := names[..|names| - 1];
      FirstSeenSpec(keyOf, init, key);
      if FirstSeen(keyOf, names, key) < |names| {
        assert Occurs(keyOf, names, key);
      }
      if Occurs(keyOf, names, key) {
        var i :| 0 <= i < |names| && keyOf(names[i]) == Some(key);
        if i < |init| {
          assert init[i] == names[i];
          assert Occurs(keyOf, init, key);
        }
      }
    }
  }

  lemma {:induction false} KeyOrderSeen(keyOf: KeyFn, names: seq<string>, key: string)
    ensures key in KeyOrder(keyOf, names) <==> FirstSeen(keyOf, names, key) < |names|
    decreases |names|
  {
    if names != [] {
      KeyOrderSeen(keyOf, names[..|names| - 1], key);
    }
  }

  /** The keys come in the order of their first occurrence (so they are distinct). */
  lemma {:induction false} KeyOrderFirstSeen(keyOf: KeyFn, names: seq<string>)
    ensures forall i, j :: 0 <= i < j < |KeyOrder(keyOf, names)| ==>
      FirstSeen(keyOf, names, KeyOrder(keyOf, names)[i]) < FirstSeen(keyOf, names, KeyOrder(keyOf, names)[j])
    decreases |names|
  {
    if names != [] {
      var init := names[..|names| - 1];
      var ks, ks' := KeyOrder(keyOf, init), KeyOrder(keyOf, names);
      KeyOrderFirstSeen(keyOf, init);
      forall x | x in ks
        ensures FirstSeen(keyOf, names, x) == FirstSeen(keyOf, init, x) < |init|
      {
        KeyOrderSeen(keyOf, init, x);
      }
      if ks' != ks {
        var k := ks'[|ks'| - 1];
        KeyOrderSeen(keyOf, init, k);
        assert FirstSeen(keyOf, names, k) == |init|;
      }
    }
  }

  // ---------------------------------------------------------------------------
  // Properties of the reports

  /** Conflict `c` is the report of bucket `p` of `d`. */
  predicate FromBucket(c: Conflict, kind: ConflictType, d: seq<Bucket>, p: int) {
    0 <= p < |d| && |d[p].members| > 1 && c == Conflict(kind, d[p].key, d[p].members)
  }

  /** Conflict `i` of the report comes from a bucket holding two names or more. */
  lemma {:induction false} ReportOrigin(kind: ConflictType, d: seq<Bucket>, i: int) returns (p: int)
    requires 0 <= i < |Report(kind, d)|
    ensures FromBucket(Report(kind, d)[i], kind, d, p)
    decreases |d|
  {
    var init := d[..|d| - 1];
    if i < |Report(kind, init)| {
      p := ReportOrigin(kind, init, i);
    } else {
      p := |d| - 1;
    }
  }

  lemma {:induction false} ReportComplete(kind: ConflictType, d: seq<Bucket>, p: int)
    requires 0 <= p < |d| && |d[p].members| > 1
    ensures Conflict(kind, d[p].key, d[p].members) in Report(kind, d)
    decreases |d|
  {
    if p < |d| - 1 {
      var init := d[..|d| - 1];
      assert init[p] == d[p];
      ReportComplete(kind, init, p);
    }
  }

  /** Reports come in bucket order: a later conflict comes from a later bucket. */
  lemma {:induction false} ReportOrdered(kind: ConflictType, d: seq<Bucket>, i: int, j: int) returns (p: int, q: int)
    requires 0 <= i < j < |Report(kind, d)|
    ensures p < q && FromBucket(Report(kind, d)[i], kind, d, p) && FromBucket(Report(kind, d)[j], kind, d, q)
    decreases |d|
  {
    var init := d[..|d| - 1];
    if j < |Report(kind, init)| {
      p, q := ReportOrdered(kind, init, i, j);
    } else {
      p := ReportOrigin(kind, init, i);
      q := |d| - 1;
    }
  }

  /**
   * The report over the dictionary of `names`: every conflict has the kind
   * asked for, names the bucket of its key, and lists at least two names; the
   * conflicts follow the first occurrence of their keys.
   */
  lemma GroupReport(kind: ConflictType, keyOf: KeyFn, names: seq<string>)
    ensures forall c :: c in Report(kind, Grouped(keyOf, names)) ==>
      && c.kind == kind
      && c.characters == Members(keyOf, names, c.name)
      && |c.characters| >= 2
    ensures forall i, j :: 0 <= i < j < |Report(kind, Grouped(keyOf, names))| ==>
      FirstSeen(keyOf, names, Report(kind, Grouped(keyOf, names))[i].name)
        < FirstSeen(keyOf, names, Report(kind, Grouped(keyOf, names))[j].name)
  {
    var d, r := Grouped(keyOf, names), Report(kind, Grouped(keyOf, names));
    KeyOrderFirstSeen(keyOf, names);
    forall c | c in r ensures c.kind == kind && c.characters == Members(keyOf, names, c.name) && |c.characters| >= 2 {
      var i :| 0 <= i < |r| && r[i] == c;
      var p := ReportOrigin(kind, d, i);
    }
    forall i, j | 0 <= i < j < |r|
      ensures FirstSeen(keyOf, names, r[i].name) < FirstSeen(keyOf, names, r[j].name)
    {
      var p, q := ReportOrdered(kind, d, i, j);
    }
  }

  /** A conflict for `key` is reported exactly when two names share `key`. */
  lemma GroupReportComplete(kind: ConflictType, keyOf: KeyFn, names: seq<string>, key: string)
    ensures (exists c :: c in Report(kind, Grouped(keyOf, names)) && c.name == key) <==> Shared(keyOf, names, key)
  {
    var d := Grouped(keyOf, names);
    var ks := KeyOrder(keyOf, names);
    GroupReport(kind, keyOf, names);
    MembersShared(keyOf, names, key);
    if Shared(keyOf, names, key) {
      KeyOrderHasMembers(keyOf, names, key);
      var p :| 0 <= p < |ks| && ks[p] == key;
      ReportComplete(kind, d, p);
    }
  }

  // ---------------------------------------------------------------------------
  // What analyze_name_conflicts promises

  /**
   * Every conflict lists at least two names; each of them is listed (neither
   * empty nor "nan") and has the conflict's `name` as its first token
   * (a first-name conflict) or as its last token of two or more (a last-name
   * conflict); the list is the bucket of that key.
   */
  lemma ConflictsWellFormed(names: seq<string>)
    ensures forall c :: c in CatalogConflicts(names) ==>
      |c.characters| >= 2 && c.characters == Members(KeyOfKind(c.kind), names, c.name)
    ensures forall c, m :: c in CatalogConflicts(names) && m in c.characters ==>
      && Listed(m)
      && (c.kind == FirstName ==> |Split(m)| >= 1 && Split(m)[0] == c.name)
      && (c.kind == LastName ==> |Split(m)| >= 2 && Split(m)[|Split(m)| - 1] == c.name)
  {
    GroupReport(FirstName, CatalogFirst, names);
    GroupReport(LastName, CatalogLast, names);
    forall c, m | c in CatalogConflicts(names) && m in c.characters
      ensures KeyOfKind(c.kind)(m) == Some(c.name)
    {
      MembersKeyed(KeyOfKind(c.kind), names, c.name);
    }
  }

  /** A name of a single token never takes part in a last-name conflict. */
  lemma SingleTokenNeverLastName(names: seq<string>, m: string)
    requires |Split(m)| == 1
    ensures forall c :: c in CatalogConflicts(names) && c.kind == LastName ==> m !in c.characters
  {
    ConflictsWellFormed(names);
  }

  /**
   * A conflict of a kind is reported for `key` exactly when two listed names
   * share it as their first (last) token.
   */
  lemma ConflictsComplete(names: seq<string>, kind: ConflictType, key: string)
    ensures (exists c :: c in CatalogConflicts(names) && c.kind == kind && c.name == key)
      <==> Shared(KeyOfKind(kind), names, key)
  {
    var rf, rl := Report(FirstName, Grouped(CatalogFirst, names)), Report(LastName, Grouped(CatalogLast, names));
    GroupReport(FirstName, CatalogFirst, names);
    GroupReport(LastName, CatalogLast, names);
    GroupReportComplete(kind, KeyOfKind(kind), names, key);
    assert forall c :: c in CatalogConflicts(names) <==> c in rf || c in rl;
  }

  /** All first-name conflicts come before all last-name conflicts. */
  lemma ConflictsKindsInOrder(names: seq<string>)
    ensures forall i, j :: 0 <= i < j < |CatalogConflicts(names)| && CatalogConflicts(names)[j].kind == FirstName ==>
      CatalogConflicts(names)[i].kind == FirstName
  {
    var rf, rl := Report(FirstName, Grouped(CatalogFirst, names)), Report(LastName, Grouped(CatalogLast, names));
    var r := CatalogConflicts(names);
    GroupReport(FirstName, CatalogFirst, names);
    GroupReport(LastName, CatalogLast, names);
    forall k | 0 <= k < |r| ensures r[k].kind == (if k < |rf| then FirstName else LastName) {
      if k < |rf| {
        assert r[k] == rf[k] && rf[k] in rf;
      } else {
        assert r[k] == rl[k - |rf|] && rl[k - |rf|] in rl;
      }
    }
  }

  /**
   * Within a kind the conflicts follow the first occurrence of their keys, so
   * no key is reported twice.
   */
  lemma ConflictsOrderedWithinKind(names: seq<string>)
    ensures forall i, j :: 0 <= i < j < |CatalogConflicts(names)| && CatalogConflicts(names)[i].kind == CatalogConflicts(names)[j].kind ==>
      var keyOf := KeyOfKind(CatalogConflicts(names)[i].kind);
      FirstSeen(keyOf, names, CatalogConflicts(names)[i].name) < FirstSeen(keyOf, names, CatalogConflicts(names)[j].name)
  {
    var rf, rl := Report(FirstName, Grouped(CatalogFirst, names)), Report(LastName, Grouped(CatalogLast, names));
    var r := CatalogConflicts(names);
    GroupReport(FirstName, CatalogFirst, names);
    GroupReport(LastName, CatalogLast, names);
    forall i, j | 0 <= i < j < |r|
      ensures r[i].kind == r[j].kind ==>
        FirstSeen(KeyOfKind(r[i].kind), names, r[i].name) < FirstSeen(KeyOfKind(r[i].kind), names, r[j].name)
    {
      if j < |rf| {
        assert r[i] == rf[i] && r[j] == rf[j];
      } else if i >= |rf| {
        assert r[i] == rl[i - |rf|] && r[j] == rl[j - |rf|];
      } else {
        assert r[i] == rf[i] && rf[i] in rf;
        assert r[j] == rl[j - |rf|] && rl[j - |rf|] in rl;
      }
    }
  }

  // ---------------------------------------------------------------------------
  // What check_scene_conflicts promises

  /**
   * One warning per first token shared by two or more selected names, each
   * quoting that token and every selected name that starts with it, in
   * selection order; no token is warned about twice. Unlike the catalogue, an
   * empty or "nan" name is not skipped here, and last tokens play no part.
   */
  lemma SceneWarningsSpec(selected: seq<string>, key: string)
    ensures var cs := SceneConflicts(selected);
      && (exists i :: 0 <= i < |cs| && cs[i].name == key) <==> Shared(SelectionFirst, selected, key)
    ensures var cs := SceneConflicts(selected);
      forall i :: 0 <= i < |cs| ==>
        Warnings(cs)[i] == Warning(cs[i].name, Members(SelectionFirst, selected, cs[i].name))
    ensures var cs := SceneConflicts(selected);
      forall i, j :: 0 <= i < j < |cs| ==> cs[i].name != cs[j].name
  {
    var cs := SceneConflicts(selected);
    GroupReport(FirstName, SelectionFirst, selected);
    GroupReportComplete(FirstName, SelectionFirst, selected, key);
    if Shared(SelectionFirst, selected, key) {
      var c :| c in cs && c.name == key;
      var i :| 0 <= i < |cs| && cs[i] == c;
    }
    assert forall i :: 0 <= i < |cs| ==> cs[i] in cs;
  }
}
