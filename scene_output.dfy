/**
 * The text report of the scene builder (`generate_scene_output` in
 * character_selector.py). A scene record is a dictionary read with
 * `.get(key, default)`; a key the record lacks is `None` here, and every
 * value present is already the text its f-string placeholder renders.
 */
module SceneOutput {
  import opened Options
  import opened Strings

  /** One selected character as the scene record holds it. */
  datatype CharacterCard = CharacterCard(
    name: Option<string>,
    role: Option<string>,
    groups: Option<string>,
    personality: Option<string>,
    dialogueStyle: Option<string>)

  /** The scene record the page assembles before asking for its text. */
  datatype SceneData = SceneData(
    group: Option<string>,
    location: Option<string>,
    characters: Option<seq<CharacterCard>>,
    concept: Option<string>,
    conflicts: Option<seq<string>>)

  /** `scene_data.get('characters', [])`. */
  function Characters(scene: SceneData): seq<CharacterCard> {
    scene.characters.GetOr([])
  }

  /** `if scene_data.get('conflicts'):` — a missing key and an empty list are both false. */
  predicate HasConflicts(scene: SceneData) {
    scene.conflicts.Some? && scene.conflicts.value != []
  }

  // ---------------------------------------------------------------------------
  // The pieces of the report

  /**
   * The fixed wording of the report: its headings and labels, and the text
   * printed in place of a missing value. `Source` holds the wording of
   * character_selector.py; the properties proved below hold for every wording
   * that is `Distinctive`.
   */
  datatype Wording = Wording(
    banner: string, groupLabel: string, locationLabel: string, charactersHeading: string, notSpecified: string,
    bullet: string, unknown: string, roleLabel: string, noRole: string, groupsLabel: string, noGroup: string,
    personalityLabel: string, noPersonality: string, dialogueLabel: string, noDialogue: string,
    conceptHeading: string, noConcept: string, conflictsHeading: string,
    promptHeading: string, promptRequest: string, noLocation: string,
    dash: string, colon: string, conceptLabel: string, note: string)

  const Source: Wording := Wording(
    banner := "=== SCENE BUILDER OUTPUT ===\nGenerated: ",
    groupLabel := "\n\nGROUP: ",
    locationLabel := "\nLOCATION: ",
    charactersHeading := "\n\nCHARACTERS IN SCENE:\n",
    notSpecified := "Not specified",
    bullet := "\U{2022} ",
    unknown := "Unknown",
    roleLabel := " (",
    noRole := "No role",
    groupsLabel := ")\n  Groups: ",
    noGroup := "No group",
    personalityLabel := "\n  Personality: ",
    noPersonality := "No personality data",
    dialogueLabel := "\n  Dialogue Style: ",
    noDialogue := "No dialogue style data",
    conceptHeading := "SCENE CONCEPT:\n",
    noConcept := "No concept provided",
    conflictsHeading := "NAME CONFLICTS TO WATCH:\n",
    promptHeading := "=== AI PROMPT SUGGESTION ===\n",
    promptRequest := "Write a scene with the following characters in ",
    noLocation := "an unspecified location",
    dash := "- ",
    colon := ": ",
    conceptLabel := "\nScene concept: ",
    note := "NOTE: Be careful with name conflicts - use full names or distinctive descriptors when multiple characters share first names.\n")

  /**
   * What the properties of the report rely on: the conflicts heading and the
   * prompt heading differ in their first character, and the NOTE's
   * next-to-last character is not a line break.
   */
  predicate Distinctive(w: Wording) {
    && |w.conflictsHeading| > 0 && |w.promptHeading| > 0
    && w.conflictsHeading[0] != w.promptHeading[0]
    && |w.note| >= 2 && w.note[|w.note| - 2] != '\n'
  }

  function Header(w: Wording, scene: SceneData, timestamp: string): string {
    w.banner + timestamp + w.groupLabel + scene.group.GetOr(w.notSpecified)
      + w.locationLabel + scene.location.GetOr(w.notSpecified) + w.charactersHeading
  }

  /** The bullet block of one character. */
  function Block(w: Wording, c: CharacterCard): string {
    w.bullet + c.name.GetOr(w.unknown) + w.roleLabel + c.role.GetOr(w.noRole)
      + w.groupsLabel + c.groups.GetOr(w.noGroup)
      + w.personalityLabel + c.personality.GetOr(w.noPersonality)
      + w.dialogueLabel + c.dialogueStyle.GetOr(w.noDialogue) + "\n\n"
  }

  function Blocks(w: Wording, cs: seq<CharacterCard>): (bs: seq<string>)
    ensures |bs| == |cs| && forall i :: 0 <= i < |cs| ==> bs[i] == Block(w, cs[i])
  {
    seq(|cs|, i requires 0 <= i < |cs| => Block(w, cs[i]))
  }

  function ConceptSection(w: Wording, scene: SceneData): string {
    w.conceptHeading + scene.concept.GetOr(w.noConcept) + "\n\n"
  }

  /** The conflict warnings, one per line. */
  function ConflictSection(w: Wording, conflicts: seq<string>): string {
    w.conflictsHeading + Join(conflicts, "\n") + "\n\n"
  }

  function PromptHeader(w: Wording, scene: SceneData): string {
    w.promptHeading + w.promptRequest + scene.location.GetOr(w.noLocation) + ":\n"
  }

  /** The prompt line of one character. */
  function PromptLine(w: Wording, c: CharacterCard): string {
    w.dash + c.name.GetOr(w.unknown) + w.colon + c.personality.GetOr(w.noPersonality) + "\n"
  }

  function PromptLines(w: Wording, cs: seq<CharacterCard>): (ls: seq<string>)
    ensures |ls| == |cs| && forall i :: 0 <= i < |cs| ==> ls[i] == PromptLine(w, cs[i])
  {
    seq(|cs|, i requires 0 <= i < |cs| => PromptLine(w, cs[i]))
  }

  function Footer(w: Wording, scene: SceneData): string {
    w.conceptLabel + scene.concept.GetOr(w.noConcept) + "\n\n"
  }

  /** The conflicts section: there only when the scene has conflicts. */
  function ConflictPart(w: Wording, scene: SceneData): string {
    if HasConflicts(scene) then ConflictSection(w, scene.conflicts.value) else ""
  }

  /** The closing NOTE: there only when the scene has conflicts. */
  function NotePart(w: Wording, scene: SceneData): string {
    if HasConflicts(scene) then w.note else ""
  }

  /**
   * The order of the report's parts: the header, one bullet block per
   * character, the concept, the conflicts, the prompt heading, one prompt line
   * per character, the prompt's footer and the note.
   */
  function Layout(header: string, blocks: seq<string>, concept: string, conflicts: string,
                  prompt: string, lines: seq<string>, footer: string, note: string): string
  {
    header + Concat(blocks) + concept + conflicts + prompt + Concat(lines) + footer + note
  }

  /** The whole report in wording `w`. */
  function SceneText(w: Wording, scene: SceneData, timestamp: string): string {
    var cs := Characters(scene);
    Layout(Header(w, scene, timestamp), Blocks(w, cs), ConceptSection(w, scene), ConflictPart(w, scene),
      PromptHeader(w, scene), PromptLines(w, cs), Footer(w, scene), NotePart(w, scene))
  }

  // ---------------------------------------------------------------------------
  // The function of the source

  /** The first loop of `generate_scene_output`: one bullet block per character. */
  method AppendBlocks(w: Wording, output: string, chars: seq<CharacterCard>) returns (r: string)
    ensures r == output + Concat(Blocks(w, chars))
  {
    r := output;
    for i := 0 to |chars|
      invariant r == output + Concat(Blocks(w, chars[..i]))
    {
      assert Blocks(w, chars[..i + 1]) == Blocks(w, chars[..i]) + [Block(w, chars[i])];
      ConcatSnocAfter(output, Blocks(w, chars[..i]), Block(w, chars[i]));
      r := r + Block(w, chars[i]);
    }
    assert chars[..|chars|] == chars;
  }

  /** The second loop of `generate_scene_output`: one prompt line per character. */
  method AppendPromptLines(w: Wording, output: string, chars: seq<CharacterCard>) returns (r: string)
    ensures r == output + Concat(PromptLines(w, chars))
  {
    r := output;
    for i := 0 to |chars|
      invariant r == output + Concat(PromptLines(w, chars[..i]))
    {
      assert PromptLines(w, chars[..i + 1]) == PromptLines(w, chars[..i]) + [PromptLine(w, chars[i])];
      ConcatSnocAfter(output, PromptLines(w, chars[..i]), PromptLine(w, chars[i]));
      r := r + PromptLine(w, chars[i]);
    }
    assert chars[..|chars|] == chars;
  }

  /** `generate_scene_output(scene_data)` in wording `w`, with the clock reading passed in. */
  method RenderScene(w: Wording, scene: SceneData, timestamp: string) returns (output: string)
    ensures output == SceneText(w, scene, timestamp)
  {
    var chars := scene.characters.GetOr([]);
    output := Header(w, scene, timestamp);
    output := AppendBlocks(w, output, chars);
    output := output + ConceptSection(w, scene);
    if scene.conflicts.Some? && scene.conflicts.value != [] {
      output := output + ConflictSection(w, scene.conflicts.value);
    } else {
      AppendEmpty(output);
    }
    output := output + PromptHeader(w, scene);
    output := AppendPromptLines(w, output, chars);
    output := output + Footer(w, scene);
    if scene.conflicts.Some? && scene.conflicts.value != [] {
      output := output + w.note;
    } else {
      AppendEmpty(output);
    }
  }

  /** `generate_scene_output(scene_data)`, with the clock reading passed in. */
  method GenerateSceneOutput(scene: SceneData, timestamp: string) returns (output: string)
    ensures output == SceneText(Source, scene, timestamp)
  {
    output := RenderScene(Source, scene, timestamp);
  }

  /** The wording of the source meets what the properties rely on. */
  lemma SourceDistinctive()
    ensures Distinctive(Source)
  {
  }

  // ---------------------------------------------------------------------------
  // Where the parts of a layout sit

  lemma SliceOfMiddle(a: string, b: string, c: string, lo: nat, hi: nat)
    requires lo <= hi <= |b|
    ensures (a + b + c)[|a| + lo..|a| + hi] == b[lo..hi]
  {
    var s := a + b + c;
    forall k | 0 <= k < hi - lo ensures s[|a| + lo..|a| + hi][k] == b[lo..hi][k] {
      assert s[|a| + lo + k] == b[lo + k];
    }
  }

  /** Block `i` sits right after the header and the blocks before it. */
  lemma LayoutBlock(h: string, bs: seq<string>, c: string, x: string, p: string, ls: seq<string>, f: string, n: string, i: nat)
    requires i < |bs|
    ensures |Concat(bs[..i + 1])| == |Concat(bs[..i])| + |bs[i]|
    ensures PlacedAt(Layout(h, bs, c, x, p, ls, f, n), |h| + |Concat(bs[..i])|, bs[i])
  {
    var rest := c + x + p + Concat(ls) + f + n;
    ConcatPlaced(bs, i);
    assert Layout(h, bs, c, x, p, ls, f, n) == h + Concat(bs) + rest;
    SliceOfMiddle(h, Concat(bs), rest, |Concat(bs[..i])|, |Concat(bs[..i + 1])|);
  }

  /** Line `i` sits right after everything up to the prompt heading and the lines before it. */
  lemma LayoutLine(h: string, bs: seq<string>, c: string, x: string, p: string, ls: seq<string>, f: string, n: string, i: nat)
    requires i < |ls|
    ensures |Concat(ls[..i + 1])| == |Concat(ls[..i])| + |ls[i]|
    ensures PlacedAt(Layout(h, bs, c, x, p, ls, f, n), |h + Concat(bs) + c + x + p| + |Concat(ls[..i])|, ls[i])
  {
    var front, rest := h + Concat(bs) + c + x + p, f + n;
    ConcatPlaced(ls, i);
    assert Layout(h, bs, c, x, p, ls, f, n) == front + Concat(ls) + rest;
    SliceOfMiddle(front, Concat(ls), rest, |Concat(ls[..i])|, |Concat(ls[..i + 1])|);
  }

  lemma BlockInLayout(s: string, at: nat, b: string,
                      h: string, bs: seq<string>, c: string, x: string, p: string, ls: seq<string>, f: string, n: string, i: nat)
    requires i < |bs| && s == Layout(h, bs, c, x, p, ls, f, n) && at == |h| + |Concat(bs[..i])| && b == bs[i]
    ensures PlacedAt(s, at, b)
  {
    LayoutBlock(h, bs, c, x, p, ls, f, n, i);
  }

  lemma LineInLayout(s: string, at: nat, l: string,
                     h: string, bs: seq<string>, c: string, x: string, p: string, ls: seq<string>, f: string, n: string, i: nat)
    requires i < |ls| && s == Layout(h, bs, c, x, p, ls, f, n) && at == |h + Concat(bs) + c + x + p| + |Concat(ls[..i])| && l == ls[i]
    ensures PlacedAt(s, at, l)
  {
    LayoutLine(h, bs, c, x, p, ls, f, n, i);
  }

  /** After the concept come the conflicts and then the prompt heading. */
  lemma LayoutAfterConcept(h: string, bs: seq<string>, c: string, x: string, p: string, ls: seq<string>, f: string, n: string)
    ensures var s, at := Layout(h, bs, c, x, p, ls, f, n), |h + Concat(bs) + c|;
      at <= |s| && s[at..] == x + p + (Concat(ls) + f + n)
  {
    var front := h + Concat(bs) + c;
    var rest := x + p + (Concat(ls) + f + n);
    assert Layout(h, bs, c, x, p, ls, f, n) == front + rest;
  }

  // ---------------------------------------------------------------------------
  // What the report promises

  /** The report opens with its header, which opens with the banner and the time it was generated. */
  lemma StartsWithHeader(w: Wording, scene: SceneData, timestamp: string)
    ensures StartsWith(SceneText(w, scene, timestamp), Header(w, scene, timestamp))
    ensures StartsWith(Header(w, scene, timestamp), w.banner + timestamp)
  {
  }

  /** Where the bullet block of character `i` starts: after the header and the blocks before it. */
  function BlockOffset(w: Wording, scene: SceneData, timestamp: string, i: nat): nat
    requires i <= |Characters(scene)|
  {
    |Header(w, scene, timestamp)| + |Concat(Blocks(w, Characters(scene))[..i])|
  }

  /** The bullet blocks follow each other: the one after block `i` starts where block `i` ends. */
  lemma BlockNext(w: Wording, scene: SceneData, timestamp: string, i: nat)
    requires i < |Characters(scene)|
    ensures BlockOffset(w, scene, timestamp, i + 1) == BlockOffset(w, scene, timestamp, i) + |Block(w, Characters(scene)[i])|
  {
    var bs := Blocks(w, Characters(scene));
    ConcatPlaced(bs, i);
  }

  /** One bullet block per character, in list order: the block of character `i` is in the report at `BlockOffset(i)`. */
  lemma BlockPlaced(w: Wording, scene: SceneData, timestamp: string, i: nat)
    requires i < |Characters(scene)|
    ensures PlacedAt(SceneText(w, scene, timestamp), BlockOffset(w, scene, timestamp, i), Block(w, Characters(scene)[i]))
  {
    var cs := Characters(scene);
    BlockInLayout(SceneText(w, scene, timestamp), BlockOffset(w, scene, timestamp, i), Block(w, cs[i]),
      Header(w, scene, timestamp), Blocks(w, cs), ConceptSection(w, scene), ConflictPart(w, scene),
      PromptHeader(w, scene), PromptLines(w, cs), Footer(w, scene), NotePart(w, scene), i);
  }

  /** Where the prompt lines start: after the header, the blocks, the concept, the conflicts and the prompt heading. */
  function LinesOffset(w: Wording, scene: SceneData, timestamp: string): nat {
    var cs := Characters(scene);
    |Header(w, scene, timestamp) + Concat(Blocks(w, cs)) + ConceptSection(w, scene) + ConflictPart(w, scene) + PromptHeader(w, scene)|
  }

  /** Where the prompt line of character `i` starts. */
  function LineOffset(w: Wording, scene: SceneData, timestamp: string, i: nat): nat
    requires i <= |Characters(scene)|
  {
    LinesOffset(w, scene, timestamp) + |Concat(PromptLines(w, Characters(scene))[..i])|
  }

  /** The prompt lines follow each other: the one after line `i` starts where line `i` ends. */
  lemma LineNext(w: Wording, scene: SceneData, timestamp: string, i: nat)
    requires i < |Characters(scene)|
    ensures LineOffset(w, scene, timestamp, i + 1) == LineOffset(w, scene, timestamp, i) + |PromptLine(w, Characters(scene)[i])|
  {
    var ls := PromptLines(w, Characters(scene));
    ConcatPlaced(ls, i);
  }

  /** One prompt line per character, in list order: the line of character `i` is in the report at `LineOffset(i)`. */
  lemma LinePlaced(w: Wording, scene: SceneData, timestamp: string, i: nat)
    requires i < |Characters(scene)|
    ensures PlacedAt(SceneText(w, scene, timestamp), LineOffset(w, scene, timestamp, i), PromptLine(w, Characters(scene)[i]))
  {
    var cs := Characters(scene);
    LineInLayout(SceneText(w, scene, timestamp), LineOffset(w, scene, timestamp, i), PromptLine(w, cs[i]),
      Header(w, scene, timestamp), Blocks(w, cs), ConceptSection(w, scene), ConflictPart(w, scene),
      PromptHeader(w, scene), PromptLines(w, cs), Footer(w, scene), NotePart(w, scene), i);
  }

  /** Where the conflicts section would start: right after the concept section. */
  function ConflictsOffset(w: Wording, scene: SceneData, timestamp: string): nat {
    |Header(w, scene, timestamp) + Concat(Blocks(w, Characters(scene))) + ConceptSection(w, scene)|
  }

  /** The two headings that may follow the concept section. */
  lemma HeadingsAfterConcept(w: Wording, scene: SceneData)
    ensures ConflictPart(w, scene) == [] <==> !HasConflicts(scene)
    ensures HasConflicts(scene) ==> StartsWith(ConflictPart(w, scene), w.conflictsHeading)
    ensures StartsWith(PromptHeader(w, scene), w.promptHeading)
  {
  }

  /**
   * The conflicts heading follows the concept section exactly when the scene
   * has conflicts; otherwise the prompt heading comes there.
   */
  lemma ConflictSectionIffConflicts(w: Wording, scene: SceneData, timestamp: string)
    requires Distinctive(w)
    ensures var s, at := SceneText(w, scene, timestamp), ConflictsOffset(w, scene, timestamp);
      && at <= |s|
      && (StartsWith(s[at..], w.conflictsHeading) <==> HasConflicts(scene))
      && (!HasConflicts(scene) ==> StartsWith(s[at..], w.promptHeading))
  {
    var cs := Characters(scene);
    var x, p, tail := ConflictPart(w, scene), PromptHeader(w, scene), Concat(PromptLines(w, cs)) + Footer(w, scene) + NotePart(w, scene);
    LayoutAfterConcept(Header(w, scene, timestamp), Blocks(w, cs), ConceptSection(w, scene), x,
      p, PromptLines(w, cs), Footer(w, scene), NotePart(w, scene));
    HeadingsAfterConcept(w, scene);
    OptionalHeading(x, p, tail, w.conflictsHeading, w.promptHeading);
  }

  /** The report closes with the NOTE exactly when the scene has conflicts. */
  lemma NoteIffConflicts(w: Wording, scene: SceneData, timestamp: string)
    requires Distinctive(w)
    ensures EndsWith(SceneText(w, scene, timestamp), w.note) <==> HasConflicts(scene)
  {
  }

  /**
   * The report of `generate_scene_output` itself: it holds the NAME CONFLICTS
   * section after the concept, and closes with the NOTE, exactly when the scene
   * has conflicts.
   */
  lemma SourceConflictsIff(scene: SceneData, timestamp: string)
    ensures var s, at := SceneText(Source, scene, timestamp), ConflictsOffset(Source, scene, timestamp);
      && at <= |s|
      && (StartsWith(s[at..], Source.conflictsHeading) <==> HasConflicts(scene))
      && (EndsWith(s, Source.note) <==> HasConflicts(scene))
  {
    SourceDistinctive();
    ConflictSectionIffConflicts(Source, scene, timestamp);
    NoteIffConflicts(Source, scene, timestamp);
  }
}
