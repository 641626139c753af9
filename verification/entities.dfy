/**
 * The entities of the project store: projects owning ordered lists of stories and characters,
 * and the partial updates (`updates` objects spread over an entity) the store merges in.
 */
module Entities {
  import opened Common
  import opened Seqs

  /** An ISO-8601 clock reading; the model never compares two of them. */
  type Timestamp = string

  datatype Story = Story(
    id: string, title: string, description: string, projectId: string, content: string,
    wordCount: int, kind: string, createdAt: Timestamp, updatedAt: Timestamp,
    isArchived: bool, order: int)

  datatype Character = Character(
    id: string, name: string, description: string, projectId: string, role: string,
    age: Option<int>, appearance: string, personality: string, backstory: string,
    goals: string, createdAt: Timestamp, updatedAt: Timestamp)

  /** `stories` and `characters` may be missing altogether (`None`), which is not the same as empty. */
  datatype Project = Project(
    id: string, title: string, description: string, createdAt: Timestamp,
    updatedAt: Timestamp, lastEditedAt: Timestamp, wordCount: int,
    stories: Option<seq<Story>>, characters: Option<seq<Character>>)

  /** The keys an `updates` object may carry for a story; `None` is an absent key. */
  datatype StoryPatch = StoryPatch(
    id: Option<string>, title: Option<string>, description: Option<string>,
    projectId: Option<string>, content: Option<string>, wordCount: Option<int>,
    kind: Option<string>, createdAt: Option<Timestamp>, updatedAt: Option<Timestamp>,
    isArchived: Option<bool>, order: Option<int>)

  /** The keys an `updates` object may carry for a character; `age` may be present but empty. */
  datatype CharacterPatch = CharacterPatch(
    id: Option<string>, name: Option<string>, description: Option<string>,
    projectId: Option<string>, role: Option<string>, age: Option<Option<int>>,
    appearance: Option<string>, personality: Option<string>, backstory: Option<string>,
    goals: Option<string>, createdAt: Option<Timestamp>, updatedAt: Option<Timestamp>)

  /** The keys an `UpdateProjectData` object may carry. */
  datatype ProjectPatch = ProjectPatch(
    id: Option<string>, title: Option<string>, description: Option<string>,
    createdAt: Option<Timestamp>, updatedAt: Option<Timestamp>, lastEditedAt: Option<Timestamp>,
    wordCount: Option<int>, stories: Option<seq<Story>>, characters: Option<seq<Character>>)

  const NoStoryChanges: StoryPatch :=
    StoryPatch(None, None, None, None, None, None, None, None, None, None, None)

  const NoCharacterChanges: CharacterPatch :=
    CharacterPatch(None, None, None, None, None, None, None, None, None, None, None, None)

  /**
   * `{ ...s, ...u, updatedAt: now }`: every key the updates carry overrides the story's, and
   * the stamp is `now` even when the updates carry an `updatedAt` of their own.
   */
  function MergeStory(s: Story, u: StoryPatch, now: Timestamp): (r: Story)
    ensures Overrides(u.id, s.id, r.id) && Overrides(u.title, s.title, r.title)
    ensures Overrides(u.description, s.description, r.description)
    ensures Overrides(u.projectId, s.projectId, r.projectId)
    ensures Overrides(u.content, s.content, r.content)
    ensures Overrides(u.wordCount, s.wordCount, r.wordCount) && Overrides(u.kind, s.kind, r.kind)
    ensures Overrides(u.createdAt, s.createdAt, r.createdAt)
    ensures Overrides(u.isArchived, s.isArchived, r.isArchived)
    ensures Overrides(u.order, s.order, r.order)
    ensures r.updatedAt == now
  {
    Story(
      u.id.GetOr(s.id), u.title.GetOr(s.title), u.description.GetOr(s.description),
      u.projectId.GetOr(s.projectId), u.content.GetOr(s.content),
      u.wordCount.GetOr(s.wordCount), u.kind.GetOr(s.kind), u.createdAt.GetOr(s.createdAt),
      now, u.isArchived.GetOr(s.isArchived), u.order.GetOr(s.order))
  }

  /** `{ ...c, ...u, updatedAt: now }`, key by key as for stories; an `age` may be cleared. */
  function MergeCharacter(c: Character, u: CharacterPatch, now: Timestamp): (r: Character)
    ensures Overrides(u.id, c.id, r.id) && Overrides(u.name, c.name, r.name)
    ensures Overrides(u.description, c.description, r.description)
    ensures Overrides(u.projectId, c.projectId, r.projectId)
    ensures Overrides(u.role, c.role, r.role) && Overrides(u.age, c.age, r.age)
    ensures Overrides(u.appearance, c.appearance, r.appearance)
    ensures Overrides(u.personality, c.personality, r.personality)
    ensures Overrides(u.backstory, c.backstory, r.backstory) && Overrides(u.goals, c.goals, r.goals)
    ensures Overrides(u.createdAt, c.createdAt, r.createdAt)
    ensures r.updatedAt == now
  {
    Character(
      u.id.GetOr(c.id), u.name.GetOr(c.name), u.description.GetOr(c.description),
      u.projectId.GetOr(c.projectId), u.role.GetOr(c.role), u.age.GetOr(c.age),
      u.appearance.GetOr(c.appearance), u.personality.GetOr(c.personality),
      u.backstory.GetOr(c.backstory), u.goals.GetOr(c.goals),
      u.createdAt.GetOr(c.createdAt), now)
  }

  /**
   * `{ ...p, ...d, updatedAt: updatedNow, lastEditedAt: editedNow }`: every key the data
   * carries overrides the project's, and both stamps are the clock readings whatever the data
   * says. The two stamps are separate readings of the clock.
   */
  function MergeProject(p: Project, d: ProjectPatch, updatedNow: Timestamp, editedNow: Timestamp)
    : (r: Project)
    ensures Overrides(d.id, p.id, r.id) && Overrides(d.title, p.title, r.title)
    ensures Overrides(d.description, p.description, r.description)
    ensures Overrides(d.createdAt, p.createdAt, r.createdAt)
    ensures Overrides(d.wordCount, p.wordCount, r.wordCount)
    ensures Overrides(d.stories, p.stories.GetOr([]), StoriesOf(r))
    ensures Overrides(d.characters, p.characters.GetOr([]), CharactersOf(r))
    ensures d.stories.None? ==> r.stories == p.stories
    ensures d.characters.None? ==> r.characters == p.characters
    ensures r.updatedAt == updatedNow && r.lastEditedAt == editedNow
  {
    Project(
      d.id.GetOr(p.id), d.title.GetOr(p.title), d.description.GetOr(p.description),
      d.createdAt.GetOr(p.createdAt), updatedNow, editedNow, d.wordCount.GetOr(p.wordCount),
      if d.stories.Some? then Some(d.stories.value) else p.stories,
      if d.characters.Some? then Some(d.characters.value) else p.characters)
  }

  /**
   * Merging is a projection: merging the same updates again at the same time changes
   * nothing, and merging no updates only restamps `updatedAt`.
   */
  lemma MergeStoryProjection(s: Story, u: StoryPatch, now: Timestamp)
    ensures MergeStory(MergeStory(s, u, now), u, now) == MergeStory(s, u, now)
    ensures MergeStory(s, NoStoryChanges, now) == s.(updatedAt := now)
    ensures u.id.None? ==> MergeStory(s, u, now).id == s.id
  {
  }

  lemma MergeCharacterProjection(c: Character, u: CharacterPatch, now: Timestamp)
    ensures MergeCharacter(MergeCharacter(c, u, now), u, now) == MergeCharacter(c, u, now)
    ensures MergeCharacter(c, NoCharacterChanges, now) == c.(updatedAt := now)
    ensures u.id.None? ==> MergeCharacter(c, u, now).id == c.id
  {
  }

  /** The story list, with a missing one read as empty (`p.stories || []`). */
  function StoriesOf(p: Project): seq<Story> {
    p.stories.GetOr([])
  }

  function CharactersOf(p: Project): seq<Character> {
    p.characters.GetOr([])
  }

  ghost predicate HasStory(p: Project, id: string) {
    exists j :: 0 <= j < |StoriesOf(p)| && StoriesOf(p)[j].id == id
  }

  ghost predicate HasCharacter(p: Project, id: string) {
    exists j :: 0 <= j < |CharactersOf(p)| && CharactersOf(p)[j].id == id
  }

  /** `projects.findIndex(p => p.id === id)`. */
  function ProjectIndex(ps: seq<Project>, id: string): (r: Option<nat>)
    ensures r.Some? ==> r.value < |ps| && ps[r.value].id == id
    ensures r.Some? ==> forall k :: 0 <= k < r.value ==> ps[k].id != id
    ensures r.None? <==> forall k :: 0 <= k < |ps| ==> ps[k].id != id
  {
    FirstIndex(ps, (p: Project) => p.id == id)
  }

  /** `project.stories.findIndex(s => s.id === id)`, skipped when the list is missing. */
  function StoryIndex(p: Project, id: string): (r: Option<nat>)
    ensures r.Some? ==> p.stories.Some? && r.value < |p.stories.value|
    ensures r.Some? ==> p.stories.value[r.value].id == id
    ensures r.Some? ==> forall m :: 0 <= m < r.value ==> p.stories.value[m].id != id
    ensures r.None? <==> !HasStory(p, id)
  {
    if p.stories.None? then None
    else
      var r := FirstIndex(p.stories.value, (s: Story) => s.id == id);
      assert r.Some? ==> StoriesOf(p)[r.value].id == id;
      r
  }

  function CharacterIndex(p: Project, id: string): (r: Option<nat>)
    ensures r.Some? ==> p.characters.Some? && r.value < |p.characters.value|
    ensures r.Some? ==> p.characters.value[r.value].id == id
    ensures r.Some? ==> forall m :: 0 <= m < r.value ==> p.characters.value[m].id != id
    ensures r.None? <==> !HasCharacter(p, id)
  {
    if p.characters.None? then None
    else
      var r := FirstIndex(p.characters.value, (c: Character) => c.id == id);
      assert r.Some? ==> CharactersOf(p)[r.value].id == id;
      r
  }

  /**
   * The `for` loop over projects that stops at the first project whose stories contain `id`:
   * the project index and the story's index within it.
   */
  function LocateStory(ps: seq<Project>, id: string): (r: Option<(nat, nat)>)
    ensures r.Some? ==> r.value.0 < |ps| && StoryIndex(ps[r.value.0], id) == Some(r.value.1)
    ensures r.Some? ==> forall k :: 0 <= k < r.value.0 ==> !HasStory(ps[k], id)
    ensures r.None? <==> forall k :: 0 <= k < |ps| ==> !HasStory(ps[k], id)
  {
    match FirstIndex(ps, (p: Project) => StoryIndex(p, id).Some?)
    case None => None
    case Some(i) => Some((i, StoryIndex(ps[i], id).value))
  }

  function LocateCharacter(ps: seq<Project>, id: string): (r: Option<(nat, nat)>)
    ensures r.Some? ==> r.value.0 < |ps| && CharacterIndex(ps[r.value.0], id) == Some(r.value.1)
    ensures r.Some? ==> forall k :: 0 <= k < r.value.0 ==> !HasCharacter(ps[k], id)
    ensures r.None? <==> forall k :: 0 <= k < |ps| ==> !HasCharacter(ps[k], id)
  {
    match FirstIndex(ps, (p: Project) => CharacterIndex(p, id).Some?)
    case None => None
    case Some(i) => Some((i, CharacterIndex(ps[i], id).value))
  }

  /** Whoever exhibits the first project holding a story knows where the scan stops. */
  lemma LocateStoryAt(ps: seq<Project>, id: string, i: nat, j: nat)
    requires i < |ps| && StoryIndex(ps[i], id) == Some(j)
    requires forall k :: 0 <= k < i ==> !HasStory(ps[k], id)
    ensures LocateStory(ps, id) == Some((i, j))
  {
  }

  lemma LocateCharacterAt(ps: seq<Project>, id: string, i: nat, j: nat)
    requires i < |ps| && CharacterIndex(ps[i], id) == Some(j)
    requires forall k :: 0 <= k < i ==> !HasCharacter(ps[k], id)
    ensures LocateCharacter(ps, id) == Some((i, j))
  {
  }

  // ---------------------------------------------------------------------------------------
  // Store invariants
  // ---------------------------------------------------------------------------------------

  /** Story ids are unique within the project and every story points back at it. */
  ghost predicate StoriesOk(p: Project) {
    && (forall a, b :: 0 <= a < b < |StoriesOf(p)| ==> StoriesOf(p)[a].id != StoriesOf(p)[b].id)
    && (forall a :: 0 <= a < |StoriesOf(p)| ==> StoriesOf(p)[a].projectId == p.id)
  }

  ghost predicate CharactersOk(p: Project) {
    && (forall a, b :: 0 <= a < b < |CharactersOf(p)| ==> CharactersOf(p)[a].id != CharactersOf(p)[b].id)
    && (forall a :: 0 <= a < |CharactersOf(p)| ==> CharactersOf(p)[a].projectId == p.id)
  }

  /** Project ids are unique store-wide and every project's lists are sound. */
  ghost predicate StoreOk(ps: seq<Project>) {
    && (forall a, b :: 0 <= a < b < |ps| ==> ps[a].id != ps[b].id)
    && (forall i :: 0 <= i < |ps| ==> StoriesOk(ps[i]) && CharactersOk(ps[i]))
  }

  /** Replacing one project by a sound one with the same id keeps the store sound. */
  lemma StoreOkReplace(ps: seq<Project>, i: nat, p: Project)
    requires StoreOk(ps) && i < |ps|
    requires p.id == ps[i].id && StoriesOk(p) && CharactersOk(p)
    ensures StoreOk(ps[i := p])
  {
    var qs := ps[i := p];
    forall a, b | 0 <= a < b < |qs| ensures qs[a].id != qs[b].id {
      assert qs[a].id == ps[a].id && qs[b].id == ps[b].id;
    }
  }
}
