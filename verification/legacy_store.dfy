/**
 * The story code `fix_services_properly` replaces. It mutates a project obtained separately
 * from the snapshot that is then written back, and persists only through `updateProjectSync`,
 * which loads its own snapshot. Modelled on the reading that every load (`getProjectById`,
 * `getAllProjects`) hands out a fresh copy of the stored projects.
 */
module LegacyStore {
  import opened Common
  import opened Entities
  import opened ProjectStore
  import opened StoryStore

  /** `{ updatedAt: now }`, the only change the old code passes on to storage. */
  function TouchOnly(now: Timestamp): ProjectPatch {
    ProjectPatch(None, None, None, None, Some(now), None, None, None, None)
  }

  /**
   * The old `createStory` tail: push the story onto a fetched copy of the project, then call
   * `updateProjectSync(projectId, { updatedAt: now })`. Both of that call's clock readings are
   * `syncNow`: no contract here depends on the project stamps.
   */
  function LegacyCreateStory(ps: seq<Project>, data: NewStoryData, id: string, now: Timestamp,
                             syncNow: Timestamp, recount: int): (r: Outcome<Story>)
    ensures r.value == CreateStory(ps, data, id, now).value
  {
    var story := NewStory(data, id, now);
    match ProjectIndex(ps, data.projectId)
    case None => Outcome(story, ps, false, [])
    case Some(_) =>
      var sync := UpdateProjectSync(ps, data.projectId, TouchOnly(now), syncNow, syncNow, recount);
      Outcome(story, sync.projects, sync.saved, sync.emitted)
  }

  /**
   * The old `updateStory`: merge into the loaded project's story list, then call
   * `updateProjectSync(project.id, { updatedAt: ... })`, which saves a snapshot of its own.
   */
  function LegacyUpdateStory(ps: seq<Project>, storyId: string, u: StoryPatch, storyNow: Timestamp,
                             syncNow: Timestamp, recount: int): (r: Outcome<Option<Story>>)
    ensures r.value == UpdateStory(ps, storyId, u, storyNow, syncNow).value
  {
    match LocateStory(ps, storyId)
    case None => Outcome(None, ps, false, [])
    case Some((i, j)) =>
      var updated := MergeStory(ps[i].stories.value[j], u, storyNow);
      var sync := UpdateProjectSync(ps, ps[i].id, TouchOnly(syncNow), syncNow, syncNow, recount);
      Outcome(Some(updated), sync.projects, sync.saved, sync.emitted)
  }

  /**
   * The old `deleteStory`: splice the story out of the loaded project, then call
   * `updateProjectSync(project.id, { updatedAt: ... })`, which saves a snapshot of its own.
   */
  function LegacyDeleteStory(ps: seq<Project>, storyId: string, syncNow: Timestamp, recount: int)
    : (r: Outcome<bool>)
    ensures r.value == DeleteStory(ps, storyId, syncNow).value
  {
    match LocateStory(ps, storyId)
    case None => Outcome(false, ps, false, [])
    case Some((i, _)) =>
      var sync := UpdateProjectSync(ps, ps[i].id, TouchOnly(syncNow), syncNow, syncNow, recount);
      Outcome(true, sync.projects, sync.saved, sync.emitted)
  }

  /** An `{ updatedAt }`-only update leaves every story list of the snapshot as it was. */
  lemma TouchKeepsStories(ps: seq<Project>, id: string, now: Timestamp, syncNow: Timestamp,
                          editedNow: Timestamp, recount: int)
    ensures var qs := UpdateProjectSync(ps, id, TouchOnly(now), syncNow, editedNow, recount).projects;
      |qs| == |ps| && forall k :: 0 <= k < |ps| ==> StoriesOf(qs[k]) == StoriesOf(ps[k])
  {
  }

  /**
   * The old `createStory` returns a story that never reaches storage, while the fixed one
   * persists it whenever the project exists.
   */
  lemma LegacyCreateStoryLosesStory(ps: seq<Project>, data: NewStoryData, id: string, now: Timestamp,
                                    syncNow: Timestamp, recount: int)
    requires forall k :: 0 <= k < |ps| ==> !HasStory(ps[k], id)
    ensures var legacy := LegacyCreateStory(ps, data, id, now, syncNow, recount);
      forall k :: 0 <= k < |legacy.projects| ==> !HasStory(legacy.projects[k], id)
    ensures var fixed := CreateStory(ps, data, id, now);
      fixed.saved <==> exists k :: 0 <= k < |fixed.projects| && HasStory(fixed.projects[k], id)
  {
    TouchKeepsStories(ps, data.projectId, now, syncNow, syncNow, recount);
    var fixed := CreateStory(ps, data, id, now);
    if fixed.saved {
      var i := ProjectIndex(ps, data.projectId).value;
      var ss := StoriesOf(fixed.projects[i]);
      assert ss[|ss| - 1] == fixed.value;
    } else {
      forall k | 0 <= k < |fixed.projects| ensures !HasStory(fixed.projects[k], id) {
        assert fixed.projects[k] == ps[k];
      }
    }
  }

  /**
   * The old `updateStory` reports the merged story, but the snapshot it saves still holds
   * every story exactly as loaded; the fixed one saves the merged story in place.
   */
  lemma LegacyUpdateStoryLosesUpdate(ps: seq<Project>, storyId: string, u: StoryPatch, storyNow: Timestamp,
                                     syncNow: Timestamp, recount: int)
    ensures var legacy := LegacyUpdateStory(ps, storyId, u, storyNow, syncNow, recount);
      |legacy.projects| == |ps| &&
      forall k :: 0 <= k < |ps| ==> StoriesOf(legacy.projects[k]) == StoriesOf(ps[k])
    ensures var fixed := UpdateStory(ps, storyId, u, storyNow, syncNow);
      fixed.value.Some? ==>
        var i, j := LocateStory(ps, storyId).value.0, LocateStory(ps, storyId).value.1;
        StoriesOf(fixed.projects[i])[j] == fixed.value.value
  {
    match LocateStory(ps, storyId)
    case None =>
    case Some((i, j)) =>
      TouchKeepsStories(ps, ps[i].id, syncNow, syncNow, syncNow, recount);
  }

  /**
   * The old `deleteStory` reports success, but the snapshot it saves still holds the story;
   * the fixed one saves a snapshot whose list has lost exactly that one entry.
   */
  lemma LegacyDeleteStoryKeepsStory(ps: seq<Project>, storyId: string, syncNow: Timestamp, recount: int)
    ensures var legacy := LegacyDeleteStory(ps, storyId, syncNow, recount);
      |legacy.projects| == |ps| &&
      forall k :: 0 <= k < |ps| ==> StoriesOf(legacy.projects[k]) == StoriesOf(ps[k])
    ensures var fixed := DeleteStory(ps, storyId, syncNow);
      fixed.value ==>
        var i := LocateStory(ps, storyId).value.0;
        |StoriesOf(fixed.projects[i])| == |StoriesOf(ps[i])| - 1
  {
    match LocateStory(ps, storyId)
    case None =>
    case Some((i, j)) =>
      TouchKeepsStories(ps, ps[i].id, syncNow, syncNow, syncNow, recount);
  }
}
