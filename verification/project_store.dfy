/**
 * The project-level operation of the store. Every operation of the store is a
 * read-modify-write over a freshly loaded snapshot `ps`: it returns its result, the snapshot
 * as it then stands, whether that snapshot was handed to `saveProjects`, and the events it
 * emitted.
 */
module ProjectStore {
  import opened Common
  import opened Entities

  /** The events the store emits; only project-level updates are wired. */
  datatype Event = ProjectUpdated(project: Project)

  datatype Outcome<R> = Outcome(value: R, projects: seq<Project>, saved: bool, emitted: seq<Event>)

  /** `o` leaves the store alone: the snapshot is unchanged, not saved, nothing emitted. */
  predicate Untouched<R>(o: Outcome<R>, ps: seq<Project>) {
    !o.saved && o.projects == ps && o.emitted == []
  }

  /** `qs` is `ps` with at most the entry at `i` replaced. */
  predicate OnlyAt(ps: seq<Project>, qs: seq<Project>, i: nat) {
    |qs| == |ps| && i < |ps| && forall k :: 0 <= k < |ps| && k != i ==> qs[k] == ps[k]
  }

  /** The word count is recounted only when a truthy title or description is supplied. */
  predicate RecountsWords(d: ProjectPatch) {
    Truthy(d.title) || Truthy(d.description)
  }

  /**
   * `updateProjectSync(id, data)`. The clock is read once for `updatedAt` (`updatedNow`) and
   * once more for `lastEditedAt` (`editedNow`); `recount` is what
   * `calculateProjectWordCount(id)` returns at the time of the call.
   */
  function UpdateProjectSync(ps: seq<Project>, id: string, d: ProjectPatch, updatedNow: Timestamp,
                             editedNow: Timestamp, recount: int)
    : (r: Outcome<Option<Project>>)
    ensures r.value.None? <==> forall k :: 0 <= k < |ps| ==> ps[k].id != id
    ensures r.value.None? ==> Untouched(r, ps)
    ensures r.value.Some? ==>
      var i := ProjectIndex(ps, id).value;
      var u := r.value.value;
      && r.saved
      && OnlyAt(ps, r.projects, i)
      && r.projects[i] == u
      && r.emitted == [ProjectUpdated(u)]
      && u.updatedAt == updatedNow && u.lastEditedAt == editedNow
      && u.title == d.title.GetOr(ps[i].title)
      && u.description == d.description.GetOr(ps[i].description)
      && u.wordCount == (if RecountsWords(d) then recount else d.wordCount.GetOr(ps[i].wordCount))
      && u == MergeProject(ps[i], d, updatedNow, editedNow).(wordCount := u.wordCount)
  {
    match ProjectIndex(ps, id)
    case None => Outcome(None, ps, false, [])
    case Some(i) =>
      var merged := MergeProject(ps[i], d, updatedNow, editedNow);
      var updated := if RecountsWords(d) then merged.(wordCount := recount) else merged;
      Outcome(Some(updated), ps[i := updated], true, [ProjectUpdated(updated)])
  }

  /**
   * Re-applying the same update at the same time changes nothing more: the snapshot after
   * the second call is the snapshot after the first, as long as the update keeps the id.
   */
  lemma UpdateProjectSyncIdempotent(ps: seq<Project>, id: string, d: ProjectPatch,
                                    updatedNow: Timestamp, editedNow: Timestamp, recount: int)
    requires d.id.None? || d.id == Some(id)
    ensures var once := UpdateProjectSync(ps, id, d, updatedNow, editedNow, recount);
      UpdateProjectSync(once.projects, id, d, updatedNow, editedNow, recount).projects == once.projects
  {
    var once := UpdateProjectSync(ps, id, d, updatedNow, editedNow, recount);
    if once.value.Some? {
      var i := ProjectIndex(ps, id).value;
      var qs := once.projects;
      assert ProjectIndex(qs, id) == Some(i) by {
        assert qs[i].id == id;
        forall k | 0 <= k < i ensures qs[k].id != id { assert qs[k] == ps[k]; }
        var j := ProjectIndex(qs, id).value;
        assert j <= i;
        assert !(j < i);
      }
      var twice := UpdateProjectSync(qs, id, d, updatedNow, editedNow, recount);
      assert twice.projects[i] == qs[i];
      assert twice.projects == qs;
    }
  }

  /**
   * An update that rewrites neither the id nor the story and character lists keeps the store
   * invariants.
   */
  lemma UpdateProjectSyncKeepsStoreOk(ps: seq<Project>, id: string, d: ProjectPatch,
                                    updatedNow: Timestamp, editedNow: Timestamp, recount: int)
    requires StoreOk(ps)
    requires d.id.None? && d.stories.None? && d.characters.None?
    ensures StoreOk(UpdateProjectSync(ps, id, d, updatedNow, editedNow, recount).projects)
  {
    var r := UpdateProjectSync(ps, id, d, updatedNow, editedNow, recount);
    if r.value.Some? {
      var i := ProjectIndex(ps, id).value;
      var qs := r.projects;
      assert qs[i].id == ps[i].id && StoriesOf(qs[i]) == StoriesOf(ps[i])
        && CharactersOf(qs[i]) == CharactersOf(ps[i]);
      assert StoriesOk(qs[i]) && CharactersOk(qs[i]);
      assert qs == ps[i := qs[i]];
      StoreOkReplace(ps, i, qs[i]);
    }
  }
}
