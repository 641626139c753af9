/**
 * The story operations of the store: `createStory`, `updateStory` and `deleteStory`, each a
 * read-modify-write over the freshly loaded snapshot.
 */
module StoryStore {
  import opened Common
  import opened Seqs
  import opened Entities
  import opened ProjectStore

  /** The argument of `createStory`. */
  datatype NewStoryData = NewStoryData(title: string, description: Option<string>, projectId: string)

  /** A story as `createStory` builds it: empty, unarchived, first in order, stamped `now`. */
  function NewStory(data: NewStoryData, id: string, now: Timestamp): (s: Story)
    ensures s.id == id && s.title == data.title && s.projectId == data.projectId
    ensures s.description == (if Truthy(data.description) then data.description.value else "")
    ensures s.content == "" && s.wordCount == 0 && s.order == 0 && s.kind == "story"
    ensures !s.isArchived && s.createdAt == now && s.updatedAt == now
  {
    Story(id, data.title, OrElse(data.description, ""), data.projectId, "", 0, "story",
      now, now, false, 0)
  }

  /**
   * `createStory(data)` with `id` the value `generateId()` returns and `now` the clock reading.
   * The story is returned whether or not its project exists; only an existing project gets it.
   */
  function CreateStory(ps: seq<Project>, data: NewStoryData, id: string, now: Timestamp)
    : (r: Outcome<Story>)
    ensures r.value.id == id && r.value.title == data.title && r.value.projectId == data.projectId
    ensures r.value.description == (if Truthy(data.description) then data.description.value else "")
    ensures r.value.content == "" && r.value.wordCount == 0 && r.value.order == 0
    ensures !r.value.isArchived && r.value.createdAt == now && r.value.updatedAt == now
    ensures r.emitted == []
    ensures r.saved <==> exists k :: 0 <= k < |ps| && ps[k].id == data.projectId
    ensures !r.saved ==> Untouched(r, ps)
    ensures r.saved ==>
      var i := ProjectIndex(ps, data.projectId).value;
      && OnlyAt(ps, r.projects, i)
      && r.projects[i] == ps[i].(stories := Some(StoriesOf(ps[i]) + [r.value]), updatedAt := now)
  {
    var story := NewStory(data, id, now);
    match ProjectIndex(ps, data.projectId)
    case None => Outcome(story, ps, false, [])
    case Some(i) =>
      var owner := ps[i].(stories := Some(StoriesOf(ps[i]) + [story]), updatedAt := now);
      Outcome(story, ps[i := owner], true, [])
  }

  /**
   * `updateStory(storyId, updates)`. The story is stamped with `storyNow` and its project with
   * `projectNow`: the source reads the clock once for each.
   */
  function UpdateStory(ps: seq<Project>, storyId: string, u: StoryPatch, storyNow: Timestamp, projectNow: Timestamp)
    : (r: Outcome<Option<Story>>)
    ensures r.value.None? <==> forall k :: 0 <= k < |ps| ==> !HasStory(ps[k], storyId)
    ensures r.value.None? ==> Untouched(r, ps)
    ensures r.value.Some? ==>
      var i, j := LocateStory(ps, storyId).value.0, LocateStory(ps, storyId).value.1;
      var ss := ps[i].stories.value;
      && r.saved && r.emitted == []
      && OnlyAt(ps, r.projects, i)
      && r.value.value == MergeStory(ss[j], u, storyNow)
      && r.projects[i] == ps[i].(stories := Some(ss[j := r.value.value]), updatedAt := projectNow)
  {
    match LocateStory(ps, storyId)
    case None => Outcome(None, ps, false, [])
    case Some((i, j)) =>
      var ss := ps[i].stories.value;
      var updated := MergeStory(ss[j], u, storyNow);
      var owner := ps[i].(stories := Some(ss[j := updated]), updatedAt := projectNow);
      Outcome(Some(updated), ps[i := owner], true, [])
  }

  /** `deleteStory(storyId)`: splice out the first match and stamp its project. */
  function DeleteStory(ps: seq<Project>, storyId: string, now: Timestamp): (r: Outcome<bool>)
    ensures r.value <==> exists k :: 0 <= k < |ps| && HasStory(ps[k], storyId)
    ensures !r.value ==> Untouched(r, ps)
    ensures r.value ==>
      var i, j := LocateStory(ps, storyId).value.0, LocateStory(ps, storyId).value.1;
      var ss := ps[i].stories.value;
      && r.saved && r.emitted == []
      && OnlyAt(ps, r.projects, i)
      && r.projects[i] == ps[i].(stories := Some(RemoveAt(ss, j)), updatedAt := now)
  {
    match LocateStory(ps, storyId)
    case None => Outcome(false, ps, false, [])
    case Some((i, j)) =>
      var ss := ps[i].stories.value;
      var owner := ps[i].(stories := Some(RemoveAt(ss, j)), updatedAt := now);
      Outcome(true, ps[i := owner], true, [])
  }

  // ---------------------------------------------------------------------------------------
  // Properties
  // ---------------------------------------------------------------------------------------

  /** `id` names a story at position `j` of project `i`. */
  ghost predicate StoryIdAt(ps: seq<Project>, id: string, i: int, j: int) {
    0 <= i < |ps| && 0 <= j < |StoriesOf(ps[i])| && StoriesOf(ps[i])[j].id == id
  }

  /** At most one story in the whole snapshot carries `id`. */
  ghost predicate UniqueStoryId(ps: seq<Project>, id: string) {
    forall i1, j1, i2, j2 :: StoryIdAt(ps, id, i1, j1) && StoryIdAt(ps, id, i2, j2) ==> i1 == i2 && j1 == j2
  }

  /**
   * Creating under an existing project grows exactly that project's list by one, with the new
   * story last and every earlier story where it was; a missing list starts out empty.
   */
  lemma CreateStoryAppends(ps: seq<Project>, data: NewStoryData, id: string, now: Timestamp, i: nat)
    requires i < |ps| && ps[i].id == data.projectId
    requires forall k :: 0 <= k < i ==> ps[k].id != data.projectId
    ensures var r := CreateStory(ps, data, id, now);
      var before, after := StoriesOf(ps[i]), StoriesOf(r.projects[i]);
      && r.saved && |r.projects| == |ps|
      && |after| == |before| + 1
      && after[|before|] == r.value
      && after[..|before|] == before
      && (ps[i].stories.None? ==> r.projects[i].stories == Some([r.value]))
      && r.projects[i].updatedAt == now
  {
    var r := CreateStory(ps, data, id, now);
    assert ProjectIndex(ps, data.projectId) == Some(i) by {
      var k := ProjectIndex(ps, data.projectId).value;
      assert !(k < i) && !(i < k);
    }
    assert StoriesOf(r.projects[i]) == StoriesOf(ps[i]) + [r.value];
  }

  /** A story with a fresh id keeps the store invariants when created. */
  lemma CreateStoryKeepsStoreOk(ps: seq<Project>, data: NewStoryData, id: string, now: Timestamp)
    requires StoreOk(ps)
    requires forall k :: 0 <= k < |ps| ==> !HasStory(ps[k], id)
    ensures StoreOk(CreateStory(ps, data, id, now).projects)
  {
    var r := CreateStory(ps, data, id, now);
    if r.saved {
      var i := ProjectIndex(ps, data.projectId).value;
      var qs := r.projects;
      var before := StoriesOf(ps[i]);
      var after := StoriesOf(qs[i]);
      assert after == before + [r.value];
      assert qs[i].id == ps[i].id;
      forall a, b | 0 <= a < b < |after| ensures after[a].id != after[b].id {
        if b == |before| {
          assert after[a] == before[a];
          assert !HasStory(ps[i], id);
        } else {
          assert after[a] == before[a] && after[b] == before[b];
        }
      }
      forall a | 0 <= a < |after| ensures after[a].projectId == qs[i].id {
        if a < |before| { assert after[a] == before[a]; }
      }
      assert CharactersOf(qs[i]) == CharactersOf(ps[i]);
      assert qs == ps[i := qs[i]];
      StoreOkReplace(ps, i, qs[i]);
    }
  }

  /** An update that rewrites neither the story's id nor its project keeps the store invariants. */
  lemma UpdateStoryKeepsStoreOk(ps: seq<Project>, storyId: string, u: StoryPatch, storyNow: Timestamp, projectNow: Timestamp)
    requires StoreOk(ps)
    requires u.id.None? && u.projectId.None?
    ensures StoreOk(UpdateStory(ps, storyId, u, storyNow, projectNow).projects)
  {
    var r := UpdateStory(ps, storyId, u, storyNow, projectNow);
    if r.value.Some? {
      var i, j := LocateStory(ps, storyId).value.0, LocateStory(ps, storyId).value.1;
      var qs := r.projects;
      var before := StoriesOf(ps[i]);
      var after := StoriesOf(qs[i]);
      assert after == before[j := r.value.value];
      assert after[j].id == before[j].id && after[j].projectId == before[j].projectId;
      forall a, b | 0 <= a < b < |after| ensures after[a].id != after[b].id {
        assert after[a].id == before[a].id && after[b].id == before[b].id;
      }
      forall a | 0 <= a < |after| ensures after[a].projectId == qs[i].id {
        assert after[a].projectId == before[a].projectId;
      }
      assert CharactersOf(qs[i]) == CharactersOf(ps[i]);
      assert qs == ps[i := qs[i]];
      StoreOkReplace(ps, i, qs[i]);
    }
  }

  /** Deleting a story keeps the store invariants. */
  lemma DeleteStoryKeepsStoreOk(ps: seq<Project>, storyId: string, now: Timestamp)
    requires StoreOk(ps)
    ensures StoreOk(DeleteStory(ps, storyId, now).projects)
  {
    var r := DeleteStory(ps, storyId, now);
    if r.value {
      var i, j := LocateStory(ps, storyId).value.0, LocateStory(ps, storyId).value.1;
      var qs := r.projects;
      var before := StoriesOf(ps[i]);
      var after := StoriesOf(qs[i]);
      assert after == RemoveAt(before, j);
      forall a, b | 0 <= a < b < |after| ensures after[a].id != after[b].id {
        var a' := if a < j then a else a + 1;
        var b' := if b < j then b else b + 1;
        assert after[a] == before[a'] && after[b] == before[b'];
      }
      forall a | 0 <= a < |after| ensures after[a].projectId == qs[i].id {
        var a' := if a < j then a else a + 1;
        assert after[a] == before[a'];
      }
      assert CharactersOf(qs[i]) == CharactersOf(ps[i]);
      assert qs == ps[i := qs[i]];
      StoreOkReplace(ps, i, qs[i]);
    }
  }

  /**
   * Deleting a story whose id is unique in the snapshot removes every trace of it, so a
   * second delete of the same id returns false and leaves the snapshot as it is.
   */
  lemma DeleteStoryTwice(ps: seq<Project>, storyId: string, now1: Timestamp, now2: Timestamp)
    requires UniqueStoryId(ps, storyId)
    ensures var once := DeleteStory(ps, storyId, now1);
      var twice := DeleteStory(once.projects, storyId, now2);
      !twice.value && Untouched(twice, once.projects)
  {
    var once := DeleteStory(ps, storyId, now1);
    if once.value {
      var i, j := LocateStory(ps, storyId).value.0, LocateStory(ps, storyId).value.1;
      var qs := once.projects;
      assert StoryIdAt(ps, storyId, i, j);
      forall k | 0 <= k < |qs| ensures !HasStory(qs[k], storyId) {
        if k == i {
          var before := StoriesOf(ps[i]);
          var after := StoriesOf(qs[i]);
          assert after == RemoveAt(before, j);
          forall m | 0 <= m < |after| ensures after[m].id != storyId {
            var m' := if m < j then m else m + 1;
            assert after[m] == before[m'];
            assert !StoryIdAt(ps, storyId, i, m');
          }
        } else {
          assert qs[k] == ps[k];
          forall m | 0 <= m < |StoriesOf(qs[k])| ensures StoriesOf(qs[k])[m].id != storyId {
            assert !StoryIdAt(ps, storyId, k, m);
          }
        }
      }
    }
  }

  /**
   * Deleting a story just created under an existing project gives that project its old
   * stories back; every other project is as it was.
   */
  lemma CreateThenDeleteStory(ps: seq<Project>, data: NewStoryData, id: string, now1: Timestamp, now2: Timestamp, i: nat)
    requires i < |ps| && ps[i].id == data.projectId
    requires forall k :: 0 <= k < i ==> ps[k].id != data.projectId
    requires forall k :: 0 <= k < |ps| ==> !HasStory(ps[k], id)
    ensures var created := CreateStory(ps, data, id, now1);
      var deleted := DeleteStory(created.projects, id, now2);
      && deleted.value
      && OnlyAt(ps, deleted.projects, i)
      && StoriesOf(deleted.projects[i]) == StoriesOf(ps[i])
      && deleted.projects[i].updatedAt == now2
  {
    CreateStoryAppends(ps, data, id, now1, i);
    var created := CreateStory(ps, data, id, now1);
    var qs := created.projects;
    var before := StoriesOf(ps[i]);
    var after := StoriesOf(qs[i]);
    assert after[|before|].id == id;
    forall k | 0 <= k < i ensures !HasStory(qs[k], id) { assert qs[k] == ps[k]; }
    forall m | 0 <= m < |before| ensures after[m].id != id {
      assert after[m] == before[m];
    }
    assert StoryIndex(qs[i], id) == Some(|before|) by {
      assert HasStory(qs[i], id);
    }
    LocateStoryAt(qs, id, i, |before|);
    assert RemoveAt(after, |before|) == before;
  }

  /**
   * Updating a story just created under an existing project finds it there and leaves the
   * project with the same number of stories, the updated one last.
   */
  lemma CreateThenUpdateStory(ps: seq<Project>, data: NewStoryData, id: string, u: StoryPatch,
                              now1: Timestamp, now2: Timestamp, now3: Timestamp, i: nat)
    requires i < |ps| && ps[i].id == data.projectId
    requires forall k :: 0 <= k < i ==> ps[k].id != data.projectId
    requires forall k :: 0 <= k < |ps| ==> !HasStory(ps[k], id)
    ensures var created := CreateStory(ps, data, id, now1);
      var updated := UpdateStory(created.projects, id, u, now2, now3);
      && updated.value == Some(MergeStory(created.value, u, now2))
      && |StoriesOf(updated.projects[i])| == |StoriesOf(ps[i])| + 1
      && StoriesOf(updated.projects[i])[|StoriesOf(ps[i])|] == updated.value.value
      && updated.projects[i].updatedAt == now3
  {
    CreateStoryAppends(ps, data, id, now1, i);
    var created := CreateStory(ps, data, id, now1);
    var qs := created.projects;
    var before := StoriesOf(ps[i]);
    var after := StoriesOf(qs[i]);
    forall k | 0 <= k < i ensures !HasStory(qs[k], id) { assert qs[k] == ps[k]; }
    forall m | 0 <= m < |before| ensures after[m].id != id {
      assert after[m] == before[m];
    }
    assert StoryIndex(qs[i], id) == Some(|before|) by {
      assert after[|before|].id == id;
      assert HasStory(qs[i], id);
    }
    LocateStoryAt(qs, id, i, |before|);
  }
}
