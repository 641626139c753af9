/**
 * The character operations of the store: `createCharacter`, `updateCharacter` and `deleteCharacter`, each a
 * read-modify-write over the freshly loaded snapshot.
 */
module CharacterStore {
  import opened Common
  import opened Seqs
  import opened Entities
  import opened ProjectStore

  /** The argument of `createCharacter`. */
  datatype NewCharacterData = NewCharacterData(name: string, description: Option<string>, projectId: string)

  /** A character as `createCharacter` builds it: a supporting role, no age, blank profile, stamped `now`. */
  function NewCharacter(data: NewCharacterData, id: string, now: Timestamp): (s: Character)
    ensures s.id == id && s.name == data.name && s.projectId == data.projectId
    ensures s.description == (if Truthy(data.description) then data.description.value else "")
    ensures s.role == "supporting" && s.age.None?
    ensures s.appearance == "" && s.personality == "" && s.backstory == ""
    ensures s.goals == "" && s.createdAt == now && s.updatedAt == now
  {
    Character(id, data.name, OrElse(data.description, ""), data.projectId, "supporting", None,
      "", "", "", "", now, now)
  }

  /**
   * `createCharacter(data)` with `id` the value `generateId()` returns and `now` the clock reading.
   * The character is returned whether or not its project exists; only an existing project gets it.
   */
  function CreateCharacter(ps: seq<Project>, data: NewCharacterData, id: string, now: Timestamp)
    : (r: Outcome<Character>)
    ensures r.value.id == id && r.value.name == data.name && r.value.projectId == data.projectId
    ensures r.value.description == (if Truthy(data.description) then data.description.value else "")
    ensures r.value.role == "supporting" && r.value.age.None?
    ensures r.value.appearance == "" && r.value.personality == "" && r.value.backstory == ""
    ensures r.value.goals == "" && r.value.createdAt == now && r.value.updatedAt == now
    ensures r.emitted == []
    ensures r.saved <==> exists k :: 0 <= k < |ps| && ps[k].id == data.projectId
    ensures !r.saved ==> Untouched(r, ps)
    ensures r.saved ==>
      var i := ProjectIndex(ps, data.projectId).value;
      && OnlyAt(ps, r.projects, i)
      && r.projects[i] == ps[i].(characters := Some(CharactersOf(ps[i]) + [r.value]), updatedAt := now)
  {
    var character := NewCharacter(data, id, now);
    match ProjectIndex(ps, data.projectId)
    case None => Outcome(character, ps, false, [])
    case Some(i) =>
      var owner := ps[i].(characters := Some(CharactersOf(ps[i]) + [character]), updatedAt := now);
      Outcome(character, ps[i := owner], true, [])
  }

  /**
   * `updateCharacter(characterId, updates)`. The character is stamped with `characterNow` and its project with
   * `projectNow`: the source reads the clock once for each.
   */
  function UpdateCharacter(ps: seq<Project>, characterId: string, u: CharacterPatch, characterNow: Timestamp, projectNow: Timestamp)
    : (r: Outcome<Option<Character>>)
    ensures r.value.None? <==> forall k :: 0 <= k < |ps| ==> !HasCharacter(ps[k], characterId)
    ensures r.value.None? ==> Untouched(r, ps)
    ensures r.value.Some? ==>
      var i, j := LocateCharacter(ps, characterId).value.0, LocateCharacter(ps, characterId).value.1;
      var ss := ps[i].characters.value;
      && r.saved && r.emitted == []
      && OnlyAt(ps, r.projects, i)
      && r.value.value == MergeCharacter(ss[j], u, characterNow)
      && r.projects[i] == ps[i].(characters := Some(ss[j := r.value.value]), updatedAt := projectNow)
  {
    match LocateCharacter(ps, characterId)
    case None => Outcome(None, ps, false, [])
    case Some((i, j)) =>
      var ss := ps[i].characters.value;
      var updated := MergeCharacter(ss[j], u, characterNow);
      var owner := ps[i].(characters := Some(ss[j := updated]), updatedAt := projectNow);
      Outcome(Some(updated), ps[i := owner], true, [])
  }

  /** `deleteCharacter(characterId)`: splice out the first match and stamp its project. */
  function DeleteCharacter(ps: seq<Project>, characterId: string, now: Timestamp): (r: Outcome<bool>)
    ensures r.value <==> exists k :: 0 <= k < |ps| && HasCharacter(ps[k], characterId)
    ensures !r.value ==> Untouched(r, ps)
    ensures r.value ==>
      var i, j := LocateCharacter(ps, characterId).value.0, LocateCharacter(ps, characterId).value.1;
      var ss := ps[i].characters.value;
      && r.saved && r.emitted == []
      && OnlyAt(ps, r.projects, i)
      && r.projects[i] == ps[i].(characters := Some(RemoveAt(ss, j)), updatedAt := now)
  {
    match LocateCharacter(ps, characterId)
    case None => Outcome(false, ps, false, [])
    case Some((i, j)) =>
      var ss := ps[i].characters.value;
      var owner := ps[i].(characters := Some(RemoveAt(ss, j)), updatedAt := now);
      Outcome(true, ps[i := owner], true, [])
  }

  // ---------------------------------------------------------------------------------------
  // Properties
  // ---------------------------------------------------------------------------------------

  /** `id` names a character at position `j` of project `i`. */
  ghost predicate CharacterIdAt(ps: seq<Project>, id: string, i: int, j: int) {
    0 <= i < |ps| && 0 <= j < |CharactersOf(ps[i])| && CharactersOf(ps[i])[j].id == id
  }

  /** At most one character in the whole snapshot carries `id`. */
  ghost predicate UniqueCharacterId(ps: seq<Project>, id: string) {
    forall i1, j1, i2, j2 :: CharacterIdAt(ps, id, i1, j1) && CharacterIdAt(ps, id, i2, j2) ==> i1 == i2 && j1 == j2
  }

  /**
   * Creating under an existing project grows exactly that project's list by one, with the new
   * character last and every earlier character where it was; a missing list starts out empty.
   */
  lemma CreateCharacterAppends(ps: seq<Project>, data: NewCharacterData, id: string, now: Timestamp, i: nat)
    requires i < |ps| && ps[i].id == data.projectId
    requires forall k :: 0 <= k < i ==> ps[k].id != data.projectId
    ensures var r := CreateCharacter(ps, data, id, now);
      var before, after := CharactersOf(ps[i]), CharactersOf(r.projects[i]);
      && r.saved && |r.projects| == |ps|
      && |after| == |before| + 1
      && after[|before|] == r.value
      && after[..|before|] == before
      && (ps[i].characters.None? ==> r.projects[i].characters == Some([r.value]))
      && r.projects[i].updatedAt == now
  {
    var r := CreateCharacter(ps, data, id, now);
    assert ProjectIndex(ps, data.projectId) == Some(i) by {
      var k := ProjectIndex(ps, data.projectId).value;
      assert !(k < i) && !(i < k);
    }
    assert CharactersOf(r.projects[i]) == CharactersOf(ps[i]) + [r.value];
  }

  /** A character with a fresh id keeps the store invariants when created. */
  lemma CreateCharacterKeepsStoreOk(ps: seq<Project>, data: NewCharacterData, id: string, now: Timestamp)
    requires StoreOk(ps)
    requires forall k :: 0 <= k < |ps| ==> !HasCharacter(ps[k], id)
    ensures StoreOk(CreateCharacter(ps, data, id, now).projects)
  {
    var r := CreateCharacter(ps, data, id, now);
    if r.saved {
      var i := ProjectIndex(ps, data.projectId).value;
      var qs := r.projects;
      var before := CharactersOf(ps[i]);
      var after := CharactersOf(qs[i]);
      assert after == before + [r.value];
      assert qs[i].id == ps[i].id;
      forall a, b | 0 <= a < b < |after| ensures after[a].id != after[b].id {
        if b == |before| {
          assert after[a] == before[a];
          assert !HasCharacter(ps[i], id);
        } else {
          assert after[a] == before[a] && after[b] == before[b];
        }
      }
      forall a | 0 <= a < |after| ensures after[a].projectId == qs[i].id {
        if a < |before| { assert after[a] == before[a]; }
      }
      assert StoriesOf(qs[i]) == StoriesOf(ps[i]);
      assert qs == ps[i := qs[i]];
      StoreOkReplace(ps, i, qs[i]);
    }
  }

  /** An update that rewrites neither the character's id nor its project keeps the store invariants. */
  lemma UpdateCharacterKeepsStoreOk(ps: seq<Project>, characterId: string, u: CharacterPatch, characterNow: Timestamp, projectNow: Timestamp)
    requires StoreOk(ps)
    requires u.id.None? && u.projectId.None?
    ensures StoreOk(UpdateCharacter(ps, characterId, u, characterNow, projectNow).projects)
  {
    var r := UpdateCharacter(ps, characterId, u, characterNow, projectNow);
    if r.value.Some? {
      var i, j := LocateCharacter(ps, characterId).value.0, LocateCharacter(ps, characterId).value.1;
      var qs := r.projects;
      var before := CharactersOf(ps[i]);
      var after := CharactersOf(qs[i]);
      assert after == before[j := r.value.value];
      assert after[j].id == before[j].id && after[j].projectId == before[j].projectId;
      forall a, b | 0 <= a < b < |after| ensures after[a].id != after[b].id {
        assert after[a].id == before[a].id && after[b].id == before[b].id;
      }
      forall a | 0 <= a < |after| ensures after[a].projectId == qs[i].id {
        assert after[a].projectId == before[a].projectId;
      }
      assert StoriesOf(qs[i]) == StoriesOf(ps[i]);
      assert qs == ps[i := qs[i]];
      StoreOkReplace(ps, i, qs[i]);
    }
  }

  /** Deleting a character keeps the store invariants. */
  lemma DeleteCharacterKeepsStoreOk(ps: seq<Project>, characterId: string, now: Timestamp)
    requires StoreOk(ps)
    ensures StoreOk(DeleteCharacter(ps, characterId, now).projects)
  {
    var r := DeleteCharacter(ps, characterId, now);
    if r.value {
      var i, j := LocateCharacter(ps, characterId).value.0, LocateCharacter(ps, characterId).value.1;
      var qs := r.projects;
      var before := CharactersOf(ps[i]);
      var after := CharactersOf(qs[i]);
      assert after == RemoveAt(before, j);
      forall a, b | 0 <= a < b < |after| ensures after[a].id != after[b].id {
        var a' := if a < j then a else a + 1;
        var b' := if b < j then b else b + 1;
        assert after[a] == before[a'] && after[b] == before[b'];
      }
      forall a | 0 <= a < |after| ensures after[a].projectId == qs[i].id {
        var a' := if a < j then a else a + 1;
        assert after[a] == before[a'];
      }
      assert StoriesOf(qs[i]) == StoriesOf(ps[i]);
      assert qs == ps[i := qs[i]];
      StoreOkReplace(ps, i, qs[i]);
    }
  }

  /**
   * Deleting a character whose id is unique in the snapshot removes every trace of it, so a
   * second delete of the same id returns false and leaves the snapshot as it is.
   */
  lemma DeleteCharacterTwice(ps: seq<Project>, characterId: string, now1: Timestamp, now2: Timestamp)
    requires UniqueCharacterId(ps, characterId)
    ensures var once := DeleteCharacter(ps, characterId, now1);
      var twice := DeleteCharacter(once.projects, characterId, now2);
      !twice.value && Untouched(twice, once.projects)
  {
    var once := DeleteCharacter(ps, characterId, now1);
    if once.value {
      var i, j := LocateCharacter(ps, characterId).value.0, LocateCharacter(ps, characterId).value.1;
      var qs := once.projects;
      assert CharacterIdAt(ps, characterId, i, j);
      forall k | 0 <= k < |qs| ensures !HasCharacter(qs[k], characterId) {
        if k == i {
          var before := CharactersOf(ps[i]);
          var after := CharactersOf(qs[i]);
          assert after == RemoveAt(before, j);
          forall m | 0 <= m < |after| ensures after[m].id != characterId {
            var m' := if m < j then m else m + 1;
            assert after[m] == before[m'];
            assert !CharacterIdAt(ps, characterId, i, m');
          }
        } else {
          assert qs[k] == ps[k];
          forall m | 0 <= m < |CharactersOf(qs[k])| ensures CharactersOf(qs[k])[m].id != characterId {
            assert !CharacterIdAt(ps, characterId, k, m);
          }
        }
      }
    }
  }

  /**
   * Deleting a character just created under an existing project gives that project its old
   * characters back; every other project is as it was.
   */
  lemma CreateThenDeleteCharacter(ps: seq<Project>, data: NewCharacterData, id: string, now1: Timestamp, now2: Timestamp, i: nat)
    requires i < |ps| && ps[i].id == data.projectId
    requires forall k :: 0 <= k < i ==> ps[k].id != data.projectId
    requires forall k :: 0 <= k < |ps| ==> !HasCharacter(ps[k], id)
    ensures var created := CreateCharacter(ps, data, id, now1);
      var deleted := DeleteCharacter(created.projects, id, now2);
      && deleted.value
      && OnlyAt(ps, deleted.projects, i)
      && CharactersOf(deleted.projects[i]) == CharactersOf(ps[i])
      && deleted.projects[i].updatedAt == now2
  {
    CreateCharacterAppends(ps, data, id, now1, i);
    var created := CreateCharacter(ps, data, id, now1);
    var qs := created.projects;
    var before := CharactersOf(ps[i]);
    var after := CharactersOf(qs[i]);
    assert after[|before|].id == id;
    forall k | 0 <= k < i ensures !HasCharacter(qs[k], id) { assert qs[k] == ps[k]; }
    forall m | 0 <= m < |before| ensures after[m].id != id {
      assert after[m] == before[m];
    }
    assert CharacterIndex(qs[i], id) == Some(|before|) by {
      assert HasCharacter(qs[i], id);
    }
    LocateCharacterAt(qs, id, i, |before|);
    assert RemoveAt(after, |before|) == before;
  }

  /**
   * Updating a character just created under an existing project finds it there and leaves the
   * project with the same number of characters, the updated one last.
   */
  lemma CreateThenUpdateCharacter(ps: seq<Project>, data: NewCharacterData, id: string, u: CharacterPatch,
                              now1: Timestamp, now2: Timestamp, now3: Timestamp, i: nat)
    requires i < |ps| && ps[i].id == data.projectId
    requires forall k :: 0 <= k < i ==> ps[k].id != data.projectId
    requires forall k :: 0 <= k < |ps| ==> !HasCharacter(ps[k], id)
    ensures var created := CreateCharacter(ps, data, id, now1);
      var updated := UpdateCharacter(created.projects, id, u, now2, now3);
      && updated.value == Some(MergeCharacter(created.value, u, now2))
      && |CharactersOf(updated.projects[i])| == |CharactersOf(ps[i])| + 1
      && CharactersOf(updated.projects[i])[|CharactersOf(ps[i])|] == updated.value.value
      && updated.projects[i].updatedAt == now3
  {
    CreateCharacterAppends(ps, data, id, now1, i);
    var created := CreateCharacter(ps, data, id, now1);
    var qs := created.projects;
    var before := CharactersOf(ps[i]);
    var after := CharactersOf(qs[i]);
    forall k | 0 <= k < i ensures !HasCharacter(qs[k], id) { assert qs[k] == ps[k]; }
    forall m | 0 <= m < |before| ensures after[m].id != id {
      assert after[m] == before[m];
    }
    assert CharacterIndex(qs[i], id) == Some(|before|) by {
      assert after[|before|].id == id;
      assert HasCharacter(qs[i], id);
    }
    LocateCharacterAt(qs, id, i, |before|);
  }
}
