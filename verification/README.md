# ASTRAL_NOTES service patchers, modelled in Dafny

ASTRAL_NOTES has five Python patch scripts. Each one rewrites a TypeScript service file of the
client. This project models two things the scripts carry, as pure functions over immutable data:

- **The project store that the scripts write.** These are the TypeScript bodies of
  `updateProjectSync`, `createStory`, `updateStory`, `deleteStory`, `createCharacter`,
  `updateCharacter` and `deleteCharacter`. Each is a read-modify-write over a freshly loaded
  snapshot of the projects (`seq<Project>`):
  - every project owns an optional list of stories and an optional list of characters;
  - an operation returns an `Outcome`, which holds its result, the snapshot as it then
    stands, whether that snapshot was handed to `saveProjects`, and the events it emitted.

  The replaced ("legacy") story code is modelled as well. It persisted through
  `updateProjectSync`, and the model shows what that code lost.
- **The scripts' own text splicing.** `fix_personalities` and `fix_personality_complete` scan
  for the `]` that closes `this.personalities = [` at bracket depth 0, and splice a new profile
  array in its place. `fix_session_interface` scans for the `}` that closes
  `async startWritingSession(` at brace depth 0, and inserts a `getCurrentSession()` accessor
  after it unless that accessor is already there. Each scan is a recursive function. It is
  proved equal to a declarative "first top-level closer" definition built on the net bracket
  count of a text. Each splice is stated as "prefix kept, suffix kept, this text in between,
  unchanged when the marker is missing".

The constant data is modelled too:
- the two personality tables and the profiles generated from the second of them;
- the initial state of a new writing session.

Modules, in dependency order:
- `Common`: `Option` and JavaScript string truthiness.
- `Seqs`: first index and removal.
- `TextSearch`: Python `str.find`.
- `DepthScan`: the bracket and brace scans.
- `PersonalitySplice` and `SessionPatch`: the text splices.
- `Personalities`: the profile tables.
- `WritingSessions`: the new session and its accessor.
- `Entities`: projects, stories, characters, merges and look-ups.
- `ProjectStore`: `updateProjectSync`.
- `StoryStore` and `CharacterStore`: the story and character operations.
- `LegacyStore`: the replaced story code.

The model supplies the clock readings, the generated ids, and the results of
`calculateProjectWordCount` and `validateMood` as parameters. Saving is the `saved` flag of an
`Outcome`. Emitting is its `emitted` list.

fix_project_service.py defines its `updateProjectSync` replacement text (lines 15-44) but never
applies it: lines 176-181 substitute only the other five methods. The model follows that
replacement text, because it is the only body of `updateProjectSync` the repository contains.

## Model

| member | source | states |
|---|---|---|
| Common.OrElse | fix_project_service.py:53 | the logical-or default of a string (`description` or `''`): the value when it is truthy, the fallback otherwise |
| Seqs.FirstIndex | fix_project_service.py:66 | `findIndex`: the first element satisfying the test, `None` (for -1) exactly when none does |
| Seqs.RemoveAt | fix_project_service.py:166 | `splice(i, 1)`: one element shorter, the elements before `i` in place and those after it shifted down by one |
| TextSearch.Find | fix_personalities.py:111-112 | `str.find`: the result is the first index at which the needle occurs, and it is `None` exactly when the needle does not occur |
| TextSearch.IndexOf | fix_session_interface.py:76 | the -1-or-index convention of `str.find`: -1 exactly when the needle is absent, otherwise the first occurrence |
| DepthScan.ScanBrackets | fix_personalities.py:113-123 | the bracket loop stops at the first `]` after the marker whose preceding text has net bracket count 0, so nested pairs are skipped; it runs to the end of the text exactly when no such `]` exists |
| DepthScan.CloseBracketInvariant | fix_personality_complete.py:84-94 | loop invariant of the bracket scan: starting at depth `d` after a prefix of net count `d`, the scan lands on the first top-level `]` or on the end of the text |
| DepthScan.ScanBraces | fix_session_interface.py:79-90 | the brace loop, counted from the signature start, stops at the first `}` after which the net brace count returns to 0; it reaches the end exactly when no such `}` exists |
| DepthScan.CloseBraceInvariant | fix_session_interface.py:81-90 | loop invariant of the brace scan, including counts that go negative on a stray `}` |
| PersonalitySplice.Locate | fix_personalities.py:111-125 | finds the first marker and the `]` closing its array; `None` only when the marker is absent or the array never closes |
| PersonalitySplice.LocateComplete | fix_personalities.py:111-125 | whenever a marker and its closing `]` exist, the search finds exactly that site |
| PersonalitySplice.LocateUnclosed | fix_personalities.py:125 | a marker whose array never closes makes the search report nothing |
| PersonalitySplice.ReplaceArrayAsWritten | fix_personalities.py:125-129 | as the script is written: text unchanged with no marker or no closing `]`; otherwise prefix + new literal + `\n    ];` + everything after the matched `]`, including the original `;` |
| PersonalitySplice.ReplaceArrayAsWrittenDoublesSemicolon | fix_personalities.py:127-129 | the written splice turns `this.personalities = [];` into text ending in `];;` |
| PersonalitySplice.ReplaceArrayAsWrittenGrows | fix_personalities.py:127-129 | each re-run of the written splice on its own output adds one more character |
| PersonalitySplice.ReplaceArray | fix_personalities.py:125-129 | corrected splice: prefix and suffix are kept verbatim, the array is closed by `\n    ]` exactly once, and the original terminator after the matched `]` is kept |
| PersonalitySplice.ReplaceArrayIdempotent | fix_personalities.py:111-129 | for any balanced literal body, running the corrected splice twice gives the same text as running it once |
| PersonalitySplice.BracketFreeBalanced | fix_personalities.py:30-105 | a literal body with no `[` or `]`, as the profile literal after the marker, meets the balance condition the idempotence lemmas assume |
| PersonalitySplice.ReplaceArrayIdempotentBracketFree | fix_personalities.py:30-129 | the corrected splice of a bracket-free literal body, as the script's own, is idempotent |
| PersonalitySplice.ReplaceArrayComplete | fix_personality_complete.py:82-126 | unchanged with no marker, no closing `]`, or `pos + 2` past the end; otherwise the text before the marker + new array + the text from `pos + 2` on |
| PersonalitySplice.ReplaceArrayCompleteDropsUnchecked | fix_personality_complete.py:96-99 | the two characters at `pos` and `pos + 1` are dropped whatever the second one is |
| PersonalitySplice.ReplaceArrayCompleteIdempotent | fix_personality_complete.py:121-126 | with a generated array of the form marker + balanced body + `];`, a second run gives the same text |
| SessionPatch.InsertPointFound | fix_session_interface.py:76-77 | the `find + len > len - 1` guard holds exactly when `this.saveToLocalStorage();` occurs |
| SessionPatch.InsertAccessor | fix_session_interface.py:73-103 | unchanged if `getCurrentSession()` occurs, if the save call or the signature is absent, or if the method body never closes; otherwise everything up to and including the closing `}` + the new method + the rest |
| SessionPatch.NewMethodHasAccessorCall | fix_session_interface.py:97-101 | the inserted method contains `getCurrentSession()`, the guard text of line 74 |
| SessionPatch.InsertAccessorIdempotent | fix_session_interface.py:74-103 | running the insertion twice is the same as running it once |
| Personalities.Words | fix_personality_complete.py:106 | `name.split()` with no argument, separating at every character `str.isspace` accepts: every word is non-empty and holds no whitespace, and splitting any words joined by spaces gives back exactly those words (`WordsJoinSpaced`) |
| Personalities.WordsJoinSpaced | fix_personality_complete.py:106 | for any sequence of non-empty, whitespace-free words, `split()` of the words joined by single spaces is that sequence again: the split loses, adds and reorders nothing |
| Personalities.FirstWord | fix_personality_complete.py:106 | the next word of `split()` is the longest whitespace-free prefix, followed by whitespace or the end |
| Personalities.WordsOfTwo | fix_personality_complete.py:106 | two whitespace-free words joined by a space, as every name of the table, split into exactly those two words |
| Personalities.WordsAcrossWhitespace | fix_personality_complete.py:106 | two whitespace-free words joined by any one whitespace character, a tab or newline included, split into exactly those two words |
| Personalities.Generate | fix_personality_complete.py:103-118 | a generated profile copies id, name, role, traits, specialties and communication style; its description is the name's second word + ` personality`; greeting style = communication style; feedback style `constructive`; active exactly for `mentor` |
| Personalities.GenerateDescribesBySecondWord | fix_personality_complete.py:106 | for a name of two whitespace-free words, the description is the second word + ` personality` |
| Personalities.GenerateAll | fix_personality_complete.py:101-121 | one generated profile per table entry, in table order |
| Personalities.ActiveCountGenerated | fix_personality_complete.py:118 | the number of active generated profiles equals the number of table entries with id `mentor` |
| Personalities.GeneratedRegistryOk | fix_personality_complete.py:101-121 | any table with distinct ids, one `mentor`, traits in [0,100], role = id and two-word names generates a registry with exactly one active profile, greeting style = communication style and feedback style `constructive` |
| Personalities.ConfigNamesSplit | fix_personality_complete.py:45-76 | every name of the table has the two words `name.split()[1]` needs |
| Personalities.ConfigFieldsHold | fix_personality_complete.py:45-76 | the table's ids are distinct, every trait lies in [0,100], role = id, three specialties each, and the first entry is `mentor` |
| Personalities.ConfigTableHolds | fix_personality_complete.py:45-76 | the table meets every condition the generated registry relies on |
| Personalities.InitialRegistryOk | fix_personality_complete.py:101-121 | the generated registry has five profiles, mentor, critic, cheerleader, collaborator and editor in order, and only `mentor` active |
| Personalities.BaseProfilesOk | fix_personalities.py:30-105 | the literal has five profiles with distinct ids, traits in [0,100], role = id, and only `mentor` active |
| Personalities.TablesAgree | fix_personalities.py:30-105 | the literal and the later configuration table agree on id, name and traits of every profile, in the same order |
| WritingSessions.SessionMood | fix_session_interface.py:62 | the mood is the validated mood when it is truthy, `neutral` otherwise, and never empty |
| WritingSessions.StartWritingSession | fix_session_interface.py:58-69 | a new session has empty content and zero word count, total words, words added, time spent and productivity, with the given id, title, content id, start time and mood rule |
| WritingSessions.MoodWithinVocabulary | fix_session_interface.py:62 | if the validator only returns vocabulary words, every session mood is one of them or `neutral` |
| Entities.MergeStory | fix_project_service.py:86-90 | every key the updates carry overrides the story's, absent keys keep the old value, and `updatedAt` is the clock reading even when the updates carry one |
| Entities.MergeCharacter | fix_project_service.py:142-146 | the same key-by-key override for characters, including clearing `age` |
| Entities.MergeProject | fix_project_service.py:24-29 | every key the data carries overrides the project's; `updatedAt` and `lastEditedAt` are the two clock readings whatever the data says; absent lists stay as they were |
| Entities.MergeStoryProjection | fix_project_service.py:86-90 | the spread merge is a projection: merging the same updates again changes nothing; merging no updates only restamps |
| Entities.MergeCharacterProjection | fix_project_service.py:142-146 | the same for characters |
| Entities.ProjectIndex | fix_project_service.py:66 | `findIndex`: the first project with the id, `None` exactly when none has it |
| Entities.StoryIndex | fix_project_service.py:83-84 | first matching story of one project; `None` when the list is missing or holds no such id |
| Entities.CharacterIndex | fix_project_service.py:139-140 | first matching character of one project; `None` when the list is missing or holds no such id |
| Entities.LocateStory | fix_project_service.py:80-85 | the first project, in order, whose list holds the story, and its index there; `None` exactly when no project holds it |
| Entities.LocateCharacter | fix_project_service.py:136-141 | the same for characters |
| ProjectStore.UpdateProjectSync | fix_project_service.py:16-43 | null and nothing written when no project has the id; otherwise only that entry replaced, supplied fields override, `updatedAt` and `lastEditedAt` are the two separate clock readings, the word count is recounted only for a truthy title or description, saved and one `project-updated` event |
| ProjectStore.UpdateProjectSyncIdempotent | fix_project_service.py:24-37 | re-applying the same update at the same time leaves the snapshot as the first application left it |
| ProjectStore.UpdateProjectSyncKeepsStoreOk | fix_project_service.py:24-37 | an update that touches neither ids nor lists keeps distinct ids and owner links |
| StoryStore.NewStory | fix_project_service.py:49-62 | a new story has the generated id, the given title and project, description defaulting to `''`, empty content, zero words, kind `story`, order 0, not archived, both stamps = now |
| StoryStore.CreateStory | fix_project_service.py:48-75 | the new story has empty content, zero words, order 0, not archived, both stamps = now, description defaulting to `''`; it is appended to an existing project, which is stamped and saved; an unknown project leaves the store untouched but the story is still returned |
| StoryStore.CreateStoryAppends | fix_services_properly.py:9 | the owner's list grows by one with the story last and earlier stories in place; a missing list becomes exactly the new story |
| StoryStore.CreateStoryKeepsStoreOk | fix_project_service.py:65-72 | creating with a fresh id keeps story ids unique and owner links right |
| StoryStore.UpdateStory | fix_project_service.py:79-99 | acts on the first project holding the story; only that story is merged and stamped; the owner is stamped; saved; null and untouched when no project holds it |
| StoryStore.UpdateStoryKeepsStoreOk | fix_services_properly.py:15 | an update that keeps id and project id keeps the store invariants |
| StoryStore.DeleteStory | fix_services_properly.py:33 | removes exactly the first matching story, stamps its project, saves and returns true; false and untouched when absent |
| StoryStore.DeleteStoryKeepsStoreOk | fix_services_properly.py:33 | deleting keeps the store invariants |
| StoryStore.DeleteStoryTwice | fix_services_properly.py:33 | with a unique id, a second delete returns false and changes nothing |
| StoryStore.CreateThenDeleteStory | fix_services_properly.py:9-33 | deleting a story just created restores the owner's list |
| StoryStore.CreateThenUpdateStory | fix_services_properly.py:9-15 | updating a story just created finds it and returns it merged with the updates; the owner's list keeps exactly one more entry than before the creation |
| CharacterStore.NewCharacter | fix_project_service.py:104-118 | a new character has the generated id, the given name and project, description defaulting to `''`, role `supporting`, no age, blank appearance, personality, backstory and goals, both stamps = now |
| CharacterStore.CreateCharacter | fix_project_service.py:103-131 | the new character has role `supporting`, no age, blank appearance, personality, backstory and goals, both stamps = now and description defaulting to `''`; appended and saved as for stories |
| CharacterStore.CreateCharacterAppends | fix_services_properly.py:21 | the owner's list grows by one with the character last; a missing list becomes exactly the new character |
| CharacterStore.CreateCharacterKeepsStoreOk | fix_project_service.py:121-128 | creating with a fresh id keeps character ids unique and owner links right |
| CharacterStore.UpdateCharacter | fix_project_service.py:135-155 | first holder only, one element merged and stamped, owner stamped, saved; null and untouched when absent |
| CharacterStore.UpdateCharacterKeepsStoreOk | fix_services_properly.py:27 | an update that keeps id and project id keeps the store invariants |
| CharacterStore.DeleteCharacter | fix_project_service.py:159-174 | removes exactly the first matching character, stamps its project, saves and returns true; false and untouched when absent |
| CharacterStore.DeleteCharacterKeepsStoreOk | fix_services_properly.py:38 | deleting keeps the store invariants |
| CharacterStore.DeleteCharacterTwice | fix_project_service.py:159-174 | with a unique id, a second delete returns false and changes nothing |
| CharacterStore.CreateThenDeleteCharacter | fix_project_service.py:103-174 | deleting a character just created restores the owner's list |
| CharacterStore.CreateThenUpdateCharacter | fix_project_service.py:103-155 | updating a character just created finds it and returns it merged; the owner's list keeps exactly one more entry than before the creation |
| LegacyStore.LegacyCreateStory | fix_services_properly.py:8 | the replaced `createStory` returns the same story as the fixed one |
| LegacyStore.LegacyUpdateStory | fix_services_properly.py:14 | the replaced `updateStory` returns the same merged story as the fixed one |
| LegacyStore.LegacyDeleteStory | fix_services_properly.py:32 | the replaced `deleteStory` reports the same success as the fixed one |
| LegacyStore.TouchKeepsStories | fix_project_service.py:24-29 | an `{ updatedAt }`-only `updateProjectSync` leaves every story list as loaded |
| LegacyStore.LegacyCreateStoryLosesStory | fix_services_properly.py:8-9 | the replaced code saves a snapshot without the new story; the fixed code's saved snapshot holds it exactly when it saves |
| LegacyStore.LegacyUpdateStoryLosesUpdate | fix_services_properly.py:14-15 | the replaced code saves every story as loaded; the fixed code saves the merged story in place |
| LegacyStore.LegacyDeleteStoryKeepsStory | fix_services_properly.py:32-33 | the replaced code saves every story list as loaded; the fixed code saves the owner's list one shorter |

## Left out

- File reading and writing, the hard-coded paths and the `print` calls: these are plumbing.
- The `re.sub` substitutions of method bodies and interfaces into the TypeScript files: the
  target files are not in the repository, and the regex engine is a library. Only the
  replacement text is modelled.
- The unused `old_personalities` pattern (fix_personalities.py:8-28) and the unused regex
  `pattern` (fix_personalities.py:108): neither is ever read.
- Clocks (`new Date().toISOString()`, `Date.now()`) and id generation (`generateId`,
  `Math.random`): these are parameters. Every separate clock reading is its own parameter:
  `updateProjectSync` reads the clock for `updatedAt` and again for `lastEditedAt`, and
  `updateStory` and `updateCharacter` read it for the item and again for its project.
- `calculateProjectWordCount`, `validateMood`, `storageService.saveProjects` and `emit`: their
  bodies are not shown. The first two are parameters; the last two are the `saved` flag and
  the `emitted` list of an `Outcome`.
- `setActivePersonality`, ending a session, the productivity formula and the clamping of
  `wordsAdded`: there is no code for them in these files.
- `async` and `Promise`: every operation is sequential.
- The exact whitespace and layout of the generated TypeScript text: the splices take the
  generated array or literal as a parameter, and the idempotence lemmas assume only its
  bracket shape.
- An `updates` key that is present but holds `undefined`: a patch field is either absent
  (`None`) or a value.
- Keys of `updates` outside the entity's declared fields: `updates` is typed `any`, and the
  spread would copy such keys into the stored story or character. The patch records carry only
  the declared fields, so the model drops them.
- WritingSessions.GetCurrentSession: a plain read of the held session (`None` for `null`). It
  carries no contract, because any contract would restate the read.
- WritingSessions.StartWritingSession: the fields after `productivity` (`endTime`,
  `suggestions`, `feedback`, `aiInteractions`, `isActive`) are not shown in the source and are
  passed in unchanged.
- The legacy `createCharacter`, `updateCharacter` and `deleteCharacter`
  (fix_services_properly.py:20, 26, 37): they have the shape of their story counterparts and
  are not modelled again.
- LegacyStore: the model assumes that every load (`getProjectById`, `getAllProjects`) returns
  a fresh copy of the stored projects. Under shared references the replaced code would behave
  differently. The two clock readings inside the `updateProjectSync` call of the replaced code
  are both `syncNow`, because none of its contracts speaks of project stamps.
- StoryStore.DeleteStory: the replacement text of `deleteStory` (fix_services_properly.py:33)
  ends at the loop's closing brace, so its not-found result is not shown. The model carries
  over `return false` with the store untouched from `deleteCharacter`
  (fix_project_service.py:173), and `StoryStore.DeleteStoryTwice` rests on that.
- Numbers are unbounded integers. Floating point and `Number` limits are not modelled.
- Personalities.Generate: a one-word name makes `name.split()[1]` raise an error. The model
  makes two words a precondition instead of modelling the exception.

## Findings

| source | as written | input that shows it | evidently intended | confidence | as-written member | corrected member |
|---|---|---|---|---|---|---|
| fix_personalities.py:127-129 | keeps `content[pos + 1:]`, which starts with the array's own `;`, and also writes `\n    ];` before it | `this.personalities = [];` becomes `this.personalities = [` + literal + `\n    ];;`, and every re-run adds another `;` | write only `\n    ]` and keep the original terminator, so the splice is idempotent | likely; not executed | PersonalitySplice.ReplaceArrayAsWritten | PersonalitySplice.ReplaceArray |
