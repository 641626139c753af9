/**
 * Writing sessions of the AI companion: the session `startWritingSession` builds and the
 * accessor `getCurrentSession` that `fix_session_interface` adds.
 */
module WritingSessions {
  import opened Common

  /**
   * A writing session. Suggestions and feedback are kept abstract as `S` and `F`; times are
   * `Date.now()` readings in milliseconds.
   */
  datatype WritingSession<S, F> = WritingSession(
    id: string, title: string, contentId: Option<string>, mood: Option<string>,
    startTime: int, endTime: Option<int>, content: string, wordCount: int, totalWords: int,
    wordsAdded: int, timeSpent: int, productivity: int, suggestions: seq<S>, feedback: seq<F>,
    aiInteractions: int, isActive: bool)

  /** The fields `startWritingSession` fills in after `productivity`, outside this model. */
  datatype SessionTail<S, F> = SessionTail(
    endTime: Option<int>, suggestions: seq<S>, feedback: seq<F>, aiInteractions: int, isActive: bool)

  /** The mood a session falls back to. */
  const NeutralMood: string := "neutral"

  /**
   * `this.validateMood(mood) || 'neutral'`, where `validated` is what `validateMood` returned:
   * a session always gets a non-empty mood, the validated one whenever it is truthy.
   */
  function SessionMood(validated: Option<string>): (m: string)
    ensures m != ""
    ensures Truthy(validated) ==> m == validated.value
    ensures !Truthy(validated) ==> m == NeutralMood
  {
    OrElse(validated, NeutralMood)
  }

  /** Nothing has been written in the session yet and no time has been counted. */
  predicate Pristine<S, F>(s: WritingSession<S, F>) {
    && s.content == ""
    && s.wordCount == 0 && s.totalWords == 0 && s.wordsAdded == 0
    && s.timeSpent == 0 && s.productivity == 0
  }

  /**
   * The session `startWritingSession(title, contentId, mood)` builds, with `id` the generated
   * session id, `validated` the result of `validateMood(mood)` and `now` the clock reading.
   */
  function StartWritingSession<S, F>(id: string, title: string, contentId: Option<string>,
                                     validated: Option<string>, now: int, tail: SessionTail<S, F>)
    : (s: WritingSession<S, F>)
    ensures Pristine(s)
    ensures s.mood.Some? && s.mood.value != ""
    ensures s.mood == Some(if Truthy(validated) then validated.value else NeutralMood)
    ensures s.id == id && s.title == title && s.contentId == contentId && s.startTime == now
  {
    WritingSession(id, title, contentId, Some(SessionMood(validated)), now, tail.endTime, "",
      0, 0, 0, 0, 0, tail.suggestions, tail.feedback, tail.aiInteractions, tail.isActive)
  }

  /**
   * If `validateMood` only ever returns a word of the vocabulary (or nothing), every session
   * mood is a word of the vocabulary or the neutral default.
   */
  lemma MoodWithinVocabulary<S, F>(vocabulary: set<string>, id: string, title: string,
                                   contentId: Option<string>, validated: Option<string>, now: int,
                                   tail: SessionTail<S, F>)
    requires validated.Some? ==> validated.value in vocabulary
    ensures StartWritingSession(id, title, contentId, validated, now, tail).mood.value
      in vocabulary + {NeutralMood}
  {
  }

  /** The companion's session state: the session it currently holds, if any. */
  datatype Companion<S, F> = Companion(currentSession: Option<WritingSession<S, F>>)

  /** `getCurrentSession()`: a plain read of the held session, `None` for `null`. */
  function GetCurrentSession<S, F>(c: Companion<S, F>): Option<WritingSession<S, F>> {
    c.currentSession
  }
}
