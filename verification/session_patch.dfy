/**
 * Inserting a `getCurrentSession()` accessor after the `startWritingSession` method of the
 * companion service's source text, as `fix_session_interface` does it.
 */
module SessionPatch {
  import opened TextSearch
  import opened DepthScan

  /** Its presence means the accessor is already there. */
  const AccessorCall: string := "getCurrentSession()"

  /** The statement the script looks for to confirm the session code is present. */
  const SaveCall: string := "this.saveToLocalStorage();"

  /** The start of the method after whose body the accessor goes. */
  const StartSignature: string := "async startWritingSession("

  /** The inserted accessor: a blank line, then a method returning the held session. */
  const NewMethod: string :=
    "\n\n  " + AccessorCall + ": WritingSession | null {\n    return this.currentSession;\n  }"

  /**
   * The guard at the script's insertion point: `find(SaveCall) + len(SaveCall)` exceeds
   * `len(SaveCall) - 1`, which is how the script tests that `find` did not return -1.
   */
  predicate InsertPointFound(content: string)
    ensures InsertPointFound(content) <==> Contains(content, SaveCall)
  {
    IndexOf(content, SaveCall) + |SaveCall| > |SaveCall| - 1
  }

  /** `st` is the first method signature and `pos` the `}` that closes its body. */
  ghost predicate MethodEnd(content: string, st: nat, pos: nat) {
    FirstOccurrence(content, StartSignature, st) && FirstTopBrace(content, st, pos)
  }

  /**
   * `fix_session_interface`'s insertion: when the accessor is missing, the save call and the
   * method signature are both present, and the method body closes, the accessor text goes
   * right after the closing `}`; otherwise the text is unchanged.
   */
  function InsertAccessor(content: string): (r: string)
    ensures Contains(content, AccessorCall) ==> r == content
    ensures !Contains(content, SaveCall) || !Contains(content, StartSignature) ==> r == content
    ensures forall st: nat ::
      (FirstOccurrence(content, StartSignature, st) && NoTopBrace(content, st)) ==> r == content
    ensures forall st: nat, pos: nat ::
      (MethodEnd(content, st, pos) && !Contains(content, AccessorCall) && Contains(content, SaveCall)) ==>
      r == content[..pos + 1] + NewMethod + content[pos + 1..]
  {
    if ContainsText(content, AccessorCall) then content
    else if !InsertPointFound(content) then content
    else
      match Find(content, StartSignature)
      case None => content
      case Some(st) =>
        var pos := ScanBraces(content, st);
        assert forall st': nat :: FirstOccurrence(content, StartSignature, st') ==> st' == st by {
          forall st': nat | FirstOccurrence(content, StartSignature, st') {
            FirstOccurrenceUnique(content, StartSignature, st, st');
          }
        }
        assert forall st': nat, pos': nat :: MethodEnd(content, st', pos') ==> pos' == pos by {
          forall st': nat, pos': nat | MethodEnd(content, st', pos') {
            FirstTopBraceUnique(content, st, pos, pos');
          }
        }
        if pos < |content| then content[..pos + 1] + NewMethod + content[pos + 1..]
        else content
  }

  /** The inserted text carries the very call whose presence stops a second insertion. */
  lemma NewMethodHasAccessorCall()
    ensures OccursAt(NewMethod, AccessorCall, 4)
  {
    assert NewMethod[4..4 + |AccessorCall|] == AccessorCall;
  }

  /** Running the script twice inserts the accessor at most once. */
  lemma InsertAccessorIdempotent(content: string)
    ensures InsertAccessor(InsertAccessor(content)) == InsertAccessor(content)
  {
    var r := InsertAccessor(content);
    if r != content {
      var pos :| 0 <= pos < |content| && r == content[..pos + 1] + NewMethod + content[pos + 1..];
      NewMethodHasAccessorCall();
      OccursInConcat(content[..pos + 1], NewMethod, content[pos + 1..], AccessorCall, 4);
    }
  }
}
