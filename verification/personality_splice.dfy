/**
 * Replacing the `this.personalities = [ ... ]` initialiser in the companion service's source
 * text, as the two personality patch scripts do it: find the first marker, scan to the `]`
 * that closes the array, and splice in the generated initialiser.
 */
module PersonalitySplice {
  import opened Common
  import opened TextSearch
  import opened DepthScan

  /** The text both scripts search for; its last character opens the array. */
  const Marker: string := "this.personalities = ["

  /** What `fix_personalities` writes after the generated profiles. */
  const Indent: string := "\n    "

  /** `st` is the first marker and `pos` the `]` that closes the array it opens. */
  ghost predicate ArraySite(content: string, st: nat, pos: nat) {
    FirstOccurrence(content, Marker, st) && FirstTopBracket(content, st + |Marker|, pos)
  }

  /** A marker is present, but its array is never closed. */
  ghost predicate Unclosed(content: string, st: nat) {
    FirstOccurrence(content, Marker, st) && NoTopBracket(content, st + |Marker|)
  }

  /** Text whose brackets pair up with no `]` closing anything outside it. */
  ghost predicate Balanced(body: string) {
    Net(body, '[', ']') == 0 && NoTopBracket(body, 0)
  }

  /** A literal body without any bracket, as the profile literal of `fix_personalities`, is balanced. */
  lemma BracketFreeBalanced(body: string)
    requires forall i :: 0 <= i < |body| ==> body[i] != '[' && body[i] != ']'
    ensures Balanced(body)
  {
    NetFree(body, '[', ']');
  }

  /** Where the array opened by the first marker closes, if the marker occurs at all. */
  function Locate(content: string): (r: Option<(nat, nat)>)
    ensures r.Some? ==> ArraySite(content, r.value.0, r.value.1)
    ensures r.None? ==> !Contains(content, Marker) || exists st: nat :: Unclosed(content, st)
  {
    match Find(content, Marker)
    case None => None
    case Some(st) =>
      var pos := ScanBrackets(content, st + |Marker|);
      if pos < |content| then Some((st, pos))
      else assert Unclosed(content, st); None
  }

  lemma LocateComplete(content: string, st: nat, pos: nat)
    requires ArraySite(content, st, pos)
    ensures Locate(content) == Some((st, pos))
  {
    var k := Find(content, Marker);
    assert Contains(content, Marker);
    FirstOccurrenceUnique(content, Marker, k.value, st);
    ScanBracketsAt(content, st + |Marker|, pos);
  }

  lemma LocateUnclosed(content: string, st: nat)
    requires Unclosed(content, st)
    ensures Locate(content).None?
  {
    var k := Find(content, Marker);
    assert Contains(content, Marker);
    FirstOccurrenceUnique(content, Marker, k.value, st);
  }

  // ---------------------------------------------------------------------------------------
  // fix_personalities
  // ---------------------------------------------------------------------------------------

  /**
   * `fix_personalities` as written: the text before the marker, the new literal (which itself
   * starts with the marker), `Indent + "];"`, and everything after the matched `]` — including
   * the original `;` that followed it.
   */
  function ReplaceArrayAsWritten(content: string, literal: string): (r: string)
    ensures !Contains(content, Marker) ==> r == content
    ensures forall st: nat :: Unclosed(content, st) ==> r == content
    ensures forall st: nat, pos: nat :: ArraySite(content, st, pos) ==>
      r == content[..st] + literal + Indent + "];" + content[pos + 1..]
  {
    forall st: nat | Unclosed(content, st) { LocateUnclosed(content, st); }
    forall st: nat, pos: nat | ArraySite(content, st, pos) { LocateComplete(content, st, pos); }
    match Locate(content)
    case None => content
    case Some((st, pos)) => content[..st] + literal + Indent + "];" + content[pos + 1..]
  }

  /**
   * The evidently intended `fix_personalities`: after the new literal, keep the matched `]`
   * itself and everything after it, so the array is closed once and its terminator kept.
   */
  function ReplaceArray(content: string, literal: string): (r: string)
    ensures !Contains(content, Marker) ==> r == content
    ensures forall st: nat :: Unclosed(content, st) ==> r == content
    ensures forall st: nat, pos: nat :: ArraySite(content, st, pos) ==>
      r == content[..st] + literal + Indent + "]" + content[pos + 1..]
  {
    forall st: nat | Unclosed(content, st) { LocateUnclosed(content, st); }
    forall st: nat, pos: nat | ArraySite(content, st, pos) { LocateComplete(content, st, pos); }
    match Locate(content)
    case None => content
    case Some((st, pos)) =>
      assert content[pos..] == "]" + content[pos + 1..];
      content[..st] + literal + Indent + content[pos..]
  }

  /**
   * Scanning from just after a marker over a balanced body and a bracket-free gap stops at the
   * `]` that follows them.
   */
  lemma ScanPastBalanced(s: string, from: nat, body: string, gap: string)
    requires Balanced(body)
    requires forall i :: 0 <= i < |gap| ==> gap[i] != '[' && gap[i] != ']'
    requires from + |body| + |gap| < |s|
    requires s[from..from + |body| + |gap|] == body + gap
    requires s[from + |body| + |gap|] == ']'
    ensures ScanBrackets(s, from) == from + |body| + |gap|
  {
    var q := from + |body| + |gap|;
    forall j: nat | j < q
      ensures !TopBracket(s, from, j)
    {
      if from <= j < from + |body| {
        assert s[j] == (body + gap)[j - from];
        assert s[from..j] == (body + gap)[..j - from];
        assert (body + gap)[..j - from] == body[..j - from];
        assert !TopBracket(body, 0, j - from);
      } else if from + |body| <= j {
        assert s[j] == (body + gap)[j - from];
      }
    }
    NetAppend(body, gap, '[', ']');
    NetFree(gap, '[', ']');
    assert TopBracket(s, from, q);
    ScanBracketsAt(s, from, q);
  }

  /**
   * A text that keeps `content` up to and including its first marker, then continues with a
   * balanced body, a bracket-free gap and a `]`, has its array site at that `]`.
   */
  lemma ResplicedSite(content: string, st: nat, body: string, gap: string, t: string)
    requires FirstOccurrence(content, Marker, st)
    requires Balanced(body)
    requires forall i :: 0 <= i < |gap| ==> gap[i] != '[' && gap[i] != ']'
    requires st + |Marker| + |body| + |gap| < |t|
    requires t[..st] == content[..st]
    requires t[st..st + |Marker|] == Marker
    requires t[st + |Marker|..st + |Marker| + |body| + |gap|] == body + gap
    requires t[st + |Marker| + |body| + |gap|] == ']'
    ensures ArraySite(t, st, st + |Marker| + |body| + |gap|)
  {
    var n := st + |Marker|;
    assert t[..n] == content[..n] by {
      assert t[..n] == t[..st] + t[st..n];
      assert content[..n] == content[..st] + content[st..n];
    }
    FirstOccurrenceShared(content, t, Marker, st);
    ScanPastBalanced(t, n, body, gap);
  }

  /** Where the pieces of a spliced text sit. */
  lemma SpliceShape(pre: string, body: string, gap: string, close: string, after: string)
    requires |close| >= 1
    ensures var t := pre + (Marker + body) + gap + close + after;
      var n := |pre| + |Marker|;
      var q := n + |body| + |gap|;
      && |t| == q + |close| + |after|
      && t[..|pre|] == pre
      && t[|pre|..n] == Marker
      && t[n..q] == body + gap
      && t[q] == close[0]
      && t[q + |close|..] == after
  {
    var t := pre + (Marker + body) + gap + close + after;
    var n := |pre| + |Marker|;
    var q := n + |body| + |gap|;
    assert t == pre + (Marker + ((body + gap) + (close + after)));
    assert t[..|pre|] == pre;
    assert t[|pre|..] == Marker + ((body + gap) + (close + after));
    assert t[n..] == (body + gap) + (close + after);
    assert t[n..q] == body + gap;
    assert t[q..] == close + after;
  }

  /** Running the corrected `fix_personalities` twice is the same as running it once. */
  lemma ReplaceArrayIdempotent(content: string, body: string)
    requires Balanced(body)
    ensures ReplaceArray(ReplaceArray(content, Marker + body), Marker + body)
         == ReplaceArray(content, Marker + body)
  {
    var literal := Marker + body;
    var r := ReplaceArray(content, literal);
    var loc := Locate(content);
    if loc.Some? {
      var st, pos := loc.value.0, loc.value.1;
      var pre, after := content[..st], content[pos + 1..];
      var q := st + |Marker| + |body| + |Indent|;
      assert r == pre + literal + Indent + "]" + after;
      SpliceShape(pre, body, Indent, "]", after);
      ResplicedSite(content, st, body, Indent, r);
      assert ReplaceArray(r, literal) == r[..st] + literal + Indent + "]" + r[q + 1..];
    } else {
      assert r == content;
    }
  }

  /** In particular a bracket-free literal body, as the script's own, is spliced idempotently. */
  lemma ReplaceArrayIdempotentBracketFree(content: string, body: string)
    requires forall i :: 0 <= i < |body| ==> body[i] != '[' && body[i] != ']'
    ensures ReplaceArray(ReplaceArray(content, Marker + body), Marker + body)
         == ReplaceArray(content, Marker + body)
  {
    BracketFreeBalanced(body);
    ReplaceArrayIdempotent(content, body);
  }

  /**
   * The script as written is not idempotent: every further run splices in another copy of the
   * closing `];` while keeping the previous `;`, so the text grows by one character.
   */
  lemma ReplaceArrayAsWrittenGrows(content: string, body: string, st: nat, pos: nat)
    requires Balanced(body)
    requires ArraySite(content, st, pos)
    ensures var once := ReplaceArrayAsWritten(content, Marker + body);
      var twice := ReplaceArrayAsWritten(once, Marker + body);
      |twice| == |once| + 1
  {
    var literal := Marker + body;
    var r := ReplaceArrayAsWritten(content, literal);
    var pre, after := content[..st], content[pos + 1..];
    assert r == pre + literal + Indent + "];" + after;
    SpliceShape(pre, body, Indent, "];", after);
    ResplicedSite(content, st, body, Indent, r);
  }

  /** The smallest witness: an empty array comes back closed by `];;`. */
  lemma ReplaceArrayAsWrittenDoublesSemicolon()
    ensures ReplaceArrayAsWritten(Marker + "];", Marker) == Marker + Indent + "];;"
  {
    var content := Marker + "];";
    var from := |Marker|;
    assert OccursAt(content, Marker, 0) by { assert content[0..|Marker|] == Marker; }
    assert content[from..from] == [];
    assert TopBracket(content, 0 + from, from);
    assert ArraySite(content, 0, from);
    assert content[from + 1..] == ";";
  }

  // ---------------------------------------------------------------------------------------
  // fix_personality_complete
  // ---------------------------------------------------------------------------------------

  /**
   * `fix_personality_complete`: the text before the marker, the generated initialiser, and
   * everything from two characters past the matched `]` — the `]` and whatever follows it are
   * dropped unchecked. When that would run past the end (the `]` is the last character, or no
   * `]` closes the array) the text is left alone.
   */
  function ReplaceArrayComplete(content: string, newInit: string): (r: string)
    ensures !Contains(content, Marker) ==> r == content
    ensures forall st: nat :: Unclosed(content, st) ==> r == content
    ensures forall st: nat, pos: nat :: ArraySite(content, st, pos) && pos + 2 > |content| ==>
      r == content
    ensures forall st: nat, pos: nat :: ArraySite(content, st, pos) && pos + 2 <= |content| ==>
      r == content[..st] + newInit + content[pos + 2..]
  {
    forall st: nat | Unclosed(content, st) { LocateUnclosed(content, st); }
    forall st: nat, pos: nat | ArraySite(content, st, pos) { LocateComplete(content, st, pos); }
    match Locate(content)
    case None => content
    case Some((st, pos)) =>
      var endPos := pos + 2;
      if endPos <= |content| then content[..st] + newInit + content[endPos..] else content
  }

  /** The character after the matched `]` is dropped whatever it is. */
  lemma ReplaceArrayCompleteDropsUnchecked(newInit: string, c: char)
    ensures ReplaceArrayComplete(Marker + "]" + [c], newInit) == newInit
  {
    var content := Marker + "]" + [c];
    var from := |Marker|;
    assert OccursAt(content, Marker, 0) by { assert content[0..|Marker|] == Marker; }
    assert content[from..from] == [];
    assert TopBracket(content, 0 + from, from);
    assert ArraySite(content, 0, from);
    assert content[..0] == [] && content[from + 2..] == [];
  }

  /**
   * Running `fix_personality_complete` twice is the same as running it once, for a generated
   * initialiser of the shape it builds: the marker, balanced profile text, then `];`.
   */
  lemma ReplaceArrayCompleteIdempotent(content: string, body: string)
    requires Balanced(body)
    ensures var newInit := Marker + body + "];";
      ReplaceArrayComplete(ReplaceArrayComplete(content, newInit), newInit)
      == ReplaceArrayComplete(content, newInit)
  {
    var newInit := Marker + body + "];";
    var r := ReplaceArrayComplete(content, newInit);
    var loc := Locate(content);
    if loc.Some? && loc.value.1 + 2 <= |content| {
      var st, pos := loc.value.0, loc.value.1;
      var pre, after := content[..st], content[pos + 2..];
      var q := st + |Marker| + |body|;
      assert r == pre + (Marker + body) + "" + "];" + after;
      SpliceShape(pre, body, "", "];", after);
      ResplicedSite(content, st, body, "", r);
      assert ReplaceArrayComplete(r, newInit) == r[..st] + newInit + r[q + 2..];
    } else {
      assert r == content;
    }
  }
}
