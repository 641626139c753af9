/**
 * The two nesting-depth scans the patch scripts use to find where a construct ends:
 * the `[`/`]` scan over `this.personalities = [ ... ]` and the `{`/`}` scan over a method body.
 * Each scan is a recursive function mirroring the script's `while` loop, proved equal to a
 * declarative description in terms of `Net`, the bracket balance of a text.
 */
module DepthScan {

  function Delta(c: char, open: char, close: char): int {
    if c == open then 1 else if c == close then -1 else 0
  }

  /** Number of `open` characters minus number of `close` characters in `t`. */
  function Net(t: string, open: char, close: char): int
    decreases |t|
  {
    if |t| == 0 then 0 else Net(t[..|t| - 1], open, close) + Delta(t[|t| - 1], open, close)
  }

  lemma {:induction false} NetAppend(a: string, b: string, open: char, close: char)
    ensures Net(a + b, open, close) == Net(a, open, close) + Net(b, open, close)
    decreases |b|
  {
    if |b| > 0 {
      assert (a + b)[..|a + b| - 1] == a + b[..|b| - 1];
      NetAppend(a, b[..|b| - 1], open, close);
    } else {
      assert a + b == a;
    }
  }

  /** A text without `open` or `close` characters is balanced. */
  lemma {:induction false} NetFree(t: string, open: char, close: char)
    requires forall i :: 0 <= i < |t| ==> t[i] != open && t[i] != close
    ensures Net(t, open, close) == 0
    decreases |t|
  {
    if |t| > 0 {
      NetFree(t[..|t| - 1], open, close);
    }
  }

  // ---------------------------------------------------------------------------------------
  // The `]` scan (fix_personalities.py:114-123, fix_personality_complete.py:85-94)
  // ---------------------------------------------------------------------------------------

  /**
   * The script's loop from `pos` with `bracket_count == depth`: a `[` deepens, a `]` at depth 0
   * stops the scan, any other `]` climbs out one level. Returns `|s|` when it runs off the end.
   */
  function CloseBracket(s: string, pos: nat, depth: nat): (r: nat)
    requires pos <= |s|
    ensures pos <= r <= |s|
    decreases |s| - pos
  {
    if pos == |s| then |s|
    else if s[pos] == '[' then CloseBracket(s, pos + 1, depth + 1)
    else if s[pos] == ']' then (if depth == 0 then pos else CloseBracket(s, pos + 1, depth - 1))
    else CloseBracket(s, pos + 1, depth)
  }

  /** `k` holds a `]` that closes the array opened just before `from`. */
  ghost predicate TopBracket(s: string, from: nat, k: nat) {
    from <= k < |s| && s[k] == ']' && Net(s[from..k], '[', ']') == 0
  }

  ghost predicate FirstTopBracket(s: string, from: nat, k: nat) {
    TopBracket(s, from, k) && forall j: nat :: j < k ==> !TopBracket(s, from, j)
  }

  ghost predicate NoTopBracket(s: string, from: nat) {
    forall j: nat :: !TopBracket(s, from, j)
  }

  lemma {:induction false} CloseBracketInvariant(s: string, from: nat, pos: nat, depth: nat)
    requires from <= pos <= |s|
    requires depth == Net(s[from..pos], '[', ']')
    requires forall j: nat :: j < pos ==> !TopBracket(s, from, j)
    ensures CloseBracket(s, pos, depth) < |s| ==> FirstTopBracket(s, from, CloseBracket(s, pos, depth))
    ensures CloseBracket(s, pos, depth) == |s| ==> NoTopBracket(s, from)
    decreases |s| - pos
  {
    if pos < |s| {
      assert s[from..pos + 1][..pos - from] == s[from..pos];
      if s[pos] == ']' && depth == 0 {
        assert TopBracket(s, from, pos);
      } else {
        assert !TopBracket(s, from, pos);
        if s[pos] == '[' {
          CloseBracketInvariant(s, from, pos + 1, depth + 1);
        } else if s[pos] == ']' {
          CloseBracketInvariant(s, from, pos + 1, depth - 1);
        } else {
          CloseBracketInvariant(s, from, pos + 1, depth);
        }
      }
    } else {
      forall j: nat
        ensures !TopBracket(s, from, j)
      {
        if j < pos {
        }
      }
    }
  }

  /**
   * The whole scan started right after an opening `[`: it stops exactly at the first `]` that
   * brings the balance since `from` back to zero, skipping every nested `[ ... ]` pair, and
   * runs off the end only when there is no such `]`.
   */
  function ScanBrackets(s: string, from: nat): (r: nat)
    requires from <= |s|
    ensures from <= r <= |s|
    ensures r < |s| ==> FirstTopBracket(s, from, r)
    ensures r == |s| ==> NoTopBracket(s, from)
  {
    assert s[from..from] == [];
    CloseBracketInvariant(s, from, from, 0);
    CloseBracket(s, from, 0)
  }

  /** The first top-level `]` is unique, so whoever exhibits one knows where the scan stops. */
  lemma ScanBracketsAt(s: string, from: nat, q: nat)
    requires from <= |s|
    requires FirstTopBracket(s, from, q)
    ensures ScanBrackets(s, from) == q
  {
  }

  // ---------------------------------------------------------------------------------------
  // The `}` scan (fix_session_interface.py:81-90)
  // ---------------------------------------------------------------------------------------

  /**
   * The script's loop from `pos` with `brace_count == depth`: a `{` deepens, a `}` climbs out
   * and stops the scan when the count is then zero. The count may go negative on a stray `}`.
   */
  function CloseBrace(s: string, pos: nat, depth: int): (r: nat)
    requires pos <= |s|
    ensures pos <= r <= |s|
    decreases |s| - pos
  {
    if pos == |s| then |s|
    else if s[pos] == '{' then CloseBrace(s, pos + 1, depth + 1)
    else if s[pos] == '}' then (if depth - 1 == 0 then pos else CloseBrace(s, pos + 1, depth - 1))
    else CloseBrace(s, pos + 1, depth)
  }

  /** `k` holds a `}` after which the braces counted from `from` are balanced again. */
  ghost predicate TopBrace(s: string, from: nat, k: nat) {
    from <= k < |s| && s[k] == '}' && Net(s[from..k + 1], '{', '}') == 0
  }

  ghost predicate FirstTopBrace(s: string, from: nat, k: nat) {
    TopBrace(s, from, k) && forall j: nat :: j < k ==> !TopBrace(s, from, j)
  }

  ghost predicate NoTopBrace(s: string, from: nat) {
    forall j: nat :: !TopBrace(s, from, j)
  }

  lemma {:induction false} CloseBraceInvariant(s: string, from: nat, pos: nat, depth: int)
    requires from <= pos <= |s|
    requires depth == Net(s[from..pos], '{', '}')
    requires forall j: nat :: j < pos ==> !TopBrace(s, from, j)
    ensures CloseBrace(s, pos, depth) < |s| ==> FirstTopBrace(s, from, CloseBrace(s, pos, depth))
    ensures CloseBrace(s, pos, depth) == |s| ==> NoTopBrace(s, from)
    decreases |s| - pos
  {
    if pos < |s| {
      assert s[from..pos + 1][..pos - from] == s[from..pos];
      if s[pos] == '}' && depth - 1 == 0 {
        assert TopBrace(s, from, pos);
      } else {
        assert !TopBrace(s, from, pos);
        if s[pos] == '{' {
          CloseBraceInvariant(s, from, pos + 1, depth + 1);
        } else if s[pos] == '}' {
          CloseBraceInvariant(s, from, pos + 1, depth - 1);
        } else {
          CloseBraceInvariant(s, from, pos + 1, depth);
        }
      }
    } else {
      forall j: nat
        ensures !TopBrace(s, from, j)
      {
        if j < pos {
        }
      }
    }
  }

  /**
   * The whole brace scan from `from` with a zero count: it stops exactly at the first `}`
   * after which the braces since `from` balance, and runs off the end when there is none.
   */
  function ScanBraces(s: string, from: nat): (r: nat)
    requires from <= |s|
    ensures from <= r <= |s|
    ensures r < |s| ==> FirstTopBrace(s, from, r)
    ensures r == |s| ==> NoTopBrace(s, from)
  {
    assert s[from..from] == [];
    CloseBraceInvariant(s, from, from, 0);
    CloseBrace(s, from, 0)
  }

  lemma FirstTopBraceUnique(s: string, from: nat, a: nat, b: nat)
    requires FirstTopBrace(s, from, a) && FirstTopBrace(s, from, b)
    ensures a == b
  {
  }
}
