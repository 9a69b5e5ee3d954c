/** Extraction of open Markdown checkbox items ("to-dos") from a document given as a
    sequence of lines, optionally together with the more-indented lines nested under
    each of them. */
module TodoParsing {

  datatype Option<+T> = None | Some(value: T)

  /** A line of the document; JavaScript strings are modelled as sequences of characters. */
  type Line = seq<char>

  /** The bullet characters of a Markdown unordered list. */
  const BulletSymbols: seq<char> := ['-', '*', '+']

  /** Checkbox contents that mark an item as done, unless the caller supplies others. */
  const DefaultDoneStatusMarkers: seq<char> := ['x', 'X', '-']

  // ---------------------------------------------------------------------------
  // Classification of a single line
  // ---------------------------------------------------------------------------

  /** The characters matched by `\s` in an ECMAScript regular expression: the
      WhiteSpace code points (tab, vertical tab, form feed, space, no-break space,
      byte order mark and the space separators) and the LineTerminator code points
      (line feed, carriage return, U+2028, U+2029). */
  predicate IsWhitespace(c: char) {
    var n := c as int;
    (0x09 <= n <= 0x0D) || n == 0x20 || n == 0xA0 || n == 0x1680
    || (0x2000 <= n <= 0x200A) || n == 0x2028 || n == 0x2029 || n == 0x202F
    || n == 0x205F || n == 0x3000 || n == 0xFEFF
  }

  /** Indentation of a line: the index of its first non-whitespace character, or -1
      when it has none (what `search(/\S/)` returns). */
  function Indentation(s: Line): (r: int)
    ensures -1 <= r < |s|
  {
    if |s| == 0 then -1
    else if !IsWhitespace(s[0]) then 0
    else
      var k := Indentation(s[1..]);
      if k == -1 then -1 else k + 1
  }

  /** Indentation is -1 exactly for a line without a non-whitespace character, and
      otherwise the index of the first one: every character before it is whitespace. */
  lemma {:induction false} IndentationIsFirstNonWhitespace(s: Line)
    ensures Indentation(s) == -1 <==> forall i :: 0 <= i < |s| ==> IsWhitespace(s[i])
    ensures Indentation(s) != -1 ==>
      !IsWhitespace(s[Indentation(s)]) && forall i :: 0 <= i < Indentation(s) ==> IsWhitespace(s[i])
  {
    if |s| > 0 && IsWhitespace(s[0]) {
      IndentationIsFirstNonWhitespace(s[1..]);
      assert forall i :: 1 <= i < |s| ==> s[i] == s[1..][i - 1];
    }
  }

  /** At index `i` of `s` stand a bullet, a space and a checkbox `[c]` whose content
      `c` is not one of `doneMarkers`. */
  predicate CheckboxAt(s: Line, doneMarkers: seq<char>, i: nat) {
    i + 5 <= |s| && s[i] in BulletSymbols && s[i + 1] == ' ' && s[i + 2] == '['
    && s[i + 3] !in doneMarkers && s[i + 4] == ']'
  }

  /** Every character of `s[p..q]` is whitespace. */
  ghost predicate WhitespaceSpan(s: Line, p: nat, q: nat)
    requires p <= q <= |s|
  {
    forall k :: p <= k < q ==> IsWhitespace(s[k])
  }

  /** What `RegExp.test` decides for the pattern `\s*[-*+] \[[^markers]\].*`, which has
      no anchor: a match may start at any `p`, its `\s*` covers `s[p..q]`, the bullet
      and checkbox follow at `q`, and `.*` accepts whatever follows (possibly nothing). */
  ghost predicate MatchesTodoPattern(s: Line, doneMarkers: seq<char>) {
    exists p: nat, q: nat :: p <= q && CheckboxAt(s, doneMarkers, q) && WhitespaceSpan(s, p, q)
  }

  /** Some bullet-and-open-checkbox starts at an index `from` or later. */
  function CheckboxFrom(s: Line, doneMarkers: seq<char>, from: nat): (r: bool)
    ensures r <==> exists i: nat :: from <= i && CheckboxAt(s, doneMarkers, i)
    decreases |s| - from
  {
    if from + 5 > |s| then false
    else CheckboxAt(s, doneMarkers, from) || CheckboxFrom(s, doneMarkers, from + 1)
  }

  /** A line is a to-do when a bullet-and-open-checkbox occurs anywhere in it. */
  function IsTodo(s: Line, doneMarkers: seq<char>): (r: bool)
    ensures r <==> exists i: nat :: CheckboxAt(s, doneMarkers, i)
  {
    CheckboxFrom(s, doneMarkers, 0)
  }

  /** The character scan decides exactly what the regular expression decides. */
  lemma TodoIffPattern(s: Line, doneMarkers: seq<char>)
    ensures IsTodo(s, doneMarkers) <==> MatchesTodoPattern(s, doneMarkers)
  {
    if IsTodo(s, doneMarkers) {
      var i: nat :| CheckboxAt(s, doneMarkers, i);
      assert WhitespaceSpan(s, i, i);
    }
  }

  /** A to-do line is never blank: the bullet is a non-whitespace character. */
  lemma TodoIsNotBlank(s: Line, doneMarkers: seq<char>)
    requires IsTodo(s, doneMarkers)
    ensures 0 <= Indentation(s)
  {
    var i: nat :| CheckboxAt(s, doneMarkers, i);
    assert !IsWhitespace(s[i]);
    IndentationIsFirstNonWhitespace(s);
  }

  /** The done-status markers a parser uses: the characters of the supplied string
      when it is present and non-empty, and the defaults otherwise (a missing or
      empty string is falsy). */
  function DoneStatusMarkers(supplied: Option<Line>): (r: seq<char>)
    ensures supplied.Some? && supplied.value != [] ==> r == supplied.value
    ensures supplied == None || supplied == Some([]) ==> r == DefaultDoneStatusMarkers
    ensures r != []
  {
    if supplied.Some? && supplied.value != [] then supplied.value else DefaultDoneStatusMarkers
  }

  // ---------------------------------------------------------------------------
  // Nesting
  // ---------------------------------------------------------------------------

  /** Line `linum` is nested under line `parent`: both exist and `linum` is strictly
      more indented (a blank line, of indentation -1, is never more indented). */
  predicate IsChildOf(lines: seq<Line>, parent: nat, linum: nat) {
    if parent >= |lines| || linum >= |lines| then false
    else Indentation(lines[linum]) > Indentation(lines[parent])
  }

  /** The line after `l` exists and is more indented than line `l`. */
  predicate HasChildren(lines: seq<Line>, l: nat) {
    if l + 1 >= |lines| then false
    else Indentation(lines[l + 1]) > Indentation(lines[l])
  }

  /** End (exclusive) of the run of lines nested under `parent`, scanning from `next`:
      every line in `next .. r - 1` is a child and line `r` is not. */
  function RunEnd(lines: seq<Line>, parent: nat, next: nat): (r: nat)
    ensures next <= r
    ensures r == next || r <= |lines|
    ensures forall j :: next <= j < r ==> IsChildOf(lines, parent, j)
    ensures !IsChildOf(lines, parent, r)
    decreases |lines| - next
  {
    if IsChildOf(lines, parent, next) then RunEnd(lines, parent, next + 1) else next
  }

  /** The children of line `p` are a maximal run: each of them is more indented than
      `p`, and the run stops at the end of the document or at a line that is not. */
  lemma ChildrenRunIsMaximal(lines: seq<Line>, p: nat)
    requires p < |lines|
    ensures var e := RunEnd(lines, p, p + 1);
      && p + 1 <= e <= |lines|
      && (forall j :: p < j < e ==> Indentation(lines[j]) > Indentation(lines[p]))
      && (e == |lines| || Indentation(lines[e]) <= Indentation(lines[p]))
  {
    var e := RunEnd(lines, p, p + 1);
    forall j | p < j < e
      ensures Indentation(lines[j]) > Indentation(lines[p])
    {
      assert IsChildOf(lines, p, j);
    }
  }

  /** A blank line ends every run of children before it and is never a child. */
  lemma BlankLineEndsRun(lines: seq<Line>, p: nat, next: nat, j: nat)
    requires next <= j < |lines| && Indentation(lines[j]) == -1
    ensures RunEnd(lines, p, next) <= j
  {
    assert !IsChildOf(lines, p, j);
  }

  /** `hasChildren` holds exactly when the run of children is non-empty. */
  lemma HasChildrenIffRunNonEmpty(lines: seq<Line>, l: nat)
    requires l < |lines|
    ensures HasChildren(lines, l) <==> RunEnd(lines, l, l + 1) > l + 1
  {
  }

  /** A line strictly inside the run of children of `outer` has a run of its own
      that ends no later than the run of `outer`. */
  lemma NestedRunInside(lines: seq<Line>, outer: nat, inner: nat)
    requires outer < inner < RunEnd(lines, outer, outer + 1)
    ensures RunEnd(lines, inner, inner + 1) <= RunEnd(lines, outer, outer + 1)
  {
    var e := RunEnd(lines, outer, outer + 1);
    assert IsChildOf(lines, outer, inner);
    assert e < RunEnd(lines, inner, inner + 1) ==> IsChildOf(lines, inner, e);
    assert !IsChildOf(lines, outer, e);
  }

  /** The run from `next` reaches past `j` exactly when every line `next .. j` is a child. */
  lemma RunCovers(lines: seq<Line>, p: nat, next: nat, j: nat)
    requires next <= j
    ensures j < RunEnd(lines, p, next) <==> forall q :: next <= q <= j ==> IsChildOf(lines, p, q)
  {
    var e := RunEnd(lines, p, next);
    if e <= j {
      assert !IsChildOf(lines, p, e);
    }
  }

  // ---------------------------------------------------------------------------
  // The scan: which line indices `getTodos` emits
  // ---------------------------------------------------------------------------

  /** The indices `a, a + 1, ..., b - 1`. */
  function Range(a: nat, b: nat): (r: seq<nat>)
    requires a <= b
    ensures |r| == b - a && forall k :: 0 <= k < |r| ==> r[k] == a + k
    ensures forall x :: x in r <==> a <= x < b
    decreases b - a
  {
    if a == b then [] else [a] + Range(a + 1, b)
  }

  /** The lines of `lines` at the indices `idx`, in that order. */
  function Pick(lines: seq<Line>, idx: seq<nat>): (r: seq<Line>)
    requires forall k :: 0 <= k < |idx| ==> idx[k] < |lines|
    ensures |r| == |idx|
  {
    if idx == [] then [] else [lines[idx[0]]] + Pick(lines, idx[1..])
  }

  lemma {:induction false} PickAppend(lines: seq<Line>, a: seq<nat>, b: seq<nat>)
    requires forall k :: 0 <= k < |a| ==> a[k] < |lines|
    requires forall k :: 0 <= k < |b| ==> b[k] < |lines|
    ensures Pick(lines, a + b) == Pick(lines, a) + Pick(lines, b)
  {
    if a == [] {
      assert a + b == b;
    } else {
      assert (a + b)[0] == a[0];
      assert (a + b)[1..] == a[1..] + b;
      PickAppend(lines, a[1..], b);
    }
  }

  /** The indices of the lines the scan emits once it reaches line `l`: a to-do line,
      followed, when children are wanted and present, by its whole run of children,
      after which the scan resumes at the first line past the run. The emitted
      indices are in range and strictly increasing, so no line is emitted twice. */
  function EmittedFrom(lines: seq<Line>, withChildren: bool, doneMarkers: seq<char>, l: nat): (r: seq<nat>)
    ensures forall k :: 0 <= k < |r| ==> l <= r[k] < |lines|
    ensures l <= |lines| ==> |r| <= |lines| - l
    decreases |lines| - l
  {
    if l >= |lines| then []
    else if !IsTodo(lines[l], doneMarkers) then EmittedFrom(lines, withChildren, doneMarkers, l + 1)
    else if withChildren && HasChildren(lines, l) then
      var e := RunEnd(lines, l, l + 1);
      [l] + Range(l + 1, e) + EmittedFrom(lines, withChildren, doneMarkers, e)
    else [l] + EmittedFrom(lines, withChildren, doneMarkers, l + 1)
  }

  /** The emitted indices are strictly increasing: the output keeps document order
      and no line is emitted twice, in particular no child is tested again. */
  lemma {:induction false} EmittedIncreasing(lines: seq<Line>, withChildren: bool, doneMarkers: seq<char>, l: nat)
    ensures var r := EmittedFrom(lines, withChildren, doneMarkers, l);
      forall a, b :: 0 <= a < b < |r| ==> r[a] < r[b]
    decreases |lines| - l
  {
    var r := EmittedFrom(lines, withChildren, doneMarkers, l);
    if l < |lines| {
      if !IsTodo(lines[l], doneMarkers) {
        EmittedIncreasing(lines, withChildren, doneMarkers, l + 1);
        assert r == EmittedFrom(lines, withChildren, doneMarkers, l + 1);
      } else if withChildren && HasChildren(lines, l) {
        var e := RunEnd(lines, l, l + 1);
        EmittedIncreasing(lines, withChildren, doneMarkers, e);
        var head := [l] + Range(l + 1, e);
        assert forall k :: 0 <= k < |head| ==> head[k] == l + k;
        assert r == head + EmittedFrom(lines, withChildren, doneMarkers, e);
      } else {
        EmittedIncreasing(lines, withChildren, doneMarkers, l + 1);
        assert r == [l] + EmittedFrom(lines, withChildren, doneMarkers, l + 1);
      }
    }
  }

  /** The lines at the indices `a .. b - 1` are the slice `lines[a..b]`. */
  lemma {:induction false} PickRange(lines: seq<Line>, a: nat, b: nat)
    requires a <= b <= |lines|
    ensures Pick(lines, Range(a, b)) == lines[a..b]
    decreases b - a
  {
    if a < b {
      PickRange(lines, a + 1, b);
      assert lines[a..b] == [lines[a]] + lines[a + 1..b];
    }
  }

  /** The lines the scan returns once it reaches line `l`, the specification of
      `TodoParser.GetTodos`; `TodosAreEmittedLines` shows that these are the lines at
      the indices `EmittedFrom` gives. */
  function TodosFrom(lines: seq<Line>, withChildren: bool, doneMarkers: seq<char>, l: nat): (r: seq<Line>)
    decreases |lines| - l
  {
    if l >= |lines| then []
    else if !IsTodo(lines[l], doneMarkers) then TodosFrom(lines, withChildren, doneMarkers, l + 1)
    else if withChildren && HasChildren(lines, l) then
      var e := RunEnd(lines, l, l + 1);
      [lines[l]] + lines[l + 1..e] + TodosFrom(lines, withChildren, doneMarkers, e)
    else [lines[l]] + TodosFrom(lines, withChildren, doneMarkers, l + 1)
  }

  /** One step of the scan with the lines already returned in front: the shape of
      the loop invariant of `TodoParser.GetTodos`. */
  lemma TodosStep(lines: seq<Line>, withChildren: bool, doneMarkers: seq<char>, l: nat, before: seq<Line>)
    requires l < |lines|
    ensures before + TodosFrom(lines, withChildren, doneMarkers, l) ==
      if !IsTodo(lines[l], doneMarkers) then before + TodosFrom(lines, withChildren, doneMarkers, l + 1)
      else if withChildren && HasChildren(lines, l) then
        var e := RunEnd(lines, l, l + 1);
        before + [lines[l]] + lines[l + 1..e] + TodosFrom(lines, withChildren, doneMarkers, e)
      else before + [lines[l]] + TodosFrom(lines, withChildren, doneMarkers, l + 1)
  {
    if IsTodo(lines[l], doneMarkers) {
      if withChildren && HasChildren(lines, l) {
        var e := RunEnd(lines, l, l + 1);
        var rest := TodosFrom(lines, withChildren, doneMarkers, e);
        assert before + ([lines[l]] + lines[l + 1..e] + rest) == before + [lines[l]] + lines[l + 1..e] + rest;
      } else {
        var rest := TodosFrom(lines, withChildren, doneMarkers, l + 1);
        assert before + ([lines[l]] + rest) == before + [lines[l]] + rest;
      }
    }
  }

  /** The lines the scan returns are the lines at the emitted indices, in order. */
  lemma {:induction false} TodosAreEmittedLines(lines: seq<Line>, withChildren: bool, doneMarkers: seq<char>, l: nat)
    ensures TodosFrom(lines, withChildren, doneMarkers, l) == Pick(lines, EmittedFrom(lines, withChildren, doneMarkers, l))
    decreases |lines| - l
  {
    if l < |lines| {
      if !IsTodo(lines[l], doneMarkers) {
        TodosAreEmittedLines(lines, withChildren, doneMarkers, l + 1);
      } else if withChildren && HasChildren(lines, l) {
        var e := RunEnd(lines, l, l + 1);
        var head := [l] + Range(l + 1, e);
        var tail := EmittedFrom(lines, withChildren, doneMarkers, e);
        TodosAreEmittedLines(lines, withChildren, doneMarkers, e);
        assert Pick(lines, EmittedFrom(lines, withChildren, doneMarkers, l)) == Pick(lines, head) + Pick(lines, tail) by {
          assert EmittedFrom(lines, withChildren, doneMarkers, l) == head + tail;
          PickAppend(lines, head, tail);
        }
        assert Pick(lines, head) == [lines[l]] + lines[l + 1..e] by {
          PickAppend(lines, [l], Range(l + 1, e));
          PickRange(lines, l + 1, e);
        }
      } else {
        var tail := EmittedFrom(lines, withChildren, doneMarkers, l + 1);
        TodosAreEmittedLines(lines, withChildren, doneMarkers, l + 1);
        assert Pick(lines, EmittedFrom(lines, withChildren, doneMarkers, l)) == Pick(lines, [l]) + Pick(lines, tail) by {
          assert EmittedFrom(lines, withChildren, doneMarkers, l) == [l] + tail;
          PickAppend(lines, [l], tail);
        }
      }
    }
  }

  /** The indices of the lines `getTodos` returns for the whole document. */
  function Emitted(lines: seq<Line>, withChildren: bool, doneMarkers: seq<char>): (r: seq<nat>)
    ensures forall k :: 0 <= k < |r| ==> r[k] < |lines|
    ensures |r| <= |lines|
  {
    EmittedFrom(lines, withChildren, doneMarkers, 0)
  }

  /** The to-do lines of `lines`, in order: an independent filter. */
  function TodoLines(lines: seq<Line>, doneMarkers: seq<char>): (r: seq<Line>)
    ensures |r| <= |lines|
    ensures forall k :: 0 <= k < |r| ==> IsTodo(r[k], doneMarkers)
  {
    if lines == [] then []
    else (if IsTodo(lines[0], doneMarkers) then [lines[0]] else []) + TodoLines(lines[1..], doneMarkers)
  }

  /** Line `j` is nested under an earlier to-do line `p`: every line after `p` up to
      and including `j` is more indented than `p`. */
  ghost predicate NestedUnderTodo(lines: seq<Line>, doneMarkers: seq<char>, j: nat) {
    exists p: nat :: p < j && p < |lines| && IsTodo(lines[p], doneMarkers)
      && forall q :: p < q <= j ==> IsChildOf(lines, p, q)
  }

  /** Membership in the emitted indices, one step of the scan at a time. */
  lemma InEmittedFrom(lines: seq<Line>, withChildren: bool, doneMarkers: seq<char>, l: nat, x: nat)
    requires l < |lines|
    ensures x in EmittedFrom(lines, withChildren, doneMarkers, l) <==>
      if !IsTodo(lines[l], doneMarkers) then x in EmittedFrom(lines, withChildren, doneMarkers, l + 1)
      else if withChildren && HasChildren(lines, l) then
        var e := RunEnd(lines, l, l + 1);
        x == l || l < x < e || x in EmittedFrom(lines, withChildren, doneMarkers, e)
      else x == l || x in EmittedFrom(lines, withChildren, doneMarkers, l + 1)
  {
  }

  /** Every to-do line at or after `l` is emitted: nothing the scan skips over is a
      to-do that would otherwise have been found, since skipped lines are emitted as
      children. */
  lemma {:induction false} TodoIsEmitted(lines: seq<Line>, withChildren: bool, doneMarkers: seq<char>, l: nat, i: nat)
    requires l <= i < |lines| && IsTodo(lines[i], doneMarkers)
    ensures i in EmittedFrom(lines, withChildren, doneMarkers, l)
    decreases |lines| - l
  {
    InEmittedFrom(lines, withChildren, doneMarkers, l, i);
    if i == l {
    } else if !IsTodo(lines[l], doneMarkers) {
      TodoIsEmitted(lines, withChildren, doneMarkers, l + 1, i);
    } else if withChildren && HasChildren(lines, l) {
      var e := RunEnd(lines, l, l + 1);
      if e <= i {
        TodoIsEmitted(lines, withChildren, doneMarkers, e, i);
      }
    } else {
      TodoIsEmitted(lines, withChildren, doneMarkers, l + 1, i);
    }
  }

  /** With children wanted, every line in the run of children of an emitted to-do
      line is emitted too. */
  lemma {:induction false} ChildIsEmitted(lines: seq<Line>, doneMarkers: seq<char>, l: nat, p: nat, j: nat)
    requires p in EmittedFrom(lines, true, doneMarkers, l)
    requires p < |lines| && IsTodo(lines[p], doneMarkers)
    requires p < j < RunEnd(lines, p, p + 1)
    ensures j in EmittedFrom(lines, true, doneMarkers, l)
    decreases |lines| - l
  {
    assert l <= p;
    if !IsTodo(lines[l], doneMarkers) {
      assert p in EmittedFrom(lines, true, doneMarkers, l + 1) by {
        InEmittedFrom(lines, true, doneMarkers, l, p);
      }
      ChildIsEmitted(lines, doneMarkers, l + 1, p, j);
    } else if HasChildren(lines, l) {
      var e := RunEnd(lines, l, l + 1);
      if p < e {
        if p > l {
          NestedRunInside(lines, l, p);
        }
      } else {
        assert p in EmittedFrom(lines, true, doneMarkers, e) by {
          InEmittedFrom(lines, true, doneMarkers, l, p);
        }
        ChildIsEmitted(lines, doneMarkers, e, p, j);
      }
    } else {
      assert RunEnd(lines, l, l + 1) == l + 1 by {
        assert !IsChildOf(lines, l, l + 1);
      }
      assert p != l;
      assert p in EmittedFrom(lines, true, doneMarkers, l + 1) by {
        InEmittedFrom(lines, true, doneMarkers, l, p);
      }
      ChildIsEmitted(lines, doneMarkers, l + 1, p, j);
    }
    InEmittedFrom(lines, true, doneMarkers, l, j);
  }

  /** Every emitted line is a to-do line or, with children wanted, nested under an
      emitted to-do line before it. */
  lemma {:induction false} EmittedIsTodoOrChild(lines: seq<Line>, withChildren: bool, doneMarkers: seq<char>, l: nat, j: nat)
    requires j in EmittedFrom(lines, withChildren, doneMarkers, l)
    ensures j < |lines|
    ensures IsTodo(lines[j], doneMarkers) || (withChildren && NestedUnderTodo(lines, doneMarkers, j))
    decreases |lines| - l
  {
    InEmittedFrom(lines, withChildren, doneMarkers, l, j);
    if !IsTodo(lines[l], doneMarkers) {
      EmittedIsTodoOrChild(lines, withChildren, doneMarkers, l + 1, j);
    } else if withChildren && HasChildren(lines, l) {
      var e := RunEnd(lines, l, l + 1);
      if l < j < e {
        RunCovers(lines, l, l + 1, j);
        assert NestedUnderTodo(lines, doneMarkers, j);
      } else if e <= j {
        EmittedIsTodoOrChild(lines, withChildren, doneMarkers, e, j);
      }
    } else if j != l {
      EmittedIsTodoOrChild(lines, withChildren, doneMarkers, l + 1, j);
    }
  }

  /** The lines `getTodos` returns are exactly the to-do lines and, with children
      wanted, the lines nested under a to-do line; the output is these lines in
      document order (Emitted is strictly increasing), each once. */
  lemma EmittedIff(lines: seq<Line>, withChildren: bool, doneMarkers: seq<char>, j: nat)
    requires j < |lines|
    ensures j in Emitted(lines, withChildren, doneMarkers)
        <==> IsTodo(lines[j], doneMarkers) || (withChildren && NestedUnderTodo(lines, doneMarkers, j))
  {
    if j in Emitted(lines, withChildren, doneMarkers) {
      EmittedIsTodoOrChild(lines, withChildren, doneMarkers, 0, j);
    } else if IsTodo(lines[j], doneMarkers) {
      TodoIsEmitted(lines, withChildren, doneMarkers, 0, j);
    } else if withChildren && NestedUnderTodo(lines, doneMarkers, j) {
      var p: nat :| p < j && p < |lines| && IsTodo(lines[p], doneMarkers)
        && forall q :: p < q <= j ==> IsChildOf(lines, p, q);
      TodoIsEmitted(lines, true, doneMarkers, 0, p);
      RunCovers(lines, p, p + 1, j);
      ChildIsEmitted(lines, doneMarkers, 0, p, j);
    }
  }

  /** Without children, the scan from `l` returns the to-do lines of `lines[l..]`. */
  lemma {:induction false} FilterFrom(lines: seq<Line>, doneMarkers: seq<char>, l: nat)
    requires l <= |lines|
    ensures Pick(lines, EmittedFrom(lines, false, doneMarkers, l)) == TodoLines(lines[l..], doneMarkers)
    decreases |lines| - l
  {
    if l < |lines| {
      FilterFrom(lines, doneMarkers, l + 1);
      assert lines[l..][1..] == lines[l + 1..];
      var tail := EmittedFrom(lines, false, doneMarkers, l + 1);
      if IsTodo(lines[l], doneMarkers) {
        assert Pick(lines, [l] + tail) == [lines[l]] + Pick(lines, tail);
      }
    } else {
      assert lines[l..] == [];
    }
  }

  /** Without children, `getTodos` returns the input filtered by `IsTodo`, in order. */
  lemma WithoutChildrenIsFilter(lines: seq<Line>, doneMarkers: seq<char>)
    ensures Pick(lines, Emitted(lines, false, doneMarkers)) == TodoLines(lines, doneMarkers)
  {
    FilterFrom(lines, doneMarkers, 0);
    assert lines[0..] == lines;
  }

  /** An open checkbox is a to-do with the default markers; a checked one is not. */
  lemma DefaultMarkersExample()
    ensures IsTodo("- [ ] buy milk", DefaultDoneStatusMarkers)
    ensures !IsTodo("- [x] buy milk", DefaultDoneStatusMarkers)
  {
    assert CheckboxAt("- [ ] buy milk", DefaultDoneStatusMarkers, 0);
  }

  /** Custom markers replace the defaults: `x` no longer marks an item done. */
  lemma CustomMarkersExample()
    ensures IsTodo("- [x] task", "yn")
    ensures !IsTodo("- [y] task", "yn")
  {
    assert CheckboxAt("- [x] task", "yn", 0);
  }

  /** All three bullets open a to-do. */
  lemma BulletsExample()
    ensures IsTodo("* [ ] a", DefaultDoneStatusMarkers)
    ensures IsTodo("+ [ ] a", DefaultDoneStatusMarkers)
  {
    assert CheckboxAt("* [ ] a", DefaultDoneStatusMarkers, 0);
    assert CheckboxAt("+ [ ] a", DefaultDoneStatusMarkers, 0);
  }

  /** The pattern is not anchored: a checkbox after other text still makes a to-do,
      and so does an indented one, such as a nested item. */
  lemma UnanchoredExample()
    ensures IsTodo("text - [ ] x", DefaultDoneStatusMarkers)
    ensures IsTodo("  - [ ] child one", DefaultDoneStatusMarkers)
  {
    assert CheckboxAt("text - [ ] x", DefaultDoneStatusMarkers, 5);
    assert CheckboxAt("  - [ ] child one", DefaultDoneStatusMarkers, 2);
  }

  /** A line without a checkbox is not a to-do. */
  lemma PlainTextExample()
    ensures !IsTodo("some text", DefaultDoneStatusMarkers)
  {
  }

  /** A to-do followed by a more-indented note that is not a to-do and then by a line
      back at its level that is not a to-do either: the note is returned only as a
      child. */
  lemma ChildNoteScenario(doc: seq<Line>, m: seq<char>)
    requires |doc| == 3
    requires IsTodo(doc[0], m) && !IsTodo(doc[1], m) && !IsTodo(doc[2], m)
    requires Indentation(doc[1]) > Indentation(doc[0]) >= Indentation(doc[2])
    ensures Emitted(doc, true, m) == [0, 1]
    ensures Emitted(doc, false, m) == [0]
  {
    assert RunEnd(doc, 0, 1) == 2 by {
      assert !IsChildOf(doc, 0, 2) && IsChildOf(doc, 0, 1);
    }
    assert Range(1, 2) == [1];
    assert EmittedFrom(doc, true, m, 2) == [];
    assert EmittedFrom(doc, true, m, 0) == [0] + [1] + [];
    assert EmittedFrom(doc, false, m, 2) == [];
    assert EmittedFrom(doc, false, m, 1) == [];
  }

  /** A to-do with two more-indented to-dos under it, then a to-do back at its level:
      with children wanted, all four lines are returned, the nested ones once, as
      children of the first. */
  lemma NestedTodosWithChildren(doc: seq<Line>, m: seq<char>)
    requires |doc| == 4 && IsTodo(doc[0], m) && IsTodo(doc[3], m)
    requires Indentation(doc[1]) > Indentation(doc[0]) && Indentation(doc[2]) > Indentation(doc[0])
    requires Indentation(doc[3]) <= Indentation(doc[0])
    ensures Emitted(doc, true, m) == [0, 1, 2, 3]
  {
    assert RunEnd(doc, 0, 1) == 3 by {
      assert IsChildOf(doc, 0, 1) && IsChildOf(doc, 0, 2) && !IsChildOf(doc, 0, 3);
    }
    assert Range(1, 3) == [1, 2];
    assert EmittedFrom(doc, true, m, 3) == [3];
    assert EmittedFrom(doc, true, m, 0) == [0] + [1, 2] + [3];
  }

  /** The same document without children wanted: the nested lines are to-dos in
      their own right (the pattern allows leading whitespace), so all four lines are
      still returned. */
  lemma NestedTodosWithoutChildren(doc: seq<Line>, m: seq<char>)
    requires |doc| == 4 && forall k :: 0 <= k < 4 ==> IsTodo(doc[k], m)
    ensures Emitted(doc, false, m) == [0, 1, 2, 3]
  {
    assert EmittedFrom(doc, false, m, 3) == [3];
    assert EmittedFrom(doc, false, m, 2) == [2, 3];
    assert EmittedFrom(doc, false, m, 1) == [1, 2, 3];
  }

  /** A to-do, two indented to-dos under it and a to-do back at its level, with the
      default markers: the indented lines are to-dos themselves, so all four lines are
      returned even without children. */
  lemma NestedDocumentExample()
    ensures var doc := ["- [ ] parent", "  - [ ] child one", "  - [ ] child two", "- [ ] unrelated"];
      Emitted(doc, false, DefaultDoneStatusMarkers) == [0, 1, 2, 3]
  {
    var doc := ["- [ ] parent", "  - [ ] child one", "  - [ ] child two", "- [ ] unrelated"];
    assert CheckboxAt(doc[0], DefaultDoneStatusMarkers, 0);
    assert CheckboxAt(doc[1], DefaultDoneStatusMarkers, 2);
    assert CheckboxAt(doc[2], DefaultDoneStatusMarkers, 2);
    assert CheckboxAt(doc[3], DefaultDoneStatusMarkers, 0);
    NestedTodosWithoutChildren(doc, DefaultDoneStatusMarkers);
  }

  // ---------------------------------------------------------------------------
  // The parser object and the exported wrapper
  // ---------------------------------------------------------------------------

  /** A parser over a fixed document. Its fields are set by the constructor and
      never change afterwards. */
  class TodoParser {
    const doneStatusMarkers: seq<char>
    const lines: seq<Line>
    const withChildren: bool

    constructor (lines: seq<Line>, withChildren: bool, doneStatusMarkers: Option<Line>)
      ensures this.lines == lines && this.withChildren == withChildren
      ensures this.doneStatusMarkers == DoneStatusMarkers(doneStatusMarkers)
    {
      this.lines := lines;
      this.withChildren := withChildren;
      this.doneStatusMarkers := DoneStatusMarkers(doneStatusMarkers);
    }

    /** The lines nested under line `parentLinum`: the maximal run of lines after it
        that are more indented than it. */
    method GetChildren(parentLinum: nat) returns (children: seq<Line>)
      ensures !IsChildOf(lines, parentLinum, parentLinum + 1 + |children|)
      ensures parentLinum + 1 + |children| == RunEnd(lines, parentLinum, parentLinum + 1)
      ensures parentLinum < |lines| ==> children == lines[parentLinum + 1 .. parentLinum + 1 + |children|]
    {
      children := [];
      var nextLinum := parentLinum + 1;
      while IsChildOf(lines, parentLinum, nextLinum)
        invariant nextLinum == parentLinum + 1 + |children|
        invariant parentLinum < |lines| ==> nextLinum <= |lines| && children == lines[parentLinum + 1 .. nextLinum]
        invariant RunEnd(lines, parentLinum, nextLinum) == RunEnd(lines, parentLinum, parentLinum + 1)
        decreases |lines| - nextLinum
      {
        children := children + [lines[nextLinum]];
        nextLinum := nextLinum + 1;
      }
    }

    /** All to-do lines of the document, each followed by its children when
        children are wanted; children are consumed and not tested again. */
    method GetTodos() returns (todos: seq<Line>)
      ensures todos == TodosFrom(lines, withChildren, doneStatusMarkers, 0)
    {
      todos := [];
      var l: nat := 0;
      while l < |lines|
        invariant l <= |lines|
        invariant todos + TodosFrom(lines, withChildren, doneStatusMarkers, l)
          == TodosFrom(lines, withChildren, doneStatusMarkers, 0)
        decreases |lines| - l
      {
        TodosStep(lines, withChildren, doneStatusMarkers, l, todos);
        var line := lines[l];
        if IsTodo(line, doneStatusMarkers) {
          todos := todos + [line];
          if withChildren && HasChildren(lines, l) {
            var cs := GetChildren(l);
            todos := todos + cs;
            l := l + |cs|;
          }
        }
        l := l + 1;
      }
    }
  }

  /** The exported `getTodos({ lines, withChildren = false, doneStatusMarkers = null })`. */
  method GetTodos(lines: seq<Line>, withChildren: bool := false, doneStatusMarkers: Option<Line> := None)
    returns (todos: seq<Line>)
    ensures todos == Pick(lines, Emitted(lines, withChildren, DoneStatusMarkers(doneStatusMarkers)))
    ensures !withChildren ==> todos == TodoLines(lines, DoneStatusMarkers(doneStatusMarkers))
    ensures |todos| <= |lines|
    ensures lines == [] ==> todos == []
  {
    var parser := new TodoParser(lines, withChildren, doneStatusMarkers);
    todos := parser.GetTodos();
    TodosAreEmittedLines(lines, withChildren, DoneStatusMarkers(doneStatusMarkers), 0);
    WithoutChildrenIsFilter(lines, DoneStatusMarkers(doneStatusMarkers));
  }
}
