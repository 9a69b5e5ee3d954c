# To-do extraction from Markdown lines, in Dafny

This project models `TodoParser` and the exported `getTodos` wrapper of
`src/get-todos.js`. Given a Markdown document as a sequence of lines, `getTodos`
returns its open checkbox items ("to-dos"). A to-do line holds a bullet (`-`, `*`
or `+`), a space, and a checkbox `[c]` whose character `c` is not a done-status
marker. With `withChildren`, each to-do is followed by the contiguous run of
lines after it that are more indented. Those lines are consumed: they are not
tested again.

Everything is in `get_todos.dfy`, module `TodoParsing`:

- **Per-line queries.** The private queries `#isTodo`, `#getIndentation`,
  `#isChildOf` and `#hasChildren` become pure functions: `IsTodo`,
  `Indentation`, `IsChildOf` and `HasChildren`. They take the parser's
  immutable state (lines and markers) as explicit arguments.
- **The parser class.** `TodoParser` is a class with `const` fields, because
  the source sets them in the constructor and never changes them afterwards.
- **Its loops.** The two loops, `#getChildren` and `getTodos`, are methods with
  loop invariants. Each is proved against a specification function:
  - `RunEnd` is the end of a run of children.
  - `TodosFrom` is the lines the scan returns from a given line on.
- **Index view of the scan.** `EmittedFrom` gives the same scan as line
  indices. Lemmas about it state:
  - what the output contains;
  - that it keeps document order;
  - that no line is returned twice;
  - that without children it is the plain filter `TodoLines`.
- **The wrapper.** The exported arrow function becomes the module-level method
  `GetTodos`. It has the same defaults: `withChildren := false` and
  `doneStatusMarkers := None`.

The regular expression is
`\s*[-*+] \[[^markers]\].*`, with the `g` flag, and is used through `test`. It is
not anchored, and `\s*` and `.*` may match nothing. So it accepts a line exactly
when a bullet, a space and an open checkbox occur somewhere in it. `IsTodo`
decides this with a character scan. `TodoIffPattern` proves it equivalent to a
direct statement of the pattern, `MatchesTodoPattern`: some `\s*` span followed
by the checkbox.

`String.prototype.search(/\S/)` gives `Indentation`, with the ECMAScript `\s`
character set written out. A blank line has indentation -1, so it is never more
indented than anything. A blank line therefore never counts as a child, and it
ends a run of children.

**Nested to-dos without `withChildren`.** The pattern has no anchor and allows
leading whitespace, so an indented to-do under another to-do is a to-do in its
own right (`UnanchoredExample`: `"  - [ ] child one"` is a to-do). Take the
document `- [ ] parent`, `  - [ ] child one`, `  - [ ] child two`,
`- [ ] unrelated`. Without `withChildren` it returns all four lines
(`NestedDocumentExample`). With `withChildren`, any document of this shape
returns the same four lines, the nested ones once, as children of the first
(`NestedTodosWithChildren`).

## Model

| member | source | states |
|---|---|---|
| TodoParsing.IndentationIsFirstNonWhitespace | src/get-todos.js:63-65 | indentation is -1 exactly when every character is whitespace; otherwise it is the index of the first non-whitespace character, and all characters before it are whitespace |
| TodoParsing.Indentation | src/get-todos.js:63-65 | the result of `search(/\S/)` lies between -1 and the line length minus one |
| TodoParsing.IsWhitespace | src/get-todos.js:64 | the characters `\s` matches: the ECMAScript WhiteSpace code points (tab, vertical tab, form feed, space, U+00A0, U+1680, U+2000-U+200A, U+202F, U+205F, U+3000, U+FEFF) and LineTerminator code points (line feed, carriage return, U+2028, U+2029); a definition, no contract |
| TodoParsing.CheckboxFrom | src/get-todos.js:26-27 | the scan from `from` finds a checkbox exactly when a bullet, a space and an open checkbox start at some index at or after `from` |
| TodoParsing.IsTodo | src/get-todos.js:23-28 | a line is a to-do iff a bullet from `-*+`, a space and `[c]` with `c` not a done marker occur at some index |
| TodoParsing.TodoIffPattern | src/get-todos.js:26-27 | the to-do test agrees, in both directions, with the unanchored pattern `\s*` + bullet + ` [` + non-marker + `]` |
| TodoParsing.TodoIsNotBlank | src/get-todos.js:26 | a to-do line has a non-negative indentation, since its bullet is not whitespace |
| TodoParsing.DoneStatusMarkers | src/get-todos.js:14-20 | a present, non-empty marker string replaces the defaults character by character; a missing or empty one leaves `['x','X','-']`; the markers are never empty |
| TodoParsing.TodoParser.constructor | src/get-todos.js:14-20 | the parser keeps the lines and the flag, and its markers are those `DoneStatusMarkers` picks |
| TodoParsing.RunEnd | src/get-todos.js:44-60 | the run of children from `next` ends at the first line that is not a child; every line before it is a child |
| TodoParsing.IsChildOf | src/get-todos.js:55-60 | the source's own test written out, with no contract: false when either line number is past the end, otherwise the child line is strictly more indented than the parent |
| TodoParsing.HasChildren | src/get-todos.js:31-41 | the source's own test written out, with no contract: false on the last line, otherwise the next line is strictly more indented; `HasChildrenIffRunNonEmpty` states what it means |
| TodoParsing.ChildrenRunIsMaximal | src/get-todos.js:44-60 | the children of line `p` are a maximal contiguous run: each is more indented than `p`, and the run stops at the end of the document or at a line no more indented than `p` |
| TodoParsing.BlankLineEndsRun | src/get-todos.js:55-65 | a blank line is never a child, and every run of children ends at or before it |
| TodoParsing.HasChildrenIffRunNonEmpty | src/get-todos.js:31-41 | `hasChildren` holds exactly when the run of children after the line is non-empty; in particular it is false on the last line |
| TodoParsing.NestedRunInside | src/get-todos.js:44-60 | a line inside the run of children of `outer` has its own run ending no later than that of `outer` |
| TodoParsing.RunCovers | src/get-todos.js:47-50 | the run reaches past `j` exactly when every line from the start of the run up to `j` is a child |
| TodoParsing.TodoParser.GetChildren | src/get-todos.js:44-52 | the returned children are exactly the slice of lines from `p + 1` up to the end of the run, and the line just after them is not a child |
| TodoParsing.EmittedIncreasing | src/get-todos.js:68-82 | the returned lines are in document order and none is returned twice, so children consumed with their parent are not tested again |
| TodoParsing.EmittedFrom | src/get-todos.js:68-82 | the indices the scan returns from line `l` on, with the loop's branches: every index lies between `l` and the end of the document, and there are no more of them than lines from `l` on |
| TodoParsing.TodosFrom | src/get-todos.js:68-82 | the lines the scan returns from line `l` on, with the loop's branches; a definition, no contract; `TodosAreEmittedLines` ties it to `EmittedFrom` |
| TodoParsing.TodosAreEmittedLines | src/get-todos.js:68-82 | the lines the scan returns are exactly the lines at the indices in the index view of the scan, in that order |
| TodoParsing.TodosStep | src/get-todos.js:70-78 | proof step of the scan, not a separate claim; one loop step: a non-to-do line is dropped, a to-do is appended, and with children wanted and present it is followed by its whole run, after which the scan resumes past the run |
| TodoParsing.TodoParser.GetTodos | src/get-todos.js:68-82 | the loop returns exactly `TodosFrom(lines, withChildren, markers, 0)` |
| TodoParsing.InEmittedFrom | src/get-todos.js:70-78 | proof step of the scan, not a separate claim; which indices one step of the scan returns: the to-do itself, its run when children are taken, and then whatever the rest of the scan returns |
| TodoParsing.TodoIsEmitted | src/get-todos.js:70-78 | every to-do line of the document is returned, including a to-do inside another to-do's run of children |
| TodoParsing.ChildIsEmitted | src/get-todos.js:74-77 | with children wanted, every line in the run of children of a returned to-do is returned |
| TodoParsing.EmittedIsTodoOrChild | src/get-todos.js:70-78 | every returned line is a to-do or, with children wanted, lies in the run of children of an earlier to-do |
| TodoParsing.EmittedIff | src/get-todos.js:68-82 | line `j` is returned iff it is a to-do or, with children wanted, it follows a to-do and every line from that to-do to `j` is more indented than it |
| TodoParsing.FilterFrom | src/get-todos.js:70-73 | without children, the scan from line `l` returns the to-do lines of `lines[l..]` in order |
| TodoParsing.WithoutChildrenIsFilter | src/get-todos.js:70-73 | without children, `getTodos` returns the input filtered by the to-do test, in order |
| TodoParsing.TodoLines | src/get-todos.js:70-73 | the filter returns no more lines than it is given, and every line it returns is a to-do |
| TodoParsing.GetTodos | src/get-todos.js:86-89 | `withChildren` defaults to false and the markers to none. The result is the lines at the returned indices. Without children it is the to-do filter. It is never longer than the input and is empty for an empty document |
| TodoParsing.DefaultMarkersExample | src/get-todos.js:6-27 | `- [ ] buy milk` is a to-do with the default markers; `- [x] buy milk` is not |
| TodoParsing.CustomMarkersExample | src/get-todos.js:17-27 | with markers `yn`, `- [x] task` is a to-do and `- [y] task` is not |
| TodoParsing.BulletsExample | src/get-todos.js:26 | `*` and `+` open a to-do just as `-` does |
| TodoParsing.UnanchoredExample | src/get-todos.js:26-27 | a checkbox after other text, or after indentation, still makes a to-do |
| TodoParsing.PlainTextExample | src/get-todos.js:26-27 | a line without a checkbox is not a to-do |
| TodoParsing.ChildNoteScenario | src/get-todos.js:70-78 | a more-indented non-to-do note under a to-do is returned with children wanted and dropped without them |
| TodoParsing.NestedTodosWithChildren | src/get-todos.js:70-78 | a to-do with two nested lines, then a to-do at its level: with children wanted all four lines are returned, each once |
| TodoParsing.NestedDocumentExample | src/get-todos.js:26-27 | for the document `- [ ] parent`, `  - [ ] child one`, `  - [ ] child two`, `- [ ] unrelated`, all four lines are returned without children wanted, because the indented lines are to-dos |
| TodoParsing.NestedTodosWithoutChildren | src/get-todos.js:70-73 | four to-do lines, indented or not, are all returned without children wanted |

## Left out

- Regular-expression construction is replaced by a direct character scan. This covers the escaping of the markers (line 25) and the `g` flag. Escaping only makes each marker character stand for itself inside the character class, so the markers become plain membership. The pattern object is created fresh on every call, so the `g` flag's `lastIndex` state never carries over between calls.
- Strings are modelled as sequences of characters, not of UTF-16 code units. `split('')`, the character class and `search` work on code units, and surrogate pairs are not modelled.
- The constructor tests JavaScript truthiness (`if (doneStatusMarkers)`). The model has only two cases: a missing marker string, and a string that is empty or not. Non-string arguments such as numbers or arrays are not modelled.
- `bulletSymbols` and `doneStatusMarkers` are public, mutable instance fields in the source. The model treats them as a constant and as an immutable field: nothing in the core reassigns them after construction.
- Reading Markdown files and printing results happen outside this core and are not part of this model.
