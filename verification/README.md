# nearform/sql in Dafny

A model of the two pure components of the `sql` package for Node.js:

- `SqlStatement` in `SQL.js`. The `SQL` template tag builds a statement from the template's literal
  fragments (`strings`) and its interpolated `values`. It refuses `undefined` values.
  - `generateString` renders the statement with numbered `$1, $2, …` placeholders (the `text`
    getter, for PostgreSQL) or with `?` placeholders (the `sql` getter, for MySQL).
  - `debug` prints the values inline.
  - `append` joins another statement onto the receiver, either safely (fragments and values merged)
    or unsafely (the other statement printed as plain text into the receiver's last fragment).
  - `glue` (also `SQL.glue`) joins a list of statements with a separator.
- `quoteIdentifier` in `quoteIdentifier.js`. It turns a name into a delimited identifier: the name
  is wrapped in `"` (a backtick for `mysql`) and every embedded quote character is doubled. This is
  the delimited-identifier rule of ISO/IEC 9075-2 section 5.2, plus MySQL's backtick convention.

## How the model is built

The model is functional. A statement is the immutable datatype `Statement(strings, values)`.
`append` returns a new statement in a `Result` instead of mutating the receiver, and errors are
`Err` values carrying the source's messages. Values are
`Undefined | Null | Bool | Num(int) | Str(string)`, and `ToJsString` prints them as JavaScript's
`String(v)` does.

Modules follow the source:

- `JsValue`: values, truthiness, decimal printing.
- `SqlStatement`: the constructor and the `SQL` tag.
- `Render`: `generateString`, `text`, `sql` and `debug`.
- `Whitespace`: the normalisation both renderers end with.
- `StatementAppend`: `append`.
- `StatementGlue`: `glue`.
- `QuoteIdentifier`: `quoteIdentifier`.
- `Examples`: cases from the library's tests.

The two regular-expression replaces at the end of `generateString` and `debug` (SQL.js:60-62 and
74-76) are modelled by their effect on each maximal whitespace run, where whitespace is JavaScript's
`\s` set:

- a run at the start or the end of the text is removed;
- an interior run containing a line terminator (`\n`, `\r`, U+2028, U+2029) becomes its last line
  terminator;
- any other interior run is kept as it is.

The greedy `\s+` backtracks to a multiline `$` position, so the first replace leaves the run's last
line terminator and turns the whitespace before it into one space. The second replace then deletes
that space and the indentation after the line break. The regular-expression engine itself is not
transcribed. `Whitespace.Normalize` is this per-run description, and the lemmas about it prove what
the source relies on.

`glue` is modelled twice:

- `StatementGlue.Loop` follows the source loop step by step, with its carried-over fragment.
- `StatementGlue.Joined` is an independent reference: the pieces safely appended one after the
  other with the separator between them.

`GlueIsJoin` proves the two agree.

`quoteIdentifier` is paired with a reader for delimited identifiers, `ScanBody`/`ReadDelimited`.
The reader takes a doubled quote as one quote character and stops at the first single one.

Two behaviours of `SQL.js` are worth stating plainly:

- Normalisation keeps an interior whitespace run without a line break as written; it does not
  collapse it to one space. The library's test of unsafe `append` expects such a double space
  (SQL.test.js:225).
- `glue` gives an empty piece no special treatment. For pieces built by the `SQL` tag the
  separator goes between every two consecutive pieces, and the result ends with a space, which
  normalisation removes when the glued statement ends the query (`StatementGlue.GlueRendered`).
  The separator is only ever added to a held-back fragment, though: after a piece with as many
  fragments as values nothing is held back, and the source inserts no separator before the next
  piece (SQL.js:21-28, `Examples.GlueWithoutCarry`).

The `options` argument of `append` is modelled as the boolean `options.unsafe === true`.

## Model

| member | source | states |
|---|---|---|
| SqlStatement.New | SQL.js:6-13 | construction fails, with the `undefined` error, exactly when some value is `undefined`; otherwise the statement keeps the given fragments and values unchanged |
| SqlStatement.Sql | SQL.js:129-131 | a tagged template (one fragment more than values) gives a well-formed statement, and succeeds exactly when no value is `undefined` |
| SqlStatement.NullIsKept | SQL.js:7-12 | a `null` value is accepted and stays in `values` at its position |
| JsValue.ParseNatToString | SQL.js:54 | the decimal number printed after `$` reads back as the number itself |
| JsValue.NatToStringInjective | SQL.js:54 | distinct positions print as distinct numbers |
| Render.GenerateString | SQL.js:48-63 | the loop yields the normalised interleaving of the fragments with one placeholder per gap, the `i`-th being `$i` for `pg` and `?` otherwise |
| Render.Text | SQL.js:83-85 | the `text` getter is the normalised interleaving of the fragments with `$1`, `$2`, ... in the gaps, left to right |
| Render.SqlText | SQL.js:87-89 | the `sql` getter is the normalised interleaving of the fragments with `?` in every gap |
| Render.PgPlaceholdersNumbered | SQL.js:51-55 | the `pg` placeholders are `$` followed by digits that read as `offset + i + 1`: contiguous, left to right, pairwise distinct |
| Render.OtherPlaceholdersAreQuestionMarks | SQL.js:52-55 | every type other than `pg`, an absent one included, uses `?` in every gap |
| Render.PlaceholdersSplit | SQL.js:51-55 | the placeholders of two consecutive runs of gaps continue each other's numbering |
| Render.RenderedIgnoresValues | SQL.js:48-63 | two statements with the same fragments render the same, whatever their values |
| Render.PlaceholderCount | SQL.js:48-63 | when no fragment holds the dialect's marker, the rendered text holds exactly one marker per gap |
| Render.GetterPlaceholderCounts | SQL.js:83-89 | `text` holds one `$` and `sql` one `?` per value of a template whose fragments hold neither |
| Render.Debug | SQL.js:65-77 | the loop yields the normalised interleaving of the fragments with the printed values: strings in single quotes, others as `String(v)` (`null` as `null`), a missing value as `undefined` |
| Render.NoValuesRenderAsWritten | SQL.js:48-77 | a statement with a single fragment renders as that fragment normalised, in every dialect and in `debug` |
| Whitespace.Normalize | SQL.js:60-62 | the output has no whitespace at either end, keeps every non-whitespace character in order (deleting all whitespace from input and output gives the same text), and is never longer than the input |
| Whitespace.NormalizeDropsTrailingSpace | SQL.js:60-62 | a space added at the end of the text does not change its normalisation |
| Whitespace.NormalizeIdempotent | SQL.js:60-62 | normalising a normalised text changes nothing |
| Whitespace.NormalizeSingleLine | SQL.js:60-62 | single-line text without outer whitespace is left unchanged, doubled interior spaces included |
| Whitespace.NormalizeKeepsCount | SQL.js:60-62 | every non-whitespace character occurs as often after normalisation as before |
| Whitespace.CollapseRunsIdempotent | SQL.js:60-62 | the interior runs left behind are already in final form |
| StatementAppend.Append | SQL.js:91-126 | a falsy argument gives back the receiver, and any other non-statement gives the `append` error. Safe: fragments `old[..-1] + [oldLast + otherFirst] + otherRest`, values concatenated, well-formedness preserved. Unsafe: values and fragment count kept, only the last fragment grows, by the other statement printed inline |
| StatementAppend.Concat | SQL.js:114-123 | the safe join has one fragment fewer than the two statements together (the receiver's last and the other's first are merged) and as many values as both; two tagged-template-shaped statements join into a tagged-template-shaped one |
| StatementAppend.ConcatWellFormed | SQL.js:114-123 | safely joining two well-formed statements gives a well-formed one |
| StatementAppend.ConcatAssociative | SQL.js:114-123 | `(a·b)·c` and `a·(b·c)` are the same statement |
| StatementAppend.ConcatUnit | SQL.js:114-123 | the empty template changes nothing on either side of a safe join |
| StatementAppend.RenderConcat | SQL.js:114-123 | before normalisation, the joined statement's assembled text is the receiver's followed by the other statement's, whose placeholders are numbered on from the receiver's |
| StatementAppend.RenderedConcat | SQL.js:114-123 | the text the joined statement renders as is the normalisation of the receiver's assembled text followed by the other's, numbered on; the parts are normalised together, not separately |
| StatementAppend.DebugConcat | SQL.js:114-123 | before normalisation, the `debug` text of a safe join is the receiver's followed by the other's |
| StatementAppend.InlinedTextInterleaves | SQL.js:100-103 | the unsafe `reduce` prints the fragments with each value inlined in its gap, a falsy value as nothing |
| StatementAppend.UnsafeAppendIsLiteralJoin | SQL.js:100-110 | unsafe `append` is the safe join with a value-free template holding the inlined text |
| StatementAppend.UnsafeAppendOfValueFree | SQL.js:100-123 | for a template without values, unsafe and safe `append` agree |
| StatementGlue.Step | SQL.js:20-30 | one iteration appends the piece's values, keeps the fragments collected so far, adds the piece's fragments with the held-back one merged into the first, and holds back a fragment exactly when the piece has more fragments than values |
| StatementGlue.Loop | SQL.js:18-31 | after the loop, there are as many collected fragments as values, and the values are the pieces' values in order, none `undefined` |
| StatementGlue.Glue | SQL.js:15-46 | the result is well-formed, holds the pieces' values in order, and its last fragment ends in a space; no pieces give `([' '], [])` |
| StatementGlue.LoopIsJoined | SQL.js:18-34 | the loop holds back exactly the reference join's last fragment, having collected all the fragments before it |
| StatementGlue.GlueIsJoin | SQL.js:15-46 | glue is the reference join (each piece safely appended after the previous one and the separator) followed by a trailing space |
| StatementGlue.GlueRenders | SQL.js:15-46 | before normalisation, a glued statement's assembled text is the pieces' assembled texts in order, the separator exactly between each two, placeholders numbered on across pieces, and a final space |
| StatementGlue.GlueRendered | SQL.js:15-46 | the text a glued statement renders as is the normalised join of the pieces' assembled texts with the separator between each two; the trailing space glue adds never shows |
| StatementGlue.JoinedShape | SQL.js:29-30 | the reference join has the template shape and holds the pieces' values in order |
| QuoteIdentifier.QuoteChar | quoteIdentifier.js:4 | the quote character is a backtick exactly when the type is `mysql`, and `"` otherwise, an absent type included |
| QuoteIdentifier.Escape | quoteIdentifier.js:6 | the `replace` adds one character per quote and leaves a name without quotes as it is |
| QuoteIdentifier.EscapeCounts | quoteIdentifier.js:6 | escaping adds one character per quote, doubles the number of quotes, and leaves every other character in place and in order |
| QuoteIdentifier.QuoteIdent | quoteIdentifier.js:3-9 | the output opens and closes with the quote character, and its length is the name's length plus one per embedded quote plus two |
| QuoteIdentifier.OtherQuoteUnchanged | quoteIdentifier.js:4-8 | every character other than the dialect's quote, the other dialect's quote included, occurs as often in the output as in the name |
| QuoteIdentifier.UnquoteQuoteIdent | quoteIdentifier.js:6-8 | round trip: reading the quoted identifier back gives the name |
| QuoteIdentifier.UnquoteOnlyQuoted | quoteIdentifier.js:6-8 | the converse: the only text that reads back as a name is its quoted form |
| QuoteIdentifier.ScanEscaped | quoteIdentifier.js:6-8 | inside the delimiters, quotes come only in pairs, so the reader stops at the closing delimiter and at nothing before it |
| QuoteIdentifier.ScanSound | quoteIdentifier.js:6-8 | whatever the reader accepts is an escaped name followed by its closing delimiter |
| QuoteIdentifier.QuotedIdentIsOneToken | quoteIdentifier.js:6-8 | injection safety: a quoted identifier followed by text is read as exactly that identifier, with the text left intact |
| Examples.NullValueAccepted | SQL.test.js:249-258 | `null` is accepted as a value and kept |
| Examples.UndefinedRejected | SQL.test.js:262-265 | a template holding `undefined` is refused with the `undefined` error |
| Examples.NullValueText | SQL.test.js:249-255 | `text` of the `null` test is `UPDATE teams SET name = $1 WHERE id = $2` |
| Examples.NullValueDebug | SQL.test.js:249-257 | `debug` of the `null` test prints `null` bare and the number in decimal |
| Examples.MultilineNormalized | SQL.test.js:42-55 | the outer whitespace goes and an interior run with blank lines and indentation becomes one line break |
| Examples.DoubleSpaceKept | SQL.test.js:216-225 | a doubled space inside a line is kept |
| Examples.AppendJoins | SQL.test.js:7-19 | the append test's fragments and values |
| Examples.GlueRows | SQL.test.js:100-104 | gluing `(${id})` for ids 1, 2, 3 with `' , '` gives the fragments `(`, `) , (`, `) , (`, `) ` and the values 1, 2, 3 in order |
| Examples.GlueWithoutCarry | SQL.js:21-28 | gluing `a` (value 1) and `b` (value 2), pieces with as many fragments as values, with `,` gives fragments `a`, `b`, ` ` and values 1, 2: no separator is inserted |
| Examples.UnsafeAppendPrints | SQL.test.js:232-240 | an unsafe append of a value-free template extends the last fragment |
| Examples.QuotePgSimple | quoteIdentifier.test.js:8-10 | `identifier` quotes as `"identifier"` for `pg` |
| Examples.QuotePgQuotes | quoteIdentifier.test.js:12-14 | `"quotes"` quotes as `"""quotes"""` for `pg` |
| Examples.QuoteMysqlSimple | quoteIdentifier.test.js:18-20 | `identifier` quotes as a backtick-delimited identifier for `mysql` |
| Examples.QuoteMysqlQuotes | quoteIdentifier.test.js:22-24 | embedded backticks are doubled for `mysql` |
| Examples.QuoteDefaultSimple | quoteIdentifier.test.js:28-30 | without a type, `"` is the quote character |
| Examples.QuoteDefaultQuotes | quoteIdentifier.test.js:32-34 | without a type, embedded `"` are doubled |

## Left out

- Everything under `sqlmap/`: HTTP servers, routes, the database client and the sqlmap runner are
  I/O and process plumbing.
- `benchmark/index.js` is a performance harness.
- `SQL.d.ts` and `SQL.test-d.ts` are TypeScript declarations, with no logic.
- Nested statements, value wrappers, Oracle `:n` placeholders, and the `ORACLE`/`MYSQL` exports
  that some tests and `sqlmap` use. `SQL.js` does not implement them; it exports only `SQL` with
  `SQL.glue` (SQL.js:129-134).
- The `util.inspect` hook (SQL.js:79-81) only formats `debug` for the console.
- Mutation and aliasing are not modelled:
  - `append` changes the receiver in place and returns it, and `this.values.push` (SQL.js:123)
    shares arrays with the caller. The model returns a new statement and leaves the receiver as it
    was.
  - The `Array.from` copy in `glue` (SQL.js:20) is what keeps the pieces unchanged. In the
    functional model this holds by construction.
- JavaScript coercion of arbitrary objects. Values are restricted to `undefined`, `null`, booleans,
  integers and strings. Numbers are integers, so fractions, exponent notation and `-0` are not
  modelled.
- Strings are sequences of code points rather than UTF-16 code units. Every character the code
  inspects (whitespace, line terminators, quotes, digits) is a single code unit.
- The regular-expression engine behind the normalisation is not transcribed. `Whitespace.Normalize`
  models its effect per whitespace run, as described above.
- Only the message of the constructor's failed `assert` is kept (in `SqlStatement.Message`), not
  the type of exception thrown.
- `quoteIdentifier` called with a non-string `value` throws in `value.replace`. The model takes
  strings only.
- StatementAppend.Append: the receiver, and a safely appended statement, must have at least one
  fragment. Every statement the library builds does. With an empty `strings` array a safe append
  prints `undefined` into the joined fragment. An unsafe append onto an empty receiver assigns
  `strings[-1]`, a non-index property (SQL.js:106-107), so the inlined text is lost and the
  fragments stay empty.
- Render.GenerateString and Render.Debug: the statement must have at least one fragment, as
  every statement the library builds does. With an empty `strings` array the source starts from
  `undefined` and throws a TypeError when it normalises; `Render.Rendered`, `Render.Text` and
  `Render.SqlText` carry the same condition.
- StatementGlue.Glue: each piece must have at least one fragment, as many values as fragments or
  one fewer, and no `undefined` value. Statements built by the `SQL` tag always qualify. The
  source also runs on other objects holding `strings` and `values` arrays:
  - A piece with no fragments adds nothing, unless a fragment is held back into it. Then
    `undefined` is printed after the separator (SQL.js:21-22).
  - A piece with more values than fragments is copied over without padding. The result has too
    few fragments for its values.
  - A piece holding `undefined` makes the final construction fail with the `undefined` error
    (SQL.js:42, then SQL.js:7-10). The model does not return that error.
- StatementGlue.GlueIsJoin, StatementGlue.GlueRenders, StatementGlue.GlueRendered and
  StatementGlue.LoopIsJoined: stated for well-formed, tagged-template-shaped pieces, the only
  pieces the library itself produces. For the looser pieces `Glue` also accepts, only the `Glue`
  and `Loop` contracts apply.
- QuoteIdentifier.QuotedIdentIsOneToken: the text after the identifier must not begin with the
  quote character itself. Otherwise the reader would take the closing quote and the next one as a
  doubled quote; that is how SQL reads such input, not a weakness of the escaping.
- Render.PlaceholderCount and Render.GetterPlaceholderCounts: the count holds only when the
  fragments do not already contain the marker character.
- Examples: the rendered `text` of the append test and of the glue regression is not stated; their
  fragments and values are. The text follows from `StatementAppend.RenderedConcat` and
  `StatementGlue.GlueRendered`.
