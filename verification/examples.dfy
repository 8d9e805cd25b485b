/**
 * Cases from the library's own test suite, stated against the model. Several cases take their
 * literal input as a parameter pinned by a `requires`: stated on the literal itself, the verifier
 * would unfold the recursive definitions on it character by character.
 */
module Examples {
  import opened Wrappers
  import opened JsValue
  import opened Whitespace
  import opened SqlStatement
  import opened Render
  import opened StatementAppend
  import opened StatementGlue
  import opened QuoteIdentifier

  /** A raw text that is already trimmed and on one line is rendered unchanged. */
  lemma RenderedAs(st: Statement, kind: Option<string>, s: string)
    requires |st.strings| >= 1
    requires RawText(st.strings, kind, 0) == s
    requires Trimmed(s) && !HasLineTerminator(s)
    ensures Rendered(st, kind) == s
  {
    NormalizeSingleLine(s);
  }

  /** The fragments of `SQL\`UPDATE teams SET name = ${name} WHERE id = ${id}\``. */
  const NullStrings: seq<string> := ["UPDATE teams SET name = ", " WHERE id = ", ""]

  /** `null` is accepted as a value and kept. */
  lemma NullValueAccepted()
    ensures Sql(NullStrings, [Null, Num(123)]) == Ok(Statement(NullStrings, [Null, Num(123)]))
  {
    assert AllDefined([Null, Num(123)]);
  }

  /** `undefined` is refused. */
  lemma UndefinedRejected()
    ensures Sql(["UPDATE teams SET name = ", ""], [Undefined]) == Err(UndefinedValue)
  {
    assert [Undefined][0] == Undefined;
  }

  /** The placeholders are numbered from the left, a `null` value taking its slot like any other. */
  lemma NullValueRaw()
    ensures RawText(NullStrings, Some("pg"), 0) == "UPDATE teams SET name = $1 WHERE id = $2"
  {
    var P := Placeholders(Some("pg"), 0, 2);
    assert NatToString(1) == "1";
    assert NatToString(2) == "2";
    assert P[0] == "$1";
    assert P[1] == "$2";
    assert P == ["$1", "$2"];
    assert Interleave(NullStrings[..1], []) == "UPDATE teams SET name = ";
    assert Interleave(NullStrings[..2], P[..1]) == "UPDATE teams SET name = $1 WHERE id = ";
  }

  /** The expected text is on one line and has no whitespace at either end. */
  lemma NullValueLine()
    ensures var s := "UPDATE teams SET name = $1 WHERE id = $2"; Trimmed(s) && !HasLineTerminator(s)
  {
    HasLineTerminatorConcat("UPDATE teams SET name = ", "$1 WHERE id = $2");
  }

  /** The `text` the `null` test expects. */
  lemma NullValueText()
    ensures Text(Statement(NullStrings, [Null, Num(123)])) == "UPDATE teams SET name = $1 WHERE id = $2"
  {
    NullValueRaw();
    NullValueLine();
    RenderedAs(Statement(NullStrings, [Null, Num(123)]), Some("pg"), "UPDATE teams SET name = $1 WHERE id = $2");
  }

  /** `null` is printed bare and the number in decimal. */
  lemma NullDebugRaw(st: Statement)
    requires st == Statement(NullStrings, [Null, Num(123)])
    ensures DebugRaw(st) == "UPDATE teams SET name = null WHERE id = 123"
  {
    NullDebugLiterals(st);
    var L := DebugLiterals(st);
    assert Interleave(NullStrings[..1], []) == "UPDATE teams SET name = ";
    assert Interleave(NullStrings[..2], L[..1]) == "UPDATE teams SET name = null WHERE id = ";
  }

  lemma NullDebugLiterals(st: Statement)
    requires st == Statement(NullStrings, [Null, Num(123)])
    ensures DebugLiterals(st) == ["null", "123"]
  {
    var L := DebugLiterals(st);
    assert NatToString(123) == "123";
    assert L[0] == "null";
    assert L[1] == "123";
  }

  /** The `debug` text the `null` test expects. */
  lemma NullValueDebug()
    ensures Normalize(DebugRaw(Statement(NullStrings, [Null, Num(123)]))) == "UPDATE teams SET name = null WHERE id = 123"
  {
    NullDebugRaw(Statement(NullStrings, [Null, Num(123)]));
    NullDebugLine();
    NormalizeSingleLine("UPDATE teams SET name = null WHERE id = 123");
  }

  lemma NullDebugLine()
    ensures var s := "UPDATE teams SET name = null WHERE id = 123"; Trimmed(s) && !HasLineTerminator(s)
  {
    HasLineTerminatorConcat("UPDATE teams SET name = ", "null WHERE id = 123");
  }

  /**
   * The multiline tests in miniature: the outer whitespace goes, and an interior run with line
   * breaks (a blank line and indentation included) becomes a single line break.
   */
  lemma MultilineNormalized(s: string)
    requires s == "\n a\n\n b\n"
    ensures Normalize(s) == "a\nb"
  {
    assert LeadingWs(s[2..]) == 0;
    assert LeadingWs(s[1..]) == 1 + LeadingWs(s[1..][1..]);
    assert s[1..][1..] == s[2..];
    var a := s[2..];
    assert a == "a\n\n b\n";
    assert TrailingWs(a[..5]) == 0;
    assert TrailingWs(a) == 1;
    var t := a[..5];
    assert Trim(s) == t;
    assert t == "a\n\n b";
    assert CollapseRuns(t) == "a" + CollapseRuns(t[1..]);
    var u := t[1..];
    assert LeadingWs(u[3..]) == 0;
    assert LeadingWs(u[2..]) == 1 + LeadingWs(u[3..]);
    assert LeadingWs(u[1..]) == 1 + LeadingWs(u[2..]);
    assert u[..3] == "\n\n ";
    assert LastTerminator("\n\n ") == "\n";
    assert u[3..] == "b";
    assert CollapseRuns(u[3..]) == "b";
  }

  /** A run without a line break keeps its width: the double space the unsafe-append test expects. */
  lemma DoubleSpaceKept()
    ensures Normalize("$1,  AND v3") == "$1,  AND v3"
  {
    HasLineTerminatorConcat("$1,", "  AND v3");
    NormalizeSingleLine("$1,  AND v3");
  }

  /** The first statement of the append test, with the statement appended after it. */
  const AppendHead := Statement(["UPDATE teams SET name = ", ", description = ", " "], [Str("Team 5"), Str("description")])
  const AppendTail := Statement(["WHERE id = ", " AND org_id = ", ""], [Num(7), Str("WONKA")])

  lemma AppendJoins()
    ensures Append(AppendHead, Tagged(AppendTail), false)
         == Ok(Statement(["UPDATE teams SET name = ", ", description = ", " WHERE id = ", " AND org_id = ", ""],
                         [Str("Team 5"), Str("description"), Num(7), Str("WONKA")]))
  {
    var r := Append(AppendHead, Tagged(AppendTail), false);
    assert r.value.strings == AppendHead.strings[..2] + [AppendHead.strings[2] + AppendTail.strings[0]] + AppendTail.strings[1..];
    assert r.value.values == AppendHead.values + AppendTail.values;
    assert AppendHead.strings[..2] == ["UPDATE teams SET name = ", ", description = "];
    assert AppendTail.strings[1..] == [" AND org_id = ", ""];
    assert " " + "WHERE id = " == " WHERE id = ";
    assert r.value.strings == ["UPDATE teams SET name = ", ", description = ", " WHERE id = ", " AND org_id = ", ""];
    assert r.value.values == [Str("Team 5"), Str("description"), Num(7), Str("WONKA")];
  }

  /** The piece `SQL\`(${id})\``. */
  function Row(id: int): Statement {
    Statement(["(", ")"], [Num(id)])
  }

  /** Safely appending the separator and then a piece merges them into the adjoining fragments. */
  lemma JoinWithSeparator(a: seq<string>, last: string, sep: string, first: string, rest: seq<string>, va: seq<Value>, vb: seq<Value>)
    ensures Concat(Concat(Statement(a + [last], va), Lit(sep)), Statement([first] + rest, vb))
         == Statement(a + [last + sep + first] + rest, va + vb)
  {
    var x := a + [last];
    assert x[..|x| - 1] == a;
    assert [sep][1..] == [];
    var y := a + [last + sep];
    assert y[..|y| - 1] == a;
    assert ([first] + rest)[1..] == rest;
    assert va + [] == va;
  }

  /** Safely appending a literal extends the last fragment and adds no value. */
  lemma AppendLiteral(a: seq<string>, last: string, text: string, va: seq<Value>)
    ensures Concat(Statement(a + [last], va), Lit(text)) == Statement(a + [last + text], va)
  {
    var x := a + [last];
    assert x[..|x| - 1] == a;
    assert [text][1..] == [];
    assert va + [] == va;
  }

  /** The first two pieces of the glue regression, joined with the separator. */
  lemma RowsJoinedTwo(pieces: seq<Statement>, sep: string)
    requires pieces == [Row(1), Row(2)] && sep == " , "
    ensures AllShaped(pieces)
    ensures Joined(pieces, sep) == Statement(["(", ") , (", ")"], [Num(1), Num(2)])
  {
    assert AllShaped(pieces);
    JoinedUnfold(pieces, sep);
    assert pieces[..1] == [Row(1)];
    JoinWithSeparator(["("], ")", sep, "(", [")"], [Num(1)], [Num(2)]);
    assert ")" + sep + "(" == ") , (";
    assert ["("] + [") , ("] + [")"] == ["(", ") , (", ")"];
    assert [Num(1)] + [Num(2)] == [Num(1), Num(2)];
  }

  /** The three pieces of the glue regression, joined with the separator and before the trailing space. */
  lemma RowsJoined(pieces: seq<Statement>, sep: string)
    requires pieces == [Row(1), Row(2), Row(3)] && sep == " , "
    ensures AllShaped(pieces)
    ensures Joined(pieces, sep) == Statement(["(", ") , (", ") , (", ")"], [Num(1), Num(2), Num(3)])
  {
    assert AllShaped(pieces);
    JoinedUnfold(pieces, sep);
    assert pieces[..2] == [Row(1), Row(2)];
    RowsJoinedTwo(pieces[..2], sep);
    JoinWithSeparator(["(", ") , ("], ")", sep, "(", [")"], [Num(1), Num(2)], [Num(3)]);
    assert ")" + sep + "(" == ") , (";
    assert ["(", ") , ("] + [") , ("] + [")"] == ["(", ") , (", ") , (", ")"];
    assert [Num(1), Num(2)] + [Num(3)] == [Num(1), Num(2), Num(3)];
  }

  /**
   * Regression #17 of the glue tests: three one-value pieces glued with `' , '`. The separator
   * lands between the pieces' adjoining fragments, and the values stay in order.
   */
  lemma GlueRows(pieces: seq<Statement>, sep: string)
    requires pieces == [Row(1), Row(2), Row(3)] && sep == " , "
    ensures Glue(pieces, sep) == Statement(["(", ") , (", ") , (", ") "], [Num(1), Num(2), Num(3)])
  {
    assert AllWellFormed(pieces);
    GlueIsJoin(pieces, sep);
    RowsJoined(pieces, sep);
    var j3 := Statement(["(", ") , (", ") , (", ")"], [Num(1), Num(2), Num(3)]);
    assert j3.strings == ["(", ") , (", ") , ("] + [")"];
    AppendLiteral(["(", ") , (", ") , ("], ")", " ", j3.values);
    assert ")" + " " == ") ";
    assert ["(", ") , (", ") , ("] + [") "] == ["(", ") , (", ") , (", ") "];
  }

  /** The loop over two pieces that each have as many fragments as values holds nothing back. */
  lemma LoopWithoutCarry(pieces: seq<Statement>, sep: string)
    requires pieces == [Statement(["a"], [Num(1)]), Statement(["b"], [Num(2)])]
    ensures AllGluable(pieces)
    ensures Loop(pieces, sep) == GlueState(["a", "b"], [Num(1), Num(2)], None)
  {
    assert AllGluable(pieces);
    assert pieces[..1][..0] == [];
    assert Loop(pieces[..1], sep) == GlueState(["a"], [Num(1)], None);
    assert ["a"] + ["b"] == ["a", "b"];
  }

  /**
   * The separator goes only onto a held-back fragment: after a piece with as many fragments as
   * values nothing is held back, so the next piece follows without a separator.
   */
  lemma GlueWithoutCarry(pieces: seq<Statement>, sep: string)
    requires pieces == [Statement(["a"], [Num(1)]), Statement(["b"], [Num(2)])] && sep == ","
    ensures Glue(pieces, sep) == Statement(["a", "b", " "], [Num(1), Num(2)])
  {
    LoopWithoutCarry(pieces, sep);
    var padded := ["a", "b"] + [""];
    assert padded[..2] == ["a", "b"];
    assert "" + " " == " ";
    assert ["a", "b"] + [" "] == ["a", "b", " "];
  }

  /** `unsafe` prints a value-free statement into the last fragment. */
  lemma UnsafeAppendPrints()
    ensures Append(Lit("TEST QUERY glue pieces FROM test WHERE test1 == test2"), Tagged(Lit(" AND v1 = v1,")), true) == Ok(Lit("TEST QUERY glue pieces FROM test WHERE test1 == test2 AND v1 = v1,"))
  {
    assert InlineReduce([" AND v1 = v1,"], [], 0) == "";
    assert InlineText(ValueAt([], 0)) == "";
    assert InlinedText(Lit(" AND v1 = v1,")) == " AND v1 = v1,";
    assert ["TEST QUERY glue pieces FROM test WHERE test1 == test2"][..0] == [];
    assert "TEST QUERY glue pieces FROM test WHERE test1 == test2" + " AND v1 = v1," == "TEST QUERY glue pieces FROM test WHERE test1 == test2 AND v1 = v1,";
    assert [] + ["TEST QUERY glue pieces FROM test WHERE test1 == test2 AND v1 = v1,"] == ["TEST QUERY glue pieces FROM test WHERE test1 == test2 AND v1 = v1,"];
  }

  /** A name without the quote character is only wrapped in quotes. */
  lemma QuoteFree(v: string, kind: Option<string>)
    requires QuoteChar(kind) !in v
    ensures QuoteIdent(v, kind) == [QuoteChar(kind)] + v + [QuoteChar(kind)]
  {
    EscapeWithout(v, QuoteChar(kind));
  }

  lemma {:induction false} EscapeWithout(v: string, q: char)
    requires q !in v
    ensures Escape(v, q) == v
    decreases |v|
  {
    if |v| > 0 {
      assert v == [v[0]] + v[1..];
      EscapeWithout(v[1..], q);
    }
  }

  /** A name wrapped in the quote character gets each of them doubled. */
  lemma QuoteWrapped(v: string, kind: Option<string>)
    requires QuoteChar(kind) !in v
    ensures var q := QuoteChar(kind);
      QuoteIdent([q] + v + [q], kind) == [q, q, q] + v + [q, q, q]
  {
    var q := QuoteChar(kind);
    EscapeWithout(v, q);
    var w := [q] + v + [q];
    assert w[0] == q && w[1..] == v + [q];
    EscapeSnoc(v, q);
    assert Escape(w, q) == [q, q] + Escape(v + [q], q);
    assert Escape(w, q) == [q, q] + v + [q, q];
    assert QuoteIdent(w, kind) == Delimit(w, q);
  }

  lemma {:induction false} EscapeSnoc(v: string, q: char)
    ensures Escape(v + [q], q) == Escape(v, q) + [q, q]
    decreases |v|
  {
    if |v| == 0 {
      assert [q][1..] == [];
      assert v + [q] == [q];
    } else {
      assert (v + [q])[1..] == v[1..] + [q];
      EscapeSnoc(v[1..], q);
    }
  }

  lemma QuotePgSimple(v: string)
    requires v == "identifier"
    ensures QuoteIdent(v, Some("pg")) == "\"identifier\""
  {
    QuoteFree(v, Some("pg"));
  }

  lemma QuotePgQuotes(v: string)
    requires v == "\"quotes\""
    ensures QuoteIdent(v, Some("pg")) == "\"\"\"quotes\"\"\""
  {
    var w := "quotes";
    assert v == ['"'] + w + ['"'];
    QuoteWrapped(w, Some("pg"));
  }

  lemma QuoteMysqlSimple(v: string)
    requires v == "identifier"
    ensures QuoteIdent(v, Some("mysql")) == "`identifier`"
  {
    QuoteFree(v, Some("mysql"));
  }

  lemma QuoteMysqlQuotes(v: string)
    requires v == "`quotes`"
    ensures QuoteIdent(v, Some("mysql")) == "```quotes```"
  {
    var w := "quotes";
    assert v == ['`'] + w + ['`'];
    QuoteWrapped(w, Some("mysql"));
  }

  lemma QuoteDefaultSimple(v: string)
    requires v == "identifier"
    ensures QuoteIdent(v, None) == "\"identifier\""
  {
    QuoteFree(v, None);
  }

  lemma QuoteDefaultQuotes(v: string)
    requires v == "\"quotes\""
    ensures QuoteIdent(v, None) == "\"\"\"quotes\"\"\""
  {
    var w := "quotes";
    assert v == ['"'] + w + ['"'];
    QuoteWrapped(w, None);
  }
}
