/** `glue` (also reachable as the free function `SQL.glue`): joining statements with a separator. */
module StatementGlue {
  import opened Wrappers
  import opened JsValue
  import opened Whitespace
  import opened SqlStatement
  import opened Render
  import opened StatementAppend

  /** The loop's state: fragments and values collected so far, and the last fragment held back. */
  datatype GlueState = GlueState(strings: seq<string>, values: seq<Value>, carry: Option<string>)

  /**
   * A statement-like piece the loop handles: at least one fragment, and as many fragments as
   * values or one more (a tagged template always has one more), none of its values `undefined`.
   */
  predicate Gluable(p: Statement) {
    && 1 <= |p.strings|
    && |p.values| <= |p.strings| <= |p.values| + 1
    && AllDefined(p.values)
  }

  predicate AllGluable(pieces: seq<Statement>) {
    forall i :: 0 <= i < |pieces| ==> Gluable(pieces[i])
  }

  /** Every piece has the shape of a tagged template. */
  predicate AllShaped(pieces: seq<Statement>) {
    forall i :: 0 <= i < |pieces| ==> Shaped(pieces[i])
  }

  predicate AllWellFormed(pieces: seq<Statement>) {
    forall i :: 0 <= i < |pieces| ==> WellFormed(pieces[i])
  }

  /** The pieces' values, one piece after the other. */
  function AllValues(pieces: seq<Statement>): seq<Value>
    decreases |pieces|
  {
    if |pieces| == 0 then [] else AllValues(pieces[..|pieces| - 1]) + pieces[|pieces| - 1].values
  }

  /**
   * One iteration: a held-back fragment is joined, with the separator, onto the piece's first
   * fragment; a piece with more fragments than values has its last one held back in turn.
   * Fragments already collected stay; the piece's fragments are added with the held-back one
   * merged into the first, so the total count grows by the piece's fragment count.
   */
  function Step(acc: GlueState, piece: Statement, sep: string): (r: GlueState)
    requires |piece.strings| >= 1
    ensures r.values == acc.values + piece.values
    ensures r.carry.Some? <==> |piece.strings| > |piece.values|
    ensures |r.strings| + (if r.carry.Some? then 1 else 0) == |acc.strings| + |piece.strings|
    ensures r.strings[..|acc.strings|] == acc.strings
  {
    var strs :=
      if acc.carry.Some? then [acc.carry.value + sep + piece.strings[0]] + piece.strings[1..]
      else piece.strings;
    if |strs| > |piece.values| then
      GlueState(acc.strings + strs[..|strs| - 1], acc.values + piece.values, Some(strs[|strs| - 1]))
    else
      GlueState(acc.strings + strs, acc.values + piece.values, None)
  }

  /** The loop's state after the given pieces: as many fragments as values, the values in piece order. */
  function Loop(pieces: seq<Statement>, sep: string): (r: GlueState)
    requires AllGluable(pieces)
    ensures |r.strings| == |r.values|
    ensures r.values == AllValues(pieces)
    ensures AllDefined(r.values)
    decreases |pieces|
  {
    if |pieces| == 0 then GlueState([], [], None)
    else Step(Loop(pieces[..|pieces| - 1], sep), pieces[|pieces| - 1], sep)
  }

  /**
   * `glue(pieces, separator)`: a well-formed statement holding all the pieces' values in order,
   * whose last fragment ends in a space; no pieces give the statement `' '` with no values.
   */
  function Glue(pieces: seq<Statement>, sep: string): (r: Statement)
    requires AllGluable(pieces)
    ensures WellFormed(r)
    ensures r.values == AllValues(pieces)
    ensures var last := r.strings[|r.strings| - 1]; |last| >= 1 && last[|last| - 1] == ' '
    ensures |pieces| == 0 ==> r == Statement([" "], [])
  {
    var end := Loop(pieces, sep);
    var closed := if end.carry.Some? then end.strings + [end.carry.value] else end.strings;
    var padded := if |closed| == |end.values| then closed + [""] else closed;
    var n := |padded|;
    assert "" + " " == " ";
    assert |pieces| == 0 ==> padded[..n - 1] + [padded[n - 1] + " "] == [" "];
    Statement(padded[..n - 1] + [padded[n - 1] + " "], end.values)
  }

  /** The reference join: each piece safely appended after the previous ones and the separator. */
  function Joined(pieces: seq<Statement>, sep: string): (r: Statement)
    requires |pieces| >= 1
    requires AllShaped(pieces)
    ensures |r.strings| >= 1
    decreases |pieces|
  {
    if |pieces| == 1 then pieces[0]
    else Concat(Concat(Joined(pieces[..|pieces| - 1], sep), Lit(sep)), pieces[|pieces| - 1])
  }

  lemma {:induction false} JoinedShape(pieces: seq<Statement>, sep: string)
    requires |pieces| >= 1
    requires AllShaped(pieces)
    ensures Shaped(Joined(pieces, sep))
    ensures Joined(pieces, sep).values == AllValues(pieces)
    decreases |pieces|
  {
    var n := |pieces|;
    if n == 1 {
      assert AllValues(pieces) == [] + pieces[0].values;
      assert [] + pieces[0].values == pieces[0].values;
    } else {
      JoinedShape(pieces[..n - 1], sep);
      assert Joined(pieces[..n - 1], sep).values + [] == Joined(pieces[..n - 1], sep).values;
    }
  }

  /**
   * The loop holds back exactly the reference join's last fragment and has collected all the
   * fragments before it.
   */
  lemma {:induction false} LoopIsJoined(pieces: seq<Statement>, sep: string)
    requires |pieces| >= 1
    requires AllWellFormed(pieces)
    ensures var J := Joined(pieces, sep);
      && Loop(pieces, sep).carry == Some(J.strings[|J.strings| - 1])
      && Loop(pieces, sep).strings == J.strings[..|J.strings| - 1]
    decreases |pieces|
  {
    var n := |pieces|;
    var p := pieces[n - 1];
    var prefix := pieces[..n - 1];
    assert AllWellFormed(prefix);
    if n == 1 {
      assert prefix == [];
      assert Loop(pieces, sep) == Step(GlueState([], [], None), p, sep);
      assert [] + p.strings[..|p.strings| - 1] == p.strings[..|p.strings| - 1];
    } else {
      LoopIsJoined(prefix, sep);
      assert Loop(pieces, sep) == Step(Loop(prefix, sep), p, sep);
      JoinedUnfold(pieces, sep);
      JoinStep(Loop(prefix, sep), Joined(prefix, sep), p, sep);
    }
  }

  /** The inductive step of `LoopIsJoined`: one more piece keeps the correspondence. */
  lemma JoinStep(acc: GlueState, J': Statement, p: Statement, sep: string)
    requires |J'.strings| >= 1 && Shaped(p)
    requires acc.carry == Some(J'.strings[|J'.strings| - 1])
    requires acc.strings == J'.strings[..|J'.strings| - 1]
    ensures var J := Concat(Concat(J', Lit(sep)), p);
      && Step(acc, p, sep).carry == Some(J.strings[|J.strings| - 1])
      && Step(acc, p, sep).strings == J.strings[..|J.strings| - 1]
  {
    var k := |J'.strings|;
    var L := J'.strings[k - 1];
    var strs := [L + sep + p.strings[0]] + p.strings[1..];
    StepWithCarry(acc, p, sep, L);
    var withSep := Concat(J', Lit(sep));
    assert withSep.strings == J'.strings[..k - 1] + [L + sep] by {
      assert [sep][1..] == [];
    }
    var J := Concat(withSep, p);
    assert J.strings == J'.strings[..k - 1] + strs;
    assert J.strings[..|J.strings| - 1] == J'.strings[..k - 1] + strs[..|strs| - 1];
  }

  /** One iteration with a held-back fragment on a template-shaped piece. */
  lemma StepWithCarry(acc: GlueState, p: Statement, sep: string, L: string)
    requires Shaped(p) && acc.carry == Some(L)
    ensures var strs := [L + sep + p.strings[0]] + p.strings[1..];
      && Step(acc, p, sep).strings == acc.strings + strs[..|strs| - 1]
      && Step(acc, p, sep).carry == Some(strs[|strs| - 1])
  {
  }

  /**
   * For template-shaped pieces, gluing is the reference join followed by a trailing space: the
   * separator stands exactly between consecutive pieces, merged into the fragments around it.
   */
  lemma GlueIsJoin(pieces: seq<Statement>, sep: string)
    requires |pieces| >= 1
    requires AllWellFormed(pieces)
    ensures Glue(pieces, sep) == Concat(Joined(pieces, sep), Lit(" "))
  {
    LoopIsJoined(pieces, sep);
    JoinedShape(pieces, sep);
    var J := Joined(pieces, sep);
    var n := |J.strings|;
    assert J.strings[..n - 1] + [J.strings[n - 1]] == J.strings;
    assert [" "][1..] == [];
    assert J.values + [] == J.values;
  }

  /** The pieces rendered one after the other, separated by `sep`, each numbered on from the previous. */
  function JoinedText(pieces: seq<Statement>, sep: string, kind: Option<string>, offset: nat): string
    requires |pieces| >= 1
    requires AllShaped(pieces)
    decreases |pieces|
  {
    var n := |pieces|;
    if n == 1 then RawText(pieces[0].strings, kind, offset)
    else
      JoinedText(pieces[..n - 1], sep, kind, offset) + sep
      + RawText(pieces[n - 1].strings, kind, offset + |AllValues(pieces[..n - 1])|)
  }

  lemma RawTextOfLit(text: string, kind: Option<string>, offset: nat)
    ensures RawText(Lit(text).strings, kind, offset) == text
  {
    assert Placeholders(kind, offset, 0) == [];
  }

  lemma {:induction false} JoinedRenders(pieces: seq<Statement>, sep: string, kind: Option<string>, offset: nat)
    requires |pieces| >= 1
    requires AllShaped(pieces)
    ensures RawText(Joined(pieces, sep).strings, kind, offset) == JoinedText(pieces, sep, kind, offset)
    decreases |pieces|
  {
    if |pieces| > 1 {
      var prefix := pieces[..|pieces| - 1];
      assert AllShaped(prefix);
      JoinedRenders(prefix, sep, kind, offset);
      JoinedRendersStep(pieces, sep, kind, offset);
    }
  }

  /** The inductive step of `JoinedRenders`: rendering one more piece keeps the correspondence. */
  lemma JoinedRendersStep(pieces: seq<Statement>, sep: string, kind: Option<string>, offset: nat)
    requires |pieces| >= 2
    requires AllShaped(pieces)
    requires AllShaped(pieces[..|pieces| - 1])
    requires RawText(Joined(pieces[..|pieces| - 1], sep).strings, kind, offset)
          == JoinedText(pieces[..|pieces| - 1], sep, kind, offset)
    ensures RawText(Joined(pieces, sep).strings, kind, offset) == JoinedText(pieces, sep, kind, offset)
  {
    var prefix := pieces[..|pieces| - 1];
    JoinedShape(prefix, sep);
    JoinedUnfold(pieces, sep);
    JoinedTextUnfold(pieces, sep, kind, offset);
    RenderJoinStep(Joined(prefix, sep), pieces[|pieces| - 1], sep, kind, offset);
  }

  lemma JoinedUnfold(pieces: seq<Statement>, sep: string)
    requires |pieces| >= 2 && AllShaped(pieces)
    ensures AllShaped(pieces[..|pieces| - 1])
    ensures Joined(pieces, sep)
         == Concat(Concat(Joined(pieces[..|pieces| - 1], sep), Lit(sep)), pieces[|pieces| - 1])
  {
  }

  lemma JoinedTextUnfold(pieces: seq<Statement>, sep: string, kind: Option<string>, offset: nat)
    requires |pieces| >= 2 && AllShaped(pieces)
    ensures AllShaped(pieces[..|pieces| - 1])
    ensures JoinedText(pieces, sep, kind, offset)
         == JoinedText(pieces[..|pieces| - 1], sep, kind, offset) + sep
          + RawText(pieces[|pieces| - 1].strings, kind, offset + |AllValues(pieces[..|pieces| - 1])|)
  {
  }

  /** One more piece renders after the separator, numbered on from the values before it. */
  lemma RenderJoinStep(J': Statement, p: Statement, sep: string, kind: Option<string>, offset: nat)
    requires Shaped(J') && |p.strings| >= 1
    ensures RawText(Concat(Concat(J', Lit(sep)), p).strings, kind, offset)
         == RawText(J'.strings, kind, offset) + sep + RawText(p.strings, kind, offset + |J'.values|)
  {
    var withSep := Concat(J', Lit(sep));
    RenderConcat(J', Lit(sep), kind, offset);
    RawTextOfLit(sep, kind, offset + |J'.strings| - 1);
    RenderConcat(withSep, p, kind, offset);
  }

  /**
   * Before normalisation, a glued statement's text is the pieces' assembled texts in order with the
   * separator between each two, placeholders numbered on across the pieces, and a final space.
   */
  lemma GlueRenders(pieces: seq<Statement>, sep: string, kind: Option<string>, offset: nat)
    requires |pieces| >= 1
    requires AllWellFormed(pieces)
    ensures RawText(Glue(pieces, sep).strings, kind, offset) == JoinedText(pieces, sep, kind, offset) + " "
  {
    var J := Joined(pieces, sep);
    GlueIsJoin(pieces, sep);
    JoinedRenders(pieces, sep, kind, offset);
    RenderConcat(J, Lit(" "), kind, offset);
    RawTextOfLit(" ", kind, offset + |J.strings| - 1);
  }

  /**
   * The text a glued statement renders as: the pieces' assembled texts with the separator
   * between each two, normalised; the space glue adds at the end never shows.
   */
  lemma GlueRendered(pieces: seq<Statement>, sep: string, kind: Option<string>)
    requires |pieces| >= 1
    requires AllWellFormed(pieces)
    ensures Rendered(Glue(pieces, sep), kind) == Normalize(JoinedText(pieces, sep, kind, 0))
  {
    GlueRenders(pieces, sep, kind, 0);
    NormalizeDropsTrailingSpace(JoinedText(pieces, sep, kind, 0));
  }
}
