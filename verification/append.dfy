/** `append`: adding another statement onto the end of a statement, safely or by inlining its values. */
module StatementAppend {
  import opened Wrappers
  import opened JsValue
  import opened Whitespace
  import opened SqlStatement
  import opened Render

  /** What `append` may be handed: a statement built with `SQL`, or any other value. */
  datatype Operand = Tagged(stmt: Statement) | Untagged(v: Value)

  /**
   * The safe join of two statements: the boundary fragments are merged, the other's values follow
   * the receiver's, and the shape of a template is kept.
   */
  function Concat(a: Statement, b: Statement): (r: Statement)
    requires |a.strings| >= 1 && |b.strings| >= 1
    ensures |r.strings| == |a.strings| + |b.strings| - 1
    ensures |r.values| == |a.values| + |b.values|
    ensures Shaped(a) && Shaped(b) ==> Shaped(r)
  {
    Statement(MergeStrings(a.strings, b.strings), a.values + b.values)
  }

  /** Safe appending never introduces an `undefined` value. */
  lemma ConcatWellFormed(a: Statement, b: Statement)
    requires |a.strings| >= 1 && |b.strings| >= 1
    ensures WellFormed(a) && WellFormed(b) ==> WellFormed(Concat(a, b))
  {
  }

  /** How unsafe `append` prints a value: falsy values vanish, others print as `String(v)`, strings unquoted. */
  function InlineText(v: Value): string {
    if IsFalsy(v) then "" else ToJsString(v)
  }

  /** The `reduce` over the first `n` fragments, each followed by the value of the same index. */
  function InlineReduce(strings: seq<string>, values: seq<Value>, n: nat): string
    requires n <= |strings|
    decreases n
  {
    if n == 0 then ""
    else InlineReduce(strings, values, n - 1) + strings[n - 1] + InlineText(ValueAt(values, n - 1))
  }

  /** The text unsafe `append` splices in for a statement. */
  function InlinedText(st: Statement): string {
    InlineReduce(st.strings, st.values, |st.strings|)
  }

  /**
   * `receiver.append(arg, { unsafe })`. A falsy non-statement leaves the receiver as it was, any
   * other non-statement is an error; a statement is joined safely, or, when `unsafe`, printed into
   * the receiver's last fragment while the receiver's values and fragment count stay as they were.
   */
  function Append(receiver: Statement, arg: Operand, unsafe: bool): (r: Result<Statement, SqlError>)
    requires |receiver.strings| >= 1
    requires arg.Tagged? && !unsafe ==> |arg.stmt.strings| >= 1
    ensures arg.Untagged? ==> (r.Ok? <==> IsFalsy(arg.v))
    ensures arg.Untagged? && r.Ok? ==> r.value == receiver
    ensures r.Err? ==> r.error == NotAStatement
    ensures arg.Tagged? ==> r.Ok?
    ensures arg.Tagged? && !unsafe ==>
      && r.value.strings == receiver.strings[..|receiver.strings| - 1]
                            + [receiver.strings[|receiver.strings| - 1] + arg.stmt.strings[0]]
                            + arg.stmt.strings[1..]
      && r.value.values == receiver.values + arg.stmt.values
    ensures arg.Tagged? && unsafe ==>
      && r.value.values == receiver.values
      && |r.value.strings| == |receiver.strings|
      && r.value.strings[..|receiver.strings| - 1] == receiver.strings[..|receiver.strings| - 1]
      && r.value.strings[|receiver.strings| - 1] == receiver.strings[|receiver.strings| - 1] + InlinedText(arg.stmt)
    ensures r.Ok? && WellFormed(receiver) && (arg.Tagged? && !unsafe ==> WellFormed(arg.stmt)) ==> WellFormed(r.value)
  {
    match arg
    case Untagged(v) =>
      if IsFalsy(v) then Ok(receiver) else Err(NotAStatement)
    case Tagged(other) =>
      if unsafe then
        var n := |receiver.strings|;
        Ok(Statement(receiver.strings[..n - 1] + [receiver.strings[n - 1] + InlinedText(other)], receiver.values))
      else
        ConcatWellFormed(receiver, other);
        Ok(Concat(receiver, other))
  }

  /** Safe appending is associative: `(a·b)·c` and `a·(b·c)` are the same statement. */
  lemma ConcatAssociative(a: Statement, b: Statement, c: Statement)
    requires |a.strings| >= 1 && |b.strings| >= 1 && |c.strings| >= 1
    ensures Concat(Concat(a, b), c) == Concat(a, Concat(b, c))
  {
    var x := a.strings;
    var y := b.strings;
    var z := c.strings;
    var left := MergeStrings(MergeStrings(x, y), z);
    var right := MergeStrings(x, MergeStrings(y, z));
    if |y| == 1 {
      assert left == x[..|x| - 1] + [x[|x| - 1] + y[0] + z[0]] + z[1..];
      assert MergeStrings(y, z) == [y[0] + z[0]] + z[1..];
      assert right == x[..|x| - 1] + [x[|x| - 1] + (y[0] + z[0])] + z[1..];
      assert x[|x| - 1] + y[0] + z[0] == x[|x| - 1] + (y[0] + z[0]);
    } else {
      assert left == x[..|x| - 1] + [x[|x| - 1] + y[0]] + y[1..|y| - 1] + [y[|y| - 1] + z[0]] + z[1..];
      assert right == x[..|x| - 1] + [x[|x| - 1] + y[0]] + y[1..|y| - 1] + [y[|y| - 1] + z[0]] + z[1..];
    }
    assert a.values + b.values + c.values == a.values + (b.values + c.values);
  }

  /** The empty template is a unit of safe appending on either side. */
  lemma ConcatUnit(a: Statement)
    requires |a.strings| >= 1
    ensures Concat(Lit(""), a) == a
    ensures Concat(a, Lit("")) == a
  {
    assert [] + a.values == a.values;
    assert a.values + [] == a.values;
    var n := |a.strings|;
    assert "" + a.strings[0] == a.strings[0];
    assert MergeStrings([""], a.strings) == [a.strings[0]] + a.strings[1..] == a.strings;
    assert a.strings[n - 1] + "" == a.strings[n - 1];
    assert MergeStrings(a.strings, [""]) == a.strings[..n - 1] + [a.strings[n - 1]] == a.strings;
  }

  /**
   * Appending keeps placeholder numbering contiguous: before normalisation, the joined text is the
   * receiver's followed by the appended statement's, numbered on from the receiver's last gap.
   */
  lemma RenderConcat(a: Statement, b: Statement, kind: Option<string>, offset: nat)
    requires |a.strings| >= 1 && |b.strings| >= 1
    ensures RawText(Concat(a, b).strings, kind, offset)
         == RawText(a.strings, kind, offset) + RawText(b.strings, kind, offset + |a.strings| - 1)
  {
    var n := |a.strings| - 1;
    var m := |b.strings| - 1;
    PlaceholdersSplit(kind, offset, n, m);
    InterleaveMerge(a.strings, Placeholders(kind, offset, n), b.strings, Placeholders(kind, offset + n, m));
  }

  /**
   * The text a safely joined statement renders as: the receiver's assembled text followed by the
   * other's, numbered on, normalised as a whole. Normalising the parts separately would differ,
   * since a run of whitespace at the seam is interior to the joined text.
   */
  lemma RenderedConcat(a: Statement, b: Statement, kind: Option<string>)
    requires |a.strings| >= 1 && |b.strings| >= 1
    ensures Rendered(Concat(a, b), kind)
         == Normalize(RawText(a.strings, kind, 0) + RawText(b.strings, kind, |a.strings| - 1))
  {
    RenderConcat(a, b, kind, 0);
  }

  /** Safely appended statements print in `debug` as the receiver's text followed by the other's. */
  lemma DebugConcat(a: Statement, b: Statement)
    requires Shaped(a) && |b.strings| >= 1
    ensures DebugRaw(Concat(a, b)) == DebugRaw(a) + DebugRaw(b)
  {
    var ab := Concat(a, b);
    assert DebugLiterals(ab) == DebugLiterals(a) + DebugLiterals(b) by {
      forall i | 0 <= i < |ab.strings| - 1
        ensures DebugLiterals(ab)[i] == (DebugLiterals(a) + DebugLiterals(b))[i]
      {
        if i >= |a.values| {
          assert ValueAt(ab.values, i) == ValueAt(b.values, i - |a.values|);
        }
      }
    }
    InterleaveMerge(a.strings, DebugLiterals(a), b.strings, DebugLiterals(b));
  }

  /** The values unsafe `append` prints, slot by slot. */
  function InlineTexts(values: seq<Value>, count: nat): seq<string> {
    seq(count, i requires 0 <= i < count => InlineText(ValueAt(values, i)))
  }

  lemma {:induction false} InlineReducePrefix(strings: seq<string>, values: seq<Value>, n: nat)
    requires 1 <= n <= |strings|
    ensures InlineReduce(strings, values, n)
         == Interleave(strings[..n], InlineTexts(values, n - 1)) + InlineText(ValueAt(values, n - 1))
    decreases n
  {
    if n == 1 {
      assert strings[..1] == [strings[0]];
    } else {
      InlineReducePrefix(strings, values, n - 1);
      assert strings[..n][..n - 1] == strings[..n - 1];
      assert InlineTexts(values, n - 1)[..n - 2] == InlineTexts(values, n - 2);
    }
  }

  /**
   * For a shaped statement, unsafe `append` prints the fragments with each value inlined in its
   * gap; the `reduce` also visits the slot past the last value, which prints as nothing.
   */
  lemma InlinedTextInterleaves(st: Statement)
    requires Shaped(st)
    ensures InlinedText(st) == Interleave(st.strings, InlineTexts(st.values, |st.values|))
  {
    InlineReducePrefix(st.strings, st.values, |st.strings|);
    assert st.strings[..|st.strings|] == st.strings;
  }

  /** Unsafe `append` is the safe join with a value-free template holding the inlined text. */
  lemma UnsafeAppendIsLiteralJoin(a: Statement, b: Statement)
    requires |a.strings| >= 1
    ensures Append(a, Tagged(b), true) == Ok(Concat(a, Lit(InlinedText(b))))
  {
    var n := |a.strings|;
    var t := InlinedText(b);
    assert a.values + [] == a.values;
    assert MergeStrings(a.strings, [t]) == a.strings[..n - 1] + [a.strings[n - 1] + t] + [t][1..];
    assert [t][1..] == [];
    assert Concat(a, Lit(t)).strings == a.strings[..n - 1] + [a.strings[n - 1] + t];
  }

  /** For a template without values, unsafe and safe `append` agree. */
  lemma UnsafeAppendOfValueFree(a: Statement, b: Statement)
    requires |a.strings| >= 1 && |b.strings| == 1 && |b.values| == 0
    ensures Append(a, Tagged(b), true) == Append(a, Tagged(b), false)
  {
    assert InlinedText(b) == b.strings[0];
    assert b == Lit(b.strings[0]);
    UnsafeAppendIsLiteralJoin(a, b);
  }
}
