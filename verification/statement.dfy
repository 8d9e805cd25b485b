/**
 * The statement a `SQL` tagged template builds: its literal fragments (`strings`) and the values
 * interpolated between them (`values`).
 */
module SqlStatement {
  import opened Wrappers
  import opened JsValue

  datatype Statement = Statement(strings: seq<string>, values: seq<Value>)

  /** The shape of every tagged template: one fragment more than there are values. */
  predicate Shaped(st: Statement) {
    |st.strings| == |st.values| + 1
  }

  predicate AllDefined(values: seq<Value>) {
    forall i :: 0 <= i < |values| ==> values[i] != Undefined
  }

  /** A statement the library can produce: shaped, and holding no `undefined`. */
  predicate WellFormed(st: Statement) {
    Shaped(st) && AllDefined(st.values)
  }

  /** The errors the library throws. */
  datatype SqlError = UndefinedValue | NotAStatement

  function Message(e: SqlError): string {
    match e
    case UndefinedValue =>
      "SQL`...` strings cannot take `undefined` as values as this can generate invalid sql."
    case NotAStatement =>
      "\"append\" accepts only template string prefixed with SQL (SQL`...`)"
  }

  /** `new SqlStatement(strings, values)`: refuses any `undefined` value and keeps everything else, `null` included. */
  function New(strings: seq<string>, values: seq<Value>): (r: Result<Statement, SqlError>)
    ensures r.Err? <==> exists i :: 0 <= i < |values| && values[i] == Undefined
    ensures r.Err? ==> r.error == UndefinedValue
    ensures r.Ok? ==> r.value.strings == strings && r.value.values == values
  {
    if AllDefined(values) then Ok(Statement(strings, values)) else Err(UndefinedValue)
  }

  /** The `SQL` tag: a template literal hands over one fragment more than it has values. */
  function Sql(strings: seq<string>, values: seq<Value>): (r: Result<Statement, SqlError>)
    requires |strings| == |values| + 1
    ensures r.Ok? ==> WellFormed(r.value)
    ensures r.Ok? <==> AllDefined(values)
  {
    New(strings, values)
  }

  /** `null` is a legitimate value: it is accepted and kept at its position. */
  lemma NullIsKept(strings: seq<string>, values: seq<Value>, i: nat)
    requires |strings| == |values| + 1
    requires i < |values| && values[i] == Null
    requires forall j :: 0 <= j < |values| && j != i ==> values[j] != Undefined
    ensures Sql(strings, values).Ok?
    ensures Sql(strings, values).value.values[i] == Null
  {
  }

  /** A template without interpolations. */
  function Lit(text: string): Statement {
    Statement([text], [])
  }

  /** The value read at slot `i`; reading past the end yields `undefined`, as in JavaScript. */
  function ValueAt(values: seq<Value>, i: nat): Value {
    if i < |values| then values[i] else Undefined
  }

  /**
   * `strs[0] + gaps[0] + strs[1] + ... + gaps[n-1] + strs[n]`: the fragments with one text put in
   * each gap, built left to right as the rendering loops do.
   */
  function Interleave(strs: seq<string>, gaps: seq<string>): string
    requires |strs| == |gaps| + 1
    decreases |gaps|
  {
    if |gaps| == 0 then strs[0]
    else Interleave(strs[..|gaps|], gaps[..|gaps| - 1]) + gaps[|gaps| - 1] + strs[|gaps|]
  }

  /**
   * The fragments of `a` followed by those of `b`, the last of `a` and the first of `b` joined
   * into one, since no value separates them.
   */
  function MergeStrings(a: seq<string>, b: seq<string>): (r: seq<string>)
    requires |a| >= 1 && |b| >= 1
    ensures |r| == |a| + |b| - 1
  {
    a[..|a| - 1] + [a[|a| - 1] + b[0]] + b[1..]
  }

  /** Extending the last fragment extends the interleaved text at its end. */
  lemma InterleaveExtendLast(strs: seq<string>, gaps: seq<string>, x: string)
    requires |strs| == |gaps| + 1
    ensures Interleave(strs[..|gaps|] + [strs[|gaps|] + x], gaps) == Interleave(strs, gaps) + x
  {
    var n := |gaps|;
    var s' := strs[..n] + [strs[n] + x];
    if n > 0 {
      assert s'[..n] == strs[..n];
    }
  }

  /** Interleaving merged fragments is interleaving each side and concatenating the two texts. */
  lemma {:induction false} InterleaveMerge(a: seq<string>, ga: seq<string>, b: seq<string>, gb: seq<string>)
    requires |a| == |ga| + 1 && |b| == |gb| + 1
    ensures Interleave(MergeStrings(a, b), ga + gb) == Interleave(a, ga) + Interleave(b, gb)
    decreases |gb|
  {
    if |gb| == 0 {
      assert MergeStrings(a, b) == a[..|ga|] + [a[|ga|] + b[0]];
      assert ga + gb == ga;
      InterleaveExtendLast(a, ga, b[0]);
    } else {
      var m := |gb|;
      InterleaveMerge(a, ga, b[..m], gb[..m - 1]);
      var M := MergeStrings(a, b);
      var G := ga + gb;
      assert M[..|G|] == MergeStrings(a, b[..m]);
      assert G[..|G| - 1] == ga + gb[..m - 1];
      assert G[|G| - 1] == gb[m - 1];
      assert M[|G|] == b[m];
    }
  }
}
