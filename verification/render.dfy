/**
 * Rendering a statement: `generateString` with its `text` (PostgreSQL) and `sql` (MySQL) getters,
 * and the `debug` getter that inlines the values.
 */
module Render {
  import opened Wrappers
  import opened JsValue
  import opened Chars
  import opened Whitespace
  import opened SqlStatement

  /** `type === 'pg'`: only this dialect numbers its placeholders. */
  predicate IsPg(kind: Option<string>) {
    kind == Some("pg")
  }

  /** The placeholder for the `n`-th bound value, counting from 1: `$n` for `pg`, `?` otherwise. */
  function Placeholder(kind: Option<string>, n: nat): string {
    if IsPg(kind) then "$" + NatToString(n) else "?"
  }

  /** The placeholders for `count` values bound after the first `offset`. */
  function Placeholders(kind: Option<string>, offset: nat, count: nat): (r: seq<string>)
    ensures |r| == count
    ensures forall i :: 0 <= i < count ==> r[i] == Placeholder(kind, offset + i + 1)
  {
    seq(count, i requires 0 <= i < count => Placeholder(kind, offset + i + 1))
  }

  /** The assembled text before normalisation, numbering values from `offset + 1`. */
  function RawText(strings: seq<string>, kind: Option<string>, offset: nat): string
    requires |strings| >= 1
  {
    Interleave(strings, Placeholders(kind, offset, |strings| - 1))
  }

  /** The string `generateString(type)` returns. */
  function Rendered(st: Statement, kind: Option<string>): string
    requires |st.strings| >= 1
  {
    Normalize(RawText(st.strings, kind, 0))
  }

  /** `$1`, `$2`, ... `$n`. */
  function DollarNumbers(n: nat): seq<string> {
    seq(n, i requires 0 <= i < n => "$" + NatToString(i + 1))
  }

  /** `n` question marks. */
  function QuestionMarks(n: nat): seq<string> {
    seq(n, _ => "?")
  }

  /** The `text` getter: `generateString('pg')`, the `i`-th gap holding `$i`. */
  function Text(st: Statement): (r: string)
    requires |st.strings| >= 1
    ensures r == Normalize(Interleave(st.strings, DollarNumbers(|st.strings| - 1)))
  {
    var n := |st.strings| - 1;
    var P := Placeholders(Some("pg"), 0, n);
    forall i | 0 <= i < n
      ensures P[i] == DollarNumbers(n)[i]
    {
      assert P[i] == Placeholder(Some("pg"), i + 1);
    }
    assert P == DollarNumbers(n);
    Rendered(st, Some("pg"))
  }

  /** The `sql` getter: `generateString('mysql')`, every gap holding `?`. */
  function SqlText(st: Statement): (r: string)
    requires |st.strings| >= 1
    ensures r == Normalize(Interleave(st.strings, QuestionMarks(|st.strings| - 1)))
  {
    var n := |st.strings| - 1;
    assert Placeholders(Some("mysql"), 0, n) == QuestionMarks(n);
    Rendered(st, Some("mysql"))
  }

  /**
   * `generateString(type)`: the fragments with a placeholder between each two of them, `$1`, `$2`, ...
   * from left to right for `pg` and `?` for any other type, then normalised. Values are never read.
   */
  method GenerateString(st: Statement, kind: Option<string>) returns (text: string)
    requires |st.strings| >= 1
    ensures text == Normalize(Interleave(st.strings, Placeholders(kind, 0, |st.strings| - 1)))
  {
    var raw := st.strings[0];
    var i := 1;
    while i < |st.strings|
      invariant 1 <= i <= |st.strings|
      invariant raw == Interleave(st.strings[..i], Placeholders(kind, 0, i - 1))
    {
      var delimiter := "?";
      if kind == Some("pg") {
        delimiter := "$" + NatToString(i);
      }
      assert st.strings[..i + 1][..i] == st.strings[..i];
      assert Placeholders(kind, 0, i)[..i - 1] == Placeholders(kind, 0, i - 1);
      raw := raw + delimiter + st.strings[i];
      i := i + 1;
    }
    assert st.strings[..i] == st.strings;
    text := Normalize(raw);
  }

  /** The placeholder text depends on the fragments only, never on the values. */
  lemma RenderedIgnoresValues(a: Statement, b: Statement, kind: Option<string>)
    requires |a.strings| >= 1 && a.strings == b.strings
    ensures Rendered(a, kind) == Rendered(b, kind)
  {
  }

  /**
   * The `pg` placeholders are `$` followed by the decimal value position: contiguous from
   * `offset + 1`, left to right, hence pairwise distinct.
   */
  lemma PgPlaceholdersNumbered(offset: nat, count: nat)
    ensures forall i :: 0 <= i < count ==>
      var p := Placeholders(Some("pg"), offset, count)[i];
      |p| >= 2 && p[0] == '$' && AllDigits(p[1..]) && ParseNat(p[1..]) == offset + i + 1
    ensures forall i, j :: 0 <= i < j < count ==>
      Placeholders(Some("pg"), offset, count)[i] != Placeholders(Some("pg"), offset, count)[j]
  {
    var P := Placeholders(Some("pg"), offset, count);
    forall i | 0 <= i < count
      ensures |P[i]| >= 2 && P[i][0] == '$' && AllDigits(P[i][1..]) && ParseNat(P[i][1..]) == offset + i + 1
    {
      PgPlaceholderDigits(offset + i + 1);
      NatToStringDigits(offset + i + 1);
      ParseNatToString(offset + i + 1);
    }
    forall i, j | 0 <= i < j < count
      ensures P[i] != P[j]
    {
      PgPlaceholderDigits(offset + i + 1);
      PgPlaceholderDigits(offset + j + 1);
      NatToStringInjective(offset + i + 1, offset + j + 1);
    }
  }

  lemma PgPlaceholderDigits(n: nat)
    ensures Placeholder(Some("pg"), n)[0] == '$'
    ensures Placeholder(Some("pg"), n)[1..] == NatToString(n)
  {
    var p := "$" + NatToString(n);
    assert p[1..] == NatToString(n);
  }

  /** Every type other than `pg` (an absent one included) uses `?` for every value. */
  lemma OtherPlaceholdersAreQuestionMarks(kind: Option<string>, offset: nat, count: nat)
    requires !IsPg(kind)
    ensures forall i :: 0 <= i < count ==> Placeholders(kind, offset, count)[i] == "?"
  {
  }

  /** Placeholders for consecutive runs of values continue each other's numbering. */
  lemma PlaceholdersSplit(kind: Option<string>, offset: nat, n: nat, m: nat)
    ensures Placeholders(kind, offset, n + m) == Placeholders(kind, offset, n) + Placeholders(kind, offset + n, m)
  {
  }

  /** The marker character of a dialect's placeholder. */
  function Marker(kind: Option<string>): char {
    if IsPg(kind) then '$' else '?'
  }

  /** Total occurrences of `c` over a list of texts. */
  function SumCount(c: char, texts: seq<string>): nat
    decreases |texts|
  {
    if |texts| == 0 then 0 else SumCount(c, texts[..|texts| - 1]) + Count(c, texts[|texts| - 1])
  }

  lemma {:induction false} InterleaveCount(c: char, strs: seq<string>, gaps: seq<string>)
    requires |strs| == |gaps| + 1
    ensures Count(c, Interleave(strs, gaps)) == SumCount(c, strs) + SumCount(c, gaps)
    decreases |gaps|
  {
    var n := |gaps|;
    if n == 0 {
      assert strs[..0] == [];
    } else {
      InterleaveCount(c, strs[..n], gaps[..n - 1]);
      var left := Interleave(strs[..n], gaps[..n - 1]);
      CountConcat(c, left + gaps[n - 1], strs[n]);
      CountConcat(c, left, gaps[n - 1]);
      assert strs[..n + 1][..n] == strs[..n];
      assert strs[..n + 1] == strs;
    }
  }

  lemma {:induction false} DigitsHaveNoMarker(c: char, s: string)
    requires AllDigits(s) && !IsDigit(c)
    ensures Count(c, s) == 0
    decreases |s|
  {
    if |s| > 0 {
      DigitsHaveNoMarker(c, s[1..]);
    }
  }

  /** Each placeholder holds its dialect's marker exactly once. */
  lemma {:induction false} PlaceholdersMarkerCount(kind: Option<string>, offset: nat, count: nat)
    ensures SumCount(Marker(kind), Placeholders(kind, offset, count)) == count
    decreases count
  {
    if count > 0 {
      var P := Placeholders(kind, offset, count);
      assert P[..count - 1] == Placeholders(kind, offset, count - 1);
      PlaceholdersMarkerCount(kind, offset, count - 1);
      PlaceholderMarkerCount(kind, offset + count);
      assert P[count - 1] == Placeholder(kind, offset + count);
    }
  }

  /** A single placeholder holds its dialect's marker once: the `$` before the digits, or the `?`. */
  lemma PlaceholderMarkerCount(kind: Option<string>, n: nat)
    ensures Count(Marker(kind), Placeholder(kind, n)) == 1
  {
    if IsPg(kind) {
      var digits := NatToString(n);
      NatToStringDigits(n);
      CountConcat('$', ['$'], digits);
      DigitsHaveNoMarker('$', digits);
    } else {
      assert "?"[1..] == [];
      assert Count('?', "?") == 1 + Count('?', []);
    }
  }

  lemma {:induction false} SumCountZero(c: char, texts: seq<string>)
    requires forall i :: 0 <= i < |texts| ==> Count(c, texts[i]) == 0
    ensures SumCount(c, texts) == 0
    decreases |texts|
  {
    if |texts| > 0 {
      SumCountZero(c, texts[..|texts| - 1]);
    }
  }

  /**
   * When no fragment contains the dialect's marker, the rendered text holds exactly one marker
   * per gap between fragments: one placeholder per value slot.
   */
  lemma PlaceholderCount(st: Statement, kind: Option<string>)
    requires |st.strings| >= 1
    requires forall i :: 0 <= i < |st.strings| ==> Count(Marker(kind), st.strings[i]) == 0
    ensures Count(Marker(kind), Rendered(st, kind)) == |st.strings| - 1
  {
    RawPlaceholderCount(st.strings, kind, 0);
    NormalizeKeepsCount(Marker(kind), RawText(st.strings, kind, 0));
  }

  /** Before normalisation: one marker per gap, whatever the numbering offset. */
  lemma RawPlaceholderCount(strings: seq<string>, kind: Option<string>, offset: nat)
    requires |strings| >= 1
    requires forall i :: 0 <= i < |strings| ==> Count(Marker(kind), strings[i]) == 0
    ensures Count(Marker(kind), RawText(strings, kind, offset)) == |strings| - 1
  {
    var c := Marker(kind);
    InterleaveCount(c, strings, Placeholders(kind, offset, |strings| - 1));
    SumCountZero(c, strings);
    PlaceholdersMarkerCount(kind, offset, |strings| - 1);
  }

  /** `text` holds one `$` and `sql` one `?` per value of a statement whose fragments hold neither. */
  lemma GetterPlaceholderCounts(st: Statement)
    requires Shaped(st)
    requires forall i :: 0 <= i < |st.strings| ==> Count('$', st.strings[i]) == 0 && Count('?', st.strings[i]) == 0
    ensures Count('$', Text(st)) == |st.values|
    ensures Count('?', SqlText(st)) == |st.values|
  {
    PlaceholderCount(st, Some("pg"));
    PlaceholderCount(st, Some("mysql"));
  }

  /** How `debug` prints a value: strings in single quotes, anything else as `String(v)` does. */
  function DebugLiteral(v: Value): string {
    match v
    case Str(s) => "'" + s + "'"
    case _ => ToJsString(v)
  }

  /** The printed values that `debug` puts between the fragments. */
  function DebugLiterals(st: Statement): seq<string>
    requires |st.strings| >= 1
  {
    seq(|st.strings| - 1, i requires 0 <= i < |st.strings| - 1 => DebugLiteral(ValueAt(st.values, i)))
  }

  /** The `debug` text before normalisation. */
  function DebugRaw(st: Statement): string
    requires |st.strings| >= 1
  {
    Interleave(st.strings, DebugLiterals(st))
  }

  /**
   * The `debug` getter: the fragments with the printed values between them, the `i`-th gap
   * holding `values[i]`, then normalised.
   */
  method Debug(st: Statement) returns (text: string)
    requires |st.strings| >= 1
    ensures text == Normalize(Interleave(st.strings, DebugLiterals(st)))
  {
    var raw := st.strings[0];
    var i := 1;
    while i < |st.strings|
      invariant 1 <= i <= |st.strings|
      invariant raw == Interleave(st.strings[..i], DebugLiterals(st)[..i - 1])
    {
      var data := ValueAt(st.values, i - 1);
      if data.Str? {
        raw := raw + "'" + data.s + "'";
      } else {
        raw := raw + ToJsString(data);
      }
      assert st.strings[..i + 1][..i] == st.strings[..i];
      assert DebugLiterals(st)[..i][..i - 1] == DebugLiterals(st)[..i - 1];
      raw := raw + st.strings[i];
      i := i + 1;
    }
    assert st.strings[..i] == st.strings;
    assert DebugLiterals(st)[..i - 1] == DebugLiterals(st);
    text := Normalize(raw);
  }

  /**
   * A statement without values renders as its normalised single fragment, in every dialect and in
   * `debug` alike.
   */
  lemma NoValuesRenderAsWritten(st: Statement, kind: Option<string>)
    requires |st.strings| == 1
    ensures Rendered(st, kind) == Normalize(st.strings[0])
    ensures Normalize(DebugRaw(st)) == Normalize(st.strings[0])
  {
  }
}
