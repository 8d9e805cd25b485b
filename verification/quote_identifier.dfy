/**
 * `quoteIdentifier(value, type)`: a delimited identifier. The name is wrapped in the dialect's
 * quote character and every quote character inside it is doubled (the delimited-identifier rule of
 * ISO/IEC 9075-2 section 5.2; MySQL uses the backtick the same way).
 */
module QuoteIdentifier {
  import opened Wrappers
  import opened Chars

  /** A backtick exactly for `type === 'mysql'`; a double quote otherwise, an absent type included. */
  function QuoteChar(kind: Option<string>): (q: char)
    ensures q == '`' <==> kind == Some("mysql")
    ensures q != '`' ==> q == '"'
  {
    if kind == Some("mysql") then '`' else '"'
  }

  /** `value` with every `q` doubled: one character longer per quote, unchanged without quotes. */
  function Escape(value: string, q: char): (r: string)
    ensures |r| == |value| + Count(q, value)
    ensures Count(q, value) == 0 ==> r == value
    decreases |value|
  {
    if |value| == 0 then []
    else (if value[0] == q then [q, q] else [value[0]]) + Escape(value[1..], q)
  }

  /**
   * Escaping doubles the quote characters and keeps every other character in place and in order:
   * deleting the quotes from both sides gives the same text.
   */
  lemma {:induction false} EscapeCounts(value: string, q: char)
    ensures |Escape(value, q)| == |value| + Count(q, value)
    ensures Count(q, Escape(value, q)) == 2 * Count(q, value)
    ensures Without(q, Escape(value, q)) == Without(q, value)
    decreases |value|
  {
    if |value| > 0 {
      var head := if value[0] == q then [q, q] else [value[0]];
      var rest := Escape(value[1..], q);
      EscapeCounts(value[1..], q);
      CountConcat(q, head, rest);
      WithoutConcat(q, head, rest);
      assert [q, q][1..] == [q];
      assert [q][1..] == [];
    }
  }

  /** `value` delimited by `q`. */
  function Delimit(value: string, q: char): string {
    [q] + Escape(value, q) + [q]
  }

  /**
   * The quoted identifier: it opens and closes with the dialect's quote character and is the name's
   * length plus one per embedded quote plus the two delimiters long.
   */
  function QuoteIdent(value: string, kind: Option<string>): (r: string)
    ensures |r| == |value| + Count(QuoteChar(kind), value) + 2
    ensures r[0] == QuoteChar(kind) && r[|r| - 1] == QuoteChar(kind)
  {
    var q := QuoteChar(kind);
    EscapeCounts(value, q);
    Delimit(value, q)
  }

  /**
   * How SQL reads the body of a delimited identifier, after its opening quote: a doubled quote
   * stands for one quote character and a single quote ends the identifier. Yields the name and the
   * text after the closing quote, or nothing when the identifier is never closed.
   */
  function ScanBody(s: string, q: char): Option<(string, string)>
    decreases |s|
  {
    if |s| == 0 then None
    else if s[0] != q then
      match ScanBody(s[1..], q)
      case None => None
      case Some(r) => Some(([s[0]] + r.0, r.1))
    else if |s| >= 2 && s[1] == q then
      match ScanBody(s[2..], q)
      case None => None
      case Some(r) => Some(([q] + r.0, r.1))
    else Some(([], s[1..]))
  }

  /** Reads one delimited identifier at the start of `s`. */
  function ReadDelimited(s: string, q: char): Option<(string, string)> {
    if |s| >= 1 && s[0] == q then ScanBody(s[1..], q) else None
  }

  /** Recovers the name from a delimited identifier that is the whole of `s`. */
  function Unquote(s: string, q: char): Option<string> {
    match ReadDelimited(s, q)
    case Some(r) => if r.1 == [] then Some(r.0) else None
    case None => None
  }

  /**
   * Inside the delimiters quote characters come only in pairs, so the reader stops at the closing
   * delimiter and at nothing before it, whatever the name holds.
   */
  lemma {:induction false} ScanEscaped(value: string, q: char, tail: string)
    requires tail == [] || tail[0] != q
    ensures ScanBody(Escape(value, q) + [q] + tail, q) == Some((value, tail))
    decreases |value|
  {
    if |value| == 0 {
      var s := Escape(value, q) + [q] + tail;
      assert s == [q] + tail;
      assert s[1..] == tail;
    } else {
      ScanEscaped(value[1..], q, tail);
      ScanEscapedStep(value, q, tail);
    }
  }

  /** One character further: the reader takes a doubled quote or another character as one. */
  lemma {:induction false} ScanEscapedStep(value: string, q: char, tail: string)
    requires |value| >= 1
    requires ScanBody(Escape(value[1..], q) + [q] + tail, q) == Some((value[1..], tail))
    ensures ScanBody(Escape(value, q) + [q] + tail, q) == Some((value, tail))
  {
    var s := Escape(value, q) + [q] + tail;
    var rest := Escape(value[1..], q) + [q] + tail;
    if value[0] == q {
      assert Escape(value, q) == [q, q] + Escape(value[1..], q);
      assert s == [q, q] + rest;
      assert s[0] == q && s[1] == q && s[2..] == rest;
      assert [q] + value[1..] == value;
    } else {
      assert Escape(value, q) == [value[0]] + Escape(value[1..], q);
      assert s == [value[0]] + rest;
      assert s[0] != q && s[1..] == rest;
      assert [value[0]] + value[1..] == value;
    }
  }

  /** Whatever the reader accepts is an escaped name followed by its closing delimiter. */
  lemma {:induction false} ScanSound(s: string, q: char)
    requires ScanBody(s, q).Some?
    ensures var r := ScanBody(s, q).value; s == Escape(r.0, q) + [q] + r.1
    ensures var r := ScanBody(s, q).value; r.1 == [] || r.1[0] != q
    decreases |s|
  {
    if s[0] != q {
      ScanSound(s[1..], q);
      var r := ScanBody(s[1..], q).value;
      ScanSoundOther(s, q, r.0, r.1);
    } else if |s| >= 2 && s[1] == q {
      ScanSound(s[2..], q);
      var r := ScanBody(s[2..], q).value;
      ScanSoundQuote(s, q, r.0, r.1);
    } else {
      assert Escape([], q) == [];
    }
  }

  /** Escaping a name one character longer at the front. */
  lemma EscapeCons(c: char, v: string, q: char)
    ensures Escape([c] + v, q) == (if c == q then [q, q] else [c]) + Escape(v, q)
  {
    var name := [c] + v;
    assert name[0] == c && name[1..] == v;
  }

  /** One step back over a character other than the quote. */
  lemma ScanSoundOther(s: string, q: char, name: string, rest: string)
    requires |s| >= 1 && s[0] != q
    requires ScanBody(s[1..], q) == Some((name, rest))
    requires s[1..] == Escape(name, q) + [q] + rest
    ensures ScanBody(s, q) == Some(([s[0]] + name, rest))
    ensures s == Escape([s[0]] + name, q) + [q] + rest
  {
    EscapeCons(s[0], name, q);
    assert s == [s[0]] + s[1..];
  }

  /** One step back over a doubled quote. */
  lemma ScanSoundQuote(s: string, q: char, name: string, rest: string)
    requires |s| >= 2 && s[0] == q && s[1] == q
    requires ScanBody(s[2..], q) == Some((name, rest))
    requires s[2..] == Escape(name, q) + [q] + rest
    ensures ScanBody(s, q) == Some(([q] + name, rest))
    ensures s == Escape([q] + name, q) + [q] + rest
  {
    EscapeCons(q, name, q);
    assert s == [q, q] + s[2..];
  }

  /** Round trip: unquoting a quoted identifier gives the name back. */
  lemma UnquoteQuoteIdent(value: string, kind: Option<string>)
    ensures Unquote(QuoteIdent(value, kind), QuoteChar(kind)) == Some(value)
  {
    var q := QuoteChar(kind);
    var s := QuoteIdent(value, kind);
    assert s[1..] == Escape(value, q) + [q] + [];
    ScanEscaped(value, q, []);
  }

  /** Only the quoted form of a name unquotes to it: quoting is the one encoding of each name. */
  lemma UnquoteOnlyQuoted(s: string, q: char, value: string)
    requires Unquote(s, q) == Some(value)
    ensures s == Delimit(value, q)
  {
    ScanSound(s[1..], q);
    assert s == [q] + s[1..];
  }

  /**
   * Injection safety: a quoted identifier followed by any text that does not itself begin with the
   * quote character is read as exactly that identifier, and the following text is left over intact.
   */
  lemma QuotedIdentIsOneToken(value: string, kind: Option<string>, tail: string)
    requires tail == [] || tail[0] != QuoteChar(kind)
    ensures ReadDelimited(QuoteIdent(value, kind) + tail, QuoteChar(kind)) == Some((value, tail))
  {
    var q := QuoteChar(kind);
    var s := QuoteIdent(value, kind) + tail;
    assert s[1..] == Escape(value, q) + [q] + tail;
    ScanEscaped(value, q, tail);
  }

  /** The other dialect's quote character passes through unchanged. */
  lemma OtherQuoteUnchanged(value: string, kind: Option<string>, c: char)
    requires c != QuoteChar(kind)
    ensures Count(c, QuoteIdent(value, kind)) == Count(c, value)
  {
    var q := QuoteChar(kind);
    EscapeOtherCount(value, q, c);
    CountConcat(c, [q], Escape(value, q));
    CountConcat(c, [q] + Escape(value, q), [q]);
  }

  lemma {:induction false} EscapeOtherCount(value: string, q: char, c: char)
    requires c != q
    ensures Count(c, Escape(value, q)) == Count(c, value)
    decreases |value|
  {
    if |value| > 0 {
      EscapeOtherCount(value[1..], q, c);
      var head := if value[0] == q then [q, q] else [value[0]];
      CountConcat(c, head, Escape(value[1..], q));
      if value[0] == q {
        assert [q, q][1..] == [q];
        assert [q][1..] == [];
      }
    }
  }
}
