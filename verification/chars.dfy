/** Counting and filtering characters in strings. */
module Chars {

  /** Number of occurrences of `c` in `s`. */
  function Count(c: char, s: string): nat
    decreases |s|
  {
    if |s| == 0 then 0 else (if s[0] == c then 1 else 0) + Count(c, s[1..])
  }

  lemma {:induction false} CountConcat(c: char, a: string, b: string)
    ensures Count(c, a + b) == Count(c, a) + Count(c, b)
    decreases |a|
  {
    if |a| > 0 {
      assert (a + b)[1..] == a[1..] + b;
      CountConcat(c, a[1..], b);
    } else {
      assert a + b == b;
    }
  }

  /** `s` with every occurrence of `c` removed, the other characters kept in order. */
  function Without(c: char, s: string): string
    decreases |s|
  {
    if |s| == 0 then [] else (if s[0] == c then [] else [s[0]]) + Without(c, s[1..])
  }

  lemma {:induction false} WithoutConcat(c: char, a: string, b: string)
    ensures Without(c, a + b) == Without(c, a) + Without(c, b)
    decreases |a|
  {
    if |a| > 0 {
      assert (a + b)[1..] == a[1..] + b;
      WithoutConcat(c, a[1..], b);
    } else {
      assert a + b == b;
    }
  }
}
