/** The string-matching exploits: a text made of one character repeated, and a pattern made of
    the same character repeated half as often, so that every alignment matches as far as it can. */
module StringMatch {
  import opened Outcomes
  import opened PyBuiltins
  import opened Generators

  /** `(c * n, c * int(n / 2))`. */
  function TextAndPattern(c: char, n: int): (r: (string, string))
    ensures |r.0| == Count(n) && |r.1| == Count(TruncHalf(n))
    ensures forall i :: 0 <= i < |r.0| ==> r.0[i] == c
    ensures forall i :: 0 <= i < |r.1| ==> r.1[i] == c
    ensures r.1 <= r.0
  {
    (Repeat(c, n), Repeat(c, TruncHalf(n)))
  }

  /** The text and pattern are exactly the one-character strings of those lengths:
      any two strings of that shape are the result. */
  lemma TextAndPatternUnique(c: char, n: int, text: string, pattern: string)
    requires |text| == Count(n) && |pattern| == Count(TruncHalf(n))
    requires forall i :: 0 <= i < |text| ==> text[i] == c
    requires forall i :: 0 <= i < |pattern| ==> pattern[i] == c
    ensures TextAndPattern(c, n) == (text, pattern)
  {
    var r := TextAndPattern(c, n);
    assert r.0 == text by {
      forall i | 0 <= i < |text| ensures r.0[i] == text[i] { }
    }
    assert r.1 == pattern by {
      forall i | 0 <= i < |pattern| ensures r.1[i] == pattern[i] { }
    }
  }

  /** The shared body of lines 205-217: the first character of one random value.
      A random value of "" is indexed out of range. */
  method RepeatedBlock(g: Generator<string>, n: int) returns (r: Result<(string, string)>)
    modifies g
    ensures g.queries == old(g.queries) + 1
    ensures g.draw(old(g.queries)) == "" ==> r == Err(IndexError)
    ensures g.draw(old(g.queries)) != "" ==> r == Ok(TextAndPattern(g.draw(old(g.queries))[0], n))
  {
    var v := g.GetRandom();
    if |v| == 0 {
      return Err(IndexError);
    }
    var base := v[0];
    r := Ok((Repeat(base, n), Repeat(base, TruncHalf(n))));
  }

  method RabinKarp(g: Generator<string>, n: int) returns (r: Result<(string, string)>)
    modifies g
    ensures g.queries == old(g.queries) + 1
    ensures g.draw(old(g.queries)) == "" ==> r == Err(IndexError)
    ensures g.draw(old(g.queries)) != "" ==> r == Ok(TextAndPattern(g.draw(old(g.queries))[0], n))
  {
    r := RepeatedBlock(g, n);
  }

  method BoyerMoore(g: Generator<string>, n: int) returns (r: Result<(string, string)>)
    modifies g
    ensures g.queries == old(g.queries) + 1
    ensures g.draw(old(g.queries)) == "" ==> r == Err(IndexError)
    ensures g.draw(old(g.queries)) != "" ==> r == Ok(TextAndPattern(g.draw(old(g.queries))[0], n))
  {
    r := RepeatedBlock(g, n);
  }
}
