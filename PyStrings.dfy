/** The parts of Python's string semantics the shell relies on: whitespace splitting,
    `find` with a start index, slice bounds, and the code-point order `sorted` uses. */
module PyStrings {
  import opened Outcomes

  /** `str.isspace()` for one character, which is also what `str.split()` splits on. */
  predicate IsSpace(c: char) {
    || ('\U{9}' <= c <= '\U{d}')
    || ('\U{1c}' <= c <= '\U{20}')
    || c == '\U{85}' || c == '\U{a0}' || c == '\U{1680}'
    || ('\U{2000}' <= c <= '\U{200a}')
    || c == '\U{2028}' || c == '\U{2029}' || c == '\U{202f}' || c == '\U{205f}' || c == '\U{3000}'
  }

  /** The first index at or after `i` that does not hold whitespace. */
  function SpaceEnd(s: string, i: nat): (e: nat)
    requires i <= |s|
    ensures i <= e <= |s| && (e < |s| ==> !IsSpace(s[e]))
    ensures forall j :: i <= j < e ==> IsSpace(s[j])
    decreases |s| - i
  {
    if i == |s| || !IsSpace(s[i]) then i else SpaceEnd(s, i + 1)
  }

  /** The first index at or after `i` that holds whitespace. */
  function WordEnd(s: string, i: nat): (e: nat)
    requires i <= |s|
    ensures i <= e <= |s| && (e < |s| ==> IsSpace(s[e]))
    ensures forall j :: i <= j < e ==> !IsSpace(s[j])
    decreases |s| - i
  {
    if i == |s| || IsSpace(s[i]) then i else WordEnd(s, i + 1)
  }

  /** `line.split(maxsplit=1)[1]` when the split has two parts, and "" otherwise: what follows
      the first word and the whitespace after it, trailing whitespace kept. */
  function Remainder(line: string): string {
    var i0 := SpaceEnd(line, 0);
    var i1 := WordEnd(line, i0);
    line[SpaceEnd(line, i1)..]
  }

  predicate AllSpace(s: string) {
    forall i :: 0 <= i < |s| ==> IsSpace(s[i])
  }

  predicate NoSpace(s: string) {
    forall i :: 0 <= i < |s| ==> !IsSpace(s[i])
  }

  /** A line made of whitespace, a word, whitespace and a rest that does not start with
      whitespace has that rest as its remainder; a line of whitespace only has none. */
  lemma RemainderOf(pre: string, word: string, gap: string, rest: string)
    requires AllSpace(pre) && AllSpace(gap) && NoSpace(word) && word != []
    requires rest == [] || (gap != [] && !IsSpace(rest[0]))
    ensures Remainder(pre + word + gap + rest) == rest
    ensures Remainder(pre) == ""
  {
    var line := pre + word + gap + rest;
    SpaceEndSkips(line, 0, |pre|);
    assert line[|pre|] == word[0];
    WordEndSkips(line, |pre|, |pre| + |word|);
    if gap != [] {
      assert line[|pre| + |word|] == gap[0];
    }
    SpaceEndSkips(line, |pre| + |word|, |pre| + |word| + |gap|);
    assert line[|pre| + |word| + |gap|..] == rest;
    SpaceEndSkips(pre, 0, |pre|);
  }

  lemma {:induction false} SpaceEndSkips(s: string, i: nat, e: nat)
    requires i <= e <= |s|
    requires forall j :: i <= j < e ==> IsSpace(s[j])
    requires e < |s| ==> !IsSpace(s[e])
    ensures SpaceEnd(s, i) == e
    decreases e - i
  {
    if i < e {
      SpaceEndSkips(s, i + 1, e);
    }
  }

  lemma {:induction false} WordEndSkips(s: string, i: nat, e: nat)
    requires i <= e <= |s|
    requires forall j :: i <= j < e ==> !IsSpace(s[j])
    requires e < |s| ==> IsSpace(s[e])
    ensures WordEnd(s, i) == e
    decreases e - i
  {
    if i < e {
      WordEndSkips(s, i + 1, e);
    }
  }

  /** `s.split()[0]`, an IndexError (None) when `s` holds only whitespace. */
  function FirstWord(s: string): (w: Option<string>)
    ensures w.None? <==> AllSpace(s)
    ensures w.Some? ==> w.value != [] && NoSpace(w.value)
  {
    var i0 := SpaceEnd(s, 0);
    if i0 == |s| then None else Some(s[i0..WordEnd(s, i0)])
  }

  /** Whitespace, a word and a rest that starts with whitespace (or is empty): the first
      word is that word. */
  lemma FirstWordOf(pre: string, word: string, rest: string)
    requires AllSpace(pre) && NoSpace(word) && word != []
    requires rest == [] || IsSpace(rest[0])
    ensures FirstWord(pre + word + rest) == Some(word)
  {
    var s := pre + word + rest;
    SpaceEndSkips(s, 0, |pre|);
    assert s[|pre|] == word[0];
    if rest != [] {
      assert s[|pre| + |word|] == rest[0];
    }
    WordEndSkips(s, |pre|, |pre| + |word|);
    assert s[|pre|..|pre| + |word|] == word;
  }

  /** How Python reads an index into a string of length `len` used as a slice bound or a
      search start: a negative one counts from the end, and both are clamped to [0, len]. */
  function Clamp(i: int, len: nat): (j: nat)
    ensures j <= len
    ensures 0 <= i <= len ==> j == i
    ensures i > len ==> j == len
    ensures i < 0 && i + len >= 0 ==> j == i + len
    ensures i + len < 0 ==> j == 0
  {
    if i < 0 then (if i + len < 0 then 0 else i + len) else if i > len then len else i
  }

  /** The first index at or after `i` holding `ch`, or -1. */
  function FindFrom(s: string, ch: char, i: nat): (r: int)
    requires i <= |s|
    ensures r == -1 || (i <= r < |s| && s[r] == ch)
    ensures forall j :: i <= j < |s| && (r == -1 || j < r) ==> s[j] != ch
    decreases |s| - i
  {
    if i == |s| then -1 else if s[i] == ch then i else FindFrom(s, ch, i + 1)
  }

  /** `s.find(ch, start)`. */
  function Find(s: string, ch: char, start: int): (r: int)
    ensures r == -1 || (Clamp(start, |s|) <= r < |s| && s[r] == ch)
    ensures r == -1 <==> forall j :: Clamp(start, |s|) <= j < |s| ==> s[j] != ch
    ensures r != -1 ==> forall j :: Clamp(start, |s|) <= j < r ==> s[j] != ch
  {
    FindFrom(s, ch, Clamp(start, |s|))
  }

  /** Python's `<` on strings: code point by code point, a proper prefix first. */
  predicate Below(a: string, b: string)
    decreases |a|
  {
    if a == [] then b != []
    else b != [] && (a[0] < b[0] || (a[0] == b[0] && Below(a[1..], b[1..])))
  }

  lemma {:induction false} BelowIrreflexive(a: string)
    ensures !Below(a, a)
    decreases |a|
  {
    if a != [] {
      BelowIrreflexive(a[1..]);
    }
  }

  lemma {:induction false} BelowTransitive(a: string, b: string, c: string)
    requires Below(a, b) && Below(b, c)
    ensures Below(a, c)
    decreases |a|
  {
    if a != [] && a[0] == b[0] && b[0] == c[0] {
      BelowTransitive(a[1..], b[1..], c[1..]);
    }
  }

  /** A string sorts before any of its proper extensions. */
  lemma {:induction false} BelowExtension(a: string, b: string)
    requires b != []
    ensures Below(a, a + b)
    decreases |a|
  {
    if a != [] {
      assert (a + b)[1..] == a[1..] + b;
      BelowExtension(a[1..], b);
    }
  }

  lemma {:induction false} BelowTotal(a: string, b: string)
    ensures a == b || Below(a, b) || Below(b, a)
    decreases |a|
  {
    if a != [] && b != [] && a[0] == b[0] {
      BelowTotal(a[1..], b[1..]);
      if a[1..] == b[1..] {
        assert a == [a[0]] + a[1..] && b == [b[0]] + b[1..];
      }
    }
  }

  /** The strings of a list, as a set. */
  function Members(s: seq<string>): set<string> {
    set y | y in s
  }

  predicate StrictlySorted(s: seq<string>) {
    forall i, j :: 0 <= i < j < |s| ==> Below(s[i], s[j])
  }

  /** `x` put into its place in a sorted list; nothing happens when it is already there. */
  function Insert(s: seq<string>, x: string): seq<string>
    decreases |s|
  {
    if s == [] then [x]
    else if x == s[0] || Below(x, s[0]) then (if x == s[0] then s else [x] + s)
    else [s[0]] + Insert(s[1..], x)
  }

  /** Insertion adds exactly `x` to the strings of the list. */
  lemma {:induction false} InsertMembers(s: seq<string>, x: string)
    ensures Members(Insert(s, x)) == Members(s) + {x}
    decreases |s|
  {
    if s != [] && x != s[0] {
      assert s == [s[0]] + s[1..];
      assert Members(s) == {s[0]} + Members(s[1..]);
      if Below(x, s[0]) {
        assert Members([x] + s) == {x} + Members(s);
      } else {
        InsertMembers(s[1..], x);
        assert Members([s[0]] + Insert(s[1..], x)) == {s[0]} + Members(Insert(s[1..], x));
      }
    }
  }

  /** Insertion keeps a strictly sorted list strictly sorted. */
  lemma {:induction false} InsertSorted(s: seq<string>, x: string)
    requires StrictlySorted(s)
    ensures StrictlySorted(Insert(s, x))
    decreases |s|
  {
    if s != [] && x != s[0] {
      if Below(x, s[0]) {
        forall j | 0 < j < |s| ensures Below(x, s[j]) { BelowTransitive(x, s[0], s[j]); }
      } else {
        BelowTotal(x, s[0]);
        InsertSorted(s[1..], x);
        InsertMembers(s[1..], x);
        var t := Insert(s[1..], x);
        forall i | 0 <= i < |t| ensures Below(s[0], t[i]) {
          var y := t[i];
          assert y in Members(t);
          if y != x {
            var j :| 0 <= j < |s[1..]| && s[1..][j] == y;
            assert s[j + 1] == y;
          }
        }
        var r := [s[0]] + t;
        forall i, j | 0 <= i < j < |r| ensures Below(r[i], r[j]) {
          if i > 0 {
            assert r[i] == t[i - 1] && r[j] == t[j - 1];
          }
        }
      }
    }
  }

  /** Two strictly sorted lists with the same elements are the same list: `sorted` of a set
      has exactly one possible result. */
  lemma {:induction false} SortedUnique(a: seq<string>, b: seq<string>)
    requires StrictlySorted(a) && StrictlySorted(b)
    requires Members(a) == Members(b)
    ensures a == b
    decreases |a|
  {
    assert a != [] ==> a[0] in Members(a);
    assert b != [] ==> b[0] in Members(b);
    if a != [] && b != [] {
      assert a[0] in b && b[0] in a;
      if a[0] != b[0] {
        var i :| 0 <= i < |b| && b[i] == a[0];
        var j :| 0 <= j < |a| && a[j] == b[0];
        assert Below(b[0], a[0]) && Below(a[0], b[0]);
        BelowTransitive(a[0], b[0], a[0]);
        BelowIrreflexive(a[0]);
      }
      assert a == [a[0]] + a[1..] && b == [b[0]] + b[1..];
      forall x ensures x in a[1..] <==> x in b[1..] {
        if x in a[1..] {
          var j :| 0 <= j < |a[1..]| && a[1..][j] == x;
          assert a[j + 1] == x && Below(a[0], x);
          assert x in Members(a);
          BelowIrreflexive(x);
        }
        if x in b[1..] {
          var j :| 0 <= j < |b[1..]| && b[1..][j] == x;
          assert b[j + 1] == x && Below(b[0], x);
          assert x in Members(b);
          BelowIrreflexive(x);
        }
      }
      assert Members(a[1..]) == Members(b[1..]);
      SortedUnique(a[1..], b[1..]);
      assert a == [a[0]] + a[1..] && b == [b[0]] + b[1..];
    }
  }

  /** `sorted(s)` for a set of strings, one insertion at a time. */
  method Sorted(s: set<string>) returns (r: seq<string>)
    ensures StrictlySorted(r) && Members(r) == s
  {
    r := [];
    var rest := s;
    while rest != {}
      invariant rest <= s
      invariant StrictlySorted(r) && Members(r) == s - rest
      decreases |rest|
    {
      var x :| x in rest;
      InsertSorted(r, x);
      InsertMembers(r, x);
      r := Insert(r, x);
      rest := rest - {x};
    }
  }
}
