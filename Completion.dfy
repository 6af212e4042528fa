/** Tab completion of hierarchical exploit paths for the `use` command: each registered path
    that extends what has been typed offers its next segment, up to and including the next
    '/', or its whole tail when no '/' follows. */
module Completion {
  import opened PyStrings

  /** What lines 50-54 add for one matching path `m` when the word being completed starts at
      index `b` of it: the slice from `b` up to and including the first '/' at or after `b`,
      or to the end when there is none. Python's slice and find bounds apply to `b`. */
  function Segment(m: string, b: int): string {
    var k := Find(m, '/', b);
    if k != -1 then m[Clamp(b, |m|)..k + 1] else m[Clamp(b, |m|)..]
  }

  /** A segment is the piece of the path that starts at the clamped begin index; it holds no
      '/' except as its last character; it ends in '/' exactly when a '/' follows the begin
      index, and otherwise it is the whole tail. */
  lemma SegmentShape(m: string, b: int)
    ensures var c, start := Segment(m, b), Clamp(b, |m|);
      && start + |c| <= |m| && c == m[start..start + |c|]
      && (forall i :: 0 <= i < |c| - 1 ==> c[i] != '/')
      && ((exists j :: start <= j < |m| && m[j] == '/') ==> c != [] && c[|c| - 1] == '/')
      && ((forall j :: start <= j < |m| ==> m[j] != '/') ==> c == m[start..])
  {
    var start := Clamp(b, |m|);
    var c := Segment(m, b);
    var k := Find(m, '/', b);
    if k != -1 {
      forall i | 0 <= i < |c| - 1 ensures c[i] != '/' {
        assert c[i] == m[start + i];
      }
    }
  }

  /** The set lines 47-54 build: the segments of every path in `matchAgainst` that starts
      with the text after the command word, cut at the length of that text minus the length
      of the word being completed. */
  function Candidates(text: string, line: string, matchAgainst: seq<string>): set<string> {
    var full := Remainder(line);
    Gathered(matchAgainst, full, |full| - |text|)
  }

  /** The segments at `b` of the paths in `ms` that start with `full`. */
  function Gathered(ms: seq<string>, full: string, b: int): set<string> {
    set m | m in ms && full <= m :: Segment(m, b)
  }

  /** One more path adds its segment when it starts with `full`, and nothing otherwise. */
  lemma GatheredSnoc(ms: seq<string>, m: string, full: string, b: int)
    ensures Gathered(ms + [m], full, b) == Gathered(ms, full, b) + (if full <= m then {Segment(m, b)} else {})
  {
  }

  /** Lines 43-56. The cursor positions `begidx` and `endidx` are accepted and not used. */
  method ExploitPathComplete(text: string, line: string, begidx: int, endidx: int, matchAgainst: seq<string>)
    returns (r: seq<string>)
    ensures StrictlySorted(r) && Members(r) == Candidates(text, line, matchAgainst)
  {
    var full := Remainder(line);
    var b := |full| - |text|;
    var results: set<string> := {};
    var i := 0;
    while i < |matchAgainst|
      invariant 0 <= i <= |matchAgainst|
      invariant results == Gathered(matchAgainst[..i], full, b)
    {
      var m := matchAgainst[i];
      assert matchAgainst[..i + 1] == matchAgainst[..i] + [m];
      GatheredSnoc(matchAgainst[..i], m, full, b);
      if full <= m {
        var k := Find(m, '/', b);
        if k != -1 {
          results := results + {m[Clamp(b, |m|)..k + 1]};
        } else {
          results := results + {m[Clamp(b, |m|)..]};
        }
      }
      i := i + 1;
    }
    assert matchAgainst[..i] == matchAgainst;
    r := Sorted(results);
  }

  /** The completions are fully determined: any strictly sorted list of the candidates is
      the result. */
  lemma CompletionsDetermined(text: string, line: string, matchAgainst: seq<string>, a: seq<string>, b: seq<string>)
    requires StrictlySorted(a) && Members(a) == Candidates(text, line, matchAgainst)
    requires StrictlySorted(b) && Members(b) == Candidates(text, line, matchAgainst)
    ensures a == b
  {
    SortedUnique(a, b);
  }
}
