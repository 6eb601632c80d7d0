/**
 * The one member of the base parser with a body: `Parser::rtrim`, which
 * copies its argument and erases everything after the last character that
 * is not whitespace.
 */
module Parser {
  import opened Chars

  /**
   * Right trim. The result is a prefix of `s`, it does not end in
   * whitespace, and everything it drops from `s` is whitespace.
   */
  function RTrim(s: string): (r: string)
    ensures r <= s
    ensures r == [] || !IsSpace(r[|r| - 1])
    ensures AllSpace(s[|r|..])
    decreases |s|
  {
    if s != [] && IsSpace(s[|s| - 1]) then RTrim(s[..|s| - 1]) else s
  }

  /**
   * The three properties of `RTrim`'s contract determine its result: any prefix
   * of `s` that does not end in whitespace and leaves only whitespace behind
   * is `RTrim(s)`.
   */
  lemma {:induction false} RTrimUnique(s: string, p: string)
    requires p <= s
    requires p == [] || !IsSpace(p[|p| - 1])
    requires AllSpace(s[|p|..])
    ensures p == RTrim(s)
  {
    if s != [] && IsSpace(s[|s| - 1]) {
      var s' := s[..|s| - 1];
      assert p <= s';
      assert s'[|p|..] == s[|p|..|s| - 1];
      RTrimUnique(s', p);
    } else if |p| < |s| {
      assert false;
    }
  }

  /** A string that does not end in whitespace is returned unchanged. */
  lemma RTrimNoTrailingSpace(s: string)
    requires s == [] || !IsSpace(s[|s| - 1])
    ensures RTrim(s) == s
  {
  }

  /** Trimming twice is trimming once. */
  lemma RTrimIdempotent(s: string)
    ensures RTrim(RTrim(s)) == RTrim(s)
  {
    RTrimNoTrailingSpace(RTrim(s));
  }

  /** A string made only of whitespace trims to the empty string. */
  lemma RTrimAllSpace(s: string)
    requires AllSpace(s)
    ensures RTrim(s) == []
  {
  }

  /** Appending whitespace does not change the trimmed result. */
  lemma RTrimIgnoresTrailingSpace(s: string, w: string)
    requires AllSpace(w)
    ensures RTrim(s + w) == RTrim(s)
  {
    var r := RTrim(s);
    assert (s + w)[|r|..] == s[|r|..] + w;
    RTrimUnique(s + w, r);
  }
}
