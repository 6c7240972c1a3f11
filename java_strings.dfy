/**
 * The piece of `java.lang.String` the transfer validation depends on: `trim()`,
 * which strips every leading and trailing character whose code is at most U+0020,
 * and the blank test `s.trim().isEmpty()` built on it.
 */
module JavaStrings {

  /** The characters `trim()` strips: the control characters and the space. */
  predicate IsTrimmable(c: char) {
    c <= ' '
  }

  /** The first loop of `trim()`: drop leading trimmable characters. */
  function TrimStart(s: string): string {
    if s != [] && IsTrimmable(s[0]) then TrimStart(s[1..]) else s
  }

  /** The second loop of `trim()`: drop trailing trimmable characters. */
  function TrimEnd(s: string): string {
    if s != [] && IsTrimmable(s[|s| - 1]) then TrimEnd(s[..|s| - 1]) else s
  }

  /** `String.trim()`. */
  function Trim(s: string): string {
    TrimEnd(TrimStart(s))
  }

  /** `s.trim().isEmpty()`, the "blank" test of the request validation. */
  predicate IsBlank(s: string) {
    Trim(s) == []
  }

  /**
   * `TrimStart` removes a prefix of trimmable characters and nothing else: what is left is
   * a suffix of the input that is empty or starts with a character `trim()` keeps.
   */
  lemma {:induction false} TrimStartDropsLeading(s: string)
    ensures var r := TrimStart(s);
            && |r| <= |s| && r == s[|s| - |r|..]
            && (r != [] ==> !IsTrimmable(r[0]))
            && forall i | 0 <= i < |s| - |r| :: IsTrimmable(s[i])
  {
    if s != [] && IsTrimmable(s[0]) {
      var tail := s[1..];
      TrimStartDropsLeading(tail);
      var r := TrimStart(tail);
      assert TrimStart(s) == r;
      assert tail[|tail| - |r|..] == s[|s| - |r|..];
      forall i | 0 <= i < |s| - |r|
        ensures IsTrimmable(s[i])
      {
        if i > 0 {
          assert s[i] == tail[i - 1];
        }
      }
    }
  }

  /**
   * `TrimEnd` removes a suffix of trimmable characters and nothing else: what is left is a
   * prefix of the input that is empty or ends with a character `trim()` keeps.
   */
  lemma {:induction false} TrimEndDropsTrailing(s: string)
    ensures var r := TrimEnd(s);
            && |r| <= |s| && r == s[..|r|]
            && (r != [] ==> !IsTrimmable(r[|r| - 1]))
            && forall i | |r| <= i < |s| :: IsTrimmable(s[i])
  {
    if s != [] && IsTrimmable(s[|s| - 1]) {
      var init := s[..|s| - 1];
      TrimEndDropsTrailing(init);
      var r := TrimEnd(init);
      assert TrimEnd(s) == r;
      assert init[..|r|] == s[..|r|];
      forall i | |r| <= i < |s|
        ensures IsTrimmable(s[i])
      {
        if i < |s| - 1 {
          assert s[i] == init[i];
        }
      }
    }
  }

  /** A string is blank exactly when every one of its characters is trimmable. */
  lemma BlankIffAllTrimmable(s: string)
    ensures IsBlank(s) <==> forall i | 0 <= i < |s| :: IsTrimmable(s[i])
  {
    TrimStartDropsLeading(s);
    TrimEndDropsTrailing(TrimStart(s));
  }
}
