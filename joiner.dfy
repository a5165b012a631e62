/** The `joinTokens` function of the joiner package: punctuation attaches to the
    previous token, every other token is separated by one space. */
module Joiner {
  import opened Text
  import opened Protocol

  function JoinTokens(prev: string, next: string): (r: string)
    ensures StartsWith(r, prev) && EndsWith(r, next)
    ensures |r| == |prev| + |next| + (if next in Punctuation then 0 else 1)
    ensures next !in Punctuation ==> r[|prev|] == ' '
  {
    if next in Punctuation then prev + next else prev + " " + next
  }

  /** The prefix, the suffix, the length and the separating character pin the
      result down: any string with the same four properties is the result. */
  lemma JoinTokensDetermined(prev: string, next: string, s: string)
    requires StartsWith(s, prev) && EndsWith(s, next)
    requires |s| == |prev| + |next| + (if next in Punctuation then 0 else 1)
    requires next !in Punctuation ==> s[|prev|] == ' '
    ensures s == JoinTokens(prev, next)
  {
    var r := JoinTokens(prev, next);
    assert |s| == |r|;
    forall k | 0 <= k < |s| ensures s[k] == r[k] {
      if k < |prev| {
        assert s[..|prev|][k] == r[..|prev|][k];
      } else if k >= |s| - |next| {
        assert s[|s| - |next|..][k - (|s| - |next|)] == r[|r| - |next|..][k - (|r| - |next|)];
      }
    }
  }
}
