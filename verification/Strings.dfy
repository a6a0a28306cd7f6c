/** The string functions that the commands use on their arguments. */
module Strings {

  /** unicode.IsSpace. */
  predicate IsSpace(c: char) {
    || c in {'\t', '\n', '\U{0B}', '\U{0C}', '\r', ' ', '\U{85}', '\U{A0}', '\U{1680}', '\U{2028}', '\U{2029}', '\U{202F}', '\U{205F}', '\U{3000}'}
    || '\U{2000}' <= c <= '\U{200A}'
  }

  /** strings.TrimSpace. */
  function TrimSpace(s: string): (r: string)
    ensures |r| <= |s|
    ensures r != "" ==> !IsSpace(r[0]) && !IsSpace(r[|r| - 1])
  {
    if s == "" then ""
    else if IsSpace(s[0]) then TrimSpace(s[1..])
    else if IsSpace(s[|s| - 1]) then TrimSpace(s[..|s| - 1])
    else s
  }

  /** What is trimmed is space, and what stays is the part between. */
  lemma {:induction false} TrimSpaceKeepsCore(s: string) returns (i: nat, j: nat)
    ensures i <= j <= |s| && TrimSpace(s) == s[i..j]
    ensures forall k :: (0 <= k < i || j <= k < |s|) ==> IsSpace(s[k])
  {
    if s == "" {
      i, j := 0, 0;
    } else if IsSpace(s[0]) {
      var a, b := TrimSpaceKeepsCore(s[1..]);
      i, j := a + 1, b + 1;
      assert s[1..][a..b] == s[i..j];
      forall k | 0 <= k < i || j <= k < |s|
        ensures IsSpace(s[k])
      {
        if 1 <= k {
          assert s[k] == s[1..][k - 1];
        }
      }
    } else if IsSpace(s[|s| - 1]) {
      i, j := TrimSpaceKeepsCore(s[..|s| - 1]);
      assert s[..|s| - 1][i..j] == s[i..j];
      forall k | 0 <= k < i || j <= k < |s|
        ensures IsSpace(s[k])
      {
        if k < |s| - 1 {
          assert s[k] == s[..|s| - 1][k];
        }
      }
    } else {
      i, j := 0, |s|;
    }
  }
}
