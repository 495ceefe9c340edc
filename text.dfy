/** White space and trimming, as the request validators and the account name accessor use them. */
module Text {
  predicate IsSpace(c: char) {
    c == ' ' || c == '\t' || c == '\n' || c == '\r' || c == '\U{000B}' || c == '\U{000C}'
  }

  /** `s` without its leading and trailing white space. */
  function Trim(s: string): (t: string)
    ensures |t| <= |s|
    ensures t != [] ==> !IsSpace(t[0]) && !IsSpace(t[|t| - 1])
    ensures s != [] && !IsSpace(s[0]) && !IsSpace(s[|s| - 1]) ==> t == s
  {
    if s == [] then []
    else if IsSpace(s[0]) then Trim(s[1..])
    else if IsSpace(s[|s| - 1]) then Trim(s[..|s| - 1])
    else s
  }

  /** Non-empty, with no white space at either end. */
  predicate Trimmed(s: string) {
    s != [] && !IsSpace(s[0]) && !IsSpace(s[|s| - 1])
  }

  /** A string made only of white space trims to the empty string. */
  lemma {:induction false} TrimAllSpace(s: string)
    requires forall i | 0 <= i < |s| :: IsSpace(s[i])
    ensures Trim(s) == []
  {
    if s != [] {
      TrimAllSpace(s[1..]);
    }
  }

  /**
   * Trimming removes exactly a run of white space from each end: the result is a slice of
   * `s` with nothing but white space before and after it.
   */
  lemma {:induction false} TrimSlice(s: string) returns (i: nat, j: nat)
    ensures i <= j <= |s| && Trim(s) == s[i..j]
    ensures forall k | 0 <= k < i :: IsSpace(s[k])
    ensures forall k | j <= k < |s| :: IsSpace(s[k])
  {
    if s == [] {
      i, j := 0, 0;
    } else if IsSpace(s[0]) {
      var i', j' := TrimSlice(s[1..]);
      i, j := i' + 1, j' + 1;
      assert s[1..][i'..j'] == s[i..j];
      forall k | 0 <= k < i
        ensures IsSpace(s[k])
      {
        if k > 0 {
          assert s[k] == s[1..][k - 1];
        }
      }
      forall k | j <= k < |s|
        ensures IsSpace(s[k])
      {
        assert s[k] == s[1..][k - 1];
      }
    } else if IsSpace(s[|s| - 1]) {
      var init := s[..|s| - 1];
      i, j := TrimSlice(init);
      assert init[i..j] == s[i..j];
      forall k | j <= k < |s|
        ensures IsSpace(s[k])
      {
        if k < |s| - 1 {
          assert s[k] == init[k];
        }
      }
    } else {
      i, j := 0, |s|;
      assert s[0..|s|] == s;
    }
  }

  /** Trimming is idempotent. */
  lemma TrimIdempotent(s: string)
    ensures Trim(Trim(s)) == Trim(s)
  {
  }
}
