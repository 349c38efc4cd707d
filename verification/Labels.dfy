/**
  Which labels and addresses the services take for the same: those that differ only in the case of A-Z and in white
  space at the ends. The definition here is character by character and owes nothing to how a key is computed.
 */
module Labels {
  import opened Text

  /** Tab to carriage return, the four separators, space, next line, no-break space. */
  const WHITE: set<int> := {9, 10, 11, 12, 13, 28, 29, 30, 31, 32, 133, 160}

  predicate White(c: char) {
    c as int in WHITE
  }

  predicate AllWhite(s: string) {
    forall k :: 0 <= k < |s| ==> White(s[k])
  }

  /** The same character, or the two cases of one letter. */
  predicate SameLetter(c: char, d: char) {
    || c == d
    || (65 <= c as int <= 90 && d as int == c as int + 32)
    || (65 <= d as int <= 90 && c as int == d as int + 32)
  }

  predicate SameLetters(s: string, t: string) {
    |s| == |t| && forall k :: 0 <= k < |s| ==> SameLetter(s[k], t[k])
  }

  /** `s[i..j]` is `s` without the white space at its ends. */
  predicate IsCore(s: string, i: nat, j: nat) {
    && i <= j <= |s|
    && AllWhite(s[..i]) && AllWhite(s[j..])
    && (i < j ==> !White(s[i]) && !White(s[j - 1]))
  }

  /** `t` is `s` without the white space at its ends. */
  ghost predicate Trimmed(s: string, t: string) {
    exists i: nat, j: nat :: IsCore(s, i, j) && t == s[i..j]
  }

  /** The two strings differ at most in case and in white space at the ends. */
  ghost predicate SameLabel(s: string, t: string) {
    exists a, b :: Trimmed(s, a) && Trimmed(t, b) && SameLetters(a, b)
  }

  // ------------------------------------------------------------------------------------------
  // Stripping
  // ------------------------------------------------------------------------------------------

  lemma SpacesAreWhite(c: char)
    ensures IsSpace(c) <==> White(c)
  {
  }

  lemma {:induction false} LeftStripDrops(s: string, i: nat)
    requires i <= |s| && AllWhite(s[..i]) && (i < |s| ==> !White(s[i]))
    ensures LeftStrip(s) == s[i..]
  {
    if s != "" {
      SpacesAreWhite(s[0]);
      if i > 0 {
        assert White(s[..i][0]);
        assert s[1..][..i - 1] == s[..i][1..];
        LeftStripDrops(s[1..], i - 1);
      }
    }
  }

  lemma {:induction false} RightStripDrops(s: string, j: nat)
    requires j <= |s| && AllWhite(s[j..]) && (j > 0 ==> !White(s[j - 1]))
    ensures RightStrip(s) == s[..j]
  {
    if s != "" {
      var n := |s| - 1;
      SpacesAreWhite(s[n]);
      if j <= n {
        assert s[j..][n - j] == s[n];
        assert s[..n][j..] == s[j..][..n - j];
        RightStripDrops(s[..n], j);
        assert s[..n][..j] == s[..j];
      } else {
        assert s[..j] == s;
      }
    }
  }

  /** A string of white space is stripped to nothing. */
  lemma WhiteStripsToNothing(s: string)
    requires AllWhite(s)
    ensures Strip(s) == ""
  {
    assert s[..|s|] == s;
    LeftStripDrops(s, |s|);
    assert RightStrip("") == "";
  }

  lemma CoreIsStrip(s: string, i: nat, j: nat)
    requires IsCore(s, i, j)
    ensures Strip(s) == s[i..j]
  {
    if i == j {
      forall k | 0 <= k < |s| ensures White(s[k]) {
        if k < i {
          assert s[..i][k] == s[k];
        } else {
          assert s[j..][k - j] == s[k];
        }
      }
      WhiteStripsToNothing(s);
    } else {
      LeftStripDrops(s, i);
      assert s[i..][j - i..] == s[j..];
      RightStripDrops(s[i..], j - i);
      assert s[i..][..j - i] == s[i..j];
    }
  }

  /** How much white space a string begins with. */
  function Leading(s: string): (i: nat)
    ensures i <= |s| && AllWhite(s[..i]) && (i < |s| ==> !White(s[i]))
  {
    if s == "" || !White(s[0]) then 0
    else
      var i := Leading(s[1..]) + 1;
      assert s[..i] == [s[0]] + s[1..][..i - 1];
      i
  }

  /** Where the white space that a string ends with begins. */
  function Trailing(s: string): (j: nat)
    ensures j <= |s| && AllWhite(s[j..]) && (j > 0 ==> !White(s[j - 1]))
  {
    if s == "" || !White(s[|s| - 1]) then |s|
    else
      var j := Trailing(s[..|s| - 1]);
      assert s[j..] == s[..|s| - 1][j..] + [s[|s| - 1]];
      j
  }

  /** Every string has one trimmed form, and stripping finds it. */
  lemma TrimmedIsStrip(s: string, t: string)
    ensures Trimmed(s, t) <==> t == Strip(s)
  {
    if Trimmed(s, t) {
      var i: nat, j: nat :| IsCore(s, i, j) && t == s[i..j];
      CoreIsStrip(s, i, j);
    } else {
      var i, j := Leading(s), Trailing(s);
      if i < |s| {
        forall k | j <= k < |s| ensures White(s[k]) {
          assert s[j..][k - j] == s[k];
        }
      } else {
        assert s[..i] == s && s[|s|..] == "";
        j := |s|;
      }
      assert IsCore(s, i, j);
      CoreIsStrip(s, i, j);
      assert t != s[i..j];
    }
  }

  // ------------------------------------------------------------------------------------------
  // Matching
  // ------------------------------------------------------------------------------------------

  lemma LowerAgreesIff(s: string, t: string)
    ensures Lower(s) == Lower(t) <==> SameLetters(s, t)
  {
    if Lower(s) == Lower(t) {
      assert |Lower(s)| == |s| && |Lower(t)| == |t|;
      forall k | 0 <= k < |s| ensures SameLetter(s[k], t[k]) {
        assert Lower(s)[k] == Lower(t)[k];
      }
    }
  }

  /** Two labels have one key if and only if they differ at most in case and in white space at the ends. */
  lemma {:induction false} NormalizeIff(s: string, t: string)
    ensures Normalize(s) == Normalize(t) <==> SameLabel(s, t)
  {
    TrimmedIsStrip(s, Strip(s));
    TrimmedIsStrip(t, Strip(t));
    LowerAgreesIff(Strip(s), Strip(t));
    if SameLabel(s, t) {
      var a, b :| Trimmed(s, a) && Trimmed(t, b) && SameLetters(a, b);
      TrimmedIsStrip(s, a);
      TrimmedIsStrip(t, b);
    }
  }

  /** A label has the blank key if and only if it is all white space. */
  lemma {:induction false} BlankIff(s: string)
    ensures Normalize(s) == "" <==> AllWhite(s)
  {
    assert |Lower(Strip(s))| == |Strip(s)|;
    if AllWhite(s) {
      WhiteStripsToNothing(s);
    } else {
      TrimmedIsStrip(s, Strip(s));
      var i: nat, j: nat :| IsCore(s, i, j) && Strip(s) == s[i..j];
      if i == j {
        forall k | 0 <= k < |s| ensures White(s[k]) {
          if k < i {
          assert s[..i][k] == s[k];
        } else {
          assert s[j..][k - j] == s[k];
        }
        }
      }
    }
  }
}
