/**
 * `toProperCase(str)` of the client:
 * `str.replace(/\w\S*\/g, txt => txt.charAt(0).toUpperCase() + txt.substr(1).toLowerCase())`.
 *
 * The global replace scans left to right. A match starts at a word character
 * and runs greedily over the following non-whitespace characters; its first
 * character is upper-cased and the rest lower-cased. Between matches every
 * character is copied unchanged, and the scan resumes right after a match.
 */
module ProperCase {
  import opened Chars

  /** Length of the greedy `\S*` at the start of `s`. */
  function RunLength(s: string): (n: nat)
    ensures n <= |s|
    ensures forall i :: 0 <= i < n ==> !IsSpace(s[i])
    ensures n < |s| ==> IsSpace(s[n])
    decreases |s|
  {
    if s == [] || IsSpace(s[0]) then 0 else 1 + RunLength(s[1..])
  }

  /** `txt.toLowerCase()` */
  function LowerAll(s: string): string {
    seq(|s|, i requires 0 <= i < |s| => ToLower(s[i]))
  }

  /** The regular-expression replacement, match by match. */
  function ToProperCase(s: string): (r: string)
    ensures |r| == |s|
    decreases |s|
  {
    if s == [] then []
    else if IsWord(s[0]) then
      var n := RunLength(s[1..]);
      [ToUpper(s[0])] + LowerAll(s[1..1 + n]) + ToProperCase(s[1 + n..])
    else [s[0]] + ToProperCase(s[1..])
  }

  /**
   * Whether position `k` lies inside a match that began before `k`: the
   * character before `k` is not whitespace and either is a word character
   * (a match starts there at the latest) or is itself inside a match.
   */
  predicate InMatch(s: string, k: nat)
    requires k <= |s|
    decreases k
  {
    k > 0 && !IsSpace(s[k - 1]) && (IsWord(s[k - 1]) || InMatch(s, k - 1))
  }

  /** No whitespace in `s[j..k]`. */
  predicate NoSpaceBetween(s: string, j: nat, k: nat)
    requires j <= k <= |s|
  {
    forall i :: j <= i < k ==> !IsSpace(s[i])
  }

  /** What the replacement makes of the character `c`, given whether a match is running. */
  function Cased(inMatch: bool, c: char): char {
    if IsSpace(c) then c
    else if inMatch then ToLower(c)
    else if IsWord(c) then ToUpper(c)
    else c
  }

  /**
   * `InMatch` in words: some word character before `k` is followed by
   * non-whitespace all the way up to `k`.
   */
  lemma {:induction false} InMatchMeans(s: string, k: nat)
    requires k <= |s|
    ensures InMatch(s, k) <==> exists j :: 0 <= j < k && IsWord(s[j]) && NoSpaceBetween(s, j, k)
    decreases k
  {
    if k > 0 {
      InMatchMeans(s, k - 1);
      if IsSpace(s[k - 1]) {
        forall j | 0 <= j < k ensures !NoSpaceBetween(s, j, k) {
          assert IsSpace(s[k - 1]);
        }
      } else if IsWord(s[k - 1]) {
        assert NoSpaceBetween(s, k - 1, k);
      } else {
        if InMatch(s, k - 1) {
          var j :| 0 <= j < k - 1 && IsWord(s[j]) && NoSpaceBetween(s, j, k - 1);
          assert NoSpaceBetween(s, j, k);
        }
        if exists j :: 0 <= j < k && IsWord(s[j]) && NoSpaceBetween(s, j, k) {
          var j :| 0 <= j < k && IsWord(s[j]) && NoSpaceBetween(s, j, k);
          assert j < k - 1;
          assert NoSpaceBetween(s, j, k - 1);
        }
      }
    }
  }

  /** Inside the greedy run after a leading word character, a match is running. */
  lemma {:induction false} InMatchInsideRun(s: string, k: nat)
    requires s != [] && IsWord(s[0])
    requires 1 <= k <= RunLength(s[1..])
    ensures InMatch(s, k)
    decreases k
  {
    if k > 1 {
      InMatchInsideRun(s, k - 1);
      assert s[k - 1] == s[1..][k - 2];
    }
  }

  /**
   * A scan that restarts at `m` with no match running (or right at a
   * whitespace character) sees the same matches as the scan of the whole string.
   */
  lemma {:induction false} InMatchShift(s: string, m: nat, j: nat)
    requires m + j <= |s|
    requires !InMatch(s, m) || (0 < j && IsSpace(s[m]))
    ensures InMatch(s[m..], j) == InMatch(s, m + j)
    decreases j
  {
    if j > 1 {
      InMatchShift(s, m, j - 1);
      assert s[m..][j - 1] == s[m + j - 1];
    } else if j == 1 {
      assert s[m..][0] == s[m];
    }
  }

  /** Indexing past the first two parts of a concatenation. */
  lemma IndexThird(a: string, b: string, c: string, k: nat)
    requires |a| + |b| <= k < |a| + |b| + |c|
    ensures (a + b + c)[k] == c[k - |a| - |b|]
  {
  }

  /** One step of the replacement when a match starts at the first character. */
  lemma UnfoldWord(s: string)
    requires s != [] && IsWord(s[0])
    ensures var m := 1 + RunLength(s[1..]);
      ToProperCase(s) == [ToUpper(s[0])] + LowerAll(s[1..m]) + ToProperCase(s[m..])
  {
  }

  /** One step of the replacement when no match starts at the first character. */
  lemma UnfoldOther(s: string)
    requires s != [] && !IsWord(s[0])
    ensures ToProperCase(s) == [s[0]] + ToProperCase(s[1..])
  {
  }

  /** The first character is upper-cased when it starts a match and kept otherwise. */
  lemma AtStart(s: string)
    requires s != []
    ensures ToProperCase(s)[0] == Cased(InMatch(s, 0), s[0])
  {
    if IsWord(s[0]) {
      UnfoldWord(s);
    } else {
      UnfoldOther(s);
    }
  }

  /** Inside the first match, every character after the first is lower-cased. */
  lemma AtInsideMatch(s: string, k: nat)
    requires k < |s| && IsWord(s[0])
    requires 0 < k < 1 + RunLength(s[1..])
    ensures ToProperCase(s)[k] == Cased(InMatch(s, k), s[k])
  {
    var m := 1 + RunLength(s[1..]);
    var low := LowerAll(s[1..m]);
    var rest := ToProperCase(s[m..]);
    UnfoldWord(s);
    assert ToProperCase(s)[k] == low[k - 1] == ToLower(s[k]);
    assert s[1..][k - 1] == s[k];
    InMatchInsideRun(s, k);
  }

  /** After the first match, the replacement continues with the replacement of the rest. */
  lemma UnfoldAfterMatch(s: string, k: nat)
    requires k < |s| && IsWord(s[0])
    requires 1 + RunLength(s[1..]) <= k
    ensures var m := 1 + RunLength(s[1..]);
      ToProperCase(s)[k] == ToProperCase(s[m..])[k - m]
  {
    var m := 1 + RunLength(s[1..]);
    var low := LowerAll(s[1..m]);
    var rest := ToProperCase(s[m..]);
    UnfoldWord(s);
    assert |low| == m - 1;
    IndexThird([ToUpper(s[0])], low, rest, k);
  }

  /** The first match ends at whitespace, so the rest of the string is cased as if scanned on its own. */
  lemma CasedAfterMatch(s: string, k: nat)
    requires k < |s| && IsWord(s[0])
    requires 1 + RunLength(s[1..]) <= k
    ensures var m := 1 + RunLength(s[1..]);
      Cased(InMatch(s[m..], k - m), s[m..][k - m]) == Cased(InMatch(s, k), s[k])
  {
    var n := RunLength(s[1..]);
    var m := 1 + n;
    assert s[1..][n] == s[m];
    assert s[m..][k - m] == s[k];
    if k > m {
      InMatchShift(s, m, k - m);
    }
  }

  /** After a character that starts no match, the replacement continues with the replacement of the rest. */
  lemma UnfoldAfterOther(s: string, k: nat)
    requires 0 < k < |s| && !IsWord(s[0])
    ensures ToProperCase(s)[k] == ToProperCase(s[1..])[k - 1]
  {
    var rest := ToProperCase(s[1..]);
    UnfoldOther(s);
    assert ToProperCase(s)[k] == rest[k - 1];
  }

  /** After a character that starts no match, the rest of the string is cased as if scanned on its own. */
  lemma CasedAfterOther(s: string, k: nat)
    requires 0 < k < |s| && !IsWord(s[0])
    ensures Cased(InMatch(s[1..], k - 1), s[1..][k - 1]) == Cased(InMatch(s, k), s[k])
  {
    InMatchShift(s, 1, k - 1);
  }

  /**
   * Pointwise meaning of the replacement: whitespace is kept, a match's
   * first character is upper-cased, the rest of a match is lower-cased, and
   * every character outside a match is kept.
   */
  lemma {:induction false} ToProperCaseAt(s: string, k: nat)
    requires k < |s|
    ensures ToProperCase(s)[k] == Cased(InMatch(s, k), s[k])
    decreases |s|
  {
    if k == 0 {
      AtStart(s);
    } else if IsWord(s[0]) {
      var m := 1 + RunLength(s[1..]);
      if k < m {
        AtInsideMatch(s, k);
      } else {
        ToProperCaseAt(s[m..], k - m);
        UnfoldAfterMatch(s, k);
        CasedAfterMatch(s, k);
      }
    } else {
      ToProperCaseAt(s[1..], k - 1);
      UnfoldAfterOther(s, k);
      CasedAfterOther(s, k);
    }
  }

  /** `toProperCase` keeps the length and every whitespace character, and adds none. */
  lemma ToProperCaseKeepsSpaces(s: string)
    ensures |ToProperCase(s)| == |s|
    ensures forall k :: 0 <= k < |s| ==> IsSpace(ToProperCase(s)[k]) == IsSpace(s[k])
    ensures forall k :: 0 <= k < |s| && IsSpace(s[k]) ==> ToProperCase(s)[k] == s[k]
  {
    forall k | 0 <= k < |s|
      ensures IsSpace(ToProperCase(s)[k]) == IsSpace(s[k])
      ensures IsSpace(s[k]) ==> ToProperCase(s)[k] == s[k]
    {
      ToProperCaseAt(s, k);
    }
  }

  /** Two strings whose characters agree on `\w` and `\s` have their matches at the same places. */
  lemma {:induction false} InMatchSameClasses(s: string, t: string, k: nat)
    requires |s| == |t| && k <= |s|
    requires forall i :: 0 <= i < |s| ==> IsWord(s[i]) == IsWord(t[i]) && IsSpace(s[i]) == IsSpace(t[i])
    ensures InMatch(s, k) == InMatch(t, k)
    decreases k
  {
    if k > 0 {
      InMatchSameClasses(s, t, k - 1);
    }
  }

  /** `toProperCase` is idempotent. */
  lemma ToProperCaseIdempotent(s: string)
    ensures ToProperCase(ToProperCase(s)) == ToProperCase(s)
  {
    var t := ToProperCase(s);
    forall i | 0 <= i < |s|
      ensures IsWord(s[i]) == IsWord(t[i]) && IsSpace(s[i]) == IsSpace(t[i])
    {
      ToProperCaseAt(s, i);
    }
    forall k | 0 <= k < |t| ensures ToProperCase(t)[k] == t[k] {
      ToProperCaseAt(s, k);
      ToProperCaseAt(t, k);
      InMatchSameClasses(s, t, k);
    }
  }
}
