/**
 * `camelCaseToProperCase(input)` of the client, three global replacements in a row:
 *   1. `input.replace(/_/g, ' ')`
 *   2. `.replace(/([a-z])([A-Z])/g, '$1 $2')`
 *   3. `.replace(/\b\w/g, c => c.toUpperCase())`
 */
module CamelCase {
  import opened Chars

  /** Step 1: every underscore becomes a space. */
  function SpaceUnderscores(s: string): (r: string)
    ensures |r| == |s| && '_' !in r
    ensures forall i :: 0 <= i < |s| && s[i] != '_' ==> r[i] == s[i]
    ensures forall i :: 0 <= i < |s| && s[i] == '_' ==> r[i] == ' '
  {
    seq(|s|, i requires 0 <= i < |s| => if s[i] == '_' then ' ' else s[i])
  }

  /** A lower-case letter at `i` directly followed by an upper-case letter. */
  predicate PairAt(s: string, i: nat) {
    i + 1 < |s| && IsLower(s[i]) && IsUpper(s[i + 1])
  }

  /** Number of lower/upper pairs starting before position `k`. */
  function PairsBefore(s: string, k: nat): nat
    requires k <= |s|
    decreases k
  {
    if k == 0 then 0 else PairsBefore(s, k - 1) + (if PairAt(s, k - 1) then 1 else 0)
  }

  /** Number of lower/upper pairs in `s`. */
  function Pairs(s: string): nat {
    PairsBefore(s, |s|)
  }

  /**
   * Step 2, match by match: a match is a lower-case letter and the upper-case
   * letter after it; the scan resumes after the upper-case letter.
   */
  function SplitCamel(s: string): (r: string)
    decreases |s|
  {
    if |s| >= 2 && IsLower(s[0]) && IsUpper(s[1]) then [s[0], ' ', s[1]] + SplitCamel(s[2..])
    else if s == [] then []
    else [s[0]] + SplitCamel(s[1..])
  }

  /** A word character at the start of the string or after a non-word character (`\b\w`). */
  predicate WordStart(s: string, k: nat)
    requires k < |s|
  {
    IsWord(s[k]) && (k == 0 || !IsWord(s[k - 1]))
  }

  /**
   * Step 3, scanning left to right; `afterWord` says whether the character
   * before `s` (in the whole string) is a word character.
   */
  function CapitalizeFrom(s: string, afterWord: bool): (r: string)
    ensures |r| == |s|
    decreases |s|
  {
    if s == [] then []
    else [if IsWord(s[0]) && !afterWord then ToUpper(s[0]) else s[0]] + CapitalizeFrom(s[1..], IsWord(s[0]))
  }

  /** Step 3 on a whole string. */
  function CapitalizeWords(s: string): (r: string)
    ensures |r| == |s|
  {
    CapitalizeFrom(s, false)
  }

  /** `camelCaseToProperCase(input)` */
  function CamelCaseToProperCase(input: string): string {
    CapitalizeWords(SplitCamel(SpaceUnderscores(input)))
  }

  /** Counting pairs from `m` on in the suffix is counting them in the whole string. */
  lemma {:induction false} PairsBeforeShift(s: string, m: nat, j: nat)
    requires m + j <= |s|
    ensures PairsBefore(s, m + j) == PairsBefore(s, m) + PairsBefore(s[m..], j)
    decreases j
  {
    if j > 0 {
      PairsBeforeShift(s, m, j - 1);
      assert PairAt(s[m..], j - 1) == PairAt(s, m + j - 1);
    }
  }

  /** Every lower/upper pair gets exactly one space: the output grows by the number of pairs. */
  lemma {:induction false} SplitCamelLength(s: string)
    ensures |SplitCamel(s)| == |s| + Pairs(s)
    decreases |s|
  {
    if |s| >= 2 && IsLower(s[0]) && IsUpper(s[1]) {
      SplitCamelLength(s[2..]);
      PairsBeforeShift(s, 2, |s| - 2);
    } else if s != [] {
      SplitCamelLength(s[1..]);
      PairsBeforeShift(s, 1, |s| - 1);
    }
  }

  /**
   * Where each input character lands: character `k` moves right by the
   * number of pairs before it, and right after the lower-case letter of a
   * pair stands the inserted space.
   */
  lemma {:induction false} SplitCamelAt(s: string, k: nat)
    requires k < |s|
    ensures k + PairsBefore(s, k) < |SplitCamel(s)|
    ensures SplitCamel(s)[k + PairsBefore(s, k)] == s[k]
    ensures PairAt(s, k) ==> k + PairsBefore(s, k) + 1 < |SplitCamel(s)|
    ensures PairAt(s, k) ==> SplitCamel(s)[k + PairsBefore(s, k) + 1] == ' '
    decreases |s|
  {
    SplitCamelLength(s);
    if |s| >= 2 && IsLower(s[0]) && IsUpper(s[1]) {
      var tail := SplitCamel(s[2..]);
      assert SplitCamel(s) == [s[0], ' ', s[1]] + tail;
      assert PairsBefore(s, 1) == 1;
      assert PairsBefore(s, 2) == 1;
      if k >= 2 {
        SplitCamelAt(s[2..], k - 2);
        PairsBeforeShift(s, 2, k - 2);
        assert s[2..][k - 2] == s[k];
        assert PairAt(s, k) == PairAt(s[2..], k - 2);
      }
    } else if s != [] {
      var tail := SplitCamel(s[1..]);
      assert SplitCamel(s) == [s[0]] + tail;
      assert PairsBefore(s, 1) == 0;
      if k >= 1 {
        SplitCamelAt(s[1..], k - 1);
        PairsBeforeShift(s, 1, k - 1);
        assert s[1..][k - 1] == s[k];
        assert PairAt(s, k) == PairAt(s[1..], k - 1);
      }
    }
  }

  /** The characters step 2 puts out are the input's characters and spaces. */
  lemma {:induction false} SplitCamelChars(s: string, c: char)
    requires c in SplitCamel(s)
    ensures c in s || c == ' '
    decreases |s|
  {
    if |s| >= 2 && IsLower(s[0]) && IsUpper(s[1]) {
      if c in SplitCamel(s[2..]) {
        SplitCamelChars(s[2..], c);
        if c in s[2..] {
          var i :| 0 <= i < |s[2..]| && s[2..][i] == c;
          assert s[i + 2] == c;
        }
      }
    } else if s != [] {
      if c in SplitCamel(s[1..]) {
        SplitCamelChars(s[1..], c);
        if c in s[1..] {
          var i :| 0 <= i < |s[1..]| && s[1..][i] == c;
          assert s[i + 1] == c;
        }
      }
    }
  }

  /** Pointwise meaning of step 3: exactly the word starts are upper-cased. */
  lemma {:induction false} CapitalizeFromAt(s: string, afterWord: bool, k: nat)
    requires k < |s|
    ensures CapitalizeFrom(s, afterWord)[k] ==
      if IsWord(s[k]) && (if k == 0 then !afterWord else !IsWord(s[k - 1])) then ToUpper(s[k]) else s[k]
    decreases k
  {
    if k > 0 {
      CapitalizeFromAt(s[1..], IsWord(s[0]), k - 1);
      assert s[1..][k - 1] == s[k];
      if k > 1 {
        assert s[1..][k - 2] == s[k - 1];
      }
    }
  }

  /** `\b\w` upper-cases every word start and leaves every other character as it is. */
  lemma CapitalizeWordsAt(s: string, k: nat)
    requires k < |s|
    ensures CapitalizeWords(s)[k] == if WordStart(s, k) then ToUpper(s[k]) else s[k]
  {
    CapitalizeFromAt(s, false, k);
  }

  /** Step 1 neither adds nor removes lower/upper pairs. */
  lemma {:induction false} PairsAfterSpacing(s: string, k: nat)
    requires k <= |s|
    ensures PairsBefore(SpaceUnderscores(s), k) == PairsBefore(s, k)
    decreases k
  {
    if k > 0 {
      PairsAfterSpacing(s, k - 1);
      assert PairAt(SpaceUnderscores(s), k - 1) == PairAt(s, k - 1);
    }
  }

  /** Output of steps 1 and 2, before the word starts are upper-cased. */
  function Spaced(s: string): string {
    SplitCamel(SpaceUnderscores(s))
  }

  /** Step 3 changes only the case of word starts, so the output's word starts are the same as before it. */
  lemma {:induction false} CapitalizeKeepsWordStarts(s: string, k: nat)
    requires k < |Spaced(s)|
    ensures CamelCaseToProperCase(s)[k] == if WordStart(Spaced(s), k) then ToUpper(Spaced(s)[k]) else Spaced(s)[k]
    ensures WordStart(CamelCaseToProperCase(s), k) == WordStart(Spaced(s), k)
  {
    var mid := Spaced(s);
    var r := CamelCaseToProperCase(s);
    CapitalizeWordsAt(mid, k);
    if k > 0 {
      CapitalizeWordsAt(mid, k - 1);
    }
  }

  /** `camelCaseToProperCase` leaves no underscore. */
  lemma CamelCaseNoUnderscore(s: string)
    ensures '_' !in CamelCaseToProperCase(s)
  {
    var mid := Spaced(s);
    var r := CamelCaseToProperCase(s);
    forall k | 0 <= k < |r| ensures r[k] != '_' {
      CapitalizeWordsAt(mid, k);
      if mid[k] == '_' {
        SplitCamelChars(SpaceUnderscores(s), '_');
      }
    }
  }

  /** `camelCaseToProperCase` grows the input by one space per lower/upper pair. */
  lemma CamelCaseLength(s: string)
    ensures |CamelCaseToProperCase(s)| == |s| + Pairs(s)
  {
    PairsAfterSpacing(s, |s|);
    SplitCamelLength(SpaceUnderscores(s));
  }

  /** Every word start of the output is not a lower-case letter. */
  lemma CamelCaseWordStartsUpper(s: string, k: nat)
    requires k < |CamelCaseToProperCase(s)|
    requires WordStart(CamelCaseToProperCase(s), k)
    ensures !IsLower(CamelCaseToProperCase(s)[k])
  {
    CapitalizeKeepsWordStarts(s, k);
  }

  /**
   * Where input character `k` ends up: at `k` plus the pairs before it, as
   * itself (an underscore as a space) or upper-cased where it starts a word,
   * with the inserted space right after it when it begins a pair.
   */
  lemma CamelCaseAt(s: string, k: nat)
    requires k < |s|
    ensures k + PairsBefore(s, k) < |CamelCaseToProperCase(s)|
    ensures var c := if s[k] == '_' then ' ' else s[k];
            var d := CamelCaseToProperCase(s)[k + PairsBefore(s, k)];
            if WordStart(CamelCaseToProperCase(s), k + PairsBefore(s, k)) then d == ToUpper(c) else d == c
    ensures PairAt(s, k) ==> k + PairsBefore(s, k) + 1 < |CamelCaseToProperCase(s)|
    ensures PairAt(s, k) ==> CamelCaseToProperCase(s)[k + PairsBefore(s, k) + 1] == ' '
  {
    var spaced := SpaceUnderscores(s);
    PairsAfterSpacing(s, k);
    SplitCamelAt(spaced, k);
    assert PairAt(spaced, k) == PairAt(s, k);
    CapitalizeKeepsWordStarts(s, k + PairsBefore(s, k));
    if PairAt(s, k) {
      CapitalizeKeepsWordStarts(s, k + PairsBefore(s, k) + 1);
    }
  }
}
