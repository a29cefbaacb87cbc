/**
 * The plugboard (`apply_plugboard`): a string of letter pairs such as
 * "AB CD EF", scanned left to right; the first pair that contains the
 * letter swaps it with its partner.
 */
module Plugboard {
  import opened Letters

  /** The `while (*ptr == ' ') ptr++` step: drop leading spaces. */
  function SkipSpaces(s: string): (r: string)
    ensures |r| <= |s| && r == s[|s| - |r|..]
    ensures forall j | 0 <= j < |s| - |r| :: s[j] == ' '
    ensures r == [] || r[0] != ' '
  {
    if s != [] && s[0] == ' ' then SkipSpaces(s[1..]) else s
  }

  /**
   * A plugboard string the scan reads safely: uppercase letter pairs, each
   * followed by any number of spaces, with no leading space. An odd trailing
   * letter would make the scan step past the terminator.
   */
  predicate WellFormed(pb: string)
    decreases |pb|
  {
    pb == [] || (|pb| >= 2 && IsUpper(pb[0]) && IsUpper(pb[1]) && WellFormed(SkipSpaces(pb[2..])))
  }

  /** The pairs of a well-formed plugboard string, in scan order. */
  function Pairs(pb: string): (ps: seq<(char, char)>)
    requires WellFormed(pb)
    ensures forall k | 0 <= k < |ps| :: IsUpper(ps[k].0) && IsUpper(ps[k].1)
    decreases |pb|
  {
    if pb == [] then [] else [(pb[0], pb[1])] + Pairs(SkipSpaces(pb[2..]))
  }

  /** Past the first pair, the pairs are those of the rest of the string. */
  lemma PairsTail(pb: string)
    requires WellFormed(pb) && pb != []
    ensures Pairs(pb) == [(pb[0], pb[1])] + Pairs(SkipSpaces(pb[2..]))
    ensures Pairs(pb)[1..] == Pairs(SkipSpaces(pb[2..]))
  {
  }

  /** Pair k contains letter c. */
  predicate InPair(ps: seq<(char, char)>, k: int, c: char)
    requires 0 <= k < |ps|
  {
    c == ps[k].0 || c == ps[k].1
  }

  /** The other letter of pair k. */
  function Partner(ps: seq<(char, char)>, k: int, c: char): char
    requires 0 <= k < |ps|
  {
    if c == ps[k].0 then ps[k].1 else ps[k].0
  }

  /** Every letter on the plugboard is plugged at most once. */
  ghost predicate DisjointPairs(ps: seq<(char, char)>)
  {
    && (forall k | 0 <= k < |ps| :: ps[k].0 != ps[k].1)
    && (forall i, j | 0 <= i < j < |ps| ::
          !InPair(ps, j, ps[i].0) && !InPair(ps, j, ps[i].1))
  }

  /**
   * `apply_plugboard`. The empty string returns c at once; otherwise each
   * pair is checked, first letter then second, and the scan moves on past
   * the pair and the spaces after it. (The source's extra test that the
   * second letter is not the terminator always holds for a well-formed
   * string.)
   */
  function ApplyPlugboard(c: char, pb: string): (r: char)
    requires WellFormed(pb)
    ensures IsUpper(c) ==> IsUpper(r)
    decreases |pb|
  {
    if pb == [] then c
    else if c == pb[0] then pb[1]
    else if c == pb[1] then pb[0]
    else ApplyPlugboard(c, SkipSpaces(pb[2..]))
  }

  /** With no pairs configured the plugboard changes nothing. */
  lemma EmptyPlugboardIsIdentity(c: char)
    ensures WellFormed("") && ApplyPlugboard(c, "") == c
  {
  }

  /** A letter that is in no pair goes through unchanged. */
  lemma {:induction false} UnpluggedLetterUnchanged(c: char, pb: string)
    requires WellFormed(pb)
    requires forall k | 0 <= k < |Pairs(pb)| :: !InPair(Pairs(pb), k, c)
    ensures ApplyPlugboard(c, pb) == c
    decreases |pb|
  {
    if pb != [] {
      var rest := SkipSpaces(pb[2..]);
      var ps := Pairs(pb);
      PairsTail(pb);
      assert !InPair(ps, 0, c);
      forall k | 0 <= k < |Pairs(rest)| ensures !InPair(Pairs(rest), k, c) {
        assert !InPair(ps, k + 1, c);
      }
      UnpluggedLetterUnchanged(c, rest);
    }
  }

  /** The first pair that contains a letter swaps it with its partner. */
  lemma {:induction false} FirstPairSwaps(c: char, pb: string, k: int)
    requires WellFormed(pb)
    requires 0 <= k < |Pairs(pb)| && InPair(Pairs(pb), k, c)
    requires forall j | 0 <= j < k :: !InPair(Pairs(pb), j, c)
    ensures ApplyPlugboard(c, pb) == Partner(Pairs(pb), k, c)
    decreases |pb|
  {
    var ps := Pairs(pb);
    var rest := SkipSpaces(pb[2..]);
    PairsTail(pb);
    if k == 0 {
      assert ps[0] == (pb[0], pb[1]);
    } else {
      assert !InPair(ps, 0, c);
      assert ApplyPlugboard(c, pb) == ApplyPlugboard(c, rest);
      forall j | 0 <= j < k - 1 ensures !InPair(Pairs(rest), j, c) {
        assert !InPair(ps, j + 1, c);
      }
      FirstPairSwaps(c, rest, k - 1);
      assert ps[k] == Pairs(rest)[k - 1];
    }
  }

  /** With every letter plugged at most once the plugboard is its own inverse. */
  lemma PlugboardInvolution(c: char, pb: string)
    requires WellFormed(pb) && DisjointPairs(Pairs(pb))
    ensures ApplyPlugboard(ApplyPlugboard(c, pb), pb) == c
  {
    var ps := Pairs(pb);
    if k :| 0 <= k < |ps| && InPair(ps, k, c) {
      forall j | 0 <= j < k ensures !InPair(ps, j, c) {
        assert !InPair(ps, k, ps[j].0) && !InPair(ps, k, ps[j].1);
      }
      FirstPairSwaps(c, pb, k);
      var d := Partner(ps, k, c);
      forall j | 0 <= j < k ensures !InPair(ps, j, d) {
        assert !InPair(ps, k, ps[j].0) && !InPair(ps, k, ps[j].1);
      }
      FirstPairSwaps(d, pb, k);
    } else {
      UnpluggedLetterUnchanged(c, pb);
      UnpluggedLetterUnchanged(c, pb);
    }
  }

  /**
   * The scan does not reject a letter plugged twice: with "AB AC", C becomes A
   * but A becomes B, so the plugboard is no longer its own inverse.
   */
  lemma OverlappingPairsBreakInvolution()
    ensures WellFormed("AB AC")
    ensures ApplyPlugboard('C', "AB AC") == 'A'
    ensures ApplyPlugboard(ApplyPlugboard('C', "AB AC"), "AB AC") == 'B'
  {
    var pb := "AB AC";
    assert pb[2..] == " AC";
    assert SkipSpaces(" AC") == "AC";
    assert "AC"[2..] == [];
    assert WellFormed("AC");
  }
}
