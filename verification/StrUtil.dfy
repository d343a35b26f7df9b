/** The key normaliser that account creation and login share. */
module StrUtil {

  predicate IsDigit(c: char) {
    '0' <= c <= '9'
  }

  predicate AllDigits(s: string) {
    forall i :: 0 <= i < |s| ==> IsDigit(s[i])
  }

  /** The digits of `s`, in order. */
  function DigitsOf(s: string): (r: string)
    ensures AllDigits(r)
    ensures |r| <= |s|
  {
    if s == "" then ""
    else if IsDigit(s[|s| - 1]) then DigitsOf(s[..|s| - 1]) + [s[|s| - 1]]
    else DigitsOf(s[..|s| - 1])
  }

  /** The digits are the ten ASCII digits. */
  lemma TheDigits(c: char)
    ensures DigitsOf([c]) == if c in "0123456789" then [c] else ""
  {
    assert [c][..0] == "";
  }

  method OnlyNumbers(s: string) returns (res: string)
    ensures res == DigitsOf(s)
  {
    res := "";
    for i := 0 to |s|
      invariant res == DigitsOf(s[..i])
    {
      assert s[..i + 1][..i] == s[..i];
      if '0' <= s[i] <= '9' {
        res := res + [s[i]];
      }
    }
    assert s[..|s|] == s;
  }

  lemma {:induction false} DigitsOfConcat(s: string, t: string)
    ensures DigitsOf(s + t) == DigitsOf(s) + DigitsOf(t)
  {
    if t == "" {
      assert s + t == s;
    } else {
      var front := t[..|t| - 1];
      assert (s + t)[..|s + t| - 1] == s + front;
      DigitsOfConcat(s, front);
    }
  }

  /** Exactly the digit-only texts are left as they are. */
  lemma {:induction false} DigitsOfFixes(s: string)
    ensures DigitsOf(s) == s <==> AllDigits(s)
  {
    if s != "" {
      var front := s[..|s| - 1];
      DigitsOfFixes(front);
      assert s == front + [s[|s| - 1]];
    }
  }

  lemma DigitsOfIdempotent(s: string)
    ensures DigitsOf(DigitsOf(s)) == DigitsOf(s)
  {
    DigitsOfFixes(DigitsOf(s));
  }

  /** No digit is lost, moved past another or made up: the k-th character of the answer is the character
      of `s` at some position, and these positions are increasing and are all the positions of digits. */
  lemma {:induction false} DigitsOfIsTheFilter(s: string) returns (at: seq<nat>)
    ensures |at| == |DigitsOf(s)|
    ensures forall k :: 0 <= k < |at| ==> at[k] < |s| && s[at[k]] == DigitsOf(s)[k]
    ensures forall j, k :: 0 <= j < k < |at| ==> at[j] < at[k]
    ensures forall i: nat :: i < |s| && IsDigit(s[i]) ==> i in at
  {
    if s == "" {
      at := [];
    } else {
      var front := s[..|s| - 1];
      at := DigitsOfIsTheFilter(front);
      if IsDigit(s[|s| - 1]) {
        at := at + [|s| - 1];
      }
    }
  }
}
