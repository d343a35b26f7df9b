/** The string functions of the Go standard library that the service relies on:
    TrimSpace, Fields, EqualFold, ToUpper, HasPrefix and HasSuffix. */
module Text {

  /** Unicode White_Space, as unicode.IsSpace tests it. */
  predicate IsSpace(c: char) {
    var n := c as int;
    || 0x09 <= n <= 0x0D || n == 0x20 || n == 0x85 || n == 0xA0 || n == 0x1680
    || 0x2000 <= n <= 0x200A || n == 0x2028 || n == 0x2029 || n == 0x202F || n == 0x205F || n == 0x3000
  }

  /** The white space within Latin-1, character by character: tab, line feed, vertical tab, form feed, carriage return,
      space, next line and no-break space. */
  lemma SpaceCharacters(c: char)
    requires c as int < 256
    ensures IsSpace(c) <==> c in "\t\n\U{000B}\U{000C}\r \U{0085}\U{00A0}"
  {
  }

  predicate AllSpace(s: string) {
    forall i :: 0 <= i < |s| ==> IsSpace(s[i])
  }

  /** Nothing to trim at either end. */
  predicate Trimmed(s: string) {
    s != "" ==> !IsSpace(s[0]) && !IsSpace(s[|s| - 1])
  }

  /** A field: not empty and without white space. */
  predicate IsWord(s: string) {
    s != "" && forall i :: 0 <= i < |s| ==> !IsSpace(s[i])
  }

  function TrimLeft(s: string): (r: string)
    ensures |r| <= |s|
  {
    if s != "" && IsSpace(s[0]) then TrimLeft(s[1..]) else s
  }

  function TrimRight(s: string): string {
    if s != "" && IsSpace(s[|s| - 1]) then TrimRight(s[..|s| - 1]) else s
  }

  function TrimSpace(s: string): string {
    TrimRight(TrimLeft(s))
  }

  lemma {:induction false} TrimLeftSplits(s: string)
    ensures var r := TrimLeft(s);
      && r == s[|s| - |r|..] && AllSpace(s[..|s| - |r|])
      && (r != "" ==> !IsSpace(r[0]))
  {
    if s != "" && IsSpace(s[0]) {
      TrimLeftSplits(s[1..]);
      var r := TrimLeft(s);
      assert s[..|s| - |r|] == [s[0]] + s[1..][..|s| - 1 - |r|];
    }
  }

  lemma {:induction false} TrimRightSplits(s: string)
    ensures var r := TrimRight(s);
      && |r| <= |s| && r == s[..|r|] && AllSpace(s[|r|..])
      && (r != "" ==> !IsSpace(r[|r| - 1]))
  {
    if s != "" && IsSpace(s[|s| - 1]) {
      TrimRightSplits(s[..|s| - 1]);
      var r := TrimRight(s);
      assert s[|r|..] == s[..|s| - 1][|r|..] + [s[|s| - 1]];
    }
  }

  lemma {:induction false} TrimLeftSkips(w: string, s: string)
    requires AllSpace(w)
    ensures TrimLeft(w + s) == TrimLeft(s)
  {
    if w == "" {
      assert w + s == s;
    } else {
      assert (w + s)[1..] == w[1..] + s;
      TrimLeftSkips(w[1..], s);
    }
  }

  lemma {:induction false} TrimRightSkips(s: string, w: string)
    requires AllSpace(w)
    ensures TrimRight(s + w) == TrimRight(s)
  {
    if w == "" {
      assert s + w == s;
    } else {
      assert (s + w)[..|s + w| - 1] == s + w[..|w| - 1];
      TrimRightSkips(s, w[..|w| - 1]);
    }
  }

  /** `s` is `t` between two stretches of white space. */
  ghost predicate Pads(s: string, t: string) {
    exists before, after :: Around(s, before, t, after)
  }

  ghost predicate Around(s: string, before: string, t: string, after: string) {
    AllSpace(before) && AllSpace(after) && s == before + t + after
  }

  lemma TrimSpaceUndoesPadding(before: string, t: string, after: string)
    requires AllSpace(before) && AllSpace(after) && Trimmed(t)
    ensures TrimSpace(before + t + after) == t
  {
    assert before + t + after == before + (t + after);
    TrimLeftSkips(before, t + after);
    if t == "" {
      assert t + after == after + "";
      TrimLeftSkips(after, "");
    } else {
      assert TrimLeft(t + after) == t + after;
      TrimRightSkips(t, after);
    }
  }

  lemma TrimSpacePads(s: string)
    ensures Pads(s, TrimSpace(s)) && Trimmed(TrimSpace(s))
  {
    TrimLeftSplits(s);
    var left := TrimLeft(s);
    TrimRightSplits(left);
    var t := TrimSpace(s);
    var before, after := s[..|s| - |left|], left[|t|..];
    assert left == t + after;
    assert s == before + left == before + t + after;
    assert Around(s, before, t, after);
  }

  /** TrimSpace answers the one trimmed text that `s` pads. */
  lemma TrimSpaceExact(s: string, t: string)
    ensures TrimSpace(s) == t <==> Trimmed(t) && Pads(s, t)
  {
    TrimSpacePads(s);
    if Trimmed(t) && Pads(s, t) {
      var before, after :| Around(s, before, t, after);
      TrimSpaceUndoesPadding(before, t, after);
    }
  }

  lemma TrimSpaceIdempotent(s: string)
    ensures TrimSpace(TrimSpace(s)) == TrimSpace(s)
  {
    TrimSpacePads(s);
    var t := TrimSpace(s);
    assert t == "" + t + "";
    TrimSpaceUndoesPadding("", t, "");
  }

  lemma TrimSpaceBlank(s: string)
    ensures TrimSpace(s) == "" <==> AllSpace(s)
  {
    if AllSpace(s) {
      assert s == s + "" + "";
      TrimSpaceUndoesPadding(s, "", "");
    }
    if TrimSpace(s) == "" {
      TrimSpacePads(s);
      var before, after :| Around(s, before, "", after);
    }
  }

  /** Length of the longest prefix without white space. */
  function WordLength(s: string): (n: nat)
    ensures n <= |s|
    ensures forall i :: 0 <= i < n ==> !IsSpace(s[i])
    ensures n < |s| ==> IsSpace(s[n])
  {
    if s == "" || IsSpace(s[0]) then 0 else 1 + WordLength(s[1..])
  }

  /** strings.Fields: the maximal runs of characters that are not white space. */
  function Fields(s: string): (words: seq<string>)
    ensures forall i :: 0 <= i < |words| ==> IsWord(words[i])
    decreases |s|
  {
    var rest := TrimLeft(s);
    if rest == "" then
      []
    else
      TrimLeftSplits(s);
      var n := WordLength(rest);
      [rest[..n]] + Fields(rest[n..])
  }

  lemma FieldsOfBlank(s: string)
    ensures Fields(s) == [] <==> AllSpace(s)
  {
    TrimLeftSplits(s);
    if AllSpace(s) {
      assert s == s + "";
      TrimLeftSkips(s, "");
    }
  }

  lemma {:induction false} WordLengthIs(a: string, rest: string)
    requires forall i :: 0 <= i < |a| ==> !IsSpace(a[i])
    requires rest != "" ==> IsSpace(rest[0])
    ensures WordLength(a + rest) == |a|
  {
    if a == "" {
      assert a + rest == rest;
    } else {
      assert (a + rest)[1..] == a[1..] + rest;
      WordLengthIs(a[1..], rest);
    }
  }

  lemma FieldsFirst(w: string, a: string, rest: string)
    requires AllSpace(w) && IsWord(a)
    requires rest != "" ==> IsSpace(rest[0])
    ensures Fields(w + a + rest) == [a] + Fields(rest)
  {
    assert w + a + rest == w + (a + rest);
    TrimLeftSkips(w, a + rest);
    assert TrimLeft(w + a + rest) == a + rest;
    WordLengthIs(a, rest);
    assert (a + rest)[..|a|] == a && (a + rest)[|a|..] == rest;
  }

  lemma Glue(s: string, k: nat, n: nat)
    requires k <= |s| && n <= |s| - k
    ensures s == s[..k] + s[k..][..n] + s[k..][n..]
  {
  }

  /** How Fields sees the first word of a text that has one. */
  lemma FieldsSplit(s: string) returns (w: string, rest: string)
    requires Fields(s) != []
    ensures AllSpace(w) && s == w + Fields(s)[0] + rest
    ensures rest != "" ==> IsSpace(rest[0])
    ensures Fields(s)[1..] == Fields(rest)
  {
    TrimLeftSplits(s);
    var left := TrimLeft(s);
    var n := WordLength(left);
    w, rest := s[..|s| - |left|], left[n..];
    var word := left[..n];
    assert Fields(s) == [word] + Fields(rest);
    Glue(s, |w|, n);
  }

  /** White space, `a`, at least one white space, `b`, white space. */
  ghost predicate TwoWords(s: string, a: string, b: string) {
    exists w0, w1, w2 :: Spaced(s, w0, a, w1, b, w2)
  }

  ghost predicate Spaced(s: string, w0: string, a: string, w1: string, b: string, w2: string) {
    AllSpace(w0) && AllSpace(w1) && w1 != "" && AllSpace(w2) && s == w0 + a + (w1 + b + w2)
  }

  lemma FieldsTwoSplit(s: string, a: string, b: string)
    requires Fields(s) == [a, b]
    ensures TwoWords(s, a, b)
  {
    var w0, rest := FieldsSplit(s);
    assert Fields(rest) == [b];
    assert IsWord(Fields(rest)[0]);
    var w1, w2 := FieldsSplit(rest);
    assert Fields(w2) == [];
    FieldsOfBlank(w2);
    assert (b + w2)[0] == b[0];
    assert w1 == "" ==> w1 + b + w2 == b + w2;
    assert Spaced(s, w0, a, w1, b, w2);
  }

  /** Fields yields exactly two words when, and only when, the text is those two words set apart by white space. */
  lemma FieldsTwo(s: string, a: string, b: string)
    ensures Fields(s) == [a, b] <==> IsWord(a) && IsWord(b) && TwoWords(s, a, b)
  {
    if Fields(s) == [a, b] {
      assert IsWord(Fields(s)[0]) && IsWord(Fields(s)[1]);
      FieldsTwoSplit(s, a, b);
    }
    if IsWord(a) && IsWord(b) && TwoWords(s, a, b) {
      var w0, w1, w2 :| Spaced(s, w0, a, w1, b, w2);
      FieldsFirst(w0, a, w1 + b + w2);
      FieldsFirst(w1, b, w2);
      FieldsOfBlank(w2);
    }
  }

  /** Case folding as far as it can reach an ASCII letter: the long s and the Kelvin sign are the only
      characters outside ASCII whose simple folding orbit holds one. */
  function Fold(c: char): char {
    if 'A' <= c <= 'Z' then (c as int + 32) as char
    else if c == '\U{017F}' then 's'
    else if c == '\U{212A}' then 'k'
    else c
  }

  /** strings.EqualFold against an ASCII text. */
  predicate EqualFold(s: string, ascii: string) {
    |s| == |ascii| && forall i :: 0 <= i < |s| ==> Fold(s[i]) == Fold(ascii[i])
  }

  /** The same ASCII letter in either case, or the same character. */
  predicate SameLetter(c: char, d: char) {
    || c == d
    || ('A' <= c <= 'Z' && d as int == c as int + 32)
    || ('A' <= d <= 'Z' && c as int == d as int + 32)
  }

  predicate Ascii(s: string) {
    forall i :: 0 <= i < |s| ==> s[i] as int < 128
  }

  /** Between ASCII texts, EqualFold means: letter by letter the same in either case. */
  lemma EqualFoldLetters(s: string, t: string)
    requires Ascii(s) && Ascii(t)
    ensures EqualFold(s, t) <==> |s| == |t| && forall i :: 0 <= i < |s| ==> SameLetter(s[i], t[i])
  {
    forall i | 0 <= i < |s| && |s| == |t| ensures Fold(s[i]) == Fold(t[i]) <==> SameLetter(s[i], t[i]) {
      assert s[i] as int < 128 && t[i] as int < 128;
    }
  }

  /** Upper case of ASCII letters and of the two other characters whose upper case is an ASCII letter. */
  function UpperChar(c: char): char {
    if 'a' <= c <= 'z' then (c as int - 32) as char
    else if c == '\U{017F}' then 'S'
    else if c == '\U{0131}' then 'I'
    else c
  }

  function ToUpper(s: string): (r: string)
    ensures |r| == |s|
  {
    seq(|s|, i requires 0 <= i < |s| => UpperChar(s[i]))
  }

  /** Two ASCII texts have the same upper case exactly when they are the same letters in either case. */
  lemma ToUpperLetters(s: string, t: string)
    requires Ascii(s) && Ascii(t)
    ensures ToUpper(s) == ToUpper(t) <==> |s| == |t| && forall i :: 0 <= i < |s| ==> SameLetter(s[i], t[i])
  {
    if |s| == |t| {
      forall i | 0 <= i < |s|
        ensures ToUpper(s)[i] == ToUpper(t)[i] <==> SameLetter(s[i], t[i])
      {
        assert s[i] as int < 128 && t[i] as int < 128;
      }
      if ToUpper(s) == ToUpper(t) {
        forall i | 0 <= i < |s| ensures SameLetter(s[i], t[i]) {
          assert ToUpper(s)[i] == ToUpper(t)[i];
        }
      }
    }
  }

  /** Upper case has no lower-case letter, and changes no text that has none. */
  lemma ToUpperIsUpper(s: string)
    requires Ascii(s)
    ensures forall i :: 0 <= i < |s| ==> !('a' <= ToUpper(s)[i] <= 'z') && SameLetter(ToUpper(s)[i], s[i])
  {
    forall i | 0 <= i < |s| ensures !('a' <= ToUpper(s)[i] <= 'z') && SameLetter(ToUpper(s)[i], s[i]) {
      assert s[i] as int < 128;
    }
  }

  /** Upper-casing neither makes nor removes white space. */
  lemma ToUpperBlank(s: string)
    ensures AllSpace(ToUpper(s)) <==> AllSpace(s)
  {
    var r := ToUpper(s);
    assert forall i :: 0 <= i < |s| ==> r[i] == UpperChar(s[i]) && (IsSpace(r[i]) <==> IsSpace(s[i]));
    if AllSpace(r) {
      forall i | 0 <= i < |s| ensures IsSpace(s[i]) { assert IsSpace(r[i]); }
    }
  }

  predicate HasPrefix(s: string, prefix: string) {
    prefix <= s
  }

  predicate HasSuffix(s: string, suffix: string) {
    |suffix| <= |s| && s[|s| - |suffix|..] == suffix
  }
}
