/** The string operations the text stores are written with. Characters are
    Unicode scalar values; lower-casing touches ASCII letters only. */
module Text {
  import opened Common

  /** Rust's `char::is_whitespace` (the Unicode White_Space property). */
  predicate IsSpace(c: char) {
    var n := c as int;
    || 0x09 <= n <= 0x0D || n == 0x20 || n == 0x85 || n == 0xA0 || n == 0x1680
    || 0x2000 <= n <= 0x200A || n == 0x2028 || n == 0x2029 || n == 0x202F || n == 0x205F || n == 0x3000
  }

  predicate NoSpace(s: string) {
    forall c <- s :: !IsSpace(c)
  }

  function TrimStart(s: string): (r: string)
    ensures |r| <= |s|
  {
    if s != "" && IsSpace(s[0]) then TrimStart(s[1..]) else s
  }

  function TrimEnd(s: string): (r: string)
    ensures |r| <= |s|
  {
    if s != "" && IsSpace(s[|s| - 1]) then TrimEnd(s[..|s| - 1]) else s
  }

  function Trim(s: string): string {
    TrimEnd(TrimStart(s))
  }

  function LowerChar(c: char): char {
    if 'A' <= c <= 'Z' then (c as int + 32) as char else c
  }

  function Lower(s: string): (r: string)
    ensures |r| == |s|
  {
    seq(|s|, i requires 0 <= i < |s| => LowerChar(s[i]))
  }

  lemma LowerIdempotent(s: string)
    ensures Lower(Lower(s)) == Lower(s)
  {
  }

  /** Length of the longest prefix of `s` without whitespace. */
  function WordLen(s: string): (n: nat)
    ensures n <= |s|
    ensures NoSpace(s[..n])
    ensures n < |s| ==> IsSpace(s[n])
  {
    if s == "" || IsSpace(s[0]) then 0
    else
      var n := 1 + WordLen(s[1..]);
      assert s[..n] == [s[0]] + s[1..][..n - 1];
      n
  }

  /** `split_whitespace`. */
  function Words(s: string): seq<string>
    decreases |s|
  {
    if s == "" then []
    else if IsSpace(s[0]) then Words(s[1..])
    else [s[..WordLen(s)]] + Words(s[WordLen(s)..])
  }

  /** Length of the text before the first newline. */
  function LineLen(s: string): (n: nat)
    ensures n <= |s|
    ensures '\n' !in s[..n]
    ensures n < |s| ==> s[n] == '\n'
  {
    if s == "" || s[0] == '\n' then 0
    else
      var n := 1 + LineLen(s[1..]);
      assert s[..n] == [s[0]] + s[1..][..n - 1];
      n
  }

  function StripCr(s: string): string {
    if s != "" && s[|s| - 1] == '\r' then s[..|s| - 1] else s
  }

  /** `str::lines`: the last line ending is optional and a final `\r` belongs to it. */
  function Lines(s: string): seq<string>
    decreases |s|
  {
    if s == "" then []
    else
      var n := LineLen(s);
      if n == |s| then [s] else [StripCr(s[..n])] + Lines(s[n + 1..])
  }

  function Join(parts: seq<string>, sep: string): string {
    if parts == [] then "" else if |parts| == 1 then parts[0] else parts[0] + sep + Join(parts[1..], sep)
  }

  /** Every line followed by a newline. */
  function Unlines(ls: seq<string>): string {
    if ls == [] then "" else ls[0] + "\n" + Unlines(ls[1..])
  }

  /** `str::contains`. */
  predicate StartsWith(s: string, pat: string) {
    |pat| <= |s| && s[..|pat|] == pat
  }

  predicate Contains(s: string, pat: string) {
    StartsWith(s, pat) || (s != "" && Contains(s[1..], pat))
  }

  // -------------------------------------------------------------------- lemmas

  /** `Contains` finds an occurrence exactly when there is one. */
  lemma {:induction false} ContainsIff(s: string, pat: string)
    ensures Contains(s, pat) <==> exists i: nat :: i <= |s| && StartsWith(s[i..], pat)
  {
    if StartsWith(s, pat) {
      assert s[0..] == s;
      assert StartsWith(s[0..], pat);
    } else if s == "" {
      forall i: nat | i <= |s| ensures !StartsWith(s[i..], pat) {
        assert s[i..] == s;
      }
    } else {
      ContainsIff(s[1..], pat);
      if Contains(s[1..], pat) {
        var i: nat :| i <= |s[1..]| && StartsWith(s[1..][i..], pat);
        assert s[1..][i..] == s[i + 1..];
        assert StartsWith(s[i + 1..], pat);
      }
      forall i: nat | i <= |s| && StartsWith(s[i..], pat) ensures Contains(s[1..], pat) {
        if i > 0 {
          assert s[1..][i - 1..] == s[i..];
        }
      }
    }
  }

  lemma ContainedAfter(a: string, pat: string, b: string)
    ensures Contains(a + (pat + b), pat)
  {
    var s := a + (pat + b);
    ContainsIff(s, pat);
    assert s[|a|..] == pat + b && (pat + b)[..|pat|] == pat;
    assert StartsWith(s[|a|..], pat);
  }

  predicate TrimFixed(s: string) {
    s != "" ==> !IsSpace(s[0]) && !IsSpace(s[|s| - 1])
  }

  lemma TrimId(s: string)
    requires TrimFixed(s)
    ensures Trim(s) == s
  {
  }

  /** A leading space-free word is the first word. */
  lemma {:induction false} WordLenOf(w: string, rest: string)
    requires NoSpace(w) && (rest != "" ==> IsSpace(rest[0]))
    ensures WordLen(w + rest) == |w|
  {
    if w == "" {
      assert w + rest == rest;
    } else {
      assert (w + rest)[1..] == w[1..] + rest;
      WordLenOf(w[1..], rest);
    }
  }

  lemma WordsCons(w: string, rest: string)
    requires w != "" && NoSpace(w) && (rest != "" ==> IsSpace(rest[0]))
    ensures Words(w + rest) == [w] + Words(rest)
  {
    WordLenOf(w, rest);
    assert (w + rest)[..|w|] == w && (w + rest)[|w|..] == rest;
    assert (w + rest)[0] == w[0];
  }

  lemma WordsSpace(rest: string)
    ensures Words(" " + rest) == Words(rest)
  {
    assert (" " + rest)[1..] == rest;
  }

  lemma LastWord(w: string)
    requires w != "" && NoSpace(w)
    ensures Words(w) == [w]
  {
    assert w + "" == w;
    WordsCons(w, "");
    assert Words("") == [];
  }

  lemma NextWord(w: string, rest: string)
    requires w != "" && NoSpace(w)
    ensures Words(w + " " + rest) == [w] + Words(rest)
  {
    assert w + " " + rest == w + (" " + rest);
    WordsCons(w, " " + rest);
    WordsSpace(rest);
  }

  lemma ThreeWords(a: string, b: string, c: string)
    requires a != "" && b != "" && c != "" && NoSpace(a) && NoSpace(b) && NoSpace(c)
    ensures Words(a + " " + (b + " " + c)) == [a, b, c]
  {
    NextWord(a, b + " " + c);
    NextWord(b, c);
    LastWord(c);
  }

  /** No word holds whitespace, and none is empty. */
  lemma {:induction false} WordsAreWords(s: string)
    ensures forall w <- Words(s) :: w != "" && NoSpace(w)
    decreases |s|
  {
    if s == "" {
    } else if IsSpace(s[0]) {
      WordsAreWords(s[1..]);
    } else {
      WordsAreWords(s[WordLen(s)..]);
    }
  }

  lemma {:induction false} LineLenOf(l: string, rest: string)
    requires '\n' !in l
    ensures LineLen(l + "\n" + rest) == |l|
  {
    if l == "" {
      assert l + "\n" + rest == "\n" + rest;
    } else {
      assert (l + "\n" + rest)[1..] == l[1..] + "\n" + rest;
      LineLenOf(l[1..], rest);
    }
  }

  lemma LinesCons(l: string, rest: string)
    requires '\n' !in l
    ensures Lines(l + "\n" + rest) == [StripCr(l)] + Lines(rest)
  {
    var s := l + "\n" + rest;
    LineLenOf(l, rest);
    assert s[..|l|] == l && s[|l| + 1..] == rest;
  }

  /** A line that survives being written and read back. */
  predicate IsLine(l: string) {
    '\n' !in l && StripCr(l) == l
  }

  lemma {:induction false} LinesUnlines(ls: seq<string>, rest: string)
    requires forall l <- ls :: IsLine(l)
    ensures Lines(Unlines(ls) + rest) == ls + Lines(rest)
  {
    if ls == [] {
      assert Unlines(ls) + rest == rest;
    } else {
      assert IsLine(ls[0]) by { assert ls[0] in ls; }
      Assoc(ls[0] + "\n", Unlines(ls[1..]), rest);
      LinesCons(ls[0], Unlines(ls[1..]) + rest);
      LinesUnlines(ls[1..], rest);
      Assoc([ls[0]], ls[1..], Lines(rest));
      assert ls == [ls[0]] + ls[1..];
    }
  }

  lemma {:induction false} JoinUnlines(ls: seq<string>)
    ensures Join(ls + [""], "\n") == Unlines(ls)
  {
    if ls != [] {
      assert (ls + [""])[1..] == ls[1..] + [""];
      JoinUnlines(ls[1..]);
    }
  }

  predicate EndsLine(s: string) {
    s == "" || s[|s| - 1] == '\n'
  }

  /** Text that ends with a newline splits where other text is appended to it. */
  lemma {:induction false} LinesAppend(s: string, rest: string)
    requires EndsLine(s)
    ensures Lines(s + rest) == Lines(s) + Lines(rest)
    decreases |s|
  {
    if s == "" {
      assert s + rest == rest;
    } else {
      var l, more := FirstLine(s);
      LinesAppend(more, rest);
      LinesCons(l, more);
      Assoc(l + "\n", more, rest);
      LinesCons(l, more + rest);
      Assoc([StripCr(l)], Lines(more), Lines(rest));
    }
  }

  lemma FirstLine(s: string) returns (l: string, more: string)
    requires s != "" && EndsLine(s)
    ensures s == l + "\n" + more && '\n' !in l && EndsLine(more)
  {
    var n := LineLen(s);
    assert n < |s| by {
      assert s[|s| - 1] in s && s[..|s|] == s;
    }
    l, more := s[..n], s[n + 1..];
    if more != "" {
      assert more[|more| - 1] == s[|s| - 1];
    }
  }
}
