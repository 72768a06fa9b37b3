/** What the string operations do, told on characters and positions alone. */
module TextLaws {
  import opened Common
  import opened Text

  /** The code points of the Unicode White_Space property. */
  const SPACES: set<int> := {9, 10, 11, 12, 13, 32, 133, 160, 5760, 8192, 8193, 8194, 8195, 8196, 8197, 8198, 8199,
                             8200, 8201, 8202, 8232, 8233, 8239, 8287, 12288}

  lemma SpaceIff(c: char)
    ensures IsSpace(c) <==> c as int in SPACES
  {
  }

  /** Lower-casing: letter by letter, and nothing but the 26 letters. */
  lemma LowerExact(s: string)
    ensures |Lower(s)| == |s|
    ensures forall i :: 0 <= i < |s| ==>
      if 'A' <= s[i] <= 'Z' then Lower(s)[i] as int == s[i] as int + 32 else Lower(s)[i] == s[i]
    ensures Lower("ABCDEFGHIJKLMNOPQRSTUVWXYZ") == "abcdefghijklmnopqrstuvwxyz"
  {
  }

  predicate All(p: char -> bool, s: string) {
    forall c <- s :: p(c)
  }

  /** All in front of `i` and from `j` on is in the class, and what lies between begins and
      ends with a character that is not. */
  predicate Cut(p: char -> bool, s: string, i: nat, j: nat) {
    && i <= j <= |s|
    && All(p, s[..i]) && All(p, s[j..])
    && (i < j ==> !p(s[i]) && !p(s[j - 1]))
  }

  /** `t` is what `s` holds between its outermost characters that are not in the class. */
  ghost predicate Inside(p: char -> bool, s: string, t: string) {
    exists i: nat, j: nat :: Cut(p, s, i, j) && s[i..j] == t
  }

  lemma {:induction false} StartCut(s: string) returns (i: nat)
    ensures i <= |s| && TrimStart(s) == s[i..] && All(IsSpace, s[..i])
    ensures TrimStart(s) != "" ==> !IsSpace(TrimStart(s)[0])
  {
    if s != "" && IsSpace(s[0]) {
      i := StartCut(s[1..]);
      assert s[..i + 1] == [s[0]] + s[1..][..i] && s[1..][i..] == s[i + 1..];
      i := i + 1;
    } else {
      i := 0;
      assert s[..0] == "" && s[0..] == s;
    }
  }

  lemma {:induction false} EndCut(s: string) returns (j: nat)
    ensures j <= |s| && TrimEnd(s) == s[..j] && All(IsSpace, s[j..])
    ensures TrimEnd(s) != "" ==> !IsSpace(TrimEnd(s)[|TrimEnd(s)| - 1])
  {
    if s != "" && IsSpace(s[|s| - 1]) {
      j := EndCut(s[..|s| - 1]);
      assert s[j..] == s[..|s| - 1][j..] + [s[|s| - 1]];
      assert s[..|s| - 1][..j] == s[..j];
    } else {
      j := |s|;
      assert s[j..] == "" && s[..j] == s;
    }
  }

  lemma TrimInside(s: string)
    ensures Inside(IsSpace, s, Trim(s))
  {
    var i := StartCut(s);
    var t := TrimStart(s);
    var j := EndCut(t);
    assert s[i..i + j] == t[..j] == Trim(s);
    assert s[i + j..] == t[j..];
    if j > 0 {
      assert t[..j][0] == s[i] && t[..j][j - 1] == s[i + j - 1];
    }
    assert Cut(IsSpace, s, i, i + j);
  }

  /** The inside of a text is one. */
  lemma InsideOnce(p: char -> bool, s: string, t: string, u: string)
    requires Inside(p, s, t) && Inside(p, s, u)
    ensures t == u
  {
    var i: nat, j: nat :| Cut(p, s, i, j) && s[i..j] == t;
    var k: nat, l: nat :| Cut(p, s, k, l) && s[k..l] == u;
    CutOnce(p, s, i, j, k, l);
  }

  lemma CutOnce(p: char -> bool, s: string, i: nat, j: nat, k: nat, l: nat)
    requires Cut(p, s, i, j) && Cut(p, s, k, l)
    ensures (i == k && j == l) || (i == j && k == l)
  {
    if i < j {
      Between(p, s, k, l, i);
      Between(p, s, k, l, j - 1);
    }
    if k < l {
      Between(p, s, i, j, k);
      Between(p, s, i, j, l - 1);
    }
  }

  lemma Between(p: char -> bool, s: string, i: nat, j: nat, k: nat)
    requires Cut(p, s, i, j) && k < |s| && !p(s[k])
    ensures i <= k < j
  {
    InFront(p, s, i, k);
    Behind(p, s, j, k);
  }

  lemma InFront(p: char -> bool, s: string, i: nat, k: nat)
    requires i <= |s| && All(p, s[..i])
    ensures k < i ==> p(s[k])
  {
    assert k < i ==> s[..i][k] in s[..i];
  }

  lemma Behind(p: char -> bool, s: string, j: nat, k: nat)
    requires j <= |s| && All(p, s[j..])
    ensures j <= k < |s| ==> p(s[k])
  {
    assert j <= k < |s| ==> s[j..][k - j] in s[j..];
  }

  /** `trim`: exactly the inside. */
  lemma TrimIff(s: string, t: string)
    ensures Trim(s) == t <==> Inside(IsSpace, s, t)
  {
    TrimInside(s);
    if Inside(IsSpace, s, t) {
      InsideOnce(IsSpace, s, t, Trim(s));
    }
  }

  /** `split_whitespace`, on every text: spaces in front are passed over, whichever they
      are, and a word ends at the first of them. */
  lemma WordsExact(c: char, w: string, rest: string)
    requires IsSpace(c) && w != "" && NoSpace(w)
    ensures Words("") == []
    ensures Words([c] + rest) == Words(rest)
    ensures Words(w) == [w]
    ensures Words(w + ([c] + rest)) == [w] + Words(rest)
  {
    assert ([c] + rest)[1..] == rest;
    LastWord(w);
    WordsCons(w, [c] + rest);
  }

  /** `lines`, on every text: a line ends at a line feed, which takes one carriage return
      in front of it along; the last line needs none and keeps its own. */
  lemma LinesExact(l: string, rest: string)
    requires '\n' !in l
    ensures Lines("") == []
    ensures l != "" ==> Lines(l) == [l]
    ensures Lines(l + "\r" + "\n" + rest) == [l] + Lines(rest)
    ensures (l == "" || l[|l| - 1] != '\r') ==> Lines(l + "\n" + rest) == [l] + Lines(rest)
  {
    LinesCons(l, rest);
    LinesCons(l + "\r", rest);
    assert (l + "\r")[..|l|] == l;
    if l != "" {
      WholeLine(l);
    }
  }

  lemma {:induction false} WholeLine(l: string)
    requires '\n' !in l
    ensures LineLen(l) == |l|
  {
    if l != "" {
      assert l[0] in l && forall c <- l[1..] :: c in l;
      WholeLine(l[1..]);
    }
  }
}
