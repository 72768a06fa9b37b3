/** Which hosts the pin store takes for the same, told on their characters. */
module HostNames {
  import opened Common
  import opened Text
  import opened TextLaws
  import opened KnownHosts

  /** One character, or the two cases of one ASCII letter. */
  predicate SameLetter(x: char, y: char) {
    || x == y
    || ('A' <= x <= 'Z' && y as int == x as int + 32)
    || ('A' <= y <= 'Z' && x as int == y as int + 32)
  }

  predicate SameButCase(m: string, n: string) {
    |m| == |n| && forall i :: 0 <= i < |m| ==> SameLetter(m[i], n[i])
  }

  predicate Bracket(c: char) {
    c == '[' || c == ']'
  }

  lemma SameLetterIff(x: char, y: char)
    ensures LowerChar(x) == LowerChar(y) <==> SameLetter(x, y)
  {
  }

  /** Lower case forgets exactly the case of ASCII letters. */
  lemma LowerIff(m: string, n: string)
    ensures Lower(m) == Lower(n) <==> SameButCase(m, n)
  {
    forall i | 0 <= i < |m| && i < |n| ensures Lower(m)[i] == Lower(n)[i] <==> SameLetter(m[i], n[i]) {
      SameLetterIff(m[i], n[i]);
    }
  }

  lemma {:induction false} BracketCut(h: string) returns (i: nat, j: nat)
    ensures Cut(Bracket, h, i, j) && h[i..j] == TrimBrackets(h)
  {
    if h != "" && IsBracket(h[0]) {
      i, j := BracketCut(h[1..]);
      CutBehind(h[0], h[1..], i, j);
      assert h == [h[0]] + h[1..];
      i, j := i + 1, j + 1;
    } else if h != "" && IsBracket(h[|h| - 1]) {
      i, j := BracketCut(h[..|h| - 1]);
      CutBefore(h[..|h| - 1], h[|h| - 1], i, j);
      assert h == h[..|h| - 1] + [h[|h| - 1]];
    } else {
      i, j := 0, |h|;
      assert h[..0] == "" && h[|h|..] == "" && h[0..|h|] == h;
    }
  }

  lemma CutBehind(c: char, t: string, i: nat, j: nat)
    requires Bracket(c) && Cut(Bracket, t, i, j)
    ensures Cut(Bracket, [c] + t, i + 1, j + 1) && ([c] + t)[i + 1..j + 1] == t[i..j]
  {
    var h := [c] + t;
    assert h[..i + 1] == [c] + t[..i] && h[j + 1..] == t[j..];
  }

  lemma CutBefore(t: string, c: char, i: nat, j: nat)
    requires Bracket(c) && Cut(Bracket, t, i, j)
    ensures Cut(Bracket, t + [c], i, j) && (t + [c])[i..j] == t[i..j]
  {
    var h := t + [c];
    assert h[..i] == t[..i] && h[j..] == t[j..] + [c];
  }

  /** The core of a host: what it holds between its outermost characters that are no
      brackets. */
  ghost predicate Core(h: string, m: string) {
    Inside(Bracket, h, m)
  }

  lemma CoreIff(h: string, m: string)
    ensures Core(h, m) <==> TrimBrackets(h) == m
  {
    var i, j := BracketCut(h);
    if Core(h, m) {
      InsideOnce(Bracket, h, m, TrimBrackets(h));
    }
  }

  /** Two hosts have one pin exactly if the port is the same and their cores differ at most
      in the case of ASCII letters. */
  lemma KeyIff(a: string, p: u16, b: string, q: u16)
    ensures KeyOf(a, p) == KeyOf(b, q) <==>
      p == q && exists m: string, n: string :: Core(a, m) && Core(b, n) && SameButCase(m, n)
  {
    var m, n := TrimBrackets(a), TrimBrackets(b);
    CoreIff(a, m);
    CoreIff(b, n);
    LowerIff(m, n);
    forall m': string, n': string | Core(a, m') && Core(b, n') ensures m' == m && n' == n {
      CoreIff(a, m');
      CoreIff(b, n');
    }
  }

  /** So a pin is found under every host of the same length whose characters are the same
      up to the case of ASCII letters. */
  lemma SameHostSameKey(a: string, b: string, p: u16)
    requires SameButCase(a, b)
    ensures KeyOf(a, p) == KeyOf(b, p)
  {
    var i, j := BracketCut(a);
    CutSame(a, b, i, j);
    var m, n := a[i..j], b[i..j];
    assert Core(a, m) && Core(b, n) && SameButCase(m, n);
    KeyIff(a, p, b, p);
  }

  lemma CutSame(a: string, b: string, i: nat, j: nat)
    requires SameButCase(a, b) && Cut(Bracket, a, i, j)
    ensures Cut(Bracket, b, i, j)
  {
    forall k | 0 <= k < i ensures Bracket(b[..i][k]) {
      assert a[..i][k] in a[..i];
    }
    forall k | 0 <= k < |b| - j ensures Bracket(b[j..][k]) {
      assert a[j..][k] in a[j..];
    }
  }

  /** A host in the store's form: the core of some host, its letters small. */
  lemma NormalForm(h: string)
    ensures var r := NormalizeHost(h);
      && (forall c <- r :: !('A' <= c <= 'Z'))
      && (r != "" ==> r[0] !in "[]" && r[|r| - 1] !in "[]")
      && exists m :: Core(h, m) && SameButCase(m, r)
  {
    var i, j := BracketCut(h);
    var m := TrimBrackets(h);
    assert Core(h, m);
    var r := NormalizeHost(h);
    assert m != "" ==> m[0] == h[i] && m[|m| - 1] == h[j - 1];
    forall c | c in r ensures !('A' <= c <= 'Z') {
      var k :| 0 <= k < |r| && r[k] == c;
      assert c == LowerChar(m[k]);
    }
    assert SameButCase(m, r);
  }
}
