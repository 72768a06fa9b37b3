/** What the pin store's text promises: an exact round trip, last line wins, and
    lookups that ignore case and brackets. */
module KnownHostsLaws {
  import opened Common
  import opened Text
  import opened Numerals
  import opened Identity
  import opened KnownHosts

  // ------------------------------------------------------------- normalisation

  lemma {:induction false} TrimBracketsLower(h: string)
    ensures TrimBrackets(Lower(h)) == Lower(TrimBrackets(h))
  {
    if h != "" && IsBracket(h[0]) {
      assert Lower(h)[1..] == Lower(h[1..]);
      TrimBracketsLower(h[1..]);
    } else if h != "" && IsBracket(h[|h| - 1]) {
      assert Lower(h)[..|h| - 1] == Lower(h[..|h| - 1]);
      TrimBracketsLower(h[..|h| - 1]);
    }
  }

  lemma {:induction false} TrimBracketsTwice(h: string)
    ensures TrimBrackets(TrimBrackets(h)) == TrimBrackets(h)
  {
    if h != "" && IsBracket(h[0]) {
      TrimBracketsTwice(h[1..]);
    } else if h != "" && IsBracket(h[|h| - 1]) {
      TrimBracketsTwice(h[..|h| - 1]);
    }
  }

  lemma {:induction false} TrimBracketsEnd(h: string, c: char)
    requires IsBracket(c)
    ensures TrimBrackets(h + [c]) == TrimBrackets(h)
  {
    if h == "" {
      assert h + [c] == [c] && TrimBrackets([c]) == TrimBrackets("");
    } else if IsBracket(h[0]) {
      assert (h + [c])[1..] == h[1..] + [c];
      TrimBracketsEnd(h[1..], c);
    } else {
      assert (h + [c])[..|h|] == h;
    }
  }

  lemma NormalizeIdempotent(h: string)
    ensures NormalizeHost(NormalizeHost(h)) == NormalizeHost(h)
  {
    TrimBracketsLower(TrimBrackets(h));
    TrimBracketsTwice(h);
    LowerIdempotent(TrimBrackets(h));
  }

  /** A pin is found under any spelling of its host: normalised, in another ASCII
      case, or in brackets. */
  lemma LookupSpelling(host: string, port: u16)
    ensures KeyOf(NormalizeHost(host), port) == KeyOf(host, port)
    ensures KeyOf(Lower(host), port) == KeyOf(host, port)
    ensures KeyOf("[" + host + "]", port) == KeyOf(host, port)
  {
    NormalizeIdempotent(host);
    TrimBracketsLower(host);
    LowerIdempotent(TrimBrackets(host));
    var b := "[" + host + "]";
    assert b[1..] == host + [']'];
    TrimBracketsEnd(host, ']');
  }

  // ---------------------------------------------------------------- round trip

  /** Keys as `load` and `insert_hex` make them. */
  predicate Normal(pins: Pins) {
    forall k <- pins.Keys :: NormalizeHost(k.host) == k.host
  }

  predicate Spaceless(pins: Pins) {
    forall k <- pins.Keys :: NoSpace(k.host)
  }

  /** A host whose line reads back as an entry. */
  predicate GoodHost(h: string) {
    h != "" && NoSpace(h) && h[0] != '#'
  }

  predicate GoodHosts(pins: Pins) {
    forall k <- pins.Keys :: GoodHost(k.host)
  }

  lemma PinWord(pin: Bytes32)
    ensures var s := HexEncode(pin);
      |s| == 64 && NoSpace(s) && '\n' !in s && '\r' !in s && !IsSpace(s[63])
  {
    HexEncodeDigits(pin);
    var s := HexEncode(pin);
    assert s[63] in s;
  }

  lemma PortWord(port: u16)
    ensures var s := PrintNat(port);
      s != "" && NoSpace(s) && '\n' !in s && !IsSpace(s[0]) && s[0] != '#' && ParseU16(s) == Some(port)
  {
    PrintNatWord(port);
    PortRoundTrip(port);
    var s := PrintNat(port);
    assert s[0] in s;
  }

  lemma ParsePrinted(host: string, port: u16, pin: Bytes32)
    requires NormalizeHost(host) == host
    ensures ParseEntry([host, PrintNat(port), HexEncode(pin)]) == Entry(Key(host, port), pin)
  {
    PortRoundTrip(port);
    Hex32RoundTrip(pin);
  }

  /** How the line of one pin reads back. */
  lemma EntryLineParses(pins: Pins, k: Key)
    requires k in pins && NormalizeHost(k.host) == k.host && NoSpace(k.host) && k.host != ""
    ensures ParseLine(EntryLine(pins, k)) == if k.host[0] == '#' then Skip else Entry(k, pins[k])
  {
    var tail := PrintNat(k.port) + " " + HexEncode(pins[k]);
    var l := EntryLine(pins, k);
    PortWord(k.port);
    PinWord(pins[k]);
    assert l == k.host + (" " + tail);
    assert l[0] == k.host[0] && k.host[0] in k.host;
    assert l[|l| - 1] == HexEncode(pins[k])[63];
    TrimId(l);
    if k.host[0] != '#' {
      ThreeWords(k.host, PrintNat(k.port), HexEncode(pins[k]));
      ParsePrinted(k.host, k.port, pins[k]);
    }
  }

  /** A pin without a host makes a line that `load` refuses. */
  lemma EmptyHostBad(pins: Pins, k: Key)
    requires k in pins && k.host == ""
    ensures ParseLine(EntryLine(pins, k)) == Bad(BadLine)
  {
    var p, x := PrintNat(k.port), HexEncode(pins[k]);
    var tail := p + " " + x;
    PortWord(k.port);
    PinWord(pins[k]);
    assert EntryLine(pins, k) == " " + tail;
    assert (" " + tail)[1..] == tail;
    assert tail[0] == p[0] && tail[|tail| - 1] == x[63];
    assert TrimStart(" " + tail) == tail;
    TrimId(tail);
    NextWord(p, x);
    LastWord(x);
    assert |Words(tail)| == 2;
  }

  lemma EntryLineIsLine(pins: Pins, k: Key)
    requires k in pins && NoSpace(k.host)
    ensures IsLine(EntryLine(pins, k))
  {
    var tail := PrintNat(k.port) + " " + HexEncode(pins[k]);
    var l := EntryLine(pins, k);
    PortWord(k.port);
    PinWord(pins[k]);
    assert l == k.host + (" " + tail);
    assert '\n' !in k.host;
    assert HexEncode(pins[k])[63] in HexEncode(pins[k]);
    assert l[|l| - 1] == HexEncode(pins[k])[63];
  }

  lemma {:induction false} EntryLinesAreLines(pins: Pins, keys: seq<Key>)
    requires (forall k <- keys :: k in pins) && Spaceless(pins)
    ensures forall l <- EntryLines(pins, keys) :: IsLine(l)
  {
    if keys != [] {
      assert keys[0] in keys && forall k <- keys[1..] :: k in keys;
      EntryLineIsLine(pins, keys[0]);
      EntryLinesAreLines(pins, keys[1..]);
    }
  }

  /** The saved text splits back into the lines it was joined from. */
  lemma SavedLines(pins: Pins, keys: seq<Key>)
    requires (forall k <- keys :: k in pins) && Spaceless(pins)
    ensures Lines(SaveLines(pins, keys)) == [HEADER] + EntryLines(pins, keys)
  {
    var ls := [HEADER] + EntryLines(pins, keys);
    EntryLinesAreLines(pins, keys);
    assert IsLine(HEADER);
    JoinUnlines(ls);
    LinesUnlines(ls, "");
    assert Unlines(ls) + "" == Unlines(ls) && ls + Lines("") == ls;
  }

  /** The pins whose lines are not taken for comments. */
  function Kept(pins: Pins, keys: seq<Key>): Pins
    requires forall k <- keys :: k in pins && k.host != ""
  {
    map k | k in keys && k.host[0] != '#' :: pins[k]
  }

  lemma TailIn(pins: Pins, keys: seq<Key>)
    requires keys != [] && forall k <- keys :: k in pins && k.host != ""
    ensures keys[0] in keys && keys[0] in pins && keys[0].host != ""
    ensures forall k <- keys[1..] :: k in pins && k.host != ""
    ensures forall k :: k in keys <==> k == keys[0] || k in keys[1..]
  {
    assert keys[0] in keys && forall x <- keys[1..] :: x in keys;
    assert keys == [keys[0]] + keys[1..];
  }

  lemma KeptStep(pins: Pins, keys: seq<Key>, acc: Pins, acc': Pins)
    requires keys != [] && (forall k <- keys :: k in pins && k.host != "") && keys[0] in pins && keys[0].host != ""
    requires forall k <- keys[1..] :: k in pins && k.host != ""
    requires acc' == if keys[0].host[0] == '#' then acc else acc[keys[0] := pins[keys[0]]]
    ensures acc' + Kept(pins, keys[1..]) == acc + Kept(pins, keys)
  {
    KeptCons(pins, keys);
  }

  lemma KeptCons(pins: Pins, keys: seq<Key>)
    requires keys != [] && (forall k <- keys :: k in pins && k.host != "") && keys[0] in pins && keys[0].host != ""
    requires forall k <- keys[1..] :: k in pins && k.host != ""
    ensures Kept(pins, keys) ==
      (if keys[0].host[0] == '#' then map[] else map[keys[0] := pins[keys[0]]]) + Kept(pins, keys[1..])
  {
    TailIn(pins, keys);
  }

  lemma {:induction false} LoadEntryLines(pins: Pins, keys: seq<Key>, acc: Pins)
    requires Normal(pins) && Spaceless(pins) && forall k <- keys :: k in pins && k.host != ""
    ensures LoadLines(EntryLines(pins, keys), acc) == Ok(acc + Kept(pins, keys))
  {
    if keys == [] {
      assert acc + Kept(pins, keys) == acc;
    } else {
      var k := keys[0];
      TailIn(pins, keys);
      var acc' := if k.host[0] == '#' then acc else acc[k := pins[k]];
      KeptStep(pins, keys, acc, acc');
      EntryLineParses(pins, k);
      LoadEntryLines(pins, keys[1..], acc');
      LoadFirst(EntryLine(pins, k), EntryLines(pins, keys[1..]), acc);
    }
  }

  lemma LoadFirst(l: string, ls: seq<string>, acc: Pins)
    ensures LoadLines([l] + ls, acc) == match ParseLine(l)
      case Skip => LoadLines(ls, acc)
      case Bad(e) => Err(e)
      case Entry(k, pin) => LoadLines(ls, acc[k := pin])
  {
    assert ([l] + ls)[1..] == ls;
  }

  predicate NoBad(ls: seq<string>) {
    forall l <- ls :: !ParseLine(l).Bad?
  }

  /** One refused line refuses the file, and nothing else does. */
  lemma {:induction false} LoadsIff(ls: seq<string>, acc: Pins)
    ensures LoadLines(ls, acc).Ok? <==> NoBad(ls)
  {
    if ls != [] {
      assert ls == [ls[0]] + ls[1..];
      match ParseLine(ls[0])
      case Skip => LoadsIff(ls[1..], acc);
      case Entry(k, pin) => LoadsIff(ls[1..], acc[k := pin]);
      case Bad(_) =>
    }
  }

  lemma HeaderSkipped(pins: Pins, keys: seq<Key>)
    requires forall k <- keys :: k in pins
    ensures LoadLines([HEADER] + EntryLines(pins, keys), map[]) == LoadLines(EntryLines(pins, keys), map[])
  {
    TrimId(HEADER);
    assert ([HEADER] + EntryLines(pins, keys))[1..] == EntryLines(pins, keys);
  }

  lemma {:induction false} NormalizedSpaceless(h: string)
    requires NoSpace(h)
    ensures NoSpace(TrimBrackets(h)) && NoSpace(NormalizeHost(h))
  {
    if h != "" && IsBracket(h[0]) {
      NormalizedSpaceless(h[1..]);
    } else if h != "" && IsBracket(h[|h| - 1]) {
      NormalizedSpaceless(h[..|h| - 1]);
    }
    var t := TrimBrackets(h);
    forall c <- Lower(t) ensures !IsSpace(c) {
      var i :| 0 <= i < |t| && Lower(t)[i] == c;
      assert t[i] in t;
    }
  }

  /** `load` never makes a key with whitespace in its host, and always a normal one. */
  lemma {:induction false} LoadedKeys(ls: seq<string>, acc: Pins)
    requires LoadLines(ls, acc).Ok? && Normal(acc) && Spaceless(acc)
    ensures Normal(LoadLines(ls, acc).value) && Spaceless(LoadLines(ls, acc).value)
  {
    if ls != [] {
      match ParseLine(ls[0])
      case Skip => LoadedKeys(ls[1..], acc);
      case Entry(k, pin) =>
        var words := Words(Trim(ls[0]));
        WordsAreWords(Trim(ls[0]));
        assert words[0] in words;
        NormalizedSpaceless(words[0]);
        NormalizeIdempotent(words[0]);
        LoadedKeys(ls[1..], acc[k := pin]);
      case Bad(_) =>
    }
  }

  /** Reloading what was saved gives the same map exactly when every host makes a
      readable line: not empty, free of whitespace, not starting with `#`. */
  lemma SaveLoadIff(pins: Pins)
    requires Normal(pins)
    ensures LoadText(Some(SaveText(pins))) == Ok(pins) <==> GoodHosts(pins)
  {
    var text := SaveText(pins);
    if Spaceless(pins) {
      SpacelessReload(pins);
    } else if LoadText(Some(text)) == Ok(pins) {
      LoadedKeys(Lines(text), map[]);
    }
  }

  lemma SpacelessReload(pins: Pins)
    requires Normal(pins) && Spaceless(pins)
    ensures LoadText(Some(SaveText(pins))) == Ok(pins) <==> GoodHosts(pins)
  {
    var keys := SortedKeys(pins.Keys);
    SavedLines(pins, keys);
    HeaderSkipped(pins, keys);
    ReloadLines(pins, keys);
  }

  lemma ReloadLines(pins: Pins, keys: seq<Key>)
    requires Normal(pins) && Spaceless(pins) && forall k :: k in keys <==> k in pins
    ensures LoadLines(EntryLines(pins, keys), map[]) == Ok(pins) <==> GoodHosts(pins)
  {
    if k :| k in keys && k.host == "" {
      EmptyHostRefused(pins, keys, k);
      assert k in pins.Keys && !GoodHost(k.host);
    } else {
      NonemptyReload(pins, keys);
    }
  }

  lemma NonemptyReload(pins: Pins, keys: seq<Key>)
    requires Normal(pins) && Spaceless(pins) && (forall k :: k in keys <==> k in pins) && forall k <- keys :: k.host != ""
    ensures LoadLines(EntryLines(pins, keys), map[]) == Ok(pins) <==> GoodHosts(pins)
  {
    var kept := Kept(pins, keys);
    LoadEntryLines(pins, keys, map[]);
    EmptyPlus(kept);
    KeptAllIff(pins, keys);
  }

  lemma EmptyPlus(m: Pins)
    ensures map[] + m == m
  {
  }

  lemma EmptyHostRefused(pins: Pins, keys: seq<Key>, k: Key)
    requires (forall x <- keys :: x in pins) && k in keys && k.host == ""
    ensures LoadLines(EntryLines(pins, keys), map[]).Err?
  {
    var i :| 0 <= i < |keys| && keys[i] == k;
    EmptyHostBad(pins, k);
    EntryLineAt(pins, keys, i);
    assert EntryLine(pins, k) in EntryLines(pins, keys);
    LoadsIff(EntryLines(pins, keys), map[]);
  }

  lemma KeptAllIff(pins: Pins, keys: seq<Key>)
    requires Spaceless(pins) && (forall k :: k in keys <==> k in pins) && forall k <- keys :: k.host != ""
    ensures Kept(pins, keys) == pins <==> GoodHosts(pins)
  {
    var kept := Kept(pins, keys);
    if kept == pins {
      forall k <- pins.Keys ensures GoodHost(k.host) {
        assert k in kept;
      }
    }
    if GoodHosts(pins) {
      assert forall k <- pins.Keys :: GoodHost(k.host);
      assert kept.Keys == pins.Keys;
    }
  }

  lemma {:induction false} EntryLineAt(pins: Pins, keys: seq<Key>, i: nat)
    requires (forall k <- keys :: k in pins) && i < |keys|
    ensures EntryLines(pins, keys)[i] == EntryLine(pins, keys[i])
  {
    assert keys[0] in keys && forall x <- keys[1..] :: x in keys;
    if i > 0 {
      EntryLineAt(pins, keys[1..], i - 1);
    }
  }

  /** A host the command line can name and the file cannot hold: its pin is gone after
      a save and a load. */
  lemma CommentHostLost(pin: Bytes32)
    ensures var pins: Pins := map[KeyOf("#x", 443) := pin];
      LoadText(Some(SaveText(pins))) != Ok(pins)
  {
    var pins: Pins := map[KeyOf("#x", 443) := pin];
    assert TrimBrackets("#x") == "#x";
    assert NormalizeHost("#x") == "#x";
    assert KeyOf("#x", 443) in pins.Keys;
    SaveLoadIff(pins);
  }

  // ------------------------------------------------------------ last line wins

  /** The line is an entry for this key. */
  predicate About(l: string, key: Key) {
    ParseLine(l).Entry? && ParseLine(l).key == key
  }

  /** Line `i` is the last one about `key`, and it says `pin`. */
  ghost predicate LastEntry(ls: seq<string>, i: nat, key: Key, pin: Bytes32) {
    i < |ls| && ParseLine(ls[i]) == Entry(key, pin) && !Mentioned(ls[i + 1..], key)
  }

  ghost predicate Mentioned(ls: seq<string>, key: Key) {
    exists l :: l in ls && About(l, key)
  }

  lemma MentionedCons(l: string, t: seq<string>, key: Key)
    ensures Mentioned([l] + t, key) <==> Mentioned(t, key) || About(l, key)
  {
    assert l in [l] + t && forall x <- t :: x in [l] + t;
  }

  lemma LastEntryCons(l: string, t: seq<string>, i: nat, key: Key, pin: Bytes32)
    requires LastEntry(t, i, key, pin)
    ensures LastEntry([l] + t, i + 1, key, pin)
  {
    assert ([l] + t)[i + 2..] == t[i + 1..];
  }

  lemma LastEntryHead(l: string, t: seq<string>, key: Key, pin: Bytes32)
    requires ParseLine(l) == Entry(key, pin) && !Mentioned(t, key)
    ensures LastEntry([l] + t, 0, key, pin)
  {
    assert ([l] + t)[1..] == t;
  }

  ghost predicate Tells(ls: seq<string>, acc: Pins, m: Pins, key: Key) {
    && (Mentioned(ls, key) ==> key in m && exists i :: LastEntry(ls, i, key, m[key]))
    && (!Mentioned(ls, key) ==> (key in m <==> key in acc) && (key in m ==> m[key] == acc[key]))
  }

  lemma {:induction false} LastLineWinsFrom(ls: seq<string>, acc: Pins, key: Key)
    requires LoadLines(ls, acc).Ok?
    ensures Tells(ls, acc, LoadLines(ls, acc).value, key)
  {
    if ls != [] {
      var l, t := ls[0], ls[1..];
      assert ls == [l] + t;
      var acc' := match ParseLine(l) case Entry(k, pin) => acc[k := pin] case _ => acc;
      LoadFirst(l, t, acc);
      LastLineWinsFrom(t, acc', key);
      TellsCons(l, t, acc, acc', LoadLines(t, acc').value, key);
    }
  }

  lemma TellsCons(l: string, t: seq<string>, acc: Pins, acc': Pins, m: Pins, key: Key)
    requires !ParseLine(l).Bad? && Tells(t, acc', m, key)
    requires acc' == match ParseLine(l) case Entry(k, pin) => acc[k := pin] case _ => acc
    ensures Tells([l] + t, acc, m, key)
  {
    MentionedCons(l, t, key);
    if Mentioned(t, key) {
      var i :| LastEntry(t, i, key, m[key]);
      LastEntryCons(l, t, i, key, m[key]);
    } else if Mentioned([l] + t, key) {
      LastEntryHead(l, t, key, m[key]);
    }
  }

  /** A loaded map holds for each key what the last line about it says, and nothing
      that no line says. */
  lemma LastLineWins(text: string, key: Key)
    requires LoadText(Some(text)).Ok?
    ensures var m := LoadText(Some(text)).value; var ls := Lines(text);
      && (key in m <==> Mentioned(ls, key))
      && (key in m ==> exists i :: LastEntry(ls, i, key, m[key]))
  {
    LastLineWinsFrom(Lines(text), map[], key);
  }
}
