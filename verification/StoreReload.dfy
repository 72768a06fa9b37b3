/** What a fresh load makes of a saved pin store, one host at a time: which stores load
    at all, and which of their pins are found again. */
module StoreReload {
  import opened Common
  import opened Text
  import opened Numerals
  import opened Identity
  import opened KnownHosts
  import opened KnownHostsLaws

  /** The line that one pin is saved as, with its newline. */
  function EntryText(k: Key, pin: Bytes32): string {
    k.host + " " + (PrintNat(k.port) + " " + HexEncode(pin)) + "\n"
  }

  /** That line, or the lines it falls into, are not refused. */
  predicate Readable(k: Key, pin: Bytes32) {
    NoBad(Lines(EntryText(k, pin)))
  }

  lemma NoBadAppend(a: seq<string>, b: seq<string>)
    ensures NoBad(a + b) <==> NoBad(a) && NoBad(b)
  {
    assert (forall l <- a :: l in a + b) && (forall l <- b :: l in a + b);
  }

  lemma {:induction false} EntriesRead(pins: Pins, keys: seq<Key>)
    requires forall k <- keys :: k in pins
    ensures NoBad(Lines(Unlines(EntryLines(pins, keys)))) <==> forall k <- keys :: Readable(k, pins[k])
  {
    if keys != [] {
      assert keys[0] in keys && keys == [keys[0]] + keys[1..];
      var e := EntryText(keys[0], pins[keys[0]]);
      assert Unlines(EntryLines(pins, keys)) == e + Unlines(EntryLines(pins, keys[1..]));
      LinesAppend(e, Unlines(EntryLines(pins, keys[1..])));
      NoBadAppend(Lines(e), Lines(Unlines(EntryLines(pins, keys[1..]))));
      EntriesRead(pins, keys[1..]);
    }
  }

  lemma SaveTextIs(pins: Pins)
    ensures forall k <- SortedKeys(pins.Keys) :: k in pins
    ensures SaveText(pins) == HEADER + "\n" + Unlines(EntryLines(pins, SortedKeys(pins.Keys)))
  {
    var keys := SortedKeys(pins.Keys);
    assert forall k <- keys :: k in pins.Keys;
    JoinUnlines([HEADER] + EntryLines(pins, keys));
    assert ([HEADER] + EntryLines(pins, keys))[1..] == EntryLines(pins, keys);
  }

  /** A saved store loads exactly when every single line of it does. */
  lemma SavedLoads(pins: Pins)
    ensures LoadText(Some(SaveText(pins))).Ok? <==> forall k <- pins.Keys :: Readable(k, pins[k])
  {
    var keys := SortedKeys(pins.Keys);
    SavedBlock(pins);
    LoadsIff(BlockLines(pins, keys), map[]);
    EntriesRead(pins, keys);
  }

  /** The lines of a block of entries. */
  function BlockLines(pins: Pins, keys: seq<Key>): seq<string>
    requires forall k <- keys :: k in pins
  {
    Lines(Unlines(EntryLines(pins, keys)))
  }

  /** The text of a saved store loads as its entries do. */
  lemma SavedBlock(pins: Pins)
    ensures forall k <- SortedKeys(pins.Keys) :: k in pins
    ensures LoadText(Some(SaveText(pins))) == LoadLines(BlockLines(pins, SortedKeys(pins.Keys)), map[])
  {
    SaveTextIs(pins);
    HeaderLoads(Unlines(EntryLines(pins, SortedKeys(pins.Keys))));
  }

  lemma HeaderLoads(body: string)
    ensures LoadText(Some(HEADER + "\n" + body)) == LoadLines(Lines(body), map[])
  {
    HeaderLine(body);
    TrimId(HEADER);
    LoadFirst(HEADER, Lines(body), map[]);
  }

  lemma HeaderLine(body: string)
    ensures Lines(HEADER + "\n" + body) == [HEADER] + Lines(body) && NoBad([HEADER])
  {
    assert IsLine(HEADER);
    LinesCons(HEADER, body);
    TrimId(HEADER);
  }

  /** Without whitespace in the host, only the empty one is refused. */
  lemma ReadableIff(k: Key, pin: Bytes32)
    requires NormalizeHost(k.host) == k.host && NoSpace(k.host)
    ensures Readable(k, pin) <==> k.host != ""
  {
    var pins: Pins := map[k := pin];
    var e := EntryLine(pins, k);
    EntryLineIsLine(pins, k);
    LinesCons(e, "");
    assert e + "\n" + "" == EntryText(k, pin) && Lines(EntryText(k, pin)) == [e];
    if k.host == "" {
      EmptyHostBad(pins, k);
    } else {
      EntryLineParses(pins, k);
    }
  }

  predicate NoEmptyHost(pins: Pins) {
    forall k <- pins.Keys :: k.host != ""
  }

  /** The file loads, and gives this key this pin. */
  predicate Found(file: Option<string>, key: Key, pin: Bytes32) {
    LoadText(file).Ok? && key in LoadText(file).value && LoadText(file).value[key] == pin
  }

  /** A store without whitespace in its hosts loads exactly when no host is empty, and
      then exactly the pins come back whose host does not start like a comment. */
  lemma SavedFinds(pins: Pins)
    requires Normal(pins) && Spaceless(pins)
    ensures LoadText(Some(SaveText(pins))).Ok? <==> NoEmptyHost(pins)
    ensures NoEmptyHost(pins) ==> forall k :: k in LoadText(Some(SaveText(pins))).value <==> k in pins && k.host[0] != '#'
    ensures NoEmptyHost(pins) ==> var m := LoadText(Some(SaveText(pins))).value; forall k <- m.Keys :: k in pins && m[k] == pins[k]
  {
    SpacelessLoads(pins);
    if NoEmptyHost(pins) {
      assert LoadText(Some(SaveText(pins))) == Ok(KeptPins(pins)) by { SavedKept(pins); }
    }
  }

  /** The pins whose lines are not comments. */
  function KeptPins(pins: Pins): Pins
    requires NoEmptyHost(pins)
  {
    map k | k in pins && k.host[0] != '#' :: pins[k]
  }

  lemma SpacelessLoads(pins: Pins)
    requires Normal(pins) && Spaceless(pins)
    ensures LoadText(Some(SaveText(pins))).Ok? <==> NoEmptyHost(pins)
  {
    SavedLoads(pins);
    forall k <- pins.Keys ensures Readable(k, pins[k]) <==> k.host != "" {
      ReadableIff(k, pins[k]);
    }
  }

  lemma SavedKept(pins: Pins)
    requires Normal(pins) && Spaceless(pins) && NoEmptyHost(pins)
    ensures LoadText(Some(SaveText(pins))) == Ok(KeptPins(pins))
  {
    var keys := SortedKeys(pins.Keys);
    assert forall k <- keys :: k in pins.Keys;
    assert LoadText(Some(SaveText(pins))) == LoadLines(EntryLines(pins, keys), map[]) by {
      SavedLines(pins, keys);
      HeaderSkipped(pins, keys);
    }
    LoadEntryLines(pins, keys, map[]);
    KeptAll(pins, keys);
  }

  lemma KeptAll(pins: Pins, keys: seq<Key>)
    requires NoEmptyHost(pins) && (forall k :: k in keys <==> k in pins) && forall k <- keys :: k in pins && k.host != ""
    ensures map[] + Kept(pins, keys) == KeptPins(pins)
  {
  }

  lemma UpdateNormal(m: Pins, host: string, port: u16, pin: Bytes32)
    requires Normal(m)
    ensures Normal(m[KeyOf(host, port) := pin])
  {
    NormalizeIdempotent(host);
  }

  /** After one pin is set in a loaded store and the store is saved, a fresh load gives
      that key that pin exactly when no other host is empty and this one is not empty,
      holds no whitespace and does not start like a comment. */
  lemma FoundIff(m: Pins, host: string, port: u16, pin: Bytes32)
    requires Normal(m) && Spaceless(m)
    ensures Found(Some(SaveText(m[KeyOf(host, port) := pin])), KeyOf(host, port), pin)
       <==> NoEmptyHost(m) && GoodHost(NormalizeHost(host))
  {
    var key := KeyOf(host, port);
    var m' := m[key := pin];
    UpdateNormal(m, host, port, pin);
    if NoSpace(key.host) {
      SavedFinds(m');
      assert NoEmptyHost(m') <==> NoEmptyHost(m) && key.host != "" by {
        UpdateNoEmpty(m, key, pin);
      }
    } else if LoadText(Some(SaveText(m'))).Ok? {
      LoadedKeys(Lines(SaveText(m')), map[]);
      assert key !in LoadText(Some(SaveText(m'))).value.Keys;
    }
  }

  lemma UpdateNoEmpty(m: Pins, key: Key, pin: Bytes32)
    ensures NoEmptyHost(m[key := pin]) <==> NoEmptyHost(m) && key.host != ""
  {
    var m' := m[key := pin];
    assert m'.Keys == m.Keys + {key};
    assert key in m'.Keys;
    assert NoEmptyHost(m') ==> forall k <- m.Keys :: k in m'.Keys;
  }

  /** Whether the store still loads, told from the hosts it held and the new line. */
  predicate StillLoads(m: Pins, host: string, port: u16, pin: Bytes32) {
    (forall k <- m.Keys :: k != KeyOf(host, port) ==> k.host != "") && Readable(KeyOf(host, port), pin)
  }

  lemma StillLoadsIff(m: Pins, host: string, port: u16, pin: Bytes32)
    requires Normal(m) && Spaceless(m)
    ensures LoadText(Some(SaveText(m[KeyOf(host, port) := pin]))).Ok? <==> StillLoads(m, host, port, pin)
    ensures NoSpace(NormalizeHost(host)) ==>
      (StillLoads(m, host, port, pin) <==> NoEmptyHost(m) && NormalizeHost(host) != "")
  {
    var key := KeyOf(host, port);
    var m' := m[key := pin];
    assert m'.Keys == m.Keys + {key};
    SavedLoads(m');
    forall k <- m.Keys | k != key ensures Readable(k, m'[k]) <==> k.host != "" {
      ReadableIff(k, m'[k]);
    }
    assert key in m'.Keys && m'[key] == pin;
    NormalizeIdempotent(host);
    if NoSpace(key.host) {
      ReadableIff(key, pin);
    }
  }

  // ------------------------------------------------ the whole store, pin by pin

  lemma {:induction false} LoadAppend(a: seq<string>, b: seq<string>, acc: Pins)
    ensures LoadLines(a + b, acc) == match LoadLines(a, acc)
      case Err(e) => Err(e)
      case Ok(m) => LoadLines(b, m)
  {
    if a == [] {
      assert a + b == b;
    } else {
      assert (a + b)[1..] == a[1..] + b;
      match ParseLine(a[0])
      case Skip => LoadAppend(a[1..], b, acc);
      case Entry(k, pin) => LoadAppend(a[1..], b, acc[k := pin]);
      case Bad(_) =>
    }
  }

  /** What lines say does not depend on what was there before them. */
  lemma {:induction false} LoadOnto(ls: seq<string>, acc: Pins)
    requires NoBad(ls)
    ensures LoadLines(ls, acc).Ok? && LoadLines(ls, map[]).Ok?
    ensures LoadLines(ls, acc).value == acc + LoadLines(ls, map[]).value
  {
    LoadsIff(ls, acc);
    LoadsIff(ls, map[]);
    if ls != [] {
      assert ls == [ls[0]] + ls[1..];
      match ParseLine(ls[0])
      case Skip => LoadOnto(ls[1..], acc);
      case Entry(k, pin) =>
        LoadOnto(ls[1..], acc[k := pin]);
        LoadOnto(ls[1..], map[k := pin]);
        OntoUpdate(acc, k, pin, LoadLines(ls[1..], map[]).value);
      case Bad(_) =>
    }
  }

  lemma OntoUpdate(acc: Pins, k: Key, pin: Bytes32, more: Pins)
    ensures acc[k := pin] + more == acc + (map[k := pin] + more)
  {
  }

  /** What the one line of a pin says, or the lines it falls into. */
  function Says(k: Key, pin: Bytes32): Pins {
    match LoadLines(Lines(EntryText(k, pin)), map[]) case Ok(m) => m case Err(_) => map[]
  }

  /** A host whose line is taken for a comment. */
  predicate IsComment(h: string) {
    h != "" && h[0] == '#'
  }

  /** The other pins that come back from the lines in front of this key's, and behind. */
  function Below(m: Pins, key: Key): Pins {
    map k | k in m && k != key && KeyLe(k, key) && !IsComment(k.host) :: m[k]
  }

  function Above(m: Pins, key: Key): Pins {
    map k | k in m && k != key && !KeyLe(k, key) && !IsComment(k.host) :: m[k]
  }

  /** The store after one pin is set, saved and loaded again. */
  function Rewritten(m: Pins, key: Key, pin: Bytes32): Pins {
    Below(m, key) + Says(key, pin) + Above(m, key)
  }

  /** For every host, with whitespace or without: exactly what a fresh load gives after
      one pin is set in a loaded store and the store is saved. In key order, each line
      says what it says, later lines over earlier ones. */
  lemma SavedExactly(m: Pins, host: string, port: u16, pin: Bytes32)
    requires Normal(m) && Spaceless(m)
    ensures var key := KeyOf(host, port); var text := Some(SaveText(m[key := pin]));
      if StillLoads(m, host, port, pin) then LoadText(text) == Ok(Rewritten(m, key, pin)) else LoadText(text).Err?
  {
    var key := KeyOf(host, port);
    StillLoadsIff(m, host, port, pin);
    LoadsIff(Lines(EntryText(key, pin)), map[]);
    if StillLoads(m, host, port, pin) {
      var below, above := SplitKeys(m, key, pin);
      SavedSplit(m[key := pin], below, key, above);
      var rest: Pins := m - {key};
      BlocksAre(m, key, rest, below, above);
      assert LoadLines(BlockLines(m[key := pin], below), map[]) == Ok(Below(m, key)) by {
        BlockLoads(rest, m[key := pin], below, map[]);
        EmptyPlus(Below(m, key));
      }
      BlockLoads(rest, m[key := pin], above, Below(m, key) + Says(key, pin));
      InTurn(BlockLines(m[key := pin], below), Lines(EntryText(key, pin)), BlockLines(m[key := pin], above),
             Below(m, key), Says(key, pin));
    }
  }

  /** Three blocks of lines, one after the other. */
  lemma InTurn(a: seq<string>, b: seq<string>, c: seq<string>, first: Pins, second: Pins)
    requires LoadLines(a, map[]) == Ok(first) && NoBad(b) && LoadLines(b, map[]) == Ok(second)
    ensures LoadLines(a + b + c, map[]) == LoadLines(c, first + second)
  {
    LoadAppend(a + b, c, map[]);
    LoadAppend(a, b, map[]);
    LoadOnto(b, first);
  }

  /** The sorted keys in front of one key and behind it. */
  lemma SplitKeys(m: Pins, key: Key, pin: Bytes32) returns (below: seq<Key>, above: seq<Key>)
    ensures SortedKeys(m[key := pin].Keys) == below + [key] + above
    ensures forall k :: k in below <==> k in m && k != key && KeyLe(k, key)
    ensures forall k :: k in above <==> k in m && k != key && !KeyLe(k, key)
  {
    var m' := m[key := pin];
    var keys := SortedKeys(m'.Keys);
    assert key in m'.Keys && m'.Keys == m.Keys + {key};
    var i :| 0 <= i < |keys| && keys[i] == key;
    below, above := keys[..i], keys[i + 1..];
    assert keys == below + [key] + above;
    forall k | k in below ensures k in m && k != key && KeyLe(k, key) {
      assert k in keys;
    }
    forall k | k in above ensures k in m && k != key && !KeyLe(k, key) {
      assert k in keys;
      KeyLeTotal(k, key);
    }
    forall k | k in m && k != key ensures k in below || k in above {
      assert k in keys;
    }
  }

  predicate AllIn(pins: Pins, keys: seq<Key>) {
    forall k <- keys :: k in pins
  }

  lemma AllInAppend(pins: Pins, a: seq<Key>, b: seq<Key>)
    ensures AllIn(pins, a + b) <==> AllIn(pins, a) && AllIn(pins, b)
  {
    assert (forall k <- a :: k in a + b) && (forall k <- b :: k in a + b);
  }

  lemma {:induction false} EntryLinesAppend(pins: Pins, a: seq<Key>, b: seq<Key>)
    requires AllIn(pins, a + b) && AllIn(pins, a) && AllIn(pins, b)
    ensures EntryLines(pins, a + b) == EntryLines(pins, a) + EntryLines(pins, b)
  {
    if a == [] {
      assert a + b == b;
    } else {
      assert (a + b)[0] == a[0] && (a + b)[1..] == a[1..] + b;
      assert a == [a[0]] + a[1..];
      AllInAppend(pins, [a[0]], a[1..]);
      AllInAppend(pins, a[1..], b);
      EntryLinesAppend(pins, a[1..], b);
      Assoc([EntryLine(pins, a[0])], EntryLines(pins, a[1..]), EntryLines(pins, b));
    }
  }

  lemma {:induction false} UnlinesAppend(a: seq<string>, b: seq<string>)
    ensures Unlines(a + b) == Unlines(a) + Unlines(b)
  {
    if a == [] {
      assert a + b == b;
    } else {
      assert (a + b)[1..] == a[1..] + b;
      UnlinesAppend(a[1..], b);
      Assoc(a[0] + "\n", Unlines(a[1..]), Unlines(b));
    }
  }

  lemma {:induction false} UnlinesEnds(ls: seq<string>)
    ensures EndsLine(Unlines(ls))
  {
    if ls != [] {
      UnlinesEnds(ls[1..]);
    }
  }

  lemma BlockAppend(pins: Pins, a: seq<Key>, b: seq<Key>)
    requires forall k <- a + b :: k in pins
    ensures (forall k <- a :: k in pins) && (forall k <- b :: k in pins)
    ensures BlockLines(pins, a + b) == BlockLines(pins, a) + BlockLines(pins, b)
  {
    AllInAppend(pins, a, b);
    EntryLinesAppend(pins, a, b);
    UnlinesAppend(EntryLines(pins, a), EntryLines(pins, b));
    UnlinesEnds(EntryLines(pins, a));
    LinesAppend(Unlines(EntryLines(pins, a)), Unlines(EntryLines(pins, b)));
  }

  lemma BlockOne(pins: Pins, k: Key)
    requires k in pins
    ensures BlockLines(pins, [k]) == Lines(EntryText(k, pins[k]))
  {
    assert EntryLines(pins, [k]) == [EntryLine(pins, k)];
    assert [EntryLine(pins, k)][1..] == [];
    assert Unlines([EntryLine(pins, k)]) == EntryText(k, pins[k]) + "";
    assert EntryText(k, pins[k]) + "" == EntryText(k, pins[k]);
  }

  lemma SavedSplit(pins: Pins, below: seq<Key>, key: Key, above: seq<Key>)
    requires SortedKeys(pins.Keys) == below + [key] + above
    ensures key in pins && (forall k <- below :: k in pins) && (forall k <- above :: k in pins)
    ensures LoadText(Some(SaveText(pins)))
         == LoadLines(BlockLines(pins, below) + Lines(EntryText(key, pins[key])) + BlockLines(pins, above), map[])
  {
    SavedBlock(pins);
    assert key in below + [key] + above;
    BlockAppend(pins, below + [key], above);
    BlockAppend(pins, below, [key]);
    BlockOne(pins, key);
  }

  /** A block of other pins, whose hosts hold no whitespace, onto what is there. */
  lemma BlockLoads(rest: Pins, pins: Pins, keys: seq<Key>, acc: Pins)
    requires Normal(rest) && Spaceless(rest) && forall k <- keys :: k in rest && k in pins && pins[k] == rest[k] && k.host != ""
    ensures LoadLines(BlockLines(pins, keys), acc) == Ok(acc + Kept(rest, keys))
  {
    SameEntries(rest, pins, keys);
    EntryLinesAreLines(rest, keys);
    LinesUnlines(EntryLines(rest, keys), "");
    assert Unlines(EntryLines(rest, keys)) + "" == Unlines(EntryLines(rest, keys));
    assert EntryLines(rest, keys) + Lines("") == EntryLines(rest, keys);
    LoadEntryLines(rest, keys, acc);
  }

  lemma {:induction false} SameEntries(a: Pins, b: Pins, keys: seq<Key>)
    requires forall k <- keys :: k in a && k in b && b[k] == a[k]
    ensures EntryLines(a, keys) == EntryLines(b, keys)
  {
    if keys != [] {
      assert keys[0] in keys && forall k <- keys[1..] :: k in keys;
      SameEntries(a, b, keys[1..]);
    }
  }

  lemma BlocksAre(m: Pins, key: Key, rest: Pins, below: seq<Key>, above: seq<Key>)
    requires rest == m - {key}
    requires forall k <- rest.Keys :: k.host != ""
    requires forall k :: k in below <==> k in m && k != key && KeyLe(k, key)
    requires forall k :: k in above <==> k in m && k != key && !KeyLe(k, key)
    ensures (forall k <- below :: k in rest && k.host != "") && (forall k <- above :: k in rest && k.host != "")
    ensures Kept(rest, below) == Below(m, key) && Kept(rest, above) == Above(m, key)
  {
    assert forall k <- below :: k in rest.Keys;
    assert forall k <- above :: k in rest.Keys;
  }

  /** A host with whitespace that the command line can name and whose line reads back as
      another host's pin: the store then gives that host a pin nobody set for it. */
  lemma ForeignPin(a: Bytes32, b: Bytes32, c: Bytes32)
    ensures var host := "v 443 " + HexEncode(a);
      && NormalizeHost(host) == host
      && Says(KeyOf(host, 1), b) == map[Key("v", 443) := a]
      && LoadText(Some(SaveText(map[Key("v", 443) := c][KeyOf(host, 1) := b]))) == Ok(map[Key("v", 443) := a])
  {
    var host := "v 443 " + HexEncode(a);
    ForeignNormal(a);
    ForeignLine(a, b);
    LowerV();
    ForeignOrder(host);
    ForeignStore(map[Key("v", 443) := c], Key("v", 443), host, a, b);
  }

  lemma ForeignStore(m: Pins, v: Key, host: string, a: Bytes32, b: Bytes32)
    requires m.Keys == {v} && NormalizeHost(v.host) == v.host && GoodHost(v.host)
    requires NormalizeHost(host) == host && v != Key(host, 1) && KeyLe(v, Key(host, 1))
    requires Readable(Key(host, 1), b) && Says(Key(host, 1), b) == map[v := a]
    ensures LoadText(Some(SaveText(m[KeyOf(host, 1) := b]))) == Ok(map[v := a])
  {
    SavedExactly(m, host, 1, b);
    assert StillLoads(m, host, 1, b);
    RewrittenOne(m, v, Key(host, 1), b, a);
  }

  lemma RewrittenOne(m: Pins, v: Key, key: Key, pin: Bytes32, a: Bytes32)
    requires m.Keys == {v} && v != key && KeyLe(v, key) && !IsComment(v.host) && Says(key, pin) == map[v := a]
    ensures Rewritten(m, key, pin) == map[v := a]
  {
    var says := Says(key, pin);
    assert Above(m, key) == map[];
    assert Below(m, key).Keys == {v};
    assert Below(m, key) + says + map[] == says;
  }

  lemma LowerV()
    ensures NormalizeHost("v") == "v"
  {
    assert Lower("v") == "v";
  }

  lemma ForeignOrder(host: string)
    requires |host| > 1 && host[0] == 'v'
    ensures GoodHost("v") && Key("v", 443) != Key(host, 1) && KeyLe(Key("v", 443), Key(host, 1))
  {
    assert StrLe("v", host) by {
      assert "v"[1..] == "";
    }
  }

  lemma ForeignNormal(a: Bytes32)
    ensures NormalizeHost("v 443 " + HexEncode(a)) == "v 443 " + HexEncode(a)
  {
    var x := HexEncode(a);
    var host := "v 443 " + x;
    HexEncodeDigits(a);
    assert host[|host| - 1] == x[|x| - 1] && x[|x| - 1] in x;
    assert forall i :: 0 <= i < |host| ==> LowerChar(host[i]) == host[i] by {
      forall i | 0 <= i < |host| ensures LowerChar(host[i]) == host[i] {
        if i >= 6 {
          assert host[i] == x[i - 6] && x[i - 6] in x;
        }
      }
    }
    assert Lower(host) == host;
  }

  function ForeignText(x: string, y: string): string {
    "v" + " " + ("443" + " " + (x + " " + ("1" + " " + y)))
  }

  lemma ForeignIs(x: string, b: Bytes32)
    ensures EntryText(Key("v 443 " + x, 1), b) == ForeignText(x, HexEncode(b)) + "\n" + ""
  {
    PrintsAs443();
  }

  lemma ForeignLine(a: Bytes32, b: Bytes32)
    ensures var key := Key("v 443 " + HexEncode(a), 1);
      Readable(key, b) && Says(key, b) == map[Key("v", 443) := a]
  {
    var x, y := HexEncode(a), HexEncode(b);
    PinWord(b);
    ForeignParses(a, y);
    ForeignIs(x, b);
    ForeignOneLine(a, y);
    OneEntry(Key("v 443 " + x, 1), b, ForeignText(x, y), Key("v", 443), a);
  }

  lemma ForeignOneLine(a: Bytes32, y: string)
    requires y != "" && '\n' !in y && '\r' !in y
    ensures var line := ForeignText(HexEncode(a), y); '\n' !in line && StripCr(line) == line
  {
    PinWord(a);
    var line := ForeignText(HexEncode(a), y);
    assert line[|line| - 1] == y[|y| - 1] && y[|y| - 1] in y;
  }

  /** A pin whose text is one line, and what that line says. */
  lemma OneEntry(k: Key, b: Bytes32, line: string, v: Key, a: Bytes32)
    requires EntryText(k, b) == line + "\n" + "" && '\n' !in line && StripCr(line) == line && ParseLine(line) == Entry(v, a)
    ensures Readable(k, b) && Says(k, b) == map[v := a]
  {
    LinesCons(line, "");
    assert Lines(EntryText(k, b)) == [line];
    LineLoads(line, v, a);
  }

  lemma LineLoads(line: string, v: Key, a: Bytes32)
    requires ParseLine(line) == Entry(v, a)
    ensures NoBad([line]) && LoadLines([line], map[]) == Ok(map[v := a])
  {
    LoadFirst(line, [], map[]);
    assert [line] + [] == [line];
  }

  lemma ForeignParses(a: Bytes32, y: string)
    requires y != "" && NoSpace(y) && !IsSpace(y[|y| - 1])
    ensures ParseLine(ForeignText(HexEncode(a), y)) == Entry(Key("v", 443), a)
  {
    var x := HexEncode(a);
    var line := ForeignText(x, y);
    PinWord(a);
    assert line[0] == 'v' && line[|line| - 1] == y[|y| - 1];
    TrimId(line);
    ForeignWords(x, y);
    Hex32RoundTrip(a);
    PrintsAs443();
    PortRoundTrip(443);
    LowerV();
  }

  lemma PrintsAs443()
    ensures PrintNat(443) == "443" && PrintNat(1) == "1"
  {
    assert PrintNat(4) == "4" && PrintNat(44) == "4" + "4";
  }

  lemma ForeignWords(x: string, y: string)
    requires x != "" && y != "" && NoSpace(x) && NoSpace(y)
    ensures var ws := Words(ForeignText(x, y));
      |ws| >= 3 && ws[0] == "v" && ws[1] == "443" && ws[2] == x
  {
    NextWord("v", "443" + " " + (x + " " + ("1" + " " + y)));
    NextWord("443", x + " " + ("1" + " " + y));
    NextWord(x, "1" + " " + y);
  }
}
