/** The client's pin store: a map kept in memory, its text form, and the parser. A
    file is its text, or `None` when it does not exist. */
module KnownHosts {
  import opened Common
  import opened Text
  import opened Numerals
  import opened Identity

  datatype Key = Key(host: string, port: u16)

  type Pins = map<Key, Bytes32>

  datatype StoreError = BadLine | BadFingerprint | Missing

  const HEADER: string := "# sao known_hosts: host port spki_sha256_hex"

  // ------------------------------------------------------------- normalisation

  predicate IsBracket(c: char) {
    c == '[' || c == ']'
  }

  /** `trim_matches` of brackets. */
  function TrimBrackets(h: string): (r: string)
    ensures |r| <= |h|
  {
    if h != "" && IsBracket(h[0]) then TrimBrackets(h[1..])
    else if h != "" && IsBracket(h[|h| - 1]) then TrimBrackets(h[..|h| - 1])
    else h
  }

  function NormalizeHost(h: string): string {
    Lower(TrimBrackets(h))
  }

  function KeyOf(host: string, port: u16): Key {
    Key(NormalizeHost(host), port)
  }

  // ------------------------------------------------------------------- parsing

  datatype LineResult = Skip | Entry(key: Key, pin: Bytes32) | Bad(error: StoreError)

  function ParseEntry(words: seq<string>): LineResult {
    if |words| < 3 then Bad(BadLine)
    else
      match ParseU16(words[1])
      case None => Bad(BadLine)
      case Some(port) =>
        match ParseHex32(words[2])
        case None => Bad(BadFingerprint)
        case Some(pin) => ParseHexPairsLength(Lower(Trim(words[2]))); Entry(KeyOf(words[0], port), pin)
  }

  /** One line of the file. */
  function ParseLine(line: string): LineResult {
    var l := Trim(line);
    if l == "" || l[0] == '#' then Skip else ParseEntry(Words(l))
  }

  /** The lines in order, each entry replacing an earlier one for its key. */
  function LoadLines(ls: seq<string>, pins: Pins): Result<Pins, StoreError> {
    if ls == [] then Ok(pins)
    else
      match ParseLine(ls[0])
      case Skip => LoadLines(ls[1..], pins)
      case Bad(e) => Err(e)
      case Entry(key, pin) => LoadLines(ls[1..], pins[key := pin])
  }

  function LoadText(file: Option<string>): Result<Pins, StoreError> {
    if file.None? then Ok(map[]) else LoadLines(Lines(file.value), map[])
  }

  // ------------------------------------------------------------------ printing

  /** Byte order of two strings (the order of code points). */
  predicate StrLe(a: string, b: string) {
    a == "" || (b != "" && (a[0] < b[0] || (a[0] == b[0] && StrLe(a[1..], b[1..]))))
  }

  predicate KeyLe(a: Key, b: Key) {
    if a.host == b.host then a.port <= b.port else StrLe(a.host, b.host)
  }

  predicate Sorted(keys: seq<Key>) {
    forall i, j :: 0 <= i < j < |keys| ==> KeyLe(keys[i], keys[j]) && keys[i] != keys[j]
  }

  function Insert(k: Key, keys: seq<Key>): seq<Key> {
    if keys == [] || KeyLe(k, keys[0]) then [k] + keys else [keys[0]] + Insert(k, keys[1..])
  }

  function EntryLine(pins: Pins, k: Key): string
    requires k in pins
  {
    k.host + " " + (PrintNat(k.port) + " " + HexEncode(pins[k]))
  }

  function EntryLines(pins: Pins, keys: seq<Key>): (ls: seq<string>)
    requires forall k <- keys :: k in pins
    ensures |ls| == |keys|
  {
    if keys == [] then [] else assert keys[0] in keys; [EntryLine(pins, keys[0])] + EntryLines(pins, keys[1..])
  }

  function SaveLines(pins: Pins, keys: seq<Key>): string
    requires forall k <- keys :: k in pins
  {
    Join([HEADER] + EntryLines(pins, keys) + [""], "\n")
  }

  // ------------------------------------------------------------- order lemmas

  lemma {:induction false} StrLeTotal(a: string, b: string)
    ensures StrLe(a, b) || StrLe(b, a)
    ensures StrLe(a, b) && StrLe(b, a) ==> a == b
  {
    if a != "" && b != "" && a[0] == b[0] {
      StrLeTotal(a[1..], b[1..]);
      assert a == [a[0]] + a[1..] && b == [b[0]] + b[1..];
    }
  }

  lemma {:induction false} StrLeTransitive(a: string, b: string, c: string)
    requires StrLe(a, b) && StrLe(b, c)
    ensures StrLe(a, c)
  {
    if a != "" && b != "" && c != "" && a[0] == b[0] == c[0] {
      StrLeTransitive(a[1..], b[1..], c[1..]);
    }
  }

  lemma KeyLeTotal(a: Key, b: Key)
    ensures KeyLe(a, b) || KeyLe(b, a)
    ensures KeyLe(a, b) && KeyLe(b, a) ==> a == b
  {
    StrLeTotal(a.host, b.host);
  }

  lemma KeyLeTransitive(a: Key, b: Key, c: Key)
    requires KeyLe(a, b) && KeyLe(b, c)
    ensures KeyLe(a, c)
  {
    if a.host != b.host && b.host != c.host {
      StrLeTransitive(a.host, b.host, c.host);
      StrLeTotal(a.host, b.host);
    }
  }

  lemma {:induction false} InsertSorted(k: Key, keys: seq<Key>)
    requires Sorted(keys) && k !in keys
    ensures Sorted(Insert(k, keys))
    ensures forall x :: x in Insert(k, keys) <==> x == k || x in keys
  {
    if keys != [] {
      if KeyLe(k, keys[0]) {
        forall j | 0 <= j < |keys| ensures KeyLe(k, keys[j]) && k != keys[j] {
          if j > 0 {
            KeyLeTransitive(k, keys[0], keys[j]);
          }
        }
      } else {
        KeyLeTotal(k, keys[0]);
        InsertSorted(k, keys[1..]);
        var t := Insert(k, keys[1..]);
        forall j | 0 <= j < |t| ensures KeyLe(keys[0], t[j]) && keys[0] != t[j] {
          assert t[j] in t;
          if t[j] != k {
            var i :| 0 <= i < |keys[1..]| && keys[1..][i] == t[j];
            assert t[j] == keys[i + 1];
          }
        }
        assert keys == [keys[0]] + keys[1..];
      }
    }
  }

  /** There is one sorted list of a given set of keys. */
  lemma {:induction false} SortedUnique(a: seq<Key>, b: seq<Key>)
    requires Sorted(a) && Sorted(b) && forall k :: k in a <==> k in b
    ensures a == b
  {
    assert a != [] ==> a[0] in a;
    assert b != [] ==> b[0] in b;
    if a != [] {
      SameHead(a, b);
      forall k ensures k in a[1..] <==> k in b[1..] {
        TailMember(a, k);
        TailMember(b, k);
      }
      SortedUnique(a[1..], b[1..]);
      assert a == [a[0]] + a[1..] && b == [b[0]] + b[1..];
    }
  }

  lemma SameHead(a: seq<Key>, b: seq<Key>)
    requires Sorted(a) && Sorted(b) && a != [] && b != [] && a[0] in b && b[0] in a
    ensures a[0] == b[0]
  {
    var i :| 0 <= i < |b| && b[i] == a[0];
    var j :| 0 <= j < |a| && a[j] == b[0];
    if i > 0 && j > 0 {
      KeyLeTotal(a[0], b[0]);
    }
  }

  lemma TailMember(a: seq<Key>, k: Key)
    requires Sorted(a) && a != []
    ensures k in a[1..] <==> k in a && k != a[0]
  {
    if k in a && k != a[0] {
      var i :| 0 <= i < |a| && a[i] == k;
      assert a[1..][i - 1] == k;
    }
  }

  // -------------------------------------------------------------- the class

  /** The sorted list of the keys of a map, whatever order they are visited in. */
  ghost function SortedKeys(keys: set<Key>): (ks: seq<Key>)
    ensures Sorted(ks) && forall k :: k in ks <==> k in keys
  {
    if keys == {} then []
    else
      var k :| k in keys;
      InsertSorted(k, SortedKeys(keys - {k}));
      Insert(k, SortedKeys(keys - {k}))
  }

  /** The text `save` writes: a function of the map alone. */
  ghost function SaveText(pins: Pins): string {
    SaveLines(pins, SortedKeys(pins.Keys))
  }

  /** The map as the source keeps it: a mutable field. */
  class KnownHosts {
    var pins: Pins

    constructor ()
      ensures pins == map[]
    {
      pins := map[];
    }

    /** `load`, into a store just created. */
    method Load(file: Option<string>) returns (e: Option<StoreError>)
      requires pins == map[]
      modifies this
      ensures e.None? <==> LoadText(file).Ok?
      ensures e.None? ==> LoadText(file) == Ok(pins)
      ensures e.Some? ==> LoadText(file) == Err(e.value)
    {
      if file.None? {
        return None;
      }
      var ls := Lines(file.value);
      for i := 0 to |ls|
        invariant LoadLines(ls, map[]) == LoadLines(ls[i..], pins)
      {
        assert ls[i..][1..] == ls[i + 1..];
        var r := ParseLine(ls[i]);
        match r
        case Skip =>
        case Bad(err) => return Some(err);
        case Entry(key, pin) => pins := pins[key := pin];
      }
      assert ls[|ls|..] == [];
      return None;
    }

    method InsertHex(host: string, port: u16, hex: string) returns (e: Option<StoreError>)
      modifies this
      ensures e.None? <==> ParseHex32(hex).Some?
      ensures e.None? ==> |ParseHex32(hex).value| == 32 && pins == old(pins)[KeyOf(host, port) := ParseHex32(hex).value]
      ensures e.Some? ==> e.value == BadFingerprint && pins == old(pins)
    {
      var fp := FillHex32(hex);
      if fp.None? {
        return Some(BadFingerprint);
      }
      pins := pins[KeyOf(host, port) := fp.value];
      return None;
    }

    function PinHex(host: string, port: u16): Result<Bytes32, StoreError>
      reads this
    {
      if KeyOf(host, port) in pins then Ok(pins[KeyOf(host, port)]) else Err(Missing)
    }

    /** `save`: the keys come out of the map in any order, are sorted and printed. */
    method Save() returns (text: string)
      ensures text == SaveText(pins)
    {
      var keys := CollectKeys();
      keys := SortKeys(keys);
      SortedUnique(keys, SortedKeys(pins.Keys));
      var body := PrintEntries(keys);
      var lines := [HEADER] + body + [""];
      text := Join(lines, "\n");
    }

    method PrintEntries(keys: seq<Key>) returns (lines: seq<string>)
      requires forall k <- keys :: k in pins
      ensures lines == EntryLines(pins, keys)
    {
      lines := [];
      for i := 0 to |keys|
        invariant lines == EntryLines(pins, keys[..i])
      {
        EntryLinesSnoc(pins, keys[..i], keys[i]);
        assert keys[..i + 1] == keys[..i] + [keys[i]];
        lines := lines + [EntryLine(pins, keys[i])];
      }
      assert keys[..|keys|] == keys;
    }

    method CollectKeys() returns (keys: seq<Key>)
      ensures (forall k :: k in keys <==> k in pins) && Distinct(keys)
    {
      keys := [];
      var left := pins.Keys;
      while left != {}
        invariant left <= pins.Keys && Distinct(keys)
        invariant forall k :: k in keys <==> k in pins && k !in left
        decreases left
      {
        var k :| k in left;
        keys := keys + [k];
        left := left - {k};
      }
    }
  }

  predicate Distinct(keys: seq<Key>) {
    forall i, j :: 0 <= i < j < |keys| ==> keys[i] != keys[j]
  }

  method SortKeys(keys: seq<Key>) returns (sorted: seq<Key>)
    requires Distinct(keys)
    ensures Sorted(sorted) && forall k :: k in sorted <==> k in keys
  {
    sorted := [];
    for i := 0 to |keys|
      invariant Sorted(sorted) && forall k :: k in sorted <==> k in keys[..i]
    {
      assert keys[..i + 1] == keys[..i] + [keys[i]];
      InsertSorted(keys[i], sorted);
      sorted := Insert(keys[i], sorted);
    }
    assert keys[..|keys|] == keys;
  }

  lemma {:induction false} EntryLinesSnoc(pins: Pins, keys: seq<Key>, k: Key)
    requires (forall x <- keys :: x in pins) && k in pins
    ensures forall x <- keys + [k] :: x in pins
    ensures EntryLines(pins, keys + [k]) == EntryLines(pins, keys) + [EntryLine(pins, k)]
  {
    if keys == [] {
      assert [] + [k] == [k] && [k][1..] == [];
    } else {
      assert keys[0] in keys && forall x <- keys[1..] :: x in keys;
      EntryLinesSnoc(pins, keys[1..], k);
      assert (keys + [k])[1..] == keys[1..] + [k];
    }
  }
}
