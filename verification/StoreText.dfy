/** The pin file, told on its characters: what each line says, which line a refusal is
    about, and the text that is saved. */
module StoreText {
  import opened Common
  import opened Text
  import opened Numerals
  import opened Identity
  import opened KnownHosts
  import opened KnownHostsLaws

  /** The text reads as this port: its number, any zeros and at most one plus sign. */
  ghost predicate PortSays(text: string, port: u16) {
    exists k: nat :: text == Zeros(k) + PrintNat(port) || text == "+" + (Zeros(k) + PrintNat(port))
  }

  /** The text, trimmed and in lower case, is 32 pairs that stand for these bytes. */
  predicate PinSays(text: string, pin: Bytes32) {
    var s := Lower(Trim(text));
    |s| == 64 && forall i :: 0 <= i < 32 ==> PairSays(s, i, pin[i])
  }

  predicate IsRemark(line: string) {
    var t := Trim(line);
    t == "" || t[0] == '#'
  }

  lemma PortSaysIff(text: string, port: u16)
    ensures ParseU16(text) == Some(port) <==> PortSays(text, port)
  {
    ParseU16Exact(text, port);
  }

  lemma PinSaysIff(text: string, pin: Bytes32)
    ensures ParseHex32(text) == Some(pin) <==> PinSays(text, pin)
  {
    ParseHex32Value(text, pin);
  }

  /** The words of a line say this port and this pin. */
  lemma WordsSay(words: seq<string>, key: Key, pin: Bytes32)
    requires |words| >= 3
    ensures ParseEntry(words) == Entry(key, pin) <==>
      key.host == NormalizeHost(words[0]) && PortSays(words[1], key.port) && PinSays(words[2], pin)
  {
    PortSaysIff(words[1], key.port);
    PinSaysIff(words[2], pin);
  }

  /** A line with enough words is refused for its port, if that says none, and otherwise
      for its fingerprint. */
  lemma WordsRefused(words: seq<string>)
    requires |words| >= 3
    ensures ParseEntry(words) == Bad(BadLine) <==> forall p: u16 :: !PortSays(words[1], p)
    ensures ParseEntry(words) == Bad(BadFingerprint) <==>
      (exists p: u16 :: PortSays(words[1], p)) && forall b: Bytes32 :: !PinSays(words[2], b)
  {
    forall p: u16 ensures ParseU16(words[1]) == Some(p) <==> PortSays(words[1], p) {
      PortSaysIff(words[1], p);
    }
    forall b: Bytes32 ensures ParseHex32(words[2]) == Some(b) <==> PinSays(words[2], b) {
      PinSaysIff(words[2], b);
    }
    if ParseHex32(words[2]).Some? {
      ParseHexPairsLength(Lower(Trim(words[2])));
    }
    if ParseU16(words[1]).Some? {
      assert PortSays(words[1], ParseU16(words[1]).value);
    }
  }

  /** One line of the file: passed over, an entry, or refused, exactly when. */
  lemma LineMeaning(line: string, key: Key, pin: Bytes32)
    ensures var ws := Words(Trim(line));
      && (ParseLine(line) == Skip <==> IsRemark(line))
      && (ParseLine(line) == Entry(key, pin) <==>
            && !IsRemark(line) && |ws| >= 3
            && key.host == NormalizeHost(ws[0]) && PortSays(ws[1], key.port) && PinSays(ws[2], pin))
      && (ParseLine(line) == Bad(BadLine) <==>
            !IsRemark(line) && (|ws| < 3 || forall p: u16 :: !PortSays(ws[1], p)))
      && (ParseLine(line) == Bad(BadFingerprint) <==>
            && !IsRemark(line) && |ws| >= 3 && (exists p: u16 :: PortSays(ws[1], p))
            && forall b: Bytes32 :: !PinSays(ws[2], b))
  {
    var ws := Words(Trim(line));
    if |ws| >= 3 {
      WordsSay(ws, key, pin);
      WordsRefused(ws);
    }
  }

  /** Line `i` is the first that is refused, and for this. */
  predicate Refuses(ls: seq<string>, i: nat, e: StoreError) {
    i < |ls| && ParseLine(ls[i]) == Bad(e) && NoBad(ls[..i])
  }

  lemma RefusesLater(l: string, t: seq<string>, i: nat, e: StoreError)
    requires !ParseLine(l).Bad?
    ensures Refuses([l] + t, i + 1, e) <==> Refuses(t, i, e)
  {
    if i < |t| {
      assert ([l] + t)[..i + 1] == [l] + t[..i];
      assert forall x <- t[..i] :: x in [l] + t[..i];
    }
  }

  lemma RefusesFirst(ls: seq<string>, e: StoreError)
    requires ls != [] && ParseLine(ls[0]).Bad?
    ensures ParseLine(ls[0]) == Bad(e) <==> exists i :: Refuses(ls, i, e)
  {
    if ParseLine(ls[0]) == Bad(e) {
      assert Refuses(ls, 0, e);
    }
    forall i: nat ensures Refuses(ls, i, e) ==> i == 0 {
      if 0 < i <= |ls| {
        assert ls[..i][0] in ls[..i];
      }
    }
  }

  /** A file is refused for its first refused line, as that line says; no file is an empty
      store. */
  lemma {:induction false} RefusalMeaning(ls: seq<string>, acc: Pins, e: StoreError)
    ensures LoadText(None) == Ok(map[])
    ensures LoadLines(ls, acc) == Err(e) <==> exists i :: Refuses(ls, i, e)
  {
    if ls != [] {
      var l, t := ls[0], ls[1..];
      assert ls == [l] + t;
      LoadFirst(l, t, acc);
      if ParseLine(l).Bad? {
        RefusesFirst(ls, e);
      } else {
        RefusalMeaning(t, match ParseLine(l) case Entry(k, pin) => acc[k := pin] case _ => acc, e);
        if i: nat :| Refuses(t, i, e) {
          RefusesLater(l, t, i, e);
        }
        if i: nat :| Refuses(ls, i, e) {
          RefusesLater(l, t, i - 1, e);
        }
      }
    }
  }

  /** The saved text: a fixed first line, and a line for each key in turn. */
  lemma SavedLayout(pins: Pins, keys: seq<Key>, k: Key)
    requires (forall x <- keys :: x in pins) && k in pins
    ensures SaveLines(pins, []) == "# sao known_hosts: host port spki_sha256_hex\n"
    ensures forall x <- keys + [k] :: x in pins
    ensures SaveLines(pins, keys + [k])
         == SaveLines(pins, keys) + (k.host + " " + PrintNat(k.port) + " " + HexEncode(pins[k]) + "\n")
  {
    var ls, l := [HEADER] + EntryLines(pins, keys), EntryLine(pins, k);
    EntryLinesSnoc(pins, keys, k);
    assert [HEADER] + EntryLines(pins, keys + [k]) == ls + [l];
    JoinUnlines(ls);
    JoinUnlines(ls + [l]);
    UnlinesSnoc(ls, l);
    assert [HEADER] + EntryLines(pins, []) == [HEADER];
    JoinUnlines([HEADER]);
    assert l == k.host + " " + PrintNat(k.port) + " " + HexEncode(pins[k]);
  }

  lemma {:induction false} UnlinesSnoc(ls: seq<string>, l: string)
    ensures Unlines(ls + [l]) == Unlines(ls) + (l + "\n")
  {
    if ls == [] {
      assert [] + [l] == [l] && [l][1..] == [];
    } else {
      UnlinesSnoc(ls[1..], l);
      assert (ls + [l])[1..] == ls[1..] + [l];
      Assoc(ls[0] + "\n", Unlines(ls[1..]), l + "\n");
    }
  }

  /** The order of hosts: a beginning comes first, and otherwise the first difference
      decides. */
  lemma {:induction false} StrLeIff(a: string, b: string)
    ensures StrLe(a, b) <==>
      || a <= b
      || exists i :: 0 <= i < |a| && i < |b| && a[..i] == b[..i] && a[i] < b[i]
  {
    if a != "" && b != "" {
      var s, t := a[1..], b[1..];
      if a[0] == b[0] {
        StrLeIff(s, t);
        assert a == [a[0]] + s && b == [a[0]] + t;
        assert s <= t <==> a <= b;
        forall i | 0 <= i < |a| && i < |b| && a[..i] == b[..i] && a[i] < b[i]
          ensures i > 0 && s[..i - 1] == t[..i - 1] && s[i - 1] < t[i - 1]
        {
          assert s[..i - 1] == a[..i][1..] && t[..i - 1] == b[..i][1..];
        }
        forall i | 0 <= i < |s| && i < |t| && s[..i] == t[..i] && s[i] < t[i]
          ensures a[..i + 1] == b[..i + 1] && a[i + 1] < b[i + 1]
        {
          assert a[..i + 1] == [a[0]] + s[..i] && b[..i + 1] == [a[0]] + t[..i];
        }
      } else {
        assert a[..0] == b[..0];
        forall i | 0 < i < |a| && i < |b| ensures a[..i] != b[..i] {
          assert a[..i][0] == a[0] && b[..i][0] == b[0];
        }
      }
    }
  }

  lemma KeyLeIff(a: Key, b: Key)
    ensures KeyLe(a, b) <==>
      || (a.host == b.host && a.port <= b.port)
      || (a.host != b.host && a.host <= b.host)
      || exists i :: 0 <= i < |a.host| && i < |b.host| && a.host[..i] == b.host[..i] && a.host[i] < b.host[i]
  {
    StrLeIff(a.host, b.host);
  }
}
