/** The server's table of keys: `authorized_keys` lines of `sao-ed25519 <base64>
    [comment...]`. */
module AuthorizedKeys {
  import opened Common
  import opened Text
  import opened Identity
  import Base64

  datatype KeysError = MissingBlob | BadBase64 | BadLength | BadPoint | NoKeys

  datatype LineResult = Skip | Entry(key: AuthorizedKey) | Bad(error: KeysError)

  function ParseKey(crypto: Crypto, blob: string, comment: string): LineResult {
    match Base64.Decode(blob)
    case None => Bad(BadBase64)
    case Some(raw) =>
      if |raw| != 32 then Bad(BadLength)
      else if !crypto.validPoint(raw) then Bad(BadPoint)
      else Entry(AuthorizedKey(raw, FingerprintHex(crypto, raw), comment))
  }

  /** One line: the blob must be there even when the type is one to be skipped. */
  function ParseLine(crypto: Crypto, line: string): LineResult {
    var l := Trim(line);
    if l == "" || l[0] == '#' then Skip
    else
      var words := Words(l);
      if |words| < 2 then Bad(MissingBlob)
      else if words[0] != KEY_TYPE_ED25519 then Skip
      else ParseKey(crypto, words[1], Join(words[2..], " "))
  }

  /** The entries of the lines in order, or the first error. */
  function LoadLines(crypto: Crypto, ls: seq<string>): Result<seq<AuthorizedKey>, KeysError> {
    if ls == [] then Ok([])
    else
      match ParseLine(crypto, ls[0])
      case Skip => LoadLines(crypto, ls[1..])
      case Bad(e) => Err(e)
      case Entry(k) =>
        match LoadLines(crypto, ls[1..])
        case Ok(rest) => Ok([k] + rest)
        case Err(e) => Err(e)
  }

  /** `load_authorized_keys` on the file's text. */
  function LoadKeys(crypto: Crypto, text: string): Result<seq<AuthorizedKey>, KeysError> {
    match LoadLines(crypto, Lines(text))
    case Ok(keys) => if keys == [] then Err(NoKeys) else Ok(keys)
    case Err(e) => Err(e)
  }

  lemma {:induction false} LoadLinesAppend(crypto: Crypto, a: seq<string>, b: seq<string>)
    ensures LoadLines(crypto, a + b) ==
      match LoadLines(crypto, a)
      case Err(e) => Err(e)
      case Ok(ka) => match LoadLines(crypto, b) case Err(e) => Err(e) case Ok(kb) => Ok(ka + kb)
  {
    if a == [] {
      assert a + b == b;
      if LoadLines(crypto, b).Ok? {
        assert [] + LoadLines(crypto, b).value == LoadLines(crypto, b).value;
      }
    } else {
      assert (a + b)[1..] == a[1..] + b && (a + b)[0] == a[0];
      LoadLinesAppend(crypto, a[1..], b);
      if ParseLine(crypto, a[0]).Entry? && LoadLines(crypto, a[1..]).Ok? && LoadLines(crypto, b).Ok? {
        Assoc([ParseLine(crypto, a[0]).key], LoadLines(crypto, a[1..]).value, LoadLines(crypto, b).value);
      }
    }
  }

  /** A table parses exactly when none of its lines is malformed; then every entry is
      in it, and only entries are. */
  lemma {:induction false} LoadLinesIff(crypto: Crypto, ls: seq<string>)
    ensures LoadLines(crypto, ls).Ok? <==> forall l <- ls :: !ParseLine(crypto, l).Bad?
    ensures LoadLines(crypto, ls).Ok? ==>
      forall k :: k in LoadLines(crypto, ls).value <==> exists l :: l in ls && ParseLine(crypto, l) == Entry(k)
  {
    if ls != [] {
      assert ls == [ls[0]] + ls[1..];
      LoadLinesIff(crypto, ls[1..]);
      if LoadLines(crypto, ls).Ok? {
        forall k ensures k in LoadLines(crypto, ls).value <==> exists l :: l in ls && ParseLine(crypto, l) == Entry(k) {
          EntryCons(crypto, ls[0], ls[1..], k);
        }
      }
    }
  }

  lemma EntryCons(crypto: Crypto, h: string, t: seq<string>, k: AuthorizedKey)
    ensures (exists l :: l in [h] + t && ParseLine(crypto, l) == Entry(k)) <==>
      ParseLine(crypto, h) == Entry(k) || exists l :: l in t && ParseLine(crypto, l) == Entry(k)
  {
    assert h in [h] + t && forall l <- t :: l in [h] + t;
  }

  /** Reads the lines in order, pushing each key. */
  method LoadAuthorizedKeys(crypto: Crypto, text: string) returns (r: Result<seq<AuthorizedKey>, KeysError>)
    ensures r == LoadKeys(crypto, text)
    ensures r.Ok? ==> r.value != [] && TableOf(crypto, r.value)
    ensures r.Ok? ==> forall k <- r.value :: crypto.validPoint(k.verifyingKey)
  {
    var ls := Lines(text);
    var out: seq<AuthorizedKey> := [];
    for i := 0 to |ls|
      invariant LoadLines(crypto, ls[..i]) == Ok(out)
      invariant TableOf(crypto, out) && forall k <- out :: crypto.validPoint(k.verifyingKey)
    {
      var line := ParseLine(crypto, ls[i]);
      assert ls == ls[..i + 1] + ls[i + 1..] && ls[..i + 1] == ls[..i] + [ls[i]];
      LoadLinesAppend(crypto, ls[..i], [ls[i]]);
      LoadLinesAppend(crypto, ls[..i + 1], ls[i + 1..]);
      OneLine(crypto, ls[i]);
      match line
      case Skip => assert out + [] == out;
      case Bad(e) => return Err(e);
      case Entry(k) => out := out + [k];
    }
    assert ls[..|ls|] == ls;
    if out == [] {
      return Err(NoKeys);
    }
    return Ok(out);
  }

  lemma OneLine(crypto: Crypto, l: string)
    ensures LoadLines(crypto, [l]) == match ParseLine(crypto, l)
      case Skip => Ok([])
      case Bad(e) => Err(e)
      case Entry(k) => Ok([k])
  {
    assert [l][1..] == [];
    assert LoadLines(crypto, []) == Ok([]);
    if ParseLine(crypto, l).Entry? {
      var k := ParseLine(crypto, l).key;
      assert [k] + [] == [k];
    }
  }

  // ------------------------------------------------------ refusal, told on the text

  /** The words of a line that is neither blank nor a comment. */
  function EntryWords(line: string): seq<string> {
    var l := Trim(line);
    if l == "" || l[0] == '#' then [] else Words(l)
  }

  /** The blob is the base64 of a public key. */
  ghost predicate IsKeyBlob(crypto: Crypto, blob: string) {
    exists pk: Bytes32 :: crypto.validPoint(pk) && Base64.Encode(pk) == blob
  }

  /** A line with one word only, or of the one key type and with a second word that is
      not the base64 of a key. */
  ghost predicate Spoils(crypto: Crypto, line: string) {
    var ws := EntryWords(line);
    ws != [] && (|ws| == 1 || (ws[0] == KEY_TYPE_ED25519 && !IsKeyBlob(crypto, ws[1])))
  }

  lemma RefusedIff(crypto: Crypto, line: string)
    ensures ParseLine(crypto, line).Bad? <==> Spoils(crypto, line)
  {
    var ws := EntryWords(line);
    if Trim(line) != "" && Trim(line)[0] != '#' {
      SomeWord(line);
    }
    if |ws| >= 2 {
      BlobIff(crypto, ws[1], Join(ws[2..], " "));
    }
  }

  lemma BlobIff(crypto: Crypto, blob: string, comment: string)
    ensures ParseKey(crypto, blob, comment).Bad? <==> !IsKeyBlob(crypto, blob)
  {
    if Base64.Decode(blob).Some? {
      Base64.EncodeDecode(blob);
    }
    forall pk: Bytes32 | Base64.Encode(pk) == blob ensures Base64.Decode(blob) == Some(pk) {
      Base64.DecodeEncode(pk);
    }
  }

  /** A text that is not blank has a word. */
  lemma SomeWord(s: string)
    requires Trim(s) != ""
    ensures Words(Trim(s)) != []
  {
    StartTrimmed(s);
    EndTrimmed(TrimStart(s));
    assert Trim(s)[0] == TrimStart(s)[0];
  }

  lemma {:induction false} StartTrimmed(s: string)
    ensures TrimStart(s) != "" ==> !IsSpace(TrimStart(s)[0])
  {
    if s != "" {
      StartTrimmed(s[1..]);
    }
  }

  lemma {:induction false} EndTrimmed(s: string)
    ensures TrimEnd(s) <= s
  {
    if s != "" {
      EndTrimmed(s[..|s| - 1]);
    }
  }

  /** A line of the one key type. */
  predicate IsKeyLine(line: string) {
    |EntryWords(line)| >= 2 && EntryWords(line)[0] == KEY_TYPE_ED25519
  }

  lemma {:induction false} SomeKeyIff(crypto: Crypto, ls: seq<string>)
    requires LoadLines(crypto, ls).Ok?
    ensures LoadLines(crypto, ls).value != [] <==> exists l :: l in ls && IsKeyLine(l)
  {
    if ls != [] {
      assert ls == [ls[0]] + ls[1..];
      SomeKeyIff(crypto, ls[1..]);
      assert ParseLine(crypto, ls[0]).Entry? <==> IsKeyLine(ls[0]);
    }
  }

  /** A file is accepted exactly when none of its lines spoils it and one of them is of
      the one key type. */
  lemma TableIff(crypto: Crypto, text: string)
    ensures LoadKeys(crypto, text).Ok? <==>
      (forall l <- Lines(text) :: !Spoils(crypto, l)) && exists l :: l in Lines(text) && IsKeyLine(l)
  {
    var ls := Lines(text);
    LoadLinesIff(crypto, ls);
    forall l <- ls ensures ParseLine(crypto, l).Bad? <==> Spoils(crypto, l) {
      RefusedIff(crypto, l);
    }
    if LoadLines(crypto, ls).Ok? {
      SomeKeyIff(crypto, ls);
    }
  }

  /** The comments promise that other key types are skipped; one word alone is not. */
  lemma OtherTypeRefused(crypto: Crypto)
    ensures ParseLine(crypto, "rsa") == Bad(MissingBlob)
    ensures forall text :: EndsLine(text) ==> LoadKeys(crypto, text + "rsa\n").Err?
  {
    TrimId("rsa");
    LastWord("rsa");
    forall text | EndsLine(text) ensures LoadKeys(crypto, text + "rsa\n").Err? {
      LinesAppend(text, "rsa\n");
      LinesCons("rsa", "");
      assert "rsa" + "\n" + "" == "rsa\n";
      assert Lines(text + "rsa\n") == Lines(text) + ["rsa"];
      LoadLinesAppend(crypto, Lines(text), ["rsa"]);
      OneLine(crypto, "rsa");
    }
  }

  /** A line of another key type: with a second word the file means what it means without
      the line, and without one the whole file is refused. */
  lemma OtherTypeSkippedIff(crypto: Crypto, before: seq<string>, line: string, after: seq<string>)
    requires EntryWords(line) != [] && EntryWords(line)[0] != KEY_TYPE_ED25519
    ensures |EntryWords(line)| >= 2 ==> LoadLines(crypto, before + [line] + after) == LoadLines(crypto, before + after)
    ensures |EntryWords(line)| < 2 ==> LoadLines(crypto, before + [line] + after).Err?
  {
    OneLine(crypto, line);
    LoadLinesAppend(crypto, before, [line]);
    LoadLinesAppend(crypto, before + [line], after);
    LoadLinesAppend(crypto, before, after);
    if LoadLines(crypto, before).Ok? {
      assert LoadLines(crypto, before).value + [] == LoadLines(crypto, before).value;
    }
  }

  // -------------------------------------------------- entries, told on the words

  function Letters(ws: seq<string>): nat {
    if ws == [] then 0 else |ws[0]| + Letters(ws[1..])
  }

  /** The text is these words with one space character between any two, and no more. */
  predicate SingleSpaced(ws: seq<string>, text: string) {
    && Words(text) == ws
    && (forall c <- text :: IsSpace(c) ==> c == ' ')
    && |text| == Letters(ws) + if ws == [] then 0 else |ws| - 1
  }

  lemma {:induction false} JoinSpaced(ws: seq<string>)
    requires forall w <- ws :: w != "" && NoSpace(w)
    ensures SingleSpaced(ws, Join(ws, " "))
  {
    if ws == [] {
    } else if |ws| == 1 {
      assert ws[0] in ws && ws == [ws[0]];
      LastWord(ws[0]);
      assert Letters(ws[1..]) == 0;
    } else {
      var more := ws[1..];
      assert ws[0] in ws && forall w <- more :: w in ws;
      JoinSpaced(more);
      NextWord(ws[0], Join(more, " "));
      assert ws == [ws[0]] + more;
    }
  }

  /** The words of a line of the one key type. */
  predicate OfType(ws: seq<string>) {
    |ws| >= 2 && ws[0] == "sao-ed25519"
  }

  /** What an entry says: the key its second word encodes, that key's fingerprint, and the
      other words as a comment. */
  lemma EntryTold(crypto: Crypto, line: string, k: AuthorizedKey)
    requires ParseLine(crypto, line) == Entry(k)
    ensures var ws := EntryWords(line);
      && OfType(ws)
      && crypto.validPoint(k.verifyingKey) && Base64.Encode(k.verifyingKey) == ws[1]
      && k.fingerprintHex == FingerprintHex(crypto, k.verifyingKey)
      && SingleSpaced(ws[2..], k.comment)
  {
    var ws := EntryWords(line);
    Base64.EncodeDecode(ws[1]);
    WordsAreWords(Trim(line));
    assert forall w <- ws[2..] :: w in ws;
    JoinSpaced(ws[2..]);
  }

  lemma NoBytes(blob: string)
    ensures Base64.Decode(blob).None? <==> forall raw :: Base64.Encode(raw) != blob
  {
    if Base64.Decode(blob).Some? {
      Base64.EncodeDecode(blob);
    }
    if raw :| Base64.Encode(raw) == blob {
      Base64.DecodeEncode(raw);
    }
  }

  lemma LengthKind(crypto: Crypto, blob: string, comment: string)
    ensures ParseKey(crypto, blob, comment) == Bad(BadLength) <==> exists raw :: |raw| != 32 && Base64.Encode(raw) == blob
  {
    if ParseKey(crypto, blob, comment) == Bad(BadLength) {
      Base64.EncodeDecode(blob);
    }
    if raw :| |raw| != 32 && Base64.Encode(raw) == blob {
      Base64.DecodeEncode(raw);
    }
  }

  lemma PointKind(crypto: Crypto, blob: string, comment: string)
    ensures ParseKey(crypto, blob, comment) == Bad(BadPoint) <==>
      exists pk: Bytes32 :: !crypto.validPoint(pk) && Base64.Encode(pk) == blob
  {
    if ParseKey(crypto, blob, comment) == Bad(BadPoint) {
      Base64.EncodeDecode(blob);
      var pk: Bytes32 := Base64.Decode(blob).value;
      assert !crypto.validPoint(pk) && Base64.Encode(pk) == blob;
    }
    if pk: Bytes32 :| !crypto.validPoint(pk) && Base64.Encode(pk) == blob {
      Base64.DecodeEncode(pk);
    }
  }

  /** The words of a line settle how it is read. */
  lemma LineByWords(crypto: Crypto, line: string)
    ensures var ws := EntryWords(line);
      ParseLine(crypto, line) ==
        if ws == [] then Skip
        else if |ws| == 1 then Bad(MissingBlob)
        else if OfType(ws) then ParseKey(crypto, ws[1], Join(ws[2..], " "))
        else Skip
  {
    if Trim(line) != "" && Trim(line)[0] != '#' {
      SomeWord(line);
    }
  }

  /** A line is passed over, or refused, for exactly this. */
  lemma LineKinds(crypto: Crypto, line: string)
    ensures var ws, r := EntryWords(line), ParseLine(crypto, line);
      && (r == Skip <==> ws == [] || (|ws| >= 2 && !OfType(ws)))
      && (r == Bad(MissingBlob) <==> |ws| == 1)
      && (r == Bad(BadBase64) <==> OfType(ws) && forall raw :: Base64.Encode(raw) != ws[1])
      && (r == Bad(BadLength) <==> OfType(ws) && exists raw :: |raw| != 32 && Base64.Encode(raw) == ws[1])
      && (r == Bad(BadPoint) <==>
            OfType(ws) && exists pk: Bytes32 :: !crypto.validPoint(pk) && Base64.Encode(pk) == ws[1])
  {
    var ws := EntryWords(line);
    LineByWords(crypto, line);
    if OfType(ws) {
      NoBytes(ws[1]);
      LengthKind(crypto, ws[1], Join(ws[2..], " "));
      PointKind(crypto, ws[1], Join(ws[2..], " "));
    }
  }

  /** A file without a line of the one key type is refused for that, if for nothing else. */
  lemma NoKeysIff(crypto: Crypto, text: string)
    ensures LoadKeys(crypto, text) == Err(NoKeys) <==>
      (forall l <- Lines(text) :: !Spoils(crypto, l)) && !exists l :: l in Lines(text) && IsKeyLine(l)
  {
    TableIff(crypto, text);
    NoKeysAbove(crypto, Lines(text));
    forall l <- Lines(text) ensures ParseLine(crypto, l).Bad? <==> Spoils(crypto, l) {
      RefusedIff(crypto, l);
    }
    LoadLinesIff(crypto, Lines(text));
  }

  lemma {:induction false} NoKeysAbove(crypto: Crypto, ls: seq<string>)
    ensures LoadLines(crypto, ls) != Err(NoKeys)
  {
    if ls != [] {
      NoKeysAbove(crypto, ls[1..]);
    }
  }
}
