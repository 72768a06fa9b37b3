/** The client's key files, and their agreement with the server's table. A file is
    its text. */
module AgentKey {
  import opened Common
  import opened Text
  import opened Identity
  import AuthorizedKeys
  import Base64

  const FILE_HEADER: string := "sao-ed25519-private-v1"
  const HINT_START: string := "# Append this line to the "
  const HINT_END: string := "server's authorized_keys file."
  const APPEND_HINT: string := HINT_START + HINT_END
  const COMMENT: string := "agent"

  // --------------------------------------------------------------- public key

  function PublicLine(pk: Bytes32): string {
    KEY_TYPE_ED25519 + " " + (Base64.Encode(pk) + " " + COMMENT)
  }

  /** The body of the `.pub` file. */
  function PublicBody(pk: Bytes32): string {
    Unlines([APPEND_HINT, PublicLine(pk)])
  }

  lemma Base64Word(bs: seq<byte>)
    requires bs != []
    ensures var s := Base64.Encode(bs);
      s != "" && NoSpace(s) && '\n' !in s && s[0] != '#' && s[|s| - 1] != '\r' && !IsSpace(s[0]) && !IsSpace(s[|s| - 1])
      && (forall c <- s :: Base64.IsText(c))
  {
    var s := Base64.Encode(bs);
    Base64.EncodeText(bs);
    Base64.EncodeLength(bs);
    assert s[0] in s && s[|s| - 1] in s;
  }

  lemma PublicLineShape(pk: Bytes32)
    ensures IsLine(PublicLine(pk)) && TrimFixed(PublicLine(pk)) && PublicLine(pk) != "" && PublicLine(pk)[0] != '#'
    ensures Words(PublicLine(pk)) == [KEY_TYPE_ED25519, Base64.Encode(pk), COMMENT]
  {
    var b := Base64.Encode(pk);
    var l := PublicLine(pk);
    Base64Word(pk);
    ThreeWords(KEY_TYPE_ED25519, b, COMMENT);
    assert l[0] == 's' && l[|l| - 1] == 't';
  }

  /** The server reads the generated line as one entry for that key. */
  lemma PublicLineParses(crypto: Crypto, pk: Bytes32)
    requires crypto.validPoint(pk)
    ensures AuthorizedKeys.ParseLine(crypto, PublicLine(pk))
         == AuthorizedKeys.Entry(AuthorizedKey(pk, FingerprintHex(crypto, pk), COMMENT))
  {
    PublicLineShape(pk);
    TrimId(PublicLine(pk));
    Base64.DecodeEncode(pk);
    assert [KEY_TYPE_ED25519, Base64.Encode(pk), COMMENT][2..] == [COMMENT];
  }

  lemma HintIsComment()
    ensures IsLine(APPEND_HINT) && Trim(APPEND_HINT) == APPEND_HINT && APPEND_HINT != "" && APPEND_HINT[0] == '#'
  {
    assert '\n' !in HINT_START && '\n' !in HINT_END;
    assert HINT_START[0] == '#' && HINT_END[|HINT_END| - 1] == '.';
    TrimId(APPEND_HINT);
  }

  lemma PublicBodyLines(pk: Bytes32)
    ensures Lines(PublicBody(pk)) == [APPEND_HINT, PublicLine(pk)]
  {
    PublicLineShape(pk);
    HintIsComment();
    var ls := [APPEND_HINT, PublicLine(pk)];
    LinesUnlines(ls, "");
    assert Unlines(ls) + "" == Unlines(ls) && ls + Lines("") == ls;
  }

  lemma PublicBodyLoads(crypto: Crypto, pk: Bytes32)
    requires crypto.validPoint(pk)
    ensures AuthorizedKeys.LoadLines(crypto, [APPEND_HINT, PublicLine(pk)])
         == Ok([AuthorizedKey(pk, FingerprintHex(crypto, pk), COMMENT)])
  {
    var l := PublicLine(pk);
    assert AuthorizedKeys.LoadLines(crypto, [APPEND_HINT]) == Ok([]) by {
      HintIsComment();
      AuthorizedKeys.OneLine(crypto, APPEND_HINT);
    }
    PublicLineParses(crypto, pk);
    AuthorizedKeys.OneLine(crypto, l);
    AuthorizedKeys.LoadLinesAppend(crypto, [APPEND_HINT], [l]);
    assert [APPEND_HINT] + [l] == [APPEND_HINT, l];
  }

  /** Appending the `.pub` body to a table that parses, and ends its last line, adds
      exactly this key, at the end. */
  lemma AppendPublicKey(crypto: Crypto, text: string, pk: Bytes32)
    requires crypto.validPoint(pk) && EndsLine(text)
    requires AuthorizedKeys.LoadLines(crypto, Lines(text)).Ok?
    ensures AuthorizedKeys.LoadKeys(crypto, text + PublicBody(pk))
         == Ok(AuthorizedKeys.LoadLines(crypto, Lines(text)).value + [AuthorizedKey(pk, FingerprintHex(crypto, pk), COMMENT)])
  {
    LinesAppend(text, PublicBody(pk));
    PublicBodyLines(pk);
    PublicBodyLoads(crypto, pk);
    AuthorizedKeys.LoadLinesAppend(crypto, Lines(text), [APPEND_HINT, PublicLine(pk)]);
  }

  lemma {:induction false} LoadedTable(crypto: Crypto, ls: seq<string>)
    requires AuthorizedKeys.LoadLines(crypto, ls).Ok?
    ensures TableOf(crypto, AuthorizedKeys.LoadLines(crypto, ls).value)
  {
    if ls != [] {
      match AuthorizedKeys.ParseLine(crypto, ls[0])
      case Bad(_) =>
      case _ => LoadedTable(crypto, ls[1..]);
    }
  }

  /** Follow the instructions and log in: with the generated line appended, the server
      accepts this client on any challenge, under its own key. */
  lemma EnrolledClientAccepted(crypto: Crypto, text: string, sk: Bytes32, nonce: seq<byte>, sessionId: seq<byte>)
    requires crypto.Correct() && EndsLine(text) && AuthorizedKeys.LoadLines(crypto, Lines(text)).Ok?
    requires NoCollision(crypto, AuthorizedKeys.LoadLines(crypto, Lines(text)).value, crypto.publicKey(sk))
    ensures var pk := crypto.publicKey(sk);
      var keys := AuthorizedKeys.LoadKeys(crypto, text + PublicBody(pk));
      && keys.Ok?
      && var a := Authenticate(crypto, keys.value, nonce, sessionId, KEY_TYPE_ED25519, FingerprintHex(crypto, pk),
                               SignAuthMessage(crypto, sk, SigningBytes(nonce, sessionId)));
         a.Ok? && a.value.verifyingKey == pk
  {
    var pk := crypto.publicKey(sk);
    AppendPublicKey(crypto, text, pk);
    LoadedTable(crypto, Lines(text));
    var keys := AuthorizedKeys.LoadKeys(crypto, text + PublicBody(pk)).value;
    var entry := AuthorizedKey(pk, FingerprintHex(crypto, pk), COMMENT);
    assert entry == keys[|keys| - 1];
    HonestAccepted(crypto, keys, entry, sk, nonce, sessionId);
  }

  // -------------------------------------------------------------- private key

  datatype KeyError = BadBase64 | BadLength | NoMaterial

  /** The body of the private key file. */
  function PrivateBody(sk: Bytes32): string {
    Unlines([FILE_HEADER, Base64.Encode(sk)])
  }

  predicate IsIgnored(line: string) {
    var l := Trim(line);
    l == FILE_HEADER || l == "" || l[0] == '#'
  }

  function ParseMaterial(line: string): Result<Bytes32, KeyError> {
    match Base64.Decode(Trim(line))
    case None => Err(BadBase64)
    case Some(raw) => if |raw| != 32 then Err(BadLength) else Ok(raw)
  }

  /** The first line that is neither header, blank nor comment decides. */
  function LoadPrivate(ls: seq<string>): Result<Bytes32, KeyError> {
    if ls == [] then Err(NoMaterial)
    else if IsIgnored(ls[0]) then LoadPrivate(ls[1..])
    else ParseMaterial(ls[0])
  }

  /** The two files, as texts; `None` is a file that does not exist. */
  class KeyFiles {
    var privateFile: Option<string>
    var publicFile: Option<string>

    constructor (p: Option<string>)
      ensures privateFile == p && publicFile == None
    {
      privateFile, publicFile := p, None;
    }

    method WriteAgentPublicKeyFile(crypto: Crypto, sk: Bytes32)
      modifies this`publicFile
      ensures publicFile == Some(PublicBody(crypto.publicKey(sk)))
    {
      var line := KEY_TYPE_ED25519 + " " + (Base64.Encode(crypto.publicKey(sk)) + " " + COMMENT);
      var body := APPEND_HINT + "\n" + (line + "\n");
      assert [APPEND_HINT, line][1..] == [line] && [line][1..] == [];
      assert Unlines([line]) == line + "\n" + Unlines([]) && Unlines([]) == "";
      assert line + "\n" + "" == line + "\n";
      publicFile := Some(body);
    }

    /** Loads the key, or stores the freshly generated one; the public file is written
        whenever there is a key. */
    method LoadOrCreateSigningKey(crypto: Crypto, generated: Bytes32) returns (r: Result<Bytes32, KeyError>)
      modifies this
      ensures old(privateFile).Some? ==> privateFile == old(privateFile) && r == LoadPrivate(Lines(privateFile.value))
      ensures old(privateFile).None? ==> privateFile == Some(PrivateBody(generated)) && r == Ok(generated)
      ensures r.Ok? ==> publicFile == Some(PublicBody(crypto.publicKey(r.value)))
      ensures r.Err? ==> publicFile == old(publicFile)
    {
      var key: Bytes32;
      if privateFile.Some? {
        var ls := Lines(privateFile.value);
        var sk: Option<Bytes32> := None;
        for i := 0 to |ls|
          invariant sk.None? && LoadPrivate(ls) == LoadPrivate(ls[i..])
        {
          assert ls[i..][1..] == ls[i + 1..];
          if IsIgnored(ls[i]) {
            continue;
          }
          var m := ParseMaterial(ls[i]);
          if m.Err? {
            return Err(m.error);
          }
          sk := Some(m.value);
          break;
        }
        if sk.None? {
          assert ls[|ls|..] == [];
          return Err(NoMaterial);
        }
        key := sk.value;
      } else {
        key := generated;
        var b64 := Base64.Encode(key);
        assert [FILE_HEADER, b64][1..] == [b64] && [b64][1..] == [];
        assert Unlines([b64]) == b64 + "\n" + Unlines([]) && Unlines([]) == "";
        assert b64 + "\n" + "" == b64 + "\n";
        privateFile := Some(FILE_HEADER + "\n" + (b64 + "\n"));
      }
      WriteAgentPublicKeyFile(crypto, key);
      return Ok(key);
    }
  }

  /** The stored key is the one that reloads. */
  lemma PrivateKeyRoundTrip(sk: Bytes32)
    ensures LoadPrivate(Lines(PrivateBody(sk))) == Ok(sk)
  {
    var b := Base64.Encode(sk);
    Base64Word(sk);
    Base64.DecodeEncode(sk);
    PrivateLines(sk);
    TrimId(b);
    TrimId(FILE_HEADER);
    NotHeader(b);
    assert [FILE_HEADER, b][1..] == [b];
    assert LoadPrivate([b]) == ParseMaterial(b);
  }

  lemma PrivateLines(sk: Bytes32)
    ensures Lines(PrivateBody(sk)) == [FILE_HEADER, Base64.Encode(sk)]
  {
    Base64Word(sk);
    var ls := [FILE_HEADER, Base64.Encode(sk)];
    assert IsLine(FILE_HEADER);
    LinesUnlines(ls, "");
    assert Unlines(ls) + "" == Unlines(ls) && ls + Lines("") == ls;
  }

  lemma NotHeader(b: string)
    requires forall c <- b :: Base64.IsText(c)
    ensures b != FILE_HEADER
  {
    assert FILE_HEADER[3] == '-' && !Base64.IsText('-');
    if |b| > 3 {
      assert b[3] in b;
    }
  }

  /** Creating the key and loading it again give the same key and the same public file,
      which holds the key type and the encoded key. */
  method CreateThenReload(crypto: Crypto, generated: Bytes32, other: Bytes32)
    returns (a: Result<Bytes32, KeyError>, b: Result<Bytes32, KeyError>, first: Option<string>, second: Option<string>)
    ensures a == b == Ok(generated)
    ensures first == second && first.Some?
    ensures Contains(first.value, KEY_TYPE_ED25519) && Contains(first.value, Base64.Encode(crypto.publicKey(generated)))
  {
    var files := new KeyFiles(None);
    a := files.LoadOrCreateSigningKey(crypto, generated);
    first := files.publicFile;
    PrivateKeyRoundTrip(generated);
    b := files.LoadOrCreateSigningKey(crypto, other);
    second := files.publicFile;
    PublicBodyHolds(crypto.publicKey(generated));
  }

  lemma PublicBodyHolds(pk: Bytes32)
    ensures Contains(PublicBody(pk), KEY_TYPE_ED25519) && Contains(PublicBody(pk), Base64.Encode(pk))
  {
    var head, tail, b := APPEND_HINT + "\n", " " + COMMENT + "\n", Base64.Encode(pk);
    PublicBodyIs(pk);
    assert PublicBody(pk) == head + (KEY_TYPE_ED25519 + (" " + b + tail));
    ContainedAfter(head, KEY_TYPE_ED25519, " " + b + tail);
    assert PublicBody(pk) == head + KEY_TYPE_ED25519 + " " + (b + tail);
    ContainedAfter(head + KEY_TYPE_ED25519 + " ", b, tail);
  }

  lemma PublicBodyIs(pk: Bytes32)
    ensures PublicBody(pk) == APPEND_HINT + "\n" + (PublicLine(pk) + "\n" + "")
  {
    var ls := [APPEND_HINT, PublicLine(pk)];
    assert ls[1..] == [PublicLine(pk)] && ls[1..][1..] == [];
    assert Unlines(ls[1..]) == PublicLine(pk) + "\n" + "";
  }

  // ------------------------------------------ the files, told on their characters

  /** The line is passed over: the header, a blank line or a comment. */
  predicate PassedOver(line: string) {
    var l := Trim(line);
    l == "sao-ed25519-private-v1" || l == "" || l[0] == '#'
  }

  /** Line `i` is the first that is not passed over. */
  ghost predicate Decides(ls: seq<string>, i: nat) {
    i < |ls| && !PassedOver(ls[i]) && forall j :: 0 <= j < i ==> PassedOver(ls[j])
  }

  lemma {:induction false} FirstMaterial(ls: seq<string>) returns (i: nat)
    ensures i <= |ls| && forall j :: 0 <= j < i ==> PassedOver(ls[j])
    ensures LoadPrivate(ls) == if i == |ls| then Err(NoMaterial) else ParseMaterial(ls[i])
    ensures i < |ls| ==> Decides(ls, i)
  {
    if ls != [] && PassedOver(ls[0]) {
      i := FirstMaterial(ls[1..]);
      assert forall j :: 0 <= j < |ls[1..]| ==> ls[1..][j] == ls[j + 1];
      i := i + 1;
      assert forall j :: 0 < j < i ==> ls[j] == ls[1..][j - 1];
    } else {
      i := 0;
    }
  }

  lemma MaterialIff(line: string, sk: Bytes32)
    ensures ParseMaterial(line) == Ok(sk) <==> Trim(line) == Base64.Encode(sk)
    ensures ParseMaterial(line) == Err(BadLength) <==> exists raw :: |raw| != 32 && Trim(line) == Base64.Encode(raw)
    ensures ParseMaterial(line) == Err(BadBase64) <==> forall raw :: Trim(line) != Base64.Encode(raw)
    ensures ParseMaterial(line) != Err(NoMaterial)
  {
    var l := Trim(line);
    if Base64.Decode(l).Some? {
      Base64.EncodeDecode(l);
    }
    forall raw | l == Base64.Encode(raw) ensures Base64.Decode(l) == Some(raw) {
      Base64.DecodeEncode(raw);
    }
  }

  /** What a private key file gives: its first line that is not passed over decides, and
      that is the base 64 of the 32 bytes of the key, or is refused. */
  lemma LoadPrivateIff(ls: seq<string>, sk: Bytes32)
    ensures LoadPrivate(ls) == Ok(sk) <==> exists i: nat :: Decides(ls, i) && Trim(ls[i]) == Base64.Encode(sk)
    ensures LoadPrivate(ls) == Err(NoMaterial) <==> forall l <- ls :: PassedOver(l)
    ensures LoadPrivate(ls) == Err(BadLength) <==>
      exists i: nat, raw :: Decides(ls, i) && |raw| != 32 && Trim(ls[i]) == Base64.Encode(raw)
    ensures LoadPrivate(ls) == Err(BadBase64) <==>
      exists i: nat :: Decides(ls, i) && forall raw :: Trim(ls[i]) != Base64.Encode(raw)
  {
    var i := FirstMaterial(ls);
    forall k: nat | Decides(ls, k) ensures k == i {
    }
    if i < |ls| {
      MaterialIff(ls[i], sk);
    }
  }

  /** The texts of the two files. */
  lemma KeyFileTexts(key: Bytes32)
    ensures PublicBody(key) == "# Append this line to the server's authorized_keys file." + "\n"
                               + "sao-ed25519" + " " + Base64.Encode(key) + " " + "agent" + "\n"
    ensures PrivateBody(key) == "sao-ed25519-private-v1" + "\n" + Base64.Encode(key) + "\n"
  {
    HintIs();
    PublicBodyIs(key);
    OneLineOf(APPEND_HINT, KEY_TYPE_ED25519, Base64.Encode(key), COMMENT);
    TwoLines(FILE_HEADER, Base64.Encode(key));
  }

  lemma HintIs()
    ensures APPEND_HINT == "# Append this line to the server's authorized_keys file."
  {
  }

  lemma OneLineOf(h: string, k: string, b: string, c: string)
    ensures h + "\n" + ((k + " " + (b + " " + c)) + "\n" + "") == h + "\n" + k + " " + b + " " + c + "\n"
  {
  }

  lemma TwoLines(a: string, b: string)
    ensures Unlines([a, b]) == a + "\n" + b + "\n"
  {
    assert [a, b][1..] == [b] && [b][1..] == [];
    assert Unlines([b]) == b + "\n" + "";
  }
}
