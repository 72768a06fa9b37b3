/** `trust add`, trust on first use, and pin replacement. The environment chooses
    what every connection attempt meets and what is typed at the terminal. */
module PinManagement {
  import opened Common
  import opened Text
  import opened Numerals
  import opened Identity
  import KH = KnownHosts
  import opened KnownHosts
  import opened KnownHostsLaws
  import opened StoreReload
  import opened HostNames
  import opened TextLaws

  /** What one connection attempt meets: an I/O error with its text, a certificate
      that does not parse, or one whose key has this SHA-256. */
  datatype Presented = Unreachable(message: string) | Unparsable(message: string) | Certificate(hash: Bytes32)

  datatype Connection = Connection(hash: Bytes32)

  datatype PinError = Store(e: StoreError) | ConnectFailed(message: string) | NotAccepted | NoTerminal

  const MISMATCH_PATTERN: string := "SPKI pin mismatch"
  const MISMATCH_MESSAGE: string := "TLS " + (MISMATCH_PATTERN + " (possible MITM or wrong known_hosts)")

  predicate IsYes(line: string) {
    Lower(Trim(line)) == "y" || Lower(Trim(line)) == "yes"
  }

  /** The pins after `file` was loaded, if it could be. */
  function Loaded(file: Option<string>): Pins {
    match LoadText(file) case Ok(m) => m case Err(_) => map[]
  }

  /** The fingerprint a parsable text denotes. */
  function Pin32(hex: string): Bytes32
    requires ParseHex32(hex).Some?
  {
    ParseHexPairsLength(Lower(Trim(hex)));
    ParseHex32(hex).value
  }

  /** After the change the file still loads, and of the other pins exactly those are
      gone whose line is taken for a comment. */
  ghost predicate KeepsOthers(before: Option<string>, after: Option<string>, key: Key) {
    && LoadText(after).Ok?
    && (forall k | k != key :: k in Loaded(after) <==> k in Loaded(before) && !IsComment(k.host))
    && (forall k | k != key && k in Loaded(after) :: Loaded(after)[k] == Loaded(before)[k])
  }

  /** The attempt at position `i` meets a server with this key. */
  predicate Shows(coming: seq<Presented>, i: nat, hash: Bytes32) {
    i < |coming| && coming[i] == Certificate(hash)
  }

  /** The next question is answered yes. */
  predicate Agrees(acceptNew: bool, typed: Option<seq<string>>) {
    acceptNew || (typed.Some? && typed.value != [] && IsYes(typed.value[0]))
  }

  /** Two attempts in a row meet the same certificate. */
  predicate Steady(coming: seq<Presented>, i: nat) {
    i + 1 < |coming| && coming[i].Certificate? && coming[i + 1] == coming[i]
  }

  /** The attempt at position `i` fails with words that are taken for a pin mismatch. */
  predicate Mismatched(coming: seq<Presented>, i: nat, pin: Bytes32) {
    i < |coming| &&
    match coming[i]
    case Certificate(hash) => hash != pin
    case Unreachable(m) => Contains(m, "SPKI pin mismatch")
    case Unparsable(m) => Contains(m, "SPKI pin mismatch")
  }

  /** From attempt `i` on, somebody agrees to the certificate shown and it is shown
      again. */
  predicate Replaces(coming: seq<Presented>, i: nat, acceptNew: bool, typed: Option<seq<string>>) {
    Agrees(acceptNew, typed) && Steady(coming, i)
  }

  /** What is left to be typed after one question. */
  function Asked(acceptNew: bool, typed: Option<seq<string>>): Option<seq<string>> {
    if acceptNew || typed.None? || typed.value == [] then typed else Some(typed.value[1..])
  }

  /** Exactly when a host with this pin is reached: the server shows the pinned key, or
      it does not and the pin is replaced. */
  predicate Reached(coming: seq<Presented>, i: nat, pin: Bytes32, acceptNew: bool, typed: Option<seq<string>>) {
    Shows(coming, i, pin) || (Mismatched(coming, i, pin) && Replaces(coming, i + 1, acceptNew, typed))
  }

  /** Exactly when a host without a pin is reached: somebody agrees to the key it shows
      first, and it is then reached under that pin. A change in between needs a store
      that still loads with the first pin in it. */
  predicate FirstReached(m: Pins, host: string, port: u16, coming: seq<Presented>, acceptNew: bool, typed: Option<seq<string>>) {
    && coming != [] && coming[0].Certificate? && Agrees(acceptNew, typed)
    && Reached(coming, 1, coming[0].hash, acceptNew, Asked(acceptNew, typed))
    && (StillLoads(m, host, port, coming[0].hash) || Shows(coming, 1, coming[0].hash))
  }

  predicate CanResolve(file: Option<string>, key: Key, coming: seq<Presented>, acceptNew: bool, typed: Option<seq<string>>) {
    LoadText(file).Ok? && (key in Loaded(file) || (coming != [] && coming[0].Certificate? && Agrees(acceptNew, typed)))
  }

  /** Why a certificate is not taken: none was shown, nobody can be asked, or the answer is
      not yes. */
  predicate Refusal(coming: seq<Presented>, acceptNew: bool, typed: Option<seq<string>>, e: PinError) {
    if coming == [] || !coming[0].Certificate? then e.ConnectFailed?
    else if typed.None? then !acceptNew && e == NoTerminal
    else !Agrees(acceptNew, typed) && e == NotAccepted
  }

  /** Why a pin is not replaced: the new certificate is not taken, the store does not load, or
      the connection under the new pin fails. */
  predicate Unreplaced(file: Option<string>, coming: seq<Presented>, acceptNew: bool, typed: Option<seq<string>>,
                       e: PinError)
  {
    if coming == [] || !coming[0].Certificate? || !Agrees(acceptNew, typed) then Refusal(coming, acceptNew, typed, e)
    else match LoadText(file) case Err(s) => e == Store(s) case Ok(_) => e.ConnectFailed?
  }

  /** Somebody typed yes among the lines read. */
  predicate Consent(acceptNew: bool, before: Option<seq<string>>, after: Option<seq<string>>) {
    acceptNew || (before.Some? && after.Some? && |after.value| <= |before.value|
                  && exists i :: 0 <= i < |before.value| - |after.value| && IsYes(before.value[i]))
  }

  /** `file` is `known_hosts`; `coming` what the next connection attempts meet (after
      that the network is down); `typed` the lines still to be typed, `None` when
      standard input is not a terminal. */
  class PinManager {
    var file: Option<string>
    var coming: seq<Presented>
    var typed: Option<seq<string>>

    constructor (file: Option<string>, coming: seq<Presented>, typed: Option<seq<string>>)
      ensures this.file == file && this.coming == coming && this.typed == typed
    {
      this.file, this.coming, this.typed := file, coming, typed;
    }

    method Connect() returns (p: Presented)
      modifies this`coming
      ensures old(coming) == [] ==> p == Unreachable("unreachable") && coming == []
      ensures old(coming) != [] ==> p == old(coming)[0] && coming == old(coming)[1..]
    {
      if coming == [] {
        return Unreachable("unreachable");
      }
      p := coming[0];
      coming := coming[1..];
    }

    /** Connects and insists on the pin. */
    method ConnectPinned(pin: Bytes32) returns (r: Result<Connection, string>)
      modifies this`coming
      ensures r.Ok? <==> Shows(old(coming), 0, pin)
      ensures r.Ok? ==> r.value.hash == pin
      ensures r.Err? ==> (Contains(r.error, "SPKI pin mismatch") <==> Mismatched(old(coming), 0, pin))
      ensures r.Err? && old(coming) != [] && old(coming)[0].Certificate? ==>
        r.error == "TLS " + ("SPKI pin mismatch" + " (possible MITM or wrong known_hosts)")
      ensures coming == if old(coming) == [] then [] else old(coming)[1..]
    {
      MismatchRecognised();
      var p := Connect();
      match p
      case Certificate(hash) => r := if hash == pin then Ok(Connection(hash)) else Err(MISMATCH_MESSAGE);
      case Unreachable(m) => r := Err(m);
      case Unparsable(m) => r := Err(m);
    }

    /** Connects only to see the certificate. */
    method ConnectProbe() returns (r: Result<Bytes32, string>)
      modifies this`coming
      ensures r.Ok? <==> old(coming) != [] && old(coming)[0].Certificate?
      ensures r.Ok? ==> Shows(old(coming), 0, r.value)
      ensures coming == if old(coming) == [] then [] else old(coming)[1..]
    {
      var p := Connect();
      match p
      case Certificate(hash) => r := Ok(hash);
      case Unreachable(m) => r := Err(m);
      case Unparsable(m) => r := Err(m);
    }

    /** Whether to store a new pin: a switch, an answer, or nobody to ask. */
    method Decide(acceptNew: bool) returns (r: Result<bool, PinError>)
      modifies this`typed
      ensures acceptNew ==> r == Ok(true) && typed == old(typed)
      ensures !acceptNew && old(typed).None? ==> r == Err(NoTerminal) && typed == None
      ensures !acceptNew && old(typed).Some? ==>
        var line := if old(typed).value == [] then "" else old(typed).value[0];
        && r == Ok(IsYes(line))
        && typed == Some(if old(typed).value == [] then [] else old(typed).value[1..])
      ensures Progressed(old(typed), typed)
      ensures r == Ok(true) ==> Consent(acceptNew, old(typed), typed)
    {
      if acceptNew {
        return Ok(true);
      }
      if typed.None? {
        return Err(NoTerminal);
      }
      var line := "";
      if typed.value != [] {
        line := typed.value[0];
        typed := Some(typed.value[1..]);
        assert IsYes(line) ==> IsYes(old(typed).value[0]);
      }
      return Ok(IsYes(line));
    }

    /** Looks at the certificate the server shows now and asks whether to store it. */
    method ProbeAndDecide(acceptNew: bool) returns (r: Result<Bytes32, PinError>)
      modifies this`coming, this`typed
      ensures r.Ok? <==> old(coming) != [] && old(coming)[0].Certificate? && Agrees(acceptNew, old(typed))
      ensures r.Ok? ==> Shows(old(coming), 0, r.value) && Consent(acceptNew, old(typed), typed)
      ensures r.Ok? ==> typed == if acceptNew then old(typed) else Some(old(typed).value[1..])
      ensures r.Err? ==> Refusal(old(coming), acceptNew, old(typed), r.error)
      ensures coming == if old(coming) == [] then [] else old(coming)[1..]
      ensures Progressed(old(typed), typed)
    {
      var probe := ConnectProbe();
      if probe.Err? {
        return Err(ConnectFailed(probe.error));
      }
      var answer := Decide(acceptNew);
      if answer.Err? {
        return Err(answer.error);
      }
      if !answer.value {
        return Err(NotAccepted);
      }
      return Ok(probe.value);
    }

    /** Loads the store, sets one pin and writes the store back. */
    method Pin(host: string, port: u16, hex: string) returns (e: Option<StoreError>)
      modifies this`file
      ensures e.None? <==> LoadText(old(file)).Ok? && ParseHex32(hex).Some?
      ensures e.Some? ==> file == old(file)
      ensures e.None? ==> file == Some(SaveText(Loaded(old(file))[KeyOf(host, port) := Pin32(hex)]))
    {
      var kh := new KH.KnownHosts();
      e := kh.Load(file);
      if e.Some? {
        return;
      }
      e := kh.InsertHex(host, port, hex);
      if e.Some? {
        return;
      }
      var text := kh.Save();
      file := Some(text);
    }

    /** `sao trust add`: what a load gives afterwards, for every host; that is the old pins
        with exactly this key set if and only if every host of that map can be written
        in the file; and it has this pin under this key if and only if no host is empty
        and this one can be written. */
    method TrustAdd(host: string, port: u16, hex: string) returns (e: Option<StoreError>)
      modifies this`file
      ensures e.None? <==> LoadText(old(file)).Ok? && ParseHex32(hex).Some?
      ensures e.Some? ==> file == old(file)
      ensures e.None? ==>
        var m := Loaded(old(file))[KeyOf(host, port) := Pin32(hex)];
        LoadText(file) == Ok(m) <==> GoodHosts(m)
      ensures e.None? ==>
        (Found(file, KeyOf(host, port), Pin32(hex)) <==> NoEmptyHost(Loaded(old(file))) && GoodHost(NormalizeHost(host)))
      ensures e.None? ==> Rewrites(old(file), file, host, port, Pin32(hex))
    {
      LoadedNormal(file);
      ghost var before := Loaded(file);
      e := Pin(host, port, hex);
      if e.None? {
        UpdateNormal(before, host, port, Pin32(hex));
        SaveLoadIff(before[KeyOf(host, port) := Pin32(hex)]);
        FoundIff(before, host, port, Pin32(hex));
        SavedExactly(before, host, port, Pin32(hex));
      }
    }

    /** `resolve_tls_pin`: the stored pin, or the key the server shows now if somebody
        agrees to store it. A refusal leaves the file alone. */
    method ResolveTlsPin(host: string, port: u16, acceptNew: bool) returns (r: Result<Bytes32, PinError>)
      modifies this
      ensures r.Err? ==> file == old(file)
      ensures r.Ok? <==> CanResolve(old(file), KeyOf(host, port), old(coming), acceptNew, old(typed))
      ensures r.Err? ==>
        match LoadText(old(file))
        case Err(e) => r.error == Store(e)
        case Ok(_) => Refusal(old(coming), acceptNew, old(typed), r.error)
      ensures r.Ok? && KeyOf(host, port) in Loaded(old(file)) ==>
        && r.value == Loaded(old(file))[KeyOf(host, port)]
        && file == old(file) && coming == old(coming) && typed == old(typed)
      ensures r.Ok? && KeyOf(host, port) !in Loaded(old(file)) ==>
        && Shows(old(coming), 0, r.value) && coming == old(coming)[1..]
        && PinnedTo(old(file), file, KeyOf(host, port), r.value)
        && Consent(acceptNew, old(typed), typed)
        && typed == Asked(acceptNew, old(typed))
      ensures Progressed(old(typed), typed)
    {
      var kh := new KH.KnownHosts();
      var e := kh.Load(file);
      if e.Some? {
        return Err(Store(e.value));
      }
      var pin := kh.PinHex(host, port);
      if pin.Ok? {
        return Ok(pin.value);
      }
      var shown := ProbeAndDecide(acceptNew);
      if shown.Err? {
        return Err(shown.error);
      }
      Hex32RoundTrip(shown.value);
      e := kh.InsertHex(host, port, HexEncode(shown.value));
      var text := kh.Save();
      file := Some(text);
      pin := kh.PinHex(host, port);
      return Ok(pin.value);
    }

    /** Loads the store afresh, sets the pin, saves, and looks it up. */
    method StorePin(host: string, port: u16, hash: Bytes32) returns (r: Result<Bytes32, StoreError>)
      modifies this`file
      ensures r.Ok? <==> LoadText(old(file)).Ok?
      ensures r.Err? ==> file == old(file) && LoadText(old(file)) == Err(r.error)
      ensures r.Ok? ==> r.value == hash && PinnedTo(old(file), file, KeyOf(host, port), hash)
    {
      var kh := new KH.KnownHosts();
      var e := kh.Load(file);
      if e.Some? {
        return Err(e.value);
      }
      Hex32RoundTrip(hash);
      e := kh.InsertHex(host, port, HexEncode(hash));
      var text := kh.Save();
      file := Some(text);
      r := kh.PinHex(host, port);
    }

    /** The pin did not match: look again, ask, replace, and connect once more. */
    method ReplacePin(host: string, port: u16, acceptNew: bool) returns (r: Result<Connection, PinError>)
      modifies this
      ensures r.Ok? <==> LoadText(old(file)).Ok? && Agrees(acceptNew, old(typed)) && Steady(old(coming), 0)
      ensures r.Ok? ==> PinnedTo(old(file), file, KeyOf(host, port), r.value.hash) && Shows(old(coming), 0, r.value.hash)
      ensures !Agrees(acceptNew, old(typed)) ==> file == old(file)
      ensures r.Err? ==> Unreplaced(old(file), old(coming), acceptNew, old(typed), r.error)
      ensures file != old(file) ==> Repinned(old(file), file, KeyOf(host, port))
      ensures file != old(file) || r.Ok? ==> Consent(acceptNew, old(typed), typed)
      ensures Progressed(old(typed), typed)
    {
      var shown := ProbeAndDecide(acceptNew);
      if shown.Err? {
        return Err(shown.error);
      }
      var pin := StorePin(host, port, shown.value);
      if pin.Err? {
        return Err(Store(pin.error));
      }
      var c := ConnectPinned(pin.value);
      if c.Err? {
        return Err(ConnectFailed(c.error));
      }
      return Ok(c.value);
    }

    /** Connects under the pin; a mismatch leads to its replacement. */
    method ConnectOrReplace(host: string, port: u16, pin: Bytes32, acceptNew: bool) returns (r: Result<Connection, PinError>)
      modifies this
      ensures r.Ok? <==>
        Reached(old(coming), 0, pin, acceptNew, old(typed)) && (LoadText(old(file)).Ok? || Shows(old(coming), 0, pin))
      ensures Shows(old(coming), 0, pin) ==> r == Ok(Connection(pin)) && file == old(file)
      ensures !Shows(old(coming), 0, pin) && !Mismatched(old(coming), 0, pin) ==>
        r.Err? && r.error.ConnectFailed? && file == old(file)
      ensures r.Ok? && !Shows(old(coming), 0, pin) ==> PinnedTo(old(file), file, KeyOf(host, port), r.value.hash)
      ensures file != old(file) ==> Repinned(old(file), file, KeyOf(host, port)) && Consent(acceptNew, old(typed), typed)
      ensures Progressed(old(typed), typed)
    {
      var c := ConnectPinned(pin);
      if c.Ok? {
        return Ok(c.value);
      }
      if !Contains(c.error, MISMATCH_PATTERN) {
        return Err(ConnectFailed(c.error));
      }
      assert old(coming)[1..] == coming;
      r := ReplacePin(host, port, acceptNew);
    }

    /** `connect_with_pin_management`: exactly when it returns a connection, told from
        what the servers show and what is typed; then a fresh load gives this host the
        key of that connection, exactly unless the store cannot hold it; what became of
        every other pin; and nothing was written without consent. */
    method ConnectWithPinManagement(host: string, port: u16, acceptNew: bool) returns (r: Result<Connection, PinError>)
      modifies this
      ensures r.Ok? ==> LoadText(old(file)).Ok? && Stands(old(file), file, host, port, r.value.hash)
      ensures file != old(file) ==> LoadText(old(file)).Ok? && OthersKept(old(file), file, host, port)
      ensures file != old(file) ==> Changed(old(file), file, host, port)
      ensures file != old(file) ==> Consent(acceptNew, old(typed), typed)
      ensures LoadText(old(file)).Ok? && KeyOf(host, port) in Loaded(old(file)) ==>
        var pin := Loaded(old(file))[KeyOf(host, port)];
        && (r.Ok? <==> Reached(old(coming), 0, pin, acceptNew, old(typed)))
        && (Shows(old(coming), 0, pin) ==> r == Ok(Connection(pin)) && file == old(file))
      ensures LoadText(old(file)).Ok? && KeyOf(host, port) !in Loaded(old(file)) ==>
        (r.Ok? <==> FirstReached(Loaded(old(file)), host, port, old(coming), acceptNew, old(typed)))
      ensures LoadText(old(file)).Err? ==> r.Err? && file == old(file)
    {
      var pin := ResolveTlsPin(host, port, acceptNew);
      if pin.Err? {
        return Err(pin.error);
      }
      ghost var written, t1, ahead := file, typed, coming;
      if old(coming) != [] {
        ReachedLater(old(coming), pin.value, acceptNew, typed);
        LoadedNormal(old(file));
        StillLoadsIff(Loaded(old(file)), host, port, pin.value);
      }
      r := ConnectOrReplace(host, port, pin.value, acceptNew);
      ConsentChains(acceptNew, old(typed), t1, typed);
      ChangeIs(old(file), written, file, host, port, pin.value);
      ChangeStands(old(file), written, file, host, port, pin.value, if r.Ok? then r.value.hash else pin.value,
                   r.Ok? && !Shows(ahead, 0, pin.value));
    }
  }

  /** The file is what `before`, which loads, holds, with `key` set to `pin`. */
  ghost predicate PinnedTo(before: Option<string>, after: Option<string>, key: Key, pin: Bytes32) {
    LoadText(before).Ok? && after == Some(SaveText(Loaded(before)[key := pin]))
  }

  ghost predicate Repinned(before: Option<string>, after: Option<string>, key: Key) {
    exists pin: Bytes32 :: PinnedTo(before, after, key, pin)
  }

  /** A fresh load of the file gives this host this pin exactly if nothing was written
      and it did before, or no host of the store is empty and this one can be written. */
  ghost predicate Stands(before: Option<string>, after: Option<string>, host: string, port: u16, pin: Bytes32) {
    Found(after, KeyOf(host, port), pin) <==>
      || (after == before && Found(before, KeyOf(host, port), pin))
      || (NoEmptyHost(Loaded(before)) && GoodHost(NormalizeHost(host)))
  }

  /** The other pins, unless an empty host makes the file unreadable or whitespace in
      this one changes what its line says. */
  ghost predicate OthersKept(before: Option<string>, after: Option<string>, host: string, port: u16) {
    NoEmptyHost(Loaded(before)) && NormalizeHost(host) != "" && NoSpace(NormalizeHost(host)) ==>
      KeepsOthers(before, after, KeyOf(host, port))
  }

  /** What a load gives once this pin has been written into a store that loads. */
  ghost predicate Rewrites(before: Option<string>, after: Option<string>, host: string, port: u16, pin: Bytes32) {
    && LoadText(before).Ok?
    && if StillLoads(Loaded(before), host, port, pin)
       then LoadText(after) == Ok(Rewritten(Loaded(before), KeyOf(host, port), pin))
       else LoadText(after).Err?
  }

  /** One pin has been written, or two for the same host, the second into what the first
      left. */
  ghost predicate Changed(before: Option<string>, after: Option<string>, host: string, port: u16) {
    (exists p: Bytes32 :: Rewrites(before, after, host, port, p))
    || exists mid, p: Bytes32, q: Bytes32 :: Rewrites(before, mid, host, port, p) && Rewrites(mid, after, host, port, q)
  }

  lemma PinnedRewrites(before: Option<string>, after: Option<string>, host: string, port: u16, pin: Bytes32)
    requires PinnedTo(before, after, KeyOf(host, port), pin)
    ensures Rewrites(before, after, host, port, pin)
  {
    LoadedNormal(before);
    SavedExactly(Loaded(before), host, port, pin);
  }

  lemma ChangeIs(first: Option<string>, before: Option<string>, after: Option<string>, host: string, port: u16, stored: Bytes32)
    requires Resolved(first, before, host, port, stored)
    requires after != before ==> Repinned(before, after, KeyOf(host, port))
    ensures after != first ==> Changed(first, after, host, port)
  {
    var key := KeyOf(host, port);
    if key !in Loaded(first) {
      PinnedRewrites(first, before, host, port, stored);
    }
    if after != before {
      var q: Bytes32 :| PinnedTo(before, after, key, q);
      PinnedRewrites(before, after, host, port, q);
    }
  }

  /** Nothing was written yet, or this key was set once. */
  ghost predicate Resolved(first: Option<string>, before: Option<string>, host: string, port: u16, pin: Bytes32) {
    LoadText(first).Ok? &&
    if KeyOf(host, port) in Loaded(first) then before == first && Loaded(first)[KeyOf(host, port)] == pin
    else PinnedTo(first, before, KeyOf(host, port), pin)
  }

  lemma ReachedLater(coming: seq<Presented>, pin: Bytes32, acceptNew: bool, typed: Option<seq<string>>)
    requires coming != []
    ensures Reached(coming[1..], 0, pin, acceptNew, typed) <==> Reached(coming, 1, pin, acceptNew, typed)
    ensures Shows(coming[1..], 0, pin) <==> Shows(coming, 1, pin)
  {
  }

  /** One write, of a store that loads. */
  lemma PinnedStands(before: Option<string>, after: Option<string>, host: string, port: u16, pin: Bytes32)
    requires PinnedTo(before, after, KeyOf(host, port), pin)
    ensures Found(after, KeyOf(host, port), pin) <==> NoEmptyHost(Loaded(before)) && GoodHost(NormalizeHost(host))
    ensures OthersKept(before, after, host, port)
    ensures LoadText(after).Ok? && NoSpace(NormalizeHost(host)) ==> NoEmptyHost(Loaded(before)) && NoEmptyHost(Loaded(after))
  {
    var m, key := Loaded(before), KeyOf(host, port);
    LoadedNormal(before);
    FoundIff(m, host, port, pin);
    if NoSpace(key.host) {
      UpdateNormal(m, host, port, pin);
      UpdateNoEmpty(m, key, pin);
      SavedFinds(m[key := pin]);
    }
  }

  /** A second write on top of a first. */
  lemma TwiceStands(first: Option<string>, before: Option<string>, after: Option<string>, host: string, port: u16,
                    stale: Bytes32, pin: Bytes32)
    requires PinnedTo(first, before, KeyOf(host, port), stale) && PinnedTo(before, after, KeyOf(host, port), pin)
    ensures Found(after, KeyOf(host, port), pin) <==> NoEmptyHost(Loaded(first)) && GoodHost(NormalizeHost(host))
    ensures OthersKept(first, after, host, port)
  {
    PinnedStands(first, before, host, port, stale);
    PinnedStands(before, after, host, port, pin);
  }

  lemma ChangeStands(first: Option<string>, before: Option<string>, after: Option<string>, host: string, port: u16,
                     stored: Bytes32, pin: Bytes32, replaced: bool)
    requires Resolved(first, before, host, port, stored)
    requires if replaced then PinnedTo(before, after, KeyOf(host, port), pin) else pin == stored
    requires after != before ==> Repinned(before, after, KeyOf(host, port))
    ensures replaced || after == before ==> Stands(first, after, host, port, pin)
    ensures after != first ==> OthersKept(first, after, host, port)
  {
    var key := KeyOf(host, port);
    if before != first || key !in Loaded(first) {
      PinnedStands(first, before, host, port, stored);
    }
    if replaced || after != before {
      var p: Bytes32 :| PinnedTo(before, after, key, p) && (replaced ==> p == pin);
      PinnedStands(before, after, host, port, p);
      if key !in Loaded(first) {
        TwiceStands(first, before, after, host, port, stored, p);
      }
    }
  }

  lemma ConsentChains(acceptNew: bool, t0: Option<seq<string>>, t1: Option<seq<string>>, t2: Option<seq<string>>)
    requires Progressed(t0, t1) && Progressed(t1, t2)
    ensures Consent(acceptNew, t0, t1) || Consent(acceptNew, t1, t2) ==> Consent(acceptNew, t0, t2)
  {
    if !acceptNew && Consent(acceptNew, t1, t2) {
      var i :| 0 <= i < |t1.value| - |t2.value| && IsYes(t1.value[i]);
      assert t0.value[|t0.value| - |t1.value| + i] == t1.value[i];
    }
  }

  lemma MismatchRecognised()
    ensures Contains(MISMATCH_MESSAGE, MISMATCH_PATTERN)
    ensures !Contains("unreachable", MISMATCH_PATTERN)
  {
    ContainsIff("unreachable", MISMATCH_PATTERN);
    ContainedAfter("TLS ", MISMATCH_PATTERN, " (possible MITM or wrong known_hosts)");
  }

  /** Lines are only ever read off the front. */
  predicate Progressed(before: Option<seq<string>>, after: Option<seq<string>>) {
    match (before, after)
    case (None, None) => true
    case (Some(b), Some(a)) => |a| <= |b| && a == b[|b| - |a|..]
    case _ => false
  }

  lemma LoadedNormal(file: Option<string>)
    ensures Normal(Loaded(file)) && Spaceless(Loaded(file))
  {
    if LoadText(file).Ok? && file.Some? {
      LoadedKeys(Lines(file.value), map[]);
    }
  }

  /** The answers that count as yes: between any spaces, `y` or `yes` in either case. */
  lemma IsYesIff(line: string)
    ensures IsYes(line) <==>
      exists t :: Inside(IsSpace, line, t) && (SameButCase(t, "y") || SameButCase(t, "yes"))
  {
    var t := Trim(line);
    TrimIff(line, t);
    LowerIff(t, "y");
    LowerIff(t, "yes");
    assert Lower("y") == "y" && Lower("yes") == "yes";
    forall u | Inside(IsSpace, line, u) ensures u == t {
      TrimIff(line, u);
    }
  }
}
