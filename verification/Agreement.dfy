/** Many sessions of one server, and the honest agents that sign for them. The
    adversary opens sessions, chooses every frame and shows agents any challenge. */
module Agreement {
  import opened Common
  import opened Identity
  import opened ServerSession
  import Frames

  /** One use of an agent's key: the challenge it was shown. */
  datatype Signing = Signing(sk: Bytes32, nonce: seq<byte>, sessionId: seq<byte>)

  datatype Network = Network(servers: seq<Server>, signed: set<Signing>)

  datatype Event =
    | Open
    | Sign(what: Signing)
    | Serve(i: nat, step: Step)

  /** FRESH nonces: no session that has sent its challenge used this one. */
  predicate FreshNonce(net: Network, nonce: seq<byte>) {
    forall s <- net.servers :: s.out != [] ==> s.nonce != nonce
  }

  ghost predicate WasSigned(net: Network, sk: Bytes32, message: seq<byte>) {
    exists g :: g in net.signed && g.sk == sk && SigningBytes(g.nonce, g.sessionId) == message
  }

  /** Unforgeability: a signature that verifies under an honest agent's key was made
      by that agent. */
  ghost predicate NoForgery(cfg: Config, honest: set<Bytes32>, net: Network, s: Server, input: Input) {
    input.Got? && input.request.body.AuthBody? ==>
      var message := SigningBytes(s.nonce, s.sessionId);
      forall sk <- honest | VerifySignature(cfg.crypto, cfg.crypto.publicKey(sk), message, input.request.body.signature)
        :: WasSigned(net, sk, message)
  }

  ghost predicate May(cfg: Config, honest: set<Bytes32>, net: Network, e: Event) {
    match e
    case Open => true
    case Sign(what) => what.sk in honest
    case Serve(i, step) =>
      && i < |net.servers| && Enabled(cfg, net.servers[i], step)
      && (step.Begin? ==> FreshNonce(net, step.nonce))
      && (step.Receive? ==> NoForgery(cfg, honest, net, net.servers[i], step.input))
  }

  ghost function After(cfg: Config, honest: set<Bytes32>, net: Network, e: Event): Network
    requires May(cfg, honest, net, e)
  {
    match e
    case Open => net.(servers := net.servers + [INIT])
    case Sign(what) => net.(signed := net.signed + {what})
    case Serve(i, step) => net.(servers := net.servers[i := Apply(cfg, net.servers[i], step)])
  }

  ghost predicate Happens(cfg: Config, honest: set<Bytes32>, net: Network, es: seq<Event>, net': Network)
    decreases |es|
  {
    if es == [] then net == net'
    else May(cfg, honest, net, es[0]) && Happens(cfg, honest, After(cfg, honest, net, es[0]), es[1..], net')
  }

  // --------------------------------------------------------------- invariant

  ghost predicate SessionInv(cfg: Config, honest: set<Bytes32>, net: Network, s: Server) {
    && (s.phase == Start ==> s.out == [])
    && (s.auth.Some? ==> s.phase !in {Start, AwaitAuth})
    && (s.out == [] ==> s.auth.None? && s.phase in {Start, Finished})
    && (s.out != [] ==> |s.nonce| == 32)
    && (s.auth.Some? ==> forall sk <- honest :: s.auth.value.verifyingKey == cfg.crypto.publicKey(sk) ==>
          WasSigned(net, sk, SigningBytes(s.nonce, s.sessionId)))
  }

  ghost predicate NoncesDistinct(net: Network) {
    forall i, j :: 0 <= i < j < |net.servers| && net.servers[i].out != [] && net.servers[j].out != [] ==>
      net.servers[i].nonce != net.servers[j].nonce
  }

  ghost predicate NetInv(cfg: Config, honest: set<Bytes32>, net: Network) {
    NoncesDistinct(net) && forall s <- net.servers :: SessionInv(cfg, honest, net, s)
  }

  /** A session keeps its challenge, and gains a key only by a verified response. */
  lemma SessionStep(cfg: Config, honest: set<Bytes32>, net: Network, s: Server, step: Step)
    requires SessionInv(cfg, honest, net, s) && Enabled(cfg, s, step)
    requires step.Receive? ==> NoForgery(cfg, honest, net, s, step.input)
    ensures SessionInv(cfg, honest, net, Apply(cfg, s, step))
    ensures s.out != [] ==> Apply(cfg, s, step).out != [] && Apply(cfg, s, step).nonce == s.nonce
    ensures s.out == [] && Apply(cfg, s, step).out != [] ==> step.Begin? && Apply(cfg, s, step).nonce == step.nonce
  {
    if step.Receive? && s.phase == AwaitAuth && Apply(cfg, s, step).auth.Some? {
      var b := step.input.request.body;
      AuthenticateIff(cfg.crypto, cfg.Table(), s.nonce, s.sessionId, b.keyType, b.fingerprint, b.signature,
                      Apply(cfg, s, step).auth.value);
    }
  }

  lemma WasSignedStays(net: Network, net': Network, sk: Bytes32, message: seq<byte>)
    requires net.signed <= net'.signed && WasSigned(net, sk, message)
    ensures WasSigned(net', sk, message)
  {
    var g :| g in net.signed && g.sk == sk && SigningBytes(g.nonce, g.sessionId) == message;
    assert g in net'.signed;
  }

  lemma SessionStays(cfg: Config, honest: set<Bytes32>, net: Network, net': Network, s: Server)
    requires net.signed <= net'.signed && SessionInv(cfg, honest, net, s)
    ensures SessionInv(cfg, honest, net', s)
  {
    if s.auth.Some? {
      forall sk <- honest | s.auth.value.verifyingKey == cfg.crypto.publicKey(sk)
        ensures WasSigned(net', sk, SigningBytes(s.nonce, s.sessionId))
      {
        WasSignedStays(net, net', sk, SigningBytes(s.nonce, s.sessionId));
      }
    }
  }

  lemma EventInv(cfg: Config, honest: set<Bytes32>, net: Network, e: Event)
    requires NetInv(cfg, honest, net) && May(cfg, honest, net, e)
    ensures NetInv(cfg, honest, After(cfg, honest, net, e))
  {
    var net' := After(cfg, honest, net, e);
    if e.Serve? {
      assert SessionInv(cfg, honest, net, net.servers[e.i]) by { assert net.servers[e.i] in net.servers; }
      SessionStep(cfg, honest, net, net.servers[e.i], e.step);
      NoncesStay(cfg, net, net', e.i);
    }
    forall s <- net'.servers ensures SessionInv(cfg, honest, net', s) {
      if s in net.servers {
        SessionStays(cfg, honest, net, net', s);
      } else if e.Serve? {
        SessionStays(cfg, honest, net, net', s);
      }
    }
  }

  lemma NoncesStay(cfg: Config, net: Network, net': Network, i: nat)
    requires NoncesDistinct(net) && i < |net.servers| == |net'.servers|
    requires forall j :: 0 <= j < |net.servers| && j != i ==> net'.servers[j] == net.servers[j]
    requires net.servers[i].out != [] ==> net'.servers[i].nonce == net.servers[i].nonce
    requires net.servers[i].out == [] && net'.servers[i].out != [] ==> FreshNonce(net, net'.servers[i].nonce)
    ensures NoncesDistinct(net')
  {
    forall j | 0 <= j < |net.servers| && j != i && net'.servers[j].out != [] && net'.servers[i].out != []
      ensures net'.servers[j].nonce != net'.servers[i].nonce
    {
      assert net.servers[j] in net.servers;
      if net.servers[i].out != [] {
        assert net.servers[j].nonce != net.servers[i].nonce by {
          assert if i < j then true else j < i;
        }
      }
    }
  }

  lemma {:induction false} HappensInv(cfg: Config, honest: set<Bytes32>, net: Network, es: seq<Event>, net': Network)
    requires NetInv(cfg, honest, net) && Happens(cfg, honest, net, es, net')
    ensures NetInv(cfg, honest, net')
    decreases |es|
  {
    if es != [] {
      EventInv(cfg, honest, net, es[0]);
      HappensInv(cfg, honest, After(cfg, honest, net, es[0]), es[1..], net');
    }
  }

  // --------------------------------------------------------------- guarantees

  /** A session that accepted an honest agent's key: that agent signed a challenge
      with exactly this session's bytes; and if the nonce it saw was 32 bytes long,
      agent and server agree on nonce and session. */
  lemma AcceptedWasSigned(cfg: Config, honest: set<Bytes32>, es: seq<Event>, net: Network, i: nat, sk: Bytes32)
    requires Happens(cfg, honest, Network([], {}), es, net)
    requires i < |net.servers| && net.servers[i].auth.Some? && sk in honest
    requires net.servers[i].auth.value.verifyingKey == cfg.crypto.publicKey(sk)
    ensures var s := net.servers[i];
      exists g :: g in net.signed && g.sk == sk
        && SigningBytes(g.nonce, g.sessionId) == SigningBytes(s.nonce, s.sessionId)
        && (|g.nonce| == 32 <==> g.nonce == s.nonce && g.sessionId == s.sessionId)
  {
    HappensInv(cfg, honest, Network([], {}), es, net);
    var s := net.servers[i];
    assert SessionInv(cfg, honest, net, s) by { assert s in net.servers; }
    var g :| g in net.signed && g.sk == sk && SigningBytes(g.nonce, g.sessionId) == SigningBytes(s.nonce, s.sessionId);
    SigningBytesBind(g.nonce, g.sessionId, s.nonce, s.sessionId);
  }

  /** One signed message authenticates at most one session. */
  lemma OneSessionPerMessage(cfg: Config, honest: set<Bytes32>, es: seq<Event>, net: Network, i: nat, j: nat)
    requires Happens(cfg, honest, Network([], {}), es, net)
    requires i < |net.servers| && j < |net.servers| && net.servers[i].auth.Some? && net.servers[j].auth.Some?
    requires SigningBytes(net.servers[i].nonce, net.servers[i].sessionId)
          == SigningBytes(net.servers[j].nonce, net.servers[j].sessionId)
    ensures i == j
  {
    HappensInv(cfg, honest, Network([], {}), es, net);
    var s, t := net.servers[i], net.servers[j];
    assert SessionInv(cfg, honest, net, s) by { assert s in net.servers; }
    assert SessionInv(cfg, honest, net, t) by { assert t in net.servers; }
    SigningBytesBind(s.nonce, s.sessionId, t.nonce, t.sessionId);
  }

  /** What an agent answers that is shown a session's id from its second byte on, the
      first being taken for the end of the nonce. */
  function Relayed(crypto: Crypto, sk: Bytes32, n: Bytes32, id: seq<byte>): Request
    requires id != []
  {
    Request(Frames.AUTH_RESPONSE,
            AuthBody(KEY_TYPE_ED25519, FingerprintHex(crypto, crypto.publicKey(sk)),
                     SignAuthMessage(crypto, sk, SigningBytes(n + id[..1], id[1..]))))
  }

  lemma RelayedAccepted(cfg: Config, entry: AuthorizedKey, sk: Bytes32, n: Bytes32, id: seq<byte>)
    requires cfg.crypto.Correct() && cfg.keys.Some? && TableOf(cfg.crypto, cfg.keys.value) && entry in cfg.keys.value
    requires entry.verifyingKey == cfg.crypto.publicKey(sk) && NoCollision(cfg.crypto, cfg.keys.value, entry.verifyingKey)
    requires id != []
    ensures var s := Apply(cfg, Apply(cfg, INIT, Begin(n, id)), Receive(Got(Relayed(cfg.crypto, sk, n, id)), None));
      && s.auth.Some? && s.auth.value.verifyingKey == cfg.crypto.publicKey(sk) && s.nonce == n && s.sessionId == id
  {
    SigningBytesAmbiguous(n, id, 1);
    HonestAccepted(cfg.crypto, cfg.keys.value, entry, sk, n, id);
  }

  /** The agent's signature stands for the session's own. */
  lemma RelayedSigned(cfg: Config, net: Network, s: Server, sk: Bytes32, n: Bytes32, id: seq<byte>)
    requires id != [] && s.nonce == n && s.sessionId == id && net.signed == {Signing(sk, n + id[..1], id[1..])}
    ensures NoForgery(cfg, {sk}, net, s, Got(Relayed(cfg.crypto, sk, n, id)))
  {
    SigningBytesAmbiguous(n, id, 1);
    var what := Signing(sk, n + id[..1], id[1..]);
    assert what in net.signed && what.sk == sk && SigningBytes(what.nonce, what.sessionId) == SigningBytes(n, id);
  }

  /** The condition on the signer's nonce is needed: for every session with a listed key
      there is a run in which it is accepted although its key's only signature was made
      for another nonce and another session. */
  lemma RelayedChallenge(cfg: Config, entry: AuthorizedKey, sk: Bytes32, n: Bytes32, id: seq<byte>)
    requires cfg.crypto.Correct() && cfg.keys.Some? && TableOf(cfg.crypto, cfg.keys.value) && entry in cfg.keys.value
    requires entry.verifyingKey == cfg.crypto.publicKey(sk) && NoCollision(cfg.crypto, cfg.keys.value, entry.verifyingKey)
    requires id != []
    ensures exists es, net ::
      && Happens(cfg, {sk}, Network([], {}), es, net) && |net.servers| == 1
      && net.servers[0].auth.Some? && net.servers[0].auth.value.verifyingKey == cfg.crypto.publicKey(sk)
      && net.servers[0].nonce == n && net.servers[0].sessionId == id
      && net.signed == {Signing(sk, n + id[..1], id[1..])} && n + id[..1] != n && id[1..] != id
  {
    var what := Signing(sk, n + id[..1], id[1..]);
    var receive := Receive(Got(Relayed(cfg.crypto, sk, n, id)), None);
    var s1 := Apply(cfg, INIT, Begin(n, id));
    var s2 := Apply(cfg, s1, receive);
    SigningBytesAmbiguous(n, id, 1);
    RelayedAccepted(cfg, entry, sk, n, id);
    RelayedSigned(cfg, Network([s1], {what}), s1, sk, n, id);
    HappensOnce(cfg, {sk}, Network([s1], {what}), Serve(0, receive), Network([s2], {what}));
    HappensCons(cfg, {sk}, Network([s1], {}), Sign(what), [Serve(0, receive)], Network([s2], {what}));
    RelayedBegins(cfg, {sk}, n, id, [Sign(what)] + [Serve(0, receive)], Network([s2], {what}));
  }

  lemma RelayedBegins(cfg: Config, honest: set<Bytes32>, n: Bytes32, id: seq<byte>, es: seq<Event>, net: Network)
    requires cfg.keys.Some? && Happens(cfg, honest, Network([Apply(cfg, INIT, Begin(n, id))], {}), es, net)
    ensures exists all :: Happens(cfg, honest, Network([], {}), all, net)
  {
    assert After(cfg, honest, Network([INIT], {}), Serve(0, Begin(n, id))) == Network([Apply(cfg, INIT, Begin(n, id))], {});
    HappensCons(cfg, honest, Network([INIT], {}), Serve(0, Begin(n, id)), es, net);
    assert [] + [INIT] == [INIT];
    HappensCons(cfg, honest, Network([], {}), Event.Open, [Serve(0, Begin(n, id))] + es, net);
  }

  lemma HappensOnce(cfg: Config, honest: set<Bytes32>, net: Network, e: Event, net': Network)
    requires May(cfg, honest, net, e) && After(cfg, honest, net, e) == net'
    ensures Happens(cfg, honest, net, [e], net')
  {
    assert [e][1..] == [];
  }

  lemma HappensCons(cfg: Config, honest: set<Bytes32>, net: Network, e: Event, es: seq<Event>, net': Network)
    requires May(cfg, honest, net, e) && Happens(cfg, honest, After(cfg, honest, net, e), es, net')
    ensures Happens(cfg, honest, net, [e] + es, net')
  {
    assert ([e] + es)[1..] == es;
  }
}
