/** The three-message session handshake with ideal signatures.

    A signature is the pair of signing key and signed bytes, so it verifies exactly for the
    key and bytes it was made for; what others can present is limited by what the key's owner
    signed. `keyId` stands for the hash of a public key, and `nonceOk` for the test that a
    nonce decodes to 32 bytes; random values are parameters. */
module Handshake {

  import opened Collections
  import opened Outcomes
  import opened Ordering
  import opened SigningBytes

  type Key = nat

  datatype Signature = Signed(key: Key, payload: Bytes) | Garbage(bits: Bytes)

  predicate Verifies(key: Key, sig: Signature, payload: Bytes) {
    sig == Signed(key, payload)
  }

  datatype Challenge = Challenge(protocolVersion: Bytes, workstationPrincipal: Bytes, workstationKeyId: Bytes, challenge: Bytes)

  datatype Binding = Binding(sessionId: Bytes, controllerPrincipal: Bytes, workstationPrincipal: Bytes,
                             granted: set<Bytes>, expiresAtMs: int)

  datatype AuthError = SessionAuthError | ChallengeMismatch | PrincipalMismatch | KeyMismatch | SignatureInvalid
                     | CapabilityEscalation | InvalidTtl | ExpiredAccept | NotAnAccept

  /** Public knowledge about keys and nonces. */
  datatype Primitives = Primitives(keyId: Key -> Bytes, nonceOk: Bytes -> bool)

  function Version(): Bytes {
    Ascii("veraport-v1")
  }

  function Principal(p: Primitives, role: string, key: Key): Bytes {
    Ascii(role) + [COLON] + p.keyId(key)
  }

  /** A controller and a workstation never share a principal, and one role's principals are as
      different as the key ids. */
  lemma PrincipalsAreSeparated(p: Primitives, a: Key, b: Key)
    ensures Principal(p, "controller", a) != Principal(p, "workstation", b)
    ensures Principal(p, "controller", a) == Principal(p, "controller", b) <==> p.keyId(a) == p.keyId(b)
    ensures Principal(p, "workstation", a) == Principal(p, "workstation", b) <==> p.keyId(a) == p.keyId(b)
  {
    assert Principal(p, "controller", a)[0] == 'c' as int && Principal(p, "workstation", b)[0] == 'w' as int;
    assert |Ascii("controller")| == 10 && |Ascii("workstation")| == 11;
    assert Principal(p, "controller", a)[11..] == p.keyId(a) && Principal(p, "controller", b)[11..] == p.keyId(b);
    assert Principal(p, "workstation", a)[12..] == p.keyId(a) && Principal(p, "workstation", b)[12..] == p.keyId(b);
  }

  datatype Workstation = Workstation(key: Key, allowed: map<Bytes, Key>, policy: map<Bytes, set<Bytes>>)

  function Ceiling(w: Workstation, controller: Bytes): set<Bytes> {
    if controller in w.policy then w.policy[controller] else {}
  }

  function FirstMessage(p: Primitives, w: Workstation, nonce: Bytes): Challenge {
    Challenge(Version(), Principal(p, "workstation", w.key), p.keyId(w.key), nonce)
  }

  /** The controller's answer to a challenge, before it is signed. */
  function SecondMessage(p: Primitives, controller: Key, c: Challenge, requested: seq<Bytes>, nonce: Bytes): ClientAuth {
    ClientAuth(Version(), Principal(p, "controller", controller), p.keyId(controller), c.workstationPrincipal,
               c.challenge, nonce, Normalized(requested))
  }

  /** The workstation's decision, with the checks in the order they are made. */
  function Accept(p: Primitives, w: Workstation, c: Challenge, client: ClientAuth, sig: Signature, now: int, ttl: int, sessionId: Bytes)
    : Result<(ServerAccept, Binding), AuthError>
  {
    if c.protocolVersion != Version() || client.protocolVersion != Version() then Err(SessionAuthError)
    else if !p.nonceOk(c.challenge) || !p.nonceOk(client.clientNonce) then Err(ChallengeMismatch)
    else if c.workstationPrincipal != Principal(p, "workstation", w.key) then Err(PrincipalMismatch)
    else if c.workstationKeyId != p.keyId(w.key) then Err(KeyMismatch)
    else if client.workstationPrincipal != Principal(p, "workstation", w.key) then Err(PrincipalMismatch)
    else if client.serverChallenge != c.challenge then Err(ChallengeMismatch)
    else if client.controllerPrincipal !in w.allowed then Err(PrincipalMismatch)
    else
      var public := w.allowed[client.controllerPrincipal];
      if p.keyId(public) != client.controllerKeyId then Err(KeyMismatch)
      else if Principal(p, "controller", public) != client.controllerPrincipal then Err(PrincipalMismatch)
      else if !Verifies(public, sig, ClientBase(client)) then Err(SignatureInvalid)
      else if !(Elements(client.requested) <= Ceiling(w, client.controllerPrincipal)) then Err(CapabilityEscalation)
      else if ttl <= 0 then Err(InvalidTtl)
      else
        var accept := ServerAccept(Version(), sessionId, client.controllerPrincipal, Principal(p, "workstation", w.key),
                                   p.keyId(w.key), c.challenge, client.clientNonce, Normalized(client.requested), now + ttl);
        Ok((accept, Binding(sessionId, client.controllerPrincipal, Principal(p, "workstation", w.key),
                            Elements(client.requested), now + ttl)))
  }

  function BindingOf(a: ServerAccept): Binding {
    Binding(a.sessionId, a.controllerPrincipal, a.workstationPrincipal, Elements(a.granted), a.expiresAtMs)
  }

  /** The checks after the identity checks, which both implementations share. */
  function CheckAccept(c: Challenge, client: ClientAuth, a: ServerAccept, sig: Signature, pinned: Key, now: int): Result<Binding, AuthError> {
    if a.controllerPrincipal != client.controllerPrincipal then Err(PrincipalMismatch)
    else if a.serverChallenge != c.challenge || a.clientNonce != client.clientNonce then Err(ChallengeMismatch)
    else if !(Elements(a.granted) <= Elements(client.requested)) then Err(CapabilityEscalation)
    else if now >= a.expiresAtMs then Err(ExpiredAccept)
    else if !Verifies(pinned, sig, ServerBase(a)) then Err(SignatureInvalid)
    else Ok(BindingOf(a))
  }

  /** The controller's check of the third message in Python. */
  function VerifyAccept(p: Primitives, c: Challenge, client: ClientAuth, a: ServerAccept, sig: Signature, pinned: Key, now: int)
    : Result<Binding, AuthError>
  {
    if c.protocolVersion != Version() || client.protocolVersion != Version() || a.protocolVersion != Version() then Err(SessionAuthError)
    else if !p.nonceOk(c.challenge) || !p.nonceOk(client.clientNonce) then Err(ChallengeMismatch)
    else if a.workstationPrincipal != Principal(p, "workstation", pinned) then Err(PrincipalMismatch)
    else if a.workstationKeyId != p.keyId(pinned) then Err(KeyMismatch)
    else CheckAccept(c, client, a, sig, pinned, now)
  }

  /** The same check in Go, which also pins the identity in the challenge. */
  function VerifyAcceptGo(p: Primitives, c: Challenge, client: ClientAuth, frame: string, a: ServerAccept, sig: Signature, pinned: Key, now: int)
    : Result<Binding, AuthError>
  {
    if frame != "server_accept" then Err(NotAnAccept)
    else if c.protocolVersion != Version() || client.protocolVersion != Version() || a.protocolVersion != Version() then Err(SessionAuthError)
    else if || c.workstationPrincipal != Principal(p, "workstation", pinned) || c.workstationKeyId != p.keyId(pinned)
            || a.workstationPrincipal != Principal(p, "workstation", pinned) || a.workstationKeyId != p.keyId(pinned)
      then Err(PrincipalMismatch)
    else CheckAccept(c, client, a, sig, pinned, now)
  }

  /** Acceptance, condition by condition. */
  lemma AcceptIsExact(p: Primitives, w: Workstation, c: Challenge, client: ClientAuth, sig: Signature, now: int, ttl: int, sessionId: Bytes)
    ensures Accept(p, w, c, client, sig, now, ttl, sessionId).Ok? <==>
            && c.protocolVersion == Version() && client.protocolVersion == Version()
            && p.nonceOk(c.challenge) && p.nonceOk(client.clientNonce)
            && c.workstationPrincipal == client.workstationPrincipal == Principal(p, "workstation", w.key)
            && c.workstationKeyId == p.keyId(w.key) && client.serverChallenge == c.challenge
            && Enrolled(p, w, client) && sig == Signed(w.allowed[client.controllerPrincipal], ClientBase(client))
            && (forall x <- client.requested :: x in Ceiling(w, client.controllerPrincipal)) && ttl > 0
    ensures Accept(p, w, c, client, sig, now, ttl, sessionId).Ok? ==>
            var (a, binding) := Accept(p, w, c, client, sig, now, ttl, sessionId).value;
            && a.protocolVersion == Version() && a.sessionId == sessionId && a.controllerPrincipal == client.controllerPrincipal
            && a.workstationPrincipal == Principal(p, "workstation", w.key) && a.workstationKeyId == p.keyId(w.key)
            && a.serverChallenge == c.challenge && a.clientNonce == client.clientNonce
            && Elements(a.granted) == Elements(client.requested) && a.expiresAtMs == now + ttl && binding == BindingOf(a)
  {
    NormalizedIsSorted(client.requested);
  }

  /** The principal is on the workstation's list, with a key that matches what the client says. */
  predicate Enrolled(p: Primitives, w: Workstation, client: ClientAuth) {
    && client.controllerPrincipal in w.allowed
    && client.controllerKeyId == p.keyId(w.allowed[client.controllerPrincipal])
    && client.controllerPrincipal == Principal(p, "controller", w.allowed[client.controllerPrincipal])
  }

  /** The controller's check, condition by condition. */
  lemma VerifyIsExact(p: Primitives, c: Challenge, client: ClientAuth, a: ServerAccept, sig: Signature, pinned: Key, now: int)
    ensures VerifyAccept(p, c, client, a, sig, pinned, now).Ok? <==>
            && c.protocolVersion == Version() && client.protocolVersion == Version() && a.protocolVersion == Version()
            && p.nonceOk(c.challenge) && p.nonceOk(client.clientNonce)
            && a.workstationPrincipal == Principal(p, "workstation", pinned) && a.workstationKeyId == p.keyId(pinned)
            && a.controllerPrincipal == client.controllerPrincipal
            && a.serverChallenge == c.challenge && a.clientNonce == client.clientNonce
            && (forall x <- a.granted :: x in client.requested) && now < a.expiresAtMs && sig == Signed(pinned, ServerBase(a))
    ensures VerifyAccept(p, c, client, a, sig, pinned, now).Ok? ==> VerifyAccept(p, c, client, a, sig, pinned, now).value == BindingOf(a)
  {
    SubsetOfElements(a.granted, client.requested);
  }

  /** The Go check asks for the frame type and pins the challenge too, and leaves out the nonces. */
  lemma VerifyGoIsExact(p: Primitives, c: Challenge, client: ClientAuth, frame: string, a: ServerAccept, sig: Signature, pinned: Key, now: int)
    ensures VerifyAcceptGo(p, c, client, frame, a, sig, pinned, now).Ok? <==>
            && frame == "server_accept"
            && c.protocolVersion == Version() && client.protocolVersion == Version() && a.protocolVersion == Version()
            && c.workstationPrincipal == a.workstationPrincipal == Principal(p, "workstation", pinned)
            && c.workstationKeyId == a.workstationKeyId == p.keyId(pinned)
            && a.controllerPrincipal == client.controllerPrincipal
            && a.serverChallenge == c.challenge && a.clientNonce == client.clientNonce
            && (forall x <- a.granted :: x in client.requested) && now < a.expiresAtMs && sig == Signed(pinned, ServerBase(a))
    ensures VerifyAcceptGo(p, c, client, frame, a, sig, pinned, now).Ok? ==>
            VerifyAcceptGo(p, c, client, frame, a, sig, pinned, now).value == BindingOf(a)
  {
    SubsetOfElements(a.granted, client.requested);
  }

  lemma SubsetOfElements(xs: seq<Bytes>, ys: seq<Bytes>)
    ensures Elements(xs) <= Elements(ys) <==> forall x <- xs :: x in ys
  {
    if Elements(xs) <= Elements(ys) {
      forall x | x in xs
        ensures x in ys
      {
        assert x in Elements(xs);
      }
    }
  }

  /** An accepted handshake agrees on both sides. The accept, signed by the workstation, is
      verified by either implementation exactly until it expires, and gives the controller the
      binding the workstation keeps; the grants are the request, within the local ceiling. */
  lemma HonestHandshakeAgrees(p: Primitives, w: Workstation, c: Challenge, client: ClientAuth, sig: Signature,
                              now: int, ttl: int, sessionId: Bytes, later: int)
    requires Accept(p, w, c, client, sig, now, ttl, sessionId).Ok?
    ensures var (a, binding) := Accept(p, w, c, client, sig, now, ttl, sessionId).value;
            var reply := Signed(w.key, ServerBase(a));
            && VerifyAccept(p, c, client, a, reply, w.key, later) == (if later < now + ttl then Ok(binding) else Err(ExpiredAccept))
            && VerifyAcceptGo(p, c, client, "server_accept", a, reply, w.key, later) == VerifyAccept(p, c, client, a, reply, w.key, later)
            && binding.granted == Elements(client.requested) <= Ceiling(w, client.controllerPrincipal)
            && binding.expiresAtMs > now
            && client.controllerPrincipal in w.allowed
            && Verifies(w.allowed[client.controllerPrincipal], sig, ClientBase(client))
  {
    NormalizedIsSorted(client.requested);
  }

  /** A handshake of an enrolled controller within its ceiling succeeds. */
  lemma EnrolledControllerIsAccepted(p: Primitives, w: Workstation, controller: Key, requested: seq<Bytes>,
                                     n1: Bytes, n2: Bytes, now: int, ttl: int, sessionId: Bytes)
    requires p.nonceOk(n1) && p.nonceOk(n2) && ttl > 0
    requires var me := Principal(p, "controller", controller);
             me in w.allowed && w.allowed[me] == controller && Elements(requested) <= Ceiling(w, me)
    ensures var c := FirstMessage(p, w, n1);
            var client := SecondMessage(p, controller, c, requested, n2);
            Accept(p, w, c, client, Signed(controller, ClientBase(client)), now, ttl, sessionId).Ok?
  {
    NormalizedIsSorted(requested);
  }

  /** One run of `Accept` that succeeded, as the workstation remembers it. */
  datatype Accepted = Accepted(accept: ServerAccept, binding: Binding)

  /** Capability names that the signed text keeps apart. */
  predicate Plain(names: set<Bytes>) {
    forall n <- names :: n != [] && COMMA !in n
  }

  /** Everything the workstation ever accepted, and the only bytes its key ever signed. */
  ghost predicate History(p: Primitives, w: Workstation, log: seq<Accepted>) {
    forall e <- log :: exists c, client, sig, now, ttl, sessionId ::
      Accept(p, w, c, client, sig, now, ttl, sessionId) == Ok((e.accept, e.binding))
  }

  /** A signature of the workstation that somebody presents was made for a logged accept. */
  ghost predicate Unforged(w: Workstation, log: seq<Accepted>, sig: Signature) {
    sig.Signed? && sig.key == w.key ==> exists e <- log :: sig.payload == ServerBase(e.accept)
  }

  lemma LoggedGrants(p: Primitives, w: Workstation, log: seq<Accepted>, e: Accepted)
    requires History(p, w, log) && e in log && (forall k <- w.policy :: Plain(w.policy[k]))
    ensures e.binding == BindingOf(e.accept) && Plain(Elements(e.accept.granted))
  {
    var c, client, sig, now, ttl, sessionId :|
      Accept(p, w, c, client, sig, now, ttl, sessionId) == Ok((e.accept, e.binding));
    NormalizedIsSorted(client.requested);
  }

  lemma PlainIsCommaFree(names: seq<Bytes>)
    requires Plain(Elements(names))
    ensures CommaFree(names) && (Negligible(names) ==> Elements(names) == {})
  {
    forall n | n in names
      ensures COMMA !in n && n != []
    {
      assert n in Elements(names);
    }
    assert names != [] ==> names[0] in names;
  }

  /** Agreement: whatever reaches the controller, if it verifies under the pinned key, then the
      workstation itself accepted this challenge and this nonce for this controller, and both
      sides hold the same binding. */
  lemma VerifiedAcceptWasMade(p: Primitives, w: Workstation, log: seq<Accepted>, c: Challenge, client: ClientAuth,
                              a: ServerAccept, sig: Signature, now: int)
    returns (e: Accepted)
    requires History(p, w, log) && Unforged(w, log, sig)
    requires Plain(Elements(client.requested)) && forall k <- w.policy :: Plain(w.policy[k])
    requires VerifyAccept(p, c, client, a, sig, w.key, now).Ok? || VerifyAcceptGo(p, c, client, "server_accept", a, sig, w.key, now).Ok?
    ensures e in log && e.accept.serverChallenge == c.challenge && e.accept.clientNonce == client.clientNonce
    ensures e.binding.controllerPrincipal == client.controllerPrincipal && e.binding.granted <= Elements(client.requested)
    ensures CheckAccept(c, client, a, sig, w.key, now) == Ok(e.binding)
  {
    assert CheckAccept(c, client, a, sig, w.key, now).Ok?;
    e :| e in log && sig.payload == ServerBase(e.accept);
    LoggedGrants(p, w, log, e);
    PlainIsCommaFree(e.accept.granted);
    assert Plain(Elements(a.granted));
    PlainIsCommaFree(a.granted);
    ServerBaseIsExact(a, e.accept);
    assert Elements(a.granted) == Elements(e.accept.granted);
  }

  /** What a controller's key ever signed: the messages it sent. A signature of that key which
      somebody presents was made for one of them. */
  ghost predicate UnforgedBy(key: Key, messages: seq<ClientAuth>, sig: Signature) {
    sig.Signed? && sig.key == key ==> exists m <- messages :: sig.payload == ClientBase(m)
  }

  /** The other direction of agreement: whatever reaches the workstation, if it accepts, then the
      enrolled controller itself sent a message for this challenge, this nonce and this
      workstation, asking for exactly the capabilities that were granted. */
  lemma AcceptedControllerAsked(p: Primitives, w: Workstation, c: Challenge, client: ClientAuth, sig: Signature,
                                now: int, ttl: int, sessionId: Bytes, messages: seq<ClientAuth>)
    returns (m: ClientAuth)
    requires Accept(p, w, c, client, sig, now, ttl, sessionId).Ok?
    requires client.controllerPrincipal in w.allowed ==> UnforgedBy(w.allowed[client.controllerPrincipal], messages, sig)
    requires (forall x <- messages :: Plain(Elements(x.requested))) && forall k <- w.policy :: Plain(w.policy[k])
    ensures m in messages && m.serverChallenge == c.challenge && m.clientNonce == client.clientNonce
    ensures m.workstationPrincipal == Principal(p, "workstation", w.key)
    ensures m.controllerPrincipal == client.controllerPrincipal && m.controllerKeyId == client.controllerKeyId
    ensures Elements(m.requested) == Accept(p, w, c, client, sig, now, ttl, sessionId).value.1.granted
    ensures Elements(m.requested) <= Ceiling(w, m.controllerPrincipal)
  {
    AcceptIsExact(p, w, c, client, sig, now, ttl, sessionId);
    m :| m in messages && sig.payload == ClientBase(m);
    assert Plain(Elements(client.requested));
    PlainIsCommaFree(client.requested);
    PlainIsCommaFree(m.requested);
    ClientBaseIsExact(m, client);
    assert Elements(m.requested) == Elements(client.requested);
  }

  /** Nobody else gets in: not a principal that is not enrolled, and not without the enrolled
      key's signature over these very bytes. */
  lemma StrangersAreRefused(p: Primitives, w: Workstation, c: Challenge, client: ClientAuth, sig: Signature, now: int, ttl: int, sessionId: Bytes)
    requires client.controllerPrincipal !in w.allowed || sig != Signed(w.allowed[client.controllerPrincipal], ClientBase(client))
    ensures Accept(p, w, c, client, sig, now, ttl, sessionId).Err?
  {
    AcceptIsExact(p, w, c, client, sig, now, ttl, sessionId);
  }

  /** Without the restriction on names agreement fails. A controller that may use two names asks
      for the one name that joins them with a comma. If the lists are rewritten on the way, there
      and back, every signature still fits: the workstation grants the two names, the controller
      is told that it was granted the one, and the bindings differ. */
  lemma CommasBreakAgreement(p: Primitives, w: Workstation, controller: Key, x: Bytes, y: Bytes,
                             n1: Bytes, n2: Bytes, now: int, ttl: int, sessionId: Bytes)
    requires Less(x, y) && p.nonceOk(n1) && p.nonceOk(n2) && ttl > 0
    requires var me := Principal(p, "controller", controller);
             me in w.allowed && w.allowed[me] == controller && {x, y} <= Ceiling(w, me)
    ensures var xy := [x + [COMMA] + y];
            var c := FirstMessage(p, w, n1);
            var sent := SecondMessage(p, controller, c, xy, n2);
            var arrived := sent.(requested := [x, y]);
            var accepted := Accept(p, w, c, arrived, Signed(controller, ClientBase(sent)), now, ttl, sessionId);
            && accepted.Ok?
            && var (a, binding) := accepted.value;
               var verified := VerifyAccept(p, c, sent, a.(granted := xy), Signed(w.key, ServerBase(a)), w.key, now);
               verified.Ok? && verified.value != binding
  {
    var xy := [x + [COMMA] + y];
    var c := FirstMessage(p, w, n1);
    var sent := SecondMessage(p, controller, c, xy, n2);
    var arrived := SecondMessage(p, controller, c, [x, y], n2);
    CommasCollide(x, y);
    NormalizedIsItself(xy);
    NormalizedIsItself([x, y]);
    SameTextSameBase(sent, [x, y]);
    assert arrived == sent.(requested := [x, y]);
    assert Elements([x, y]) <= {x, y};
    EnrolledControllerIsAccepted(p, w, controller, [x, y], n1, n2, now, ttl, sessionId);
    var (a, binding) := Accept(p, w, c, arrived, Signed(controller, ClientBase(arrived)), now, ttl, sessionId).value;
    SameTextSameAccept(a, xy);
  }
}
