/** The KM2 key delivery protocol as a labelled transition system: any number of clients, a serial
    KDC that forwards to the GCKS before it replies, a bounded accept queue, and a serial GCKS that
    retries its connection until the client listens. MIKEY messages are symbolic seals. */
module Km2 {
  import opened ConnInfo
  import Counting

  datatype Key = ServiceKey(owner: nat) | SessionKey(serial: nat)

  /** KDC to GCKS: sealed under psk, carrying the session key and the printed connection record. */
  datatype Forwarded = Forwarded(psk: Key, tgk: Key, conn: string)

  /** GCKS to client: sealed under psk, carrying a fresh group key. */
  datatype Offer = Offer(psk: Key, peer: string, tgk: nat)

  /** Opening a seal succeeds exactly when the keys are equal. */
  predicate Opens(key: Key, sealedUnder: Key) {
    key == sealedUnder
  }

  datatype Client = Client(info: Info, mikey: bool)

  /** backlog is the GCKS's accept queue: listen(sock, 5). */
  datatype Config = Config(clients: seq<Client>, kdcKey: Key, keytabKey: Key, backlog: nat)

  /** The GCKS copies the address into 30 bytes and resolves it as a C string. */
  const ADDRESS_SIZE: nat := 30

  predicate Deliverable(i: Info) {
    GoodInfo(i) && |Header(i)| < RECORD_SIZE - 1 && |i.addr| < ADDRESS_SIZE
  }

  ghost predicate WellFormed(cf: Config) {
    && cf.kdcKey.ServiceKey? && cf.keytabKey == cf.kdcKey
    && 0 < cf.backlog
    && forall c :: 0 <= c < |cf.clients| ==> Deliverable(cf.clients[c].info)
  }

  function Addr(cf: Config, c: nat): string
    requires c < |cf.clients|
  {
    cf.clients[c].info.addr
  }

  /** No two clients that will listen for an offer share an address, and so port 9999. */
  ghost predicate DistinctAddresses(cf: Config) {
    forall c, d :: 0 <= c < d < |cf.clients| && cf.clients[c].mikey && cf.clients[d].mikey ==>
      Addr(cf, c) != Addr(cf, d)
  }

  // ---------- state ----------

  datatype Phase =
    | Start
    | Requested
    | Ticketed(key: Key)
    | Listening(key: Key)
    | Received(key: Key, offer: Offer)
    | Finished(key: Key, offer: Offer, ok: bool)
    | PlainTicket(key: Key)
    | BindFailed(key: Key)

  datatype Kdc = KdcIdle | KdcForwarding(client: nat, key: Key) | KdcReplying(client: nat, key: Key)

  datatype Gcks = GcksIdle | GcksReceived(msg: Forwarded) | GcksConnecting(msg: Forwarded, key: Key, info: Info)

  /** One finished delivery: the forwarded message it came from, what the GCKS read out of it,
      what it sent, and the client whose socket took it. */
  datatype Delivery = Delivery(msg: Forwarded, info: Info, offer: Offer, taker: nat)

  /** issued[k] is the client SessionKey(k) was issued for; sent lists the serials of the session keys
      forwarded to the GCKS, in order. */
  datatype State = State(
    phases: seq<Phase>, issued: seq<nat>, kdc: Kdc, sent: seq<nat>,
    queue: seq<Forwarded>, gcks: Gcks, delivered: seq<Delivery>)

  function Initial(cf: Config): State {
    State(seq(|cf.clients|, _ => Start), [], KdcIdle, [], [], GcksIdle, [])
  }

  /** What do_gcks_req seals for a client holding a session key. */
  function MessageFor(cf: Config, c: nat, key: Key): Forwarded
    requires c < |cf.clients|
  {
    Forwarded(cf.kdcKey, key, Printed(cf.clients[c].info))
  }

  /** What send_mikey_message seals: the recovered session key is the pre-shared key. */
  function OfferFor(key: Key, info: Info, tgk: nat): Offer {
    Offer(key, info.name, tgk)
  }

  // ---------- steps ----------

  datatype Action =
    | Request(c: nat)
    | Take(c: nat)
    | Forward
    | ForwardFails
    | Reply
    | Listen(c: nat)
    | Accept
    | Unseal
    | Retry
    | Deliver(c: nat)
    | Authenticate(c: nat)

  predicate ListensAt(cf: Config, s: State, addr: string)
    requires |s.phases| == |cf.clients|
  {
    exists c :: 0 <= c < |s.phases| && s.phases[c].Listening? && Addr(cf, c) == addr
  }

  predicate Enabled(cf: Config, s: State, a: Action)
    requires |s.phases| == |cf.clients|
  {
    match a
    case Request(c) => c < |s.phases| && s.phases[c] == Start
    case Take(c) => c < |s.phases| && s.kdc == KdcIdle && s.phases[c] == Requested && c !in s.issued
    case Forward => s.kdc.KdcForwarding? && s.kdc.client < |s.phases| && s.kdc.key.SessionKey? && |s.queue| < cf.backlog
    case ForwardFails => s.kdc.KdcForwarding?
    case Reply => s.kdc.KdcReplying? && s.kdc.client < |s.phases|
    case Listen(c) => c < |s.phases| && s.phases[c].Ticketed?
    case Accept => s.gcks == GcksIdle && s.queue != []
    case Unseal => s.gcks.GcksReceived? && Opens(cf.keytabKey, s.gcks.msg.psk) && Parse(s.gcks.msg.conn).Some?
    case Retry => s.gcks.GcksConnecting? && !ListensAt(cf, s, s.gcks.info.addr)
    case Deliver(c) => s.gcks.GcksConnecting? && c < |s.phases| && s.phases[c].Listening? && Addr(cf, c) == s.gcks.info.addr
    case Authenticate(c) => c < |s.phases| && s.phases[c].Received?
  }

  function Apply(cf: Config, s: State, a: Action): (t: State)
    requires |s.phases| == |cf.clients| && Enabled(cf, s, a)
    ensures |t.phases| == |s.phases|
  {
    match a
    case Request(c) => s.(phases := s.phases[c := Requested])
    case Take(c) =>
      var key := SessionKey(|s.issued|);
      s.(issued := s.issued + [c],
         kdc := if cf.clients[c].mikey then KdcForwarding(c, key) else KdcReplying(c, key))
    case Forward =>
      s.(queue := s.queue + [MessageFor(cf, s.kdc.client, s.kdc.key)],
         sent := s.sent + [s.kdc.key.serial],
         kdc := KdcReplying(s.kdc.client, s.kdc.key))
    case ForwardFails => s.(kdc := KdcReplying(s.kdc.client, s.kdc.key))
    case Reply =>
      var c := s.kdc.client;
      s.(phases := s.phases[c := if cf.clients[c].mikey then Ticketed(s.kdc.key) else PlainTicket(s.kdc.key)],
         kdc := KdcIdle)
    case Listen(c) =>
      var key := s.phases[c].key;
      s.(phases := s.phases[c := if ListensAt(cf, s, Addr(cf, c)) then BindFailed(key) else Listening(key)])
    case Accept => s.(queue := s.queue[1..], gcks := GcksReceived(s.queue[0]))
    case Unseal => s.(gcks := GcksConnecting(s.gcks.msg, s.gcks.msg.tgk, Parse(s.gcks.msg.conn).value))
    case Retry => s
    case Deliver(c) =>
      var offer := OfferFor(s.gcks.key, s.gcks.info, |s.delivered|);
      s.(phases := s.phases[c := Received(s.phases[c].key, offer)],
         delivered := s.delivered + [Delivery(s.gcks.msg, s.gcks.info, offer, c)],
         gcks := GcksIdle)
    case Authenticate(c) =>
      var p := s.phases[c];
      s.(phases := s.phases[c := Finished(p.key, p.offer, Opens(p.key, p.offer.psk))])
  }

  // ---------- runs ----------

  predicate CanRun(cf: Config, s: State, run: seq<Action>)
    requires |s.phases| == |cf.clients|
    decreases |run|
  {
    run == [] || (Enabled(cf, s, run[0]) && CanRun(cf, Apply(cf, s, run[0]), run[1..]))
  }

  function After(cf: Config, s: State, run: seq<Action>): (t: State)
    requires |s.phases| == |cf.clients| && CanRun(cf, s, run)
    ensures |t.phases| == |cf.clients|
    decreases |run|
  {
    if run == [] then s else After(cf, Apply(cf, s, run[0]), run[1..])
  }

  ghost predicate Reachable(cf: Config, s: State) {
    |s.phases| == |cf.clients| && exists run :: CanRun(cf, Initial(cf), run) && After(cf, Initial(cf), run) == s
  }

  // ---------- the invariant ----------

  predicate HasKey(p: Phase) {
    !p.Start? && !p.Requested?
  }

  function InProcess(g: Gcks): seq<Forwarded> {
    if g.GcksIdle? then [] else [g.msg]
  }

  /** Everything forwarded, in order: what was delivered, then what the GCKS holds, then what waits. */
  function Pipeline(s: State): seq<Forwarded> {
    Messages(s.delivered) + InProcess(s.gcks) + s.queue
  }

  function Messages(ds: seq<Delivery>): (ms: seq<Forwarded>)
    ensures |ms| == |ds| && forall i :: 0 <= i < |ds| ==> ms[i] == ds[i].msg
  {
    seq(|ds|, i requires 0 <= i < |ds| => ds[i].msg)
  }

  /** Session keys are issued once per client, to clients that asked. */
  ghost predicate IssuedOk(cf: Config, s: State) {
    && |s.phases| == |cf.clients|
    && (forall k :: 0 <= k < |s.issued| ==> s.issued[k] < |s.phases| && s.phases[s.issued[k]] != Start)
    && (forall j, k :: 0 <= j < k < |s.issued| ==> s.issued[j] != s.issued[k])
  }

  predicate RunsMikey(p: Phase) {
    p.Ticketed? || p.Listening? || p.Received? || p.Finished? || p.BindFailed?
  }

  /** A client past its reply holds the key issued to it; one that still waits is with the KDC. */
  ghost predicate PhaseOk(cf: Config, s: State, c: nat)
    requires c < |s.phases| == |cf.clients|
  {
    var p := s.phases[c];
    && (HasKey(p) ==> IssuedTo(s, p.key, c))
    && (RunsMikey(p) ==> cf.clients[c].mikey) && (p.PlainTicket? ==> !cf.clients[c].mikey)
    && (p == Requested && c in s.issued ==> s.kdc != KdcIdle && s.kdc.client == c)
    && (p.Finished? ==> p.ok == Opens(p.key, p.offer.psk))
  }

  ghost predicate KeysOk(cf: Config, s: State) {
    IssuedOk(cf, s) && forall c :: 0 <= c < |s.phases| ==> PhaseOk(cf, s, c)
  }

  predicate IssuedTo(s: State, key: Key, c: nat) {
    key.SessionKey? && key.serial < |s.issued| && s.issued[key.serial] == c
  }

  /** The client the KDC works on still waits, and holds the newest key. */
  ghost predicate HolderOk(cf: Config, s: State)
    requires |s.phases| == |cf.clients|
  {
    && (s.kdc != KdcIdle ==>
          && s.kdc.client < |s.phases| && s.phases[s.kdc.client] == Requested
          && IssuedTo(s, s.kdc.key, s.kdc.client) && s.kdc.key.serial + 1 == |s.issued|)
    && (s.kdc.KdcForwarding? ==> cf.clients[s.kdc.client].mikey)
  }

  /** Forwarded keys are issued keys of MIKEY clients, each forwarded once, oldest first. */
  ghost predicate SentOk(cf: Config, s: State)
    requires |s.phases| == |cf.clients|
  {
    && (forall i :: 0 <= i < |s.sent| ==> s.sent[i] < |s.issued| && IsMikey(cf, s.issued[s.sent[i]]))
    && (forall i, j :: 0 <= i < j < |s.sent| ==> s.sent[i] < s.sent[j])
    && (s.kdc.KdcForwarding? ==> |s.issued| - 1 !in s.sent)
    && |s.queue| <= cf.backlog
  }

  predicate IsMikey(cf: Config, c: nat) {
    c < |cf.clients| && cf.clients[c].mikey
  }

  ghost predicate KdcOk(cf: Config, s: State)
    requires |s.phases| == |cf.clients|
  {
    HolderOk(cf, s) && SentOk(cf, s)
  }

  /** Conservation and pairing, as one equation: the i-th message in the pipeline is the one sealed
      for the i-th forwarded key and the client it was issued to. */
  ghost predicate PipelineOk(cf: Config, s: State)
    requires |s.phases| == |cf.clients| && KdcOk(cf, s)
  {
    && |Pipeline(s)| == |s.sent|
    && forall i :: 0 <= i < |s.sent| ==> Pipeline(s)[i] == MessageFor(cf, s.issued[s.sent[i]], SessionKey(s.sent[i]))
  }

  /** The i-th delivery carries the name, address and key of the i-th forwarded message. */
  ghost predicate DeliveryOk(cf: Config, s: State, i: nat)
    requires i < |s.delivered|
  {
    var d := s.delivered[i];
    && Opens(cf.keytabKey, d.msg.psk) && Parse(d.msg.conn) == Some(d.info)
    && d.offer == OfferFor(d.msg.tgk, d.info, i)
    && d.taker < |cf.clients| && Addr(cf, d.taker) == d.info.addr
  }

  ghost predicate GcksOk(cf: Config, s: State) {
    && (forall i :: 0 <= i < |s.delivered| ==> DeliveryOk(cf, s, i))
    && (s.gcks.GcksConnecting? ==>
          && Opens(cf.keytabKey, s.gcks.msg.psk) && Parse(s.gcks.msg.conn) == Some(s.gcks.info)
          && s.gcks.key == s.gcks.msg.tgk)
  }

  predicate HasOffer(p: Phase) {
    p.Received? || p.Finished?
  }

  ghost predicate Took(s: State, c: nat, i: nat)
    requires c < |s.phases| && HasOffer(s.phases[c])
  {
    i < |s.delivered| && s.delivered[i].taker == c && s.delivered[i].offer == s.phases[c].offer
  }

  ghost predicate OffersOk(s: State) {
    && (forall c :: 0 <= c < |s.phases| && HasOffer(s.phases[c]) ==> exists i: nat :: Took(s, c, i))
    && (forall i :: 0 <= i < |s.delivered| ==>
          var c := s.delivered[i].taker; c < |s.phases| && HasOffer(s.phases[c]) && s.phases[c].offer == s.delivered[i].offer)
  }

  ghost predicate Inv(cf: Config, s: State) {
    KeysOk(cf, s) && KdcOk(cf, s) && PipelineOk(cf, s) && GcksOk(cf, s) && OffersOk(s)
  }

  lemma InitialOk(cf: Config)
    ensures Inv(cf, Initial(cf))
  {
  }

  lemma IssuedStep(cf: Config, s: State, a: Action)
    requires IssuedOk(cf, s) && Enabled(cf, s, a)
    ensures IssuedOk(cf, Apply(cf, s, a))
  {
  }

  lemma PhasesStep(cf: Config, s: State, a: Action)
    requires KeysOk(cf, s) && HolderOk(cf, s) && Enabled(cf, s, a)
    ensures KeysOk(cf, Apply(cf, s, a))
  {
    var t := Apply(cf, s, a);
    IssuedStep(cf, s, a);
    forall c | 0 <= c < |t.phases|
      ensures PhaseOk(cf, t, c)
    {
      assert PhaseOk(cf, s, c);
    }
  }

  lemma HolderStep(cf: Config, s: State, a: Action)
    requires KeysOk(cf, s) && HolderOk(cf, s) && Enabled(cf, s, a)
    ensures HolderOk(cf, Apply(cf, s, a))
  {
  }

  lemma SentStep(cf: Config, s: State, a: Action)
    requires IssuedOk(cf, s) && HolderOk(cf, s) && SentOk(cf, s) && Enabled(cf, s, a)
    ensures SentOk(cf, Apply(cf, s, a))
  {
    var t := Apply(cf, s, a);
    if a.Forward? {
      forall i | 0 <= i < |s.sent|
        ensures s.sent[i] < |s.issued| - 1
      {
        assert s.sent[i] in s.sent;
      }
    }
  }

  /** Forwarding appends to the pipeline, and no other step changes it. */
  lemma PipelineOnlyGrows(cf: Config, s: State, a: Action)
    requires |s.phases| == |cf.clients| && Enabled(cf, s, a)
    ensures Pipeline(Apply(cf, s, a)) ==
            Pipeline(s) + if a.Forward? then [MessageFor(cf, s.kdc.client, s.kdc.key)] else []
  {
    var t := Apply(cf, s, a);
    match a
    case Accept => assert s.queue == [s.queue[0]] + s.queue[1..];
    case Deliver(c) => assert Messages(t.delivered) == Messages(s.delivered) + [s.gcks.msg];
    case Forward => assert Pipeline(t) == Pipeline(s) + [MessageFor(cf, s.kdc.client, s.kdc.key)];
    case _ => assert Pipeline(t) == Pipeline(s);
  }

  lemma PipelineStep(cf: Config, s: State, a: Action)
    requires |s.phases| == |cf.clients| && KdcOk(cf, s) && PipelineOk(cf, s)
    requires Enabled(cf, s, a) && KdcOk(cf, Apply(cf, s, a))
    ensures PipelineOk(cf, Apply(cf, s, a))
  {
    PipelineOnlyGrows(cf, s, a);
  }

  lemma DeliveryStep(cf: Config, s: State, a: Action)
    requires |s.phases| == |cf.clients| && GcksOk(cf, s) && Enabled(cf, s, a)
    ensures GcksOk(cf, Apply(cf, s, a))
  {
    var t := Apply(cf, s, a);
    forall i | 0 <= i < |t.delivered|
      ensures DeliveryOk(cf, t, i)
    {
      assert i < |s.delivered| ==> DeliveryOk(cf, s, i);
    }
  }

  lemma OffersStep(cf: Config, s: State, a: Action)
    requires |s.phases| == |cf.clients| && HolderOk(cf, s) && OffersOk(s) && Enabled(cf, s, a)
    ensures OffersOk(Apply(cf, s, a))
  {
    var t := Apply(cf, s, a);
    forall c | 0 <= c < |t.phases| && HasOffer(t.phases[c])
      ensures exists i: nat :: Took(t, c, i)
    {
      if a.Deliver? && a.c == c {
        assert Took(t, c, |s.delivered|);
      } else {
        var i: nat :| Took(s, c, i);
        assert Took(t, c, i);
      }
    }
  }

  lemma InvStep(cf: Config, s: State, a: Action)
    requires Inv(cf, s) && Enabled(cf, s, a)
    ensures Inv(cf, Apply(cf, s, a))
  {
    PhasesStep(cf, s, a);
    HolderStep(cf, s, a);
    SentStep(cf, s, a);
    PipelineStep(cf, s, a);
    DeliveryStep(cf, s, a);
    OffersStep(cf, s, a);
  }

  lemma {:induction false} RunOk(cf: Config, s: State, run: seq<Action>)
    requires Inv(cf, s) && CanRun(cf, s, run)
    ensures Inv(cf, After(cf, s, run))
    decreases |run|
  {
    if run != [] {
      InvStep(cf, s, run[0]);
      RunOk(cf, Apply(cf, s, run[0]), run[1..]);
    }
  }

  lemma ReachableOk(cf: Config, s: State)
    requires Reachable(cf, s)
    ensures Inv(cf, s)
  {
    var run :| CanRun(cf, Initial(cf), run) && After(cf, Initial(cf), run) == s;
    InitialOk(cf);
    RunOk(cf, Initial(cf), run);
  }

  // ---------- safety ----------

  /** Delivery i used, end to end, the session key the KDC issued to client c: the KDC sealed it for
      c, the GCKS got it by opening that message and sealed its offer with it, and c holds it. */
  ghost predicate Agreed(cf: Config, s: State, c: nat, i: nat)
    requires c < |s.phases| == |cf.clients| && HasOffer(s.phases[c])
  {
    var key := s.phases[c].key;
    && Took(s, c, i) && i < |s.sent|
    && key == SessionKey(s.sent[i]) && IssuedTo(s, key, c)
    && s.delivered[i].msg == MessageFor(cf, c, key) && Opens(cf.keytabKey, cf.kdcKey)
    && s.delivered[i].offer == OfferFor(key, s.delivered[i].info, i)
  }

  lemma DeliveredMessage(cf: Config, s: State, i: nat)
    requires Inv(cf, s) && i < |s.delivered|
    ensures i < |s.sent| && s.sent[i] < |s.issued| && s.issued[s.sent[i]] < |cf.clients|
    ensures s.delivered[i].msg == MessageFor(cf, s.issued[s.sent[i]], SessionKey(s.sent[i]))
    ensures s.delivered[i].offer == OfferFor(SessionKey(s.sent[i]), s.delivered[i].info, i)
    ensures Opens(cf.keytabKey, cf.kdcKey) && Parse(s.delivered[i].msg.conn) == Some(s.delivered[i].info)
  {
    assert DeliveryOk(cf, s, i);
    assert Pipeline(s)[i] == s.delivered[i].msg;
  }

  /** Key agreement, in every reachable state and for any assignment of addresses: a client that
      authenticated its offer shares the key with the delivery it took. */
  lemma KeyAgreement(cf: Config, s: State, c: nat)
    requires Reachable(cf, s) && c < |s.phases| && s.phases[c].Finished? && s.phases[c].ok
    ensures exists i: nat :: Agreed(cf, s, c, i)
  {
    ReachableOk(cf, s);
    assert PhaseOk(cf, s, c);
    var i: nat :| Took(s, c, i);
    DeliveredMessage(cf, s, i);
    assert Agreed(cf, s, c, i);
  }

  /** A client authenticates the offer it took if and only if that offer was forwarded for it. */
  lemma AuthenticatesIffAddressed(cf: Config, s: State, c: nat, i: nat)
    requires Reachable(cf, s) && c < |s.phases| && s.phases[c].Finished? && Took(s, c, i)
    ensures i < |s.sent| && s.sent[i] < |s.issued|
    ensures s.phases[c].ok <==> s.issued[s.sent[i]] == c
  {
    ReachableOk(cf, s);
    assert PhaseOk(cf, s, c);
    DeliveredMessage(cf, s, i);
  }

  /** Every message the KDC forwarded, in order. */
  ghost function AllForwarded(cf: Config, s: State): seq<Forwarded>
    requires Inv(cf, s)
  {
    seq(|s.sent|, i requires 0 <= i < |s.sent| => MessageFor(cf, s.issued[s.sent[i]], SessionKey(s.sent[i])))
  }

  /** Conservation: nothing forwarded is lost, duplicated or reordered on its way through the GCKS. */
  lemma Conservation(cf: Config, s: State)
    requires Reachable(cf, s)
    ensures Inv(cf, s)
    ensures Messages(s.delivered) + InProcess(s.gcks) + s.queue == AllForwarded(cf, s)
    ensures forall i, j :: 0 <= i < j < |s.sent| ==> s.issued[s.sent[i]] != s.issued[s.sent[j]]
  {
    ReachableOk(cf, s);
    assert Pipeline(s) == AllForwarded(cf, s);
  }

  lemma DeliverableParses(i: Info)
    requires Deliverable(i)
    ensures Parse(Printed(i)).Some?
    ensures var got := Parse(Printed(i)).value;
            got.name == i.name && got.addr == i.addr && got.port == i.port && got.group <= i.group
  {
    PrintedThenParsed(i);
  }

  /** Pairing: the name, address, port and key of one delivery are those of one and the same client. */
  lemma Pairing(cf: Config, s: State, i: nat)
    requires WellFormed(cf) && Reachable(cf, s) && i < |s.delivered|
    ensures i < |s.sent| && s.sent[i] < |s.issued| && s.issued[s.sent[i]] < |cf.clients|
    ensures var d, who := s.delivered[i], cf.clients[s.issued[s.sent[i]]].info;
            && d.info.name == who.name && d.info.addr == who.addr && d.info.port == who.port
            && d.info.group <= who.group
            && d.offer == Offer(SessionKey(s.sent[i]), who.name, i)
            && d.taker < |cf.clients| && Addr(cf, d.taker) == who.addr
  {
    ReachableOk(cf, s);
    assert DeliveryOk(cf, s, i);
    DeliveredMessage(cf, s, i);
    DeliverableParses(cf.clients[s.issued[s.sent[i]]].info);
  }

  // ---------- taking turns ----------

  /** The client has asked for a ticket and has not yet received its offer. */
  predicate Waits(p: Phase) {
    p.Requested? || p.Ticketed? || p.Listening?
  }

  /** At most one MIKEY client at each address waits. */
  ghost predicate TakesTurns(cf: Config, s: State) {
    && |s.phases| == |cf.clients|
    && forall c, d :: 0 <= c < d < |cf.clients| && WaitsForOffer(cf, s, c) && WaitsForOffer(cf, s, d) ==>
         Addr(cf, c) != Addr(cf, d)
  }

  predicate WaitsForOffer(cf: Config, s: State, c: nat) {
    c < |s.phases| && IsMikey(cf, c) && Waits(s.phases[c])
  }

  ghost predicate InTurn(cf: Config, s: State, run: seq<Action>)
    requires |s.phases| == |cf.clients| && CanRun(cf, s, run)
    decreases |run|
  {
    TakesTurns(cf, s) && (run == [] || InTurn(cf, Apply(cf, s, run[0]), run[1..]))
  }

  /** Some run gets there in which the clients of each address take turns throughout. */
  ghost predicate ReachableInTurn(cf: Config, s: State) {
    && |s.phases| == |cf.clients|
    && exists run :: CanRun(cf, Initial(cf), run) && InTurn(cf, Initial(cf), run) && After(cf, Initial(cf), run) == s
  }

  /** Clients with addresses of their own need not wait for each other. */
  lemma {:induction false} DistinctTakeTurns(cf: Config, s: State, run: seq<Action>)
    requires DistinctAddresses(cf) && |s.phases| == |cf.clients| && CanRun(cf, s, run)
    ensures InTurn(cf, s, run)
    decreases |run|
  {
    if run != [] {
      DistinctTakeTurns(cf, Apply(cf, s, run[0]), run[1..]);
    }
  }

  lemma ReachableTakesTurns(cf: Config, s: State)
    requires DistinctAddresses(cf) && Reachable(cf, s)
    ensures ReachableInTurn(cf, s)
  {
    var run :| CanRun(cf, Initial(cf), run) && After(cf, Initial(cf), run) == s;
    DistinctTakeTurns(cf, Initial(cf), run);
  }

  // ---------- progress ----------

  /** The owner of an undelivered message is about to be answered, about to listen, or listening. */
  ghost predicate OwnerWaits(cf: Config, s: State, serial: nat)
    requires serial < |s.issued| && s.issued[serial] < |s.phases|
  {
    var c, key := s.issued[serial], SessionKey(serial);
    || (s.phases[c] == Requested && s.kdc == KdcReplying(c, key))
    || s.phases[c] == Ticketed(key)
    || s.phases[c] == Listening(key)
  }

  ghost predicate AllWait(cf: Config, s: State)
    requires Inv(cf, s)
  {
    forall i :: |s.delivered| <= i < |s.sent| ==> OwnerWaits(cf, s, s.sent[i])
  }

  ghost predicate AllToOwner(s: State) {
    |s.delivered| <= |s.sent|
    && forall i :: 0 <= i < |s.delivered| ==> s.sent[i] < |s.issued| && s.delivered[i].taker == s.issued[s.sent[i]]
  }

  ghost predicate AllBound(s: State) {
    forall c :: 0 <= c < |s.phases| ==> !s.phases[c].BindFailed?
  }

  ghost predicate Progressing(cf: Config, s: State) {
    Inv(cf, s) && AllWait(cf, s) && AllToOwner(s) && AllBound(s)
  }

  /** The message in the GCKS's hands belongs to the first undelivered key. */
  lemma CurrentOwner(cf: Config, s: State)
    requires WellFormed(cf) && Inv(cf, s) && !s.gcks.GcksIdle?
    ensures |s.delivered| < |s.sent|
    ensures s.gcks.msg == MessageFor(cf, s.issued[s.sent[|s.delivered|]], SessionKey(s.sent[|s.delivered|]))
    ensures Parse(s.gcks.msg.conn).Some? && Opens(cf.keytabKey, s.gcks.msg.psk)
    ensures s.gcks.GcksConnecting? ==> s.gcks.info.addr == Addr(cf, s.issued[s.sent[|s.delivered|]])
  {
    assert Pipeline(s)[|s.delivered|] == s.gcks.msg;
    DeliverableParses(cf.clients[s.issued[s.sent[|s.delivered|]]].info);
  }

  lemma NoListenerAt(cf: Config, s: State, c: nat)
    requires TakesTurns(cf, s) && KeysOk(cf, s) && IsMikey(cf, c) && s.phases[c].Ticketed?
    ensures !ListensAt(cf, s, Addr(cf, c))
  {
    forall d | 0 <= d < |s.phases| && s.phases[d].Listening?
      ensures Addr(cf, d) != Addr(cf, c)
    {
      assert PhaseOk(cf, s, d);
    }
  }

  /** The step law of bind and listen, on phases and addresses alone: they succeed if and only if
      nobody listens at the client's address, whoever used it before. */
  lemma ListenSucceedsIff(cf: Config, s: State, c: nat)
    requires |s.phases| == |cf.clients| && Enabled(cf, s, Listen(c))
    ensures var t, key := Apply(cf, s, Listen(c)), s.phases[c].key;
            && t == s.(phases := t.phases)
            && (forall d :: 0 <= d < |s.phases| && d != c ==> t.phases[d] == s.phases[d])
            && (t.phases[c] == Listening(key) <==>
                forall d :: 0 <= d < |s.phases| && s.phases[d].Listening? ==>
                  cf.clients[d].info.addr != cf.clients[c].info.addr)
            && (t.phases[c] == Listening(key) || t.phases[c] == BindFailed(key))
  {
    assert ListensAt(cf, s, Addr(cf, c)) <==>
           exists d :: 0 <= d < |s.phases| && s.phases[d].Listening? && cf.clients[d].info.addr == cf.clients[c].info.addr;
  }

  /** Where clients take turns, a delivery reaches the client it was forwarded for. */
  lemma DeliveredToOwner(cf: Config, s: State, c: nat)
    requires WellFormed(cf) && TakesTurns(cf, s) && Inv(cf, s) && AllWait(cf, s) && Enabled(cf, s, Deliver(c))
    ensures |s.delivered| < |s.sent| && c == s.issued[s.sent[|s.delivered|]]
  {
    CurrentOwner(cf, s);
    var owner := s.issued[s.sent[|s.delivered|]];
    assert PhaseOk(cf, s, c);
    assert OwnerWaits(cf, s, s.sent[|s.delivered|]);
    assert Addr(cf, c) == Addr(cf, owner) && Waits(s.phases[owner]) && Waits(s.phases[c]);
  }

  /** The owner of message i still waits after any step but the delivery of message i. */
  lemma WaitStep(cf: Config, s: State, a: Action, serial: nat)
    requires TakesTurns(cf, s) && KeysOk(cf, s) && HolderOk(cf, s) && Enabled(cf, s, a)
    requires serial < |s.issued| && IsMikey(cf, s.issued[serial]) && OwnerWaits(cf, s, serial)
    requires a.Deliver? ==> a.c != s.issued[serial]
    ensures OwnerWaits(cf, Apply(cf, s, a), serial)
  {
    if a.Listen? {
      assert PhaseOk(cf, s, a.c);
      NoListenerAt(cf, s, a.c);
    }
  }

  lemma NewestWaits(cf: Config, s: State)
    requires KeysOk(cf, s) && HolderOk(cf, s) && Enabled(cf, s, Forward)
    ensures OwnerWaits(cf, Apply(cf, s, Forward), s.kdc.key.serial)
  {
  }

  lemma BoundStep(cf: Config, s: State, a: Action)
    requires TakesTurns(cf, s) && KeysOk(cf, s) && Enabled(cf, s, a)
    requires AllBound(s)
    ensures AllBound(Apply(cf, s, a))
  {
    if a.Listen? {
      assert PhaseOk(cf, s, a.c);
      NoListenerAt(cf, s, a.c);
    }
  }

  lemma ToOwnerStep(cf: Config, s: State, a: Action)
    requires WellFormed(cf) && TakesTurns(cf, s) && Inv(cf, s) && AllWait(cf, s)
    requires AllToOwner(s) && Enabled(cf, s, a)
    ensures AllToOwner(Apply(cf, s, a))
  {
    if a.Deliver? {
      DeliveredToOwner(cf, s, a.c);
    }
  }

  lemma AllWaitStep(cf: Config, s: State, a: Action)
    requires WellFormed(cf) && TakesTurns(cf, s) && Inv(cf, s) && AllWait(cf, s) && Enabled(cf, s, a)
    requires Inv(cf, Apply(cf, s, a))
    ensures AllWait(cf, Apply(cf, s, a))
  {
    var t := Apply(cf, s, a);
    forall i | |t.delivered| <= i < |t.sent|
      ensures OwnerWaits(cf, t, t.sent[i])
    {
      if i == |s.sent| {
        NewestWaits(cf, s);
      } else {
        if a.Deliver? {
          DeliveredToOwner(cf, s, a.c);
          assert s.sent[|s.delivered|] < s.sent[i];
        }
        WaitStep(cf, s, a, s.sent[i]);
      }
    }
  }

  lemma ProgressStep(cf: Config, s: State, a: Action)
    requires WellFormed(cf) && TakesTurns(cf, s) && Progressing(cf, s) && Enabled(cf, s, a)
    ensures Progressing(cf, Apply(cf, s, a))
  {
    InvStep(cf, s, a);
    AllWaitStep(cf, s, a);
    ToOwnerStep(cf, s, a);
    BoundStep(cf, s, a);
  }

  lemma {:induction false} ProgressRun(cf: Config, s: State, run: seq<Action>)
    requires WellFormed(cf) && Progressing(cf, s) && CanRun(cf, s, run) && InTurn(cf, s, run)
    ensures Progressing(cf, After(cf, s, run))
    decreases |run|
  {
    if run != [] {
      ProgressStep(cf, s, run[0]);
      ProgressRun(cf, Apply(cf, s, run[0]), run[1..]);
    }
  }

  lemma ReachableProgresses(cf: Config, s: State)
    requires WellFormed(cf) && ReachableInTurn(cf, s)
    ensures Progressing(cf, s) && Reachable(cf, s)
  {
    var run :| CanRun(cf, Initial(cf), run) && InTurn(cf, Initial(cf), run) && After(cf, Initial(cf), run) == s;
    InitialOk(cf);
    ProgressRun(cf, Initial(cf), run);
  }

  /** A client may always ask, listen for its offer and open it. An idle KDC takes any request, forwards
      if and only if the accept queue has room, may fail to at any time, and then replies. */
  lemma KdcNeverRefuses(cf: Config, s: State, c: nat)
    requires Reachable(cf, s) && c < |s.phases|
    ensures s.phases[c].Start? ==> Enabled(cf, s, Request(c))
    ensures s.phases[c].Requested? && s.kdc.KdcIdle? ==> Enabled(cf, s, Take(c))
    ensures s.kdc.KdcForwarding? ==> Enabled(cf, s, ForwardFails) && (|s.queue| < cf.backlog <==> Enabled(cf, s, Forward))
    ensures s.kdc.KdcReplying? ==> Enabled(cf, s, Reply)
    ensures s.phases[c].Ticketed? ==> Enabled(cf, s, Listen(c))
    ensures s.phases[c].Received? ==> Enabled(cf, s, Authenticate(c))
  {
    ReachableOk(cf, s);
    assert PhaseOk(cf, s, c);
  }

  /** An idle GCKS accepts what waits, and opens whatever it accepted. */
  lemma GcksNeverRefuses(cf: Config, s: State)
    requires WellFormed(cf) && Reachable(cf, s)
    ensures s.gcks.GcksIdle? && s.queue != [] ==> Enabled(cf, s, Accept)
    ensures s.gcks.GcksReceived? ==> Enabled(cf, s, Unseal)
  {
    ReachableOk(cf, s);
    if !s.gcks.GcksIdle? {
      CurrentOwner(cf, s);
    }
  }

  /** Then it tries again if and only if nobody listens at the address in the message, and otherwise it
      may deliver to whoever does. */
  lemma ConnectsIff(cf: Config, s: State)
    requires |s.phases| == |cf.clients| && s.gcks.GcksConnecting?
    ensures Enabled(cf, s, Retry) <==>
            forall d :: 0 <= d < |s.phases| && s.phases[d].Listening? ==> cf.clients[d].info.addr != s.gcks.info.addr
    ensures forall d :: 0 <= d < |s.phases| && s.phases[d].Listening? && cf.clients[d].info.addr == s.gcks.info.addr ==>
              Enabled(cf, s, Deliver(d))
  {
    assert ListensAt(cf, s, s.gcks.info.addr) <==>
           exists d :: 0 <= d < |s.phases| && s.phases[d].Listening? && cf.clients[d].info.addr == s.gcks.info.addr;
  }

  /** Steps that move a forwarded message closer to its client without anything new being asked. */
  predicate Helpful(a: Action) {
    a.Reply? || a.Listen? || a.Accept? || a.Unseal? || a.Deliver?
  }

  /** Deadlock freedom: while a forwarded message is undelivered, some helpful step is enabled. */
  lemma DeadlockFree(cf: Config, s: State)
    requires WellFormed(cf) && ReachableInTurn(cf, s) && |s.delivered| < |s.sent|
    ensures exists a :: Helpful(a) && Enabled(cf, s, a)
  {
    ReachableProgresses(cf, s);
    var c := s.issued[s.sent[|s.delivered|]];
    assert OwnerWaits(cf, s, s.sent[|s.delivered|]);
    match s.gcks
    case GcksIdle => assert Helpful(Accept) && Enabled(cf, s, Accept);
    case GcksReceived(_) => CurrentOwner(cf, s); assert Helpful(Unseal) && Enabled(cf, s, Unseal);
    case GcksConnecting(_, _, _) =>
      CurrentOwner(cf, s);
      if s.phases[c].Requested? {
        assert Helpful(Reply) && Enabled(cf, s, Reply);
      } else if s.phases[c].Ticketed? {
        assert Helpful(Listen(c)) && Enabled(cf, s, Listen(c));
      } else {
        assert Helpful(Deliver(c)) && Enabled(cf, s, Deliver(c));
      }
  }

  // ---------- a bound on the work ----------

  function Rank(p: Phase): nat {
    match p
    case Start => 5
    case Requested => 4
    case Ticketed(_) => 3
    case Listening(_) => 2
    case Received(_, _) => 1
    case _ => 0
  }

  function RankSum(ps: seq<Phase>): nat {
    if ps == [] then 0 else Rank(ps[0]) + RankSum(ps[1..])
  }

  lemma {:induction false} RankSumUpdate(ps: seq<Phase>, c: nat, p: Phase)
    requires c < |ps|
    ensures RankSum(ps[c := p]) + Rank(ps[c]) == RankSum(ps) + Rank(p)
    decreases |ps|
  {
    if c == 0 {
      assert ps[c := p][1..] == ps[1..];
    } else {
      assert ps[c := p][1..] == ps[1..][c - 1 := p];
      RankSumUpdate(ps[1..], c - 1, p);
    }
  }

  lemma RankSumOfStart(n: nat)
    ensures RankSum(seq(n, _ => Start)) == 5 * n
  {
    if n > 0 {
      assert seq(n, _ => Start)[1..] == seq(n - 1, _ => Start);
      RankSumOfStart(n - 1);
    }
  }

  /** What is left to do. */
  function Measure(cf: Config, s: State): int {
    RankSum(s.phases)
    + 6 * (|cf.clients| - |s.issued|)
    + (match s.kdc case KdcIdle => 0 case KdcForwarding(_, _) => 5 case KdcReplying(_, _) => 1)
    + 3 * |s.queue|
    + (match s.gcks case GcksIdle => 0 case GcksReceived(_) => 2 case GcksConnecting(_, _, _) => 1)
  }

  predicate ClientStep(a: Action) {
    a.Request? || a.Listen? || a.Deliver? || a.Authenticate?
  }

  lemma ClientStepFalls(cf: Config, s: State, a: Action)
    requires |s.phases| == |cf.clients| && ClientStep(a) && Enabled(cf, s, a)
    ensures Measure(cf, Apply(cf, s, a)) < Measure(cf, s)
  {
    RankSumUpdate(s.phases, a.c, Apply(cf, s, a).phases[a.c]);
  }

  /** Every step but the GCKS's retry brings the measure down. */
  lemma MeasureFalls(cf: Config, s: State, a: Action)
    requires |s.phases| == |cf.clients| && HolderOk(cf, s) && Enabled(cf, s, a)
    ensures var t := Apply(cf, s, a);
            if a.Retry? then t == s else Measure(cf, t) < Measure(cf, s)
  {
    if ClientStep(a) {
      ClientStepFalls(cf, s, a);
    } else if a.Reply? {
      RankSumUpdate(s.phases, s.kdc.client, Apply(cf, s, a).phases[s.kdc.client]);
    }
  }

  /** No more keys are issued than there are clients. */
  lemma MeasureNotNegative(cf: Config, s: State)
    requires Inv(cf, s)
    ensures 0 <= Measure(cf, s)
  {
    Counting.Pigeonhole(s.issued, |cf.clients|);
  }

  function Work(run: seq<Action>): nat {
    if run == [] then 0 else (if run[0].Retry? then 0 else 1) + Work(run[1..])
  }

  lemma {:induction false} WorkBound(cf: Config, s: State, run: seq<Action>)
    requires Inv(cf, s) && CanRun(cf, s, run)
    ensures Work(run) <= Measure(cf, s) - Measure(cf, After(cf, s, run))
    decreases |run|
  {
    if run != [] {
      MeasureFalls(cf, s, run[0]);
      InvStep(cf, s, run[0]);
      WorkBound(cf, Apply(cf, s, run[0]), run[1..]);
    }
  }

  lemma InitialMeasure(cf: Config)
    ensures Measure(cf, Initial(cf)) == 11 * |cf.clients|
  {
    RankSumOfStart(|cf.clients|);
  }

  /** No run, whatever its clients, addresses and schedule, takes more than eleven steps per client
      besides the GCKS's retries. */
  lemma BoundedWork(cf: Config, run: seq<Action>)
    requires CanRun(cf, Initial(cf), run)
    ensures Work(run) <= 11 * |cf.clients|
  {
    InitialOk(cf);
    InitialMeasure(cf);
    WorkBound(cf, Initial(cf), run);
    RunOk(cf, Initial(cf), run);
    MeasureNotNegative(cf, After(cf, Initial(cf), run));
  }

  // ---------- where every run ends ----------

  /** Nothing is left to do but to retry, or to lose a message. */
  ghost predicate Quiescent(cf: Config, s: State)
    requires |s.phases| == |cf.clients|
  {
    forall a :: Enabled(cf, s, a) ==> a.Retry? || a.ForwardFails?
  }

  /** Nothing else is left to do for those who have asked. */
  ghost predicate AtRest(cf: Config, s: State)
    requires |s.phases| == |cf.clients|
  {
    forall a :: Enabled(cf, s, a) ==> a.Request? || a.Retry? || a.ForwardFails?
  }

  lemma NothingUndelivered(cf: Config, s: State)
    requires WellFormed(cf) && ReachableInTurn(cf, s) && AtRest(cf, s)
    ensures |s.delivered| == |s.sent| && s.kdc == KdcIdle && s.gcks == GcksIdle && s.queue == []
  {
    ReachableProgresses(cf, s);
    if |s.delivered| < |s.sent| {
      DeadlockFree(cf, s);
    }
    assert |Pipeline(s)| == |s.sent|;
    assert !Enabled(cf, s, Reply) && !Enabled(cf, s, Forward);
  }

  lemma Settled(cf: Config, s: State, c: nat)
    requires Inv(cf, s) && AtRest(cf, s) && s.kdc == KdcIdle && c < |cf.clients|
    ensures var p := s.phases[c]; p.Start? || p.Listening? || p.Finished? || p.PlainTicket? || p.BindFailed?
  {
    assert PhaseOk(cf, s, c);
    assert !Enabled(cf, s, Take(c)) && !Enabled(cf, s, Listen(c));
    assert !Enabled(cf, s, Authenticate(c));
  }

  lemma ForwardedAreServed(cf: Config, s: State, c: nat)
    requires Reachable(cf, s) && Inv(cf, s) && AllToOwner(s) && |s.delivered| == |s.sent|
    requires c < |s.phases| && HasKey(s.phases[c]) && s.phases[c].key.SessionKey? && s.phases[c].key.serial in s.sent
    ensures HasOffer(s.phases[c]) && (s.phases[c].Finished? ==> s.phases[c].ok)
  {
    assert PhaseOk(cf, s, c);
    var i :| 0 <= i < |s.sent| && s.sent[i] == s.phases[c].key.serial;
    assert s.delivered[i].taker == c;
    assert Took(s, c, i);
    if s.phases[c].Finished? {
      AuthenticatesIffAddressed(cf, s, c, i);
    }
  }

  lemma FinishedWereForwarded(cf: Config, s: State, c: nat)
    requires Inv(cf, s) && AllToOwner(s) && c < |s.phases| && HasOffer(s.phases[c])
    ensures s.phases[c].key.SessionKey? && s.phases[c].key.serial in s.sent
  {
    assert PhaseOk(cf, s, c);
    var i: nat :| Took(s, c, i);
    assert s.phases[c].key.serial == s.sent[i];
  }

  /** Where the clients of an address take turns, a run at rest has answered everyone who asked: each
      client without the MIKEY option holds its ticket, and each client with it has authenticated its
      own key, or still listens because the KDC failed to reach the GCKS for it. */
  lemma EveryoneServed(cf: Config, s: State, c: nat)
    requires WellFormed(cf) && ReachableInTurn(cf, s) && AtRest(cf, s)
    requires c < |cf.clients| && s.phases[c] != Start
    ensures s.kdc == KdcIdle && s.gcks == GcksIdle && s.queue == []
    ensures HasKey(s.phases[c]) && IssuedTo(s, s.phases[c].key, c)
    ensures if !cf.clients[c].mikey then s.phases[c].PlainTicket?
            else if s.phases[c].key.serial in s.sent then s.phases[c].Finished? && s.phases[c].ok
            else s.phases[c].Listening?
  {
    ReachableProgresses(cf, s);
    NothingUndelivered(cf, s);
    Settled(cf, s, c);
    assert PhaseOk(cf, s, c);
    if s.phases[c].key.serial in s.sent {
      ForwardedAreServed(cf, s, c);
    } else if s.phases[c].Finished? {
      FinishedWereForwarded(cf, s, c);
    }
  }

  // ---------- longer runs ----------

  lemma {:induction false} RunThen(cf: Config, s: State, run: seq<Action>, a: Action)
    requires |s.phases| == |cf.clients| && CanRun(cf, s, run) && Enabled(cf, After(cf, s, run), a)
    ensures CanRun(cf, s, run + [a]) && After(cf, s, run + [a]) == Apply(cf, After(cf, s, run), a)
    decreases |run|
  {
    if run == [] {
      assert CanRun(cf, Apply(cf, s, a), []);
      assert ([] + [a])[1..] == [];
    } else {
      RunThen(cf, Apply(cf, s, run[0]), run[1..], a);
      assert (run + [a])[1..] == run[1..] + [a];
    }
  }

  lemma ReachableThen(cf: Config, s: State, a: Action)
    requires Reachable(cf, s) && Enabled(cf, s, a)
    ensures Reachable(cf, Apply(cf, s, a))
  {
    var run :| CanRun(cf, Initial(cf), run) && After(cf, Initial(cf), run) == s;
    RunThen(cf, Initial(cf), run, a);
  }

  lemma InitialReachable(cf: Config)
    ensures Reachable(cf, Initial(cf))
  {
    assert CanRun(cf, Initial(cf), []) && After(cf, Initial(cf), []) == Initial(cf);
  }

  // ---------- one client after another ----------

  lemma {:induction false} InTurnThen(cf: Config, s: State, run: seq<Action>, a: Action)
    requires |s.phases| == |cf.clients| && CanRun(cf, s, run) && InTurn(cf, s, run)
    requires Enabled(cf, After(cf, s, run), a) && TakesTurns(cf, Apply(cf, After(cf, s, run), a))
    requires CanRun(cf, s, run + [a])
    ensures InTurn(cf, s, run + [a])
    decreases |run|
  {
    if run == [] {
      assert ([] + [a])[1..] == [] && (run + [a])[0] == a;
    } else {
      assert (run + [a])[1..] == run[1..] + [a] && (run + [a])[0] == run[0];
      InTurnThen(cf, Apply(cf, s, run[0]), run[1..], a);
    }
  }

  /** Everyone but client c does not wait. */
  ghost predicate OnlyWaits(cf: Config, s: State, c: nat) {
    |s.phases| == |cf.clients| && forall e :: 0 <= e < |s.phases| && e != c ==> !Waits(s.phases[e])
  }

  lemma TurnThen(cf: Config, s: State, c: nat, a: Action) returns (t: State)
    requires ReachableInTurn(cf, s) && Enabled(cf, s, a) && OnlyWaits(cf, Apply(cf, s, a), c)
    ensures ReachableInTurn(cf, t) && t == Apply(cf, s, a)
  {
    t := Apply(cf, s, a);
    var run :| CanRun(cf, Initial(cf), run) && InTurn(cf, Initial(cf), run) && After(cf, Initial(cf), run) == s;
    RunThen(cf, Initial(cf), run, a);
    InTurnThen(cf, Initial(cf), run, a);
  }

  predicate Content(cf: Config, s: State, e: nat)
    requires e < |s.phases| == |cf.clients|
  {
    if cf.clients[e].mikey then s.phases[e].Finished? && s.phases[e].ok else s.phases[e].PlainTicket?
  }

  /** The first n clients are content, the others have not asked, and the servers have nothing to do. */
  ghost predicate Between(cf: Config, s: State, n: nat) {
    && |s.phases| == |cf.clients| && ReachableInTurn(cf, s)
    && s.kdc == KdcIdle && s.gcks == GcksIdle && s.queue == []
    && forall e :: 0 <= e < |s.phases| ==> if e < n then Content(cf, s, e) else s.phases[e] == Start
  }

  /** Client c asks and is answered; with the MIKEY option, its message waits at the GCKS. */
  lemma AskInTurn(cf: Config, s: State, c: nat) returns (t: State)
    requires 0 < cf.backlog && c < |cf.clients| && Between(cf, s, c)
    ensures ReachableInTurn(cf, t)
    ensures var key := SessionKey(|s.issued|);
            if cf.clients[c].mikey then t == Served(cf, s, c)
            else t == s.(phases := s.phases[c := PlainTicket(key)], issued := s.issued + [c])
  {
    assert Reachable(cf, s);
    ReachableOk(cf, s);
    t := TurnThen(cf, s, c, Request(c));
    t := TurnThen(cf, t, c, Take(c));
    if cf.clients[c].mikey {
      t := TurnThen(cf, t, c, Forward);
    }
    t := TurnThen(cf, t, c, Reply);
  }

  /** Client c listening for its offer, on which the GCKS works. */
  function Expected(cf: Config, s: State, c: nat, info: Info): State
    requires c < |s.phases| == |cf.clients|
  {
    var key := SessionKey(|s.issued|);
    s.(phases := s.phases[c := Listening(key)], issued := s.issued + [c], sent := s.sent + [|s.issued|],
       gcks := GcksConnecting(MessageFor(cf, c, key), key, info))
  }

  /** Then it listens at its address, although others used it before. */
  lemma ListenInTurn(cf: Config, s: State, c: nat) returns (t: State)
    requires WellFormed(cf) && IsMikey(cf, c) && Between(cf, s, c) && ReachableInTurn(cf, Served(cf, s, c))
    ensures Parse(Printed(cf.clients[c].info)).Some?
    ensures t == Expected(cf, s, c, Parse(Printed(cf.clients[c].info)).value) && ReachableInTurn(cf, t)
  {
    DeliverableParses(cf.clients[c].info);
    t := Served(cf, s, c);
    assert forall e :: 0 <= e < |s.phases| && e < c ==> Content(cf, s, e);
    assert !ListensAt(cf, t, Addr(cf, c));
    t := TurnThen(cf, t, c, Listen(c));
    t := TurnThen(cf, t, c, Accept);
    t := TurnThen(cf, t, c, Unseal);
  }

  /** It gets and opens its offer. */
  lemma TakeInTurn(cf: Config, s: State, c: nat, info: Info) returns (t: State)
    requires IsMikey(cf, c) && Between(cf, s, c) && info.addr == Addr(cf, c)
    requires ReachableInTurn(cf, Expected(cf, s, c, info))
    ensures Between(cf, t, c + 1)
  {
    t := TurnThen(cf, Expected(cf, s, c, info), c, Deliver(c));
    t := TurnThen(cf, t, c, Authenticate(c));
    forall e | 0 <= e < |t.phases|
      ensures if e < c + 1 then Content(cf, t, e) else t.phases[e] == Start
    {
      assert e < c ==> Content(cf, s, e);
    }
  }

  lemma ServeInTurn(cf: Config, s: State, c: nat) returns (t: State)
    requires WellFormed(cf) && c < |cf.clients| && Between(cf, s, c)
    ensures Between(cf, t, c + 1)
  {
    t := AskInTurn(cf, s, c);
    if cf.clients[c].mikey {
      t := ListenInTurn(cf, s, c);
      DeliverableParses(cf.clients[c].info);
      t := TakeInTurn(cf, s, c, t.gcks.info);
    } else {
      forall e | 0 <= e < |t.phases|
        ensures if e < c + 1 then Content(cf, t, e) else t.phases[e] == Start
      {
        assert e < c ==> Content(cf, s, e);
      }
    }
  }

  lemma AllInTurn(cf: Config, n: nat) returns (s: State)
    requires WellFormed(cf) && n <= |cf.clients|
    ensures Between(cf, s, n)
    decreases n
  {
    if n == 0 {
      s := Initial(cf);
      assert CanRun(cf, s, []) && InTurn(cf, s, []) && After(cf, s, []) == s;
    } else {
      s := AllInTurn(cf, n - 1);
      s := ServeInTurn(cf, s, n - 1);
    }
  }

  /** Whatever their addresses, clients that run one after another are all served. */
  lemma OneAfterAnother(cf: Config)
    requires WellFormed(cf)
    ensures exists s :: ReachableInTurn(cf, s) && forall c :: 0 <= c < |cf.clients| ==> Content(cf, s, c)
  {
    var s := AllInTurn(cf, |cf.clients|);
  }

  /** The KDC serving one MIKEY client from start to finish. */
  function Served(cf: Config, s: State, c: nat): State
    requires c < |s.phases| == |cf.clients|
  {
    var key := SessionKey(|s.issued|);
    s.(phases := s.phases[c := Ticketed(key)], issued := s.issued + [c], sent := s.sent + [|s.issued|],
       queue := s.queue + [MessageFor(cf, c, key)])
  }

  lemma ServeOne(cf: Config, s: State, c: nat)
    requires Reachable(cf, s) && IsMikey(cf, c) && s.phases[c] == Start && c !in s.issued
    requires s.kdc == KdcIdle && |s.queue| < cf.backlog
    ensures Reachable(cf, Served(cf, s, c))
  {
    ReachableThen(cf, s, Request(c));
    var s1 := Apply(cf, s, Request(c));
    ReachableThen(cf, s1, Take(c));
    var s2 := Apply(cf, s1, Take(c));
    ReachableThen(cf, s2, Forward);
    var s3 := Apply(cf, s2, Forward);
    ReachableThen(cf, s3, Reply);
    assert Apply(cf, s3, Reply) == Served(cf, s, c);
  }

  /** The GCKS holding the first message in its queue, opened. */
  function Opened(cf: Config, s: State): State
    requires s.queue != [] && Parse(s.queue[0].conn).Some?
  {
    s.(queue := s.queue[1..], gcks := GcksConnecting(s.queue[0], s.queue[0].tgk, Parse(s.queue[0].conn).value))
  }

  lemma OpenOne(cf: Config, s: State)
    requires Reachable(cf, s) && s.gcks == GcksIdle && s.queue != []
    requires Opens(cf.keytabKey, s.queue[0].psk) && Parse(s.queue[0].conn).Some?
    ensures Reachable(cf, Opened(cf, s))
  {
    ReachableThen(cf, s, Accept);
    ReachableThen(cf, Apply(cf, s, Accept), Unseal);
  }

  // ---------- why turns are needed ----------

  /** The state in which d listens with the offer meant for c on its way, and c could not bind. */
  ghost predicate Crossed(cf: Config, s: State, c: nat, d: nat)
    requires |s.phases| == |cf.clients|
  {
    && IsMikey(cf, c) && IsMikey(cf, d) && c != d
    && s.phases[c] == BindFailed(SessionKey(0)) && s.phases[d] == Listening(SessionKey(1))
    && (forall e :: 0 <= e < |s.phases| && e != c && e != d ==> s.phases[e] == Start)
    && s.issued == [c, d] && s.sent == [0, 1] && s.kdc == KdcIdle && s.delivered == []
    && s.queue == [MessageFor(cf, d, SessionKey(1))]
    && s.gcks.GcksConnecting? && s.gcks.key == SessionKey(0) && s.gcks.info.addr == Addr(cf, d)
  }

  /** c was served and its message opened, then d was served; neither listens yet. */
  ghost predicate BothTicketed(cf: Config, s: State, c: nat, d: nat)
    requires |s.phases| == |cf.clients|
  {
    && IsMikey(cf, c) && IsMikey(cf, d) && c != d
    && s.phases[c] == Ticketed(SessionKey(0)) && s.phases[d] == Ticketed(SessionKey(1))
    && (forall e :: 0 <= e < |s.phases| && e != c && e != d ==> s.phases[e] == Start)
    && s.issued == [c, d] && s.sent == [0, 1] && s.kdc == KdcIdle && s.delivered == []
    && s.queue == [MessageFor(cf, d, SessionKey(1))]
    && s.gcks.GcksConnecting? && s.gcks.key == SessionKey(0) && s.gcks.info.addr == Addr(cf, c)
  }

  /** The GCKS has opened c's message, and nobody else has asked for anything. */
  lemma ReachFirstOpened(cf: Config, c: nat) returns (s: State)
    requires WellFormed(cf) && IsMikey(cf, c)
    ensures Reachable(cf, s) && s.phases == Initial(cf).phases[c := Ticketed(SessionKey(0))]
    ensures s.issued == [c] && s.sent == [0] && s.kdc == KdcIdle && s.queue == [] && s.delivered == []
    ensures s.gcks.GcksConnecting? && s.gcks.key == SessionKey(0) && s.gcks.info.addr == Addr(cf, c)
  {
    InitialReachable(cf);
    ServeOne(cf, Initial(cf), c);
    var s1 := Served(cf, Initial(cf), c);
    DeliverableParses(cf.clients[c].info);
    OpenOne(cf, s1);
    s := Opened(cf, s1);
  }

  lemma ReachBothTicketed(cf: Config, c: nat, d: nat) returns (s: State)
    requires WellFormed(cf) && IsMikey(cf, c) && IsMikey(cf, d) && c != d
    ensures Reachable(cf, s) && BothTicketed(cf, s, c, d)
  {
    var s1 := ReachFirstOpened(cf, c);
    ServeOne(cf, s1, d);
    s := Served(cf, s1, d);
  }

  lemma ReachCrossed(cf: Config, c: nat, d: nat) returns (s: State)
    requires WellFormed(cf) && IsMikey(cf, c) && IsMikey(cf, d) && c != d && Addr(cf, c) == Addr(cf, d)
    ensures Reachable(cf, s) && Crossed(cf, s, c, d)
  {
    var s3 := ReachBothTicketed(cf, c, d);
    assert !ListensAt(cf, s3, Addr(cf, d));
    ReachableThen(cf, s3, Listen(d));
    var s4 := Apply(cf, s3, Listen(d));
    assert s4.phases[d].Listening? && ListensAt(cf, s4, Addr(cf, c));
    ReachableThen(cf, s4, Listen(c));
    s := Apply(cf, s4, Listen(c));
  }

  /** The KDC serving e from start to finish; if e has the option set, the GCKS was not reached. */
  function Answered(cf: Config, s: State, e: nat): State
    requires e < |s.phases| == |cf.clients|
  {
    var key := SessionKey(|s.issued|);
    s.(phases := s.phases[e := if cf.clients[e].mikey then Ticketed(key) else PlainTicket(key)],
       issued := s.issued + [e])
  }

  lemma AnswerOne(cf: Config, s: State, e: nat)
    requires Reachable(cf, s) && e < |s.phases| && s.phases[e] == Start && e !in s.issued && s.kdc == KdcIdle
    ensures Reachable(cf, Answered(cf, s, e))
  {
    ReachableThen(cf, s, Request(e));
    var s1 := Apply(cf, s, Request(e));
    ReachableThen(cf, s1, Take(e));
    var s2 := Apply(cf, s1, Take(e));
    if cf.clients[e].mikey {
      ReachableThen(cf, s2, ForwardFails);
      s2 := Apply(cf, s2, ForwardFails);
    }
    ReachableThen(cf, s2, Reply);
    assert Apply(cf, s2, Reply) == Answered(cf, s, e);
  }

  /** Client e has come as far as it can, and does not listen at d's address. */
  predicate Parked(cf: Config, s: State, e: nat, d: nat)
    requires e < |s.phases| == |cf.clients| && d < |cf.clients|
  {
    var p := s.phases[e];
    p.PlainTicket? || p.BindFailed? || (p.Listening? && Addr(cf, e) != Addr(cf, d))
  }

  /** The crossed state, with the first n of the other clients parked. */
  ghost predicate Crowded(cf: Config, s: State, c: nat, d: nat, n: nat)
    requires |s.phases| == |cf.clients|
  {
    && IsMikey(cf, c) && IsMikey(cf, d) && c != d
    && s.phases[c].BindFailed? && s.phases[d] == Listening(SessionKey(1))
    && (forall e :: 0 <= e < |s.phases| && e != c && e != d ==>
          if e < n then Parked(cf, s, e, d) else s.phases[e] == Start)
    && s.sent == [0, 1] && s.kdc == KdcIdle && s.delivered == []
    && s.queue == [MessageFor(cf, d, SessionKey(1))]
    && s.gcks.GcksConnecting? && s.gcks.key == SessionKey(0) && s.gcks.info.addr == Addr(cf, d)
  }

  lemma ParkOne(cf: Config, s: State, c: nat, d: nat, n: nat) returns (t: State)
    requires Reachable(cf, s) && Crowded(cf, s, c, d, n) && n < |cf.clients|
    ensures Reachable(cf, t) && Crowded(cf, t, c, d, n + 1)
  {
    t := s;
    if n != c && n != d {
      ReachableOk(cf, s);
      assert n !in s.issued;
      AnswerOne(cf, s, n);
      t := Answered(cf, s, n);
      if cf.clients[n].mikey {
        assert t.phases[d].Listening?;
        ReachableThen(cf, t, Listen(n));
        t := Apply(cf, t, Listen(n));
      }
    }
  }

  lemma ParkAll(cf: Config, s: State, c: nat, d: nat, n: nat) returns (t: State)
    requires Reachable(cf, s) && Crowded(cf, s, c, d, n) && n <= |cf.clients|
    ensures Reachable(cf, t) && Crowded(cf, t, c, d, |cf.clients|)
    decreases |cf.clients| - n
  {
    t := s;
    if n < |cf.clients| {
      t := ParkOne(cf, s, c, d, n);
      t := ParkAll(cf, t, c, d, n + 1);
    }
  }

  /** d has taken the offer meant for c and rejected it; its own offer waits, and nobody listens for it. */
  ghost predicate Misled(cf: Config, s: State, d: nat)
    requires |s.phases| == |cf.clients|
  {
    && IsMikey(cf, d) && s.phases[d].Finished? && !s.phases[d].ok
    && (forall e :: 0 <= e < |s.phases| && e != d ==> Parked(cf, s, e, d))
    && |s.sent| == 2 && |s.delivered| == 1 && s.kdc == KdcIdle && s.gcks == GcksIdle
    && s.queue == [MessageFor(cf, d, SessionKey(1))]
  }

  lemma CrowdedMisleads(cf: Config, s: State, c: nat, d: nat) returns (t: State)
    requires Reachable(cf, s) && Crowded(cf, s, c, d, |cf.clients|)
    ensures Reachable(cf, t) && Misled(cf, t, d)
  {
    ReachableThen(cf, s, Deliver(d));
    var s1 := Apply(cf, s, Deliver(d));
    ReachableThen(cf, s1, Authenticate(d));
    t := Apply(cf, s1, Authenticate(d));
  }

  /** Something forwarded is undelivered, and no run can change anything any more. */
  ghost predicate Stranded(cf: Config, s: State)
    requires |s.phases| == |cf.clients|
  {
    && |s.delivered| < |s.sent|
    && forall run :: CanRun(cf, s, run) ==> After(cf, s, run) == s
  }

  lemma {:induction false} QuiescentStays(cf: Config, s: State, run: seq<Action>)
    requires |s.phases| == |cf.clients| && Quiescent(cf, s) && s.kdc == KdcIdle && CanRun(cf, s, run)
    ensures After(cf, s, run) == s
    decreases |run|
  {
    if run != [] {
      assert run[0].Retry?;
      QuiescentStays(cf, s, run[1..]);
    }
  }

  /** With everyone else parked, a GCKS that connects to d's address only retries. */
  lemma OnlyRetries(cf: Config, s: State, d: nat)
    requires |s.phases| == |cf.clients| && d < |s.phases| && s.phases[d].Finished?
    requires forall e :: 0 <= e < |s.phases| && e != d ==> Parked(cf, s, e, d)
    requires s.kdc == KdcIdle && s.gcks.GcksConnecting? && s.gcks.info.addr == Addr(cf, d)
    ensures Quiescent(cf, s)
  {
    forall a | Enabled(cf, s, a)
      ensures a.Retry?
    {
      if ClientStep(a) || a.Take? {
        assert a.c == d || Parked(cf, s, a.c, d);
      }
    }
  }

  /** d's own offer finds nobody, ever. */
  lemma MisledStrands(cf: Config, s: State, d: nat) returns (t: State)
    requires WellFormed(cf) && Reachable(cf, s) && Misled(cf, s, d)
    ensures Reachable(cf, t) && Quiescent(cf, t) && Stranded(cf, t)
  {
    DeliverableParses(cf.clients[d].info);
    OpenOne(cf, s);
    t := Opened(cf, s);
    forall e | 0 <= e < |t.phases| && e != d
      ensures Parked(cf, t, e, d)
    {
      assert Parked(cf, s, e, d);
    }
    OnlyRetries(cf, t, d);
    QuiescentStrands(cf, t);
  }

  lemma QuiescentStrands(cf: Config, s: State)
    requires |s.phases| == |cf.clients| && Quiescent(cf, s) && s.kdc == KdcIdle && |s.delivered| < |s.sent|
    ensures Stranded(cf, s)
  {
    forall run | CanRun(cf, s, run)
      ensures After(cf, s, run) == s
    {
      QuiescentStays(cf, s, run);
    }
  }

  lemma SharedAddressStrands(cf: Config) returns (t: State)
    requires WellFormed(cf) && !DistinctAddresses(cf)
    ensures Reachable(cf, t) && Quiescent(cf, t) && Stranded(cf, t)
  {
    var c, d :| 0 <= c < d < |cf.clients| && cf.clients[c].mikey && cf.clients[d].mikey && Addr(cf, c) == Addr(cf, d);
    t := ReachCrossed(cf, c, d);
    t := ParkAll(cf, t, c, d, 0);
    t := CrowdedMisleads(cf, t, c, d);
    t := MisledStrands(cf, t, d);
  }

  lemma NeverStranded(cf: Config, s: State)
    requires WellFormed(cf) && ReachableInTurn(cf, s)
    ensures !Stranded(cf, s)
  {
    if |s.delivered| < |s.sent| {
      DeadlockFree(cf, s);
      var a :| Helpful(a) && Enabled(cf, s, a);
      ReachableProgresses(cf, s);
      MeasureFalls(cf, s, a);
      assert [a][1..] == [] && CanRun(cf, Apply(cf, s, a), []);
      assert CanRun(cf, s, [a]) && After(cf, s, [a]) == Apply(cf, s, a);
    }
  }

  /** Some run strands a forwarded message for good if and only if two MIKEY clients share an address. */
  lemma StrandsIff(cf: Config)
    requires WellFormed(cf)
    ensures (exists s :: Reachable(cf, s) && Stranded(cf, s)) <==> !DistinctAddresses(cf)
  {
    if DistinctAddresses(cf) {
      forall s | Reachable(cf, s)
        ensures !Stranded(cf, s)
      {
        ReachableTakesTurns(cf, s);
        NeverStranded(cf, s);
      }
    } else {
      var s := SharedAddressStrands(cf);
    }
  }

  /** Every run that can do no more has delivered everything it forwarded if and only if no two MIKEY
      clients share an address. */
  lemma AllDeliveredIff(cf: Config)
    requires WellFormed(cf)
    ensures (forall s :: Reachable(cf, s) && Quiescent(cf, s) ==> |s.delivered| == |s.sent|)
            <==> DistinctAddresses(cf)
  {
    if DistinctAddresses(cf) {
      forall s | Reachable(cf, s) && Quiescent(cf, s)
        ensures |s.delivered| == |s.sent|
      {
        ReachableTakesTurns(cf, s);
        NothingUndelivered(cf, s);
      }
    } else {
      var s := SharedAddressStrands(cf);
    }
  }
}
