/** The sequential code of the KDC and the GCKS, as objects that fill buffers and update their own
    fields, tied to the steps of the protocol. */
module Km2Nodes {
  import opened CStrings
  import opened ConnInfo
  import opened Km2

  /** The TGS side. toGcks holds what the GCKS's socket accepted, oldest first. */
  class TicketServer {
    const gcksKey: Key
    var issued: seq<nat>
    var toGcks: seq<Forwarded>

    constructor (gcksKey: Key)
      ensures this.gcksKey == gcksKey && issued == [] && toGcks == []
    {
      this.gcksKey, issued, toGcks := gcksKey, [], [];
    }

    /** do_gcks_req: print the record into a 1024-byte buffer, seal it with the session key for the
        GCKS, and send it if the connection succeeds. The caller ignores the result. */
    method DoGcksReq(info: Info, sessionKey: Key, connected: bool)
      requires NUL !in info.name && NUL !in info.addr && NUL !in info.group
      modifies this`toGcks
      ensures toGcks == old(toGcks) + if connected then [Forwarded(gcksKey, sessionKey, Printed(info))] else []
    {
      var buf := new char[RECORD_SIZE];
      PrintRecord(info, buf);
      var msg := Forwarded(gcksKey, sessionKey, Text(buf[..]));
      if connected {
        toGcks := toGcks + [msg];
      }
    }

    /** process_tgs_req, as far as the GCKS is concerned: the fields after the call, and the key in
        the reply, are those of the protocol after Take, the forwarding step if the option is set,
        and Reply. */
    method ProcessTgsReq(cf: Config, c: nat, connected: bool, ghost s: State) returns (reply: Key, ghost t: State)
      requires |s.phases| == |cf.clients| && cf.kdcKey == gcksKey && s.issued == issued
      requires Enabled(cf, s, Take(c)) && (cf.clients[c].mikey && connected ==> |s.queue| < cf.backlog)
      requires var i := cf.clients[c].info; NUL !in i.name && NUL !in i.addr && NUL !in i.group
      modifies this
      ensures var steps := [Take(c)]
                           + (if !cf.clients[c].mikey then [] else if connected then [Forward] else [ForwardFails])
                           + [Reply];
              CanRun(cf, s, steps) && t == After(cf, s, steps)
      ensures t.phases[c] == if cf.clients[c].mikey then Ticketed(reply) else PlainTicket(reply)
      ensures issued == t.issued && old(toGcks) <= toGcks && t.queue == s.queue + toGcks[|old(toGcks)|..]
    {
      ghost var s1 := Apply(cf, s, Take(c));
      reply := SessionKey(|issued|);
      issued := issued + [c];
      if cf.clients[c].mikey {
        DoGcksReq(cf.clients[c].info, reply, connected);
        ghost var a := if connected then Forward else ForwardFails;
        ghost var s2 := Apply(cf, s1, a);
        t := Apply(cf, s2, Reply);
        ThreeSteps(cf, s, Take(c), a, Reply);
        assert [Take(c)] + [a] + [Reply] == [Take(c), a, Reply];
      } else {
        t := Apply(cf, s1, Reply);
        TwoSteps(cf, s, Take(c), Reply);
        assert [Take(c)] + [] + [Reply] == [Take(c), Reply];
      }
    }
  }

  lemma OneStep(cf: Config, s: State, a: Action)
    requires |s.phases| == |cf.clients| && Enabled(cf, s, a)
    ensures CanRun(cf, s, [a]) && After(cf, s, [a]) == Apply(cf, s, a)
  {
    assert [a][1..] == [];
    assert CanRun(cf, Apply(cf, s, a), []);
  }

  lemma TwoSteps(cf: Config, s: State, a: Action, b: Action)
    requires |s.phases| == |cf.clients| && Enabled(cf, s, a) && Enabled(cf, Apply(cf, s, a), b)
    ensures CanRun(cf, s, [a, b]) && After(cf, s, [a, b]) == Apply(cf, Apply(cf, s, a), b)
  {
    assert [a, b][1..] == [b];
    OneStep(cf, Apply(cf, s, a), b);
  }

  lemma ThreeSteps(cf: Config, s: State, a: Action, b: Action, c: Action)
    requires |s.phases| == |cf.clients| && Enabled(cf, s, a)
    requires Enabled(cf, Apply(cf, s, a), b) && Enabled(cf, Apply(cf, Apply(cf, s, a), b), c)
    ensures CanRun(cf, s, [a, b, c]) && After(cf, s, [a, b, c]) == Apply(cf, Apply(cf, Apply(cf, s, a), b), c)
  {
    assert [a, b, c][1..] == [b, c];
    TwoSteps(cf, Apply(cf, s, a), b, c);
  }

  /** One message on its way to a client: where to, and what. */
  datatype Outgoing = Outgoing(addr: string, offer: Offer)

  predicate Readable(key: Key, m: Forwarded) {
    Opens(key, m.psk) && Parse(m.conn).Some?
  }

  function OutgoingFor(m: Forwarded, tgk: nat): Outgoing
    requires Parse(m.conn).Some?
  {
    var info := Parse(m.conn).value;
    Outgoing(info.addr, OfferFor(m.tgk, info, tgk))
  }

  /** At attempt t or later, a connection to the address succeeds. */
  ghost predicate ListensFrom(listens: (nat, string) -> bool, addr: string, t: nat) {
    exists u: nat :: t <= u && listens(u, addr)
  }

  class KeyServer {
    const keytabKey: Key
    var waiting: seq<Forwarded>
    var outbox: seq<Outgoing>
    var attempts: nat

    constructor (keytabKey: Key)
      ensures this.keytabKey == keytabKey && waiting == [] && outbox == [] && attempts == 0
    {
      this.keytabKey, waiting, outbox, attempts := keytabKey, [], [], 0;
    }

    /** process_mikey_message: open the message, then split its record in place. */
    method ProcessMikeyMessage(m: Forwarded) returns (info: Info, sessionKey: Key)
      requires Readable(keytabKey, m) && NUL !in m.conn
      ensures Parse(m.conn) == Some(info) && sessionKey == m.tgk
    {
      var buf := new char[|m.conn| + 1];
      Store(buf, 0, m.conn + [NUL]);
      assert buf[..] == m.conn + [NUL] + [];
      TextOf(m.conn, []);
      var parsed := ParseRecord(buf);
      info, sessionKey := parsed.value, m.tgk;
    }

    /** send_mikey_message: connect until the client listens, then send. The attempts are made one by
        one; the first that meets a listening client is the last. */
    method SendMikeyMessage(info: Info, sessionKey: Key, listens: (nat, string) -> bool)
      requires ListensFrom(listens, info.addr, attempts)
      modifies this`outbox, this`attempts
      ensures outbox == old(outbox) + [Outgoing(info.addr, OfferFor(sessionKey, info, |old(outbox)|))]
      ensures old(attempts) < attempts && listens(attempts - 1, info.addr)
      ensures forall t :: old(attempts) <= t < attempts - 1 ==> !listens(t, info.addr)
    {
      ghost var u: nat :| attempts <= u && listens(u, info.addr);
      var connected := listens(attempts, info.addr);
      attempts := attempts + 1;
      while !connected
        invariant old(attempts) < attempts && connected == listens(attempts - 1, info.addr)
        invariant forall t :: old(attempts) <= t < attempts - 1 ==> !listens(t, info.addr)
        invariant outbox == old(outbox) && attempts <= u + 1
        decreases !connected, u + 1 - attempts
      {
        connected := listens(attempts, info.addr);
        attempts := attempts + 1;
      }
      outbox := outbox + [Outgoing(info.addr, OfferFor(sessionKey, info, |outbox|))];
    }

    ghost predicate AllReadable() reads this {
      forall i :: 0 <= i < |waiting| ==> Readable(keytabKey, waiting[i]) && NUL !in waiting[i].conn
    }

    /** Every client that waits for an offer listens again and again. */
    ghost predicate AllListen(listens: (nat, string) -> bool) reads this
      requires AllReadable()
    {
      forall i, t: nat :: 0 <= i < |waiting| ==> ListensFrom(listens, Parse(waiting[i].conn).value.addr, t)
    }

    /** One round of the service loop: the oldest connection is answered with the name, address and
        key of that same message. */
    method ServeOne(listens: (nat, string) -> bool)
      requires waiting != [] && AllReadable()
      requires ListensFrom(listens, Parse(waiting[0].conn).value.addr, attempts)
      modifies this
      ensures waiting == old(waiting)[1..]
      ensures outbox == old(outbox) + [OutgoingFor(old(waiting)[0], |old(outbox)|)]
    {
      var m := waiting[0];
      waiting := waiting[1..];
      var info, sessionKey := ProcessMikeyMessage(m);
      SendMikeyMessage(info, sessionKey, listens);
    }

    /** The service loop over all the connections that wait: each is answered once, in order. */
    method Serve(listens: (nat, string) -> bool)
      requires AllReadable() && AllListen(listens)
      modifies this
      ensures waiting == []
      ensures |outbox| == |old(outbox)| + |old(waiting)| && old(outbox) <= outbox
      ensures forall i :: 0 <= i < |old(waiting)| ==>
                Parse(old(waiting)[i].conn).Some?
                && outbox[|old(outbox)| + i] == OutgoingFor(old(waiting)[i], |old(outbox)| + i)
    {
      ghost var all, before := waiting, outbox;
      var round := 0;
      while waiting != []
        invariant round <= |all| && waiting == all[round..]
        invariant AllReadable() && AllListen(listens)
        invariant before <= outbox && Answers(all, outbox, |before|, round)
        decreases |waiting|
      {
        assert ListensFrom(listens, Parse(waiting[0].conn).value.addr, attempts);
        assert waiting[0] == all[round] && Readable(keytabKey, waiting[0]);
        ghost var out := outbox;
        ServeOne(listens);
        OneMoreAnswer(all, out, |before|, round);
        round := round + 1;
      }
    }
  }

  /** Behind its first base messages, out answers the first n of all, in order. */
  ghost predicate Answers(all: seq<Forwarded>, out: seq<Outgoing>, base: nat, n: nat) {
    && n <= |all| && |out| == base + n
    && forall i :: 0 <= i < n ==> Parse(all[i].conn).Some? && out[base + i] == OutgoingFor(all[i], base + i)
  }

  lemma OneMoreAnswer(all: seq<Forwarded>, out: seq<Outgoing>, base: nat, n: nat)
    requires Answers(all, out, base, n) && n < |all| && Parse(all[n].conn).Some?
    ensures Answers(all, out + [OutgoingFor(all[n], |out|)], base, n + 1)
  {
  }

  /** In every reachable state of the protocol, the i-th delivery is what the service loop sends for
      the i-th message the KDC forwarded. */
  lemma DeliveriesAreServed(cf: Config, s: State, i: nat)
    requires Reachable(cf, s) && i < |s.delivered|
    ensures Inv(cf, s) && i < |s.sent|
    ensures Readable(cf.keytabKey, AllForwarded(cf, s)[i])
    ensures OutgoingFor(AllForwarded(cf, s)[i], i) == Outgoing(Addr(cf, s.delivered[i].taker), s.delivered[i].offer)
  {
    Conservation(cf, s);
    assert AllForwarded(cf, s)[i] == Messages(s.delivered)[i];
    assert DeliveryOk(cf, s, i);
  }
}
