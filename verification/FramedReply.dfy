/** KM1's reply: the server copies the message into a fixed buffer it never clears and sends it with
    a two-byte length; the client rebuilds it from reads that may be short or interrupted. */
module FramedReply {
  import opened CStrings

  type Byte = b: nat | b < 256

  const BUFSIZ: nat := 8192

  /** The C string at the head of a byte buffer. */
  function CText(b: seq<Byte>): seq<Byte> {
    b[..Span(b, {0})]
  }

  /** What a reply carries of a message: at most BUFSIZ - 1 bytes, up to the first zero. */
  function Clip(msg: seq<Byte>): seq<Byte> {
    var t := CText(msg);
    if |t| < BUFSIZ then t else t[..BUFSIZ - 1]
  }

  // ---------- framing ----------

  /** htons of the length, then the bytes. */
  function Frame(body: seq<Byte>): seq<Byte>
    requires |body| < 65536
  {
    [|body| / 256, |body| % 256] + body
  }

  datatype Unframed = Short | Complete(body: seq<Byte>, rest: seq<Byte>)

  function Length(b0: Byte, b1: Byte): nat {
    b0 * 256 + b1
  }

  function Unframe(s: seq<Byte>): Unframed {
    if |s| < 2 then Short
    else
      var n := Length(s[0], s[1]);
      if |s| < 2 + n then Short else Complete(s[2..2 + n], s[2 + n..])
  }

  lemma FrameRoundTrip(body: seq<Byte>, rest: seq<Byte>)
    requires |body| < 65536
    ensures Unframe(Frame(body) + rest) == Complete(body, rest)
    ensures var f := Frame(body);
            |f| == 2 + |body| && f[0] * 256 + f[1] as int == |body| && f[2..] == body
  {
    var s := Frame(body) + rest;
    assert s[0] == |body| / 256 && s[1] == |body| % 256;
    assert s[2..2 + |body|] == body && s[2 + |body|..] == rest;
  }

  lemma ClipIsText(msg: seq<Byte>)
    ensures 0 !in Clip(msg) && Clip(msg) <= msg && |Clip(msg)| < BUFSIZ
    ensures CText(Clip(msg)) == Clip(msg)
    ensures |Clip(msg)| == |msg| || |Clip(msg)| == BUFSIZ - 1 || msg[|Clip(msg)|] == 0
  {
    CTextIs(msg);
    SpanIs(Clip(msg), {0}, |Clip(msg)|);
    if 0 !in msg {
      SpanIs(msg, {0}, |msg|);
    }
  }

  /** The text is everything up to the first zero. */
  lemma CTextIs(b: seq<Byte>)
    ensures CText(b) <= b && 0 !in CText(b)
    ensures |CText(b)| == |b| || b[|CText(b)|] == 0
  {
  }

  lemma CTextOf(s: seq<Byte>, tail: seq<Byte>)
    requires 0 !in s
    ensures CText(s + [0] + tail) == s
  {
    SpanIs(s + [0] + tail, {0}, |s|);
  }

  // ---------- the server ----------

  class ReplyServer {
    const repbuf: array<Byte>

    constructor ()
      ensures fresh(repbuf) && repbuf.Length == BUFSIZ
    {
      repbuf := new Byte[BUFSIZ];
    }

    /** strncpy(repbuf, msg, BUFSIZ - 1) over whatever the previous client's reply left there. */
    method Fill(msg: seq<Byte>)
      requires repbuf.Length == BUFSIZ
      modifies repbuf
      ensures repbuf[..] == Clip(msg) + seq(BUFSIZ - |Clip(msg)|, _ => 0)
    {
      ClipIsText(msg);
      ghost var n := |Clip(msg)|;
      repbuf[BUFSIZ - 1] := 0;
      var i := 0;
      while i < BUFSIZ - 1 && i < |msg| && msg[i] != 0
        invariant i <= n && repbuf[BUFSIZ - 1] == 0
        invariant forall k :: 0 <= k < i ==> repbuf[k] == msg[k]
      {
        ProgressInClip(msg, i);
        repbuf[i] := msg[i];
        i := i + 1;
      }
      ClipEnds(msg, i);
      while i < BUFSIZ - 1
        invariant n <= i <= BUFSIZ - 1 && repbuf[BUFSIZ - 1] == 0
        invariant forall k :: 0 <= k < n ==> repbuf[k] == msg[k]
        invariant forall k :: n <= k < i ==> repbuf[k] == 0
      {
        repbuf[i] := 0;
        i := i + 1;
      }
    }

    method StrLen() returns (n: nat)
      requires repbuf.Length == BUFSIZ && 0 in repbuf[..]
      ensures n == |CText(repbuf[..])|
    {
      n := 0;
      while repbuf[n] != 0
        invariant n < BUFSIZ && 0 !in repbuf[..n] && 0 in repbuf[n..]
        decreases BUFSIZ - n
      {
        assert repbuf[n..] == [repbuf[n]] + repbuf[n + 1..];
        assert repbuf[..n + 1] == repbuf[..n] + [repbuf[n]];
        n := n + 1;
      }
      assert forall k :: 0 <= k < n ==> repbuf[k] in repbuf[..n];
      SpanIs(repbuf[..], {0}, n);
    }

    /** One reply: fill the buffer, then write the length and as many bytes. */
    method Reply(msg: seq<Byte>) returns (wire: seq<Byte>)
      requires repbuf.Length == BUFSIZ
      modifies repbuf
      ensures |Clip(msg)| < BUFSIZ && wire == Frame(Clip(msg))
    {
      Fill(msg);
      ClipIsText(msg);
      ghost var n := |Clip(msg)|;
      assert repbuf[..] == Clip(msg) + [0] + seq(BUFSIZ - n - 1, _ => 0);
      CTextOf(Clip(msg), seq(BUFSIZ - n - 1, _ => 0));
      assert repbuf[..][n] == 0;
      var len := StrLen();
      wire := [len / 256, len % 256] + repbuf[..len];
      assert repbuf[..len] == Clip(msg);
    }
  }

  lemma ProgressInClip(msg: seq<Byte>, i: nat)
    requires i < BUFSIZ - 1 && i < |msg| && msg[i] != 0 && i <= |Clip(msg)|
    ensures i < |Clip(msg)|
  {
  }

  lemma ClipEnds(msg: seq<Byte>, i: nat)
    requires i <= |Clip(msg)| && (i >= BUFSIZ - 1 || i >= |msg| || msg[i] == 0)
    ensures i == |Clip(msg)|
  {
  }

  // ---------- the client ----------

  /** What one read call meets: a signal, a failure, or at most so many bytes. */
  datatype Event = Interrupted | Broken | Upto(n: nat)

  predicate Unbroken(script: seq<Event>) {
    Broken !in script
  }

  /** The buffer with one chunk written at an offset and nothing else changed. */
  function Filled(buf: seq<Byte>, at: nat, chunk: seq<Byte>): (r: seq<Byte>)
    requires at + |chunk| <= |buf|
    ensures |r| == |buf|
  {
    buf[..at] + chunk + buf[at + |chunk|..]
  }

  /** A chunk written right after a chunk is one longer chunk. */
  lemma FilledOn(buf: seq<Byte>, at: nat, source: seq<Byte>, got: nat, cc: nat)
    requires got + cc <= |source| && at + got + cc <= |buf|
    ensures Filled(Filled(buf, at, source[..got]), at + got, source[got..][..cc]) == Filled(buf, at, source[..got + cc])
    ensures source[got..][cc..] == source[got + cc..]
  {
    assert source[..got + cc] == source[..got] + source[got..][..cc];
  }

  /** A connected socket: all the bytes the peer will have written when it closes, and what the
      coming reads meet. Once the script is spent, a read takes all it can. */
  class Socket {
    var pending: seq<Byte>
    var script: seq<Event>

    constructor (pending: seq<Byte>, script: seq<Event>)
      ensures this.pending == pending && this.script == script
    {
      this.pending, this.script := pending, script;
    }

    /** read(2): -1 on a signal or failure, 0 at the end, else a positive count. */
    method Read(buf: array<Byte>, at: nat, len: nat) returns (cc: int, eintr: bool)
      requires at + len <= buf.Length
      modifies this, buf
      ensures -1 <= cc <= len && cc <= |old(pending)| && (cc == 0 ==> len == 0 || old(pending) == [])
      ensures cc < 0 ==> old(script) != [] && script == old(script)[1..]
                         && old(script)[0] == if eintr then Interrupted else Broken
      ensures cc >= 0 ==> script == if old(script) == [] then [] else old(script)[1..]
      ensures cc >= 0 && old(script) != [] ==> old(script)[0].Upto?
      ensures var n := if cc < 0 then 0 else cc;
              pending == old(pending)[n..] && buf[..] == Filled(old(buf[..]), at, old(pending)[..n])
    {
      var limit := len;
      eintr := false;
      if script != [] {
        var e := script[0];
        script := script[1..];
        if !e.Upto? {
          assert buf[..] == Filled(buf[..], at, []);
          return -1, e == Interrupted;
        }
        limit := if e.n == 0 then 1 else e.n;
      }
      var n := if limit < len then limit else len;
      n := if |pending| < n then |pending| else n;
      Store(buf, at, pending[..n]);
      pending := pending[n..];
      cc := n;
    }
  }

  function Least(a: nat, b: nat): nat {
    if a < b then a else b
  }

  /** The first met events have passed, and no read failed. */
  ghost predicate Passed(script: seq<Event>, met: nat, rest: seq<Event>) {
    met <= |script| && rest == script[met..] && Unbroken(script[..met])
  }

  /** The last of the first met events is the first failure. */
  ghost predicate FailedAt(script: seq<Event>, met: nat, rest: seq<Event>) {
    0 < met <= |script| && rest == script[met..] && script[met - 1] == Broken && Unbroken(script[..met - 1])
  }

  lemma OneMoreEvent(script: seq<Event>, met: nat, rest: seq<Event>)
    requires Passed(script, met, rest) && rest != []
    ensures if rest[0] == Broken then FailedAt(script, met + 1, rest[1..]) else Passed(script, met + 1, rest[1..])
  {
    assert script[..met + 1] == script[..met] + [script[met]];
  }

  /** One more read, right behind what was got so far. */
  method ReadOn(sock: Socket, buf: array<Byte>, at: nat, got: nat, left: nat, ghost source: seq<Byte>, ghost before: seq<Byte>,
                ghost script: seq<Event>, ghost met: nat)
    returns (cc: int, eintr: bool, ghost after: nat)
    requires at + got + left <= |before| == buf.Length && got <= |source|
    requires sock.pending == source[got..] && buf[..] == Filled(before, at, source[..got])
    requires Passed(script, met, sock.script)
    modifies sock, buf
    ensures -1 <= cc <= left && (cc == 0 ==> left == 0 || got == |source|)
    ensures var n := if cc < 0 then 0 else cc;
            got + n <= |source|
            && sock.pending == source[got + n..] && buf[..] == Filled(before, at, source[..got + n])
    ensures if cc < 0 && !eintr then FailedAt(script, after, sock.script) else Passed(script, after, sock.script)
    ensures |sock.script| <= |old(sock.script)| && (cc < 0 ==> |sock.script| < |old(sock.script)|)
  {
    ghost var rest := sock.script;
    cc, eintr := sock.Read(buf, at + got, left);
    FilledOn(before, at, source, got, if cc < 0 then 0 else cc);
    after := if rest == [] then met else met + 1;
    if rest != [] {
      OneMoreEvent(script, met, rest);
    }
  }

  /** net_read: moved is the number of bytes taken off the socket, met the number of events its reads
      met. Nothing outside the len bytes at buf + at is ever written. The call fails if and only if a
      read does, and with it; else it returns all it was asked for, or all there is. */
  method NetRead(sock: Socket, buf: array<Byte>, at: nat, len: nat) returns (r: int, ghost moved: nat, ghost met: nat)
    requires at + len <= buf.Length
    modifies sock, buf
    ensures moved <= len && moved <= |old(sock.pending)|
    ensures buf[..] == Filled(old(buf[..]), at, old(sock.pending)[..moved])
    ensures sock.pending == old(sock.pending)[moved..]
    ensures if r == -1 then FailedAt(old(sock.script), met, sock.script)
            else r == moved == Least(len, |old(sock.pending)|) && Passed(old(sock.script), met, sock.script)
  {
    ghost var source, before := sock.pending, buf[..];
    ghost var script := sock.script;
    var left, got := len, 0;
    moved, met := 0, 0;
    assert before == Filled(before, at, source[..0]);
    while true
      invariant 0 <= left && 0 <= got == moved && got + left == len && got <= |source|
      invariant sock.pending == source[got..]
      invariant buf[..] == Filled(before, at, source[..got])
      invariant Passed(script, met, sock.script)
      decreases |sock.script|, left
    {
      var cc, eintr, after := ReadOn(sock, buf, at, got, left, source, before, script, met);
      met := after;
      if cc < 0 {
        if !eintr {
          return -1, moved, met;
        }
      } else if cc == 0 {
        break;
      } else {
        got, left := got + cc, left - cc;
        moved := got;
      }
      if left <= 0 {
        break;
      }
    }
    r := got;
  }

  datatype Result = Failed | Message(text: seq<Byte>)

  /** net_read of the length, converted by ntohs; met counts the events its reads met. */
  method ReadLength(sock: Socket) returns (ok: bool, len: nat, ghost met: nat)
    modifies sock
    ensures met <= |old(sock.script)| && sock.script == old(sock.script)[met..]
    ensures var source := old(sock.pending);
            if Unbroken(old(sock.script)[..met]) then
              && ok == (source != [])
              && if |source| < 2 then sock.pending == []
                 else len == Length(source[0], source[1]) && sock.pending == source[2..]
            else !ok
  {
    var header := new Byte[2];
    var r, _, events := NetRead(sock, header, 0, 2);
    met := events;
    ok, len := r > 0, Length(header[0], header[1]);
    if r == 2 {
      assert header[..] == old(sock.pending)[..2];
      assert header[0] == old(sock.pending)[0] && header[1] == old(sock.pending)[1];
    }
  }

  /** net_read of the contents into a buffer one byte longer, which is then terminated. */
  method ReadBody(sock: Socket, len: nat) returns (ok: bool, text: seq<Byte>, ghost met: nat)
    modifies sock
    ensures met <= |old(sock.script)| && sock.script == old(sock.script)[met..]
    ensures var source := old(sock.pending);
            var n := Least(len, |source|);
            if Unbroken(old(sock.script)[..met]) then
              && ok == (n > 0) && sock.pending == source[n..] && CText(source[..n]) <= text
              && (n == len ==> text == CText(source[..n]))
            else !ok
  {
    var data := new Byte[len + 1];
    var r, _, events := NetRead(sock, data, 0, len);
    met := events;
    data[len] := 0;
    ok, text := r > 0, CText(data[..]);
    if Unbroken(old(sock.script)[..met]) {
      assert data[..r] == old(sock.pending)[..r];
      assert data[..] == data[..r] + data[r..];
      TextGrows(data[..r], data[r..]);
      if r == len {
        assert data[..] == old(sock.pending)[..len] + [0];
        TextOfZeroed(old(sock.pending)[..len]);
      }
    }
  }

  /** What the client makes of all the bytes it will ever get, if no read fails. A body that ends early
      is not noticed unless nothing of it arrived; past its end the text is whatever the new buffer
      held. After a single byte half of the length is unset, but nothing is left to read. */
  ghost predicate Understood(source: seq<Byte>, result: Result, rest: seq<Byte>) {
    if |source| < 2 then result == Failed && rest == []
    else
      var n := Length(source[0], source[1]);
      var got := Least(n, |source| - 2);
      && rest == source[2 + got..]
      && if got == 0 then result == Failed
         else && result.Message? && CText(source[2..2 + got]) <= result.text
              && (got == n ==> result.text == CText(source[2..2 + got]))
  }

  /** A complete frame is understood in one way only. */
  lemma UnderstoodComplete(source: seq<Byte>, result: Result, left: seq<Byte>)
    requires Understood(source, result, left) && Unframe(source).Complete?
    ensures var Complete(body, rest) := Unframe(source);
            left == rest && result == if body == [] then Failed else Message(CText(body))
  {
  }

  /** The client fails if and only if no body arrived: the stream ended with the length or before it
      was whole, or announced an empty body. */
  lemma FailsIff(source: seq<Byte>, result: Result, rest: seq<Byte>)
    requires Understood(source, result, rest)
    ensures result == Failed <==> |source| <= 2 || Length(source[0], source[1]) == 0
  {
  }

  /** An early end is noticed if and only if no byte of the body arrived. */
  lemma EarlyEndNoticedIff(source: seq<Byte>, result: Result, rest: seq<Byte>)
    requires Understood(source, result, rest) && Unframe(source) == Short
    ensures result == Failed <==> |source| <= 2
  {
  }

  /** The client's two reads. met counts the events they met: if one was a failure, so is the result. */
  method ReadReply(sock: Socket) returns (result: Result, ghost met: nat)
    modifies sock
    ensures met <= |old(sock.script)| && sock.script == old(sock.script)[met..]
    ensures if Unbroken(old(sock.script)[..met]) then Understood(old(sock.pending), result, sock.pending)
            else result == Failed
  {
    ghost var script := sock.script;
    var gotLength, len, first := ReadLength(sock);
    met := first;
    if !gotLength {
      return Failed, met;
    }
    ghost var after := sock.pending;
    var gotBody, text, second := ReadBody(sock, len);
    result, met := if gotBody then Message(text) else Failed, first + second;
    assert script[..met] == script[..first] + script[first..][..second];
    if 2 <= |old(sock.pending)| {
      ghost var n := Least(len, |after|);
      if gotBody {
        assert after[..n] == old(sock.pending)[2..2 + n];
        assert after[n..] == old(sock.pending)[2 + n..];
      }
    }
  }

  lemma TextGrows(body: seq<Byte>, more: seq<Byte>)
    ensures CText(body) <= CText(body + more)
  {
    var n := Span(body, {0});
    if n < |body| {
      SpanIs(body + more, {0}, n);
    }
  }

  lemma TextOfZeroed(body: seq<Byte>)
    ensures CText(body + [0]) == CText(body)
  {
    SpanIs(body + [0], {0}, Span(body, {0}));
  }

  /** The server loop against one client per round, on a connection of its own: every client gets the
      clipped text of its own message, whatever its reads meet and whoever came before. */
  method ServeAll(server: ReplyServer, msgs: seq<seq<Byte>>, scripts: seq<seq<Event>>) returns (got: seq<Result>)
    requires server.repbuf.Length == BUFSIZ
    requires |scripts| == |msgs| && forall i :: 0 <= i < |msgs| ==> Unbroken(scripts[i])
    modifies server.repbuf
    ensures |got| == |msgs|
    ensures forall i :: 0 <= i < |msgs| ==>
              got[i] == if Clip(msgs[i]) == [] then Failed else Message(Clip(msgs[i]))
  {
    got := [];
    for i := 0 to |msgs|
      invariant |got| == i
      invariant forall k :: 0 <= k < i ==> got[k] == if Clip(msgs[k]) == [] then Failed else Message(Clip(msgs[k]))
    {
      var wire := server.Reply(msgs[i]);
      var sock := new Socket(wire, scripts[i]);
      assert wire == wire + [];
      FrameRoundTrip(Clip(msgs[i]), []);
      ClipIsText(msgs[i]);
      var result, met := ReadReply(sock);
      assert Unbroken(scripts[i][..met]);
      UnderstoodComplete(wire, result, sock.pending);
      got := got + [result];
    }
  }
}
