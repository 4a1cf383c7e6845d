/** Two ways to split "host:port" and "[host]:port" in place: one for admin_server settings, one for
    the host lists of locate_kdc, which also strips blanks. */
module HostPort {
  import opened CStrings
  import ConnInfo

  datatype Port = NoPort | PortText(text: string)

  datatype Split = Split(host: string, port: Port)

  const BLANKS: set<char> := {' ', '\t'}

  predicate Bracketed(s: string) {
    s != "" && s[0] == '[' && ']' in s
  }

  function Close(s: string): (n: nat)
    requires Bracketed(s)
    ensures 0 < n < |s| && s[n] == ']'
  {
    Span(s, {']'})
  }

  function PortAt(s: string, k: nat): Port
    requires k <= |s|
  {
    if k < |s| && s[k] == ':' then PortText(s[k + 1..]) else NoPort
  }

  /** What parse_admin_server_port leaves in its argument, and the text it reads as a port. */
  function AdminSplit(s: string): Split {
    if Bracketed(s) then Split(s[1..Close(s)], PortAt(s, Close(s) + 1))
    else
      var end := Span(s, {':'});
      Split(s[..end], PortAt(s, end))
  }

  /** Where locate_kdc ends a host, brackets included. */
  function HostEnd(s: string): (n: nat)
    ensures n <= |s|
  {
    if Bracketed(s) then Close(s) + 1 else Span(s, BLANKS + {':'})
  }

  /** The form in which entries of the two lists are compared. */
  function NormalForm(s: string): string {
    s[..HostEnd(s)]
  }

  function Stripped(s: string): string {
    if Bracketed(s) then s[1..Close(s)] else s
  }

  /** What locate_kdc passes on for an entry of the host list. */
  function LocateSplit(s: string): Split {
    Split(Stripped(NormalForm(s)), PortAt(s, HostEnd(s)))
  }

  // ---------- agreement ----------

  predicate BlankBeforeColon(s: string) {
    exists k :: 0 <= k < Span(s, {':'}) && s[k] in BLANKS
  }

  lemma CloseIs(s: string, n: nat)
    requires 0 < n < |s| && s[0] == '[' && s[n] == ']' && forall k :: 0 <= k < n ==> s[k] != ']'
    ensures Bracketed(s) && Close(s) == n
  {
    SpanIs(s, {']'}, n);
  }

  lemma NormalFormOfBracketed(s: string)
    requires Bracketed(s)
    ensures Bracketed(NormalForm(s)) && Close(NormalForm(s)) == Close(s)
  {
    CloseIs(NormalForm(s), Close(s));
  }

  /** The two splitters give the same host and the same port text if and only if the host is in
      brackets or no blank comes before the colon that ends it. */
  lemma AgreeIff(s: string)
    ensures AdminSplit(s) == LocateSplit(s) <==> Bracketed(s) || !BlankBeforeColon(s)
  {
    if Bracketed(s) {
      NormalFormOfBracketed(s);
      assert NormalForm(s)[1..Close(s)] == s[1..Close(s)];
    } else {
      var n, m := HostEnd(s), Span(s, {':'});
      assert !Bracketed(s[..n]) by {
        assert ']' in s[..n] ==> ']' in s;
        assert n > 0 ==> s[..n][0] == s[0];
      }
      if BlankBeforeColon(s) {
        var k :| 0 <= k < m && s[k] in BLANKS;
        assert n <= k;
        assert |s[..n]| != |s[..m]|;
      } else {
        SpanIs(s, BLANKS + {':'}, m);
      }
    }
  }

  /** Normal forms are fixed points. */
  lemma NormalFormStable(s: string)
    ensures NormalForm(NormalForm(s)) == NormalForm(s)
  {
    var t := NormalForm(s);
    if Bracketed(s) {
      NormalFormOfBracketed(s);
    } else {
      assert !Bracketed(t) by {
        assert ']' in t ==> ']' in s;
        assert t != "" ==> t[0] == s[0];
      }
      SpanIs(t, BLANKS + {':'}, |t|);
    }
  }

  function PortBehind(tail: string): Port {
    if tail != "" && tail[0] == ':' then PortText(tail[1..]) else NoPort
  }

  /** An address in brackets may contain colons and blanks, and comes back whole from both, with a port
      if and only if a colon stands right behind the bracket. Entries are compared without it. */
  lemma BracketsProtect(host: string, tail: string)
    requires ']' !in host
    ensures AdminSplit("[" + host + "]" + tail) == Split(host, PortBehind(tail))
    ensures LocateSplit("[" + host + "]" + tail) == Split(host, PortBehind(tail))
    ensures NormalForm("[" + host + "]" + tail) == "[" + host + "]"
  {
    var s := "[" + host + "]" + tail;
    CloseIs(s, |host| + 1);
    assert s[1..|host| + 1] == host && s[|host| + 2..] == tail;
    assert tail != "" ==> s[|host| + 2] == tail[0] && s[|host| + 3..] == tail[1..];
    BracketsCompare(host, tail);
    AgreeIff(s);
  }

  lemma BracketsCompare(host: string, tail: string)
    requires ']' !in host
    ensures NormalForm("[" + host + "]" + tail) == "[" + host + "]"
  {
    CloseIs("[" + host + "]" + tail, |host| + 1);
  }

  /** The entry is not in brackets. */
  predicate Plain(s: string) {
    s == "" || s[0] != '[' || ']' !in s
  }

  /** An admin_server setting without brackets ends at its first colon; without a colon it is all
      host, and has no port. */
  lemma AdminPlain(host: string, tail: string)
    requires ':' !in host && (tail == "" || tail[0] == ':') && Plain(host + tail)
    ensures AdminSplit(host + tail) == Split(host, PortBehind(tail))
  {
    SpanIs(host + tail, {':'}, |host|);
  }

  /** An entry of a host list without brackets ends at its first colon or blank, and has a port if and
      only if that is a colon. */
  lemma LocatePlain(host: string, tail: string)
    requires ':' !in host && ' ' !in host && '\t' !in host && Plain(host + tail)
    requires tail == "" || tail[0] == ':' || tail[0] == ' ' || tail[0] == '\t'
    ensures LocateSplit(host + tail) == Split(host, PortBehind(tail))
    ensures NormalForm(host + tail) == host
  {
    var s := host + tail;
    SpanIs(s, BLANKS + {':'}, |host|);
    assert !Bracketed(host) by {
      assert host != "" ==> host[0] == s[0];
      assert ']' in host ==> ']' in s;
    }
  }

  /** Without a colon neither of them sees a port. */
  lemma NoPortWithoutColon(host: string)
    requires ':' !in host && ' ' !in host && '\t' !in host && Plain(host)
    ensures AdminSplit(host) == LocateSplit(host) == Split(host, NoPort)
  {
    assert host + "" == host;
    AdminPlain(host, "");
    LocatePlain(host, "");
  }

  /** A colon stands right behind the first bracket that closes. */
  ghost predicate ColonBehindBracket(s: string) {
    exists k :: 0 < k < |s| - 1 && s[k] == ']' && ']' !in s[..k] && s[k + 1] == ':'
  }

  lemma PortGivenIff(s: string)
    ensures AdminSplit(s).port != NoPort <==> if Plain(s) then ':' in s else ColonBehindBracket(s)
  {
    if !Plain(s) {
      var n := Close(s);
      assert ']' !in s[..n];
      if ColonBehindBracket(s) {
        var k :| 0 < k < |s| - 1 && s[k] == ']' && ']' !in s[..k] && s[k + 1] == ':';
        SpanIs(s, {']'}, k);
      }
    }
  }

  // ---------- in place ----------

  /** strcspn on a buffer. */
  method Scan(buf: array<char>, stops: set<char>) returns (n: nat)
    requires Terminated(buf[..])
    ensures n == Span(Text(buf[..]), stops) && n < buf.Length
    ensures n < |Text(buf[..])| ==> buf[n] in stops
    ensures n == |Text(buf[..])| ==> buf[n] == NUL
  {
    ghost var s := Text(buf[..]);
    n := 0;
    while buf[n] != NUL && buf[n] !in stops
      invariant n <= |s| < buf.Length && buf[|s|] == NUL
      invariant forall k :: 0 <= k < |s| ==> buf[k] == s[k]
      invariant forall k :: 0 <= k < n ==> s[k] !in stops
      decreases |s| - n
    {
      n := n + 1;
    }
    SpanIs(s, stops, n);
  }

  /** A terminator written over a text leaves its prefix. */
  lemma CutText(b: seq<char>, n: nat)
    requires Terminated(b) && n <= |Text(b)| && n < |b|
    ensures Terminated(b[n := NUL]) && Text(b[n := NUL]) == Text(b)[..n]
  {
    var c := b[n := NUL];
    assert c[n] == NUL;
    SpanIs(c, {NUL}, n);
    assert c[..n] == b[..n];
  }

  /** *(buf + n) = '\\0'. */
  method CutAt(buf: array<char>, n: nat)
    requires Terminated(buf[..]) && n <= |Text(buf[..])| && n < buf.Length
    modifies buf
    ensures Terminated(buf[..]) && Text(buf[..]) == old(Text(buf[..]))[..n]
    ensures forall k :: n < k < buf.Length ==> buf[k] == old(buf[k])
  {
    ghost var b := buf[..];
    CutText(b, n);
    buf[n] := NUL;
    assert buf[..] == b[n := NUL];
  }

  lemma TextTail(b: seq<char>, k: nat)
    requires Terminated(b) && k <= |Text(b)|
    ensures Terminated(b[k..]) && Text(b[k..]) == Text(b)[k..]
  {
    ConnInfo.TextFrom(b, k);
  }

  /** Stripping excess characters off an entry of the master list, which keeps no port. */
  method StripMaster(host: array<char>)
    requires Terminated(host[..])
    modifies host
    ensures Terminated(host[..]) && Text(host[..]) == NormalForm(old(Text(host[..])))
  {
    ghost var s := Text(host[..]);
    var close := Scan(host, {']'});
    if host[0] == '[' && host[close] == ']' {
      assert s[0] == '[' && s[close] == ']';
      CutAt(host, close + 1);
    } else {
      assert !Bracketed(s);
      var end := Scan(host, BLANKS + {':'});
      CutAt(host, end);
    }
  }

  /** Where the host's text ends, and whether a colon stands there. */
  method FindHostEnd(host: array<char>) returns (cp: nat, colon: bool)
    requires Terminated(host[..])
    ensures cp == HostEnd(Text(host[..])) && cp < host.Length
    ensures colon == (cp < |Text(host[..])| && Text(host[..])[cp] == ':')
  {
    ghost var s := Text(host[..]);
    var close := Scan(host, {']'});
    if host[0] == '[' && host[close] == ']' {
      assert s[0] == '[' && s[close] == ']';
      cp := close + 1;
    } else {
      assert !Bracketed(s);
      cp := Scan(host, BLANKS + {':'});
    }
    assert host[..][|s|] == NUL;
    colon := host[cp] == ':';
  }

  /** Stripping excess characters off an entry of the host list; the port's text is read where it
      stands. */
  method CutHost(host: array<char>) returns (port: Port)
    requires Terminated(host[..])
    modifies host
    ensures Terminated(host[..]) && Text(host[..]) == NormalForm(old(Text(host[..])))
    ensures port == PortAt(old(Text(host[..])), HostEnd(old(Text(host[..]))))
  {
    ghost var b := host[..];
    var cp, colon := FindHostEnd(host);
    CutAt(host, cp);
    port := NoPort;
    if colon {
      PortStands(b, host[..], cp);
      assert host[cp + 1..] == host[..][cp + 1..];
      port := PortText(Text(host[cp + 1..]));
    }
  }

  /** The port's text survives any write at or before its colon. */
  lemma PortStands(before: seq<char>, after: seq<char>, at: nat)
    requires Terminated(before) && at < |Text(before)| && |after| == |before|
    requires forall k :: at < k < |before| ==> after[k] == before[k]
    ensures at + 1 <= |after| && Text(after[at + 1..]) == Text(before)[at + 1..]
  {
    TextTail(before, at + 1);
    assert after[at + 1..] == before[at + 1..];
  }

  /** Taking the brackets off once the masters have been compared: the host then starts at start. */
  method StripBrackets(host: array<char>) returns (start: nat)
    requires Terminated(host[..])
    modifies host
    ensures start <= host.Length && Terminated(host[start..])
    ensures Text(host[start..]) == Stripped(old(Text(host[..])))
  {
    ghost var b, s := host[..], Text(host[..]);
    var close := Scan(host, {']'});
    if host[0] == '[' && host[close] == ']' {
      assert s[0] == '[' && s[close] == ']';
      CutAt(host, close);
      TextTail(host[..], 1);
      assert host[1..] == host[..][1..];
      assert s[..close][1..] == s[1..close];
      return 1;
    }
    assert !Bracketed(s);
    assert host[0..] == host[..];
    return 0;
  }

  /** locate_kdc on one entry of the host list. */
  method SplitEntry(host: array<char>) returns (start: nat, port: Port)
    requires Terminated(host[..])
    modifies host
    ensures start <= host.Length && Terminated(host[start..])
    ensures Split(Text(host[start..]), port) == LocateSplit(old(Text(host[..])))
  {
    port := CutHost(host);
    start := StripBrackets(host);
  }

  /** memmove(buf, buf + 1, n). */
  method MoveDown(buf: array<char>, n: nat)
    requires n < buf.Length
    modifies buf
    ensures forall k :: 0 <= k < n ==> buf[k] == old(buf[k + 1])
    ensures forall k :: n <= k < buf.Length ==> buf[k] == old(buf[k])
  {
    for k := 0 to n
      invariant forall j :: 0 <= j < k ==> buf[j] == old(buf[j + 1])
      invariant forall j :: k <= j < buf.Length ==> buf[j] == old(buf[j])
    {
      buf[k] := buf[k + 1];
    }
  }

  lemma BracketsGone(before: seq<char>, after: seq<char>, end: nat)
    requires Terminated(before) && 0 < end < |Text(before)| && |after| == |before|
    requires forall k :: 0 <= k < end - 1 ==> after[k] == before[k + 1]
    requires after[end - 1] == NUL
    ensures Terminated(after) && Text(after) == Text(before)[1..end]
  {
    SpanIs(after, {NUL}, end - 1);
    assert after[..end - 1] == before[1..end];
  }

  /** Shifting the text between the brackets back to the head of the buffer. */
  method ShiftOut(server: array<char>, end: nat)
    requires Terminated(server[..]) && 0 < end < |Text(server[..])|
    modifies server
    ensures Terminated(server[..]) && Text(server[..]) == old(Text(server[..]))[1..end]
    ensures forall k :: end <= k < server.Length ==> server[k] == old(server[k])
  {
    ghost var b := server[..];
    MoveDown(server, end - 1);
    server[end - 1] := NUL;
    BracketsGone(b, server[..], end);
  }

  /** The first branch: close is the bracket's position. A port's text, if there is one, then starts
      at portAt. */
  method CutBracketed(server: array<char>, close: nat) returns (colon: bool, portAt: nat)
    requires Terminated(server[..]) && Bracketed(Text(server[..])) && close == Close(Text(server[..]))
    modifies server
    ensures Terminated(server[..]) && Text(server[..]) == AdminSplit(old(Text(server[..]))).host
    ensures colon ==> portAt <= server.Length
    ensures AdminSplit(old(Text(server[..]))).port == if colon then PortText(Text(server[portAt..])) else NoPort
  {
    ghost var b, s := server[..], Text(server[..]);
    assert b[|s|] == NUL;
    colon, portAt := server[close + 1] == ':', close + 2;
    ShiftOut(server, close);
    if colon {
      PortStands(b, server[..], close + 1);
      assert server[portAt..] == server[..][portAt..];
    }
  }

  /** The other branch. */
  method CutPlain(server: array<char>) returns (colon: bool, portAt: nat)
    requires Terminated(server[..]) && !Bracketed(Text(server[..]))
    modifies server
    ensures Terminated(server[..]) && Text(server[..]) == AdminSplit(old(Text(server[..]))).host
    ensures colon ==> portAt <= server.Length
    ensures AdminSplit(old(Text(server[..]))).port == if colon then PortText(Text(server[portAt..])) else NoPort
  {
    ghost var b, s := server[..], Text(server[..]);
    assert b[|s|] == NUL;
    var end := Scan(server, {':'});
    colon, portAt := server[end] == ':', end + 1;
    CutAt(server, end);
    if colon {
      PortStands(b, server[..], end);
      assert server[portAt..] == server[..][portAt..];
    }
  }

  /** parse_admin_server_port: a port is returned exactly when the mask bit is set. */
  method ParseAdminServerPort(server: array<char>) returns (port: ConnInfo.Option<int>)
    requires Terminated(server[..])
    modifies server
    ensures Terminated(server[..]) && Text(server[..]) == AdminSplit(old(Text(server[..]))).host
    ensures port == match AdminSplit(old(Text(server[..]))).port
                    case NoPort => ConnInfo.None
                    case PortText(t) => ConnInfo.Some(ConnInfo.Atoi(t))
    ensures var s := old(Text(server[..]));
            port.Some? <==> if Plain(s) then ':' in s else ColonBehindBracket(s)
  {
    ghost var s := Text(server[..]);
    PortGivenIff(s);
    var colon: bool;
    var portAt: nat;
    var end := Scan(server, {']'});
    if server[0] == '[' && server[end] == ']' {
      assert s[0] == '[' && s[end] == ']';
      colon, portAt := CutBracketed(server, end);
    } else {
      assert !Bracketed(s);
      colon, portAt := CutPlain(server);
    }
    port := if colon then ConnInfo.Some(ConnInfo.Atoi(Text(server[portAt..]))) else ConnInfo.None;
  }
}
