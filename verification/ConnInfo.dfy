/** The record naming a client to the GCKS: printed by the KDC, cut to 1024 bytes,
    and taken apart again by the GCKS with strtok. */
module ConnInfo {
  import opened CStrings

  datatype Option<+T> = None | Some(value: T)

  /** What one record says: client name, client address, client port, group name. */
  datatype Info = Info(name: string, addr: string, port: int, group: string)

  const SEPARATOR: char := '|'
  const RECORD_SIZE: nat := 1024

  // ---------- numbers in text ----------

  function Digit(d: nat): char
    requires d < 10
  {
    ('0' as int + d) as char
  }

  predicate IsDigit(c: char) {
    '0' <= c <= '9'
  }

  function Digits(n: nat): (s: string)
    ensures s != ""
    ensures forall k :: 0 <= k < |s| ==> IsDigit(s[k])
  {
    if n < 10 then [Digit(n)] else Digits(n / 10) + [Digit(n % 10)]
  }

  /** The %d conversion. */
  function Decimal(n: int): (s: string)
    ensures s != "" && SEPARATOR !in s && NUL !in s
  {
    if n < 0 then "-" + Digits(-n) else Digits(n)
  }

  /** The digit loop of atoi: acc is the value read so far. */
  function ReadDigits(s: string, acc: int): int {
    if s != "" && IsDigit(s[0]) then
      ReadDigits(s[1..], acc * 10 + (s[0] as int - '0' as int))
    else acc
  }

  predicate IsBlank(c: char) {
    c == ' ' || '\t' <= c <= '\r'
  }

  /** atoi, on unbounded integers: blanks, one sign, then digits up to the first other character. */
  function Atoi(s: string): int {
    if s == "" then 0
    else if IsBlank(s[0]) then Atoi(s[1..])
    else if s[0] == '-' then -ReadDigits(s[1..], 0)
    else if s[0] == '+' then ReadDigits(s[1..], 0)
    else ReadDigits(s, 0)
  }

  lemma {:induction false} ReadDigitsOfDigits(n: nat, rest: string)
    ensures ReadDigits(Digits(n) + rest, 0) == ReadDigits(rest, n)
    decreases n
  {
    var last := [Digit(n % 10)];
    if n < 10 {
      assert (last + rest)[1..] == rest;
    } else {
      assert Digits(n) + rest == Digits(n / 10) + (last + rest);
      ReadDigitsOfDigits(n / 10, last + rest);
      assert (last + rest)[1..] == rest;
    }
  }

  /** Reading a printed port gives the port back, whatever its sign. */
  lemma AtoiOfDecimal(n: int)
    ensures Atoi(Decimal(n)) == n
  {
    var m: nat := if n < 0 then -n else n;
    ReadDigitsOfDigits(m, "");
    assert Digits(m) + "" == Digits(m);
    if n < 0 {
      assert Decimal(n)[1..] == Digits(m);
    }
  }

  /** Numbers are printed without leading zeros. */
  lemma {:induction false} NoLeadingZero(n: nat)
    ensures Digits(n)[0] == '0' <==> n == 0
    ensures |Digits(n)| > 1 <==> n >= 10
    decreases n
  {
    if n >= 10 {
      NoLeadingZero(n / 10);
      assert Digits(n)[0] == Digits(n / 10)[0];
    }
  }

  /** A number is read up to the first character that is not a digit. */
  lemma AtoiReads(n: nat, rest: string)
    requires rest == "" || !IsDigit(rest[0])
    ensures Atoi(Digits(n) + rest) == n
  {
    ReadDigitsOfDigits(n, rest);
    assert (Digits(n) + rest)[0] == Digits(n)[0];
  }

  /** Blanks and one sign may stand in front of it. */
  lemma AtoiPrefix(c: char, s: string)
    ensures c in " \t\n\r" ==> Atoi([c] + s) == Atoi(s)
    ensures s != "" && IsDigit(s[0]) ==> Atoi("+" + s) == Atoi(s) && Atoi("-" + s) == -Atoi(s)
  {
    assert ([c] + s)[1..] == s && ("+" + s)[1..] == s && ("-" + s)[1..] == s;
  }

  /** Without digits in front there is no number, and 0 is read. */
  lemma AtoiOfOther(s: string)
    requires s == "" || (!IsDigit(s[0]) && !IsBlank(s[0]) && s[0] != '-' && s[0] != '+')
    ensures Atoi(s) == 0
  {
  }

  // ---------- printing ----------

  /** Everything before the group name. */
  function Header(i: Info): string {
    i.name + [SEPARATOR] + i.addr + [SEPARATOR] + Decimal(i.port) + [SEPARATOR]
  }

  function Record(i: Info): string {
    Header(i) + i.group + [SEPARATOR]
  }

  /** snprintf keeps at most RECORD_SIZE - 1 characters. */
  function Printed(i: Info): (s: string)
    ensures s <= Record(i) && |s| < RECORD_SIZE
  {
    if |Record(i)| < RECORD_SIZE then Record(i) else Record(i)[..RECORD_SIZE - 1]
  }

  // ---------- splitting ----------

  datatype Scan = NoToken | Token(text: string, rest: string)

  /** One strtok step on "|": leading separators are skipped, so no token is ever empty. */
  function NextToken(s: string): (t: Scan)
    ensures t.Token? ==> |t.rest| < |s|
  {
    Cut(s[Lead(s, {SEPARATOR})..])
  }

  /** The token that starts at the head of s. */
  function Cut(s: string): (t: Scan)
    requires s != "" ==> s[0] != SEPARATOR
    ensures t.Token? ==> |t.rest| < |s|
  {
    var n := Span(s, {SEPARATOR});
    if s == "" then NoToken
    else Token(s[..n], if n < |s| then s[n + 1..] else "")
  }

  /** Every token strtok would return, in order. */
  function Tokens(s: string): seq<string>
    decreases |s|
  {
    match NextToken(s)
    case NoToken => []
    case Token(t, rest) => [t] + Tokens(rest)
  }

  /** Four tokens, the third read as a number. None where the GCKS would pass a null token to strlen. */
  function Parse(s: string): Option<Info> {
    var ts := Tokens(s);
    if |ts| < 4 then None else Some(Info(ts[0], ts[1], Atoi(ts[2]), ts[3]))
  }

  predicate GoodField(s: string) {
    s != "" && SEPARATOR !in s
  }

  predicate GoodHeader(i: Info) {
    GoodField(i.name) && GoodField(i.addr)
  }

  predicate GoodInfo(i: Info) {
    GoodHeader(i) && GoodField(i.group)
  }

  function Field(f: string, rest: string): string {
    f + [SEPARATOR] + rest
  }

  lemma NoLead(s: string)
    requires s == "" || s[0] != SEPARATOR
    ensures NextToken(s) == Cut(s)
  {
    assert Lead(s, {SEPARATOR}) == 0;
    assert s[0..] == s;
  }

  lemma TokenThenSeparator(t: string, rest: string)
    requires GoodField(t)
    ensures NextToken(Field(t, rest)) == Token(t, rest)
    ensures Tokens(Field(t, rest)) == [t] + Tokens(rest)
  {
    var s := Field(t, rest);
    NoLead(s);
    SpanIs(s, {SEPARATOR}, |t|);
    assert s[..|t|] == t && s[|t| + 1..] == rest;
  }

  lemma NoTokens()
    ensures NextToken("") == NoToken && Tokens("") == []
  {
    NoLead("");
  }

  lemma LastToken(t: string)
    requires GoodField(t)
    ensures NextToken(t) == Token(t, "")
    ensures Tokens(t) == [t]
  {
    NoLead(t);
    SpanIs(t, {SEPARATOR}, |t|);
    NoTokens();
  }

  lemma HeaderThen(i: Info, tail: string)
    ensures Header(i) + tail == Field(i.name, Field(i.addr, Field(Decimal(i.port), tail)))
  {
  }

  lemma FieldTokens(i: Info, tail: string)
    requires GoodHeader(i)
    ensures Tokens(Field(i.name, Field(i.addr, Field(Decimal(i.port), tail))))
            == [i.name] + ([i.addr] + ([Decimal(i.port)] + Tokens(tail)))
  {
    var d := Decimal(i.port);
    TokenThenSeparator(i.name, Field(i.addr, Field(d, tail)));
    TokenThenSeparator(i.addr, Field(d, tail));
    TokenThenSeparator(d, tail);
  }

  lemma ParseAfterHeader(i: Info, tail: string)
    requires GoodHeader(i) && Tokens(tail) != []
    ensures Parse(Header(i) + tail) == Some(i.(group := Tokens(tail)[0]))
  {
    HeaderThen(i, tail);
    FieldTokens(i, tail);
    AtoiOfDecimal(i.port);
  }

  /** Separators in front are skipped. */
  lemma SkipsSeparator(s: string)
    ensures Tokens([SEPARATOR] + s) == Tokens(s)
  {
    var t := [SEPARATOR] + s;
    assert t[1..] == s;
    assert Lead(t, {SEPARATOR}) == 1 + Lead(s, {SEPARATOR});
    assert t[1 + Lead(s, {SEPARATOR})..] == s[Lead(s, {SEPARATOR})..];
  }

  /** Four fields are read in this order, and whatever follows them is ignored. */
  lemma ParseTakesFour(name: string, addr: string, port: string, group: string, tail: string)
    requires GoodField(name) && GoodField(addr) && GoodField(port) && GoodField(group)
    ensures Parse(name + "|" + (addr + "|" + (port + "|" + (group + "|" + tail)))) == Some(Info(name, addr, Atoi(port), group))
  {
    var s3 := Field(group, tail);
    var s2 := Field(port, s3);
    var s1 := Field(addr, s2);
    TokenThenSeparator(name, s1);
    TokenThenSeparator(addr, s2);
    TokenThenSeparator(port, s3);
    TokenThenSeparator(group, tail);
    assert Tokens(Field(name, s1)) == [name] + ([addr] + ([port] + ([group] + Tokens(tail))));
  }

  // ---------- cutting inside the header ----------

  function Join(fields: seq<string>): string {
    if fields == [] then "" else Field(fields[0], Join(fields[1..]))
  }

  /** A prefix of n separated fields never splits into more than n tokens. */
  lemma {:induction false} PrefixTokens(fields: seq<string>, cut: string)
    requires forall f :: f in fields ==> GoodField(f)
    requires cut <= Join(fields)
    ensures |Tokens(cut)| <= |fields|
    decreases |fields|
  {
    if fields == [] || cut == "" {
    } else {
      var f, rest := fields[0], Join(fields[1..]);
      assert Join(fields) == Field(f, rest);
      if |cut| <= |f| {
        assert cut == f[..|cut|] && f in fields;
        LastToken(cut);
      } else {
        var more := cut[|f| + 1..];
        assert cut == Field(f, more);
        assert more == rest[..|more|];
        TokenThenSeparator(f, more);
        PrefixTokens(fields[1..], more);
      }
    }
  }

  lemma HeaderIsJoin(i: Info)
    ensures Header(i) == Join([i.name, i.addr, Decimal(i.port)])
  {
    var d := Decimal(i.port);
    assert [i.name, i.addr, d][1..] == [i.addr, d];
    assert [i.addr, d][1..] == [d];
    assert [d][1..] == [];
    assert Join([]) == "";
    assert Join([d]) == Field(d, "");
    assert Join([i.addr, d]) == Field(i.addr, Join([d]));
    HeaderThen(i, "");
    assert Header(i) + "" == Header(i);
  }

  // ---------- what survives the trip ----------

  lemma PrintedWhole(i: Info)
    requires |Header(i)| + |i.group| + 1 < RECORD_SIZE
    ensures Printed(i) == Header(i) + Field(i.group, "")
  {
    assert Field(i.group, "") == i.group + [SEPARATOR];
  }

  lemma PrintedCut(i: Info, room: nat)
    requires |Header(i)| + room == RECORD_SIZE - 1 && room <= |i.group|
    ensures Printed(i) == Header(i) + i.group[..room]
  {
    assert Record(i) == Header(i) + (i.group + [SEPARATOR]);
    assert |Record(i)| >= RECORD_SIZE;
  }

  /** What the GCKS can recover of a record: everything but the part of the group name that was cut. */
  function Surviving(i: Info): Option<Info> {
    var room := RECORD_SIZE - 1 - |Header(i)|;
    if room <= 0 then None
    else if |i.group| <= room then Some(i)
    else Some(i.(group := i.group[..room]))
  }

  lemma NoRoomForGroup(i: Info)
    requires GoodHeader(i) && |Header(i)| >= RECORD_SIZE - 1
    ensures Parse(Printed(i)) == None
  {
    assert Printed(i) == Header(i)[..RECORD_SIZE - 1];
    HeaderIsJoin(i);
    PrefixTokens([i.name, i.addr, Decimal(i.port)], Printed(i));
  }

  lemma WholeGroup(i: Info)
    requires GoodInfo(i) && |Header(i)| + |i.group| + 1 < RECORD_SIZE
    ensures Parse(Printed(i)) == Some(i)
  {
    PrintedWhole(i);
    TokenThenSeparator(i.group, "");
    ParseAfterHeader(i, Field(i.group, ""));
  }

  lemma CutGroup(i: Info, room: nat)
    requires GoodInfo(i) && |Header(i)| + room == RECORD_SIZE - 1 && 0 < room <= |i.group|
    ensures Parse(Printed(i)) == Some(i.(group := i.group[..room]))
  {
    var g := i.group[..room];
    PrintedCut(i, room);
    assert GoodField(g);
    LastToken(g);
    ParseAfterHeader(i, g);
  }

  /** The complete law for records whose fields are non-empty and free of separators: with room for
      at least one byte of the group, the first three fields are exact and the group is the
      prefix that fitted; with none, the GCKS runs out of tokens. */
  lemma PrintedThenParsed(i: Info)
    requires GoodInfo(i)
    ensures Parse(Printed(i)) == Surviving(i)
  {
    var room := RECORD_SIZE - 1 - |Header(i)|;
    if room <= 0 {
      NoRoomForGroup(i);
    } else if |i.group| < room {
      WholeGroup(i);
    } else {
      CutGroup(i, room);
      assert |i.group| == room ==> i.group[..room] == i.group;
    }
  }

  lemma {:induction false} TokensAreGood(s: string)
    ensures forall k :: 0 <= k < |Tokens(s)| ==> GoodField(Tokens(s)[k])
    decreases |s|
  {
    if NextToken(s).Token? {
      TokensAreGood(NextToken(s).rest);
    }
  }

  lemma ParsedFieldsAreGood(s: string)
    ensures Parse(s).Some? ==> GoodInfo(Parse(s).value)
  {
    TokensAreGood(s);
  }

  /** The record returns exactly the fields printed into it if and only if they are non-empty,
      hold no separator, and fit. */
  lemma RoundTrip(i: Info)
    ensures Parse(Printed(i)) == Some(i) <==> GoodInfo(i) && |Header(i)| + |i.group| < RECORD_SIZE
  {
    if GoodInfo(i) {
      PrintedThenParsed(i);
    } else {
      ParsedFieldsAreGood(Printed(i));
    }
  }

  // ---------- the two ends, on buffers ----------

  /** The KDC's snprintf into a 1024-byte buffer. */
  method PrintRecord(i: Info, buf: array<char>)
    requires buf.Length == RECORD_SIZE
    requires NUL !in i.name && NUL !in i.addr && NUL !in i.group
    modifies buf
    ensures Terminated(buf[..]) && Text(buf[..]) == Printed(i)
    ensures var text := i.name + "|" + i.addr + "|" + Decimal(i.port) + "|" + i.group + "|";
            Text(buf[..]) == if |text| <= 1023 then text else text[..1023]
  {
    var s := Printed(i);
    Store(buf, 0, s + [NUL]);
    TextOf(s, old(buf[|s| + 1..]));
    assert buf[..] == s + [NUL] + old(buf[|s| + 1..]);
  }

  lemma TextFrom(b: seq<char>, k: nat)
    requires Terminated(b) && k <= |b| && forall j :: 0 <= j < k ==> b[j] != NUL
    ensures Terminated(b[k..]) && k <= |Text(b)| && Text(b[k..]) == Text(b)[k..]
    ensures forall j :: 0 <= j < k ==> Text(b)[j] == b[j]
  {
    var n := Span(b, {NUL});
    assert b[k..][n - k] == NUL;
    SpanIs(b[k..], {NUL}, n - k);
  }

  /** A terminator is still ahead. */
  predicate Open(buf: seq<char>, pos: nat) {
    pos <= |buf| && Terminated(buf[pos..])
  }

  /** The buffer from pos on, as strtok sees it. */
  function Pending(buf: seq<char>, pos: nat): string
    requires pos <= |buf|
  {
    Text(buf[pos..])
  }

  lemma OpenFurther(buf: seq<char>, pos: nat)
    requires Open(buf, pos)
    ensures pos < |buf|
    ensures buf[pos] != NUL ==> Open(buf, pos + 1)
  {
    assert buf[pos..] == [buf[pos]] + buf[pos + 1..];
  }

  /** strspn: past the leading separators. */
  method SkipSeparators(buf: array<char>, pos: nat) returns (start: nat)
    requires Open(buf[..], pos)
    ensures pos <= start < buf.Length && buf[start] != SEPARATOR && Open(buf[..], start)
    ensures forall k :: pos <= k < start ==> buf[k] == SEPARATOR
  {
    start := pos;
    OpenFurther(buf[..], pos);
    while buf[start] == SEPARATOR
      invariant pos <= start < buf.Length && Open(buf[..], start)
      invariant forall k :: pos <= k < start ==> buf[k] == SEPARATOR
      decreases buf.Length - start
    {
      OpenFurther(buf[..], start);
      start := start + 1;
      OpenFurther(buf[..], start);
    }
  }

  /** strcspn: to the separator or terminator that ends the token. */
  method TokenEnd(buf: array<char>, start: nat) returns (end: nat)
    requires Open(buf[..], start)
    ensures start <= end < buf.Length && (buf[end] == SEPARATOR || buf[end] == NUL)
    ensures forall k :: start <= k < end ==> buf[k] != SEPARATOR && buf[k] != NUL
  {
    end := start;
    OpenFurther(buf[..], start);
    while buf[end] != SEPARATOR && buf[end] != NUL
      invariant start <= end < buf.Length && Open(buf[..], end)
      invariant forall k :: start <= k < end ==> buf[k] != SEPARATOR && buf[k] != NUL
      decreases buf.Length - end
    {
      OpenFurther(buf[..], end);
      end := end + 1;
      OpenFurther(buf[..], end);
    }
  }

  /** A step of strtok from pos: the token, if any, lies between leading separators and the separator
      or terminator that ends it, and only that separator is overwritten. */
  ghost predicate Stepped(before: seq<char>, after: seq<char>, pos: nat, start: nat, end: nat, next: nat) {
    && pos <= start <= end < |before| && next <= |before|
    && (forall k :: pos <= k < start ==> before[k] == SEPARATOR)
    && (forall k :: start <= k < end ==> before[k] != SEPARATOR && before[k] != NUL)
    && (if before[end] == SEPARATOR then start < end && next == end + 1 && after == before[end := NUL]
        else before[end] == NUL && next == end && after == before)
  }

  /** strtok on a buffer. */
  method StrTok(buf: array<char>, pos: nat) returns (token: Option<string>, next: nat, ghost start: nat, ghost end: nat)
    requires Open(buf[..], pos)
    modifies buf
    ensures Stepped(old(buf[..]), buf[..], pos, start, end, next)
    ensures token == if start == end then None else Some(old(buf[..])[start..end])
  {
    var first := SkipSeparators(buf, pos);
    start := first;
    if buf[first] == NUL {
      end := first;
      return None, first, start, end;
    }
    var last := TokenEnd(buf, first);
    end := last;
    token, next := Some(buf[first..last]), last;
    if buf[last] == SEPARATOR {
      next := last + 1;
      buf[last] := NUL;
    }
  }

  /** Without a terminator in between, moving on in the buffer is moving on in its text. */
  lemma PendingFrom(buf: seq<char>, pos: nat, q: nat)
    requires Open(buf, pos) && pos <= q <= |buf|
    requires forall j :: pos <= j < q ==> buf[j] != NUL
    ensures Open(buf, q) && q - pos <= |Pending(buf, pos)|
    ensures Pending(buf, q) == Pending(buf, pos)[q - pos..]
    ensures forall j :: 0 <= j < q - pos ==> Pending(buf, pos)[j] == buf[pos + j]
  {
    var b := buf[pos..];
    assert b[q - pos..] == buf[q..];
    TextFrom(b, q - pos);
  }

  /** s[k..m] is the first token of s, or all of s is separators and k == m == |s|. */
  predicate FirstToken(s: string, k: nat, m: nat) {
    k == Lead(s, {SEPARATOR}) && m == k + Span(s[k..], {SEPARATOR})
  }

  lemma FirstTokenIs(s: string, k: nat, m: nat)
    requires k <= m <= |s| && (m < |s| ==> k < m && s[m] == SEPARATOR)
    requires forall j :: 0 <= j < k ==> s[j] == SEPARATOR
    requires forall j :: k <= j < m ==> s[j] != SEPARATOR
    ensures FirstToken(s, k, m)
  {
    LeadIs(s, {SEPARATOR}, k);
    SpanIs(s[k..], {SEPARATOR}, m - k);
  }

  function Behind(s: string, m: nat): string
    requires m <= |s|
  {
    if m < |s| then s[m + 1..] else ""
  }

  lemma TokenInText(s: string, k: nat, m: nat)
    requires FirstToken(s, k, m)
    ensures NextToken(s) == if k == m then NoToken else Token(s[k..m], Behind(s, m))
  {
    var t := s[k..];
    assert t[..m - k] == s[k..m];
    assert m < |s| ==> t[m - k + 1..] == s[m + 1..];
  }

  lemma SliceShift(s: string, buf: seq<char>, pos: nat, k: nat, m: nat)
    requires k <= m <= |s| && pos + m <= |buf|
    requires forall j :: 0 <= j < m ==> s[j] == buf[pos + j]
    ensures s[k..m] == buf[pos + k..pos + m]
  {
  }

  /** The text ahead, character by character, up to where a step ends. */
  lemma PendingUpTo(buf: seq<char>, pos: nat, end: nat)
    requires Open(buf, pos) && pos <= end < |buf| && (buf[end] == NUL || buf[end] == SEPARATOR)
    requires forall j :: pos <= j < end ==> buf[j] != NUL
    ensures var s := Pending(buf, pos);
            && end - pos <= |s| && (forall j :: 0 <= j < end - pos ==> s[j] == buf[pos + j])
            && if buf[end] == NUL then |s| == end - pos && Open(buf, end) && Pending(buf, end) == ""
               else end - pos < |s| && s[end - pos] == SEPARATOR
                    && Open(buf, end + 1) && Pending(buf, end + 1) == s[end - pos + 1..]
  {
    var s := Pending(buf, pos);
    PendingFrom(buf, pos, end);
    if buf[end] == NUL {
      assert Pending(buf, end) == "";
    } else {
      PendingFrom(buf, pos, end + 1);
    }
  }

  /** A step on the buffer delimits the first token of the text ahead. */
  lemma StepInText(before: seq<char>, after: seq<char>, pos: nat, start: nat, end: nat, next: nat)
    requires Open(before, pos) && Stepped(before, after, pos, start, end, next)
    ensures FirstToken(Pending(before, pos), start - pos, end - pos)
    ensures Pending(before, pos)[start - pos..end - pos] == before[start..end]
  {
    var s, k, m := Pending(before, pos), start - pos, end - pos;
    PendingUpTo(before, pos, end);
    SliceShift(s, before, pos, k, m);
    forall j | k <= j < m
      ensures s[j] != SEPARATOR
    {
      assert s[j] == before[pos + j];
    }
    FirstTokenIs(s, k, m);
  }

  /** The overwritten separator lies behind next: the text still ahead is untouched. */
  lemma StepLeaves(before: seq<char>, after: seq<char>, pos: nat, start: nat, end: nat, next: nat)
    requires Open(before, pos) && Stepped(before, after, pos, start, end, next) && start < end
    ensures end - pos <= |Pending(before, pos)|
    ensures Open(after, next) && Pending(after, next) == Behind(Pending(before, pos), end - pos)
  {
    PendingUpTo(before, pos, end);
    assert after[next..] == before[next..];
  }

  lemma ScanOf(s: string, k: nat, m: nat, token: string, ahead: string)
    requires FirstToken(s, k, m) && k <= m <= |s| && s[k..m] == token && (k < m ==> ahead == Behind(s, m))
    ensures NextToken(s) == if k == m then NoToken else Token(token, ahead)
  {
    TokenInText(s, k, m);
  }

  /** What a step on the buffer means: it returns the next token, and what is left is left to scan. */
  lemma StepScans(before: seq<char>, after: seq<char>, pos: nat, start: nat, end: nat, next: nat, token: string)
    requires Open(before, pos) && Stepped(before, after, pos, start, end, next) && token == before[start..end]
    ensures if start == end then NextToken(Pending(before, pos)) == NoToken
            else Open(after, next) && NextToken(Pending(before, pos)) == Token(token, Pending(after, next))
  {
    StepInText(before, after, pos, start, end, next);
    if start < end {
      StepLeaves(before, after, pos, start, end, next);
      ScanOf(Pending(before, pos), start - pos, end - pos, token, Pending(after, next));
    } else {
      ScanOf(Pending(before, pos), start - pos, end - pos, token, "");
    }
  }

  lemma TokensAfter(s: string, t: string, rest: string)
    requires NextToken(s) == Token(t, rest)
    ensures Tokens(s) == [t] + Tokens(rest)
  {
  }

  /** The next of the tokens ts still to come. */
  method TakeToken(buf: array<char>, pos: nat, ghost ts: seq<string>) returns (token: Option<string>, next: nat)
    requires Open(buf[..], pos) && Tokens(Pending(buf[..], pos)) == ts
    modifies buf
    ensures if token == None then ts == []
            else ts != [] && token.value == ts[0]
                 && Open(buf[..], next) && Tokens(Pending(buf[..], next)) == ts[1..]
  {
    ghost var before := buf[..];
    ghost var start, end;
    token, next, start, end := StrTok(buf, pos);
    StepScans(before, buf[..], pos, start, end, next, before[start..end]);
    if token.Some? {
      TokensAfter(Pending(before, pos), token.value, Pending(buf[..], next));
    }
  }

  /** The GCKS's destructive split of the record it received. */
  method ParseRecord(buf: array<char>) returns (info: Option<Info>)
    requires Terminated(buf[..])
    modifies buf
    ensures info == Parse(old(Text(buf[..])))
  {
    assert buf[..][0..] == buf[..];
    ghost var ts := Tokens(Pending(buf[..], 0));
    var name, p1 := TakeToken(buf, 0, ts);
    if name == None { return None; }
    var addr, p2 := TakeToken(buf, p1, ts[1..]);
    if addr == None { return None; }
    var port, p3 := TakeToken(buf, p2, ts[1..][1..]);
    if port == None { return None; }
    var group, _ := TakeToken(buf, p3, ts[1..][1..][1..]);
    if group == None { return None; }
    return Some(Info(name.value, addr.value, Atoi(port.value), group.value));
  }
}
