/** The measuring loops of the test programs: one client run per assignment, a log that each run
    appends to, rejection of the last line with a retry, and the total read back from the log. */
module SampleLog {
  import Elapsed
  import opened Counting
  import Rotation
  import Shuffle

  /** What one client run does: client_exec fails, or the run leaves the log alone, or appends. */
  datatype Outcome = Failed | Silent | Line(v: int)

  /** The log file, one reading a line. */
  class TimeLog {
    var lines: seq<int>

    constructor ()
      ensures lines == []
    {
      lines := [];
    }

    method Append(v: int)
      modifies this
      ensures lines == old(lines) + [v]
    {
      lines := lines + [v];
    }

    /** tail -n1 and atol; LONG_MAX when there is no line. */
    method LastValue() returns (v: int)
      ensures v == if lines == [] then Elapsed.LONG_MAX else lines[|lines| - 1]
    {
      v := if lines == [] then Elapsed.LONG_MAX else lines[|lines| - 1];
    }

    /** sed '$d'. */
    method DeleteLast()
      modifies this
      ensures if old(lines) == [] then lines == [] else lines + [old(lines)[|old(lines)| - 1]] == old(lines)
    {
      if lines != [] {
        lines := lines[..|lines| - 1];
      }
    }
  }

  // ---------- what the log should hold ----------

  /** The readings in range, in order. */
  function Kept(os: seq<Outcome>): seq<int> {
    if os == [] then []
    else
      var last := os[|os| - 1];
      Kept(os[..|os| - 1]) + if last.Line? && Elapsed.InRange(last.v) then [last.v] else []
  }

  /** Is the last run accepted? A silent run is judged by the line before it. */
  predicate AcceptsLast(os: seq<Outcome>)
    requires os != []
  {
    match os[|os| - 1]
    case Failed => false
    case Silent => Kept(os[..|os| - 1]) != []
    case Line(v) => Elapsed.InRange(v)
  }

  function Accepted(os: seq<Outcome>): nat {
    if os == [] then 0 else Accepted(os[..|os| - 1]) + if AcceptsLast(os) then 1 else 0
  }

  /** Accepted runs that left no line of their own. */
  function Unlogged(os: seq<Outcome>): nat {
    if os == [] then 0
    else Unlogged(os[..|os| - 1]) + if os[|os| - 1].Silent? && AcceptsLast(os) then 1 else 0
  }

  lemma {:induction false} KeptInRange(os: seq<Outcome>)
    ensures forall k :: 0 <= k < |Kept(os)| ==> Elapsed.InRange(Kept(os)[k])
    decreases |os|
  {
    if os != [] {
      KeptInRange(os[..|os| - 1]);
    }
  }

  /** Every accepted run has its line, but for the silent ones. */
  lemma {:induction false} LinesAndRuns(os: seq<Outcome>)
    ensures |Kept(os)| + Unlogged(os) == Accepted(os)
    ensures Silent !in os ==> Unlogged(os) == 0
    decreases |os|
  {
    if os != [] {
      LinesAndRuns(os[..|os| - 1]);
    }
  }

  function Sum(vs: seq<int>): int {
    if vs == [] then 0 else Sum(vs[..|vs| - 1]) + vs[|vs| - 1]
  }

  lemma {:induction false} SumAdds(us: seq<int>, vs: seq<int>)
    ensures Sum(us + vs) == Sum(us) + Sum(vs)
    decreases |vs|
  {
    if vs == [] {
      assert us + vs == us;
    } else {
      SumAdds(us, vs[..|vs| - 1]);
      assert (us + vs)[..|us + vs| - 1] == us + vs[..|vs| - 1];
    }
  }

  lemma SumOfOne(v: int)
    ensures Sum([v]) == v
  {
    assert Sum([v][..0]) == 0;
  }

  lemma {:induction false} SumBounds(vs: seq<int>)
    requires forall k :: 0 <= k < |vs| ==> Elapsed.InRange(vs[k])
    ensures 0 <= Sum(vs) <= 100 * |vs|
    decreases |vs|
  {
    if vs != [] {
      SumBounds(vs[..|vs| - 1]);
    }
  }

  // ---------- the loops ----------

  /** What one more run that does not fail adds. */
  lemma OneMoreRun(os: seq<Outcome>, n: nat)
    requires n < |os| && !os[n].Failed? && Failed !in os[..n]
    ensures var past, now, run := os[..n], os[..n + 1], os[n];
            && Failed !in now
            && (forall k :: 0 <= k < |Kept(past)| ==> Elapsed.InRange(Kept(past)[k]))
            && AcceptsLast(now) == (if run.Line? then Elapsed.InRange(run.v) else Kept(past) != [])
            && Kept(now) == Kept(past) + (if run.Line? && AcceptsLast(now) then [run.v] else [])
            && Accepted(now) == Accepted(past) + if AcceptsLast(now) then 1 else 0
  {
    var now := os[..n + 1];
    assert now == os[..n] + [os[n]];
    assert now[..|now| - 1] == os[..n];
    KeptInRange(os[..n]);
  }

  lemma OffTheEnd(before: seq<int>, after: seq<int>)
    requires before != [] && after + [before[|before| - 1]] == before
    ensures after == before[..|before| - 1]
  {
  }

  datatype Status = Complete | Aborted | Starved

  /** The loop over one client's assignments. outcomes lists what the client runs will do; runs of
      them are behind us. */
  method MeasureClient(log: TimeLog, perClient: nat, outcomes: seq<Outcome>, runs: nat)
    returns (status: Status, after: nat)
    requires runs <= |outcomes| && log.lines == Kept(outcomes[..runs]) && Failed !in outcomes[..runs]
    modifies log
    ensures runs <= after <= |outcomes| && log.lines == Kept(outcomes[..after]) && Failed !in outcomes[..after]
    ensures status.Complete? ==> Accepted(outcomes[..after]) == Accepted(outcomes[..runs]) + perClient
    ensures status.Complete? ==>
              if perClient == 0 then after == runs else after > runs && AcceptsLast(outcomes[..after])
    ensures Accepted(outcomes[..after]) >= Accepted(outcomes[..runs])
    ensures !status.Complete? ==> Accepted(outcomes[..after]) < Accepted(outcomes[..runs]) + perClient
    ensures status.Starved? ==> after == |outcomes|
    ensures status.Aborted? ==> after < |outcomes| && outcomes[after] == Failed
  {
    after := runs;
    var j := 1;
    while j <= perClient
      invariant 1 <= j <= perClient + 1 && runs <= after <= |outcomes|
      invariant log.lines == Kept(outcomes[..after]) && Failed !in outcomes[..after]
      invariant Accepted(outcomes[..after]) == Accepted(outcomes[..runs]) + (j - 1)
      invariant j == perClient + 1 ==>
                  if perClient == 0 then after == runs else after > runs && AcceptsLast(outcomes[..after])
      decreases |outcomes| - after, perClient - j
    {
      if after == |outcomes| {
        return Starved, after;
      }
      var run := outcomes[after];
      if run.Failed? {
        return Aborted, after;
      }
      OneMoreRun(outcomes, after);
      if run.Line? {
        log.Append(run.v);
      }
      var last := log.LastValue();
      if last > 100 || last < 0 {
        ghost var lines := log.lines;
        log.DeleteLast();
        if lines != [] {
          OffTheEnd(lines, log.lines);
        }
        j := j - 1;
      }
      after := after + 1;
      j := j + 1;
    }
    return Complete, after;
  }

  /** Reading the log back: at most so many lines are added up. */
  method Total(log: TimeLog, count: nat) returns (total: int)
    ensures total == Sum(if count <= |log.lines| then log.lines[..count] else log.lines)
  {
    total := 0;
    var read := 0;
    for line := 0 to count
      invariant read == (if line < |log.lines| then line else |log.lines|)
      invariant total == Sum(log.lines[..read])
    {
      if read < |log.lines| {
        total := total + log.lines[read];
        SumAdds(log.lines[..read], [log.lines[read]]);
        SumOfOne(log.lines[read]);
        assert log.lines[..read + 1] == log.lines[..read] + [log.lines[read]];
        read := read + 1;
      }
    }
    assert log.lines[..|log.lines|] == log.lines;
  }

  /** The whole test: every client in turn, then the total of the first clients * perClient lines. At
      the end the log holds the readings in range, in the order of the runs that made them: one line for
      each accepted run, if none was silent. The total is the sum of all of it. */
  method RunTest(log: TimeLog, clients: nat, perClient: nat, outcomes: seq<Outcome>)
    returns (status: Status, runs: nat, total: int)
    requires log.lines == []
    modifies log
    ensures runs <= |outcomes| && log.lines == Kept(outcomes[..runs]) && Failed !in outcomes[..runs]
    ensures |log.lines| + Unlogged(outcomes[..runs]) == Accepted(outcomes[..runs])
    ensures Silent !in outcomes[..runs] ==> |log.lines| == Accepted(outcomes[..runs])
    ensures !status.Complete? ==> Accepted(outcomes[..runs]) < clients * perClient
    ensures status.Starved? ==> runs == |outcomes|
    ensures status.Aborted? ==> runs < |outcomes| && outcomes[runs] == Failed
    ensures status.Complete? ==>
              && (runs > 0 ==> AcceptsLast(outcomes[..runs]))
              && Accepted(outcomes[..runs]) == clients * perClient
              && total == Sum(log.lines) && 0 <= total <= 100 * |log.lines|
  {
    status, runs, total := Complete, 0, 0;
    assert outcomes[..0] == [];
    for i := 0 to clients
      invariant runs <= |outcomes| && log.lines == Kept(outcomes[..runs]) && Failed !in outcomes[..runs]
      invariant Accepted(outcomes[..runs]) == i * perClient
      invariant runs > 0 ==> AcceptsLast(outcomes[..runs])
    {
      status, runs := MeasureClient(log, perClient, outcomes, runs);
      LinesAndRuns(outcomes[..runs]);
      ScaleUp(i + 1, clients, perClient);
      assert (i + 1) * perClient == i * perClient + perClient;
      if status != Complete {
        return;
      }
    }
    LinesAndRuns(outcomes[..runs]);
    assert log.lines[..|log.lines|] == log.lines;
    KeptInRange(outcomes[..runs]);
    SumBounds(log.lines);
    total := Total(log, clients * perClient);
    status := Complete;
  }

  // ---------- what the lines mean ----------

  /** A run that starts and ends at these times logs their difference. */
  function Reading(times: (Elapsed.Time, Elapsed.Time)): Outcome {
    Line(Elapsed.Logged(times.0, times.1))
  }

  function Readings(runs: seq<(Elapsed.Time, Elapsed.Time)>): (os: seq<Outcome>)
    ensures |os| == |runs| && forall k :: 0 <= k < |runs| ==> os[k] == Reading(runs[k])
  {
    if runs == [] then [] else Readings(runs[..|runs| - 1]) + [Reading(runs[|runs| - 1])]
  }

  predicate ValidRun(times: (Elapsed.Time, Elapsed.Time)) {
    Elapsed.ValidTime(times.0) && Elapsed.ValidTime(times.1)
  }

  function Milliseconds(times: (Elapsed.Time, Elapsed.Time)): int {
    Elapsed.True(times.0, times.1) / Elapsed.MILLISECOND
  }

  /** The run took at most 100 whole milliseconds and did not cross a second. */
  predicate Short(times: (Elapsed.Time, Elapsed.Time)) {
    !Elapsed.Borrows(times.0, times.1) && 0 <= Milliseconds(times) <= 100
  }

  /** The clock moved back, or on by SAFE or more, and the wrapped reading passes for a short one. */
  predicate WronglyKept(times: (Elapsed.Time, Elapsed.Time)) {
    && !Elapsed.Borrows(times.0, times.1) && Elapsed.LooksShort(times.0, times.1)
    && !(0 <= Elapsed.True(times.0, times.1) < Elapsed.SAFE)
  }

  /** The true times of the short runs. */
  function ShortRuns(runs: seq<(Elapsed.Time, Elapsed.Time)>): seq<int> {
    if runs == [] then []
    else
      var last := runs[|runs| - 1];
      ShortRuns(runs[..|runs| - 1]) + if Short(last) then [Milliseconds(last)] else []
  }

  function Wrong(runs: seq<(Elapsed.Time, Elapsed.Time)>): nat {
    if runs == [] then 0 else Wrong(runs[..|runs| - 1]) + if WronglyKept(runs[|runs| - 1]) then 1 else 0
  }

  /** A run is logged with its true time, or wrongly, or not at all. */
  lemma OneRun(times: (Elapsed.Time, Elapsed.Time))
    requires ValidRun(times)
    ensures var v := Elapsed.Logged(times.0, times.1);
            && (Elapsed.InRange(v) <==> Short(times) || WronglyKept(times))
            && !(Short(times) && WronglyKept(times))
            && (Short(times) ==> v == Milliseconds(times))
  {
    Elapsed.KeptIff(times.0, times.1);
    Elapsed.KeptExactlyIff(times.0, times.1);
    Elapsed.ExactIff(times.0, times.1);
  }

  lemma OneMoreReading(os: seq<Outcome>, v: int)
    ensures Kept(os + [Line(v)]) == Kept(os) + if Elapsed.InRange(v) then [v] else []
  {
    var now := os + [Line(v)];
    assert now[..|now| - 1] == os;
  }

  /** The log counts the short runs and the wrongly kept ones, and without the latter it is exact. */
  lemma {:induction false} LogOfRuns(runs: seq<(Elapsed.Time, Elapsed.Time)>)
    requires forall k :: 0 <= k < |runs| ==> ValidRun(runs[k])
    ensures |Kept(Readings(runs))| == |ShortRuns(runs)| + Wrong(runs)
    ensures Wrong(runs) == 0 ==> Kept(Readings(runs)) == ShortRuns(runs)
    decreases |runs|
  {
    if runs != [] {
      var front, last := runs[..|runs| - 1], runs[|runs| - 1];
      LogOfRuns(front);
      OneRun(last);
      OneMoreReading(Readings(front), Elapsed.Logged(last.0, last.1));
    }
  }

  lemma {:induction false} NoneWrong(runs: seq<(Elapsed.Time, Elapsed.Time)>)
    ensures Wrong(runs) == 0 <==> forall k :: 0 <= k < |runs| ==> !WronglyKept(runs[k])
    decreases |runs|
  {
    if runs != [] {
      var front := runs[..|runs| - 1];
      NoneWrong(front);
      assert forall k :: 0 <= k < |front| ==> front[k] == runs[k];
    }
  }

  /** The log holds the true milliseconds of the short runs that did not cross a second, all of them,
      in order, and nothing else, if and only if no run is wrongly kept. */
  lemma LogIsExactIff(runs: seq<(Elapsed.Time, Elapsed.Time)>)
    requires forall k :: 0 <= k < |runs| ==> ValidRun(runs[k])
    ensures Kept(Readings(runs)) == ShortRuns(runs) <==> forall k :: 0 <= k < |runs| ==> !WronglyKept(runs[k])
    ensures Unlogged(Readings(runs)) == 0
  {
    LogOfRuns(runs);
    NoneWrong(runs);
    ReadingsAreLines(runs);
    LinesAndRuns(Readings(runs));
  }

  lemma {:induction false} ReadingsAreLines(runs: seq<(Elapsed.Time, Elapsed.Time)>)
    ensures Silent !in Readings(runs)
    decreases |runs|
  {
    if runs != [] {
      ReadingsAreLines(runs[..|runs| - 1]);
    }
  }

  // ---------- who is measured with what ----------

  function From(lo: nat, n: nat): (s: seq<nat>)
    ensures Distinct(s)
  {
    seq(n, k requires 0 <= k < n => lo + k)
  }

  /** test1 and test3 before their measuring loops: fill an array, shuffle it, use its front. test1
      deals 3 of the groups 1..5 to each client, test3 group_size of the clients 0.. to each group. */
  method Deal(lo: nat, n: nat, size: nat, draws: seq<nat>, bound: nat) 
    returns (hand: seq<nat>, ghost start: seq<nat>, ghost dealt: seq<nat>, ghost offsets: seq<nat>, ghost steps: seq<seq<nat>>)
    requires size <= n && Shuffle.Random(n, draws, bound)
    ensures |hand| == size && Distinct(hand)
    ensures forall x :: x in hand ==> lo <= x < lo + n
    ensures |start| == |dealt| == n && Shuffle.Offsets(n, offsets, draws, bound)
    ensures Shuffle.Leads(steps, start, dealt, offsets)
    ensures (forall k :: 0 <= k < n ==> start[k] == lo + k) && hand == dealt[..size]
  {
    var a := new nat[n];
    for l := 0 to n
      invariant forall k :: 0 <= k < l ==> a[k] == lo + k
    {
      a[l] := lo + l;
    }
    assert a[..] == From(lo, n);
    start := a[..];
    offsets, steps := Shuffle.FisherYates(a, draws, bound);
    hand, dealt := a[..size], a[..];
    assert hand == a[..][..size];
    Shuffle.SelectionDistinct(From(lo, n), Shuffle.ChoicesOf(n, draws, bound), size);
  }

  /** test4's assignment loop. */
  method Assign(client: nat, perClient: nat, groups: nat) returns (row: seq<nat>)
    requires perClient <= groups && 0 < groups
    ensures row == Rotation.Row(client, perClient, groups) && Distinct(row)
    ensures forall g :: g in row ==> 1 <= g <= groups
    ensures row != [] ==> row[0] == client % groups + 1
    ensures forall k :: 0 <= k < |row| - 1 ==> row[k + 1] == if row[k] == groups then 1 else row[k] + 1
  {
    row := [];
    for j := 1 to perClient + 1
      invariant row == Rotation.Row(client, perClient, groups)[..j - 1]
    {
      row := row + [(client + j - 1) % groups + 1];
    }
    Rotation.RowDistinct(client, perClient, groups);
    Rotation.RowFollowsRing(client, perClient, groups);
  }
}
