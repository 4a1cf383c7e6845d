/** The failed-login counter kept in an LDAP directory by any number of KDCs. Each reads the entry,
    later sends one Modify (section 4.6 of RFC 4511; increment is RFC 4525), and may find that others
    modified it in between. */
module FailCount {

  /** One change of a Modify request on krbLoginFailedCount. */
  datatype Mod = Add(value: int) | Delete(value: int) | Increment(amount: int) | Replace(value: int)

  /** What a KDC read: was the attribute there, and the count (0 if it was not). */
  datatype Snapshot = Snapshot(present: bool, count: int)

  // ---------- the directory ----------

  datatype Outcome = Rejected | Stored(values: set<int>)

  function Plus(values: set<int>, amount: int): set<int> {
    set v | v in values :: v + amount
  }

  function ApplyMod(values: set<int>, m: Mod): Outcome {
    match m
    case Add(v) => if v in values then Rejected else Stored(values + {v})
    case Delete(v) => if v in values then Stored(values - {v}) else Rejected
    case Increment(n) => if values == {} then Rejected else Stored(Plus(values, n))
    case Replace(v) => Stored({v})
  }

  function ApplyMods(values: set<int>, ms: seq<Mod>): Outcome
    decreases |ms|
  {
    if ms == [] then Stored(values)
    else
      match ApplyMod(values, ms[0])
      case Rejected => Rejected
      case Stored(next) => ApplyMods(next, ms[1..])
  }

  /** One Modify: the changes are applied in order, all or none, and the result must conform to the
      schema, in which the attribute has a single value. */
  function Modify(values: set<int>, ms: seq<Mod>): Outcome {
    match ApplyMods(values, ms)
    case Rejected => Rejected
    case Stored(next) => if |next| <= 1 then Stored(next) else Rejected
  }

  ghost function Count(values: set<int>): int {
    if exists c :: c in values then var c :| c in values; c else 0
  }

  lemma CountOfOne(c: int)
    ensures Count({c}) == c
  {
  }

  lemma NoneOrOne(values: set<int>)
    requires |values| <= 1
    ensures values == {} || values == {Count(values)}
  {
    if exists c :: c in values {
      var c := Count(values);
      assert |values - {c}| == |values| - 1;
      assert values == {c};
    } else {
      assert values == {};
    }
  }

  // ---------- the request ----------

  /** The change list: an increment where library and server have it and the attribute was there;
      else the old value is deleted, if it was there, and its successor added. */
  function NewRequest(snap: Snapshot, incrementSupported: bool): seq<Mod> {
    if incrementSupported && snap.present then [Increment(1)]
    else if snap.present then [Delete(snap.count), Add(snap.count + 1)]
    else [Add(snap.count + 1)]
  }

  /** The request before the change: a count read as 0 was simply overwritten with 1. */
  function OldRequest(snap: Snapshot, incrementSupported: bool): seq<Mod> {
    if incrementSupported then [Increment(1)]
    else if snap.count == 0 then [Replace(1)]
    else [Delete(snap.count), Add(snap.count + 1)]
  }

  /** Which of the two a KDC sends. */
  datatype Version = Old | New

  function Request(version: Version, snap: Snapshot, inc: bool): seq<Mod> {
    if version == New then NewRequest(snap, inc) else OldRequest(snap, inc)
  }

  /** Against a stored count c, the list is accepted if it increments or its snapshot saw c, and then
      leaves c + 1. */
  predicate AddsOneTo(c: int, mods: seq<Mod>, snap: Snapshot, inc: bool) {
    Modify({c}, mods) == if snap.present && (inc || snap.count == c) then Stored({c + 1}) else Rejected
  }

  /** The list is built change by change. Sent to a directory without the attribute it is accepted only
      if the KDC read none, and then leaves one more than it read. */
  method BuildRequest(snap: Snapshot, incrementSupported: bool) returns (mods: seq<Mod>)
    ensures mods == NewRequest(snap, incrementSupported)
    ensures Modify({}, mods) == if snap.present then Rejected else Stored({snap.count + 1})
    ensures forall c :: AddsOneTo(c, mods, snap, incrementSupported)
  {
    mods := [];
    if incrementSupported && snap.present {
      mods := mods + [Increment(1)];
    } else {
      if snap.present {
        mods := mods + [Delete(snap.count)];
      }
      mods := mods + [Add(snap.count + 1)];
    }
    assert mods == NewRequest(snap, incrementSupported);
    OutcomeIfAbsent(snap, incrementSupported);
    forall c
      ensures AddsOneTo(c, mods, snap, incrementSupported)
    {
      OutcomeIfPresent(c, snap, incrementSupported);
    }
  }

  lemma OneMod(values: set<int>, m: Mod)
    ensures ApplyMods(values, [m]) == ApplyMod(values, m)
  {
    assert [m][1..] == [];
  }

  lemma TwoMods(values: set<int>, m: Mod, m': Mod)
    ensures ApplyMods(values, [m, m']) ==
            match ApplyMod(values, m)
            case Rejected => Rejected
            case Stored(next) => ApplyMod(next, m')
  {
    assert [m, m'][1..] == [m'];
    if ApplyMod(values, m).Stored? {
      OneMod(ApplyMod(values, m).values, m');
    }
  }

  /** Without the attribute, only a KDC that read none succeeds. */
  lemma OutcomeIfAbsent(snap: Snapshot, inc: bool)
    ensures Modify({}, NewRequest(snap, inc)) == if snap.present then Rejected else Stored({snap.count + 1})
  {
    var none: set<int> := {};
    OneMod(none, Increment(1));
    OneMod(none, Add(snap.count + 1));
    TwoMods(none, Delete(snap.count), Add(snap.count + 1));
    assert none + {snap.count + 1} == {snap.count + 1};
  }

  lemma IncrementOutcome(c: int)
    ensures Modify({c}, [Increment(1)]) == Stored({c + 1})
  {
    OneMod({c}, Increment(1));
    assert Plus({c}, 1) == {c + 1};
  }

  lemma ExchangeOutcome(c: int, was: int)
    ensures Modify({c}, [Delete(was), Add(was + 1)]) == if was == c then Stored({c + 1}) else Rejected
  {
    TwoMods({c}, Delete(was), Add(was + 1));
    if was == c {
      var none := {c} - {c};
      assert none == {};
      assert none + {c + 1} == {c + 1};
    }
  }

  lemma AddOutcome(c: int, next: int)
    ensures Modify({c}, [Add(next)]) == Rejected
  {
    OneMod({c}, Add(next));
    if next != c {
      assert |{c} + {next}| == 2;
    }
  }

  /** With the attribute, an increment succeeds, an exchange succeeds if it names the stored value, and
      a bare Add does not. */
  lemma OutcomeIfPresent(c: int, snap: Snapshot, inc: bool)
    ensures Modify({c}, NewRequest(snap, inc)) ==
            if snap.present && (inc || snap.count == c) then Stored({c + 1}) else Rejected
  {
    if snap.present && inc {
      IncrementOutcome(c);
    } else if snap.present {
      ExchangeOutcome(c, snap.count);
    } else {
      AddOutcome(c, snap.count + 1);
    }
  }

  /** With the old request a count read as 0 was overwritten, whatever is stored by now. */
  lemma OldOutcome(values: set<int>, snap: Snapshot, inc: bool)
    requires |values| <= 1
    ensures Modify(values, OldRequest(snap, inc)) ==
            if inc then (if values == {} then Rejected else Stored({Count(values) + 1}))
            else if snap.count == 0 then Stored({1})
            else if values == {snap.count} then Stored({Count(values) + 1})
            else Rejected
  {
    NoneOrOne(values);
    CountOfOne(Count(values));
    OneMod(values, Increment(1));
    OneMod(values, Replace(1));
    IncrementOutcome(Count(values));
    if values == {} {
      TwoMods(values, Delete(snap.count), Add(snap.count + 1));
    } else {
      ExchangeOutcome(Count(values), snap.count);
    }
  }

  /** An accepted old request counts its failure if and only if it did not overwrite a count. */
  lemma OldCountsIff(values: set<int>, snap: Snapshot, inc: bool)
    requires |values| <= 1 && Modify(values, OldRequest(snap, inc)).Stored?
    ensures Count(Modify(values, OldRequest(snap, inc)).values) == Count(values) + 1
            <==> inc || snap.count != 0 || Count(values) == 0
  {
    OldOutcome(values, snap, inc);
    CountOfOne(1);
    CountOfOne(Count(values) + 1);
  }

  // ---------- interleavings ----------

  datatype State = State(values: set<int>, snaps: map<nat, Snapshot>)

  /** A KDC, patched or not, fetches the entry, or sends its Modify, with or without server support
      for increments. */
  datatype Action = Fetch(kdc: nat) | Send(kdc: nat, inc: bool, version: Version)

  predicate Enabled(s: State, a: Action) {
    a.Send? ==> a.kdc in s.snaps
  }

  function Result(s: State, a: Action): Outcome
    requires a.Send? && Enabled(s, a)
  {
    Modify(s.values, Request(a.version, s.snaps[a.kdc], a.inc))
  }

  predicate Succeeds(s: State, a: Action)
    requires Enabled(s, a)
  {
    a.Send? && Result(s, a).Stored?
  }

  ghost function Apply(s: State, a: Action): State
    requires Enabled(s, a)
  {
    match a
    case Fetch(k) => s.(snaps := s.snaps[k := Snapshot(s.values != {}, Count(s.values))])
    case Send(_, _, _) => if Succeeds(s, a) then s.(values := Result(s, a).values) else s
  }

  ghost predicate CanRun(s: State, run: seq<Action>)
    decreases |run|
  {
    run == [] || (Enabled(s, run[0]) && CanRun(Apply(s, run[0]), run[1..]))
  }

  ghost function After(s: State, run: seq<Action>): State
    requires CanRun(s, run)
    decreases |run|
  {
    if run == [] then s else After(Apply(s, run[0]), run[1..])
  }

  /** How many Modify requests of the run the directory accepted. */
  ghost function Successes(s: State, run: seq<Action>): nat
    requires CanRun(s, run)
    decreases |run|
  {
    if run == [] then 0
    else (if Succeeds(s, run[0]) then 1 else 0) + Successes(Apply(s, run[0]), run[1..])
  }

  /** The request is one that replaces whatever is stored by 1. */
  predicate Overwrites(s: State, a: Action)
    requires Enabled(s, a)
  {
    a.Send? && a.version == Old && !a.inc && s.snaps[a.kdc].count == 0
  }

  /** The count that a step wipes out. */
  ghost function Wiped(s: State, a: Action): int
    requires Enabled(s, a)
  {
    if Overwrites(s, a) then Count(s.values) else 0
  }

  ghost function Lost(s: State, run: seq<Action>): int
    requires CanRun(s, run)
    decreases |run|
  {
    if run == [] then 0 else Wiped(s, run[0]) + Lost(Apply(s, run[0]), run[1..])
  }

  /** At most one value; and a KDC that read no attribute holds a count of 0. */
  ghost predicate Valid(s: State) {
    |s.values| <= 1 && forall k :: k in s.snaps ==> s.snaps[k].present || s.snaps[k].count == 0
  }

  lemma NewAddsOne(values: set<int>, snap: Snapshot, inc: bool)
    requires |values| <= 1 && (snap.present || snap.count == 0)
    ensures var r := Modify(values, NewRequest(snap, inc)); r.Stored? ==> r.values == {Count(values) + 1}
  {
    NoneOrOne(values);
    if values == {} {
      OutcomeIfAbsent(snap, inc);
    } else {
      OutcomeIfPresent(Count(values), snap, inc);
    }
  }

  lemma SendAddsOne(s: State, a: Action)
    requires Valid(s) && a.Send? && Enabled(s, a) && Succeeds(s, a)
    ensures Result(s, a).values == {Count(s.values) + 1 - Wiped(s, a)}
  {
    if a.version == New {
      NewAddsOne(s.values, s.snaps[a.kdc], a.inc);
    } else {
      OldOutcome(s.values, s.snaps[a.kdc], a.inc);
    }
  }

  lemma StepCounts(s: State, a: Action)
    requires Valid(s) && Enabled(s, a)
    ensures Valid(Apply(s, a))
    ensures Count(Apply(s, a).values) == Count(s.values) + (if Succeeds(s, a) then 1 else 0) - Wiped(s, a)
  {
    if a.Send? && a.version == Old {
      OldOutcome(s.values, s.snaps[a.kdc], a.inc);
    }
    if Succeeds(s, a) {
      SendAddsOne(s, a);
      CountOfOne(Count(s.values) + 1 - Wiped(s, a));
    }
  }

  /** For any interleaving of any number of KDCs, patched and unpatched, the stored count goes up by the
      number of accepted requests, less every count that was wiped out. */
  lemma {:induction false} CountIsSuccessesLessLost(s: State, run: seq<Action>)
    requires Valid(s) && CanRun(s, run)
    ensures Valid(After(s, run))
    ensures Count(After(s, run).values) == Count(s.values) + Successes(s, run) - Lost(s, run)
    decreases |run|
  {
    if run != [] {
      StepCounts(s, run[0]);
      CountIsSuccessesLessLost(Apply(s, run[0]), run[1..]);
    }
  }

  predicate Patched(run: seq<Action>) {
    forall a :: a in run && a.Send? ==> a.version == New
  }

  lemma {:induction false} PatchedLosesNothing(s: State, run: seq<Action>)
    requires CanRun(s, run) && Patched(run)
    ensures Lost(s, run) == 0
    decreases |run|
  {
    if run != [] {
      assert run[0] in run;
      assert Patched(run[1..]);
      PatchedLosesNothing(Apply(s, run[0]), run[1..]);
    }
  }

  /** No update is lost and none counts twice: whatever the patched KDCs do, each using whichever form
      it can, the stored count goes up by exactly the number of accepted requests. */
  lemma CountIsSuccesses(s: State, run: seq<Action>)
    requires Valid(s) && CanRun(s, run) && Patched(run)
    ensures Valid(After(s, run))
    ensures Count(After(s, run).values) == Count(s.values) + Successes(s, run)
  {
    CountIsSuccessesLessLost(s, run);
    PatchedLosesNothing(s, run);
  }

  /** Every overwriting request of the run finds a count of 0. */
  ghost predicate WipesNothing(s: State, run: seq<Action>)
    requires CanRun(s, run)
    decreases |run|
  {
    run == [] || ((Overwrites(s, run[0]) ==> Count(s.values) == 0) && WipesNothing(Apply(s, run[0]), run[1..]))
  }

  lemma {:induction false} LostIff(s: State, run: seq<Action>)
    requires Valid(s) && CanRun(s, run) && Count(s.values) >= 0
    ensures 0 <= Lost(s, run)
    ensures Lost(s, run) == 0 <==> WipesNothing(s, run)
    decreases |run|
  {
    if run != [] {
      StepCounts(s, run[0]);
      if run[0].Send? && run[0].version == Old {
        OldOutcome(s.values, s.snaps[run[0].kdc], run[0].inc);
      }
      LostIff(Apply(s, run[0]), run[1..]);
    }
  }

  /** With unpatched KDCs among them the count is right if and only if every request that overwrites
      meets a count of 0. */
  lemma CountIsRightIff(s: State, run: seq<Action>)
    requires Valid(s) && CanRun(s, run) && Count(s.values) >= 0
    ensures Count(After(s, run).values) == Count(s.values) + Successes(s, run) <==> WipesNothing(s, run)
  {
    CountIsSuccessesLessLost(s, run);
    LostIff(s, run);
  }

  lemma {:induction false} SnapshotKept(s: State, run: seq<Action>, k: nat)
    requires CanRun(s, run) && k in s.snaps && Fetch(k) !in run
    ensures k in After(s, run).snaps && After(s, run).snaps[k] == s.snaps[k]
    decreases |run|
  {
    if run != [] {
      SnapshotKept(Apply(s, run[0]), run[1..], k);
    }
  }

  /** An exchange or first Add that is accepted proves its snapshot was still current: between the
      fetch and the request, no other KDC's request was accepted. */
  lemma AcceptedMeansUndisturbed(s: State, k: nat, between: seq<Action>, inc: bool)
    requires Valid(s) && CanRun(Apply(s, Fetch(k)), between) && Fetch(k) !in between && Patched(between)
    requires inc ==> s.values == {}
    requires var t := After(Apply(s, Fetch(k)), between); Enabled(t, Send(k, inc, New)) && Succeeds(t, Send(k, inc, New))
    ensures Successes(Apply(s, Fetch(k)), between) == 0
    ensures After(Apply(s, Fetch(k)), between).values == s.values
  {
    var s0 := Apply(s, Fetch(k));
    var t := After(s0, between);
    StepCounts(s, Fetch(k));
    CountIsSuccesses(s0, between);
    SnapshotKept(s0, between, k);
    NoneOrOne(s.values);
    NoneOrOne(t.values);
    OutcomeIfAbsent(t.snaps[k], inc);
    OutcomeIfPresent(Count(t.values), t.snaps[k], inc);
  }

  /** A request sent before anyone else's is always accepted. */
  lemma FreshRequestAccepted(s: State, k: nat, inc: bool)
    requires Valid(s)
    ensures Succeeds(Apply(s, Fetch(k)), Send(k, inc, New))
  {
    NoneOrOne(s.values);
    OutcomeIfAbsent(Snapshot(s.values != {}, Count(s.values)), inc);
    OutcomeIfPresent(Count(s.values), Snapshot(s.values != {}, Count(s.values)), inc);
  }

  // ---------- what was replaced ----------

  lemma FirstStep(s: State, a: Action, rest: seq<Action>)
    requires Enabled(s, a) && CanRun(Apply(s, a), rest)
    ensures CanRun(s, [a] + rest) && After(s, [a] + rest) == After(Apply(s, a), rest)
    ensures Successes(s, [a] + rest) == (if Succeeds(s, a) then 1 else 0) + Successes(Apply(s, a), rest)
  {
    assert ([a] + rest)[1..] == rest;
  }

  /** Two unpatched KDCs that both read no failures are both accepted, and one failure is stored. */
  lemma OldRequestLostUpdates(s: State, k: nat, m: nat)
    requires Valid(s) && Count(s.values) == 0 && k != m
    ensures var run := [Fetch(k)] + ([Fetch(m)] + ([Send(k, false, Old)] + ([Send(m, false, Old)] + [])));
            CanRun(s, run) && Successes(s, run) == 2 && Count(After(s, run).values) == 1
  {
    var s1 := Apply(s, Fetch(k));
    var s2 := Apply(s1, Fetch(m));
    OldOutcome(s2.values, s2.snaps[k], false);
    var s3 := Apply(s2, Send(k, false, Old));
    OldOutcome(s3.values, s3.snaps[m], false);
    var s4 := Apply(s3, Send(m, false, Old));
    CountOfOne(1);
    assert CanRun(s4, []) && Successes(s4, []) == 0;
    FirstStep(s3, Send(m, false, Old), []);
    FirstStep(s2, Send(k, false, Old), [Send(m, false, Old)] + []);
    FirstStep(s1, Fetch(m), [Send(k, false, Old)] + ([Send(m, false, Old)] + []));
    FirstStep(s, Fetch(k), [Fetch(m)] + ([Send(k, false, Old)] + ([Send(m, false, Old)] + [])));
  }
}
