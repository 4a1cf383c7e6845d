/** The Fisher-Yates shuffle of the test programs, and the scaled rand() that drives it. */
module Shuffle {
  import opened Counting
  import CStrings

  // ---------- scaled rand() ----------

  /** How many consecutive draws share a value: RAND_MAX / m + 1. */
  function Share(bound: nat, m: nat): (q: nat)
    requires m > 0
    ensures q > 0
  {
    bound / m + 1
  }

  /** rand() / (RAND_MAX / m + 1), for a draw r of at most bound. */
  function Scale(r: nat, bound: nat, m: nat): nat
    requires m > 0
  {
    r / Share(bound, m)
  }

  lemma ShareCovers(bound: nat, m: nat)
    requires m > 0
    ensures bound < m * Share(bound, m)
  {
    assert bound == m * (bound / m) + bound % m;
    assert m * Share(bound, m) == m * (bound / m) + m;
  }

  /** Every draw lands in range. */
  lemma ScaleInRange(r: nat, bound: nat, m: nat)
    requires m > 0 && r <= bound
    ensures Scale(r, bound, m) < m
  {
    var q, v := Share(bound, m), Scale(r, bound, m);
    ShareCovers(bound, m);
    DivisionIs(r, q, v);
    if m <= v {
      ScaleUp(m, v, q);
    }
  }

  /** The draws that give value v. */
  function Draws(v: nat, bound: nat, m: nat): set<int>
    requires m > 0
  {
    var q := Share(bound, m);
    Range(v * q, if (v + 1) * q <= bound then (v + 1) * q else bound + 1)
  }

  lemma DrawsAre(v: nat, bound: nat, m: nat, r: nat)
    requires m > 0
    ensures r in Draws(v, bound, m) <==> r <= bound && Scale(r, bound, m) == v
  {
    DivisionIs(r, Share(bound, m), v);
  }

  /** All m values can be drawn. */
  predicate ReachesAll(bound: nat, m: nat)
    requires m > 0
  {
    (m - 1) * Share(bound, m) <= bound
  }

  /** Every value below m is drawn by some r if and only if the last one is, which the bound decides. */
  lemma DrawnIff(bound: nat, m: nat)
    requires m > 0
    ensures (forall v: nat :: v < m ==> Draws(v, bound, m) != {}) <==> ReachesAll(bound, m)
  {
    var q := Share(bound, m);
    if ReachesAll(bound, m) {
      forall v: nat | v < m
        ensures Draws(v, bound, m) != {}
      {
        ScaleUp(v, m - 1, q);
        assert (v + 1) * q == v * q + q;
        assert v * q in Draws(v, bound, m);
      }
    } else {
      assert Draws(m - 1, bound, m) == {};
    }
  }

  lemma LargeBoundReachesAll(bound: nat, m: nat)
    requires m > 0 && m * (m - 1) <= bound
    ensures ReachesAll(bound, m)
  {
    var d := bound / m;
    DivisionIs(bound, m, d);
    AtMostQuotient(m - 1, m, bound);
    assert (m - 1) * (d + 1) == d * m + (m - 1 - d);
  }

  /** With a large enough bound, every value but the last has exactly RAND_MAX / m + 1 draws, and the
      last has at least one and no more than the others. */
  lemma EqualShares(bound: nat, m: nat, v: nat)
    requires v < m && m * (m - 1) <= bound
    ensures v < m - 1 ==> |Draws(v, bound, m)| == Share(bound, m)
    ensures v == m - 1 ==> 1 <= |Draws(v, bound, m)| <= Share(bound, m)
  {
    var q := Share(bound, m);
    LargeBoundReachesAll(bound, m);
    ShareCovers(bound, m);
    assert (v + 1) * q == v * q + q;
    if v < m - 1 {
      ScaleUp(v + 1, m - 1, q);
    }
  }

  // ---------- the shuffle ----------

  predicate Permutes<T(==)>(p: seq<T>, a: seq<T>) {
    multiset(p) == multiset(a)
  }

  /** One choice per step but the last: at step l, an offset into the n - l elements left. */
  predicate Choices(n: nat, cs: seq<nat>) {
    |cs| == (if n == 0 then 0 else n - 1) && forall l :: 0 <= l < |cs| ==> cs[l] < n - l
  }

  function Swap<T>(a: seq<T>, i: nat, j: nat): (b: seq<T>)
    requires i < |a| && j < |a|
    ensures |b| == |a|
  {
    a[i := a[j]][j := a[i]]
  }

  lemma SwapPermutes<T>(a: seq<T>, c: nat)
    requires c < |a|
    ensures var b := Swap(a, 0, c); multiset(a) == multiset{b[0]} + multiset(b[1..])
  {
    var b := Swap(a, 0, c);
    assert multiset(b) == multiset(a);
    assert b == [b[0]] + b[1..];
  }

  function Shuffled<T>(a: seq<T>, cs: seq<nat>): (p: seq<T>)
    requires Choices(|a|, cs)
    ensures |p| == |a|
    decreases |a|
  {
    if |a| <= 1 then a
    else
      var b := Swap(a, 0, cs[0]);
      [b[0]] + Shuffled(b[1..], cs[1..])
  }

  /** Every run of the shuffle yields a permutation. */
  lemma {:induction false} ShuffledPermutes<T>(a: seq<T>, cs: seq<nat>)
    requires Choices(|a|, cs)
    ensures Permutes(Shuffled(a, cs), a)
    decreases |a|
  {
    if |a| > 1 {
      var b := Swap(a, 0, cs[0]);
      SwapPermutes(a, cs[0]);
      ShuffledPermutes(b[1..], cs[1..]);
      assert multiset([b[0]] + Shuffled(b[1..], cs[1..])) == multiset{b[0]} + multiset(Shuffled(b[1..], cs[1..]));
    }
  }

  /** The offsets that take a to p: at each step, where the wanted element is. */
  function ChoicesTo<T(==)>(a: seq<T>, p: seq<T>): (cs: seq<nat>)
    requires Permutes(p, a)
    ensures Choices(|a|, cs)
    decreases |a|
  {
    SameSize(a, p);
    if |a| <= 1 then []
    else
      var c := CStrings.Span(a, {p[0]});
      Found(a, p);
      var b := Swap(a, 0, c);
      HeadsMatch(a, c, p);
      [c] + ChoicesTo(b[1..], p[1..])
  }

  lemma SameSize<T>(a: seq<T>, p: seq<T>)
    requires Permutes(p, a)
    ensures |p| == |a|
  {
    assert |multiset(p)| == |p| && |multiset(a)| == |a|;
  }

  lemma Found<T>(a: seq<T>, p: seq<T>)
    requires Permutes(p, a) && a != [] && p != []
    ensures CStrings.Span(a, {p[0]}) < |a| && a[CStrings.Span(a, {p[0]})] == p[0]
  {
    assert p[0] in multiset(p);
    assert p[0] in a;
  }

  lemma HeadsMatch<T>(a: seq<T>, c: nat, p: seq<T>)
    requires Permutes(p, a) && p != [] && c < |a| && a[c] == p[0]
    ensures multiset(p[1..]) == multiset(Swap(a, 0, c)[1..])
  {
    SwapPermutes(a, c);
    assert p == [p[0]] + p[1..];
    assert multiset(p[1..]) == multiset(p) - multiset{p[0]};
  }

  lemma {:induction false} ChoicesReach<T>(a: seq<T>, p: seq<T>)
    requires Permutes(p, a)
    ensures Shuffled(a, ChoicesTo(a, p)) == p
    decreases |a|
  {
    SameSize(a, p);
    if |a| == 1 {
      assert a[0] in multiset(p);
    } else if |a| > 1 {
      var c := CStrings.Span(a, {p[0]});
      Found(a, p);
      var b := Swap(a, 0, c);
      HeadsMatch(a, c, p);
      ChoicesReach(b[1..], p[1..]);
      assert ChoicesTo(a, p)[1..] == ChoicesTo(b[1..], p[1..]);
      assert p == [p[0]] + p[1..];
    }
  }

  lemma SwapDistinct<T(!new)>(a: seq<T>, c: nat)
    requires Distinct(a) && c < |a|
    ensures Distinct(Swap(a, 0, c)[1..])
  {
  }

  /** On distinct elements no other offsets lead to the same permutation. */
  lemma {:induction false} ChoicesUnique<T(!new)>(a: seq<T>, cs: seq<nat>, ds: seq<nat>)
    requires Distinct(a) && Choices(|a|, cs) && Choices(|a|, ds)
    requires Shuffled(a, cs) == Shuffled(a, ds)
    ensures cs == ds
    decreases |a|
  {
    if |a| > 1 {
      var b, b' := Swap(a, 0, cs[0]), Swap(a, 0, ds[0]);
      assert Shuffled(a, cs)[0] == a[cs[0]] && Shuffled(a, ds)[0] == a[ds[0]];
      assert cs[0] == ds[0];
      SwapDistinct(a, cs[0]);
      assert Shuffled(a, cs)[1..] == Shuffled(b[1..], cs[1..]);
      assert Shuffled(a, ds)[1..] == Shuffled(b'[1..], ds[1..]);
      ChoicesUnique(b[1..], cs[1..], ds[1..]);
      assert cs == [cs[0]] + cs[1..] && ds == [ds[0]] + ds[1..];
    }
  }

  /** The choices and the permutations are in bijection. */
  lemma Bijection<T(!new)>(a: seq<T>, p: seq<T>)
    requires Distinct(a) && Permutes(p, a)
    ensures Choices(|a|, ChoicesTo(a, p)) && Shuffled(a, ChoicesTo(a, p)) == p
    ensures forall cs :: Choices(|a|, cs) && Shuffled(a, cs) == p ==> cs == ChoicesTo(a, p)
  {
    ChoicesReach(a, p);
    forall cs | Choices(|a|, cs) && Shuffled(a, cs) == p
      ensures cs == ChoicesTo(a, p)
    {
      ChoicesUnique(a, cs, ChoicesTo(a, p));
    }
  }

  /** A selection from the front of a shuffle is a choice of distinct elements. */
  lemma SelectionDistinct<T(!new)>(a: seq<T>, cs: seq<nat>, k: nat)
    requires Distinct(a) && Choices(|a|, cs) && k <= |a|
    ensures Distinct(Shuffled(a, cs)[..k])
    ensures forall x :: x in Shuffled(a, cs)[..k] ==> x in a
  {
    var p := Shuffled(a, cs);
    ShuffledPermutes(a, cs);
    DistinctByCount(a, p);
    forall x | x in p
      ensures x in a
    {
      assert x in multiset(p);
    }
  }

  lemma DistinctByCount<T(!new)>(a: seq<T>, p: seq<T>)
    requires Distinct(a) && Permutes(p, a)
    ensures Distinct(p)
  {
    SameSize(a, p);
    assert Elements(p) == Elements(a) by {
      forall x
        ensures x in p <==> x in a
      {
        assert x in multiset(p) <==> x in multiset(a);
      }
    }
    DistinctSize(a);
    DistinctBySize(p);
  }

  lemma {:induction false} DistinctBySize<T(!new)>(p: seq<T>)
    requires |Elements(p)| == |p|
    ensures Distinct(p)
    decreases |p|
  {
    if p != [] {
      var rest := p[1..];
      assert p == [p[0]] + rest;
      assert Elements(p) == {p[0]} + Elements(rest);
      ElementsBound(rest);
      DistinctBySize(rest);
      assert p[0] !in rest;
    }
  }

  lemma {:induction false} ElementsBound<T>(p: seq<T>)
    ensures |Elements(p)| <= |p|
    decreases |p|
  {
    if p == [] {
      assert Elements(p) == {};
    } else {
      ElementsBound(p[1..]);
      assert p == [p[0]] + p[1..];
      assert Elements(p) == {p[0]} + Elements(p[1..]);
    }
  }

  // ---------- the shuffle on rand() ----------

  predicate Random(n: nat, rs: seq<nat>, bound: nat) {
    |rs| == (if n == 0 then 0 else n - 1) && forall l :: 0 <= l < |rs| ==> rs[l] <= bound
  }

  function ChoicesOf(n: nat, rs: seq<nat>, bound: nat): (cs: seq<nat>)
    requires Random(n, rs, bound)
    ensures Choices(n, cs)
  {
    var cs := seq(|rs|, l requires 0 <= l < |rs| => Scale(rs[l], bound, n - l));
    assert forall l :: 0 <= l < |cs| ==> cs[l] < n - l by {
      forall l | 0 <= l < |cs|
        ensures cs[l] < n - l
      {
        ScaleInRange(rs[l], bound, n - l);
      }
    }
    cs
  }

  /** What is settled, then what remains to be shuffled. */
  function Outlook<T>(a: seq<T>, l: nat, cs: seq<nat>): seq<T>
    requires Choices(|a|, cs) && l <= |cs|
  {
    a[..l] + Shuffled(a[l..], cs[l..])
  }

  lemma OutlookKept<T>(a: seq<T>, l: nat, cs: seq<nat>)
    requires Choices(|a|, cs) && l < |cs|
    ensures Outlook(Swap(a, l, l + cs[l]), l + 1, cs) == Outlook(a, l, cs)
  {
    var c := cs[l];
    var after := Swap(a, l, l + c);
    assert after[l..] == Swap(a[l..], 0, c);
    assert after[l + 1..] == Swap(a[l..], 0, c)[1..] && cs[l + 1..] == cs[l..][1..];
    assert after[..l + 1] == a[..l] + [after[l]];
  }

  lemma OutlookDone<T>(a: seq<T>, l: nat, cs: seq<nat>)
    requires Choices(|a|, cs) && l == |cs|
    ensures Outlook(a, l, cs) == a
  {
    assert a == a[..l] + a[l..];
  }

  method Exchange<T>(a: array<T>, i: nat, j: nat)
    requires i < a.Length && j < a.Length
    modifies a
    ensures a[..] == Swap(old(a[..]), i, j)
  {
    a[i], a[j] := a[j], a[i];
  }

  /** b is a with the elements at i and j exchanged, and all others where they were. */
  ghost predicate Exchanged<T(!new)>(a: seq<T>, b: seq<T>, i: nat, j: nat) {
    && i < |a| == |b| && j < |a| && b[i] == a[j] && b[j] == a[i]
    && forall k :: 0 <= k < |a| && k != i && k != j ==> b[k] == a[k]
  }

  /** steps starts with a, and step k made the next one out of the one before by exchanging the element
      at k with the one cs[k] behind it. */
  ghost predicate Follows<T(!new)>(steps: seq<seq<T>>, a: seq<T>, cs: seq<nat>, l: nat) {
    && l <= |cs| && |steps| == l + 1 && steps[0] == a
    && forall k {:trigger steps[k]} :: 0 <= k < l ==> Exchanged(steps[k], steps[k + 1], k, k + cs[k])
  }

  /** steps leads from a to p, one exchange at a time. */
  ghost predicate Leads<T(!new)>(steps: seq<seq<T>>, a: seq<T>, p: seq<T>, cs: seq<nat>) {
    Follows(steps, a, cs, |cs|) && steps[|cs|] == p
  }

  /** The offsets of a shuffle of n elements are its draws, scaled. */
  ghost predicate Offsets(n: nat, cs: seq<nat>, rs: seq<nat>, bound: nat) {
    |cs| == |rs| <= n && forall l :: 0 <= l < |rs| ==> cs[l] == rs[l] / (bound / (n - l) + 1)
  }

  lemma ChoicesAreOffsets(n: nat, rs: seq<nat>, bound: nat)
    requires Random(n, rs, bound)
    ensures Offsets(n, ChoicesOf(n, rs, bound), rs, bound)
  {
  }

  lemma FollowsFurther<T(!new)>(steps: seq<seq<T>>, a: seq<T>, b: seq<T>, cs: seq<nat>, l: nat)
    requires Follows(steps, a, cs, l) && l < |cs| && Exchanged(steps[l], b, l, l + cs[l])
    ensures Follows(steps + [b], a, cs, l + 1)
  {
    var more := steps + [b];
    forall k {:trigger more[k]} | 0 <= k < l + 1
      ensures Exchanged(more[k], more[k + 1], k, k + cs[k])
    {
      if k < l {
        assert Exchanged(steps[k], steps[k + 1], k, k + cs[k]);
        assert more[k] == steps[k] && more[k + 1] == steps[k + 1];
      }
    }
  }

  /** After l steps from a, at now: what the rest of the choices make of it is still p. */
  ghost predicate Halfway<T(!new)>(steps: seq<seq<T>>, a: seq<T>, now: seq<T>, p: seq<T>, cs: seq<nat>, l: nat) {
    Choices(|now|, cs) && Follows(steps, a, cs, l) && steps[l] == now && Outlook(now, l, cs) == p
  }

  lemma HalfwayStep<T(!new)>(steps: seq<seq<T>>, a: seq<T>, now: seq<T>, p: seq<T>, cs: seq<nat>, l: nat)
    requires Halfway(steps, a, now, p, cs, l) && l < |cs|
    ensures var b := Swap(now, l, l + cs[l]); Halfway(steps + [b], a, b, p, cs, l + 1)
  {
    OutlookKept(now, l, cs);
    FollowsFurther(steps, a, Swap(now, l, l + cs[l]), cs, l);
  }

  lemma OutlookAtStart<T>(a: seq<T>, cs: seq<nat>)
    requires Choices(|a|, cs)
    ensures Outlook(a, 0, cs) == Shuffled(a, cs)
  {
    assert a[0..] == a && cs[0..] == cs && a[..0] == [];
  }

  /** c = rand() / (RAND_MAX / (nvalues - l) + 1). */
  method Draw(n: nat, rs: seq<nat>, bound: nat, l: nat) returns (c: nat)
    requires Random(n, rs, bound) && l < |rs|
    ensures c == ChoicesOf(n, rs, bound)[l]
  {
    c := Scale(rs[l], bound, n - l);
  }

  /** One round's exchange. */
  method Round<T(!new)>(a: array<T>, l: nat, c: nat, ghost cs: seq<nat>, ghost steps: seq<seq<T>>, ghost start: seq<T>, ghost p: seq<T>)
    returns (ghost more: seq<seq<T>>)
    requires l < |cs| && c == cs[l] && Halfway(steps, start, a[..], p, cs, l)
    modifies a
    ensures Halfway(more, start, a[..], p, cs, l + 1)
  {
    HalfwayStep(steps, start, a[..], p, cs, l);
    Exchange(a, l, l + c);
    more := steps + [a[..]];
  }

  /** The loop of test1 and test3, in place. */
  method FisherYates<T(!new)>(a: array<T>, rs: seq<nat>, bound: nat) returns (ghost cs: seq<nat>, ghost steps: seq<seq<T>>)
    requires Random(a.Length, rs, bound)
    modifies a
    ensures a[..] == Shuffled(old(a[..]), ChoicesOf(a.Length, rs, bound))
    ensures Offsets(a.Length, cs, rs, bound) && Leads(steps, old(a[..]), a[..], cs)
  {
    ghost var start := a[..];
    cs := ChoicesOf(a.Length, rs, bound);
    ghost var target := Shuffled(start, cs);
    steps := [start];
    OutlookAtStart(start, cs);
    var l := 0;
    while l < a.Length - 1
      invariant l <= |cs| && Halfway(steps, start, a[..], target, cs, l)
      decreases a.Length - l
    {
      var c := Draw(a.Length, rs, bound, l);
      steps := Round(a, l, c, cs, steps, start, target);
      l := l + 1;
    }
    OutlookDone(a[..], l, cs);
    ChoicesAreOffsets(a.Length, rs, bound);
  }

  lemma ExchangedToOne<T(!new)>(a: seq<T>, b: seq<T>, b': seq<T>, i: nat, j: nat)
    requires Exchanged(a, b, i, j) && Exchanged(a, b', i, j)
    ensures b == b'
  {
    forall k | 0 <= k < |b|
      ensures b[k] == b'[k]
    {
      assert k != i && k != j ==> b[k] == a[k] && b'[k] == a[k];
    }
  }

  lemma LastMove<T(!new)>(steps: seq<seq<T>>, a: seq<T>, cs: seq<nat>, l: nat)
    requires Follows(steps, a, cs, l) && l > 0
    ensures Follows(steps[..l], a, cs, l - 1)
    ensures Exchanged(steps[l - 1], steps[l], l - 1, l - 1 + cs[l - 1])
  {
    var front := steps[..l];
    assert Exchanged(steps[l - 1], steps[(l - 1) + 1], l - 1, l - 1 + cs[l - 1]);
    forall k {:trigger front[k]} | 0 <= k < l - 1
      ensures Exchanged(front[k], front[k + 1], k, k + cs[k])
    {
      assert Exchanged(steps[k], steps[k + 1], k, k + cs[k]);
      assert front[k] == steps[k] && front[k + 1] == steps[k + 1];
    }
  }

  lemma SameFront<T>(steps: seq<T>, others: seq<T>, l: nat)
    requires |steps| == |others| == l + 1 && steps[..l] == others[..l] && steps[l] == others[l]
    ensures steps == others
  {
    assert steps == steps[..l] + [steps[l]] && others == others[..l] + [others[l]];
  }

  lemma LastSame<T(!new)>(steps: seq<seq<T>>, others: seq<seq<T>>, a: seq<T>, cs: seq<nat>, l: nat)
    requires Follows(steps, a, cs, l) && Follows(others, a, cs, l) && l > 0 && steps[..l] == others[..l]
    ensures steps[l] == others[l]
  {
    LastMove(steps, a, cs, l);
    LastMove(others, a, cs, l);
    assert steps[..l][l - 1] == others[..l][l - 1];
    ExchangedToOne(steps[l - 1], steps[l], others[l], l - 1, l - 1 + cs[l - 1]);
  }

  /** The offsets determine every step. */
  lemma {:induction false} FollowsOnlyOne<T(!new)>(steps: seq<seq<T>>, others: seq<seq<T>>, a: seq<T>, cs: seq<nat>, l: nat)
    requires Follows(steps, a, cs, l) && Follows(others, a, cs, l)
    ensures steps == others
    decreases l
  {
    if l == 0 {
      assert steps == [a] && others == [a];
    } else {
      LastMove(steps, a, cs, l);
      LastMove(others, a, cs, l);
      FollowsOnlyOne(steps[..l], others[..l], a, cs, l - 1);
      LastSame(steps, others, a, cs, l);
      SameFront(steps, others, l);
    }
  }

  ghost predicate CanDraw<T>(a: seq<T>, p: seq<T>, rs: seq<nat>, bound: nat) {
    Random(|a|, rs, bound) && Shuffled(a, ChoicesOf(|a|, rs, bound)) == p
  }

  lemma ExactDivision(c: nat, q: nat)
    requires q > 0
    ensures (c * q) / q == c
  {
    DivisionIs(c * q, q, c);
  }

  /** A draw that makes a given choice. */
  lemma DrawFor(c: nat, m: nat, bound: nat)
    requires c < m && ReachesAll(bound, m)
    ensures c * Share(bound, m) <= bound && Scale(c * Share(bound, m), bound, m) == c
  {
    var q := Share(bound, m);
    ScaleUp(c, m - 1, q);
    ExactDivision(c, q);
  }

  lemma DrawsFor(n: nat, cs: seq<nat>, bound: nat) returns (rs: seq<nat>)
    requires Choices(n, cs) && forall m :: 2 <= m <= n ==> ReachesAll(bound, m)
    ensures Random(n, rs, bound) && ChoicesOf(n, rs, bound) == cs
  {
    rs := [];
    while |rs| < |cs|
      invariant |rs| <= |cs|
      invariant forall l :: 0 <= l < |rs| ==> rs[l] <= bound && Scale(rs[l], bound, n - l) == cs[l]
    {
      var l := |rs|;
      DrawFor(cs[l], n - l, bound);
      rs := rs + [cs[l] * Share(bound, n - l)];
    }
  }

  ghost predicate AllDrawn<T(!new)>(a: seq<T>, bound: nat) {
    forall p :: Permutes(p, a) ==> exists rs :: CanDraw(a, p, rs, bound)
  }

  lemma AllDrawnIfReached<T(!new)>(a: seq<T>, bound: nat)
    requires forall m :: 2 <= m <= |a| ==> ReachesAll(bound, m)
    ensures AllDrawn(a, bound)
  {
    forall p | Permutes(p, a)
      ensures exists rs :: CanDraw(a, p, rs, bound)
    {
      var rs := DrawsFor(|a|, ChoicesTo(a, p), bound);
      ChoicesReach(a, p);
      assert CanDraw(a, p, rs, bound);
    }
  }

  /** If the largest offset into m elements is never drawn, the permutation that needs it is lost. */
  lemma LostPermutation<T(!new)>(a: seq<T>, m: nat, bound: nat)
    requires Distinct(a) && 2 <= m <= |a| && !ReachesAll(bound, m)
    ensures !AllDrawn(a, bound)
  {
    var l := |a| - m;
    var cs := seq(|a| - 1, k => if k == l then m - 1 else 0);
    assert Choices(|a|, cs);
    var p := Shuffled(a, cs);
    ShuffledPermutes(a, cs);
    assert Permutes(p, a);
    if exists rs :: CanDraw(a, p, rs, bound) {
      var rs :| CanDraw(a, p, rs, bound);
      ChoicesUnique(a, cs, ChoicesOf(|a|, rs, bound));
      assert Scale(rs[l], bound, m) == cs[l];
      DivisionIs(rs[l], Share(bound, m), m - 1);
    }
  }

  /** rand() can produce every permutation of distinct elements if and only if, at every step, it can
      produce every offset. */
  lemma EveryPermutationDrawnIff<T(!new)>(a: seq<T>, bound: nat)
    requires Distinct(a)
    ensures AllDrawn(a, bound) <==> forall m :: 2 <= m <= |a| ==> ReachesAll(bound, m)
  {
    if forall m :: 2 <= m <= |a| ==> ReachesAll(bound, m) {
      AllDrawnIfReached(a, bound);
    } else {
      var m :| 2 <= m <= |a| && !ReachesAll(bound, m);
      LostPermutation(a, m, bound);
    }
  }

  lemma LargeBoundSuffices(n: nat, bound: nat)
    requires n * (n - 1) <= bound
    ensures forall m :: 2 <= m <= n ==> ReachesAll(bound, m)
  {
    forall m | 2 <= m <= n
      ensures ReachesAll(bound, m)
    {
      ScaleUp(m, n, m - 1);
      ScaleUp(m - 1, n - 1, n);
      LargeBoundReachesAll(bound, m);
    }
  }

  /** RAND_MAX where int has 32 bits, as in the GNU C library. */
  const RAND_MAX: nat := 0x7fff_ffff

  lemma SmallProduct(n: nat)
    requires n <= 46341
    ensures n * (n - 1) <= RAND_MAX
  {
    if n > 0 {
      ScaleUp(n, 46341, n - 1);
      ScaleUp(n - 1, 46340, 46341);
    }
  }

  /** So every order of up to 46341 distinct clients or groups can come up. */
  lemma RandMaxSuffices<T(!new)>(a: seq<T>)
    requires Distinct(a) && |a| <= 46341
    ensures AllDrawn(a, RAND_MAX)
  {
    SmallProduct(|a|);
    LargeBoundSuffices(|a|, RAND_MAX);
    AllDrawnIfReached(a, RAND_MAX);
  }
}
