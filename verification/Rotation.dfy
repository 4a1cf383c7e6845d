/** test4's assignment: client i asks, in order, for the groups that follow i around a ring. */
module Rotation {
  import opened Counting

  /** gid = (group_index_start + j - 1) % group_count + 1, for j counted from 1. */
  function GroupId(start: nat, j: nat, groups: nat): nat
    requires 0 < j && 0 < groups
  {
    (start + j - 1) % groups + 1
  }

  function Row(start: nat, perClient: nat, groups: nat): seq<nat>
    requires 0 < groups
  {
    seq(perClient, j requires 0 <= j < perClient => GroupId(start, j + 1, groups))
  }

  lemma MultiplesGap(p: nat, q: nat, n: nat)
    ensures p < q ==> p * n + n <= q * n
    ensures q <= p ==> q * n <= p * n
  {
    if p < q {
      ScaleUp(p + 1, q, n);
      assert (p + 1) * n == p * n + n;
    } else {
      ScaleUp(q, p, n);
    }
  }

  lemma DivModParts(x: nat, n: nat)
    requires 0 < n
    ensures x == (x / n) * n + x % n
  {
  }

  lemma ModuloGap(a: nat, b: nat, n: nat)
    requires 0 < n && a < b < a + n
    ensures a % n != b % n
  {
    DivModParts(a, n);
    DivModParts(b, n);
    MultiplesGap(a / n, b / n, n);
  }

  /** One client's groups are distinct, and are groups. */
  lemma RowDistinct(start: nat, perClient: nat, groups: nat)
    requires 0 < groups && perClient <= groups
    ensures forall k :: 0 <= k < perClient ==> 1 <= Row(start, perClient, groups)[k] <= groups
    ensures forall j, k :: 0 <= j < k < perClient ==> Row(start, perClient, groups)[j] != Row(start, perClient, groups)[k]
  {
    forall j, k | 0 <= j < k < perClient
      ensures Row(start, perClient, groups)[j] != Row(start, perClient, groups)[k]
    {
      ModuloGap(start + j, start + k, groups);
    }
  }

  /** A client starts behind its own number and goes around the ring. */
  lemma RowFollowsRing(start: nat, perClient: nat, groups: nat)
    requires 0 < groups
    ensures var row := Row(start, perClient, groups);
            && (row != [] ==> row[0] == start % groups + 1)
            && forall k :: 0 <= k < |row| - 1 ==> row[k + 1] == if row[k] == groups then 1 else row[k] + 1
  {
    var row := Row(start, perClient, groups);
    forall k | 0 <= k < |row| - 1
      ensures row[k + 1] == if row[k] == groups then 1 else row[k] + 1
    {
      NextRemainder(start + k, groups);
    }
  }

  lemma NextRemainder(x: nat, n: nat)
    requires 0 < n
    ensures (x + 1) % n == if x % n == n - 1 then 0 else x % n + 1
  {
    var q, r := x / n, x % n;
    DivModParts(x, n);
    if r == n - 1 {
      assert (q + 1) * n == q * n + n;
      DivModIs(x + 1, n, q + 1, 0);
    } else {
      DivModIs(x + 1, n, q, r + 1);
    }
  }

  // ---------- how often each group comes up ----------

  /** How many x in [lo, lo + n) leave remainder r. */
  function Hits(lo: nat, n: nat, r: nat, groups: nat): nat
    requires 0 < groups
  {
    if n == 0 then 0 else Hits(lo, n - 1, r, groups) + if (lo + n - 1) % groups == r then 1 else 0
  }

  lemma {:induction false} HitsFirst(lo: nat, n: nat, r: nat, groups: nat)
    requires 0 < groups && 0 < n
    ensures Hits(lo, n, r, groups) == (if lo % groups == r then 1 else 0) + Hits(lo + 1, n - 1, r, groups)
    decreases n
  {
    if n > 1 {
      HitsFirst(lo, n - 1, r, groups);
      assert lo + n - 1 == (lo + 1) + (n - 1) - 1;
    } else {
      assert Hits(lo, 0, r, groups) == 0;
    }
  }

  lemma {:induction false} HitsBelow(n: nat, r: nat, groups: nat)
    requires n <= groups && 0 < groups
    ensures Hits(0, n, r, groups) == if r < n then 1 else 0
    decreases n
  {
    if n > 0 {
      HitsBelow(n - 1, r, groups);
      assert (0 + n - 1) % groups == n - 1;
    }
  }

  lemma PeriodOfModulo(x: nat, groups: nat)
    requires 0 < groups
    ensures (x + groups) % groups == x % groups
  {
    var q, r := x / groups, x % groups;
    DivModParts(x, groups);
    assert (q + 1) * groups == q * groups + groups;
    DivModIs(x + groups, groups, q + 1, r);
  }

  /** Any groups consecutive numbers hit each remainder once. */
  lemma {:induction false} HitsOfRound(lo: nat, r: nat, groups: nat)
    requires r < groups
    ensures Hits(lo, groups, r, groups) == 1
    decreases lo
  {
    if lo == 0 {
      HitsBelow(groups, r, groups);
    } else {
      HitsOfRound(lo - 1, r, groups);
      HitsFirst(lo - 1, groups, r, groups);
      PeriodOfModulo(lo - 1, groups);
      assert lo + groups - 1 == (lo - 1) + groups;
    }
  }

  lemma {:induction false} HitsAdd(lo: nat, m: nat, n: nat, r: nat, groups: nat)
    requires 0 < groups
    ensures Hits(lo, m + n, r, groups) == Hits(lo, m, r, groups) + Hits(lo + m, n, r, groups)
    decreases n
  {
    if n > 0 {
      HitsAdd(lo, m, n - 1, r, groups);
      assert lo + (m + n) - 1 == (lo + m) + n - 1;
    }
  }

  lemma {:induction false} HitsOfRounds(lo: nat, rounds: nat, r: nat, groups: nat)
    requires r < groups
    ensures Hits(lo, rounds * groups, r, groups) == rounds
    decreases rounds
  {
    if rounds > 0 {
      assert rounds * groups == (rounds - 1) * groups + groups;
      HitsAdd(lo, (rounds - 1) * groups, groups, r, groups);
      HitsOfRounds(lo, rounds - 1, r, groups);
      HitsOfRound(lo + (rounds - 1) * groups, r, groups);
    } else {
      assert 0 * groups == 0;
    }
  }

  function Count(s: seq<nat>, g: nat): nat {
    if s == [] then 0 else Count(s[..|s| - 1], g) + if s[|s| - 1] == g then 1 else 0
  }

  /** How often group g is chosen, client by client. */
  function Chosen(clients: nat, perClient: nat, groups: nat, g: nat): nat
    requires 0 < groups
  {
    if clients == 0 then 0
    else Chosen(clients - 1, perClient, groups, g) + Count(Row(clients - 1, perClient, groups), g)
  }

  /** Everything asked for, client by client. */
  function Asked(clients: nat, perClient: nat, groups: nat): seq<nat>
    requires 0 < groups
  {
    if clients == 0 then [] else Asked(clients - 1, perClient, groups) + Row(clients - 1, perClient, groups)
  }

  lemma {:induction false} CountIs(s: seq<nat>, g: nat)
    ensures Count(s, g) == multiset(s)[g]
    decreases |s|
  {
    if s != [] {
      CountIs(s[..|s| - 1], g);
      assert s == s[..|s| - 1] + [s[|s| - 1]];
    }
  }

  /** Chosen counts how often a group occurs in all that. */
  lemma {:induction false} ChosenIs(clients: nat, perClient: nat, groups: nat, g: nat)
    requires 0 < groups
    ensures Chosen(clients, perClient, groups, g) == multiset(Asked(clients, perClient, groups))[g]
    decreases clients
  {
    if clients > 0 {
      ChosenIs(clients - 1, perClient, groups, g);
      CountIs(Row(clients - 1, perClient, groups), g);
    }
  }

  /** The same sum, position by position. */
  lemma {:induction false} ChosenByColumn(clients: nat, perClient: nat, groups: nat, g: nat)
    requires 0 < groups && 0 < g && 0 < perClient
    ensures Chosen(clients, perClient, groups, g)
            == Chosen(clients, perClient - 1, groups, g) + Hits(perClient - 1, clients, g - 1, groups)
    decreases clients
  {
    if clients > 0 {
      ChosenByColumn(clients - 1, perClient, groups, g);
      var row := Row(clients - 1, perClient, groups);
      assert row[..perClient - 1] == Row(clients - 1, perClient - 1, groups);
      assert (clients - 1) + perClient - 1 == (perClient - 1) + clients - 1;
    }
  }

  lemma {:induction false} NothingChosen(clients: nat, groups: nat, g: nat)
    requires 0 < groups
    ensures Chosen(clients, 0, groups, g) == 0
    decreases clients
  {
    if clients > 0 {
      NothingChosen(clients - 1, groups, g);
    }
  }

  /** With as many clients as groups, or any multiple, every group is chosen equally often: perClient
      times per round of clients. */
  lemma {:induction false} Balanced(rounds: nat, perClient: nat, groups: nat, g: nat)
    requires 1 <= g <= groups
    ensures Chosen(rounds * groups, perClient, groups, g) == rounds * perClient
    decreases perClient
  {
    if perClient == 0 {
      NothingChosen(rounds * groups, groups, g);
    } else {
      Balanced(rounds, perClient - 1, groups, g);
      ChosenByColumn(rounds * groups, perClient, groups, g);
      HitsOfRounds(perClient - 1, rounds, g - 1, groups);
      assert rounds * perClient == rounds * (perClient - 1) + rounds;
    }
  }

  /** As a statement about the lists themselves. */
  lemma AskedEqually(rounds: nat, perClient: nat, groups: nat, g: nat)
    requires 1 <= g <= groups
    ensures multiset(Asked(rounds * groups, perClient, groups))[g] == rounds * perClient
  {
    Balanced(rounds, perClient, groups, g);
    ChosenIs(rounds * groups, perClient, groups, g);
  }
}
