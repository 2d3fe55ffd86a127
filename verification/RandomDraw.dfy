/**
 The weighted draw.  The table is the ordered list of its keys and weights; the number that the
 distribution yields is a parameter.  Sums are unbounded.
 */
module WeightedDraw {

  datatype Entry = Entry(key: int, weight: int)

  type Pool = seq<Entry>

  function Sum(pool: Pool): int {
    if pool == [] then 0 else Sum(pool[..|pool| - 1]) + pool[|pool| - 1].weight
  }

  /** The order of the map's keys. */
  predicate Ordered(pool: Pool) {
    forall i, j | 0 <= i < j < |pool| :: pool[i].key < pool[j].key
  }

  predicate NonNegative(pool: Pool) {
    forall i | 0 <= i < |pool| :: pool[i].weight >= 0
  }

  /** The sum of the weights up to and including entry `i`. */
  function Running(pool: Pool, i: nat): int
    requires i < |pool|
  {
    Sum(pool[..i + 1])
  }

  /** The first entry whose running sum exceeds the drawn number. */
  predicate Hits(pool: Pool, drawn: int, i: nat) {
    i < |pool| && drawn < Running(pool, i) && forall j: nat | j < i :: Running(pool, j) <= drawn
  }

  lemma SumStep(pool: Pool, i: nat)
    requires i < |pool|
    ensures Sum(pool[..i + 1]) == Sum(pool[..i]) + pool[i].weight
  {
    assert pool[..i + 1][..i] == pool[..i];
  }

  /** The draw: the key of the entry that the number hits, or -1 when it hits none or nothing has weight. */
  method RandomDraw(pool: Pool, drawn: int) returns (key: int)
    requires Ordered(pool)
    ensures Sum(pool) == 0 ==> key == -1
    ensures Sum(pool) != 0 ==> forall i: nat :: Hits(pool, drawn, i) ==> key == pool[i].key
    ensures (forall i: nat :: !Hits(pool, drawn, i)) ==> key == -1
  {
    var weight := 0;
    for i := 0 to |pool|
      invariant weight == Sum(pool[..i])
    {
      SumStep(pool, i);
      weight := weight + pool[i].weight;
    }
    assert pool[..|pool|] == pool;
    if weight == 0 {
      return -1;
    }
    var hit := drawn;
    for i := 0 to |pool|
      invariant hit == drawn - Sum(pool[..i])
      invariant forall j: nat | j < i :: Running(pool, j) <= drawn
    {
      SumStep(pool, i);
      hit := hit - pool[i].weight;
      if hit < 0 {
        assert Hits(pool, drawn, i);
        return pool[i].key;
      }
    }
    return -1;
  }

  lemma {:induction false} SumsGrow(pool: Pool, i: nat, j: nat)
    requires NonNegative(pool) && i <= j <= |pool|
    ensures Sum(pool[..i]) <= Sum(pool[..j])
    decreases j - i
  {
    if i < j {
      SumStep(pool, j - 1);
      SumsGrow(pool, i, j - 1);
    }
  }

  /** A number hits an entry exactly when it lies in the entry's share of the running sum. */
  lemma HitsIff(pool: Pool, drawn: nat, i: nat)
    requires NonNegative(pool) && i < |pool|
    ensures Hits(pool, drawn, i) <==> Sum(pool[..i]) <= drawn < Sum(pool[..i + 1])
  {
    if Sum(pool[..i]) <= drawn {
      forall j: nat | j < i
        ensures Running(pool, j) <= drawn
      {
        SumsGrow(pool, j + 1, i);
      }
    }
    if i > 0 && Hits(pool, drawn, i) {
      assert Running(pool, i - 1) <= drawn;
    }
    assert Sum(pool[..0]) == 0;
  }

  /** The numbers of which the draw returns the key of entry `i`. */
  function Draws(pool: Pool, i: nat): set<int> {
    set drawn | 0 <= drawn < Sum(pool) && Hits(pool, drawn, i)
  }

  lemma {:induction false} IntervalSize(s: set<int>, lo: int, hi: int)
    requires lo <= hi && forall x :: x in s <==> lo <= x < hi
    ensures |s| == hi - lo
    decreases hi - lo
  {
    if lo < hi {
      IntervalSize(s - {lo}, lo + 1, hi);
    } else {
      assert s == {};
    }
  }

  lemma ShareSize(pool: Pool, i: nat)
    requires NonNegative(pool) && i < |pool|
    ensures |Draws(pool, i)| == pool[i].weight
  {
    SumStep(pool, i);
    SumsGrow(pool, 0, i);
    SumsGrow(pool, i + 1, |pool|);
    assert pool[..|pool|] == pool && Sum(pool[..0]) == 0;
    forall drawn
      ensures drawn in Draws(pool, i) <==> Sum(pool[..i]) <= drawn < Sum(pool[..i + 1])
    {
      if drawn >= 0 {
        HitsIff(pool, drawn, i);
      }
    }
    IntervalSize(Draws(pool, i), Sum(pool[..i]), Sum(pool[..i + 1]));
  }

  /**
   Among the numbers below the total, each key is drawn as often as its weight says, exactly when no
   weight is negative.
   */
  lemma DrawsAreFairIff(pool: Pool)
    requires Ordered(pool) && Sum(pool) > 0
    ensures (forall i: nat | i < |pool| :: |Draws(pool, i)| == pool[i].weight) <==> NonNegative(pool)
  {
    if NonNegative(pool) {
      forall i: nat | i < |pool|
        ensures |Draws(pool, i)| == pool[i].weight
      {
        ShareSize(pool, i);
      }
    } else {
      var i :| 0 <= i < |pool| && pool[i].weight < 0;
      assert |Draws(pool, i)| >= 0;
    }
  }

  /** Every number below the total hits an entry; the total itself, which may be drawn too, hits none. */
  lemma OnlyTheTotalMisses(pool: Pool, drawn: nat)
    requires NonNegative(pool) && drawn <= Sum(pool)
    ensures (exists i :: Hits(pool, drawn, i)) <==> drawn < Sum(pool)
  {
    if drawn < Sum(pool) {
      var i := Hit(pool, drawn);
      assert Hits(pool, drawn, i);
    } else {
      forall i: nat
        ensures !Hits(pool, drawn, i)
      {
        if i < |pool| {
          SumsGrow(pool, i + 1, |pool|);
          assert pool[..|pool|] == pool;
        }
      }
    }
  }

  lemma {:induction false} Hit(pool: Pool, drawn: nat) returns (i: nat)
    requires NonNegative(pool) && drawn < Sum(pool)
    ensures Hits(pool, drawn, i)
    decreases |pool|
  {
    var shorter := pool[..|pool| - 1];
    if drawn < Sum(shorter) {
      i := Hit(shorter, drawn);
      assert shorter[..i + 1] == pool[..i + 1];
      forall j: nat | j < i
        ensures Running(pool, j) <= drawn
      {
        assert shorter[..j + 1] == pool[..j + 1];
        assert Running(shorter, j) <= drawn;
      }
    } else {
      i := |pool| - 1;
      assert pool[..i + 1] == pool;
      HitsIff(pool, drawn, i);
    }
  }
}
