/**
 How many actors of a batch get a friction profile: three nested percentages, rounded
 half to even, turned into disjoint counts.
 */
module FrictionCounts {
  import opened Sequences

  datatype Category = Hostile | Deceptive | Uncooperative

  datatype Assignment = Assignment(category: Category, intensity: int)

  /** Social friction intensities; the model validates them to lie between 0 and 100. */
  datatype Friction = Friction(hostile: nat, deceptive: nat, uncooperative: nat) {
    predicate Valid() {
      hostile <= 100 && deceptive <= 100 && uncooperative <= 100
    }
  }

  /** A hundredth, rounded to the nearest integer, halves to the even one. */
  function RoundHundredth(n: nat): (r: nat)
    ensures -50 <= n - 100 * r <= 50
    ensures n - 100 * r == 50 || n - 100 * r == -50 ==> r % 2 == 0
  {
    var q, rest := n / 100, n % 100;
    if rest < 50 || (rest == 50 && q % 2 == 0) then q else q + 1
  }

  /** Rounding is determined by its contract, and keeps order. */
  lemma RoundMonotone(m: nat, n: nat)
    requires m <= n
    ensures RoundHundredth(m) <= RoundHundredth(n)
  {
  }

  lemma RoundExact(n: nat)
    ensures RoundHundredth(n * 100) == n
  {
  }

  lemma ProductMonotone(total: nat, x: nat, y: nat)
    requires x <= y
    ensures total * x <= total * y
  {
    assert total * y == total * x + total * (y - x);
  }

  /** The percentage of the batch, rounded: the nearest integer, and the even one of two. */
  function Rounded(total: nat, intensity: nat): (r: nat)
    ensures -50 <= total * intensity - 100 * r <= 50
    ensures total * intensity - 100 * r == 50 || total * intensity - 100 * r == -50 ==> r % 2 == 0
  {
    RoundHundredth(total * intensity)
  }

  /** Only one number rounds it. */
  lemma RoundedIsUnique(total: nat, intensity: nat, r: nat)
    requires -50 <= total * intensity - 100 * r <= 50
    requires total * intensity - 100 * r == 50 || total * intensity - 100 * r == -50 ==> r % 2 == 0
    ensures r == Rounded(total, intensity)
  {
  }

  lemma RoundedWithin(total: nat, x: nat, y: nat)
    requires x <= y <= 100
    ensures Rounded(total, x) <= Rounded(total, y) <= total
  {
    ProductMonotone(total, x, y);
    ProductMonotone(total, y, 100);
    RoundMonotone(total * x, total * y);
    RoundMonotone(total * y, total * 100);
    RoundExact(total);
  }

  function Max(x: nat, y: nat): nat {
    if x >= y then x else y
  }

  function CountOf(s: seq<Assignment>, c: Category): nat {
    if s == [] then 0 else CountOf(s[..|s| - 1], c) + (if s[|s| - 1].category == c then 1 else 0)
  }

  function Positions(s: seq<Assignment>, c: Category): set<int> {
    set k | 0 <= k < |s| && s[k].category == c
  }

  lemma PositionsStep(s: seq<Assignment>, c: Category)
    requires s != []
    ensures var n := |s| - 1;
      Positions(s, c) == Positions(s[..n], c) + (if s[n].category == c then {n} else {})
  {
  }

  lemma {:induction false} CountMeans(s: seq<Assignment>, c: Category)
    ensures CountOf(s, c) == |Positions(s, c)|
    decreases |s|
  {
    if s != [] {
      CountMeans(s[..|s| - 1], c);
      PositionsStep(s, c);
    }
  }

  lemma {:induction false} CountPermutes(s: seq<Assignment>, r: seq<Assignment>, c: Category)
    requires multiset(s) == multiset(r)
    ensures CountOf(s, c) == CountOf(r, c)
    decreases |s|
  {
    PermutedMembers(s, r);
    if s != [] {
      var n := |s| - 1;
      var k := FindIn(s[n], s, r);
      WithoutLast(s);
      WithoutOne(r, k);
      CountPermutes(s[..n], r[..k] + r[k + 1..], c);
      CountWithout(r, k, c);
    }
  }

  lemma {:induction false} CountWithout(r: seq<Assignment>, k: nat, c: Category)
    requires k < |r|
    ensures CountOf(r, c) == CountOf(r[..k] + r[k + 1..], c) + (if r[k].category == c then 1 else 0)
    decreases |r|
  {
    var n := |r| - 1;
    var rest := r[..k] + r[k + 1..];
    if k < n {
      CountWithout(r[..n], k, c);
      assert rest[..|rest| - 1] == r[..n][..k] + r[..n][k + 1..];
    } else {
      assert rest == r[..n];
    }
  }

  /** The range from which the intensities of a category are drawn. */
  function Lowest(c: Category): int {
    match c case Hostile => 60 case Deceptive => 30 case Uncooperative => 15
  }

  function Highest(c: Category): int {
    match c case Hostile => 100 case Deceptive => 70 case Uncooperative => 50
  }

  ghost predicate Drawn(a: Assignment, draw: (nat, int, int) -> int) {
    exists k :: a.intensity == draw(k, Lowest(a.category), Highest(a.category))
  }

  /** `draw(k, low, high)` is the generator's `k`-th number, drawn between two bounds. */
  ghost predicate WithinBounds(draw: (nat, int, int) -> int) {
    forall k, low, high :: low <= high ==> low <= draw(k, low, high) <= high
  }

  /** `shuffle` is where the generator puts the assignments. The counts come out cumulative:
      hostile, then the larger of hostile and deceptive, then the largest of the three, all
      within the batch, so the final slice drops nothing; each intensity is in the range of
      its category. */
  method DistributeFriction(total: nat, friction: Friction, draw: (nat, int, int) -> int,
                            shuffle: seq<Assignment> -> seq<Assignment>)
    returns (assignments: seq<Assignment>)
    requires friction.Valid() && WithinBounds(draw)
    requires forall s :: multiset(shuffle(s)) == multiset(s)
    ensures var h, d, u := Rounded(total, friction.hostile), Rounded(total, friction.deceptive),
                           Rounded(total, friction.uncooperative);
      && CountOf(assignments, Hostile) == h
      && CountOf(assignments, Hostile) + CountOf(assignments, Deceptive) == (if d >= h then d else h)
      && |assignments| == (if u >= h && u >= d then u else if d >= h then d else h) <= total
      && CountOf(assignments, Hostile) + CountOf(assignments, Deceptive) + CountOf(assignments, Uncooperative)
         == |assignments|
    ensures forall a :: a in assignments ==>
              && (a.category == Hostile ==> 60 <= a.intensity <= 100 && exists k :: a.intensity == draw(k, 60, 100))
              && (a.category == Deceptive ==> 30 <= a.intensity <= 70 && exists k :: a.intensity == draw(k, 30, 70))
              && (a.category == Uncooperative ==> 15 <= a.intensity <= 50 && exists k :: a.intensity == draw(k, 15, 50))
  {
    var hostileN := Rounded(total, friction.hostile);
    var deceptiveN := Rounded(total, friction.deceptive);
    var uncoopN := Rounded(total, friction.uncooperative);
    RoundedWithin(total, friction.hostile, 100);
    RoundedWithin(total, friction.deceptive, 100);
    RoundedWithin(total, friction.uncooperative, 100);
    deceptiveN := if deceptiveN >= hostileN then deceptiveN - hostileN else 0;
    uncoopN := if uncoopN >= hostileN + deceptiveN then uncoopN - hostileN - deceptiveN else 0;

    assignments := Appended([], Hostile, hostileN, draw);
    assignments := Appended(assignments, Deceptive, deceptiveN, draw);
    assignments := Appended(assignments, Uncooperative, uncoopN, draw);
    var shuffled := shuffle(assignments);
    ShuffledSame(shuffled, assignments);
    assignments := shuffled[..if total <= |shuffled| then total else |shuffled|];
    assert assignments == shuffled;
  }

  lemma ShuffledSame(shuffled: seq<Assignment>, s: seq<Assignment>)
    requires multiset(shuffled) == multiset(s)
    ensures |shuffled| == |s| && forall c :: CountOf(shuffled, c) == CountOf(s, c)
    ensures forall a :: a in shuffled ==> a in s
  {
    PermutedMembers(shuffled, s);
    forall c ensures CountOf(shuffled, c) == CountOf(s, c) {
      CountPermutes(shuffled, s, c);
    }
  }

  /** One of the three appending loops; each assignment takes one number of the generator. */
  method Appended(before: seq<Assignment>, category: Category, count: nat, draw: (nat, int, int) -> int)
    returns (after: seq<Assignment>)
    requires WithinBounds(draw) && forall a :: a in before ==> Drawn(a, draw)
    ensures |after| == |before| + count && forall a :: a in after ==> Drawn(a, draw)
    ensures forall c :: CountOf(after, c) == CountOf(before, c) + (if c == category then count else 0)
  {
    after := before;
    for i := 0 to count
      invariant |after| == |before| + i && forall a :: a in after ==> Drawn(a, draw)
      invariant forall c :: CountOf(after, c) == CountOf(before, c) + (if c == category then i else 0)
    {
      ghost var previous := after;
      var intensity := draw(|after|, Lowest(category), Highest(category));
      after := after + [Assignment(category, intensity)];
      assert Drawn(Assignment(category, intensity), draw);
      assert after[..|after| - 1] == previous;
    }
  }
}
