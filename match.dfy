/**
 * Roommate compatibility scoring and the top-three ranking of
 * app/api/match/route.ts: `ruleScore(me, p)` and the
 * `candidates.map(...).sort(...).slice(0, 3)` pipeline of the match endpoint.
 */
module Match {
  import opened Opt

  /**
   * The profile fields the score reads. A lifestyle field is the text the
   * profile holds, `None` when absent; budget bounds are numbers, `None` when
   * null or absent; a missing interest list is the empty one.
   */
  datatype Profile = Profile(
    sleepSched: Option<string>,
    cleanliness: Option<string>,
    noise: Option<string>,
    guests: Option<string>,
    budgetMin: Option<real>,
    budgetMax: Option<real>,
    interests: seq<string>)

  // ---------------------------------------------------------------------
  // Lifestyle
  // ---------------------------------------------------------------------

  /** A field is truthy when present and not the empty string. */
  predicate Truthy(x: Option<string>) {
    x.Some? && x.value != ""
  }

  /** `if (a.f && b.f && a.f === b.f) s += weight`. */
  function FieldBonus(x: Option<string>, y: Option<string>, weight: nat): (r: nat)
    ensures r > 0 <==> weight > 0 && Truthy(x) && Truthy(y) && x == y
    ensures r == 0 || r == weight
  {
    if Truthy(x) && Truthy(y) && x.value == y.value then weight else 0
  }

  /** The four lifestyle bonuses: sleep schedule 8, cleanliness 10, noise 7, guests 5. */
  function Lifestyle(a: Profile, b: Profile): (r: nat)
    ensures r <= 30
  {
    FieldBonus(a.sleepSched, b.sleepSched, 8)
    + FieldBonus(a.cleanliness, b.cleanliness, 10)
    + FieldBonus(a.noise, b.noise, 7)
    + FieldBonus(a.guests, b.guests, 5)
  }

  // ---------------------------------------------------------------------
  // Budget
  // ---------------------------------------------------------------------

  function Min(x: real, y: real): real {
    if x <= y then x else y
  }

  function Max(x: real, y: real): real {
    if x >= y then x else y
  }

  /** Whether all four budget bounds are present. */
  predicate HasBudgets(a: Profile, b: Profile) {
    a.budgetMin.Some? && a.budgetMax.Some? && b.budgetMin.Some? && b.budgetMax.Some?
  }

  /** `Math.max(0, Math.min(a.max, b.max) - Math.max(a.min, b.min))`. */
  function Overlap(a: Profile, b: Profile): (r: real)
    requires HasBudgets(a, b)
    ensures r >= 0.0
  {
    var d := Min(a.budgetMax.value, b.budgetMax.value) - Max(a.budgetMin.value, b.budgetMin.value);
    if d > 0.0 then d else 0.0
  }

  /** +10 for overlapping budgets, -10 for disjoint ones, nothing unless all four bounds are set. */
  function BudgetAdjustment(a: Profile, b: Profile): (r: int)
    ensures r == 0 <==> !HasBudgets(a, b)
    ensures r == 10 || r == -10 || r == 0
  {
    if HasBudgets(a, b) then (if Overlap(a, b) > 0.0 then 10 else -10) else 0
  }

  /** `x` lies strictly between `lo` and `hi`. */
  predicate Inside(x: real, lo: real, hi: real) {
    lo < x < hi
  }

  /** Some budget lies strictly inside both ranges. */
  ghost predicate SharesInterior(a: Profile, b: Profile)
    requires HasBudgets(a, b)
  {
    exists x: real :: Inside(x, a.budgetMin.value, a.budgetMax.value) && Inside(x, b.budgetMin.value, b.budgetMax.value)
  }

  /**
   * With all four bounds set the adjustment is +10 exactly when the two
   * ranges share an interior point, and -10 otherwise.
   */
  lemma BudgetOverlapMeaning(a: Profile, b: Profile)
    requires HasBudgets(a, b)
    ensures BudgetAdjustment(a, b) == 10 <==> SharesInterior(a, b)
    ensures BudgetAdjustment(a, b) == -10 <==> !SharesInterior(a, b)
  {
    var lo := Max(a.budgetMin.value, b.budgetMin.value);
    var hi := Min(a.budgetMax.value, b.budgetMax.value);
    if hi > lo {
      var x := (lo + hi) / 2.0;
      assert Inside(x, a.budgetMin.value, a.budgetMax.value) && Inside(x, b.budgetMin.value, b.budgetMax.value);
    } else {
      forall x | Inside(x, a.budgetMin.value, a.budgetMax.value)
        ensures !Inside(x, b.budgetMin.value, b.budgetMax.value)
      {
      }
    }
  }

  /** Ranges that only touch, one ending where the other begins, share no interior point and count as disjoint. */
  lemma TouchingBudgetsDisjoint(a: Profile, b: Profile)
    requires HasBudgets(a, b) && a.budgetMax.value == b.budgetMin.value
    ensures !SharesInterior(a, b)
    ensures BudgetAdjustment(a, b) == -10
  {
    forall x | Inside(x, a.budgetMin.value, a.budgetMax.value)
      ensures !Inside(x, b.budgetMin.value, b.budgetMax.value)
    {
    }
  }

  // ---------------------------------------------------------------------
  // Interests
  // ---------------------------------------------------------------------

  /** The entries of a list, as a set: `new Set(xs)`. */
  function Elems(xs: seq<string>): set<string> {
    set x | x in xs
  }

  /** `[...new Set(xs)]`: the distinct entries in order of first occurrence. */
  function Distinct(xs: seq<string>): (d: seq<string>)
    ensures Elems(d) == Elems(xs)
    ensures forall i, j :: 0 <= i < j < |d| ==> d[i] != d[j]
    decreases |xs|
  {
    if xs == [] then []
    else
      var d := Distinct(xs[..|xs| - 1]);
      assert xs == xs[..|xs| - 1] + [xs[|xs| - 1]];
      assert Elems(xs) == Elems(xs[..|xs| - 1]) + {xs[|xs| - 1]};
      if xs[|xs| - 1] in d then d else d + [xs[|xs| - 1]]
  }

  /** `xs.filter(x => bs.has(x))`. */
  function KeepIn(xs: seq<string>, bs: set<string>): (r: seq<string>)
    ensures |r| <= |xs|
    decreases |xs|
  {
    if xs == [] then []
    else if xs[|xs| - 1] in bs then KeepIn(xs[..|xs| - 1], bs) + [xs[|xs| - 1]]
    else KeepIn(xs[..|xs| - 1], bs)
  }

  /**
   * `[...ai].filter(x => bi.has(x)).length`: the number of distinct
   * interests both lists hold.
   */
  function CommonCount(a: seq<string>, b: seq<string>): (r: nat)
    ensures r == |Elems(a) * Elems(b)|
  {
    KeepInCount(Distinct(a), Elems(b));
    |KeepIn(Distinct(a), Elems(b))|
  }

  /** Filtering a duplicate-free list counts the members of its set that pass. */
  lemma {:induction false} KeepInCount(d: seq<string>, bs: set<string>)
    requires forall i, j :: 0 <= i < j < |d| ==> d[i] != d[j]
    ensures |KeepIn(d, bs)| == |Elems(d) * bs|
    decreases |d|
  {
    if d != [] {
      var init, last := d[..|d| - 1], d[|d| - 1];
      KeepInCount(init, bs);
      assert d == init + [last];
      assert last !in init;
      var s0 := Elems(init) * bs;
      if last in bs {
        assert Elems(d) * bs == s0 + {last};
      } else {
        assert Elems(d) * bs == s0;
      }
    }
  }

  /** `Math.min(15, common * 5)`: five points per distinct shared interest, capped at fifteen. */
  function InterestBonus(a: Profile, b: Profile): (r: nat)
    ensures r <= 15 && r % 5 == 0
    ensures var n := |Elems(a.interests) * Elems(b.interests)|;
            r == if n < 3 then 5 * n else 15
  {
    var c := CommonCount(a.interests, b.interests);
    if c * 5 < 15 then c * 5 else 15
  }

  /** Listing an interest twice changes nothing. */
  lemma DuplicateInterestsIgnored(a: Profile, b: Profile, x: string)
    requires x in a.interests
    ensures InterestBonus(a.(interests := a.interests + [x]), b) == InterestBonus(a, b)
  {
    var a' := a.(interests := a.interests + [x]);
    assert Elems(a'.interests) == Elems(a.interests);
  }

  // ---------------------------------------------------------------------
  // The score
  // ---------------------------------------------------------------------

  /** `Math.max(0, Math.min(100, s))`. */
  function Clamp(s: int): (r: int)
    ensures 0 <= r <= 100
    ensures 0 <= s <= 100 ==> r == s
  {
    if s < 0 then 0 else if s > 100 then 100 else s
  }

  /** `ruleScore(a, b)`: 50, plus lifestyle, budget and interest terms, clamped to [0, 100]. */
  function RuleScore(a: Profile, b: Profile): (s: int)
    ensures 40 <= s <= 100
  {
    Clamp(50 + Lifestyle(a, b) + BudgetAdjustment(a, b) + InterestBonus(a, b))
  }

  /** The score does not depend on which profile is "me". */
  lemma RuleScoreSymmetric(a: Profile, b: Profile)
    ensures RuleScore(a, b) == RuleScore(b, a)
  {
    assert Elems(a.interests) * Elems(b.interests)
        == Elems(b.interests) * Elems(a.interests);
  }

  // ---------------------------------------------------------------------
  // Ranking
  // ---------------------------------------------------------------------

  /** `{ p, score }`. */
  datatype Scored = Scored(p: Profile, score: int)

  /** `candidates.map(p => ({ p, score: ruleScore(me, p) }))`. */
  function ScoreAll(me: Profile, candidates: seq<Profile>): (r: seq<Scored>)
    ensures |r| == |candidates|
    ensures forall i :: 0 <= i < |r| ==> r[i].p == candidates[i] && r[i].score == RuleScore(me, candidates[i])
  {
    seq(|candidates|, i requires 0 <= i < |candidates| => Scored(candidates[i], RuleScore(me, candidates[i])))
  }

  predicate SortedDesc(xs: seq<Scored>) {
    forall i, j :: 0 <= i < j < |xs| ==> xs[i].score >= xs[j].score
  }

  /** Put `x` before the first entry that does not outscore it. */
  function Insert(x: Scored, ys: seq<Scored>): (r: seq<Scored>)
    ensures multiset(r) == multiset(ys) + multiset{x}
    ensures |r| == |ys| + 1
    ensures r[0] == if ys == [] || x.score >= ys[0].score then x else ys[0]
    decreases |ys|
  {
    if ys == [] || x.score >= ys[0].score then [x] + ys
    else
      assert ys == [ys[0]] + ys[1..];
      [ys[0]] + Insert(x, ys[1..])
  }

  /** Inserting into a list sorted by score keeps it sorted. */
  lemma {:induction false} InsertSorted(x: Scored, ys: seq<Scored>)
    requires SortedDesc(ys)
    ensures SortedDesc(Insert(x, ys))
    decreases |ys|
  {
    if ys != [] && x.score < ys[0].score {
      var rest := Insert(x, ys[1..]);
      InsertSorted(x, ys[1..]);
      var r := Insert(x, ys);
      assert r == [ys[0]] + rest;
      forall i, j | 0 <= i < j < |r|
        ensures r[i].score >= r[j].score
      {
        if i == 0 {
          assert ys[0].score >= rest[0].score >= rest[j - 1].score;
        } else {
          assert r[i] == rest[i - 1] && r[j] == rest[j - 1];
        }
      }
    }
  }

  /**
   * `.sort((a, b) => b.score - a.score)`, which is stable: scores in
   * non-increasing order, a permutation of the input.
   */
  function SortByScore(xs: seq<Scored>): (r: seq<Scored>)
    ensures SortedDesc(r)
    ensures multiset(r) == multiset(xs)
    ensures |r| == |xs|
    decreases |xs|
  {
    if xs == [] then []
    else
      assert xs == [xs[0]] + xs[1..];
      InsertSorted(xs[0], SortByScore(xs[1..]));
      Insert(xs[0], SortByScore(xs[1..]))
  }

  /** The entries of `xs` with score `v`, in order. */
  function WithScore(xs: seq<Scored>, v: int): seq<Scored>
    decreases |xs|
  {
    if xs == [] then []
    else (if xs[0].score == v then [xs[0]] else []) + WithScore(xs[1..], v)
  }

  lemma {:induction false} WithScoreInsert(x: Scored, ys: seq<Scored>, v: int)
    ensures WithScore(Insert(x, ys), v) == (if x.score == v then [x] else []) + WithScore(ys, v)
    decreases |ys|
  {
    var r := Insert(x, ys);
    var own := if x.score == v then [x] else [];
    if ys == [] || x.score >= ys[0].score {
      assert r[1..] == ys;
    } else {
      var rest := Insert(x, ys[1..]);
      assert r[1..] == rest;
      WithScoreInsert(x, ys[1..], v);
      var head := if ys[0].score == v then [ys[0]] else [];
      assert WithScore(r, v) == head + (own + WithScore(ys[1..], v));
      assert WithScore(ys, v) == head + WithScore(ys[1..], v);
      assert head == [] || own == [];
    }
  }

  /** Stability: the sort keeps the input order among entries with equal scores. */
  lemma {:induction false} SortKeepsTies(xs: seq<Scored>, v: int)
    ensures WithScore(SortByScore(xs), v) == WithScore(xs, v)
    decreases |xs|
  {
    if xs != [] {
      SortKeepsTies(xs[1..], v);
      WithScoreInsert(xs[0], SortByScore(xs[1..]), v);
    }
  }

  /** A rearrangement of the scored candidates holds only candidates, each with its own score. */
  lemma ScoredEntries(me: Profile, candidates: seq<Profile>, xs: seq<Scored>)
    requires multiset(xs) == multiset(ScoreAll(me, candidates))
    ensures forall i :: 0 <= i < |xs| ==> xs[i].p in candidates && xs[i].score == RuleScore(me, xs[i].p)
  {
    var all := ScoreAll(me, candidates);
    forall i | 0 <= i < |xs|
      ensures xs[i].p in candidates && xs[i].score == RuleScore(me, xs[i].p)
    {
      assert xs[i] in multiset(all);
      var k :| 0 <= k < |all| && all[k] == xs[i];
    }
  }

  /** `.slice(0, 3)` of the sorted scores: the top three matches, best first, each with its score. */
  function Top(me: Profile, candidates: seq<Profile>): (r: seq<Scored>)
    ensures |r| == if |candidates| < 3 then |candidates| else 3
    ensures SortedDesc(r)
    ensures forall i :: 0 <= i < |r| ==> r[i].p in candidates && r[i].score == RuleScore(me, r[i].p)
  {
    var all := ScoreAll(me, candidates);
    var sorted := SortByScore(all);
    var n := if |sorted| < 3 then |sorted| else 3;
    ScoredEntries(me, candidates, sorted);
    assert SortedDesc(sorted[..n]);
    sorted[..n]
  }

  /** A prefix of a list sorted by score holds its best entries: nothing after it outscores anything in it. */
  lemma PrefixIsBest(sorted: seq<Scored>, n: nat)
    requires SortedDesc(sorted) && n <= |sorted|
    ensures multiset(sorted[..n]) <= multiset(sorted)
    ensures forall x: Scored, i :: x in multiset(sorted) - multiset(sorted[..n]) && 0 <= i < n ==> x.score <= sorted[i].score
  {
    assert sorted == sorted[..n] + sorted[n..];
    assert multiset(sorted) == multiset(sorted[..n]) + multiset(sorted[n..]);
    forall x: Scored, i | x in multiset(sorted) - multiset(sorted[..n]) && 0 <= i < n
      ensures x.score <= sorted[i].score
    {
      assert x in multiset(sorted[n..]);
      var j :| 0 <= j < |sorted[n..]| && sorted[n..][j] == x;
      assert sorted[n + j] == x;
    }
  }

  /** The top three are candidates' entries, and no candidate left out scores more than one kept. */
  lemma TopIsBest(me: Profile, candidates: seq<Profile>)
    ensures multiset(Top(me, candidates)) <= multiset(ScoreAll(me, candidates))
    ensures forall x: Scored, i :: x in multiset(ScoreAll(me, candidates)) - multiset(Top(me, candidates)) && 0 <= i < |Top(me, candidates)|
                                   ==> x.score <= Top(me, candidates)[i].score
  {
    var sorted := SortByScore(ScoreAll(me, candidates));
    PrefixIsBest(sorted, |Top(me, candidates)|);
  }
}
