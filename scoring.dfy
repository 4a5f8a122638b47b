/**
 * The scoring engine of the career quiz: it tallies the answer values of a
 * finished quiz, turns each declared profile's count into a rounded
 * percentage, ranks the profiles by percentage with a stable sort and
 * takes the head of that ranking as the primary profile.
 */
module Scoring {

  /** The keys of `careerProfiles`, in declaration order. */
  const ProfileKeys: seq<string> := ["analytical", "creative", "social", "leadership"]

  /** One entry of `Object.entries(careerProfiles)`: a key and its computed percentage. */
  datatype ProfileScore = ProfileScore(key: string, percentage: nat)

  lemma ProfileKeysDistinct()
    ensures forall i, j | 0 <= i < j < |ProfileKeys| :: ProfileKeys[i] != ProfileKeys[j]
  {
    assert ProfileKeys[0][0] == 'a' && ProfileKeys[3][0] == 'l';
  }

  /** Position of `key` in the declaration order; |ProfileKeys| for an undeclared key. */
  function DeclIndex(key: string): (d: nat)
    ensures d <= |ProfileKeys|
    ensures d < |ProfileKeys| ==> ProfileKeys[d] == key
    ensures forall i | 0 <= i < d :: ProfileKeys[i] != key
  {
    if key == ProfileKeys[0] then 0
    else if key == ProfileKeys[1] then 1
    else if key == ProfileKeys[2] then 2
    else if key == ProfileKeys[3] then 3
    else 4
  }

  lemma DeclIndexOfKey(i: nat)
    requires i < |ProfileKeys|
    ensures DeclIndex(ProfileKeys[i]) == i
  {
    ProfileKeysDistinct();
  }

  // ---------------------------------------------------------------------
  // Tally: the `reduce` over Object.values(answers)
  // ---------------------------------------------------------------------

  /**
   * The `scores` record: a left fold that, for each answer, sets
   * `acc[answer] = (acc[answer] || 0) + 1`. Its keys are exactly the values
   * that occur, and each maps to the number of answers carrying it.
   */
  function Tally(values: seq<string>): (scores: map<string, nat>)
    ensures forall key :: key in scores <==> key in multiset(values)
    ensures forall key | key in scores :: scores[key] == multiset(values)[key]
  {
    if values == [] then map[]
    else
      var acc := Tally(values[..|values| - 1]);
      var answer := values[|values| - 1];
      assert values == values[..|values| - 1] + [answer];
      acc[answer := (if answer in acc then acc[answer] else 0) + 1]
  }

  /** `scores[key] || 0`: a key that no answer carries reads as 0. */
  function ScoreOf(scores: map<string, nat>, key: string): (score: nat)
  {
    if key in scores then scores[key] else 0
  }

  lemma ScoreOfTally(values: seq<string>, key: string)
    ensures ScoreOf(Tally(values), key) == multiset(values)[key]
  {
  }

  /** Sum of the four declared profiles' counts in `m`. */
  function DeclaredTotal(m: multiset<string>): (sum: nat)
  {
    m[ProfileKeys[0]] + m[ProfileKeys[1]] + m[ProfileKeys[2]] + m[ProfileKeys[3]]
  }

  /** When every answer value is a declared key, the four counts add up to the number of answers. */
  lemma {:induction false} CountsSumToTotal(values: seq<string>)
    requires forall v | v in values :: v in ProfileKeys
    ensures DeclaredTotal(multiset(values)) == |values|
  {
    if values != [] {
      var init, last := values[..|values| - 1], values[|values| - 1];
      assert values == init + [last];
      assert forall v | v in init :: v in values;
      CountsSumToTotal(init);
      assert multiset(values) == multiset(init) + multiset{last};
      assert DeclaredTotal(multiset{last}) == 1 by {
        ProfileKeysDistinct();
        assert last in values;
      }
    }
  }

  // ---------------------------------------------------------------------
  // Percentages: Math.round(count / total * 100)
  // ---------------------------------------------------------------------

  /**
   * `Math.round(count / total * 100)` on integers: the integer nearest to
   * 100*count/total, halves rounded up.
   */
  function RoundPercent(count: nat, total: nat): (pct: nat)
    requires total > 0
    ensures pct * (2 * total) <= 200 * count + total < (pct + 1) * (2 * total)
  {
    (200 * count + total) / (2 * total)
  }

  lemma MulCancel(a: int, b: int, c: int)
    requires c > 0 && a * c < b * c
    ensures a < b
  {
    assert (b - a) * c == b * c - a * c;
  }

  /** A percentage never exceeds 100; no matching answer gives 0 and all answers matching give 100. */
  lemma RoundPercentBounds(count: nat, total: nat)
    requires total > 0 && count <= total
    ensures RoundPercent(count, total) <= 100
    ensures count == 0 ==> RoundPercent(count, total) == 0
    ensures count == total ==> RoundPercent(count, total) == 100
  {
    var p := RoundPercent(count, total);
    MulCancel(p, 101, 2 * total);
    if count == 0 {
      MulCancel(p, 1, 2 * total);
    }
    if count == total {
      MulCancel(100, p + 1, 2 * total);
    }
  }

  /** All percentages share one total, so a larger count never gets a smaller percentage. */
  lemma RoundPercentMonotone(c1: nat, c2: nat, total: nat)
    requires total > 0 && c1 <= c2
    ensures RoundPercent(c1, total) <= RoundPercent(c2, total)
  {
    var p1, p2 := RoundPercent(c1, total), RoundPercent(c2, total);
    MulCancel(p1, p2 + 1, 2 * total);
  }

  /** The `percentage` field of each profile after the `forEach`, in declaration order. */
  function Percentages(scores: map<string, nat>, total: nat): (pcts: seq<nat>)
    requires total > 0
    ensures |pcts| == |ProfileKeys|
  {
    seq(|ProfileKeys|, i requires 0 <= i < |ProfileKeys| => RoundPercent(ScoreOf(scores, ProfileKeys[i]), total))
  }

  /**
   * The `forEach` over the profile keys that overwrites each profile's
   * `percentage` field in place; `percentage[i]` is the field of the
   * profile declared i-th.
   */
  method AssignPercentages(scores: map<string, nat>, total: nat, percentage: array<nat>)
    requires total > 0
    requires percentage.Length == |ProfileKeys|
    modifies percentage
    ensures percentage[..] == Percentages(scores, total)
  {
    for i := 0 to |ProfileKeys|
      invariant forall k | 0 <= k < i :: percentage[k] == RoundPercent(ScoreOf(scores, ProfileKeys[k]), total)
    {
      percentage[i] := RoundPercent(ScoreOf(scores, ProfileKeys[i]), total);
    }
  }

  /**
   * `Object.entries(careerProfiles)` once the percentages are assigned:
   * every declared profile, in declaration order, with its rounded share
   * of the answers — including profiles that no answer selected.
   */
  function Breakdown(values: seq<string>): (entries: seq<ProfileScore>)
    requires |values| > 0
    ensures |entries| == |ProfileKeys|
    ensures forall i | 0 <= i < |ProfileKeys| ::
      entries[i] == ProfileScore(ProfileKeys[i], RoundPercent(multiset(values)[ProfileKeys[i]], |values|))
  {
    var pcts := Percentages(Tally(values), |values|);
    seq(|ProfileKeys|, i requires 0 <= i < |ProfileKeys| => ProfileScore(ProfileKeys[i], pcts[i]))
  }

  /** Every percentage of the breakdown lies in 0..100. */
  lemma BreakdownInRange(values: seq<string>)
    requires |values| > 0
    ensures forall e | e in Breakdown(values) :: e.percentage <= 100
  {
    var b := Breakdown(values);
    forall e | e in b ensures e.percentage <= 100 {
      var i :| 0 <= i < |b| && b[i] == e;
      var m := multiset(values);
      assert m[ProfileKeys[i]] <= |m|;
      RoundPercentBounds(m[ProfileKeys[i]], |values|);
    }
  }

  /** A profile with more matching answers never ranks below one with fewer, by percentage. */
  lemma BreakdownMonotone(values: seq<string>, i: nat, j: nat)
    requires |values| > 0 && i < |ProfileKeys| && j < |ProfileKeys|
    requires multiset(values)[ProfileKeys[i]] >= multiset(values)[ProfileKeys[j]]
    ensures Breakdown(values)[i].percentage >= Breakdown(values)[j].percentage
  {
    RoundPercentMonotone(multiset(values)[ProfileKeys[j]], multiset(values)[ProfileKeys[i]], |values|);
  }

  // ---------------------------------------------------------------------
  // Ranking: a stable sort, descending by percentage
  // ---------------------------------------------------------------------

  predicate NonIncreasing(s: seq<ProfileScore>)
  {
    forall i, j | 0 <= i < j < |s| :: s[i].percentage >= s[j].percentage
  }

  /**
   * Inserts `x` into a ranking after every entry whose percentage is at
   * least `x`'s: the step of a stable sort with comparator
   * `b.percentage - a.percentage`.
   */
  function Insert(x: ProfileScore, r: seq<ProfileScore>): (r': seq<ProfileScore>)
    ensures |r'| == |r| + 1
    ensures multiset(r') == multiset(r) + multiset{x}
  {
    if r == [] then [x]
    else if r[0].percentage >= x.percentage then
      assert r == [r[0]] + r[1..];
      [r[0]] + Insert(x, r[1..])
    else
      [x] + r
  }

  lemma {:induction false} InsertKeepsOrder(x: ProfileScore, r: seq<ProfileScore>)
    requires NonIncreasing(r)
    ensures NonIncreasing(Insert(x, r))
  {
    if r == [] {
    } else if r[0].percentage >= x.percentage {
      var rest := Insert(x, r[1..]);
      InsertKeepsOrder(x, r[1..]);
      forall k | 0 <= k < |rest| ensures r[0].percentage >= rest[k].percentage {
        assert rest[k] in multiset(rest);
        if rest[k] != x {
          assert rest[k] in multiset(r[1..]);
          var m :| 0 <= m < |r[1..]| && r[1..][m] == rest[k];
          assert r[m + 1] == rest[k];
        }
      }
      var r' := Insert(x, r);
      assert r' == [r[0]] + rest;
      forall i, j | 0 <= i < j < |r'| ensures r'[i].percentage >= r'[j].percentage {
        if i > 0 {
          assert r'[i] == rest[i - 1] && r'[j] == rest[j - 1];
        } else {
          assert r'[j] == rest[j - 1];
        }
      }
    } else {
      forall k | 0 <= k < |r| ensures x.percentage > r[k].percentage {
        assert r[0].percentage >= r[k].percentage;
      }
    }
  }

  /**
   * `Object.entries(careerProfiles).sort(([, a], [, b]) => b.percentage - a.percentage)`.
   * `Array.prototype.sort` is stable (ECMA-262, 2019 edition onward), which
   * this insertion sort is too.
   */
  function SortByPercentage(s: seq<ProfileScore>): (r: seq<ProfileScore>)
    ensures |r| == |s|
    ensures NonIncreasing(r)
    ensures multiset(r) == multiset(s)
  {
    if s == [] then []
    else
      assert s == s[..|s| - 1] + [s[|s| - 1]];
      var sorted := SortByPercentage(s[..|s| - 1]);
      InsertKeepsOrder(s[|s| - 1], sorted);
      Insert(s[|s| - 1], sorted)
  }

  /** The entries of `s` whose percentage is `p`, in their order in `s`. */
  function Ties(s: seq<ProfileScore>, p: nat): (tied: seq<ProfileScore>)
  {
    if s == [] then []
    else (if s[0].percentage == p then [s[0]] else []) + Ties(s[1..], p)
  }

  lemma {:induction false} TiesAppend(a: seq<ProfileScore>, b: seq<ProfileScore>, p: nat)
    ensures Ties(a + b, p) == Ties(a, p) + Ties(b, p)
  {
    if a == [] {
      assert a + b == b;
    } else {
      assert (a + b)[0] == a[0] && (a + b)[1..] == a[1..] + b;
      TiesAppend(a[1..], b, p);
      var head := if a[0].percentage == p then [a[0]] else [];
      calc {
        Ties(a + b, p);
        head + Ties(a[1..] + b, p);
        head + (Ties(a[1..], p) + Ties(b, p));
        (head + Ties(a[1..], p)) + Ties(b, p);
        Ties(a, p) + Ties(b, p);
      }
    }
  }

  lemma {:induction false} TiesMembers(s: seq<ProfileScore>, p: nat)
    ensures forall e :: e in Ties(s, p) <==> e in s && e.percentage == p
  {
    if s != [] {
      TiesMembers(s[1..], p);
      assert s == [s[0]] + s[1..];
    }
  }

  lemma {:induction false} TiesNone(s: seq<ProfileScore>, p: nat)
    requires forall k | 0 <= k < |s| :: s[k].percentage != p
    ensures Ties(s, p) == []
  {
    if s != [] {
      TiesNone(s[1..], p);
    }
  }

  lemma {:induction false} InsertTies(x: ProfileScore, r: seq<ProfileScore>, p: nat)
    requires NonIncreasing(r)
    ensures Ties(Insert(x, r), p) == Ties(r, p) + (if x.percentage == p then [x] else [])
  {
    if r == [] {
    } else if r[0].percentage >= x.percentage {
      InsertTies(x, r[1..], p);
      TiesAppend([r[0]], Insert(x, r[1..]), p);
      assert Ties(r, p) == Ties([r[0]], p) + Ties(r[1..], p) by {
        assert r == [r[0]] + r[1..];
        TiesAppend([r[0]], r[1..], p);
      }
    } else {
      if x.percentage == p {
        forall k | 0 <= k < |r| ensures r[k].percentage != p {
          assert r[0].percentage >= r[k].percentage;
        }
        TiesNone(r, p);
      }
      TiesAppend([x], r, p);
    }
  }

  /** Stability: for each percentage, the tied entries keep their input order. */
  lemma TiesSnoc(s: seq<ProfileScore>, x: ProfileScore, p: nat)
    ensures Ties(s + [x], p) == Ties(s, p) + (if x.percentage == p then [x] else [])
  {
    TiesAppend(s, [x], p);
    assert [x][1..] == [];
  }

  lemma {:induction false} SortIsStable(s: seq<ProfileScore>, p: nat)
    ensures Ties(SortByPercentage(s), p) == Ties(s, p)
  {
    if s != [] {
      var init, last := s[..|s| - 1], s[|s| - 1];
      assert s == init + [last];
      assert SortByPercentage(s) == Insert(last, SortByPercentage(init));
      SortIsStable(init, p);
      InsertTies(last, SortByPercentage(init), p);
      TiesSnoc(init, last, p);
    }
  }

  /** A ranking that is already in order is left as it is. */
  lemma {:induction false} SortKeepsOrdered(s: seq<ProfileScore>)
    requires NonIncreasing(s)
    ensures SortByPercentage(s) == s
  {
    if s != [] {
      var init, last := s[..|s| - 1], s[|s| - 1];
      SortKeepsOrdered(init);
      assert SortByPercentage(s) == Insert(last, SortByPercentage(init));
      InsertAtEnd(last, init);
      assert s == init + [last];
    }
  }

  lemma {:induction false} InsertAtEnd(x: ProfileScore, r: seq<ProfileScore>)
    requires NonIncreasing(r)
    requires forall e | e in r :: e.percentage >= x.percentage
    ensures Insert(x, r) == r + [x]
  {
    if r != [] {
      assert r[0] in r;
      InsertAtEnd(x, r[1..]);
      assert r == [r[0]] + r[1..];
    }
  }

  /** Entries are strictly in declaration order. */
  predicate DeclOrdered(s: seq<ProfileScore>)
  {
    forall i, j | 0 <= i < j < |s| :: DeclIndex(s[i].key) < DeclIndex(s[j].key)
  }

  lemma {:induction false} TiesKeepDeclOrder(s: seq<ProfileScore>, p: nat)
    requires DeclOrdered(s)
    ensures DeclOrdered(Ties(s, p))
  {
    if s != [] {
      TiesKeepDeclOrder(s[1..], p);
      TiesMembers(s[1..], p);
      var t := Ties(s[1..], p);
      forall e | e in t ensures DeclIndex(s[0].key) < DeclIndex(e.key) {
        var k :| 0 <= k < |s[1..]| && s[1..][k] == e;
        assert s[k + 1] == e;
      }
    }
  }

  /** If the tied entries of `r` are in declaration order, so is every pair of tied entries of `r`. */
  lemma {:induction false} TiedPairsInDeclOrder(r: seq<ProfileScore>, p: nat)
    requires DeclOrdered(Ties(r, p))
    ensures forall i, j | 0 <= i < j < |r| && r[i].percentage == p && r[j].percentage == p ::
      DeclIndex(r[i].key) < DeclIndex(r[j].key)
  {
    if r != [] {
      var t := Ties(r[1..], p);
      assert Ties(r, p) == (if r[0].percentage == p then [r[0]] else []) + t;
      assert DeclOrdered(t) by {
        if r[0].percentage == p {
          var whole := Ties(r, p);
          forall i, j | 0 <= i < j < |t| ensures DeclIndex(t[i].key) < DeclIndex(t[j].key) {
            assert t[i] == whole[i + 1] && t[j] == whole[j + 1];
            assert DeclIndex(whole[i + 1].key) < DeclIndex(whole[j + 1].key);
          }
        } else {
          assert Ties(r, p) == t;
        }
      }
      TiedPairsInDeclOrder(r[1..], p);
      TiesMembers(r[1..], p);
      forall i, j | 0 <= i < j < |r| && r[i].percentage == p && r[j].percentage == p
        ensures DeclIndex(r[i].key) < DeclIndex(r[j].key)
      {
        if i == 0 {
          assert r[j] == r[1..][j - 1];
          assert r[j] in t;
          var k :| 0 <= k < |t| && t[k] == r[j];
          assert Ties(r, p)[0] == r[0] && Ties(r, p)[k + 1] == r[j];
        } else {
          assert r[i] == r[1..][i - 1] && r[j] == r[1..][j - 1];
        }
      }
    }
  }

  lemma BreakdownDeclOrdered(values: seq<string>)
    requires |values| > 0
    ensures DeclOrdered(Breakdown(values))
  {
    var b := Breakdown(values);
    forall i | 0 <= i < |b| ensures DeclIndex(b[i].key) == i {
      DeclIndexOfKey(i);
    }
  }

  /** The ranked breakdown that the results page lists, highest percentage first. */
  function Ranking(values: seq<string>): (r: seq<ProfileScore>)
    requires |values| > 0
    ensures |r| == |ProfileKeys|
    ensures NonIncreasing(r)
    ensures multiset(r) == multiset(Breakdown(values))
  {
    SortByPercentage(Breakdown(values))
  }

  /** Equal percentages keep the declaration order analytical, creative, social, leadership. */
  lemma RankingTieOrder(values: seq<string>)
    requires |values| > 0
    ensures forall i, j | 0 <= i < j < |Ranking(values)| && Ranking(values)[i].percentage == Ranking(values)[j].percentage ::
      DeclIndex(Ranking(values)[i].key) < DeclIndex(Ranking(values)[j].key)
  {
    var b, r := Breakdown(values), Ranking(values);
    BreakdownDeclOrdered(values);
    forall i, j | 0 <= i < j < |r| && r[i].percentage == r[j].percentage
      ensures DeclIndex(r[i].key) < DeclIndex(r[j].key)
    {
      var p := r[i].percentage;
      SortIsStable(b, p);
      TiesKeepDeclOrder(b, p);
      TiedPairsInDeclOrder(r, p);
    }
  }

  /** The ranking lists every declared profile, so one that no answer selected appears with 0%. */
  lemma UnselectedProfileListed(values: seq<string>, i: nat)
    requires |values| > 0 && i < |ProfileKeys|
    requires ProfileKeys[i] !in values
    ensures ProfileScore(ProfileKeys[i], 0) in Ranking(values)
  {
    var b := Breakdown(values);
    assert b[i] == ProfileScore(ProfileKeys[i], 0);
    assert b[i] in multiset(b);
  }

  /** `primaryProfile`: the first entry of the ranking. */
  function Primary(values: seq<string>): (p: ProfileScore)
    requires |values| > 0
    ensures p in Breakdown(values)
  {
    var r := Ranking(values);
    assert r[0] in multiset(r);
    r[0]
  }

  /**
   * The primary profile has the highest percentage, and among the
   * profiles tied at that percentage it is the earliest declared.
   */
  lemma PrimaryIsBest(values: seq<string>)
    requires |values| > 0
    ensures forall e | e in Breakdown(values) :: e.percentage <= Primary(values).percentage
    ensures forall e | e in Breakdown(values) && e.percentage == Primary(values).percentage ::
      DeclIndex(Primary(values).key) <= DeclIndex(e.key)
  {
    var b, r := Breakdown(values), Ranking(values);
    RankingTieOrder(values);
    forall e | e in b
      ensures e.percentage <= r[0].percentage
      ensures e.percentage == r[0].percentage ==> DeclIndex(r[0].key) <= DeclIndex(e.key)
    {
      assert e in multiset(r);
      var j :| 0 <= j < |r| && r[j] == e;
    }
  }

  lemma ExampleCounts(values: seq<string>)
    requires values == ["analytical", "creative", "analytical", "creative", "social"]
    ensures multiset(values)["analytical"] == 2 && multiset(values)["creative"] == 2
    ensures multiset(values)["social"] == 1 && multiset(values)["leadership"] == 0
  {
    assert multiset(values) == multiset{"analytical", "analytical", "creative", "creative", "social"};
    ProfileKeysDistinct();
  }

  lemma ExampleBreakdown(values: seq<string>)
    requires values == ["analytical", "creative", "analytical", "creative", "social"]
    ensures Breakdown(values) ==
      [ProfileScore("analytical", 40), ProfileScore("creative", 40), ProfileScore("social", 20), ProfileScore("leadership", 0)]
  {
    ExampleCounts(values);
  }

  /**
   * Answers {1: analytical, 2: creative, 3: analytical, 4: creative, 5: social}
   * score 40, 40, 20 and 0; analytical stays ahead of creative on the tie.
   */
  lemma WorkedExample(values: seq<string>)
    requires values == ["analytical", "creative", "analytical", "creative", "social"]
    ensures Ranking(values) ==
      [ProfileScore("analytical", 40), ProfileScore("creative", 40), ProfileScore("social", 20), ProfileScore("leadership", 0)]
    ensures Primary(values) == ProfileScore("analytical", 40)
  {
    ExampleBreakdown(values);
    SortKeepsOrdered(Breakdown(values));
  }
}
