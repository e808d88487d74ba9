/**
  The strength classifier `check_strength`: five yes/no criteria (length at
  least 12, a digit, an uppercase letter, a lowercase letter, a punctuation
  symbol), summed into a score of 0..5, and the score mapped to a tier.

  The source's `isdigit`, `isupper` and `islower` are read on ASCII only: a
  character satisfies one of them exactly when it lies in the matching
  alphabet of `CharClasses`.
 */
module Strength {
  import opened CharClasses

  /** Length from which the length criterion holds. */
  const StrongLength: nat := 12

  /** One of the five criteria the classifier sums. */
  datatype Criterion = LongEnough | Contains(k: CharClass)

  /** The criteria in the order the source sums them. */
  const Criteria: seq<Criterion> :=
    [LongEnough, Contains(Digit), Contains(Upper), Contains(Lower), Contains(Symbol)]

  datatype Tier = Weak | Medium | Strong

  /** Tiers ordered from weakest to strongest. */
  function Rank(t: Tier): nat {
    match t
    case Weak => 0
    case Medium => 1
    case Strong => 2
  }

  /** The source's `any(...)` test: `p` holds at least one character of class `k`,
      which is to say some character that the ASCII classifier puts in class `k`. */
  predicate HasClass(p: string, k: CharClass): (b: bool)
    ensures b <==> exists i :: 0 <= i < |p| && ClassOf(p[i]) == Some(k)
  {
    forall i | 0 <= i < |p| ensures p[i] in Alphabet(k) <==> ClassOf(p[i]) == Some(k) {
      AlphabetMembership(p[i], k);
    }
    exists i :: 0 <= i < |p| && p[i] in Alphabet(k)
  }

  predicate Holds(p: string, c: Criterion) {
    match c
    case LongEnough => |p| >= StrongLength
    case Contains(k) => HasClass(p, k)
  }

  function Bit(b: bool): nat {
    if b then 1 else 0
  }

  /** How many of the criteria `cs` the password `p` satisfies. */
  function CountHolding(p: string, cs: seq<Criterion>): (n: nat)
    ensures n <= |cs|
    ensures n == |cs| <==> forall i :: 0 <= i < |cs| ==> Holds(p, cs[i])
    ensures n == 0 <==> forall i :: 0 <= i < |cs| ==> !Holds(p, cs[i])
  {
    if cs == [] then 0 else Bit(Holds(p, cs[0])) + CountHolding(p, cs[1..])
  }

  /** The score: the number of the five criteria that hold. */
  function Score(p: string): (s: nat)
    ensures s <= 5
  {
    CountHolding(p, Criteria)
  }

  /** The threshold table: on the possible scores 0..5, exactly 5 is Strong, exactly
      3 or 4 is Medium, and exactly 0..2 is Weak. */
  function TierOf(score: int): (t: Tier)
    ensures 0 <= score <= 5 ==> (t == Strong <==> score == 5)
    ensures 0 <= score <= 5 ==> (t == Medium <==> score == 3 || score == 4)
    ensures 0 <= score <= 5 ==> (t == Weak <==> score <= 2)
  {
    if score == 5 then Strong
    else if score >= 3 then Medium
    else Weak
  }

  /** `check_strength`: total, and Strong exactly when every criterion holds,
      Weak exactly when at most two do. */
  function CheckStrength(p: string): (t: Tier)
    ensures t == Strong <==> forall c :: c in Criteria ==> Holds(p, c)
    ensures t == Weak <==> Score(p) <= 2
    ensures t == Medium <==> 3 <= Score(p) <= 4
  {
    var s := Score(p);
    assert s == 5 <==> forall c :: c in Criteria ==> Holds(p, c) by {
      if s == 5 {
        forall c | c in Criteria ensures Holds(p, c) {
          var i :| 0 <= i < |Criteria| && Criteria[i] == c;
        }
      }
    }
    TierOf(s)
  }

  /** The score spelled out as the source's sum of five booleans. */
  lemma ScoreUnfold(p: string)
    ensures Score(p) == Bit(|p| >= StrongLength) + Bit(HasClass(p, Digit)) + Bit(HasClass(p, Upper))
                        + Bit(HasClass(p, Lower)) + Bit(HasClass(p, Symbol))
  {
    var cs := Criteria;
    assert cs[1..][1..][1..][1..][1..] == [];
    calc {
      Score(p);
      Bit(Holds(p, cs[0])) + CountHolding(p, cs[1..]);
      Bit(Holds(p, cs[0])) + Bit(Holds(p, cs[1])) + CountHolding(p, cs[1..][1..]);
      Bit(Holds(p, cs[0])) + Bit(Holds(p, cs[1])) + Bit(Holds(p, cs[2]))
        + CountHolding(p, cs[1..][1..][1..]);
      Bit(Holds(p, cs[0])) + Bit(Holds(p, cs[1])) + Bit(Holds(p, cs[2])) + Bit(Holds(p, cs[3]))
        + CountHolding(p, cs[1..][1..][1..][1..]);
      Bit(Holds(p, cs[0])) + Bit(Holds(p, cs[1])) + Bit(Holds(p, cs[2])) + Bit(Holds(p, cs[3]))
        + Bit(Holds(p, cs[4]));
    }
  }

  /** Within the possible scores 0..5, a higher score never gives a lower tier.
      (Past 5 the table is not monotone: `TierOf(6)` is Medium, so the bound matters.) */
  lemma TierMonotone(s1: int, s2: int)
    requires s1 <= s2 <= 5
    ensures Rank(TierOf(s1)) <= Rank(TierOf(s2))
  {
  }

  /** A password satisfying every criterion another satisfies scores at least as high. */
  lemma {:induction false} CountMonotone(a: string, b: string, cs: seq<Criterion>)
    requires forall i :: 0 <= i < |cs| ==> Holds(a, cs[i]) ==> Holds(b, cs[i])
    ensures CountHolding(a, cs) <= CountHolding(b, cs)
  {
    if cs != [] {
      CountMonotone(a, b, cs[1..]);
    }
  }

  /** Satisfying a superset of the criteria never lowers the tier. */
  lemma StrengthMonotone(a: string, b: string)
    requires forall c :: c in Criteria ==> Holds(a, c) ==> Holds(b, c)
    ensures Score(a) <= Score(b)
    ensures Rank(CheckStrength(a)) <= Rank(CheckStrength(b))
  {
    forall i | 0 <= i < |Criteria| ensures Holds(a, Criteria[i]) ==> Holds(b, Criteria[i]) {
      assert Criteria[i] in Criteria;
    }
    CountMonotone(a, b, Criteria);
    TierMonotone(Score(a), Score(b));
  }

  /** Appending characters to a password never lowers its tier. */
  lemma AppendNeverLowers(a: string, b: string)
    ensures Rank(CheckStrength(a)) <= Rank(CheckStrength(a + b))
  {
    forall c | c in Criteria && Holds(a, c) ensures Holds(a + b, c) {
      if c.Contains? {
        var i :| 0 <= i < |a| && a[i] in Alphabet(c.k);
        assert (a + b)[i] == a[i];
      }
    }
    StrengthMonotone(a, a + b);
  }

  /** Overwriting one position keeps every class the overwritten character was not in. */
  lemma OverwriteKeepsClass(a: string, i: int, ch: char, k: CharClass)
    requires 0 <= i < |a|
    requires HasClass(a, k) && a[i] !in Alphabet(k)
    ensures HasClass(a[i := ch], k)
  {
    var w :| 0 <= w < |a| && a[w] in Alphabet(k);
    assert a[i := ch][w] == a[w];
  }

  /** Overwriting one character with a character of a class the password lacks
      (say, putting a digit into a digit-free password) never lowers its tier:
      the new class is gained and at most the overwritten character's class is lost. */
  lemma OverwriteWithMissingClass(a: string, i: int, ch: char, k: CharClass)
    requires 0 <= i < |a|
    requires !HasClass(a, k) && ch in Alphabet(k)
    ensures Score(a) <= Score(a[i := ch])
    ensures Rank(CheckStrength(a)) <= Rank(CheckStrength(a[i := ch]))
  {
    var b := a[i := ch];
    assert HasClass(b, k) by {
      assert b[i] == ch;
    }
    forall k' | HasClass(a, k') && a[i] !in Alphabet(k') ensures HasClass(b, k') {
      OverwriteKeepsClass(a, i, ch, k');
    }
    forall k1, k2 | a[i] in Alphabet(k1) && a[i] in Alphabet(k2) ensures k1 == k2 {
      AlphabetsDisjoint(a[i], k1, k2);
    }
    ScoreUnfold(a);
    ScoreUnfold(b);
    TierMonotone(Score(a), Score(b));
  }

  /** Class membership depends only on which characters occur, not on their order. */
  lemma HasClassRearranged(a: string, b: string, k: CharClass)
    requires multiset(a) == multiset(b)
    requires HasClass(a, k)
    ensures HasClass(b, k)
  {
    var i :| 0 <= i < |a| && a[i] in Alphabet(k);
    assert a[i] in multiset(b);
    var j :| 0 <= j < |b| && b[j] == a[i];
  }

  /** Reordering a password, as the shuffle does, never changes its tier. */
  lemma StrengthIgnoresOrder(a: string, b: string)
    requires multiset(a) == multiset(b)
    ensures Score(a) == Score(b)
    ensures CheckStrength(a) == CheckStrength(b)
  {
    assert |a| == |multiset(a)| == |multiset(b)| == |b|;
    forall k ensures HasClass(a, k) <==> HasClass(b, k) {
      if HasClass(a, k) { HasClassRearranged(a, b, k); }
      if HasClass(b, k) { HasClassRearranged(b, a, k); }
    }
    ScoreUnfold(a);
    ScoreUnfold(b);
  }
}
