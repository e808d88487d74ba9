/**
  `generate_password`, shared by the command-line and the GUI copies, which
  differ only in the upper end of the length check (a `LengthBound` here).

  The steps follow the source: check the length, concatenate the selected
  alphabets into the combined alphabet and reject an empty one, seed one
  character from each selected class's own alphabet (in the order upper,
  lower, digits, symbols), fill from the combined alphabet until the target
  length, shuffle, and classify the result.

  Every call to the random stream comes from one list of draws: the seeds
  take the first calls, the fill one call per appended character, and the
  shuffle the rest.
 */
module Generator {
  import opened CharClasses
  import opened Strength
  import opened Random

  /** Both copies reject lengths below 8. */
  const MinLength: int := 8

  /** The four class switches `use_upper`, `use_lower`, `use_digits`, `use_symbols`. */
  datatype Flags = Flags(upper: bool, lower: bool, digits: bool, symbols: bool)

  /** The upper end of the length check. */
  datatype LengthBound = Unbounded | AtMost(max: int)

  /** The two `ValueError`s the generator raises. */
  datatype GenError = InvalidLength | NoClassSelected

  datatype Result<T> = Ok(value: T) | Err(error: GenError)

  /** The pair `(password, strength)` the generator returns. */
  datatype Generated = Generated(password: string, strength: Tier)

  predicate IsSelected(f: Flags, k: CharClass) {
    match k
    case Upper => f.upper
    case Lower => f.lower
    case Digit => f.digits
    case Symbol => f.symbols
  }

  predicate AnySelected(f: Flags) {
    f.upper || f.lower || f.digits || f.symbols
  }

  /** The selected classes, each once, in the order the source tests the switches. */
  function Selected(f: Flags): (cs: seq<CharClass>)
    ensures forall k :: k in cs <==> IsSelected(f, k)
    ensures forall i, j :: 0 <= i < j < |cs| ==> cs[i] != cs[j]
    ensures |cs| == Bit(f.upper) + Bit(f.lower) + Bit(f.digits) + Bit(f.symbols)
    ensures |cs| <= 4
  {
    (if f.upper then [Upper] else []) + (if f.lower then [Lower] else [])
    + (if f.digits then [Digit] else []) + (if f.symbols then [Symbol] else [])
  }

  /** The combined alphabet `characters`: the selected alphabets concatenated. */
  function Combined(f: Flags): (chars: string)
    ensures |chars| == 0 <==> !AnySelected(f)
    ensures forall ch :: ch in chars <==> exists k :: IsSelected(f, k) && ch in Alphabet(k)
  {
    var u := if f.upper then AsciiUppercase else "";
    var l := if f.lower then AsciiLowercase else "";
    var d := if f.digits then Digits else "";
    var s := if f.symbols then Punctuation else "";
    forall ch ensures ch in u + l + d + s <==> exists k :: IsSelected(f, k) && ch in Alphabet(k) {
      if ch in u { assert IsSelected(f, Upper) && ch in Alphabet(Upper); }
      if ch in l { assert IsSelected(f, Lower) && ch in Alphabet(Lower); }
      if ch in d { assert IsSelected(f, Digit) && ch in Alphabet(Digit); }
      if ch in s { assert IsSelected(f, Symbol) && ch in Alphabet(Symbol); }
    }
    u + l + d + s
  }

  predicate LengthAllowed(bound: LengthBound, length: int) {
    MinLength <= length && (bound.AtMost? ==> length <= bound.max)
  }

  /** What a generated password promises: the requested length, only characters of
      the selected alphabets, and at least one character of every selected class. */
  predicate ValidPassword(p: string, length: int, f: Flags) {
    && |p| == length
    && (forall i :: 0 <= i < |p| ==> p[i] in Combined(f))
    && (forall k :: IsSelected(f, k) ==> HasClass(p, k))
  }

  /** The seeding step: one character from each listed class's own alphabet. */
  function Seed(cs: seq<CharClass>, ds: Draws): (s: string)
    ensures |s| == |cs|
    ensures forall i :: 0 <= i < |s| ==> s[i] in Alphabet(cs[i])
  {
    if cs == [] then []
    else [Choice(Alphabet(cs[0]), ds)] + Seed(cs[1..], Tail(ds))
  }

  /** The fill loop `while len(password) < length`: it appends characters of `chars`
      and leaves a list that is already long enough as it is. */
  function Fill(pw: string, length: int, chars: string, ds: Draws): (r: string)
    requires |chars| > 0
    ensures |r| == if |pw| >= length then |pw| else length
    ensures r[..|pw|] == pw
    ensures forall i :: |pw| <= i < |r| ==> r[i] in chars
    decreases length - |pw|
  {
    if |pw| >= length then pw
    else
      var r := Fill(pw + [Choice(chars, ds)], length, chars, Tail(ds));
      assert r[..|pw| + 1][..|pw|] == r[..|pw|];
      r
  }

  /** Seeding never overfills: at most four classes, and every accepted length is at least 8. */
  lemma SeedFits(f: Flags, length: int)
    requires length >= MinLength
    ensures |Selected(f)| <= 4 < length
  {
  }

  /** The list before the shuffle: seeded, then filled up to `length`. The seeds are
      never cut, so a `length` below the number of selected classes would overfill. */
  function Unshuffled(length: int, f: Flags, ds: Draws): (pw: string)
    requires AnySelected(f)
    ensures |pw| == if length < |Selected(f)| then |Selected(f)| else length
    ensures forall i :: |Selected(f)| <= i < |pw| ==> pw[i] in Combined(f)
  {
    var seeded := Seed(Selected(f), ds);
    Fill(seeded, length, Combined(f), Drop(ds, |seeded|))
  }

  /** For every accepted length the list before the shuffle has exactly `length`
      characters: the seeds, then characters of the combined alphabet. */
  lemma UnshuffledShape(length: int, f: Flags, ds: Draws)
    requires length >= MinLength && AnySelected(f)
    ensures |Unshuffled(length, f, ds)| == length
    ensures forall i :: 0 <= i < |Selected(f)| ==> Unshuffled(length, f, ds)[i] in Alphabet(Selected(f)[i])
    ensures forall i :: |Selected(f)| <= i < length ==> Unshuffled(length, f, ds)[i] in Combined(f)
  {
    var seeded := Seed(Selected(f), ds);
    SeedFits(f, length);
    var pw := Unshuffled(length, f, ds);
    assert pw[..|seeded|] == seeded;
    forall i | 0 <= i < |seeded| ensures pw[i] == seeded[i] {
      assert pw[..|seeded|][i] == pw[i];
    }
  }

  /** The seeds lie in the combined alphabet as well. */
  lemma SeedsWithinCombined(pw: string, f: Flags)
    requires |Selected(f)| <= |pw|
    requires forall i :: 0 <= i < |Selected(f)| ==> pw[i] in Alphabet(Selected(f)[i])
    ensures forall i :: 0 <= i < |Selected(f)| ==> pw[i] in Combined(f)
  {
    var cs := Selected(f);
    forall i | 0 <= i < |cs| ensures pw[i] in Combined(f) {
      assert cs[i] in cs;
      assert IsSelected(f, cs[i]) && pw[i] in Alphabet(cs[i]);
    }
  }

  /** A list with one seed per selected class in front holds every selected class. */
  lemma SeedsCoverSelected(pw: string, f: Flags)
    requires |Selected(f)| <= |pw|
    requires forall i :: 0 <= i < |Selected(f)| ==> pw[i] in Alphabet(Selected(f)[i])
    ensures forall k :: IsSelected(f, k) ==> HasClass(pw, k)
  {
    var cs := Selected(f);
    forall k | IsSelected(f, k) ensures HasClass(pw, k) {
      var i :| 0 <= i < |cs| && cs[i] == k;
      assert pw[i] in Alphabet(k);
    }
  }

  /** For every accepted length the list before the shuffle is already a valid
      password, with the seeds in front. */
  lemma UnshuffledValid(length: int, f: Flags, ds: Draws)
    requires length >= MinLength && AnySelected(f)
    ensures ValidPassword(Unshuffled(length, f, ds), length, f)
    ensures forall i :: 0 <= i < |Selected(f)| ==> Unshuffled(length, f, ds)[i] in Alphabet(Selected(f)[i])
  {
    var pw := Unshuffled(length, f, ds);
    UnshuffledShape(length, f, ds);
    SeedFits(f, length);
    SeedsWithinCombined(pw, f);
    SeedsCoverSelected(pw, f);
  }

  /** `generate_password`: the length check first, then the empty-alphabet check;
      on success a valid password, reordered from the seeded-and-filled list,
      with its own strength. */
  function Generate(bound: LengthBound, length: int, f: Flags, ds: Draws): (r: Result<Generated>)
    ensures r == Err(InvalidLength) <==> !LengthAllowed(bound, length)
    ensures r == Err(NoClassSelected) <==> LengthAllowed(bound, length) && !AnySelected(f)
    ensures r.Ok? <==> LengthAllowed(bound, length) && AnySelected(f)
    ensures r.Ok? ==> ValidPassword(r.value.password, length, f)
    ensures r.Ok? ==> multiset(r.value.password) == multiset(Unshuffled(length, f, ds))
    ensures r.Ok? ==> r.value.strength == CheckStrength(r.value.password)
  {
    if !LengthAllowed(bound, length) then Err(InvalidLength)
    else
      var chars := Combined(f);
      if |chars| == 0 then Err(NoClassSelected)
      else
        var pw := Unshuffled(length, f, ds);
        UnshuffledValid(length, f, ds);
        var password := Shuffle(pw, Drop(ds, length));
        ShufflePermutes(pw, Drop(ds, length));
        RearrangedStaysValid(pw, password, length, f);
        Ok(Generated(password, CheckStrength(password)))
  }

  /** Validity depends only on which characters occur and how often. */
  lemma RearrangedStaysValid(a: string, b: string, length: int, f: Flags)
    requires multiset(a) == multiset(b)
    requires ValidPassword(a, length, f)
    ensures ValidPassword(b, length, f)
  {
    assert |a| == |multiset(a)| == |multiset(b)| == |b|;
    forall i | 0 <= i < |b| ensures b[i] in Combined(f) {
      assert b[i] in multiset(a);
      var j :| 0 <= j < |a| && a[j] == b[i];
    }
    forall k | IsSelected(f, k) ensures HasClass(b, k) {
      HasClassRearranged(a, b, k);
    }
  }

  /** A valid password holds a character of class `k` exactly when `k` is selected. */
  lemma ValidPasswordClasses(p: string, length: int, f: Flags, k: CharClass)
    requires ValidPassword(p, length, f)
    ensures HasClass(p, k) <==> IsSelected(f, k)
  {
    if HasClass(p, k) {
      var i :| 0 <= i < |p| && p[i] in Alphabet(k);
      assert p[i] in Combined(f);
      var k' :| IsSelected(f, k') && p[i] in Alphabet(k');
      AlphabetsDisjoint(p[i], k, k');
    }
  }

  /** A valid password has exactly the selected classes, so its score is fixed by
      the request: the length criterion plus one per selected class. */
  lemma ValidPasswordScore(p: string, length: int, f: Flags)
    requires ValidPassword(p, length, f)
    ensures Score(p) == Bit(length >= StrongLength) + |Selected(f)|
  {
    ValidPasswordClassFlags(p, length, f);
    ScoreUnfold(p);
    var s := Score(p);
    assert s == Bit(|p| >= StrongLength) + Bit(f.digits) + Bit(f.upper) + Bit(f.lower) + Bit(f.symbols);
  }

  /** The four class criteria of a valid password are the four switches. */
  lemma ValidPasswordClassFlags(p: string, length: int, f: Flags)
    requires ValidPassword(p, length, f)
    ensures HasClass(p, Upper) == f.upper && HasClass(p, Lower) == f.lower
    ensures HasClass(p, Digit) == f.digits && HasClass(p, Symbol) == f.symbols
  {
    ValidPasswordClasses(p, length, f, Upper);
    ValidPasswordClasses(p, length, f, Lower);
    ValidPasswordClasses(p, length, f, Digit);
    ValidPasswordClasses(p, length, f, Symbol);
  }

  /** The tier of a generated password depends only on the request: Strong exactly
      when all four classes are selected and the length is at least 12. */
  lemma GeneratedStrength(bound: LengthBound, length: int, f: Flags, ds: Draws)
    requires Generate(bound, length, f, ds).Ok?
    ensures Generate(bound, length, f, ds).value.strength
            == TierOf(Bit(length >= StrongLength) + |Selected(f)|)
    ensures Generate(bound, length, f, ds).value.strength == Strong
            <==> length >= StrongLength && f == Flags(true, true, true, true)
  {
    ValidPasswordScore(Generate(bound, length, f, ds).value.password, length, f);
  }

  /** Seeding can produce any list of characters, one from each listed class's alphabet:
      `|cs|` draws choose it, whatever the random stream returns afterwards. */
  lemma {:induction false} SeedReaches(cs: seq<CharClass>, s: string, rest: Draws) returns (sd: Draws)
    requires |s| == |cs|
    requires forall i :: 0 <= i < |s| ==> s[i] in Alphabet(cs[i])
    ensures |sd| == |cs|
    ensures Seed(cs, sd + rest) == s
  {
    if cs == [] {
      sd := [];
    } else {
      assert forall i :: 0 <= i < |s[1..]| ==> s[1..][i] in Alphabet(cs[1..][i]) by {
        forall i | 0 <= i < |s[1..]| ensures s[1..][i] in Alphabet(cs[1..][i]) {
          assert s[1..][i] == s[i + 1] && cs[1..][i] == cs[i + 1];
        }
      }
      var sd' := SeedReaches(cs[1..], s[1..], rest);
      var tail := sd' + rest;
      var d := ChoiceReaches(Alphabet(cs[0]), s[0], tail);
      sd := [d] + sd';
      assert sd + rest == [d] + tail;
      calc {
        Seed(cs, [d] + tail);
        [Choice(Alphabet(cs[0]), [d] + tail)] + Seed(cs[1..], Tail([d] + tail));
        [s[0]] + Seed(cs[1..], tail);
        [s[0]] + s[1..];
        s;
      }
    }
  }

  /** The fill loop can produce any continuation drawn from `chars`: one draw per
      appended character chooses it, whatever the random stream returns afterwards. */
  lemma {:induction false} FillReaches(pw: string, length: int, chars: string, target: string, rest: Draws)
    returns (fd: Draws)
    requires |chars| > 0
    requires |pw| <= length == |target|
    requires target[..|pw|] == pw
    requires forall i :: |pw| <= i < |target| ==> target[i] in chars
    ensures |fd| == length - |pw|
    ensures Fill(pw, length, chars, fd + rest) == target
    decreases length - |pw|
  {
    if |pw| == length {
      assert target == target[..|pw|];
      fd := [];
    } else {
      var c := target[|pw|];
      var pw' := pw + [c];
      assert target[..|pw'|] == pw' by {
        assert target[..|pw| + 1] == target[..|pw|] + [c];
      }
      var fd' := FillReaches(pw', length, chars, target, rest);
      var d := ChoiceReaches(chars, c, fd' + rest);
      fd := [d] + fd';
      assert fd + rest == [d] + (fd' + rest);
    }
  }

  /** Any password holding every class of `cs` can be reordered so that its first
      `|cs|` characters are one of each of those classes, in order. The classes
      are disjoint, so the swaps never disturb a position already arranged. */
  lemma {:induction false} ArrangeSeedsFirst(q0: string, cs: seq<CharClass>, t: nat) returns (q: string)
    requires t <= |cs| <= |q0|
    requires forall i, j :: 0 <= i < j < |cs| ==> cs[i] != cs[j]
    requires forall i :: 0 <= i < t ==> q0[i] in Alphabet(cs[i])
    requires forall u :: t <= u < |cs| ==> HasClass(q0, cs[u])
    ensures |q| == |q0|
    ensures multiset(q) == multiset(q0)
    ensures forall i :: 0 <= i < |cs| ==> q[i] in Alphabet(cs[i])
    decreases |cs| - t
  {
    if t == |cs| {
      q := q0;
    } else {
      var j :| 0 <= j < |q0| && q0[j] in Alphabet(cs[t]);
      assert t <= j by {
        if j < t {
          AlphabetsDisjoint(q0[j], cs[j], cs[t]);
        }
      }
      var q1 := Swap(q0, t, j);
      SwapPermutes(q0, t, j);
      forall i | 0 <= i < t + 1 ensures q1[i] in Alphabet(cs[i]) {
        if i < t {
          assert q1[i] == q0[i];
        }
      }
      forall u | t + 1 <= u < |cs| ensures HasClass(q1, cs[u]) {
        HasClassRearranged(q0, q1, cs[u]);
      }
      q := ArrangeSeedsFirst(q1, cs, t + 1);
    }
  }

  /** A valid password reordered so that its first characters are the seeds. */
  lemma ArrangeForGeneration(p: string, length: int, f: Flags) returns (q: string)
    requires length >= MinLength && ValidPassword(p, length, f)
    ensures multiset(q) == multiset(p)
    ensures |q| == length
    ensures forall i :: 0 <= i < |q| ==> q[i] in Combined(f)
    ensures forall i :: 0 <= i < |Selected(f)| ==> q[i] in Alphabet(Selected(f)[i])
  {
    var cs := Selected(f);
    SeedFits(f, length);
    forall u | 0 <= u < |cs| ensures HasClass(p, cs[u]) {
      assert cs[u] in cs;
    }
    q := ArrangeSeedsFirst(p, cs, 0);
    forall i | 0 <= i < |q| ensures q[i] in Combined(f) {
      assert q[i] in multiset(p);
      var j :| 0 <= j < |p| && p[j] == q[i];
    }
  }

  /** Seeding and filling can produce any list that starts with one character of
      each selected class and continues with characters of the combined alphabet:
      `length` draws choose it. */
  lemma UnshuffledReaches(length: int, f: Flags, q: string, rest: Draws) returns (pre: Draws)
    requires length >= MinLength && AnySelected(f)
    requires |q| == length
    requires forall i :: 0 <= i < |q| ==> q[i] in Combined(f)
    requires forall i :: 0 <= i < |Selected(f)| ==> q[i] in Alphabet(Selected(f)[i])
    ensures |pre| == length
    ensures Unshuffled(length, f, pre + rest) == q
  {
    var cs := Selected(f);
    var s := |cs|;
    var chars := Combined(f);
    SeedFits(f, length);
    var seeds := q[..s];
    assert forall i :: 0 <= i < s ==> seeds[i] in Alphabet(cs[i]);
    var fd := FillReaches(seeds, length, chars, q, rest);
    var sd := SeedReaches(cs, seeds, fd + rest);
    pre := sd + fd;
    assert Unshuffled(length, f, pre + rest) == q by {
      var ds := pre + rest;
      AppendAssoc(sd, fd, rest);
      assert Drop(ds, s) == fd + rest;
      assert Unshuffled(length, f, ds) == Fill(Seed(cs, ds), length, chars, Drop(ds, s));
    }
  }

  /** Completeness: every valid password, and nothing else (see `Generate`), is a
      possible result of a successful call. */
  lemma EveryValidPasswordIsReachable(bound: LengthBound, length: int, f: Flags, p: string)
    returns (ds: Draws)
    requires LengthAllowed(bound, length) && AnySelected(f)
    requires ValidPassword(p, length, f)
    ensures Generate(bound, length, f, ds) == Ok(Generated(p, CheckStrength(p)))
  {
    var q := ArrangeForGeneration(p, length, f);
    var hd := ShuffleReaches(q, p);
    var pre := UnshuffledReaches(length, f, q, hd);
    ds := pre + hd;
    assert Drop(ds, length) == hd;
    GenerateSucceeds(bound, length, f, ds);
    var r := Generate(bound, length, f, ds);
    assert r.value.password == p;
    assert r == Ok(Generated(r.value.password, r.value.strength));
  }

  /** A call past both checks returns the shuffled seeded-and-filled list. */
  lemma GenerateSucceeds(bound: LengthBound, length: int, f: Flags, ds: Draws)
    requires LengthAllowed(bound, length) && AnySelected(f)
    ensures Generate(bound, length, f, ds).Ok?
    ensures Generate(bound, length, f, ds).value.password == Shuffle(Unshuffled(length, f, ds), Drop(ds, length))
  {
  }
}
