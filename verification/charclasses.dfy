/**
  The four character classes a password is built from, each with the fixed
  ASCII alphabet Python's `string` module gives it: `ascii_uppercase`,
  `ascii_lowercase`, `digits` and `punctuation`.

  `ClassOf` reads a character's class off its code point; the membership lemma
  ties it to the literal alphabets, and from it follows that the four alphabets
  are pairwise disjoint.
 */
module CharClasses {

  datatype Option<T> = None | Some(value: T)

  datatype CharClass = Upper | Lower | Digit | Symbol

  /** The `n` consecutive code points from `lo` upward, in order. */
  function Run(lo: char, n: nat): (s: string)
    requires lo as int + n <= 0xD800
    ensures |s| == n
    ensures forall i :: 0 <= i < n ==> s[i] as int == lo as int + i
  {
    seq(n, i requires 0 <= i < n => (lo as int + i) as char)
  }

  /** `string.ascii_uppercase` */
  const AsciiUppercase: string := Run('A', 26)
  /** `string.ascii_lowercase` */
  const AsciiLowercase: string := Run('a', 26)
  /** `string.digits` */
  const Digits: string := Run('0', 10)
  /** `string.punctuation`: the printable ASCII characters that are neither letters,
      digits nor space, as four runs of code points. */
  const Punctuation: string := Run('!', 15) + Run(':', 7) + Run('[', 6) + Run('{', 4)

  /** The alphabets are exactly Python's string constants, character for character. */
  lemma AlphabetsAreStringConstants()
    ensures AsciiUppercase == "ABCDEFGHIJKLMNOPQRSTUVWXYZ"
    ensures AsciiLowercase == "abcdefghijklmnopqrstuvwxyz"
    ensures Digits == "0123456789"
    ensures Punctuation == "!\"#$%&'()*+,-./:;<=>?@[\\]^_`{|}~"
  {
  }

  /** The alphabet the source draws a class's characters from. */
  function Alphabet(k: CharClass): (a: string)
    ensures |a| > 0
  {
    match k
    case Upper => AsciiUppercase
    case Lower => AsciiLowercase
    case Digit => Digits
    case Symbol => Punctuation
  }

  /** The class of an ASCII character by code-point range; `None` for anything else
      (space, control characters, non-ASCII). */
  function ClassOf(ch: char): (c: Option<CharClass>)
    ensures c.Some? <==> '!' <= ch <= '~'
  {
    if 'A' <= ch <= 'Z' then Some(Upper)
    else if 'a' <= ch <= 'z' then Some(Lower)
    else if '0' <= ch <= '9' then Some(Digit)
    else if '!' <= ch <= '/' || ':' <= ch <= '@' || '[' <= ch <= '`' || '{' <= ch <= '~' then Some(Symbol)
    else None
  }

  /** A character lies in a run exactly when its code point falls in the run's range. */
  lemma RunMembership(lo: char, n: nat, ch: char)
    requires lo as int + n <= 0xD800
    ensures ch in Run(lo, n) <==> lo as int <= ch as int < lo as int + n
  {
    var s := Run(lo, n);
    if lo as int <= ch as int < lo as int + n {
      assert s[ch as int - lo as int] == ch;
    }
  }

  /** A character belongs to a class's alphabet exactly when its code point says so. */
  lemma AlphabetMembership(ch: char, k: CharClass)
    ensures ch in Alphabet(k) <==> ClassOf(ch) == Some(k)
  {
    match k
    case Upper => RunMembership('A', 26, ch);
    case Lower => RunMembership('a', 26, ch);
    case Digit => RunMembership('0', 10, ch);
    case Symbol =>
      RunMembership('!', 15, ch);
      RunMembership(':', 7, ch);
      RunMembership('[', 6, ch);
      RunMembership('{', 4, ch);
  }

  /** No character lies in two alphabets. */
  lemma AlphabetsDisjoint(ch: char, k1: CharClass, k2: CharClass)
    requires ch in Alphabet(k1) && ch in Alphabet(k2)
    ensures k1 == k2
  {
    AlphabetMembership(ch, k1);
    AlphabetMembership(ch, k2);
  }
}
