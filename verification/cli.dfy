/**
  The command-line copy: `generate_password` with lengths 8..100, and the part
  of `main` that is not I/O, namely its own length check and the class-flag
  defaulting (`-a` selects every class; no class flag at all selects upper,
  lower and digits).
 */
module Cli {
  import opened Strength
  import opened Random
  import opened Generator

  /** The command-line copy rejects lengths above 100. */
  const MaxLength: int := 100

  const AllClasses: Flags := Flags(true, true, true, true)

  /** The classes used when no class flag is given: upper, lower and digits. */
  const DefaultClasses: Flags := Flags(true, true, true, false)

  /** The parsed options `main` acts on: `--length`, `-a` and the four class flags. */
  datatype Args = Args(length: int, all: bool, requested: Flags)

  /** `generate_password` of the command-line copy. */
  function GeneratePassword(length: int, f: Flags, ds: Draws): (r: Result<Generated>)
    ensures r == Err(InvalidLength) <==> length < MinLength || length > MaxLength
    ensures r == Err(NoClassSelected) <==> MinLength <= length <= MaxLength && !AnySelected(f)
    ensures r.Ok? ==> ValidPassword(r.value.password, length, f)
    ensures r.Ok? ==> r.value.strength == CheckStrength(r.value.password)
  {
    Generate(AtMost(MaxLength), length, f, ds)
  }

  /** The flag defaulting of `main`: afterwards some class is always selected and no
      requested class is dropped; `-a` selects all four, and an empty request becomes
      upper, lower and digits. */
  function ResolveFlags(all: bool, requested: Flags): (f: Flags)
    ensures AnySelected(f)
    ensures forall k :: IsSelected(requested, k) ==> IsSelected(f, k)
    ensures all ==> f == AllClasses
    ensures !all && AnySelected(requested) ==> f == requested
    ensures !all && !AnySelected(requested) ==> f == DefaultClasses
  {
    var f := if all then AllClasses else requested;
    if AnySelected(f) then f else DefaultClasses
  }

  /** Defaulting twice changes nothing: a resolved selection is left alone. */
  lemma ResolveFlagsIdempotent(all: bool, requested: Flags)
    ensures ResolveFlags(false, ResolveFlags(all, requested)) == ResolveFlags(all, requested)
  {
  }

  /** `main` without its I/O: the length check (reported as an invalid length where
      the source exits through `parser.error`), the flag defaulting, then the generator.
      Because of the defaulting, the no-class error is unreachable from here. */
  function Run(args: Args, ds: Draws): (r: Result<Generated>)
    ensures r.Err? <==> args.length < MinLength || args.length > MaxLength
    ensures r.Err? ==> r.error == InvalidLength
    ensures r.Ok? ==> ValidPassword(r.value.password, args.length, ResolveFlags(args.all, args.requested))
    ensures r.Ok? ==> r.value.strength == CheckStrength(r.value.password)
  {
    if args.length < MinLength || args.length > MaxLength then Err(InvalidLength)
    else GeneratePassword(args.length, ResolveFlags(args.all, args.requested), ds)
  }

  /** With `-a` and a length of at least 12 the reported strength is always Strong. */
  lemma AllClassesLongIsStrong(length: int, requested: Flags, ds: Draws)
    requires StrongLength <= length <= MaxLength
    ensures Run(Args(length, true, requested), ds).Ok?
    ensures Run(Args(length, true, requested), ds).value.strength == Strong
  {
    assert Run(Args(length, true, requested), ds) == Generate(AtMost(MaxLength), length, AllClasses, ds);
    GeneratedStrength(AtMost(MaxLength), length, AllClasses, ds);
  }

  /** With no class flags the password never reaches Strong (it has no symbol) and
      never drops to Weak (it has three classes): it is always Medium. */
  lemma DefaultClassesAreMedium(length: int, ds: Draws)
    requires MinLength <= length <= MaxLength
    ensures Run(Args(length, false, Flags(false, false, false, false)), ds).Ok?
    ensures Run(Args(length, false, Flags(false, false, false, false)), ds).value.strength == Medium
  {
    var none := Flags(false, false, false, false);
    assert Run(Args(length, false, none), ds) == Generate(AtMost(MaxLength), length, DefaultClasses, ds);
    GeneratedStrength(AtMost(MaxLength), length, DefaultClasses, ds);
    assert |Selected(DefaultClasses)| == 3;
  }
}
