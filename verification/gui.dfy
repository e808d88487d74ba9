/**
  The GUI copy of `generate_password`: the same generator with no upper bound
  on the length. Window construction, the stored last password and clipboard
  copy are not modelled.
 */
module Gui {
  import opened Strength
  import opened Random
  import opened Generator
  import Cli

  /** `generate_password` of the GUI copy: only lengths below 8 are rejected. */
  function GeneratePassword(length: int, f: Flags, ds: Draws): (r: Result<Generated>)
    ensures r == Err(InvalidLength) <==> length < MinLength
    ensures r == Err(NoClassSelected) <==> length >= MinLength && !AnySelected(f)
    ensures r.Ok? ==> ValidPassword(r.value.password, length, f)
    ensures r.Ok? ==> r.value.strength == CheckStrength(r.value.password)
  {
    Generate(Unbounded, length, f, ds)
  }

  /** The two copies differ only above 100: there the GUI copy still succeeds while
      the command-line copy rejects the length; at 8..100 they give the same result
      for the same draws. */
  lemma CopiesDifferOnlyAboveMax(length: int, f: Flags, ds: Draws)
    ensures length <= Cli.MaxLength ==> GeneratePassword(length, f, ds) == Cli.GeneratePassword(length, f, ds)
    ensures length > Cli.MaxLength ==> Cli.GeneratePassword(length, f, ds) == Err(InvalidLength)
    ensures length > Cli.MaxLength && AnySelected(f) ==> GeneratePassword(length, f, ds).Ok?
  {
    if length <= Cli.MaxLength {
      if MinLength <= length && AnySelected(f) {
        GenerateSucceeds(Unbounded, length, f, ds);
        GenerateSucceeds(AtMost(Cli.MaxLength), length, f, ds);
      }
    }
  }
}
