/** The verbose flag `main` reads from the command-line arguments passed on to `cargo`. */
module Arguments {

  predicate IsVerboseFlag(arg: string) {
    arg == "-v" || arg == "--verbose"
  }

  /** `any(a == '-v' or a == '--verbose' for a in args)`: stops at the first flag. */
  method IsVerbose(args: seq<string>) returns (verbose: bool)
    ensures verbose <==> exists i :: 0 <= i < |args| && IsVerboseFlag(args[i])
  {
    var i := 0;
    while i < |args|
      invariant 0 <= i <= |args|
      invariant forall j :: 0 <= j < i ==> !IsVerboseFlag(args[j])
    {
      if args[i] == "-v" || args[i] == "--verbose" {
        return true;
      }
      i := i + 1;
    }
    return false;
  }
}
