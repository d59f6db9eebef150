/** Validation of the flag word, done once when a match result is built. */
module MatchFlags {
  import opened Wrappers
  import opened ResultTypes

  datatype FlagError =
    | UnknownFlags     // a bit outside AllFlags is set
    | NoResultType     // neither type bit is set
    | StrictWithBoth   // Strict together with both type bits

  /** Checks the flags in the order the constructor does and reports the first problem. */
  function ValidateFlags(flags: Flags): (r: Outcome<FlagError>)
    ensures r.Pass? <==> flags in {Indexed, Associative, Both, Indexed | Strict, Associative | Strict}
    ensures r == Fail(UnknownFlags) <==> flags & !AllFlags != 0
    ensures r == Fail(NoResultType) <==> flags == 0 || flags == Strict
    ensures r == Fail(StrictWithBoth) <==> flags == Both | Strict
  {
    if flags & !AllFlags != 0 then Fail(UnknownFlags)
    else
      var typeBits := flags & TypeMask;
      if typeBits == 0 then Fail(NoResultType)
      else
        var strict := flags & Strict != 0;
        if strict && typeBits == TypeMask then Fail(StrictWithBoth)
        else Pass
  }
}
