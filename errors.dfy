/**
  The errors the encoder and decoder collect, with the exact text each one
  is reported under, and the mutable list they are collected in.
 */
module Errors {
  import opened Text
  import opened Th2

  datatype CodecError =
    | Unexpected(at: string)
    | MissingRequired(at: string)
    | WrongKind(expected: ValueKind, got: ValueKind, at: string)
    | OutOfRange(value: string, at: string)
    | InvalidValue(family: string, value: string, at: string)
  {
    function Text(): string {
      match this
      case Unexpected(at) => "Unexpected field: " + at
      case MissingRequired(at) => "Missing required field: " + at
      case WrongKind(expected, got, at) => "Expected " + KindName(expected) + " but got " + KindName(got) + " at: " + at
      case OutOfRange(value, at) => "Out of range value '" + value + "' at: " + at
      case InvalidValue(family, value, at) => "Invalid " + family + " value '" + value + "' at: " + at
    }
  }

  /** `"$path.$name"`. */
  function FieldPath(path: string, name: string): string {
    path + "." + name
  }

  /** `"$path.$name[$index]"`, the path of one repetition of a group. */
  function ElementPath(path: string, name: string, index: nat): string {
    path + "." + name + "[" + NatToString(index) + "]"
  }

  predicate NoMissingSince(errors: seq<CodecError>, n: nat) {
    forall i :: n <= i < |errors| ==> !errors[i].MissingRequired?
  }

  predicate NoUnexpectedSince(errors: seq<CodecError>, n: nat) {
    forall i :: n <= i < |errors| ==> !errors[i].Unexpected?
  }

  /** Errors reported in three stages, the first and last adding no MissingRequired: those are the middle stage's. */
  lemma MissingBetween(first: seq<CodecError>, middle: seq<CodecError>, all: seq<CodecError>)
    requires first <= middle <= all
    requires NoMissingSince(first, 0) && NoMissingSince(all, |middle|)
    ensures forall e: CodecError :: e.MissingRequired? ==> (e in all <==> e in middle[|first|..])
  {
    forall e: CodecError | e.MissingRequired?
      ensures e in all <==> e in middle[|first|..]
    {
      if e in all {
        var i :| 0 <= i < |all| && all[i] == e;
        assert middle[|first|..][i - |first|] == e;
      }
      if e in middle[|first|..] {
        var i :| 0 <= i < |middle| - |first| && middle[|first|..][i] == e;
        assert all[|first| + i] == e;
      }
    }
  }

  /** No unexpected-field error from `n` on in `a`, nor in what `b` adds to `a`: none from `n` on in `b`. */
  lemma NoUnexpectedAcross(a: seq<CodecError>, b: seq<CodecError>, n: nat)
    requires a <= b && NoUnexpectedSince(a, n) && NoUnexpectedSince(b, |a|)
    ensures NoUnexpectedSince(b, n)
  {
    forall i | n <= i < |b|
      ensures !b[i].Unexpected?
    {
      if i < |a| {
        assert b[i] == a[i];
      }
    }
  }

  /** The `MutableList<String>` of errors passed down the recursion. */
  class ErrorList {
    var items: seq<CodecError>

    constructor ()
      ensures items == []
    {
      items := [];
    }

    method Add(e: CodecError)
      modifies this
      ensures items == old(items) + [e]
    {
      items := items + [e];
    }
  }
}
