/**
  The `ErrorHolder` strategies of the codec: where the errors met while
  encoding or decoding one message go. A list holder keeps them and fails
  the message; a context holder turns them into warnings of the reporting
  context; a dummy holder drops them (it only logs).
 */
module Holders {

  /** `DummyHolder`, `ListHolder` and `ContextHolder`. */
  datatype HolderKind = Dummy | Listing | Reporting

  /** The messages a holder of kind `kind` keeps, and so reports through `hasErrors` and its iterator. */
  function Kept(kind: HolderKind, messages: seq<string>): (r: seq<string>)
    ensures kind == Listing ==> r == messages
    ensures kind != Listing ==> r == []
  {
    if kind == Listing then messages else []
  }

  /** The messages a holder of kind `kind` passes on as warnings of the reporting context. */
  function Warned(kind: HolderKind, messages: seq<string>): (r: seq<string>)
    ensures kind == Reporting ==> r == messages
    ensures kind != Reporting ==> r == []
  {
    if kind == Reporting then messages else []
  }

  /** Each message goes to at most one place, and only the dummy holder drops it. */
  lemma HolderRoutes(kind: HolderKind, messages: seq<string>)
    ensures Kept(kind, messages) == [] || Warned(kind, messages) == []
    ensures kind != Dummy ==> Kept(kind, messages) + Warned(kind, messages) == messages
    ensures kind == Dummy ==> Kept(kind, messages) + Warned(kind, messages) == []
  {
  }

  lemma {:induction false} KeptAppend(kind: HolderKind, a: seq<string>, b: seq<string>)
    ensures Kept(kind, a + b) == Kept(kind, a) + Kept(kind, b)
    ensures Warned(kind, a + b) == Warned(kind, a) + Warned(kind, b)
  {
  }

  /** `IReportingContext`: the warnings reported so far. */
  class ReportingContext {
    var warnings: seq<string>

    constructor ()
      ensures warnings == []
    {
      warnings := [];
    }

    /** `warning(message)` and `warnings(messages)`. */
    method Warn(messages: seq<string>)
      modifies this
      ensures warnings == old(warnings) + messages
    {
      warnings := warnings + messages;
    }
  }

  /** One `ErrorHolder`; `collected` is the `_errors` list of a `ListHolder`. */
  class ErrorHolder {
    const kind: HolderKind
    const context: ReportingContext
    var collected: seq<string>

    ghost predicate Valid()
      reads this
    {
      kind != Listing ==> collected == []
    }

    constructor (kind: HolderKind, context: ReportingContext)
      ensures Valid()
      ensures this.kind == kind && this.context == context && collected == []
    {
      this.kind := kind;
      this.context := context;
      collected := [];
    }

    /** `plusAssign(message)` and `plusAssign(messages)`. */
    method Add(messages: seq<string>)
      requires Valid()
      modifies this, context
      ensures Valid()
      ensures collected == old(collected) + Kept(kind, messages)
      ensures context.warnings == old(context.warnings) + Warned(kind, messages)
    {
      if kind == Listing {
        collected := collected + messages;
      } else if kind == Reporting {
        context.Warn(messages);
      }
    }

    /** `hasErrors`: only a list holder with something appended has errors. */
    function HasErrors(): (b: bool)
      requires Valid()
      reads this
      ensures b <==> Items() != []
      ensures b ==> kind == Listing
    {
      kind == Listing && collected != []
    }

    /** The iterator: the appended messages, in order, for a list holder; nothing otherwise. */
    function Items(): (r: seq<string>)
      requires Valid()
      reads this
      ensures kind != Listing ==> r == []
    {
      collected
    }
  }
}
