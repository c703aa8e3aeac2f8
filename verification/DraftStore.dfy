/**
 * The builder's store: one draft, what the server last acknowledged of it, and the last
 * compile answer. Documents and test-case lists are compared by identity, so each is a
 * number here: two are the same object exactly when they are the same number.
 */
module DraftStore {
  import opened Options

  type Doc = nat
  type Cases = nat

  datatype CompileStatus = Idle | Pending | Current | Stale | Refused | Failed

  /** A screen plan, tagged with the document it was computed for. */
  datatype Answer = Answer(about: Doc, body: nat)

  datatype CompileState = CompileState(
    status: CompileStatus,
    result: Option<Answer>,
    refusals: seq<string>,
    failure: Option<string>,
    askedFor: Option<Doc>)

  const IDLE_COMPILE := CompileState(Idle, None, [], None, None)

  datatype SaveStatus = Clean | Dirty | Saving | Conflict | SaveFailed

  datatype Draft = Draft(
    ir: Option<Doc>,
    saved: Option<Doc>,
    revision: Option<nat>,
    save: SaveStatus,
    compile: CompileState,
    cases: Cases)

  // -------------------------------------------------- the transitions, on values

  const CLOSED := Draft(None, None, None, Clean, IDLE_COMPILE, 0)

  function Opened(ir: Doc, revision: Option<nat>, cases: Cases): Draft
  {
    Draft(Some(ir), if revision.None? then None else Some(ir), revision,
          if revision.None? then Dirty else Clean, IDLE_COMPILE, cases)
  }

  function AfterChange(save: SaveStatus): SaveStatus { if save.Conflict? then Conflict else Dirty }

  function Edited(d: Draft, next: Doc): Draft
  {
    if d.ir.None? || d.ir == Some(next) then d
    else d.(ir := Some(next),
            save := AfterChange(d.save),
            compile := if d.compile.status.Idle? then d.compile else d.compile.(status := Stale))
  }

  function CasesEdited(d: Draft, cases: Cases): Draft
  {
    if d.ir.None? then d else d.(cases := cases, save := AfterChange(d.save))
  }

  function SaveLanded(d: Draft, sent: Doc, revision: nat): Draft
  {
    d.(saved := Some(sent), revision := Some(revision), save := if d.ir == Some(sent) then Clean else Dirty)
  }

  function CompileAsked(d: Draft, askedFor: Doc): Draft
  {
    d.(compile := d.compile.(status := Pending, askedFor := Some(askedFor)))
  }

  function CompileAnswered(d: Draft, askedFor: Doc, result: Answer): Draft
  {
    d.(compile := CompileState(if d.ir == Some(askedFor) then Current else Stale, Some(result), [], None, Some(askedFor)))
  }

  function CompileTurnedDown(d: Draft, askedFor: Doc, refusals: seq<string>): Draft
  {
    d.(compile := d.compile.(status := if d.ir == Some(askedFor) then Refused else Stale,
                             refusals := refusals, failure := None, askedFor := Some(askedFor)))
  }

  function CompileBroke(d: Draft, askedFor: Doc, message: string): Draft
  {
    d.(compile := d.compile.(status := if d.ir == Some(askedFor) then Failed else Stale,
                             failure := Some(message), askedFor := Some(askedFor)))
  }

  // ------------------------------------------------------------- the store object

  class BuilderStore {
    var ir: Option<Doc>
    var saved: Option<Doc>
    var revision: Option<nat>
    var save: SaveStatus
    var compile: CompileState
    var testCases: Cases

    ghost function View(): Draft
      reads this
    {
      Draft(ir, saved, revision, save, compile, testCases)
    }

    constructor ()
      ensures View() == CLOSED
    {
      ir, saved, revision, save, compile, testCases := None, None, None, Clean, IDLE_COMPILE, 0;
    }

    method Open(document: Doc, at: Option<nat>, cases: Cases)
      modifies this
      ensures View() == Opened(document, at, cases)
    {
      ir := Some(document);
      saved := if at.None? then None else Some(document);
      revision := at;
      save := if at.None? then Dirty else Clean;
      compile := IDLE_COMPILE;
      testCases := cases;
    }

    method Close()
      modifies this
      ensures View() == CLOSED
    {
      ir, saved, revision, save, compile, testCases := None, None, None, Clean, IDLE_COMPILE, 0;
    }

    method Edit(next: Doc)
      modifies this
      ensures View() == Edited(old(View()), next)
    {
      if ir.None? || ir == Some(next) { return; }
      ir := Some(next);
      save := if save.Conflict? then Conflict else Dirty;
      if !compile.status.Idle? { compile := compile.(status := Stale); }
    }

    method EditCases(cases: Cases)
      modifies this
      ensures View() == CasesEdited(old(View()), cases)
    {
      if ir.None? { return; }
      testCases := cases;
      save := if save.Conflict? then Conflict else Dirty;
    }

    method SetSave(status: SaveStatus)
      modifies this`save
      ensures View() == old(View()).(save := status)
    {
      save := status;
    }

    method SaveSucceeded(sent: Doc, at: nat)
      modifies this
      ensures View() == SaveLanded(old(View()), sent, at)
    {
      saved, revision := Some(sent), Some(at);
      save := if ir == Some(sent) then Clean else Dirty;
    }

    method CompileStarted(document: Doc)
      modifies this`compile
      ensures View() == CompileAsked(old(View()), document)
    {
      compile := compile.(status := Pending, askedFor := Some(document));
    }

    method CompileSucceeded(document: Doc, result: Answer)
      modifies this`compile
      ensures View() == CompileAnswered(old(View()), document, result)
    {
      compile := CompileState(if Some(document) == ir then Current else Stale, Some(result), [], None, Some(document));
    }

    method CompileRefused(document: Doc, refusals: seq<string>)
      modifies this`compile
      ensures View() == CompileTurnedDown(old(View()), document, refusals)
    {
      compile := compile.(status := if Some(document) == ir then Refused else Stale,
                          refusals := refusals, failure := None, askedFor := Some(document));
    }

    method CompileFailed(document: Doc, message: string)
      modifies this`compile
      ensures View() == CompileBroke(old(View()), document, message)
    {
      compile := compile.(status := if Some(document) == ir then Failed else Stale,
                          failure := Some(message), askedFor := Some(document));
    }
  }
}
