/**
 * The copy/apply buttons shown over a rendered code block.
 *
 * The asynchronous clipboard write, the timer queue and the re-render by the
 * host UI become explicit events (methods) on one object: a click on Copy
 * issues a write, the write later resolves or rejects, time elapses, a
 * scheduled revert fires, the parent re-renders with a new `text`.
 * The outbound calls are recorded in logs (`clipboardWrites`,
 * `applyRequests`) instead of being performed.
 */
module CodeButtons {

  /** The copy button's feedback state. */
  datatype CopyButtonState = Copy | Copied | Error

  /** How long feedback other than `Copy` stays before the revert to `Copy` fires. */
  const CopyFeedbackTimeout: nat := 1000

  /** The label `startApplying` receives as the source of an apply request. */
  const ApplyFeatureName: string := "Ctrl+L"

  /** The caption the copy button shows in each state. */
  function Caption(s: CopyButtonState): (c: string)
    ensures c == "Copy" || c == "Copied!" || c == "Could not copy"
  {
    match s
    case Copy => "Copy"
    case Copied => "Copied!"
    case Error => "Could not copy"
  }

  /** Every state shows its own caption. */
  lemma CaptionsDistinct(s: CopyButtonState, u: CopyButtonState)
    ensures Caption(s) == Caption(u) <==> s == u
  {
  }

  /** What `startApplying` is called with. */
  datatype ApplyRequest = ApplyRequest(featureName: string, userMessage: string)

  /** Deadlines in firing order: every earlier-scheduled revert is due no later than a later one. */
  ghost predicate Ascending(s: seq<nat>) {
    forall i, j :: 0 <= i < j < |s| ==> s[i] <= s[j]
  }

  class CodeButtonsOnHover {
    /** The current `text` prop. */
    var text: string
    /** The `text` the memoised apply callback closed over when it was created. */
    var applyText: string
    var state: CopyButtonState
    /** The current time. */
    var now: nat
    /** Deadlines of the scheduled, not yet fired reverts to `Copy`, in firing order. */
    var reverts: seq<nat>
    /** Clipboard writes issued and not yet settled. */
    var inFlight: nat
    /** Every text handed to the clipboard, in order. */
    var clipboardWrites: seq<string>
    /** Every call to `startApplying`, in order. */
    var applyRequests: seq<ApplyRequest>

    /**
     * Reverts fire in order, none is due more than the feedback timeout
     * from now, and feedback other than `Copy` always has a revert
     * pending. A revert may be overdue: a timer fires no earlier than its
     * deadline, possibly later.
     */
    ghost predicate Valid()
      reads this
    {
      && Ascending(reverts)
      && (forall i :: 0 <= i < |reverts| ==> reverts[i] <= now + CopyFeedbackTimeout)
      && (state != Copy ==> reverts != [])
    }

    /** Mounting: the button starts at `Copy` and nothing is scheduled or sent. */
    constructor (text: string)
      ensures Valid()
      ensures this.text == text && applyText == text
      ensures state == Copy && now == 0 && reverts == [] && inFlight == 0
      ensures clipboardWrites == [] && applyRequests == []
    {
      this.text := text;
      applyText := text;
      state := Copy;
      now := 0;
      reverts := [];
      inFlight := 0;
      clipboardWrites := [];
      applyRequests := [];
    }

    /**
     * The state setter followed by the effect keyed on the state: a change
     * to anything but `Copy` schedules a revert one timeout from now;
     * setting the value it already has changes nothing and schedules
     * nothing.
     */
    method SetCopyButtonState(s: CopyButtonState)
      requires Valid()
      modifies this
      ensures Valid()
      ensures state == s
      ensures reverts == if s != old(state) && s != Copy then old(reverts) + [now + CopyFeedbackTimeout] else old(reverts)
      ensures now == old(now) && text == old(text) && applyText == old(applyText) && inFlight == old(inFlight)
      ensures clipboardWrites == old(clipboardWrites) && applyRequests == old(applyRequests)
    {
      if s != state {
        state := s;
        if s != Copy {
          reverts := reverts + [now + CopyFeedbackTimeout];
        }
      }
    }

    /** A click on Copy: the current text goes to the clipboard; the state waits for the outcome. */
    method OnCopy()
      requires Valid()
      modifies this
      ensures Valid()
      ensures clipboardWrites == old(clipboardWrites) + [text] && inFlight == old(inFlight) + 1
      ensures state == old(state) && reverts == old(reverts) && now == old(now)
      ensures text == old(text) && applyText == old(applyText) && applyRequests == old(applyRequests)
    {
      clipboardWrites := clipboardWrites + [text];
      inFlight := inFlight + 1;
    }

    /** A clipboard write resolved: the button shows `Copied`. */
    method WriteResolved()
      requires Valid() && inFlight > 0
      modifies this
      ensures Valid()
      ensures state == Copied && inFlight == old(inFlight) - 1
      ensures reverts == if old(state) != Copied then old(reverts) + [now + CopyFeedbackTimeout] else old(reverts)
      ensures now == old(now) && text == old(text) && applyText == old(applyText)
      ensures clipboardWrites == old(clipboardWrites) && applyRequests == old(applyRequests)
    {
      inFlight := inFlight - 1;
      SetCopyButtonState(Copied);
    }

    /** A clipboard write rejected: the button shows `Error`. */
    method WriteRejected()
      requires Valid() && inFlight > 0
      modifies this
      ensures Valid()
      ensures state == Error && inFlight == old(inFlight) - 1
      ensures reverts == if old(state) != Error then old(reverts) + [now + CopyFeedbackTimeout] else old(reverts)
      ensures now == old(now) && text == old(text) && applyText == old(applyText)
      ensures clipboardWrites == old(clipboardWrites) && applyRequests == old(applyRequests)
    {
      inFlight := inFlight - 1;
      SetCopyButtonState(Error);
    }

    /** Time passes; due timers need not have fired yet. */
    method Elapse(d: nat)
      requires Valid()
      modifies this
      ensures Valid()
      ensures now == old(now) + d
      ensures state == old(state) && reverts == old(reverts) && inFlight == old(inFlight)
      ensures text == old(text) && applyText == old(applyText)
      ensures clipboardWrites == old(clipboardWrites) && applyRequests == old(applyRequests)
    {
      now := now + d;
    }

    /**
     * The earliest scheduled revert fires, at or after its deadline: the button shows `Copy`
     * again, whatever it showed (already `Copy` stays `Copy`); no other
     * pending revert is cancelled.
     */
    method TimerFired()
      requires Valid()
      requires reverts != [] && reverts[0] <= now
      modifies this
      ensures Valid()
      ensures state == Copy && reverts == old(reverts)[1..]
      ensures now == old(now) && inFlight == old(inFlight) && text == old(text) && applyText == old(applyText)
      ensures clipboardWrites == old(clipboardWrites) && applyRequests == old(applyRequests)
    {
      SetCopyButtonState(Copy);
      reverts := reverts[1..];
    }

    /**
     * The parent renders the same button with a new `text`. The copy
     * callback lists `text` among its dependencies and is rebuilt; the
     * apply callback lists only the apply service and keeps its old text.
     */
    method Rerender(newText: string)
      requires Valid()
      modifies this
      ensures Valid()
      ensures text == newText && applyText == old(applyText)
      ensures state == old(state) && reverts == old(reverts) && now == old(now) && inFlight == old(inFlight)
      ensures clipboardWrites == old(clipboardWrites) && applyRequests == old(applyRequests)
    {
      text := newText;
    }

    /** A click on Apply as written: forwards the text the memoised callback captured. */
    method OnApplyAsWritten()
      requires Valid()
      modifies this
      ensures Valid()
      ensures applyRequests == old(applyRequests) + [ApplyRequest(ApplyFeatureName, applyText)]
      ensures state == old(state) && reverts == old(reverts) && now == old(now) && inFlight == old(inFlight)
      ensures text == old(text) && applyText == old(applyText) && clipboardWrites == old(clipboardWrites)
    {
      applyRequests := applyRequests + [ApplyRequest(ApplyFeatureName, applyText)];
    }

    /** A click on Apply: exactly one apply request with the current code text; the copy state is untouched. */
    method OnApply()
      requires Valid()
      modifies this
      ensures Valid()
      ensures applyRequests == old(applyRequests) + [ApplyRequest(ApplyFeatureName, text)]
      ensures state == old(state) && reverts == old(reverts) && now == old(now) && inFlight == old(inFlight)
      ensures text == old(text) && applyText == old(applyText) && clipboardWrites == old(clipboardWrites)
    {
      applyRequests := applyRequests + [ApplyRequest(ApplyFeatureName, text)];
    }
  }

  /** While the button shows feedback other than `Copy`, a revert is pending, due within the timeout. */
  lemma FeedbackIsTransient(b: CodeButtonsOnHover)
    requires b.Valid() && b.state != Copy
    ensures b.reverts != [] && b.reverts[0] <= b.now + CopyFeedbackTimeout
  {
  }

  // ---------------------------------------------------------------------
  // Scenarios, driven through the methods' contracts alone
  // ---------------------------------------------------------------------

  /**
   * A successful copy: `Copy`, then `Copied` right after the write
   * resolves, still `Copied` one unit before the timeout, and `Copy` again
   * when the revert fires after the timeout; the clipboard got the text.
   * One unit before the timeout the only revert is not yet due and no
   * write is in flight, so no other transition can happen in between
   * (`TimerFired` needs a due revert, a settled write needs one in flight).
   */
  method CopySucceeds(text: string)
    returns (shown: seq<CopyButtonState>, written: seq<string>, pendingAt999: nat, nextDueAt999: nat, nowAt999: nat, inFlightAt999: nat)
    ensures shown == [Copy, Copied, Copied, Copy]
    ensures written == [text]
    ensures pendingAt999 == 1 && nextDueAt999 == CopyFeedbackTimeout
    ensures nowAt999 == CopyFeedbackTimeout - 1 && nowAt999 < nextDueAt999 && inFlightAt999 == 0
  {
    var b := new CodeButtonsOnHover(text);
    shown := [b.state];
    b.OnCopy();
    b.WriteResolved();
    shown := shown + [b.state];
    b.Elapse(CopyFeedbackTimeout - 1);
    shown := shown + [b.state];
    pendingAt999, nowAt999, inFlightAt999 := |b.reverts|, b.now, b.inFlight;
    nextDueAt999 := if b.reverts == [] then 0 else b.reverts[0];
    b.Elapse(1);
    b.TimerFired();
    shown := shown + [b.state];
    written := b.clipboardWrites;
  }

  /**
   * A failed copy: `Copy`, `Error` once the write rejects, `Copy` again
   * after the timeout; as above, nothing else can happen one unit before.
   */
  method CopyFails(text: string)
    returns (shown: seq<CopyButtonState>, written: seq<string>, pendingAt999: nat, nextDueAt999: nat, nowAt999: nat, inFlightAt999: nat)
    ensures shown == [Copy, Error, Error, Copy]
    ensures written == [text]
    ensures pendingAt999 == 1 && nextDueAt999 == CopyFeedbackTimeout
    ensures nowAt999 == CopyFeedbackTimeout - 1 && nowAt999 < nextDueAt999 && inFlightAt999 == 0
  {
    var b := new CodeButtonsOnHover(text);
    shown := [b.state];
    b.OnCopy();
    b.WriteRejected();
    shown := shown + [b.state];
    b.Elapse(CopyFeedbackTimeout - 1);
    shown := shown + [b.state];
    pendingAt999, nowAt999, inFlightAt999 := |b.reverts|, b.now, b.inFlight;
    nextDueAt999 := if b.reverts == [] then 0 else b.reverts[0];
    b.Elapse(1);
    b.TimerFired();
    shown := shown + [b.state];
    written := b.clipboardWrites;
  }

  /**
   * A second successful write while `Copied` is already shown sets the
   * same state again and schedules no second revert.
   */
  method RepeatedSuccess(text: string) returns (shown: CopyButtonState, pending: nat)
    ensures shown == Copied
    ensures pending == 1
  {
    var b := new CodeButtonsOnHover(text);
    b.OnCopy();
    b.OnCopy();
    b.WriteResolved();
    b.WriteResolved();
    shown := b.state;
    pending := |b.reverts|;
  }

  /**
   * Reverts are not cancelled. A success and, half a timeout later, a
   * failure: the first revert ends the `Error` feedback early, and the
   * second fires on `Copy` and leaves it at `Copy`.
   */
  method OverlappingCopies(text: string) returns (shown: seq<CopyButtonState>)
    ensures shown == [Copied, Error, Copy, Copy]
  {
    var b := new CodeButtonsOnHover(text);
    b.OnCopy();
    b.OnCopy();
    b.WriteResolved();
    var first := b.state;
    b.Elapse(500);
    b.WriteRejected();
    var second := b.state;
    b.Elapse(500);
    b.TimerFired();
    var third := b.state;
    b.Elapse(500);
    b.TimerFired();
    shown := [first, second, third, b.state];
  }

  /**
   * Apply as written after the code text changed: the request carries the
   * text from the first render, not the current one.
   */
  method StaleApplyAsWritten() returns (forwarded: string, current: string)
    ensures forwarded == "let x" && current == "let x = 1"
    ensures forwarded != current
  {
    var b := new CodeButtonsOnHover("let x");
    b.Rerender("let x = 1");
    b.OnApplyAsWritten();
    forwarded := b.applyRequests[0].userMessage;
    current := b.text;
  }

  /**
   * Apply with the current text: after the same change the request carries
   * the current text unmodified, under the fixed feature name, and the copy
   * state is what it was.
   */
  method ApplyForwardsCurrentText(first: string, later: string) returns (requests: seq<ApplyRequest>, shown: CopyButtonState)
    ensures requests == [ApplyRequest("Ctrl+L", later)]
    ensures shown == Copied
  {
    var b := new CodeButtonsOnHover(first);
    b.OnCopy();
    b.WriteResolved();
    b.Rerender(later);
    b.OnApply();
    requests := b.applyRequests;
    shown := b.state;
  }
}
