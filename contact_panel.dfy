/**
 * The contact panel (src/components/contact/ContactPanel.tsx): the toast it
 * shows for the form's status changes, and the timer that hides it. Time is
 * left abstract: `TimerFires` is the moment the pending 4200 ms timeout runs.
 */
module ContactPanel {
  import opened Wrappers
  import opened ContactForm

  datatype ToastKind = SuccessToast | ErrorToast

  datatype Toast = Toast(kind: ToastKind, message: string)

  /** How long a toast stays, in milliseconds; every new toast restarts the timeout. */
  const ToastMillis := 4200

  /** `handleStatusChange`: only "success" and "error" with a non-empty message replace the toast. */
  function NextToast(toast: Option<Toast>, e: StatusEvent): (r: Option<Toast>)
    ensures e.status == Success && e.message.Some? && e.message.value != "" ==> r == Some(Toast(SuccessToast, e.message.value))
    ensures e.status == Error && e.message.Some? && e.message.value != "" ==> r == Some(Toast(ErrorToast, e.message.value))
    ensures e.status in {Idle, Saving} || e.message.None? || e.message.value == "" ==> r == toast
  {
    match e.message
    case Some(m) =>
      if e.status == Success && m != "" then Some(Toast(SuccessToast, m))
      else if e.status == Error && m != "" then Some(Toast(ErrorToast, m))
      else toast
    case None => toast
  }

  /** The toast after a run of status changes. */
  function ToastAfter(toast: Option<Toast>, events: seq<StatusEvent>): Option<Toast>
    decreases |events|
  {
    if events == [] then toast
    else ToastAfter(NextToast(toast, events[0]), events[1..])
  }

  lemma {:induction false} ToastAfterAppend(toast: Option<Toast>, a: seq<StatusEvent>, b: seq<StatusEvent>)
    ensures ToastAfter(toast, a + b) == ToastAfter(ToastAfter(toast, a), b)
    decreases |a|
  {
    if a == [] {
      assert a + b == b;
    } else {
      assert (a + b)[0] == a[0] && (a + b)[1..] == a[1..] + b;
      ToastAfterAppend(NextToast(toast, a[0]), a[1..], b);
    }
  }

  function KindOf(status: Status): ToastKind {
    if status == Success then SuccessToast else ErrorToast
  }

  /**
   * Whatever was shown before, a submission leaves the toast that reports its
   * final status change: success only for an accepted request, error otherwise.
   */
  lemma {:induction false} ToastAfterSubmit(toast: Option<Toast>, values: Values, outcome: FetchOutcome, isEmail: string -> bool)
    requires Complete(values)
    ensures var last := SubmitEvents(values, outcome, isEmail)[|SubmitEvents(values, outcome, isEmail)| - 1];
      && ToastAfter(toast, SubmitEvents(values, outcome, isEmail)) == Some(Toast(KindOf(last.status), last.message.value))
      && (ToastAfter(toast, SubmitEvents(values, outcome, isEmail)).value.kind == SuccessToast
          <==> Sends(values, isEmail) && outcome.Responded? && outcome.ok)
  {
    var evs := SubmitEvents(values, outcome, isEmail);
    SubmitEventsShape(values, outcome, isEmail);
    var n := |evs| - 1;
    ToastAfterAppend(toast, evs[..n], [evs[n]]);
    assert evs[..n] + [evs[n]] == evs;
    var before := ToastAfter(toast, evs[..n]);
    assert ToastAfter(before, [evs[n]]) == NextToast(before, evs[n]);
  }

  class Panel {
    var toast: Option<Toast>

    constructor ()
      ensures toast == None
    {
      toast := None;
    }

    /** The form's `onStatusChange`. */
    method HandleStatusChange(status: Status, message: Option<string>)
      modifies this
      ensures toast == NextToast(old(toast), StatusEvent(status, message))
    {
      if status == Success && message.Some? && message.value != "" {
        toast := Some(Toast(SuccessToast, message.value));
      }
      if status == Error && message.Some? && message.value != "" {
        toast := Some(Toast(ErrorToast, message.value));
      }
    }

    /** The pending timeout runs; there is one only while a toast is shown. */
    method TimerFires()
      requires toast.Some?
      modifies this
      ensures toast == None
    {
      toast := None;
    }

    /** A submission of `form`, each of its status changes passed on to this panel. */
    method Submit(form: Form, outcome: FetchOutcome) returns (sent: Option<Payload>)
      requires form.Valid()
      modifies this, form
      ensures form.Valid()
      ensures form.events == old(form.events) + SubmitEvents(old(form.values), outcome, form.isEmail)
      ensures sent == if Sends(old(form.values), form.isEmail) then Some(PayloadOf(old(form.values))) else None
      ensures toast == ToastAfter(old(toast), SubmitEvents(old(form.values), outcome, form.isEmail))
      ensures toast.Some?
    {
      ghost var before := form.values;
      var seen := |form.events|;
      sent := form.HandleSubmit(outcome);
      toast := ToastAfter(toast, form.events[seen..]);
      assert form.events[seen..] == SubmitEvents(before, outcome, form.isEmail);
      ToastAfterSubmit(old(toast), before, outcome, form.isEmail);
    }
  }
}
