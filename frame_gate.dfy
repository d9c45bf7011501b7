/** The single-slot admission gate of the detector activity as a pure state
    machine. The activity class (module Detection) keeps these values in its
    fields and proves that each of its callbacks moves them exactly as `Step`
    says; the lemmas here then speak about every interleaving of callbacks. */
module FrameGate {
  import opened JavaTypes
  import opened Camera

  /** The gate fields of the activity between two callbacks.
      `processing` is `isProcessingFrame`; `frameId` is `frameID`; `hook` is the
      image the current `postInferenceCallback` closes when it runs (None while
      that field is still null); `posted` counts the offload tasks handed to
      `runInBackground` that have not run yet. */
  datatype Gate = Gate(processing: bool, frameId: int, hook: Option<Image>, posted: nat)

  /** What can happen to the gate.
      `Arrive` is one `onImageAvailable` callback: `image` is what
      `acquireLatestImage` returned, `sized` says the preview size is known
      (neither dimension is 0), and `faulted` says that an admitted frame's
      work threw before the offload task was posted.
      `Offload` is one posted background task running; `success` is what
      `offloadImage` returned.
      `Ready` is a call of `readyForNextImage`. */
  datatype Event =
    | Arrive(image: Option<Image>, sized: bool, faulted: bool)
    | Offload(success: bool)
    | Ready

  /** The gate after an event, and the image the event closed, if any. */
  datatype Transition = Transition(next: Gate, closes: Option<Image>)

  /** The gate of a newly created activity. */
  const Initial: Gate := Gate(false, 0, None, 0)

  /** An admitted frame always has a release hook. */
  predicate Inv(g: Gate) {
    g.processing ==> g.hook.Some?
  }

  /** The event lets a new frame in. */
  predicate Admits(g: Gate, e: Event) {
    e.Arrive? && e.sized && e.image.Some? && !g.processing
  }

  /** The event brings a frame that is turned away. */
  predicate Drops(g: Gate, e: Event) {
    e.Arrive? && e.sized && e.image.Some? && g.processing
  }

  /** The event runs a posted offload task. */
  predicate RunsOffload(g: Gate, e: Event) {
    e.Offload? && g.posted > 0
  }

  /** `readyForNextImage`: when a release hook exists, it closes that hook's
      image and clears `isProcessingFrame`. The hook itself stays in place. */
  function Release(g: Gate): (t: Transition)
    ensures t.closes == g.hook
    ensures t.next.hook == g.hook && t.next.frameId == g.frameId && t.next.posted == g.posted
    ensures t.next.processing == (g.processing && g.hook.None?)
  {
    match g.hook
    case None => Transition(g, None)
    case Some(image) => Transition(g.(processing := false), Some(image))
  }

  /** One event. */
  function Step(g: Gate, e: Event): (t: Transition)
    ensures Inv(g) ==> Inv(t.next)
    ensures Admits(g, e) <==> !g.processing && t.next.processing
    ensures Admits(g, e) ==> t.next.hook == e.image
    ensures !Admits(g, e) ==> t.next.hook == g.hook
    ensures g.processing && !t.next.processing ==> t.closes == g.hook
    ensures Drops(g, e) ==> t.next == g && t.closes == e.image
    ensures t.closes.Some? ==> Drops(g, e) || t.closes == g.hook
    ensures t.next.frameId == if RunsOffload(g, e) then Wrap(g.frameId + 1) else g.frameId
  {
    match e
    case Arrive(image, sized, faulted) =>
      if !sized || image.None? then Transition(g, None)
      else if g.processing then Transition(g, image)
      else Transition(Gate(true, g.frameId, image, if faulted then g.posted else g.posted + 1), None)
    case Offload(success) =>
      if g.posted == 0 then Transition(g, None)
      else
        var ran := g.(frameId := Wrap(g.frameId + 1), posted := g.posted - 1);
        if success then Release(ran) else Transition(ran, None)
    case Ready =>
      Release(g)
  }

  /** The gate after a sequence of events. */
  function Run(g: Gate, events: seq<Event>): Gate
    decreases |events|
  {
    if events == [] then g else Run(Step(g, events[0]).next, events[1..])
  }

  /** How many frames the events admit. */
  function Admissions(g: Gate, events: seq<Event>): nat
    decreases |events|
  {
    if events == [] then 0
    else (if Admits(g, events[0]) then 1 else 0) + Admissions(Step(g, events[0]).next, events[1..])
  }

  /** How many times the events reopen a closed gate. */
  function Reopenings(g: Gate, events: seq<Event>): nat
    decreases |events|
  {
    if events == [] then 0
    else
      var next := Step(g, events[0]).next;
      (if g.processing && !next.processing then 1 else 0) + Reopenings(next, events[1..])
  }

  /** The images the events close, in order. */
  function Closed(g: Gate, events: seq<Event>): seq<Image>
    decreases |events|
  {
    if events == [] then []
    else
      var t := Step(g, events[0]);
      (match t.closes case None => [] case Some(image) => [image]) + Closed(t.next, events[1..])
  }

  /** The frame ids the offload tasks that run hand to `offloadImage`, in order. */
  function OffloadIds(g: Gate, events: seq<Event>): seq<int>
    decreases |events|
  {
    if events == [] then []
    else
      var next := Step(g, events[0]).next;
      (if RunsOffload(g, events[0]) then [next.frameId] else []) + OffloadIds(next, events[1..])
  }

  function Busy(g: Gate): nat {
    if g.processing then 1 else 0
  }

  /** A callback before the preview size is known, or one that acquires no
      image, changes nothing and closes nothing. */
  lemma IgnoredArrivalChangesNothing(g: Gate, image: Option<Image>, sized: bool, faulted: bool)
    requires !sized || image.None?
    ensures Step(g, Arrive(image, sized, faulted)) == Transition(g, None)
  {
  }

  /** Admissions and reopenings alternate: every admission closes the gate and
      only a release opens it again. */
  lemma {:induction false} AdmissionBalance(g: Gate, events: seq<Event>)
    ensures Admissions(g, events) + Busy(g) == Reopenings(g, events) + Busy(Run(g, events))
    decreases |events|
  {
    if events != [] {
      AdmissionBalance(Step(g, events[0]).next, events[1..]);
    }
  }

  /** At most one frame is in flight: from an idle gate the events admit at most
      one frame more than they release, and from a busy gate none more. */
  lemma AtMostOneInFlight(g: Gate, events: seq<Event>)
    ensures Admissions(g, events) <= Reopenings(g, events) + (if g.processing then 0 else 1)
  {
    AdmissionBalance(g, events);
  }

  /** Once the gate is closed and no offload task is left to run, nothing but a
      direct `readyForNextImage` opens it: every frame that arrives is dropped
      and closed at once, and the admitted image stays held. */
  lemma {:induction false} StalledGateDropsEveryFrame(g: Gate, events: seq<Event>)
    requires g.processing && g.posted == 0
    requires forall k :: 0 <= k < |events| ==> !events[k].Ready?
    ensures Run(g, events).processing && Run(g, events).hook == g.hook
    ensures Admissions(g, events) == 0
    ensures forall k :: 0 <= k < |events| && Drops(g, events[k]) ==> events[k].image.value in Closed(g, events)
    decreases |events|
  {
    if events != [] {
      var t := Step(g, events[0]);
      assert t.next == g;
      StalledGateDropsEveryFrame(g, events[1..]);
      forall k | 0 <= k < |events| && Drops(g, events[k])
        ensures events[k].image.value in Closed(g, events)
      {
        if k > 0 {
          assert events[1..][k - 1] == events[k];
        }
      }
    }
  }

  /** A failed offload never reopens the gate: after a frame is admitted from an
      idle gate with nothing posted and then either its work throws before the
      task is posted (`faulted`) or its offload reports failure, no event but
      `readyForNextImage` ever admits another frame, and the admitted image is
      never released. */
  lemma FailedOffloadStallsGate(g: Gate, image: Image, faulted: bool, later: seq<Event>)
    requires !g.processing && g.posted == 0
    requires forall k :: 0 <= k < |later| ==> !later[k].Ready?
    ensures var stalled := Run(g, [Arrive(Some(image), true, faulted), Offload(false)]);
            stalled.processing && stalled.hook == Some(image) && stalled.posted == 0
            && Admissions(stalled, later) == 0
            && Run(stalled, later).processing && Run(stalled, later).hook == Some(image)
  {
    var events := [Arrive(Some(image), true, faulted), Offload(false)];
    var admitted := Step(g, events[0]).next;
    var stalled := Step(admitted, Offload(false)).next;
    assert events[1..] == [Offload(false)] && [Offload(false)][1..] == [];
    assert Run(admitted, [Offload(false)]) == Run(stalled, []) == stalled;
    StalledGateDropsEveryFrame(stalled, later);
  }

  /** The release hook closes exactly the admitted image: an admitted frame
      whose offload succeeds is closed and the gate is idle again, one frame id
      further on. */
  lemma SuccessfulOffloadReleasesAdmittedFrame(g: Gate, image: Image)
    requires !g.processing
    ensures var events := [Arrive(Some(image), true, false), Offload(true)];
            && Run(g, events) == g.(frameId := Wrap(g.frameId + 1), hook := Some(image))
            && Closed(g, events) == [image]
            && OffloadIds(g, events) == [Wrap(g.frameId + 1)]
  {
    var events := [Arrive(Some(image), true, false), Offload(true)];
    var admitted := Step(g, events[0]);
    var released := Step(admitted.next, Offload(true));
    assert events[1..] == [Offload(true)] && [Offload(true)][1..] == [];
    assert admitted.next.posted == g.posted + 1 && admitted.closes == None;
    assert Run(admitted.next, [Offload(true)]) == Run(released.next, []) == released.next;
    assert Closed(admitted.next, [Offload(true)]) == [image] + Closed(released.next, []);
    assert OffloadIds(admitted.next, [Offload(true)]) == [released.next.frameId] + OffloadIds(released.next, []);
  }

  /** Running one more event after a sequence is one more step. */
  lemma {:induction false} RunAppend(g: Gate, events: seq<Event>, e: Event)
    ensures Run(g, events + [e]) == Step(Run(g, events), e).next
    decreases |events|
  {
    if events == [] {
      assert [e][1..] == [];
    } else {
      assert (events + [e])[1..] == events[1..] + [e];
      RunAppend(Step(g, events[0]).next, events[1..], e);
    }
  }

  /** While the gate stays busy the release hook does not change: no frame is
      admitted, and nothing else installs a hook. */
  lemma {:induction false} HookHeldWhileBusy(g: Gate, events: seq<Event>)
    requires forall i :: 0 <= i <= |events| ==> Run(g, events[..i]).processing
    ensures Run(g, events).hook == g.hook
    decreases |events|
  {
    if events != [] {
      var init, last := events[..|events| - 1], events[|events| - 1];
      forall i | 0 <= i <= |init|
        ensures Run(g, init[..i]).processing
      {
        assert init[..i] == events[..i];
      }
      HookHeldWhileBusy(g, init);
      assert events == init + [last];
      RunAppend(g, init, last);
      assert events[..|init|] == init;
    }
  }

  /** The release hook closes exactly the admitted image, whatever happens in
      between: once image `a` is admitted, the first event that reopens the gate
      closes `a`, be it a successful offload, a later `readyForNextImage` after
      a failed one, and however many frames were dropped before. */
  lemma AdmittedFrameClosedByFirstReopening(g: Gate, a: Image, faulted: bool, later: seq<Event>, e: Event)
    requires !g.processing
    requires var admitted := Step(g, Arrive(Some(a), true, faulted)).next;
             forall i :: 0 <= i <= |later| ==> Run(admitted, later[..i]).processing
    requires !Step(Run(Step(g, Arrive(Some(a), true, faulted)).next, later), e).next.processing
    ensures Step(Run(Step(g, Arrive(Some(a), true, faulted)).next, later), e).closes == Some(a)
  {
    var admitted := Step(g, Arrive(Some(a), true, faulted)).next;
    HookHeldWhileBusy(admitted, later);
    assert later[..|later|] == later;
  }

  /** Frame ids strictly increase: the k-th offload that runs tags its image with
      the starting id plus k + 1, as long as the 32-bit counter does not wrap. */
  lemma {:induction false} OffloadIdsIncrease(g: Gate, events: seq<Event>)
    requires IsInt(g.frameId)
    requires g.frameId + |OffloadIds(g, events)| <= IntMax
    ensures Run(g, events).frameId == g.frameId + |OffloadIds(g, events)|
    ensures forall k :: 0 <= k < |OffloadIds(g, events)| ==> OffloadIds(g, events)[k] == g.frameId + k + 1
    decreases |events|
  {
    if events != [] {
      var next := Step(g, events[0]).next;
      OffloadIdsIncrease(next, events[1..]);
    }
  }

  /** Corollary: no two offloads of one session carry the same frame id. */
  lemma OffloadIdsDistinct(g: Gate, events: seq<Event>, i: nat, j: nat)
    requires IsInt(g.frameId)
    requires g.frameId + |OffloadIds(g, events)| <= IntMax
    requires i < j < |OffloadIds(g, events)|
    ensures OffloadIds(g, events)[i] < OffloadIds(g, events)[j]
  {
    OffloadIdsIncrease(g, events);
  }
}
