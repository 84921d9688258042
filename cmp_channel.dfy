/** The cross-frame channel to an IAB CMP (version 1.1 of the IAB CMP JS API,
    postMessage form), as `lookupIabConsent` installs it in
    modules/consentManagement.js: the walk up the frame hierarchy to the frame
    holding `__cmpLocator`, the `window.__cmp` shim with its table of pending
    callbacks keyed by call id, and the `message` listener that answers them. */
module CmpChannel {
  import opened JsValues

  /** What `f.frames['__cmpLocator']` gives in one frame of the hierarchy. A
      cross-origin frame whose access throws is `AccessDenied`. */
  datatype Locator = Visible | Missing | AccessDenied

  /** One frame of the hierarchy, identified by `id`. */
  datatype Frame = Frame(id: nat, locator: Locator)

  /** What `window.__cmp` is: absent, the CMP's own function, or the shim
      installed by the first lookup, bound to the CMP frame it found (if any). */
  datatype Surface = NoCmp | NativeCmp | Shim(cmpFrame: Option<nat>)

  /** The body of the outbound envelope `{__cmpCall: {command, parameter, callId}}`. */
  datatype CmpCall = CmpCall(command: string, parameter: Js, callId: string)

  /** What leaves the window: a `postMessage` of an envelope to a frame (with
      its target origin), or a direct call of the CMP's own `__cmp`. */
  datatype Posted =
    | PostMessage(target: nat, envelope: CmpCall, targetOrigin: string)
    | DirectCall(command: string, parameter: Js)

  /** An already decoded `message` event: one carrying
      `{__cmpReturn: {callId, returnValue, success}}`, or any other. */
  datatype Message = CmpReturn(callId: string, returnValue: Js, success: Js) | OtherMessage

  /** The callbacks that are ever stored: the gate's success callback. */
  datatype Callback = CmpSuccess

  /** A stored callback together with the arguments it is invoked with. */
  datatype Delivery = Delivery(callback: Callback, returnValue: Js, success: Js)

  /** The synchronous result of a `__cmp` call: the request went out, or the
      shim called its error callback with a message. */
  datatype CallOutcome = Sent | Failed(errMsg: string)

  const GetVendorConsents: string := "getVendorConsents"
  const CmpNotFound: string := "CMP not found"
  const AnyOrigin: string := "*"

  /** The index of the first frame, counting from the current frame (index 0)
      up to the top frame (the last index), at or after `from`, that sees the
      locator. */
  function FirstVisibleFrom(ancestors: seq<Frame>, from: nat): (found: Option<nat>)
    requires from <= |ancestors|
    ensures found.Some? ==>
      && from <= found.value < |ancestors|
      && ancestors[found.value].locator == Visible
      && forall j :: from <= j < found.value ==> ancestors[j].locator != Visible
    ensures found.None? ==> forall j :: from <= j < |ancestors| ==> ancestors[j].locator != Visible
    decreases |ancestors| - from
  {
    if from == |ancestors| then None
    else if ancestors[from].locator == Visible then Some(from)
    else FirstVisibleFrom(ancestors, from + 1)
  }

  function FirstVisible(ancestors: seq<Frame>): (found: Option<nat>)
    ensures found.Some? ==> found.value < |ancestors| && ancestors[found.value].locator == Visible
    ensures found.None? ==> forall j :: 0 <= j < |ancestors| ==> ancestors[j].locator != Visible
  {
    FirstVisibleFrom(ancestors, 0)
  }

  /** The id of the CMP frame the walk finds, if any. */
  function CmpFrameOf(ancestors: seq<Frame>): Option<nat>
  {
    match FirstVisible(ancestors)
    case None => None
    case Some(i) => Some(ancestors[i].id)
  }

  /** The `while (!cmpFrame)` walk: test the current frame, stop at the top
      frame, otherwise move to the parent. A frame whose access throws counts
      as not holding the locator. */
  method FindCmpFrame(ancestors: seq<Frame>) returns (found: Option<nat>)
    requires |ancestors| > 0
    ensures found == FirstVisible(ancestors)
  {
    var f := 0;
    found := None;
    while found.None?
      invariant 0 <= f < |ancestors|
      invariant found.None? ==> forall j :: 0 <= j < f ==> ancestors[j].locator != Visible
      invariant found.Some? ==>
        && found.value < |ancestors| && ancestors[found.value].locator == Visible
        && forall j :: 0 <= j < found.value ==> ancestors[j].locator != Visible
      decreases |ancestors| - f
    {
      if ancestors[f].locator == Visible {
        found := Some(f);
      }
      if f == |ancestors| - 1 {
        break;
      }
      f := f + 1;
    }
    FirstVisibleUnique(ancestors, found);
  }

  /** The first frame that sees the locator is determined by the two
      properties the walk establishes. */
  lemma FirstVisibleUnique(ancestors: seq<Frame>, found: Option<nat>)
    requires found.Some? ==>
      && found.value < |ancestors| && ancestors[found.value].locator == Visible
      && forall j :: 0 <= j < found.value ==> ancestors[j].locator != Visible
    requires found.None? ==> forall j :: 0 <= j < |ancestors| ==> ancestors[j].locator != Visible
    ensures found == FirstVisible(ancestors)
  {
  }

  /** Whether a lookup on a window whose `__cmp` is `surface` fails at once with
      'CMP not found': the shim is (or would be, after the walk) bound to no
      frame. */
  predicate FailsAtOnce(surface: Surface, ancestors: seq<Frame>): (fails: bool)
    ensures fails ==> surface != NativeCmp
    ensures surface == NoCmp ==> (fails <==> forall j :: 0 <= j < |ancestors| ==> ancestors[j].locator != Visible)
  {
    match surface
    case NativeCmp => false
    case Shim(cmpFrame) => cmpFrame.None?
    case NoCmp => CmpFrameOf(ancestors).None?
  }

  /** What `window.__cmp` is once a lookup has run: the first lookup on a
      window without a CMP installs the shim, bound to the frame the walk
      finds; any other surface stays. */
  function SurfaceAfter(surface: Surface, ancestors: seq<Frame>): (after: Surface)
    ensures after != NoCmp
    ensures surface != NoCmp ==> after == surface
  {
    if surface == NoCmp then Shim(CmpFrameOf(ancestors)) else surface
  }

  /** What one lookup sends: a direct `getVendorConsents` call of a native
      `__cmp`, or the shim's envelope to its CMP frame, or nothing when the
      shim has no frame. It sends something exactly when it does not fail at
      once. */
  function LookupSends(surface: Surface, ancestors: seq<Frame>, callId: string): (sent: seq<Posted>)
    ensures |sent| == if FailsAtOnce(surface, ancestors) then 0 else 1
  {
    match SurfaceAfter(surface, ancestors)
    case NativeCmp => [DirectCall(GetVendorConsents, Null)]
    case Shim(cmpFrame) =>
      if cmpFrame.Some? then [PostMessage(cmpFrame.value, CmpCall(GetVendorConsents, Null, callId), AnyOrigin)] else []
  }

  /** The call ids of all envelopes posted so far. */
  function PostedIds(outbox: seq<Posted>): (ids: set<string>)
    ensures forall k :: 0 <= k < |outbox| && outbox[k].PostMessage? ==> outbox[k].envelope.callId in ids
  {
    set k | 0 <= k < |outbox| && outbox[k].PostMessage? :: outbox[k].envelope.callId
  }

  /** Posting more envelopes never forgets a posted call id. */
  lemma PostedIdsGrow(a: seq<Posted>, b: seq<Posted>)
    ensures PostedIds(a) <= PostedIds(a + b)
  {
    forall id | id in PostedIds(a) ensures id in PostedIds(a + b) {
      var k :| 0 <= k < |a| && a[k].PostMessage? && a[k].envelope.callId == id;
      assert (a + b)[k] == a[k];
    }
  }

  /** The window's view of the CMP: `window.__cmp`, the shim's callback table
      (`cmpCallbacks`), whether the `message` listener is installed, and every
      envelope or direct call sent so far. */
  class Channel {
    var surface: Surface
    var listening: bool
    var callbacks: map<string, Callback>
    var outbox: seq<Posted>

    /** The listener exists exactly when the shim does; every pending callback
        belongs to an envelope that was posted; without a CMP frame nothing is
        ever pending. */
    ghost predicate Valid()
      reads this
    {
      && (listening <==> surface.Shim?)
      && callbacks.Keys <= PostedIds(outbox)
      && (!surface.Shim? || surface.cmpFrame.None? ==> callbacks == map[])
    }

    /** A window whose `__cmp` is already defined by the CMP, or not defined. */
    constructor (nativeCmp: bool)
      ensures Valid()
      ensures surface == (if nativeCmp then NativeCmp else NoCmp)
      ensures !listening && callbacks == map[] && outbox == []
    {
      surface := if nativeCmp then NativeCmp else NoCmp;
      listening := false;
      callbacks := map[];
      outbox := [];
    }

    /** The shim's `__cmp(cmd, arg, callback)`: without a CMP frame it reports
        'CMP not found' and stores nothing; otherwise it files `callback` under
        the fresh `callId` and posts the envelope to the CMP frame. */
    method ShimCall(command: string, parameter: Js, callback: Callback, callId: string)
      returns (outcome: CallOutcome)
      requires Valid() && surface.Shim?
      requires callId !in callbacks
      modifies this
      ensures Valid()
      ensures surface == old(surface) && listening == old(listening)
      ensures surface.cmpFrame.None? ==>
        outcome == Failed(CmpNotFound) && callbacks == old(callbacks) && outbox == old(outbox)
      ensures surface.cmpFrame.Some? ==>
        && outcome == Sent
        && callbacks == old(callbacks)[callId := callback]
        && outbox == old(outbox) + [PostMessage(surface.cmpFrame.value, CmpCall(command, parameter, callId), AnyOrigin)]
    {
      if surface.cmpFrame.None? {
        return Failed(CmpNotFound);
      }
      var msg := CmpCall(command, parameter, callId);
      PostedIdsGrow(outbox, [PostMessage(surface.cmpFrame.value, msg, AnyOrigin)]);
      callbacks := callbacks[callId := callback];
      outbox := outbox + [PostMessage(surface.cmpFrame.value, msg, AnyOrigin)];
      assert outbox[|outbox| - 1].envelope.callId == callId;
      outcome := Sent;
    }

    /** `lookupIabConsent`: call the CMP's own `__cmp` if there is one (this is
        also the shim after the first lookup); otherwise walk the frames,
        install the shim and the listener, and call the shim. */
    method Lookup(ancestors: seq<Frame>, callId: string) returns (outcome: CallOutcome)
      requires Valid() && |ancestors| > 0
      requires callId !in callbacks
      modifies this
      ensures Valid()
      ensures outcome.Failed? <==> FailsAtOnce(old(surface), ancestors)
      ensures outcome.Failed? ==> outcome.errMsg == CmpNotFound
      ensures surface == SurfaceAfter(old(surface), ancestors)
      ensures outbox == old(outbox) + LookupSends(old(surface), ancestors, callId)
      ensures old(surface) == NativeCmp ==>
        && outcome == Sent && surface == NativeCmp && !listening && callbacks == old(callbacks)
        && outbox == old(outbox) + [DirectCall(GetVendorConsents, Null)]
      ensures old(surface) != NativeCmp ==>
        && surface == (if old(surface).Shim? then old(surface) else Shim(CmpFrameOf(ancestors)))
        && listening
        && (surface.cmpFrame.None? ==>
              outcome == Failed(CmpNotFound) && callbacks == old(callbacks) && outbox == old(outbox))
        && (surface.cmpFrame.Some? ==>
              && outcome == Sent
              && callbacks == old(callbacks)[callId := CmpSuccess]
              && outbox == old(outbox) + [PostMessage(surface.cmpFrame.value, CmpCall(GetVendorConsents, Null, callId), AnyOrigin)])
    {
      if surface == NativeCmp {
        PostedIdsGrow(outbox, [DirectCall(GetVendorConsents, Null)]);
        outbox := outbox + [DirectCall(GetVendorConsents, Null)];
        return Sent;
      }
      if surface == NoCmp {
        var index := FindCmpFrame(ancestors);
        var cmpFrame := if index.Some? then Some(ancestors[index.value].id) else None;
        surface := Shim(cmpFrame);
        listening := true;
      }
      outcome := ShimCall(GetVendorConsents, Null, CmpSuccess, callId);
    }

    /** The `message` listener: a `__cmpReturn` envelope invokes the callback
        filed under its call id with `(returnValue, success)` and removes it;
        any other message, or any message before the listener exists, does
        nothing. The source does not guard an unknown call id. */
    method Receive(m: Message) returns (delivered: Option<Delivery>)
      requires Valid()
      requires listening && m.CmpReturn? ==> m.callId in callbacks
      modifies this
      ensures Valid()
      ensures surface == old(surface) && listening == old(listening) && outbox == old(outbox)
      ensures !(listening && m.CmpReturn?) ==> delivered == None && callbacks == old(callbacks)
      ensures listening && m.CmpReturn? ==>
        && delivered == Some(Delivery(old(callbacks)[m.callId], m.returnValue, m.success))
        && callbacks == old(callbacks) - {m.callId}
    {
      delivered := None;
      if listening && m.CmpReturn? {
        delivered := Some(Delivery(callbacks[m.callId], m.returnValue, m.success));
        callbacks := callbacks - {m.callId};
      }
    }
  }
}
