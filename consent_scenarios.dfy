/** Clients of the consent gate: whole passes driven event by event, with what
    the gate's contracts alone let a caller conclude about each. */
module ConsentScenarios {
  import opened JsValues
  import opened ConsentManagement
  import CmpChannel

  function Config(cmp: string, timeout: int, allow: bool): ConsentConfig
  {
    ConsentConfig(Str(cmp), Num(timeout), Bool(allow))
  }

  /** A page whose parent frame (id 7) holds the CMP locator. */
  function FramedPage(): seq<CmpChannel.Frame>
  {
    [CmpChannel.Frame(1, CmpChannel.Missing), CmpChannel.Frame(7, CmpChannel.Visible)]
  }

  lemma FramedPageHasCmp()
    ensures CmpChannel.CmpFrameOf(FramedPage()) == Some(7)
  {
    assert FramedPage()[0].locator != CmpChannel.Visible;
  }

  /** A page with no CMP locator anywhere up to the top; the top frame is
      cross-origin. */
  function PageWithoutCmp(): seq<CmpChannel.Frame>
  {
    [CmpChannel.Frame(1, CmpChannel.Missing), CmpChannel.Frame(2, CmpChannel.AccessDenied)]
  }

  function Payload(consent: string, applies: bool): Js
  {
    Obj(map["metadata" := Str(consent), "gdprApplies" := Bool(applies)])
  }

  lemma PayloadIsValid(consent: string, applies: bool)
    requires consent != ""
    ensures IsValidPayload(Payload(consent, applies))
    ensures RecordOf(Payload(consent, applies)) == ConsentRecord(Str(consent), Payload(consent, applies), Bool(applies))
  {
  }

  /** A CMP that answers with a well-formed payload: the record holds the
      consent string, the payload and `gdprApplies`, and the auction continues
      once with its own arguments. */
  method ValidReplyIsStored() returns (calls: nat, stored: Option<ConsentRecord>, last: Effect, sent: seq<CmpChannel.Posted>)
    ensures calls == 1
    ensures stored == Some(ConsentRecord(Str("CONSENT123"), Payload("CONSENT123", true), Bool(true)))
    ensures last == Continued(Str("auction"))
    ensures sent == [CmpChannel.PostMessage(7, CmpChannel.CmpCall("getVendorConsents", Null, "0.25"), "*")]
  {
    var g := new Gate(false);
    g.SetConfig(Config("iab", 10000, true));
    g.RequestBidsHook(Str("auction"), FramedPage(), "0.25");
    sent := g.channel.outbox;
    PayloadIsValid("CONSENT123", true);
    g.OnMessage(CmpChannel.CmpReturn("0.25", Payload("CONSENT123", true), Bool(true)));
    calls, stored, last := g.nextCalls, g.consentData, g.log[|g.log| - 1];
  }

  /** With consent stored, the next pass continues at once and sends nothing
      to the CMP. */
  method StoredConsentShortCircuits() returns (calls: nat, sentBefore: nat, sentAfter: nat)
    ensures calls == 1 && sentBefore == sentAfter
  {
    var g := new Gate(false);
    g.SetConfig(Config("iab", 10000, true));
    g.RequestBidsHook(Str("first"), FramedPage(), "0.25");
    PayloadIsValid("CONSENT123", true);
    g.OnMessage(CmpChannel.CmpReturn("0.25", Payload("CONSENT123", true), Bool(true)));
    sentBefore := |g.channel.outbox|;
    g.RequestBidsHook(Str("refresh"), FramedPage(), "0.5");
    calls, sentAfter := g.nextCalls, |g.channel.outbox|;
  }

  /** An unsupported framework: a warning, the auction continues at once, no
      consent is stored. */
  method UnknownCmpContinues() returns (calls: nat, stored: Option<ConsentRecord>, warned: bool)
    ensures calls == 1 && stored == None && warned
  {
    var g := new Gate(false);
    g.SetConfig(Config("unknown", 10000, false));
    g.RequestBidsHook(Str("auction"), FramedPage(), "0.25");
    calls, stored := g.nextCalls, g.consentData;
    warned := UnsupportedCmp("unknown") in g.log;
  }

  /** No CMP frame and the auction allowed without consent: 'CMP not found'
      is logged as a warning, the empty record is stored and the auction
      continues once. */
  method MissingCmpAllowed() returns (calls: nat, stored: Option<ConsentRecord>, warned: bool)
    ensures calls == 1
    ensures stored == Some(ConsentRecord(Undefined, Undefined, Undefined))
    ensures warned
  {
    var g := new Gate(false);
    g.SetConfig(Config("iab", 10000, true));
    g.RequestBidsHook(Str("auction"), PageWithoutCmp(), "0.25");
    calls, stored := g.nextCalls, g.consentData;
    warned := ResumedWithoutConsent(CmpError("CMP not found")) in g.log;
  }

  /** The shim the first pass installed stays bound to no frame: a second
      pass on the same page fails at once again, arms no timer and sends
      nothing. */
  method MissingCmpStaysMissing() returns (calls: nat, armed: bool, sent: nat, surface: CmpChannel.Surface)
    ensures calls == 1 && !armed && sent == 0
    ensures surface == CmpChannel.Shim(None)
  {
    var g := new Gate(false);
    g.SetConfig(Config("iab", 10000, true));
    g.RequestBidsHook(Str("first"), PageWithoutCmp(), "0.25");
    g.ResetConsentData();
    g.RequestBidsHook(Str("second"), PageWithoutCmp(), "0.5");
    calls, armed, sent, surface := g.nextCalls, g.timerArmed, |g.channel.outbox|, g.channel.surface;
  }

  /** A timeout of 0 fails the pass before any reply can arrive; without
      permission to run without consent the auction is canceled. */
  method ZeroTimeoutCancels() returns (calls: nat, stored: Option<ConsentRecord>, armed: bool, last: Effect)
    ensures calls == 0 && stored == None && !armed
    ensures last == AuctionCanceled(UnexpectedValue(Undefined))
  {
    var g := new Gate(false);
    g.SetConfig(Config("iab", 0, false));
    g.RequestBidsHook(Str("auction"), FramedPage(), "0.25");
    calls, stored, armed, last := g.nextCalls, g.consentData, g.timerArmed, g.log[|g.log| - 1];
  }

  /** The timer fires first and cancels the auction; the CMP's reply arrives
      afterwards. The guard keeps the auction canceled, but the late reply is
      still stored. */
  method TimeoutThenLateReply() returns (calls: nat, stored: Option<ConsentRecord>)
    ensures calls == 0
    ensures stored == Some(ConsentRecord(Str("LATE"), Payload("LATE", false), Bool(false)))
  {
    var g := new Gate(false);
    g.SetConfig(Config("iab", 10000, false));
    g.RequestBidsHook(Str("auction"), FramedPage(), "0.25");
    g.CmpTimedOut(false);
    PayloadIsValid("LATE", false);
    g.OnMessage(CmpChannel.CmpReturn("0.25", Payload("LATE", false), Bool(true)));
    calls, stored := g.nextCalls, g.consentData;
  }

  /** The reply arrives first; the timer was cleared, so it cannot fire. */
  method ReplyDisarmsTimer() returns (calls: nat, armed: bool)
    ensures calls == 1 && !armed
  {
    var g := new Gate(false);
    g.SetConfig(Config("iab", 10000, false));
    g.RequestBidsHook(Str("auction"), FramedPage(), "0.25");
    PayloadIsValid("CONSENT123", true);
    g.OnMessage(CmpChannel.CmpReturn("0.25", Payload("CONSENT123", true), Bool(true)));
    calls, armed := g.nextCalls, g.timerArmed;
  }

  /** Two passes wait on the CMP at once. The second pass's timer overwrites
      the handle of the first's; the second pass's reply clears only its own
      timer, is stored and continues the auction. The first pass's timer then
      fires: it replaces the valid consent with the empty record, and the
      next pass continues on that record without asking the CMP again. */
  method StaleTimerOverwritesConsent() returns (calls: nat, stored: Option<ConsentRecord>, sentBefore: nat, sentAfter: nat)
    ensures calls == 1 && sentBefore == sentAfter
    ensures stored == Some(ConsentRecord(Undefined, Undefined, Undefined))
  {
    var g := new Gate(false);
    g.SetConfig(Config("iab", 10000, true));
    g.RequestBidsHook(Str("first"), FramedPage(), "0.25");
    g.RequestBidsHook(Str("second"), FramedPage(), "0.5");
    assert g.timerArmed && g.staleTimers == 1 && "0.5" in g.channel.callbacks;
    PayloadIsValid("CONSENT123", true);
    g.OnMessage(CmpChannel.CmpReturn("0.5", Payload("CONSENT123", true), Bool(true)));
    assert g.consentData == Some(ConsentRecord(Str("CONSENT123"), Payload("CONSENT123", true), Bool(true)));
    g.CmpTimedOut(true);
    FailureRecordIsEmpty();
    sentBefore := |g.channel.outbox|;
    g.RequestBidsHook(Str("third"), FramedPage(), "0.75");
    calls, stored, sentAfter := g.nextCalls, g.consentData, |g.channel.outbox|;
  }

  /** A pass with `cmpApi: 'iab'` times out and is canceled, and
      `setConfig` then names an unsupported framework. The pass's callback is
      still pending. The hook as written and the corrected one agree on this
      pass, which takes the lookup path. */
  method CanceledPassThenUnsupported(asWritten: bool) returns (g: Gate)
    ensures fresh(g) && fresh(g.channel) && g.Valid() && g.configured
    ensures g.userCMP !in SupportedCmps && !g.allowAuction
    ensures g.consentData == None && g.nextCalls == 0
    ensures g.channel.listening && "0.25" in g.channel.callbacks && "0.5" !in g.channel.callbacks
  {
    FramedPageHasCmp();
    g := new Gate(false);
    g.SetConfig(Config("iab", 10000, false));
    if asWritten {
      g.RequestBidsHookAsWritten(Str("first"), FramedPage(), "0.25");
    } else {
      g.RequestBidsHook(Str("first"), FramedPage(), "0.25");
    }
    assert g.timerArmed && "0.25" in g.channel.callbacks;
    g.CmpTimedOut(false);
    g.SetConfig(Config("other", 10000, false));
  }

  /** The source as written: after that canceled pass, the next pass
      continues directly, and the first pass's late reply then continues that
      next pass a second time. */
  method StaleReplyAfterUnsupportedPass() returns (calls: nat)
    ensures calls == 2
  {
    var g := CanceledPassThenUnsupported(true);
    g.RequestBidsHookAsWritten(Str("second"), FramedPage(), "0.5");
    assert g.nextCalls == 1 && g.channel.listening && "0.25" in g.channel.callbacks && !g.haveExited;
    PayloadIsValid("CONSENT123", true);
    g.OnMessage(CmpChannel.CmpReturn("0.25", Payload("CONSENT123", true), Bool(true)));
    calls := g.nextCalls;
  }

  /** The same events with the unsupported-framework path closing the exit
      guard: the late reply no longer continues the second pass. */
  method StaleReplyAfterUnsupportedPassGuarded() returns (calls: nat)
    ensures calls == 1
  {
    var g := CanceledPassThenUnsupported(false);
    g.RequestBidsHook(Str("second"), FramedPage(), "0.5");
    assert g.nextCalls == 1 && g.channel.listening && "0.25" in g.channel.callbacks;
    PayloadIsValid("CONSENT123", true);
    g.OnMessage(CmpChannel.CmpReturn("0.25", Payload("CONSENT123", true), Bool(true)));
    calls := g.nextCalls;
  }
}
