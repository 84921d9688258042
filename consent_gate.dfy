/** The GDPR consent gate of modules/consentManagement.js: a hook in front of
    `requestBids` that looks the user's consent up through a CMP, races the
    lookup against a timeout and lets the auction continue (`nextFn`) at most
    once per pass, following the `allowAuctionWithoutConsent` policy when the
    lookup fails. Every event handler of the module is a method of `Gate`. */
module ConsentManagement {
  import opened JsValues
  import CmpChannel

  const DefaultCmp: string := "iab"
  const DefaultConsentTimeout: int := 10000
  const DefaultAllowAuction: bool := true
  const HookPriority: int := 50
  const TimeoutMessage: string := "CMP workflow exceeded timeout threshold."

  /** The keys of `cmpCallMap`: the CMP frameworks that have a lookup function. */
  const SupportedCmps: set<string> := {"iab"}

  /** The `consentManagement` section of the configuration, as given. */
  datatype ConsentConfig = ConsentConfig(cmpApi: Js, timeout: Js, allowAuctionWithoutConsent: Js)

  /** The object `storeConsentData` builds and publishes. */
  datatype ConsentRecord = ConsentRecord(consentString: Js, vendorData: Js, gdprApplies: Js)

  /** The message a failure carries into `exitModule`: a CMP error or timeout
      text, or the unexpected value the CMP returned (embedded in the text). */
  datatype FailReason = CmpError(message: string) | UnexpectedValue(returned: Js)

  /** The settings `setConfig` may default. */
  datatype Setting = CmpSetting | TimeoutSetting | AllowAuctionSetting

  /** The externally visible effects, in the order they happen: log lines,
      the hook registration, publication to `gdprDataHandler`, and calls of
      `nextFn` with the pass's arguments. */
  datatype Effect =
    | DefaultUsed(setting: Setting)
    | HookAdded(priority: int)
    | UnsupportedCmp(cmp: string)
    | ResumedWithoutConsent(reason: FailReason)
    | AuctionCanceled(reason: FailReason)
    | ConsentPublished(record: ConsentRecord)
    | Continued(args: Js)

  /** The check of `processCmpData`: an object whose `metadata` is a non-empty
      string. */
  predicate IsValidPayload(v: Js): (valid: bool)
    ensures valid ==> Truthy(v) && Get(v, "metadata") != Undefined
  {
    v.Obj? && Get(v, "metadata").Str? && Get(v, "metadata").s != ""
  }

  /** `storeConsentData(v)`: the consent string and `gdprApplies` of a truthy
      `v`, and `v` itself as the vendor data. Only an object carries a consent
      string or `gdprApplies`. */
  function RecordOf(v: Js): (record: ConsentRecord)
    ensures record.vendorData == v
    ensures record.consentString != Undefined || record.gdprApplies != Undefined ==> v.Obj?
  {
    ConsentRecord(
      if Truthy(v) then Get(v, "metadata") else Undefined,
      v,
      if Truthy(v) then Get(v, "gdprApplies") else Undefined)
  }

  /** A valid payload is stored with its metadata as a non-empty consent
      string, the payload itself as vendor data and its `gdprApplies`. */
  lemma ValidPayloadRecord(v: Js)
    requires IsValidPayload(v)
    ensures RecordOf(v).consentString.Str? && RecordOf(v).consentString.s != ""
    ensures RecordOf(v) == ConsentRecord(v.props["metadata"], v, Get(v, "gdprApplies"))
  {
  }

  /** The record stored when the lookup failed: every field undefined. */
  lemma FailureRecordIsEmpty()
    ensures RecordOf(Undefined) == ConsentRecord(Undefined, Undefined, Undefined)
  {
  }

  /** The info lines `setConfig` logs for each setting it defaults. */
  function DefaultNotes(cfg: ConsentConfig): (notes: seq<Effect>)
    ensures |notes| <= 3
    ensures DefaultUsed(CmpSetting) in notes <==> !cfg.cmpApi.Str?
    ensures DefaultUsed(TimeoutSetting) in notes <==> !cfg.timeout.Num?
    ensures DefaultUsed(AllowAuctionSetting) in notes <==> !cfg.allowAuctionWithoutConsent.Bool?
  {
    (if cfg.cmpApi.Str? then [] else [DefaultUsed(CmpSetting)])
    + (if cfg.timeout.Num? then [] else [DefaultUsed(TimeoutSetting)])
    + (if cfg.allowAuctionWithoutConsent.Bool? then [] else [DefaultUsed(AllowAuctionSetting)])
  }

  /** Whether an exit with this message lets the auction continue. */
  predicate Continues(errMsg: Option<FailReason>, allowAuction: bool)
  {
    errMsg.None? || allowAuction
  }

  /** What the admitted exit of a pass does: the good exit continues; a bad
      exit warns and continues when the auction is allowed without consent,
      and otherwise logs an error and cancels. */
  function ExitEffects(errMsg: Option<FailReason>, allowAuction: bool, args: Js): (effects: seq<Effect>)
    ensures Continuations(effects) == if Continues(errMsg, allowAuction) then 1 else 0
    ensures Continues(errMsg, allowAuction) <==> Continued(args) in effects
  {
    match errMsg
    case None => [Continued(args)]
    case Some(reason) =>
      if allowAuction then
        assert [ResumedWithoutConsent(reason), Continued(args)][1..] == [Continued(args)];
        assert Continuations([Continued(args)]) == 1 by {
          assert [Continued(args)][1..] == [];
        }
        [ResumedWithoutConsent(reason), Continued(args)]
      else [AuctionCanceled(reason)]
  }

  /** What `cmpFailed` adds to the log: the empty record is published when the
      auction may run without consent (even after the pass has exited), then
      the exit acts unless the pass has already exited. */
  function FailureEffects(reason: FailReason, allowAuction: bool, exited: bool, args: Js): (effects: seq<Effect>)
    ensures Continuations(effects) == if !exited && allowAuction then 1 else 0
    ensures allowAuction <==> |effects| > 0 && effects[0] == ConsentPublished(RecordOf(Undefined))
  {
    ContinuationsAppend(if allowAuction then [ConsentPublished(RecordOf(Undefined))] else [],
      if exited then [] else ExitEffects(Some(reason), allowAuction, args));
    (if allowAuction then [ConsentPublished(RecordOf(Undefined))] else [])
    + (if exited then [] else ExitEffects(Some(reason), allowAuction, args))
  }

  /** What `processCmpData(v)` adds to the log: publication of `v` and the good
      exit for a valid payload, the failure path otherwise. */
  function ProcessEffects(v: Js, allowAuction: bool, exited: bool, args: Js): (effects: seq<Effect>)
    ensures Continuations(effects) == if !exited && (IsValidPayload(v) || allowAuction) then 1 else 0
  {
    if IsValidPayload(v) then
      ContinuationsAppend([ConsentPublished(RecordOf(v))], if exited then [] else ExitEffects(None, allowAuction, args));
      [ConsentPublished(RecordOf(v))] + (if exited then [] else ExitEffects(None, allowAuction, args))
    else FailureEffects(UnexpectedValue(v), allowAuction, exited, args)
  }

  /** The stored consent after `processCmpData(v)`. */
  function ConsentAfterProcess(v: Js, allowAuction: bool, before: Option<ConsentRecord>): (after: Option<ConsentRecord>)
    ensures IsValidPayload(v) ==> after == Some(ConsentRecord(Get(v, "metadata"), v, Get(v, "gdprApplies")))
    ensures !IsValidPayload(v) && allowAuction ==> after == Some(ConsentRecord(Undefined, Undefined, Undefined))
    ensures !IsValidPayload(v) && !allowAuction ==> after == before
  {
    if IsValidPayload(v) then Some(RecordOf(v))
    else if allowAuction then Some(RecordOf(Undefined))
    else before
  }

  /** The number of `nextFn` calls in a stretch of the log. */
  function Continuations(effects: seq<Effect>): nat
  {
    if effects == [] then 0
    else (if effects[0].Continued? then 1 else 0) + Continuations(effects[1..])
  }

  lemma {:induction false} ContinuationsAppend(a: seq<Effect>, b: seq<Effect>)
    ensures Continuations(a + b) == Continuations(a) + Continuations(b)
  {
    if a == [] {
      assert a + b == b;
    } else {
      ContinuationsAppend(a[1..], b);
      assert (a + b)[1..] == a[1..] + b;
    }
  }

  /** The outcome of one CMP answer: once the pass has exited nothing
      continues it; otherwise it continues exactly once when the payload is
      valid or the auction may run without consent, and is canceled (with the
      reason) otherwise. A failure publishes the empty record exactly when the
      auction may run without consent. */
  lemma ProcessPolicy(v: Js, allowAuction: bool, exited: bool, args: Js)
    ensures Continuations(ProcessEffects(v, allowAuction, exited, args)) ==
      if exited then 0 else if IsValidPayload(v) || allowAuction then 1 else 0
    ensures !IsValidPayload(v) ==>
      (AuctionCanceled(UnexpectedValue(v)) in ProcessEffects(v, allowAuction, exited, args) <==> !exited && !allowAuction)
    ensures !IsValidPayload(v) ==>
      (ConsentPublished(RecordOf(Undefined)) in ProcessEffects(v, allowAuction, exited, args) <==> allowAuction)
  {
    var exit := if exited then [] else ExitEffects(if IsValidPayload(v) then None else Some(UnexpectedValue(v)), allowAuction, args);
    if IsValidPayload(v) {
      ContinuationsAppend([ConsentPublished(RecordOf(v))], exit);
    } else {
      ContinuationsAppend(if allowAuction then [ConsentPublished(RecordOf(Undefined))] else [], exit);
      var reason := UnexpectedValue(v);
      assert Continuations([ResumedWithoutConsent(reason), Continued(args)]) == 1 by {
        ContinuationsAppend([ResumedWithoutConsent(reason)], [Continued(args)]);
        assert [ResumedWithoutConsent(reason)] + [Continued(args)] == [ResumedWithoutConsent(reason), Continued(args)];
        assert [Continued(args)][1..] == [];
        assert [ResumedWithoutConsent(reason)][1..] == [];
      }
    }
  }

  /** The module's state, one instance per page. `nextCalls` counts the calls
      of `nextFn` since the current pass began. `timerArmed` says whether the
      timer whose handle `timer` holds is pending; `staleTimers` counts the
      pending timers whose handle a later pass overwrote, which no
      `clearTimeout(timer)` can reach any more. */
  class Gate {
    var configured: bool
    var userCMP: string
    var consentTimeout: int
    var allowAuction: bool
    var consentData: Option<ConsentRecord>
    var args: Js
    var haveExited: bool
    var timerArmed: bool
    var staleTimers: nat
    var nextCalls: nat
    var log: seq<Effect>
    const channel: CmpChannel.Channel

    /** The channel is consistent, and the timer and the listener exist only
        once a pass has run, which needs `setConfig` to have registered the
        hook. */
    ghost predicate Valid()
      reads this, channel
    {
      && channel.Valid()
      && (timerArmed ==> configured)
      && (staleTimers > 0 ==> configured)
      && (channel.listening ==> configured)
    }

    /** The exit guard's promise: `nextFn` has run at most once in this pass,
        and not at all while the pass has not exited. */
    predicate AtMostOnce()
      reads this
    {
      nextCalls <= 1 && (!haveExited ==> nextCalls == 0)
    }

    twostate predicate SettingsUnchanged()
      reads this
    {
      && configured == old(configured) && userCMP == old(userCMP)
      && consentTimeout == old(consentTimeout) && allowAuction == old(allowAuction)
    }

    /** The module as loaded: nothing configured, no consent, and `haveExited`
        undefined, which `exitModule`'s `=== false` test treats like `true`. */
    constructor (nativeCmp: bool)
      ensures Valid() && AtMostOnce()
      ensures !configured && consentData == None && haveExited && !timerArmed && staleTimers == 0
      ensures nextCalls == 0 && log == []
      ensures fresh(channel) && channel.surface == (if nativeCmp then CmpChannel.NativeCmp else CmpChannel.NoCmp)
      ensures channel.callbacks == map[] && channel.outbox == []
    {
      configured := false;
      userCMP := "";
      consentTimeout := 0;
      allowAuction := false;
      consentData := None;
      args := Undefined;
      haveExited := true;
      timerArmed := false;
      staleTimers := 0;
      nextCalls := 0;
      log := [];
      channel := new CmpChannel.Channel(nativeCmp);
    }

    /** `setConfig`: each setting is taken from the configuration when it has
        the right type and defaulted (with an info line) otherwise; then the
        hook is registered at priority 50. */
    method SetConfig(cfg: ConsentConfig)
      requires Valid()
      modifies this`userCMP, this`consentTimeout, this`allowAuction, this`log, this`configured
      ensures Valid() && configured
      ensures userCMP == (if cfg.cmpApi.Str? then cfg.cmpApi.s else DefaultCmp)
      ensures consentTimeout == (if cfg.timeout.Num? then cfg.timeout.n else DefaultConsentTimeout)
      ensures allowAuction == (if cfg.allowAuctionWithoutConsent.Bool? then cfg.allowAuctionWithoutConsent.b else DefaultAllowAuction)
      ensures log == old(log) + DefaultNotes(cfg) + [HookAdded(HookPriority)]
    {
      ghost var log0 := log;
      if cfg.cmpApi.Str? {
        userCMP := cfg.cmpApi.s;
      } else {
        userCMP := DefaultCmp;
        log := log + [DefaultUsed(CmpSetting)];
      }
      if cfg.timeout.Num? {
        consentTimeout := cfg.timeout.n;
      } else {
        consentTimeout := DefaultConsentTimeout;
        log := log + [DefaultUsed(TimeoutSetting)];
      }
      if cfg.allowAuctionWithoutConsent.Bool? {
        allowAuction := cfg.allowAuctionWithoutConsent.b;
      } else {
        allowAuction := DefaultAllowAuction;
        log := log + [DefaultUsed(AllowAuctionSetting)];
      }
      assert log == log0 + DefaultNotes(cfg);
      log := log + [HookAdded(HookPriority)];
      configured := true;
    }

    /** `resetConsentData`: forget the stored consent. */
    method ResetConsentData()
      requires Valid()
      modifies this
      ensures Valid() && consentData == None
      ensures SettingsUnchanged() && log == old(log) && args == old(args)
      ensures haveExited == old(haveExited) && timerArmed == old(timerArmed) && nextCalls == old(nextCalls)
      ensures staleTimers == old(staleTimers)
    {
      consentData := None;
    }

    /** `exitModule(errMsg)`: only the first exit of a pass acts; it sets
        `haveExited` before acting. */
    method ExitModule(errMsg: Option<FailReason>)
      requires Valid() && configured
      modifies this
      ensures Valid() && haveExited
      ensures log == old(log) + (if old(haveExited) then [] else ExitEffects(errMsg, allowAuction, args))
      ensures nextCalls == old(nextCalls) + (if !old(haveExited) && Continues(errMsg, allowAuction) then 1 else 0)
      ensures SettingsUnchanged() && consentData == old(consentData) && args == old(args)
      ensures timerArmed == old(timerArmed) && staleTimers == old(staleTimers)
      ensures old(AtMostOnce()) ==> AtMostOnce()
    {
      if haveExited == false {
        haveExited := true;
        if errMsg.Some? {
          if allowAuction {
            log := log + [ResumedWithoutConsent(errMsg.value), Continued(args)];
            nextCalls := nextCalls + 1;
          } else {
            log := log + [AuctionCanceled(errMsg.value)];
          }
        } else {
          log := log + [Continued(args)];
          nextCalls := nextCalls + 1;
        }
      }
    }

    /** `storeConsentData(v)`: build the record, keep it and publish it. */
    method StoreConsentData(v: Js)
      requires Valid()
      modifies this
      ensures Valid()
      ensures consentData == Some(RecordOf(v))
      ensures log == old(log) + [ConsentPublished(RecordOf(v))]
      ensures SettingsUnchanged() && args == old(args) && haveExited == old(haveExited)
      ensures timerArmed == old(timerArmed) && nextCalls == old(nextCalls) && staleTimers == old(staleTimers)
    {
      var record := RecordOf(v);
      consentData := Some(record);
      log := log + [ConsentPublished(record)];
    }

    /** `cmpFailed(errMsg)`: clear the timer, store the empty record when the
        auction may run without consent, and take the bad exit. */
    method CmpFailed(reason: FailReason)
      requires Valid() && configured
      modifies this
      ensures Valid() && haveExited && !timerArmed
      ensures consentData == (if allowAuction then Some(RecordOf(Undefined)) else old(consentData))
      ensures log == old(log) + FailureEffects(reason, allowAuction, old(haveExited), args)
      ensures nextCalls == old(nextCalls) + (if !old(haveExited) && allowAuction then 1 else 0)
      ensures SettingsUnchanged() && args == old(args) && staleTimers == old(staleTimers)
      ensures old(AtMostOnce()) ==> AtMostOnce()
    {
      timerArmed := false;
      if allowAuction {
        StoreConsentData(Undefined);
      }
      ExitModule(Some(reason));
    }

    /** `processCmpData(v)`: the CMP's success callback. A valid payload
        clears the timer, is stored and takes the good exit; anything else is
        a failure. */
    method ProcessCmpData(v: Js)
      requires Valid() && configured
      modifies this
      ensures Valid() && haveExited && !timerArmed
      ensures consentData == ConsentAfterProcess(v, allowAuction, old(consentData))
      ensures log == old(log) + ProcessEffects(v, allowAuction, old(haveExited), args)
      ensures nextCalls == old(nextCalls) + (if !old(haveExited) && (IsValidPayload(v) || allowAuction) then 1 else 0)
      ensures SettingsUnchanged() && args == old(args) && staleTimers == old(staleTimers)
      ensures old(AtMostOnce()) ==> AtMostOnce()
    {
      if !IsValidPayload(v) {
        CmpFailed(UnexpectedValue(v));
      } else {
        timerArmed := false;
        StoreConsentData(v);
        ExitModule(None);
      }
    }

    /** `cmpTimedOut`: a pending timer fires, either the one `timer` holds or
        (`stale`) one whose handle a later pass overwrote. Either way the
        current pass fails: `clearTimeout(timer)` cancels the timer `timer`
        holds, the empty record replaces any stored consent when the auction
        may run without consent, and the bad exit acts unless the current
        pass has already exited. */
    method CmpTimedOut(stale: bool)
      requires Valid()
      requires if stale then staleTimers > 0 else timerArmed
      modifies this
      ensures Valid() && haveExited && !timerArmed
      ensures staleTimers == old(staleTimers) - (if stale then 1 else 0)
      ensures consentData == (if allowAuction then Some(RecordOf(Undefined)) else old(consentData))
      ensures log == old(log) + FailureEffects(CmpError(TimeoutMessage), allowAuction, old(haveExited), args)
      ensures nextCalls == old(nextCalls) + (if !old(haveExited) && allowAuction then 1 else 0)
      ensures SettingsUnchanged() && args == old(args)
      ensures old(AtMostOnce()) ==> AtMostOnce()
    {
      if stale {
        staleTimers := staleTimers - 1;
      }
      CmpFailed(CmpError(TimeoutMessage));
    }

    /** A `message` event: the listener hands a `__cmpReturn` to the stored
        callback, which is always `processCmpData`. */
    method OnMessage(m: CmpChannel.Message)
      requires Valid()
      requires channel.listening && m.CmpReturn? ==> m.callId in channel.callbacks
      modifies this, channel
      ensures Valid()
      ensures channel.surface == old(channel.surface) && channel.listening == old(channel.listening)
      ensures channel.outbox == old(channel.outbox)
      ensures SettingsUnchanged() && args == old(args) && staleTimers == old(staleTimers)
      ensures old(AtMostOnce()) ==> AtMostOnce()
      ensures !(old(channel.listening) && m.CmpReturn?) ==>
        && channel.callbacks == old(channel.callbacks) && log == old(log)
        && consentData == old(consentData) && haveExited == old(haveExited)
        && timerArmed == old(timerArmed) && nextCalls == old(nextCalls)
      ensures old(channel.listening) && m.CmpReturn? ==>
        && channel.callbacks == old(channel.callbacks) - {m.callId}
        && haveExited && !timerArmed
        && consentData == ConsentAfterProcess(m.returnValue, allowAuction, old(consentData))
        && log == old(log) + ProcessEffects(m.returnValue, allowAuction, old(haveExited), args)
        && nextCalls == old(nextCalls)
             + (if !old(haveExited) && (IsValidPayload(m.returnValue) || allowAuction) then 1 else 0)
    {
      var delivered := channel.Receive(m);
      if delivered.Some? {
        match delivered.value.callback
        case CmpSuccess => ProcessCmpData(delivered.value.returnValue);
      }
    }

    /** What starting the lookup (lines 119-128) did, relative to the state
        at the start of the pass: the lookup ran once, leaving `__cmp` as
        `SurfaceAfter` and sending what `LookupSends` gives; a lookup that
        failed at once, or a timeout of 0, took the failure path, whose
        `clearTimeout(timer)` cancels the timer `timer` still holds; otherwise
        the timer is armed, and a timer `timer` held before becomes stale. */
    twostate predicate LookupStarted(ancestors: seq<CmpChannel.Frame>, callId: string)
      reads this, channel
    {
      var fails := CmpChannel.FailsAtOnce(old(channel.surface), ancestors);
      var native := old(channel.surface) == CmpChannel.NativeCmp;
      && channel.surface == CmpChannel.SurfaceAfter(old(channel.surface), ancestors)
      && channel.outbox == old(channel.outbox) + CmpChannel.LookupSends(old(channel.surface), ancestors, callId)
      && channel.listening == !native
      && channel.callbacks == (if fails || native then old(channel.callbacks)
                              else old(channel.callbacks)[callId := CmpChannel.CmpSuccess])
      && (fails ==>
            && haveExited && !timerArmed
            && consentData == (if allowAuction then Some(RecordOf(Undefined)) else None)
            && log == old(log) + FailureEffects(CmpError(CmpChannel.CmpNotFound), allowAuction, false, args)
            && nextCalls == (if allowAuction then 1 else 0)
            && staleTimers == old(staleTimers))
      && (!fails && consentTimeout == 0 ==>
            && haveExited && !timerArmed
            && consentData == (if allowAuction then Some(RecordOf(Undefined)) else None)
            && log == old(log) + FailureEffects(UnexpectedValue(Undefined), allowAuction, false, args)
            && nextCalls == (if allowAuction then 1 else 0)
            && staleTimers == old(staleTimers))
      && (!fails && consentTimeout != 0 ==>
            && !haveExited && timerArmed && consentData == None && log == old(log) && nextCalls == 0
            && staleTimers == old(staleTimers) + (if old(timerArmed) then 1 else 0))
    }

    /** Lines 119-128: run the lookup with `processCmpData` and `cmpFailed`
        as callbacks and, unless it already exited, fail at once for a
        timeout of 0 or arm the timer, overwriting the handle in `timer`. */
    method StartLookup(ancestors: seq<CmpChannel.Frame>, callId: string)
      requires Valid() && configured && |ancestors| > 0
      requires callId !in channel.callbacks
      requires consentData == None && !haveExited && nextCalls == 0
      modifies this, channel
      ensures Valid() && AtMostOnce()
      ensures SettingsUnchanged() && args == old(args)
      ensures LookupStarted(ancestors, callId)
    {
      var outcome := channel.Lookup(ancestors, callId);
      if outcome.Failed? {
        CmpFailed(CmpError(outcome.errMsg));
      }
      if !haveExited {
        if consentTimeout == 0 {
          ProcessCmpData(Undefined);
        } else {
          if timerArmed {
            staleTimers := staleTimers + 1;
          }
          timerArmed := true;
        }
      }
    }

    /** `requestBidsHook(config, fn)`, with the unsupported-framework exit
        going through the exit guard: a pass begins; stored consent continues
        at once, an unsupported framework warns and continues, and otherwise
        the lookup starts. In every case the pass has called `nextFn` at most
        once. */
    method RequestBidsHook(reqArgs: Js, ancestors: seq<CmpChannel.Frame>, callId: string)
      requires Valid() && configured && |ancestors| > 0
      requires callId !in channel.callbacks
      modifies this, channel
      ensures Valid() && AtMostOnce()
      ensures SettingsUnchanged() && args == reqArgs
      ensures old(consentData).Some? ==>
        && consentData == old(consentData) && haveExited && nextCalls == 1
        && log == old(log) + [Continued(reqArgs)]
        && timerArmed == old(timerArmed) && staleTimers == old(staleTimers) && unchanged(channel)
      ensures old(consentData).None? && userCMP !in SupportedCmps ==>
        && consentData == None && haveExited && nextCalls == 1
        && log == old(log) + [UnsupportedCmp(userCMP), Continued(reqArgs)]
        && timerArmed == old(timerArmed) && staleTimers == old(staleTimers) && unchanged(channel)
      ensures old(consentData).None? && userCMP in SupportedCmps ==> LookupStarted(ancestors, callId)
    {
      args := reqArgs;
      haveExited := false;
      nextCalls := 0;
      if consentData.Some? {
        ExitModule(None);
        return;
      }
      if userCMP !in SupportedCmps {
        log := log + [UnsupportedCmp(userCMP)];
        haveExited := true;
        log := log + [Continued(args)];
        nextCalls := nextCalls + 1;
        return;
      }
      StartLookup(ancestors, callId);
    }

    /** `requestBidsHook` exactly as written: the unsupported-framework path
        calls `nextFn` directly and leaves `haveExited` false, so the exit
        guard is still open after the auction has continued. */
    method RequestBidsHookAsWritten(reqArgs: Js, ancestors: seq<CmpChannel.Frame>, callId: string)
      requires Valid() && configured && |ancestors| > 0
      requires callId !in channel.callbacks
      modifies this, channel
      ensures Valid()
      ensures SettingsUnchanged() && args == reqArgs
      ensures old(consentData).Some? ==>
        && consentData == old(consentData) && haveExited && nextCalls == 1
        && log == old(log) + [Continued(reqArgs)]
        && timerArmed == old(timerArmed) && staleTimers == old(staleTimers) && unchanged(channel)
      ensures old(consentData).None? && userCMP !in SupportedCmps ==>
        && consentData == None && !haveExited && nextCalls == 1
        && log == old(log) + [UnsupportedCmp(userCMP), Continued(reqArgs)]
        && timerArmed == old(timerArmed) && staleTimers == old(staleTimers) && unchanged(channel)
      ensures old(consentData).None? && userCMP in SupportedCmps ==> LookupStarted(ancestors, callId)
    {
      args := reqArgs;
      haveExited := false;
      nextCalls := 0;
      if consentData.Some? {
        ExitModule(None);
        return;
      }
      if userCMP !in SupportedCmps {
        log := log + [UnsupportedCmp(userCMP), Continued(args)];
        nextCalls := nextCalls + 1;
        return;
      }
      StartLookup(ancestors, callId);
    }
  }
}
