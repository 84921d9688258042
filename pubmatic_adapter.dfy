/** The PubMatic adapter object of src/adapters/pubmatic.js: the closure
    state (`bids`, `usersync`, the page's protocol) shared by `callBids`,
    `_initUserSync` and `handlePubmaticCallback`, and what those send out:
    legacy ad calls, the user-sync pixel and the bid responses. */
module Pubmatic {
  import opened JsValues
  import opened Strings
  import opened PubmaticRequest
  import opened PubmaticResponse

  const SyncPath: string := "ads.pubmatic.com/AdServer/js/showad.js#PIX&kdntuid=1&p="

  /** The `src` of the user-sync iframe: it ends with the publisher id. */
  function SyncPixelUrl(secure: bool, pubId: Js): (url: string)
    ensures |JsToString(pubId)| <= |url| && url[|url| - |JsToString(pubId)|..] == JsToString(pubId)
  {
    Protocol(secure) + SyncPath + JsToString(pubId)
  }

  /** Two publishers whose ids read differently get different pixels. */
  lemma {:induction false} SyncPixelUrlDistinct(secure: bool, a: Js, b: Js)
    requires JsToString(a) != JsToString(b)
    ensures SyncPixelUrl(secure, a) != SyncPixelUrl(secure, b)
  {
    var prefix := Protocol(secure) + SyncPath;
    assert SyncPixelUrl(secure, a)[|prefix|..] == JsToString(a);
    assert SyncPixelUrl(secure, b)[|prefix|..] == JsToString(b);
  }

  /** What `_cleanSlots` sees when it is passed itself: a function of one
      parameter has `length` 1, and its property "0" is `undefined`. */
  const CleanSlotsFunctionAsSlots: seq<Js> := [Undefined]

  /** The cleaned slots of a pass of `_callBids`. */
  function PassSlots(bidList: seq<BidRequest>): seq<string>
  {
    CleanedSlots(AdSlots(bidList))
  }

  /** The part of a corrected pass of `_callBids` that touches no adapter
      state: the loop over the bids, the cleaning of the collected slots and
      the ad call that is due. */
  method PlanPass(bidList: seq<BidRequest>, initConf: Conf, secure: bool, enc: Js -> string, encUri: string -> string)
    returns (pubId: Js, issued: seq<string>)
    ensures pubId == PubIdAfter(bidList)
    ensures issued == LegacyRequests(bidList, initConf, secure, enc, encUri)
  {
    var conf, slots := CollectBids(bidList, initConf);
    var cleaned := CleanSlots(slots);
    issued := if Truthy(ConfGet(conf, "pubId")) && |cleaned| > 0 then [LegacyCall(conf, cleaned, secure, enc, encUri)] else [];
    pubId := ConfGet(conf, "pubId");
  }

  /** The legacy ad calls a pass of `_callBids` issues: one, when the
      accumulated publisher id is truthy and some slot survives cleaning. */
  function LegacyRequests(bidList: seq<BidRequest>, initConf: Conf, secure: bool, enc: Js -> string, encUri: string -> string): (reqs: seq<string>)
    ensures |reqs| <= 1
    ensures |reqs| == 1 <==> Truthy(PubIdAfter(bidList)) && |PassSlots(bidList)| > 0
  {
    ConfAfterPubId(initConf, bidList);
    var conf := ConfAfter(initConf, bidList);
    var slots := PassSlots(bidList);
    if Truthy(ConfGet(conf, "pubId")) && |slots| > 0 then [LegacyCall(conf, slots, secure, enc, encUri)] else []
  }

  /** A pass issues its ad call exactly when some bid names a truthy
      publisher and some bid names a slot that is a non-blank string. */
  lemma LegacyRequestCondition(bidList: seq<BidRequest>, initConf: Conf, secure: bool, enc: Js -> string, encUri: string -> string)
    ensures |LegacyRequests(bidList, initConf, secure, enc, encUri)| == 1 <==>
      && (exists i :: 0 <= i < |bidList| && Truthy(bidList[i].params.publisherId))
      && (exists i :: 0 <= i < |bidList| && KeepsSlot(bidList[i].params.adSlot))
    ensures |LegacyRequests(bidList, initConf, secure, enc, encUri)| <= 1
  {
    PubIdIsFirstTruthy(bidList);
    var slots := AdSlots(bidList);
    CleanedSlotsExact(slots);
    if exists i :: 0 <= i < |bidList| && KeepsSlot(bidList[i].params.adSlot) {
      var i :| 0 <= i < |bidList| && KeepsSlot(bidList[i].params.adSlot);
      assert slots[i] == bidList[i].params.adSlot;
      assert Trim(slots[i].s) in PassSlots(bidList);
    }
    if |PassSlots(bidList)| > 0 {
      assert PassSlots(bidList)[0] in PassSlots(bidList);
    }
  }

  /** The `(placementCode, adSlot)` pairs that the callback iterates over. */
  function Targets(bidList: seq<BidRequest>): (t: seq<(Js, Js)>)
    ensures |t| == |bidList|
  {
    seq(|bidList|, i requires 0 <= i < |bidList| => (bidList[i].placementCode, bidList[i].params.adSlot))
  }

  /** The handler's answer for the i-th remembered bid. */
  lemma AnswerOfBid(bidList: seq<BidRequest>, infoMap: map<string, string>, i: nat)
    requires i < |bidList|
    ensures Answers(Targets(bidList), infoMap)[i] ==
      Classify(bidList[i].placementCode, bidList[i].params.adSlot, ParseSlotInfo(InfoText(infoMap, JsToString(bidList[i].params.adSlot))))
  {
    AnswersAt(Targets(bidList), infoMap, i);
  }

  /** The loop of `handlePubmaticCallback` over the remembered bids: for each,
      normalise its slot's info string in place, parse it and report a bid or
      a no-bid, stopping where the handler throws. */
  method ReportBids(bidList: seq<BidRequest>, progKeyValueMap: map<string, string>)
    returns (added: seq<BidResponse>, threw: bool)
    ensures (added, threw) == Responses(Targets(bidList), progKeyValueMap)
  {
    ghost var answers := Answers(Targets(bidList), progKeyValueMap);
    var infoMap := progKeyValueMap;
    added := [];
    threw := false;
    var i := 0;
    assert answers[0..] == answers;
    assert added + Collect(answers).0 == Collect(answers).0;
    while i < |bidList|
      invariant 0 <= i <= |bidList|
      invariant NormalFormsAgree(infoMap, progKeyValueMap)
      invariant Collect(answers) == (added + Collect(answers[i..]).0, Collect(answers[i..]).1)
    {
      var bid := bidList[i];
      var key := JsToString(bid.params.adSlot);
      var info;
      infoMap, info := NormaliseAndParse(infoMap, progKeyValueMap, key);
      var r := Classify(bid.placementCode, bid.params.adSlot, info);
      AnswerOfBid(bidList, progKeyValueMap, i);
      if r.None? {
        CollectStop(answers, i, added);
        threw := true;
        assert (added, threw) == Collect(answers);
        return;
      }
      CollectAdvance(answers, i, added);
      added := added + [r.value];
      i := i + 1;
    }
    assert answers[i..] == [];
    assert Collect(answers[i..]) == ([], false);
    assert added + [] == added;
  }

  class Adapter {
    const secure: bool
    var usersync: bool
    /** `bids`, `undefined` until the first `callBids`. */
    var bids: Option<seq<BidRequest>>
    /** The legacy ad calls issued, in order: the URL of each script tag
        written into the request iframe. */
    var requests: seq<string>
    /** The user-sync iframes appended to the page. */
    var syncPixels: seq<string>
    /** The `bidmanager.addBidResponse` calls made, in order. */
    var responses: seq<BidResponse>

    /** The sync pixel is dropped once, and only once `usersync` is set. */
    ghost predicate Valid()
      reads this
    {
      |syncPixels| == (if usersync then 1 else 0)
    }

    /** `PubmaticAdapter()` on a page whose protocol is https (`secure`) or not. */
    constructor (secure: bool)
      ensures Valid()
      ensures this.secure == secure && !usersync && bids == None
      ensures requests == [] && syncPixels == [] && responses == []
    {
      this.secure := secure;
      usersync := false;
      bids := None;
      requests := [];
      syncPixels := [];
      responses := [];
    }

    /** `_initUserSync(pubId)`: the first call drops the sync pixel for
        `pubId`; later calls do nothing. */
    method InitUserSync(pubId: Js)
      requires Valid()
      modifies this
      ensures Valid() && usersync
      ensures syncPixels == if old(usersync) then old(syncPixels) else old(syncPixels) + [SyncPixelUrl(secure, pubId)]
      ensures bids == old(bids) && requests == old(requests) && responses == old(responses)
    {
      if !usersync {
        syncPixels := syncPixels + [Protocol(secure) + SyncPath + JsToString(pubId)];
        usersync := true;
      }
    }

    /** `_callBids(params)` with both corrections it needs to issue its ad
        call: line 174 cleans the collected `slots`, and `_createRequestContent`
        takes the URL it writes as its parameter (line 183), instead of
        reading `url`, which is a local of `_legacyExecution` (line 95).
        Remember the bids, issue the ad call when there is a publisher and a
        slot, then initialise the user sync with the publisher id. */
    method CallBids(bidList: seq<BidRequest>, initConf: Conf, enc: Js -> string, encUri: string -> string)
      requires Valid()
      modifies this
      ensures Valid() && usersync
      ensures bids == Some(bidList)
      ensures requests == old(requests) + LegacyRequests(bidList, initConf, secure, enc, encUri)
      ensures syncPixels == if old(usersync) then old(syncPixels) else old(syncPixels) + [SyncPixelUrl(secure, PubIdAfter(bidList))]
      ensures responses == old(responses)
    {
      var pubId, issued := PlanPass(bidList, initConf, secure, enc, encUri);
      bids := Some(bidList);
      requests := requests + issued;
      InitUserSync(pubId);
    }

    /** `_callBids(params)` with line 174 corrected alone. When the ad call is
        due, `_legacyExecution` computes its URL, but the
        `_createRequestContent(url)` that it calls reads `url` (line 188),
        which is not in that function's scope, and throws a ReferenceError.
        No script tag is written, and the exception leaves `_callBids` before
        `_initUserSync`. Otherwise the pass syncs as usual. */
    method CallBidsSlotsFixedOnly(bidList: seq<BidRequest>, initConf: Conf, enc: Js -> string, encUri: string -> string)
      returns (threw: bool)
      requires Valid()
      modifies this
      ensures Valid()
      ensures bids == Some(bidList)
      ensures threw <==> |LegacyRequests(bidList, initConf, secure, enc, encUri)| == 1
      ensures requests == old(requests)
      ensures usersync == (old(usersync) || !threw)
      ensures syncPixels == if old(usersync) || threw then old(syncPixels) else old(syncPixels) + [SyncPixelUrl(secure, PubIdAfter(bidList))]
      ensures responses == old(responses)
    {
      var conf, slots := CollectBids(bidList, initConf);
      bids := Some(bidList);
      var cleaned := CleanSlots(slots);
      if Truthy(ConfGet(conf, "pubId")) && |cleaned| > 0 {
        return true;
      }
      threw := false;
      InitUserSync(ConfGet(conf, "pubId"));
    }

    /** `_callBids(params)` as written: `_cleanSlots(_cleanSlots)` cleans the
        function itself instead of the collected slots, so no ad call is ever
        issued. */
    method CallBidsAsWritten(bidList: seq<BidRequest>, initConf: Conf, enc: Js -> string, encUri: string -> string)
      requires Valid()
      modifies this
      ensures Valid() && usersync
      ensures bids == Some(bidList)
      ensures requests == old(requests)
      ensures syncPixels == if old(usersync) then old(syncPixels) else old(syncPixels) + [SyncPixelUrl(secure, PubIdAfter(bidList))]
      ensures responses == old(responses)
    {
      var conf, slots := CollectBids(bidList, initConf);
      bids := Some(bidList);
      var cleaned := CleanSlots(CleanSlotsFunctionAsSlots);
      var issued := if Truthy(ConfGet(conf, "pubId")) && |cleaned| > 0 then [LegacyCall(conf, cleaned, secure, enc, encUri)] else [];
      requests := requests + issued;
      InitUserSync(ConfGet(conf, "pubId"));
    }

    /** `handlePubmaticCallback()` with the iframe's `progKeyValueMap` (an
        unreadable or missing map is the empty map): the responses for the
        remembered bids are reported in order, up to where the handler throws.
        Before any `callBids`, `bids.length` throws at once. */
    method HandleCallback(progKeyValueMap: map<string, string>) returns (threw: bool)
      modifies this`responses
      ensures bids == old(bids) && usersync == old(usersync)
      ensures requests == old(requests) && syncPixels == old(syncPixels)
      ensures bids.None? ==> threw && responses == old(responses)
      ensures bids.Some? ==>
        var (added, thrown) := Responses(Targets(bids.value), progKeyValueMap);
        responses == old(responses) + added && threw == thrown
    {
      if bids.None? {
        return true;
      }
      var added;
      added, threw := ReportBids(bids.value, progKeyValueMap);
      responses := responses + added;
    }
  }
}
