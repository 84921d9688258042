/** How the PubMatic adapter (src/adapters/pubmatic.js) builds its legacy ad
    call: the request configuration object, slot cleaning, the query string,
    host selection and the accumulation over the bid requests. */
module PubmaticRequest {
  import opened JsValues
  import opened Strings

  /** A plain object as its own properties in enumeration order (insertion
      order, which is the order of `for-in` for the non-numeric keys the
      adapter uses). */
  type Conf = seq<(string, Js)>

  /** `conf[key]` (the first entry with that key). */
  function ConfGet(conf: Conf, key: string): Js
  {
    if conf == [] then Undefined
    else if conf[0].0 == key then conf[0].1
    else ConfGet(conf[1..], key)
  }

  /** `conf[key] = v`: an existing property keeps its place, a new one is
      appended. */
  function ConfSet(conf: Conf, key: string, v: Js): Conf
  {
    if conf == [] then [(key, v)]
    else if conf[0].0 == key then [(key, v)] + conf[1..]
    else [conf[0]] + ConfSet(conf[1..], key, v)
  }

  /** Setting one property leaves every other property as it was. */
  lemma ConfSetOthers(conf: Conf, key: string, v: Js)
    ensures ConfGet(ConfSet(conf, key, v), key) == v
    ensures forall other :: other != key ==> ConfGet(ConfSet(conf, key, v), other) == ConfGet(conf, other)
  {
    forall other | other != key ensures ConfGet(ConfSet(conf, key, v), other) == ConfGet(conf, other) {
      ConfGetSet(conf, key, v, other);
    }
    ConfGetSet(conf, key, v, key);
  }

  /** Reading a property back after setting it gives the new value; other
      properties are untouched. */
  lemma {:induction false} ConfGetSet(conf: Conf, key: string, v: Js, other: string)
    ensures ConfGet(ConfSet(conf, key, v), key) == v
    ensures other != key ==> ConfGet(ConfSet(conf, key, v), other) == ConfGet(conf, other)
  {
    if conf != [] && conf[0].0 != key {
      ConfGetSet(conf[1..], key, v, other);
      assert ConfSet(conf, key, v)[1..] == ConfSet(conf[1..], key, v);
    }
  }

  // ---------------------------------------------------------------- slots

  /** A cleaned slot: the trimmed text of a string entry that is not empty
      after trimming. */
  predicate KeepsSlot(v: Js)
  {
    v.Str? && Trim(v.s) != ""
  }

  /** `_cleanSlots` as a definition: the kept entries, trimmed, in order. */
  function CleanedSlots(slots: seq<Js>): (cleaned: seq<string>)
    ensures slots == [] ==> cleaned == []
    ensures forall k :: 0 <= k < |cleaned| ==> cleaned[k] != ""
  {
    if slots == [] then []
    else
      var last := slots[|slots| - 1];
      CleanedSlots(slots[..|slots| - 1]) + (if KeepsSlot(last) then [Trim(last.s)] else [])
  }

  /** `_cleanSlots(slots)`: the index loop that trims each string entry and
      pushes the non-empty ones. */
  method CleanSlots(slots: seq<Js>) returns (cleaned: seq<string>)
    ensures cleaned == CleanedSlots(slots)
  {
    cleaned := [];
    var i := 0;
    while i < |slots|
      invariant 0 <= i <= |slots|
      invariant cleaned == CleanedSlots(slots[..i])
    {
      var slot := slots[i];
      CleanedSlotsSnoc(slots, i);
      if slot.Str? {
        var trimmed := Trim(slot.s);
        if |trimmed| > 0 {
          cleaned := cleaned + [trimmed];
        }
      }
      i := i + 1;
    }
    assert slots[..i] == slots;
  }

  lemma CleanedSlotsSnoc(slots: seq<Js>, i: nat)
    requires i < |slots|
    ensures CleanedSlots(slots[..i + 1]) ==
      CleanedSlots(slots[..i]) + (if KeepsSlot(slots[i]) then [Trim(slots[i].s)] else [])
  {
    assert slots[..i + 1][..i] == slots[..i];
  }

  /** Cleaning distributes over concatenation, so the input order is kept. */
  lemma {:induction false} CleanedSlotsAppend(a: seq<Js>, b: seq<Js>)
    ensures CleanedSlots(a + b) == CleanedSlots(a) + CleanedSlots(b)
  {
    if b != [] {
      CleanedSlotsAppend(a, b[..|b| - 1]);
      assert (a + b)[..|a + b| - 1] == a + b[..|b| - 1];
    } else {
      assert a + b == a;
    }
  }

  /** Exactly the kept entries come out, trimmed: every one of them is
      present, and nothing else is. Each result is non-empty and has no
      whitespace at either end. */
  lemma {:induction false} CleanedSlotsExact(slots: seq<Js>)
    ensures forall i :: 0 <= i < |slots| && KeepsSlot(slots[i]) ==> Trim(slots[i].s) in CleanedSlots(slots)
    ensures forall t :: t in CleanedSlots(slots) ==>
      exists i :: 0 <= i < |slots| && KeepsSlot(slots[i]) && t == Trim(slots[i].s)
    ensures forall t :: t in CleanedSlots(slots) ==> t != "" && Trim(t) == t
  {
    if slots != [] {
      var init := slots[..|slots| - 1];
      CleanedSlotsExact(init);
      var last := slots[|slots| - 1];
      var tail := if KeepsSlot(last) then [Trim(last.s)] else [];
      var r := CleanedSlots(slots);
      assert r == CleanedSlots(init) + tail;
      forall i | 0 <= i < |slots| && KeepsSlot(slots[i]) ensures Trim(slots[i].s) in r {
        if i < |slots| - 1 {
          assert slots[i] == init[i];
        }
      }
      forall t | t in r ensures exists i :: 0 <= i < |slots| && KeepsSlot(slots[i]) && t == Trim(slots[i].s) {
        if t in CleanedSlots(init) {
          KeptInPrefix(slots, init, t);
        } else {
          assert KeepsSlot(slots[|slots| - 1]) && t == Trim(slots[|slots| - 1].s);
        }
      }
    }
    CleanedSlotsTrimmed(slots);
  }

  /** Each cleaned slot is non-empty and has no whitespace at either end. */
  lemma {:induction false} CleanedSlotsTrimmed(slots: seq<Js>)
    ensures forall t :: t in CleanedSlots(slots) ==> t != "" && Trim(t) == t
  {
    if slots != [] {
      var init := slots[..|slots| - 1];
      CleanedSlotsTrimmed(init);
      var last := slots[|slots| - 1];
      var tail := if KeepsSlot(last) then [Trim(last.s)] else [];
      assert CleanedSlots(slots) == CleanedSlots(init) + tail;
      if KeepsSlot(last) {
        TrimIdempotent(last.s);
      }
    }
  }

  lemma KeptInPrefix(slots: seq<Js>, init: seq<Js>, t: string)
    requires |init| <= |slots| && init == slots[..|init|]
    requires exists i :: 0 <= i < |init| && KeepsSlot(init[i]) && t == Trim(init[i].s)
    ensures exists i :: 0 <= i < |slots| && KeepsSlot(slots[i]) && t == Trim(slots[i].s)
  {
    var j :| 0 <= j < |init| && KeepsSlot(init[j]) && t == Trim(init[j].s);
    assert slots[j] == init[j];
  }

  /** Cleaning a cleaned list changes nothing. */
  lemma {:induction false} CleanedSlotsIdempotent(slots: seq<Js>)
    ensures CleanedSlots(AsStrings(CleanedSlots(slots))) == CleanedSlots(slots)
  {
    if slots != [] {
      var init := slots[..|slots| - 1];
      var last := slots[|slots| - 1];
      CleanedSlotsIdempotent(init);
      var tail := if KeepsSlot(last) then [Trim(last.s)] else [];
      assert CleanedSlots(slots) == CleanedSlots(init) + tail;
      AsStringsAppend(CleanedSlots(init), tail);
      CleanedSlotsAppend(AsStrings(CleanedSlots(init)), AsStrings(tail));
      if KeepsSlot(last) {
        TrimIdempotent(last.s);
        assert AsStrings(tail) == [Str(Trim(last.s))];
        assert CleanedSlots(AsStrings(tail)) == CleanedSlots([]) + [Trim(last.s)];
      }
    }
  }

  function AsStrings(ss: seq<string>): (r: seq<Js>)
    ensures |r| == |ss| && forall i :: 0 <= i < |ss| ==> r[i] == Str(ss[i])
  {
    seq(|ss|, i requires 0 <= i < |ss| => Str(ss[i]))
  }

  lemma AsStringsAppend(a: seq<string>, b: seq<string>)
    ensures AsStrings(a + b) == AsStrings(a) + AsStrings(b)
  {
  }

  // ---------------------------------------------------------------- query

  /** The values `_toUrlParams` keeps: not `null` or `undefined` (loose
      `!= undefined`) and not `''`. */
  predicate KeepsParam(v: Js)
  {
    !v.Undefined? && !v.Null? && v != Str("")
  }

  function Param(key: string, v: Js, enc: Js -> string): string
  {
    key + "=" + enc(v)
  }

  /** `_toUrlParams` as a definition: `key=enc(value)` for each kept
      property, in enumeration order. */
  function UrlParams(conf: Conf, enc: Js -> string): (params: seq<string>)
    ensures |params| <= |conf|
  {
    if conf == [] then []
    else
      var last := conf[|conf| - 1];
      UrlParams(conf[..|conf| - 1], enc) + (if KeepsParam(last.1) then [Param(last.0, last.1, enc)] else [])
  }

  /** `_toUrlParams(obj)`: the `for-in` loop pushing `key=enc(value)`, joined
      with '&'. `enc` stands for `_encodeIfRequired`. */
  method ToUrlParams(obj: Conf, enc: Js -> string) returns (query: string)
    ensures query == Join(UrlParams(obj, enc), "&")
  {
    var values: seq<string> := [];
    var i := 0;
    while i < |obj|
      invariant 0 <= i <= |obj|
      invariant values == UrlParams(obj[..i], enc)
    {
      var (key, value) := obj[i];
      if KeepsParam(value) {
        values := values + [key + "=" + enc(value)];
      }
      assert obj[..i + 1][..i] == obj[..i];
      i := i + 1;
    }
    assert obj[..i] == obj;
    query := Join(values, "&");
  }

  /** Every kept property yields its parameter, and every parameter comes
      from a kept property. */
  lemma {:induction false} UrlParamsExact(conf: Conf, enc: Js -> string)
    ensures forall i :: 0 <= i < |conf| && KeepsParam(conf[i].1) ==> Param(conf[i].0, conf[i].1, enc) in UrlParams(conf, enc)
    ensures forall p :: p in UrlParams(conf, enc) ==>
      exists i :: 0 <= i < |conf| && KeepsParam(conf[i].1) && p == Param(conf[i].0, conf[i].1, enc)
  {
    if conf != [] {
      var init := conf[..|conf| - 1];
      UrlParamsExact(init, enc);
      forall i | 0 <= i < |conf| - 1 ensures conf[i] == init[i] {}
    }
  }

  /** Parameters keep the order of the properties. */
  lemma {:induction false} UrlParamsAppend(a: Conf, b: Conf, enc: Js -> string)
    ensures UrlParams(a + b, enc) == UrlParams(a, enc) + UrlParams(b, enc)
  {
    if b != [] {
      UrlParamsAppend(a, b[..|b| - 1], enc);
      assert (a + b)[..|a + b| - 1] == a + b[..|b| - 1];
    } else {
      assert a + b == a;
    }
  }

  // ---------------------------------------------------------------- legacy call

  const AggregatorHost: string := "gads.pubmatic.com/AdServer/AdCallAggregator"
  const CallbackName: string := "window.parent.$$PREBID_GLOBAL$$.handlePubmaticCallback"

  /** The keys of `lessOneHopPubList`. */
  const LessOneHopPubs: set<string> := {"46076", "60530", "9999", "7777"}

  /** `_protocol`: https on a secure page, http otherwise. */
  function Protocol(secure: bool): string
  {
    if secure then "https://" else "http://"
  }

  /** `v == true` for the values a configuration holds: `true`, the number 1,
      or a string that reads as 1. */
  predicate LooselyTrue(v: Js): (loose: bool)
    ensures loose ==> Truthy(v)
    ensures v.Bool? || v.Null? || v.Undefined? ==> (loose <==> v == Bool(true))
  {
    v == Bool(true) || v == Num(1) || (v.Str? && Trim(v.s) == "1")
  }

  /** The one-hop host carries the publisher id in its path. */
  function OneHopHost(pubId: Js): (host: string)
    ensures host != AggregatorHost
  {
    assert ("haso.pubmatic.com/ads/" + JsToString(pubId) + "/GRPBID/index.html")[0] == 'h';
    assert AggregatorHost[0] == 'g';
    "haso.pubmatic.com/ads/" + JsToString(pubId) + "/GRPBID/index.html"
  }

  /** Host selection of `_generateLegacyCall`: the one-hop host whenever
      `pm_dm_enabled == true` or the publisher is listed, and otherwise the
      aggregator. */
  function Host(pubId: Js, dmEnabled: Js): (host: string)
    ensures host == OneHopHost(pubId) || host == AggregatorHost
    ensures LooselyTrue(dmEnabled) ==> host == OneHopHost(pubId)
    ensures JsToString(pubId) in LessOneHopPubs ==> host == OneHopHost(pubId)
  {
    if !LooselyTrue(dmEnabled) && JsToString(pubId) !in LessOneHopPubs then AggregatorHost
    else OneHopHost(pubId)
  }

  /** The one-hop host is used exactly when `pm_dm_enabled == true` or the
      publisher (as a property key) is on the list; the aggregator otherwise. */
  lemma HostChoice(pubId: Js, dmEnabled: Js)
    ensures Host(pubId, dmEnabled) == OneHopHost(pubId) <==> LooselyTrue(dmEnabled) || JsToString(pubId) in LessOneHopPubs
    ensures Host(pubId, dmEnabled) == AggregatorHost <==> !LooselyTrue(dmEnabled) && JsToString(pubId) !in LessOneHopPubs
  {
    assert OneHopHost(pubId)[0] == 'h';
    assert AggregatorHost[0] == 'g';
  }

  /** The number 46076 is on the list, as is the string "46076". */
  lemma ListedPublisherGoesOneHop(dmEnabled: Js)
    ensures Host(Num(46076), dmEnabled) == OneHopHost(Num(46076))
    ensures Host(Str("46076"), dmEnabled) == OneHopHost(Str("46076"))
  {
    NumeralOf46076();
  }

  lemma NumeralOf46076()
    ensures JsToString(Num(46076)) == "46076"
  {
    assert NatToString(4) == "4";
    assert NatToString(46) == "46";
    assert NatToString(460) == "460";
    assert NatToString(4607) == "4607";
  }

  /** The configuration with the callback name that `_generateLegacyCall`
      adds before serialising it. */
  function WithCallback(conf: Conf): (c: Conf)
    ensures ConfGet(c, "pm_cb") == Str(CallbackName)
    ensures forall key :: key != "pm_cb" ==> ConfGet(c, key) == ConfGet(conf, key)
  {
    ConfSetOthers(conf, "pm_cb", Str(CallbackName));
    ConfSet(conf, "pm_cb", Str(CallbackName))
  }

  /** `_generateLegacyCall(conf, slots)`: protocol, host, '?', the query of
      the configuration (callback included), then `&adslots=` with the encoded
      `[slot,slot,...]`. `encUri` stands for `encodeURIComponent`. */
  function LegacyCall(conf: Conf, slots: seq<string>, secure: bool, enc: Js -> string, encUri: string -> string): (url: string)
    ensures var head := Protocol(secure) + Host(ConfGet(conf, "pubId"), ConfGet(conf, "pm_dm_enabled")) + "?";
      |head| <= |url| && url[..|head|] == head
    ensures var tail := "&adslots=" + encUri("[" + Join(slots, ",") + "]");
      |tail| <= |url| && url[|url| - |tail|..] == tail
    ensures var head := Protocol(secure) + Host(ConfGet(conf, "pubId"), ConfGet(conf, "pm_dm_enabled")) + "?";
      var tail := "&adslots=" + encUri("[" + Join(slots, ",") + "]");
      |head| + |tail| <= |url| && url[|head|..|url| - |tail|] == Join(UrlParams(WithCallback(conf), enc), "&")
    ensures Param("pm_cb", Str(CallbackName), enc) in UrlParams(WithCallback(conf), enc)
  {
    var c := WithCallback(conf);
    ConfGetSet(conf, "pm_cb", Str(CallbackName), "pubId");
    ConfGetSet(conf, "pm_cb", Str(CallbackName), "pm_dm_enabled");
    CallbackParamPresent(conf, enc);
    var head := Protocol(secure) + Host(ConfGet(c, "pubId"), ConfGet(c, "pm_dm_enabled")) + "?";
    var tail := "&adslots=" + encUri("[" + Join(slots, ",") + "]");
    var query := Join(UrlParams(c, enc), "&");
    Framed(head, query, tail);
    head + query + tail
  }

  /** A concatenation starts with its first part, ends with its last, and
      holds its middle part in between. */
  lemma Framed(head: string, mid: string, tail: string)
    ensures |head| <= |head + mid + tail| && (head + mid + tail)[..|head|] == head
    ensures |tail| <= |head + mid + tail| && (head + mid + tail)[|head + mid + tail| - |tail|..] == tail
    ensures |head| + |tail| <= |head + mid + tail| && (head + mid + tail)[|head|..|head + mid + tail| - |tail|] == mid
  {
  }

  /** The callback parameter always reaches the query. */
  lemma {:induction false} CallbackParamPresent(conf: Conf, enc: Js -> string)
    ensures Param("pm_cb", Str(CallbackName), enc) in UrlParams(WithCallback(conf), enc)
  {
    var c := WithCallback(conf);
    ConfSetHasEntry(conf, "pm_cb", Str(CallbackName));
    UrlParamsExact(c, enc);
  }

  /** After `conf[key] = v` some entry is `(key, v)`. */
  lemma {:induction false} ConfSetHasEntry(conf: Conf, key: string, v: Js)
    ensures exists i :: 0 <= i < |ConfSet(conf, key, v)| && ConfSet(conf, key, v)[i] == (key, v)
  {
    if conf == [] {
      assert ConfSet(conf, key, v)[0] == (key, v);
    } else if conf[0].0 == key {
      assert ConfSet(conf, key, v)[0] == (key, v);
    } else {
      ConfSetHasEntry(conf[1..], key, v);
      var i :| 0 <= i < |ConfSet(conf[1..], key, v)| && ConfSet(conf[1..], key, v)[i] == (key, v);
      assert ConfSet(conf, key, v)[i + 1] == (key, v);
    }
  }

  // ---------------------------------------------------------------- bids

  datatype BidParams = BidParams(publisherId: Js, adSlot: Js)

  /** One entry of `params.bids`. */
  datatype BidRequest = BidRequest(placementCode: Js, params: BidParams)

  /** JavaScript `a || b`. */
  function Or(a: Js, b: Js): Js
  {
    if Truthy(a) then a else b
  }

  /** `conf.pubId` after `conf.pubId = 0` and the loop of
      `conf.pubId = conf.pubId || bid.params.publisherId`. */
  function PubIdAfter(bids: seq<BidRequest>): (pubId: Js)
    ensures pubId == Num(0) || exists i :: 0 <= i < |bids| && pubId == bids[i].params.publisherId
  {
    if bids == [] then Num(0)
    else Or(PubIdAfter(bids[..|bids| - 1]), bids[|bids| - 1].params.publisherId)
  }

  /** The publisher id is the first truthy `publisherId` in bid order; when
      there is none it is falsy: the last bid's `publisherId`, or 0 when there
      are no bids. */
  lemma {:induction false} PubIdIsFirstTruthy(bids: seq<BidRequest>)
    ensures forall i ::
      (0 <= i < |bids| && Truthy(bids[i].params.publisherId) &&
       forall j :: 0 <= j < i ==> !Truthy(bids[j].params.publisherId))
      ==> PubIdAfter(bids) == bids[i].params.publisherId
    ensures (forall i :: 0 <= i < |bids| ==> !Truthy(bids[i].params.publisherId)) ==>
      PubIdAfter(bids) == (if bids == [] then Num(0) else bids[|bids| - 1].params.publisherId)
    ensures Truthy(PubIdAfter(bids)) <==> exists i :: 0 <= i < |bids| && Truthy(bids[i].params.publisherId)
  {
    if bids != [] {
      var init := bids[..|bids| - 1];
      PubIdIsFirstTruthy(init);
      forall i | 0 <= i < |bids| - 1 ensures bids[i] == init[i] {}
    }
  }

  /** `_handleCustomParams`: `kadpageurl` defaults to `pageURL`, and every
      other property stays as it was. */
  function HandleCustomParams(conf: Conf): (r: Conf)
    ensures ConfGet(r, "kadpageurl") == Or(ConfGet(conf, "kadpageurl"), ConfGet(conf, "pageURL"))
    ensures forall key :: key != "kadpageurl" ==> ConfGet(r, key) == ConfGet(conf, key)
  {
    if !Truthy(ConfGet(conf, "kadpageurl")) then
      var page := ConfGet(conf, "pageURL");
      ConfSetOthers(conf, "kadpageurl", page);
      ConfSet(conf, "kadpageurl", page)
    else conf
  }

  /** One round of the `_callBids` loop on `conf`. */
  function BidStep(conf: Conf, bid: BidRequest): Conf
  {
    HandleCustomParams(ConfSet(conf, "pubId", Or(ConfGet(conf, "pubId"), bid.params.publisherId)))
  }

  /** The configuration after the whole loop, from `conf.pubId = 0` on. */
  function ConfAfter(initConf: Conf, bids: seq<BidRequest>): (conf: Conf)
    ensures forall key :: key != "pubId" && key != "kadpageurl" ==> ConfGet(conf, key) == ConfGet(initConf, key)
  {
    if bids == [] then
      ConfSetOthers(initConf, "pubId", Num(0));
      ConfSet(initConf, "pubId", Num(0))
    else
      var before := ConfAfter(initConf, bids[..|bids| - 1]);
      var bid := bids[|bids| - 1];
      ConfSetOthers(before, "pubId", Or(ConfGet(before, "pubId"), bid.params.publisherId));
      BidStep(before, bid)
  }

  /** The ad slots in bid order. */
  function AdSlots(bids: seq<BidRequest>): (slots: seq<Js>)
    ensures |slots| == |bids| && forall i :: 0 <= i < |bids| ==> slots[i] == bids[i].params.adSlot
  {
    seq(|bids|, i requires 0 <= i < |bids| => bids[i].params.adSlot)
  }

  /** The `pubId` of the final configuration is the accumulated one. */
  lemma {:induction false} ConfAfterPubId(initConf: Conf, bids: seq<BidRequest>)
    ensures ConfGet(ConfAfter(initConf, bids), "pubId") == PubIdAfter(bids)
  {
    if bids == [] {
      ConfGetSet(initConf, "pubId", Num(0), "pubId");
    } else {
      var c := ConfAfter(initConf, bids[..|bids| - 1]);
      ConfAfterPubId(initConf, bids[..|bids| - 1]);
      var v := Or(ConfGet(c, "pubId"), bids[|bids| - 1].params.publisherId);
      var c1 := ConfSet(c, "pubId", v);
      ConfGetSet(c, "pubId", v, "pubId");
      ConfGetSet(c1, "kadpageurl", ConfGet(c1, "pageURL"), "pubId");
    }
  }

  /** The loop of `_callBids`: `conf.pubId = 0`, then for each bid fold its
      `publisherId` into `conf.pubId`, apply the custom parameters and push its
      `adSlot`. */
  method CollectBids(bids: seq<BidRequest>, initConf: Conf) returns (conf: Conf, slots: seq<Js>)
    ensures conf == ConfAfter(initConf, bids)
    ensures slots == AdSlots(bids)
    ensures ConfGet(conf, "pubId") == PubIdAfter(bids)
  {
    conf := ConfSet(initConf, "pubId", Num(0));
    slots := [];
    var i := 0;
    while i < |bids|
      invariant 0 <= i <= |bids|
      invariant conf == ConfAfter(initConf, bids[..i])
      invariant slots == AdSlots(bids[..i])
    {
      var bid := bids[i];
      conf := ConfSet(conf, "pubId", Or(ConfGet(conf, "pubId"), bid.params.publisherId));
      conf := HandleCustomParams(conf);
      slots := slots + [bid.params.adSlot];
      assert bids[..i + 1][..i] == bids[..i];
      i := i + 1;
    }
    assert bids[..i] == bids;
    ConfAfterPubId(initConf, bids);
  }
}
