# Prebid.js consent gate and PubMatic adapter, modelled in Dafny

This project models two parts of Prebid.js.

1. **The GDPR consent module** (`modules/consentManagement.js`). It is a hook in front of
   `requestBids`. It asks a Consent Management Platform (CMP) for the user's
   consent, either through the CMP's own `window.__cmp` or through the
   cross-frame `postMessage` shim of version 1.1 of the IAB CMP JS API. The
   lookup races a timeout. The hook then lets the auction continue (`nextFn`)
   at most once per pass, following the `allowAuctionWithoutConsent` policy
   when the lookup fails.
2. **The PubMatic bid adapter** (`src/adapters/pubmatic.js`). It collects the
   bid requests into one legacy ad call, which it builds from a configuration
   object, the cleaned slot names and a query string. It drops a user-sync
   pixel once. Its `handlePubmaticCallback` parses the per-slot info strings in
   the plain form (`bidstatus=1;bid=5.0;bidid=id@WxH;wdeal=`) and in the DFP
   form (';' in place of '='). It reports a bid or a no-bid for each request,
   in order.

The files are:

- `js_values.dfy` (`JsValues`): JavaScript values, truthiness, property
  lookup, `String(n)`.
- `strings.dfy` (`Strings`): the `\s` class, trimming by regular expression,
  `split` on one character, and `join`.
- `cmp_channel.dfy` (`CmpChannel`): the frame walk and the `__cmp` shim, as
  class `Channel`, with its callback table, outbox and `message` listener.
- `consent_gate.dfy` (`ConsentManagement`): the module state, as class
  `Gate`. Each exported or internal function of the module is a method of it,
  specified by effect functions whose properties are proved as lemmas.
- `consent_scenarios.dfy` (`ConsentScenarios`): whole passes, driven event by
  event.
- `pubmatic_request.dfy` (`PubmaticRequest`): the configuration object, slot
  cleaning, `_toUrlParams`, host selection, `_generateLegacyCall`, and the
  loop of `_callBids`.
- `pubmatic_response.dfy` (`PubmaticResponse`): the DFP rewrite, slot-info
  parsing, classification into bid and no-bid, and the callback's loop.
- `pubmatic_adapter.dfy` (`Pubmatic`): the adapter's closure state, as class
  `Adapter`, with `callBids`, `_initUserSync` and `handlePubmaticCallback`.

Each imperative operation of the source is a method. Its contract ties the
result, or the new state, to a specification function. The properties the
code promises are then lemmas about those functions.

The gate keeps one timer handle (`timer`, line 26). A pass that starts waiting while
another is still waiting overwrites that handle (line 126), so the earlier
timer can no longer be cleared. The model counts such timers in
`staleTimers`. When one of them fires, it acts like any timeout
(lines 159-166). With `allowAuctionWithoutConsent` it stores the empty record
over whatever consent is stored, even a valid one that a later reply stored
(`ConsentScenarios.StaleTimerOverwritesConsent`).

## Model

| member | source | states |
|---|---|---|
| CmpChannel.FirstVisible | modules/consentManagement.js:48-57 | The walk's result as a definition: a found index is a frame that sees `__cmpLocator`. With none found, no frame sees it. `FirstVisibleFrom` adds that no earlier frame does. |
| CmpChannel.FindCmpFrame | modules/consentManagement.js:48-57 | The walk from the current frame up to `window.top` returns the first frame that sees `__cmpLocator`, or none. A frame whose access throws does not count. |
| CmpChannel.FirstVisibleFrom | modules/consentManagement.js:51-57 | A found frame sees the locator and no frame before it does; when none is found, no frame from the start on sees it. |
| CmpChannel.FirstVisibleUnique | modules/consentManagement.js:51-57 | Those two properties of the walk determine its result uniquely. |
| CmpChannel.FailsAtOnce | modules/consentManagement.js:44-68 | The 'CMP not found' condition. It never holds with a native `__cmp`. On a window without `__cmp` it holds exactly when no frame up to the top sees the locator. |
| CmpChannel.PostedIds | modules/consentManagement.js:75-76 | The call ids of the posted envelopes. Every `__cmpCall` sent so far has its id in the set. |
| CmpChannel.PostedIdsGrow | modules/consentManagement.js:75-76 | Posting more envelopes never loses a posted call id, so the callback table stays within the posted ids. |
| CmpChannel.SurfaceAfter | modules/consentManagement.js:44-77 | After a lookup `window.__cmp` is never absent. A native `__cmp` or an installed shim stays as it was. Only the first lookup on a window without a CMP installs the shim, bound to the frame the walk found. |
| CmpChannel.LookupSends | modules/consentManagement.js:44-92 | A lookup sends exactly one call, the direct `getVendorConsents` or the envelope to the CMP frame, unless it fails at once with 'CMP not found'. In that case it sends nothing. |
| CmpChannel.Channel.constructor | modules/consentManagement.js:44 | A window starts with the CMP's own `__cmp` or with none, with no listener, no pending callbacks and nothing sent. |
| CmpChannel.Channel.ShimCall | modules/consentManagement.js:63-77 | Without a CMP frame, the shim reports 'CMP not found' and stores and sends nothing. Otherwise it files the callback under the call id and posts `{__cmpCall: {command, parameter, callId}}` to the CMP frame with origin `*`. |
| CmpChannel.Channel.Lookup | modules/consentManagement.js:41-93 | A native `__cmp` is called directly. Otherwise the first lookup installs the shim, bound to the frame the walk finds, and the listener. The lookup fails at once exactly when the shim has no frame. The new `__cmp` is `SurfaceAfter` of the old one, and what is sent is `LookupSends`. |
| CmpChannel.Channel.Receive | modules/consentManagement.js:80-88 | Once the listener exists, a `__cmpReturn` delivers `(returnValue, success)` to the stored callback and removes it. Any other message, or a message before the listener exists, changes nothing. |
| ConsentManagement.DefaultNotes | modules/consentManagement.js:225-248 | `setConfig` logs at most three info lines, one for each setting of the wrong type, and a line for a setting exactly when that setting is defaulted. |
| ConsentManagement.ExitEffects | modules/consentManagement.js:197-212 | An exit that acts calls `nextFn` exactly once when it is the good exit or the auction is allowed without consent, and never otherwise. |
| ConsentManagement.FailureEffects | modules/consentManagement.js:159-167 | `cmpFailed` continues the pass exactly once when the pass is still open and `allowAuction` holds. The empty record comes first in the log exactly when `allowAuction` holds. |
| ConsentManagement.ProcessEffects | modules/consentManagement.js:137-146 | `processCmpData` continues an open pass exactly once when the payload is valid or the auction is allowed without consent, and an exited pass never. |
| ConsentManagement.ConsentAfterProcess | modules/consentManagement.js:137-178 | After `processCmpData(v)`, a valid payload is stored with its `metadata`, itself and its `gdprApplies`. Otherwise the empty record is stored when `allowAuction` holds, and the stored consent is kept when it does not. |
| ConsentManagement.IsValidPayload | modules/consentManagement.js:138 | The check of `processCmpData`. A payload that passes is an object, so it is truthy, and it has a `metadata` property. |
| ConsentManagement.RecordOf | modules/consentManagement.js:173-178 | The stored record keeps the value itself as vendor data. Only an object yields a consent string or `gdprApplies`. |
| ConsentManagement.ValidPayloadRecord | modules/consentManagement.js:173-178 | A valid payload is stored with its non-empty `metadata` as the consent string, itself as vendor data, and its `gdprApplies`. |
| ConsentManagement.FailureRecordIsEmpty | modules/consentManagement.js:173-178 | `storeConsentData(undefined)` stores a record whose three fields are undefined. |
| ConsentManagement.ContinuationsAppend | modules/consentManagement.js:197-212 | `nextFn` calls add up over consecutive stretches of the log. |
| ConsentManagement.ProcessPolicy | modules/consentManagement.js:137-212 | For one CMP answer: after the pass has exited, nothing continues it. Otherwise it continues exactly once when the payload is valid or the auction is allowed without consent. It is canceled (with the unexpected value) exactly when neither holds. A failure stores the empty record exactly when the auction is allowed without consent. |
| ConsentManagement.Gate.constructor | modules/consentManagement.js:16-27 | The module as loaded: nothing configured, no consent. `haveExited` starts undefined, which `=== false` treats as exited. |
| ConsentManagement.Gate.SetConfig | modules/consentManagement.js:225-248 | Each setting is taken when it has the right type (string, number, boolean) and is otherwise defaulted to 'iab', 10000 or true, with one info line per default. The hook is then registered at priority 50. |
| ConsentManagement.Gate.ResetConsentData | modules/consentManagement.js:217-219 | The stored consent is forgotten and nothing else changes. |
| ConsentManagement.Gate.ExitModule | modules/consentManagement.js:197-212 | Only the first exit of a pass acts. A good exit continues; a bad exit warns and continues, or cancels, according to `allowAuction`. `nextFn` runs at most once per pass. |
| ConsentManagement.Gate.StoreConsentData | modules/consentManagement.js:173-180 | The record built from the value is stored and published to `gdprDataHandler`. |
| ConsentManagement.Gate.CmpFailed | modules/consentManagement.js:159-167 | The timer is cleared. The empty record is stored when `allowAuction` holds, even after an exit. The bad exit follows. |
| ConsentManagement.Gate.ProcessCmpData | modules/consentManagement.js:137-146 | A valid payload clears the timer, is stored and takes the good exit. Anything else takes the failure path with the value as reason. |
| ConsentManagement.Gate.CmpTimedOut | modules/consentManagement.js:151-166 | A pending timer fires: the one `timer` holds, or a stale one whose handle a later pass overwrote (line 126). Either way it is a failure with the text 'CMP workflow exceeded timeout threshold.'. It clears the timer `timer` holds. When `allowAuction` holds, it replaces any stored consent with the empty record. It continues or cancels the current pass unless that pass has exited. A stale timer leaves one fewer stale timer. |
| ConsentManagement.Gate.OnMessage | modules/consentManagement.js:80-88 | A `__cmpReturn` for a pending call runs `processCmpData` on its return value and removes the callback. Other messages change nothing. |
| ConsentManagement.Gate.StartLookup | modules/consentManagement.js:119-128 | The lookup runs once. It leaves `window.__cmp` as `SurfaceAfter`, sends exactly `LookupSends` and files the callback when it posts. An immediate 'CMP not found' fails the pass. A timeout of 0 fails it through `processCmpData(undefined)`. Otherwise the timer is armed and the pass waits; a timer armed before it becomes stale. |
| ConsentManagement.Gate.RequestBidsHook | modules/consentManagement.js:103-129 | This is the corrected hook. A new pass begins. Stored consent continues at once, and so does an unsupported framework, which warns and closes the exit guard. Neither touches the channel or the timers. Otherwise the lookup starts, with the surface, the sent call and the timers that `StartLookup` states. In every case `nextFn` has run at most once. |
| ConsentManagement.Gate.RequestBidsHookAsWritten | modules/consentManagement.js:103-129 | The same hook as written, with the same channel and timer effects. On an unsupported framework it continues, but leaves `haveExited` false. |
| ConsentScenarios.ValidReplyIsStored | modules/consentManagement.js:63-146 | The pass posts exactly `{__cmpCall: {command: 'getVendorConsents', parameter: null, callId}}` to the CMP frame with origin `*`. A valid reply is stored as the record, and the auction continues once with the pass's arguments. |
| ConsentScenarios.StoredConsentShortCircuits | modules/consentManagement.js:109-112 | With consent stored, the next pass continues at once and sends nothing to the CMP. |
| ConsentScenarios.UnknownCmpContinues | modules/consentManagement.js:114-117 | An unsupported framework warns and continues once without storing consent. |
| ConsentScenarios.MissingCmpAllowed | modules/consentManagement.js:64-68 | With no CMP frame up to the top, 'CMP not found' resumes the auction once, storing the empty record when that is allowed. |
| ConsentScenarios.MissingCmpStaysMissing | modules/consentManagement.js:44-68 | The shim the first pass installed stays bound to no frame. A later pass fails at once again, arms no timer and sends nothing. |
| ConsentScenarios.ZeroTimeoutCancels | modules/consentManagement.js:122-125 | A timeout of 0 fails the pass before any reply, and without permission the auction is canceled without arming a timer. |
| ConsentScenarios.TimeoutThenLateReply | modules/consentManagement.js:184-189 | After the timeout cancels the pass, a late reply no longer continues it, but its payload is still stored. |
| ConsentScenarios.ReplyDisarmsTimer | modules/consentManagement.js:141 | A reply that comes first continues once and clears the timer. |
| ConsentScenarios.StaleTimerOverwritesConsent | modules/consentManagement.js:119-164 | Two passes wait at once, and the second overwrites the first's timer handle. The second pass's reply clears only its own timer and is stored. The first timer then fires and replaces the valid consent with the empty record. The next pass continues on that record without asking the CMP. |
| ConsentScenarios.StaleReplyAfterUnsupportedPass | modules/consentManagement.js:114-117 | As written, after an unsupported-framework pass, an earlier pass's late reply continues the auction a second time (`nextCalls == 2`). |
| ConsentScenarios.StaleReplyAfterUnsupportedPassGuarded | modules/consentManagement.js:114-117 | With the guard closed on that path, the same events continue the auction once. |
| Strings.TrimStart | src/adapters/pubmatic.js:84 | `replace(/^\s+/g,'')` leaves a suffix that does not start with whitespace, after a whitespace-only prefix. |
| Strings.TrimEnd | src/adapters/pubmatic.js:84 | `replace(/\s+$/g,'')` leaves a prefix that does not end with whitespace, before a whitespace-only suffix. |
| Strings.Trim | src/adapters/pubmatic.js:84 | The trimmed text is no longer than the input and has no whitespace at either end. `TrimIsInfix` and `TrimIdempotent` characterise it further. |
| Strings.TrimIsInfix | src/adapters/pubmatic.js:84 | A trimmed string is a contiguous piece of the original with only whitespace around it, and it has no whitespace at either end. |
| Strings.TrimIdempotent | src/adapters/pubmatic.js:84 | Trimming twice is trimming once. |
| Strings.Split | src/adapters/pubmatic.js:226-227 | `split` on one character gives at least one piece, and no piece contains the separator. |
| Strings.JoinSplit | src/adapters/pubmatic.js:226-227 | Joining the pieces of a split with the separator gives back the string. |
| Strings.SplitJoin | src/adapters/pubmatic.js:226-227 | Splitting a join of separator-free pieces gives back the pieces. |
| Strings.SplitOfFree | src/adapters/pubmatic.js:226-227 | A string without the separator splits into itself alone. |
| Strings.SplitPrefix | src/adapters/pubmatic.js:227 | The first piece of a split is the text before the first separator. |
| Strings.SplitHasMany | src/adapters/pubmatic.js:233 | A split has a second piece exactly when the separator occurs. |
| Strings.Join | src/adapters/pubmatic.js:112 | `join` puts the separator between the pieces, and the text starts with the first piece. |
| Strings.JoinAppend | src/adapters/pubmatic.js:112 | Joining two non-empty lists gives the two joins with the separator between them. |
| JsValues.Truthy | src/adapters/pubmatic.js:169 | JavaScript truthiness: exactly `undefined`, `null`, `false`, 0 and '' are falsy. |
| JsValues.JsToString | src/adapters/pubmatic.js:109 | `String(v)` as a property key: a string is its own key, and a number gives a numeral, with a leading '-' exactly when it is negative. |
| JsValues.NatToString | src/adapters/pubmatic.js:110 | `String(n)` of a natural number is a non-empty digit string without a leading zero. |
| PubmaticRequest.ConfGetSet | src/adapters/pubmatic.js:164-169 | Reading a property after `conf[key] = v` gives `v`, and other properties are untouched. |
| PubmaticRequest.ConfSetHasEntry | src/adapters/pubmatic.js:108 | After `conf[key] = v`, the object holds the entry `(key, v)`. |
| PubmaticRequest.ConfSetOthers | src/adapters/pubmatic.js:68 | A property assignment gives the key its new value and leaves every other property as it was. |
| PubmaticRequest.HandleCustomParams | src/adapters/pubmatic.js:66-72 | `kadpageurl` ends as `conf.kadpageurl \|\| conf.pageURL`. Every other property is unchanged. |
| PubmaticRequest.CleanedSlots | src/adapters/pubmatic.js:74-92 | `_cleanSlots` as a definition: the trimmed string entries that are not empty, in order. No entry is empty, and no input gives no output. `CleanedSlotsExact`, `CleanedSlotsAppend` and `CleanedSlotsIdempotent` characterise it. |
| PubmaticRequest.CleanSlots | src/adapters/pubmatic.js:74-92 | The index loop of `_cleanSlots` returns exactly `CleanedSlots` of its input. |
| PubmaticRequest.CleanedSlotsExact | src/adapters/pubmatic.js:74-92 | Every string entry that is non-blank after trimming appears, trimmed. Nothing else appears. Every result is non-empty and trimmed. |
| PubmaticRequest.CleanedSlotsTrimmed | src/adapters/pubmatic.js:84-88 | Every cleaned slot is non-empty and is its own trim. |
| PubmaticRequest.CleanedSlotsAppend | src/adapters/pubmatic.js:81-89 | Cleaning works entry by entry and in order: cleaning a concatenation concatenates the cleanings. |
| PubmaticRequest.CleanedSlotsIdempotent | src/adapters/pubmatic.js:74-92 | Cleaning a list of cleaned slots changes nothing. |
| PubmaticRequest.ToUrlParams | src/adapters/pubmatic.js:116-131 | The `for-in` loop returns the `key=enc(value)` parameters of the kept properties, in order, joined by '&'. |
| PubmaticRequest.UrlParams | src/adapters/pubmatic.js:116-131 | `_toUrlParams` as a definition: at most one parameter per property. `UrlParamsExact` and `UrlParamsAppend` say which parameters, and in which order. |
| PubmaticRequest.UrlParamsExact | src/adapters/pubmatic.js:123-127 | A property that is not `null`, `undefined` or `''` yields its parameter, and every parameter comes from such a property. |
| PubmaticRequest.UrlParamsAppend | src/adapters/pubmatic.js:123-128 | Parameters follow the property order. |
| PubmaticRequest.LooselyTrue | src/adapters/pubmatic.js:110 | `pm_dm_enabled == true`: a value that is loosely equal to `true` is truthy, and among booleans, `null` and `undefined` only `true` is. |
| PubmaticRequest.OneHopHost | src/adapters/pubmatic.js:110 | The one-hop host, carrying the publisher id, is never the aggregator host. |
| PubmaticRequest.Host | src/adapters/pubmatic.js:105-110 | The host is the one-hop host or the aggregator. It is the one-hop host whenever `pm_dm_enabled == true` or the publisher id is a key of `lessOneHopPubList`. |
| PubmaticRequest.HostChoice | src/adapters/pubmatic.js:105-110 | The one-hop host `haso.pubmatic.com/ads/<pubId>/GRPBID/index.html` is used exactly when `pm_dm_enabled == true` or the publisher id, as a property key, is in `lessOneHopPubList`. The aggregator is used otherwise. |
| PubmaticRequest.ListedPublisherGoesOneHop | src/adapters/pubmatic.js:105-110 | The number 46076 and the string "46076" both select the one-hop host, because `hasOwnProperty` converts the key to a string. |
| PubmaticRequest.WithCallback | src/adapters/pubmatic.js:108 | `conf.pm_cb` is set to the callback name and every other property is unchanged. |
| PubmaticRequest.LegacyCall | src/adapters/pubmatic.js:104-114 | The URL is, in order: protocol, host and '?'; the '&'-join of `UrlParams` of the configuration with `pm_cb` set (line 111), which is what `ToUrlParams` returns; then `&adslots=` and the encoded `[slot,...]`. That query holds the `pm_cb` callback parameter. |
| PubmaticRequest.CallbackParamPresent | src/adapters/pubmatic.js:108-111 | Whatever the configuration, the callback parameter reaches the query. |
| PubmaticRequest.PubIdIsFirstTruthy | src/adapters/pubmatic.js:164-172 | `conf.pubId` ends as the first truthy `publisherId`. With none it is the last bid's (falsy) id, or 0 with no bids. It is truthy exactly when some bid's id is. |
| PubmaticRequest.PubIdAfter | src/adapters/pubmatic.js:164-169 | The accumulated `conf.pubId` is 0 or some bid's `publisherId`. `PubIdIsFirstTruthy` says which one. |
| PubmaticRequest.ConfAfter | src/adapters/pubmatic.js:164-171 | The loop's configuration differs from `_initConf()`'s only at `pubId` and `kadpageurl`. `ConfAfterPubId` gives its `pubId`. |
| PubmaticRequest.ConfAfterPubId | src/adapters/pubmatic.js:164-172 | The final configuration's `pubId` is that accumulated id; `_handleCustomParams` does not disturb it. |
| PubmaticRequest.CollectBids | src/adapters/pubmatic.js:159-172 | The loop of `_callBids` yields the folded configuration, the slots in bid order and the accumulated `pubId`. |
| PubmaticRequest.AdSlots | src/adapters/pubmatic.js:171 | The pushed slots are the bids' `adSlot`s, in order. |
| PubmaticResponse.DfpRewriteChars | src/adapters/pubmatic.js:223 | The DFP replacement keeps the length and changes characters only by turning ';' into '='. |
| PubmaticResponse.DfpPair | src/adapters/pubmatic.js:223 | A lone pair `key;value` is rewritten to `key=value`. |
| PubmaticResponse.DfpPairThen | src/adapters/pubmatic.js:223 | A pair followed by ';' is rewritten, the ';' is kept, and the rest is rewritten on its own. |
| PubmaticResponse.DfpFormRewritten | src/adapters/pubmatic.js:219-223 | The DFP form `k1;v1;k2;v2` of well-formed pairs becomes the standard form `k1=v1;k2=v2`. |
| PubmaticResponse.RewriteWithoutEquals | src/adapters/pubmatic.js:222-223 | A text the rewrite leaves without '=' is left unchanged. |
| PubmaticResponse.MatchAt | src/adapters/pubmatic.js:223 | Where `/([a-z]+);(.[^;]*)/i` matches at the start of the text. A match needs at least three characters, one of them ';'. |
| PubmaticResponse.Step | src/adapters/pubmatic.js:223 | One step of the global replacement consumes at least one character and writes as many as it consumes. |
| PubmaticResponse.DfpRewrite | src/adapters/pubmatic.js:223 | The global replacement keeps the length of the text. |
| PubmaticResponse.TrailingKeyUnchanged | src/adapters/pubmatic.js:223 | A letter key followed by a final ';' is no match, because `.` has no character to take, so it stays as it is. |
| PubmaticResponse.DfpFormThen | src/adapters/pubmatic.js:219-223 | Well-formed DFP pairs followed by ';' and more text are rewritten pair by pair, and the rest is rewritten on its own. |
| PubmaticResponse.SourceDfpExample | src/adapters/pubmatic.js:218-223 | The example of the comment at line 220 is rewritten to `bidstatus=1;bid=5.0000;bidid=hb_test@468x60;wdeal;`: the trailing `wdeal;` is left as it is. |
| PubmaticResponse.PrepareInfo | src/adapters/pubmatic.js:222-223 | Normalising an info string keeps its length, and it can only turn ';' into '='. |
| PubmaticResponse.PrepareInfoIdempotent | src/adapters/pubmatic.js:222-224 | Normalising an info string twice is normalising it once, so writing it back into the map does not change what a later bid for the same slot reads. |
| PubmaticResponse.FoldPiecesKeys | src/adapters/pubmatic.js:226-230 | The parsed info has exactly the keys of the pieces. |
| PubmaticResponse.FoldPiecesLastWins | src/adapters/pubmatic.js:226-230 | Each key holds the value of the last piece with that key; a piece without '=' gives `undefined`. |
| PubmaticResponse.PieceOfPair | src/adapters/pubmatic.js:227-228 | A `key=value` piece gives that key and value. |
| PubmaticResponse.FoldPieces | src/adapters/pubmatic.js:226-230 | Every piece's key is a key of the parsed info. |
| PubmaticResponse.ParseSlotInfo | src/adapters/pubmatic.js:226-230 | Every ';'-separated piece of the info string contributes its key. |
| PubmaticResponse.TrailingKeyUndefined | src/adapters/pubmatic.js:226-230 | After standard pairs with distinct keys, a last key without '=' parses to `undefined`, and every pair keeps its value. |
| PubmaticResponse.TrailingKeyEmpty | src/adapters/pubmatic.js:226-230 | The same last key written `key=` parses to the empty string. |
| PubmaticResponse.SourceDfpExampleParsed | src/adapters/pubmatic.js:220-230 | In the rewritten example, `wdeal` is `undefined` and `bidstatus`, `bid` and `bidid` have their values. The standard form `wdeal=` gives '' instead. |
| PubmaticResponse.InfoText | src/adapters/pubmatic.js:215-226 | The text parsed for a slot is its normalised info string, of the same length, or '' (`\|\| ''`) when the map has no entry for the slot. |
| PubmaticResponse.Classify | src/adapters/pubmatic.js:232-250 | A response is always for the request's placement. Only a bid (`bidstatus` '1') can throw. |
| PubmaticResponse.ClassifyCases | src/adapters/pubmatic.js:232-250 | The response is a no-bid exactly when `bidstatus` is not '1'. A bid carries the request's placement code and slot, the price text and the deal. Of the modelled throw sites, the handler throws exactly on a bid whose `bidid` is missing or has no '@'. |
| PubmaticResponse.DimensionsOfBidId | src/adapters/pubmatic.js:233-241 | A `bidid` of the form `id@WxH` gives width W and height H. |
| PubmaticResponse.Answer | src/adapters/pubmatic.js:213-250 | One round of the handler's loop: a response, when it does not throw, is for its request's placement code. `AnswerCarries` adds the slot. |
| PubmaticResponse.Collect | src/adapters/pubmatic.js:211-251 | The loop reports at most one response per answer. `CollectPrefix` says which. |
| PubmaticResponse.CollectPrefix | src/adapters/pubmatic.js:211-251 | Among the modelled throws, the loop throws exactly when some answer throws. Up to the first throw, every answer is reported in order. Without a throw, all answers are reported. |
| PubmaticResponse.AnswerCarries | src/adapters/pubmatic.js:244-249 | A response answers its own request: the same placement code, and for a bid the same slot. |
| PubmaticResponse.Responses | src/adapters/pubmatic.js:211-251 | The handler's loop over the requests reports at most one response per request. `ResponsesInOrder` gives their order and contents. |
| PubmaticResponse.ResponsesInOrder | src/adapters/pubmatic.js:211-251 | The i-th response answers the i-th request. Without a throw, every request is answered. |
| PubmaticResponse.NormaliseAndParse | src/adapters/pubmatic.js:222-230 | The loop body keeps each map entry's normal form and parses the normal form of the original entry. |
| Pubmatic.LegacyRequests | src/adapters/pubmatic.js:174-178 | A pass issues at most one ad call, and one exactly when the accumulated `pubId` is truthy and some slot survives cleaning (line 176). |
| Pubmatic.LegacyRequestCondition | src/adapters/pubmatic.js:174-178 | A pass issues at most one ad call. It issues one exactly when some bid has a truthy `publisherId` and some bid's `adSlot` is a non-blank string. |
| Pubmatic.PlanPass | src/adapters/pubmatic.js:162-178 | The steps of a corrected pass that touch no adapter state yield the accumulated `pubId` and exactly `LegacyRequests`. |
| Pubmatic.ReportBids | src/adapters/pubmatic.js:211-251 | The callback's loop over the remembered bids reports exactly `Responses`, and throws exactly where it does, among the modelled throws. |
| Pubmatic.Adapter.constructor | src/adapters/pubmatic.js:11-16 | A new adapter has no bids and no sync, on an https or http page. |
| Pubmatic.SyncPixelUrl | src/adapters/pubmatic.js:149 | The sync iframe's `src` ends with `String(pubId)`. |
| Pubmatic.SyncPixelUrlDistinct | src/adapters/pubmatic.js:149 | Publishers whose ids read differently get different sync URLs. |
| Pubmatic.Adapter.InitUserSync | src/adapters/pubmatic.js:146-157 | The first call appends the sync iframe for `pubId`; later calls change nothing. |
| Pubmatic.Adapter.CallBids | src/adapters/pubmatic.js:159-191 | This is the corrected pass, with both corrections: it cleans the collected slots (line 174), and `_createRequestContent` receives the URL that `_legacyExecution` computes (lines 94-102 and 183-188). It remembers the bids, issues `LegacyRequests` and syncs with the accumulated `pubId`. |
| Pubmatic.Adapter.CallBidsSlotsFixedOnly | src/adapters/pubmatic.js:159-191 | With line 174 corrected alone, the pass throws exactly when its ad call is due, because `_createRequestContent` (line 188) reads `url`, a local of `_legacyExecution` (line 95). Then no script is written and the sync does not happen. Otherwise it syncs as usual. |
| Pubmatic.Adapter.CallBidsAsWritten | src/adapters/pubmatic.js:159-181 | Given a configuration from `_initConf` (see the `CONSTANTS` line under "## Left out"), the pass as written (`_cleanSlots(_cleanSlots)`) remembers the bids and syncs, but never issues an ad call. |
| Pubmatic.Adapter.HandleCallback | src/adapters/pubmatic.js:193-252 | Before any `callBids` it throws at once. Otherwise the responses appended are `Responses` of the remembered bids, and, among the modelled throws, it throws exactly when that does. |

## Left out

- I/O is not modelled. `utils.logInfo`/`logWarn`/`logError`, `gdprDataHandler.setConsentData` and `nextFn.apply` are entries of the gate's effect log. The contexts and argument objects are opaque values.
- Timers are not modelled as handles. The timer whose handle `timer` holds is the flag `timerArmed`. The timers whose handle a later pass overwrote are the count `staleTimers`. The clock is left out: a timer fires only when the caller invokes `CmpTimedOut`, naming which kind fires.
- `Math.random()` call ids are a parameter of `RequestBidsHook`.
- `JSON.parse` of string messages (line 82) is left out. Messages arrive already decoded.
- ConsentManagement.Gate.OnMessage: requires the `callId` of a `__cmpReturn` to be pending. The source does not guard an unknown id, which would throw inside the listener.
- CmpChannel.Channel.Receive: carries the same requirement as `OnMessage`, for the same reason (line 84 calls the stored callback without a check).
- A native `__cmp` invokes its callback itself. In the model, the caller then invokes `ProcessCmpData`, after the lookup has returned. A native CMP that answers synchronously, inside the call, is not modelled.
- ConsentManagement.Gate.RequestBidsHook: requires `configured`, because the hook exists only once `setConfig` has registered it. Calling the exported function before any `setConfig` is not modelled.
- `config.getConfig('consentManagement', ...)` (line 249) is not modelled. Callers call `SetConfig` directly.
- The `consentTimeout` is an integer. A fractional timeout is not representable.
- `_initConf` (lines 18-60) reads the date, the screen, `Math.random`, `navigator` and the top window's location. Its result is the parameter `initConf`.
- `CONSTANTS` is assumed to be supplied as a global by the build. `_initConf` reads `CONSTANTS.REPO_AND_VERSION` (line 31), and pubmatic.js neither declares nor requires `CONSTANTS` (lines 1-3). Without such a global, `_initConf` throws a ReferenceError at line 160 on every pass, before `bids` is set (line 165) and before `_initUserSync` (line 180). Every `callBids` member, and Findings rows 2 and 3, assume `_initConf` returns.
- `_encodeIfRequired` and `encodeURIComponent` are the parameters `enc` and `encUri`. Their decode and encode rules are not modelled.
- `_legacyExecution` and `_createRequestContent` (lines 94-102, 183-191) write an iframe document. The model ends at the URL in `requests`. As written, `_createRequestContent` reads an out-of-scope `url` and throws. `CallBidsSlotsFixedOnly` models that throw, and the iframe it has already inserted is not modelled.
- The user-sync iframe's DOM insertion, and the error it may log, are not modelled. The pixel URL is recorded.
- `bidDetailsMap` (`creative_tag`, `tracking_url`), `unescape`, `decodeURIComponent` and `createTrackPixelIframeHtml` (lines 238-239) are not modelled. A bid carries neither its ad markup nor its tracking pixel. `decodeURIComponent` throws a URIError on a malformed `tracking_url` such as `'%E0%A4%A'`. That throw is not modelled, so the throws the handler model states are only those on `bidid`.
- Every bid request has a `params` object. A request without one throws at `bid.params.publisherId` (line 167) and at `bid.adSlot` (line 215). That throw is not modelled.
- PubmaticRequest.Conf: a plain object is a list of distinct keys in insertion order. The type does not force the keys to be distinct. `ConfGet` reads the first entry for a key, and `ConfSet` replaces that entry in place or appends a new one. Integer-like keys, which `for-in` lists first in ascending order, are not modelled. The adapter's configuration uses none.
- `Number(bid)` is kept as the price text `cpmText`, because floating point is not modelled.
- PubmaticRequest.LooselyTrue: stands for `pm_dm_enabled == true` on the values a configuration holds (`true`, 1, a string reading as 1). Other number spellings that `ToNumber` reads as 1 ("1.0", "0x1") are not covered.
- The properties `__proto__`, `constructor` and other inherited names are not modelled, neither as keys of `adUnitInfo` nor as slot names. Objects are plain maps.
- An unreadable `iframe.contentWindow`, or a missing map, becomes the empty `progKeyValueMap` (lines 196-208). The values of `progKeyValueMap` are assumed to be strings. A truthy non-string value would throw at `.indexOf` (line 222), and that throw is not modelled. `bidInfoMap` is the iframe window's own object (lines 198, 208), so the rewrite at line 223 writes into the iframe's map. The model keeps the map as a value, and does not model that write. `PrepareInfoIdempotent` shows that it does not change what the callback reads for a later bid with the same slot.
- `$$PREBID_GLOBAL$$` is kept literally in the callback name.
- PubmaticResponse.DfpFormRewritten: requires non-empty values. With an empty value in the middle, the `.` of the pattern consumes the following ';'. That case is left to the general `DfpRewrite` definition and `DfpRewriteChars`. A key with an empty value at the end, as in the example at line 220, is covered by `TrailingKeyUnchanged` and `SourceDfpExample`.
- `src/ajax.js`, the bid factory and the bid manager are not part of this model.

## Findings

| source | as written | input that shows it | evidently intended | confidence | as-written member | corrected member |
|---|---|---|---|---|---|---|
| modules/consentManagement.js:114-117 | The unsupported-framework path calls `nextFn` directly and leaves `haveExited` false. | A pass with `cmpApi: 'iab'` times out and is canceled. `setConfig` then names `'other'`. The next pass continues at once. The first pass's late CMP reply then reaches `exitModule` with the guard open and calls `nextFn` again (`nextCalls == 2`). | At most one `nextFn` call per pass: the direct path should close the exit guard. | not executed | ConsentManagement.Gate.RequestBidsHookAsWritten, ConsentScenarios.StaleReplyAfterUnsupportedPass | ConsentManagement.Gate.RequestBidsHook, ConsentScenarios.StaleReplyAfterUnsupportedPassGuarded |
| src/adapters/pubmatic.js:174 | `slots = _cleanSlots(_cleanSlots)` cleans the function itself: length 1, element `undefined`, so the result is empty. | With `CONSTANTS` supplied as a global (see "## Left out"), any bid list with a truthy `publisherId` and a non-blank string `adSlot`, such as one bid `{publisherId: 5890, adSlot: 'slot@728x90'}`: no ad call is issued. | `_cleanSlots(slots)`: the cleaned slots reach `_legacyExecution` whenever a publisher and a slot are present. Issuing the call also needs the correction of line 188 in the next row. | not executed | Pubmatic.Adapter.CallBidsAsWritten | Pubmatic.Adapter.CallBids, Pubmatic.LegacyRequestCondition |
| src/adapters/pubmatic.js:188 | `_createRequestContent()` takes no parameter and reads `url`, which is a local of `_legacyExecution` (line 95) and not in its scope. | With `CONSTANTS` supplied as a global and line 174 corrected, one bid `{publisherId: 5890, adSlot: 'slot@728x90'}`: `_legacyExecution` calls `_createRequestContent(url)`, which throws a ReferenceError. No script tag is written, and `_initUserSync` (line 180) is never reached. | `_createRequestContent(url)` with a `url` parameter: the script tag carries the ad call's URL. | not executed | Pubmatic.Adapter.CallBidsSlotsFixedOnly | Pubmatic.Adapter.CallBids, Pubmatic.LegacyRequestCondition |
