# Netflix 4K enabler: a verified model of its rewrite and navigation logic

The extension has two scripts. `inject.js` runs inside the Netflix page. It
replaces built-ins (`Object.defineProperty`, `Object.defineProperties`,
`Object.assign`, `JSON.parse`, `JSON.stringify`, `TextEncoder.prototype.encode`,
the `decodingInfo` and `isTypeSupported` capability queries). Through them it
raises bitrate, height and width caps in any configuration object it sees,
forces HDCP 2.2, and prepends 4K streaming profiles to manifest requests. It
also follows single-page navigation: on every new video it clears
`cadmiumHooked` and schedules fresh attempts to hook the Cadmium player.
`content.js` runs in the extension's own context. It tracks the page URL and
the DOM, and posts `NETFLIX_4K_REINIT` messages that make the injected script
rehook.

The model has these modules:

- `Values`: JavaScript values and objects. An object is a record in a heap addressed by ids. A frozen record is an object whose writes throw.
- `Classifier`: the key and threshold rules, the 4K profile catalog, the merge of missing profiles, the hook trigger predicates and the text gates.
- `Walk`: `patchConfigValues` as a pure specification. The visited set `_patched` is part of the walk's state.
- `Patcher`: the class `ConfigPatcher`. Its fields are the heap and `_patched`. Its methods update them in place, with loops, and each is proved equal to its specification function.
- `Interception`: the `Object.assign`, `JSON.parse`, `JSON.stringify` and `Object.defineProperties` hooks, including the profile/HDCP request rewrite.
- `Encode`: the `TextEncoder.prototype.encode` hook, with JSON and base64 as parameters.
- `Hooks`: `Object.defineProperty`, the config proxy's `set`/`get` traps and the codec tests.
- `Url`: `getWatchId`/`getVideoId`, i.e. the first match of `/\/watch\/(\d+)/`, and the `/watch` prefix test.
- `Dom`: an added node of a mutation record, and the player-container and video predicates.
- `Navigation`: the injected script's navigation state as a value. It holds an explicit, time-ordered queue of pending timers, and has one function per event: the 200 ms poll, a history call, `popstate`, the reinit message, an added video, a timer firing.
- `NavigationState`: the class `Navigator`. Its fields are that state, and its methods are proved equal to the `Navigation` functions.
- `Content` and `ContentState`: `content.js`'s tracker (`lastUrl`, `lastVideoId`), `checkNavigation`, and the observer's signals. The class `ContentScript` holds the tracker and the list of posted messages.

URL changes, DOM mutations, messages and timer expiry are inputs. The current
`location.href`/`location.pathname` and whether `window.netflix.player`
exists are passed to the operations that read them.

Throughout the walk and the hooks, the numeric rules use the corrected width
test (see Findings). The config proxy's `set` trap keeps its own tests as
written.

## Model

| member | source | states |
|---|---|---|
| Strings.JsLength | inject.js:610 | `s.length` counts UTF-16 code units: at least one and at most two per character, exactly one per character when none is above U+FFFF. |
| Strings.JsLengthAstral | inject.js:610 | A text of characters above U+FFFF has twice as many code units as characters, so 51 of them already pass the 100-unit test. |
| Values.SetField | inject.js:286-339 | A property write fails (the throw the per-key `try` swallows) exactly when the object is frozen; otherwise only that property changes, and a new key is appended to the key order. |
| Values.NewId | inject.js:723 | A new object gets an id that no existing object uses. |
| Classifier.NumberRuleAsWritten | inject.js:293-313 | The three numeric tests as written: all of them test the original value, and the last one that fires decides (width over height over bitrate). A new value is always larger than the old. |
| Classifier.NumberRule | inject.js:293-313 | The corrected numeric rule: when it fires, the value rises, and only to 16000, 2160 or 3840. |
| Classifier.NumberRuleGuards | inject.js:295-312 | Keys containing "min", values of at most 0 and values already at least 16000 are never changed, and a correction never lowers a value. |
| Classifier.BitrateOnly | inject.js:295-302 | For a bitrate or bandwidth key with no height or width part, the value becomes 16000 if and only if the key has no "min" or "audio", is not "abitrate", the value is not likely audio, and 0 < v < 16000. Otherwise it is unchanged. |
| Classifier.HeightOnly | inject.js:304-307 | For a height key without "min", a value in [720, 2160) becomes 2160 and any other value is unchanged. |
| Classifier.WidthOnly | inject.js:309-312 | For a width key without "min", a value in [1280, 3840) becomes 3840 and any other value is unchanged. |
| Classifier.NumberRuleIdempotent | inject.js:298-312 | For a key of one rule family, a corrected value passes the rules a second time unchanged. |
| Classifier.NumberRuleSettles | inject.js:293-313 | For any key, a second pass never lowers a corrected value, and after at most three passes no rule fires. |
| Classifier.MultiFamilyTwoPasses | inject.js:293-313 | `maxHeightBitrate`, a height and a bitrate name at once, is not settled by one pass, as written or corrected: 1000 becomes 2160, and a second pass turns 2160 into 16000. |
| Classifier.MaxHeightBitrateName | inject.js:295-309 | "maxheightbitrate" is a bitrate name and a height name, but no width name and no audio property. |
| Classifier.RulesDiffer | inject.js:293-313 | The corrected rule and the rule as written give different results if and only if the key contains "bandwidth" but not "min" and the value is in [1280, 3840). There the source writes 3840. |
| Classifier.BandwidthFollowsBitrate | inject.js:295-312 | In the corrected rule, a bandwidth key without "height" follows the bitrate rule alone, and a second pass changes nothing. |
| Classifier.BandwidthShadowedAsWritten | inject.js:295-312 | As written, `bandwidth = 2000` becomes 3840 under the width test, and a second pass turns it into 16000. The corrected rule gives 16000 at once. |
| Classifier.BandwidthName | inject.js:309 | "bandwidth" is a bitrate key, and it passes the width test as written but not the corrected one. |
| Classifier.MaxVideoBitrateName | inject.js:287-297 | `maxVideoBitrate` lower-cases to a bitrate key that is not an audio property and mentions "video". |
| Classifier.BitrateExamples | inject.js:295-302 | `maxVideoBitrate`: 5000 becomes 16000, while 20000 and -1 are unchanged. |
| Classifier.DimensionExamples | inject.js:304-312 | Height 1080 becomes 2160 and width 1920 becomes 3840; height 4000, 500 and 719 and width 4000 and 500 are unchanged. |
| Classifier.MissingFrom | inject.js:328-329 | The entries to add are exactly the catalog entries absent from the array, with no repeats, in catalog order. |
| Classifier.SubseqOrder | inject.js:328 | A list obtained by filtering another keeps the relative order of its elements. |
| Classifier.MergedPrefixOrdered | inject.js:328-331 | The entries the merge prepends appear in catalog order. |
| Classifier.MergeProfiles | inject.js:327-333 | `[...toAdd, ...val]`: the missing entries are prepended and the original array is kept, unchanged, as the suffix. |
| Classifier.CatalogDistinct | inject.js:250-269 | The 14 catalog entries are pairwise distinct. |
| Classifier.NothingMissing | inject.js:329-330 | When every catalog entry is present, nothing is to be added. |
| Classifier.MergeSpec | inject.js:328-331 | After the merge every catalog entry is present, each added element is a catalog entry that was absent, and a second merge adds nothing. Nothing is added if and only if every entry was present already. |
| Classifier.MergeProfilesSpec | inject.js:327-333 | The merged profile list holds every catalog entry. The original array is its unchanged suffix, and everything before that suffix is a missing catalog entry, in catalog order. A second merge adds nothing. |
| Classifier.MergeProfilesCount | inject.js:328-331 | Each catalog entry appears in the merged list as often as in the original, or exactly once if it was absent. |
| Classifier.IsAudioKey | inject.js:290-291 | The audio skip: a lower-cased name containing "audio" but not "video" (definition; its effect on the walk is in Walk.AudioKeySkipped and Walk.AudioFieldsUnchanged). |
| Classifier.AssignTrigger | inject.js:418-425 | The `Object.assign` hook's `keys.some` test. An object it selects through a non-HDCP name is also selected by the parse hook. |
| Classifier.ParseTrigger | inject.js:707-715 | The `JSON.parse` hook's `keys.some` test (definition; Classifier.AssignTrigger and Classifier.ProfilesKeyTriggersParse relate it to the other hooks). |
| Classifier.StringifyGate | inject.js:557-565 | The `JSON.stringify` hook's gate: a profile marker or a manifest field name in the output (definition; Classifier.CatalogEntriesAreMarked and Interception.StringifyTransparent are its properties). |
| Classifier.EncodeGate | inject.js:610-612 | The `TextEncoder` hook's outer gate: more than 100 UTF-16 code units (`input.length`, as Strings.JsLength) and one of the three request field names (definition; used by Encode.EncodeHook). |
| Classifier.EnvelopeGate | inject.js:650 | The message-layer chunk test: a `"data"` field and a sequence number or message id (definition; used by Encode.FixedHookTakesChunkPath). |
| Classifier.AssignKeyImpliesParseKey | inject.js:420-425 | Every key that triggers the `Object.assign` patch, other than an HDCP key, also triggers the `JSON.parse` patch. |
| Classifier.ProfilesKeyTriggersParse | inject.js:707-717 | An object with a `profiles` key triggers the parse hook's deep patch. |
| Classifier.PlainHeightTriggersNoHook | inject.js:420-425 | An object whose only key is `height` triggers neither hook, although the walk would raise its value. |
| Classifier.CatalogEntryMarked | inject.js:250-269 | Every catalog entry carries one of the profile markers the stringify hook looks for. |
| Classifier.CatalogEntriesAreMarked | inject.js:557-565 | Any serialized text that contains a catalog entry passes the stringify gate. |
| Walk.Write | inject.js:286-339 | A write to a frozen object leaves the state as it was; otherwise it changes that one property. The set of objects and the visited set stay the same. |
| Walk.RaiseResolution | inject.js:321-324 | The resolution sub-object rule adds no objects, and it fails only on a frozen sub-object. |
| Walk.ValueRule | inject.js:293-333 | Whatever a key's rules write is a legal raise for that key. |
| Walk.Walk | inject.js:277-341 | The walk adds and removes no objects, and the visited set only grows, by objects that exist. When it is called within depth 5, the root ends up visited. |
| Walk.WalkKeys | inject.js:285-340 | The key loop adds and removes no objects, and the visited set only grows. |
| Walk.KeyStep | inject.js:286-339 | One key's step adds and removes no objects, and the visited set only grows. |
| Walk.Patch | inject.js:277-283 | Patching any value, an array included, adds and removes no objects, and the visited set only grows. |
| Walk.WalkElements | inject.js:277-341 | Patching the elements of an array adds and removes no objects, and the visited set only grows. |
| Walk.RaisedTrans | inject.js:285-340 | "Every property only rises under its own key's rules" composes over successive steps. |
| Walk.RaiseResolutionRaises | inject.js:321-324 | The resolution rule only raises `width` to 3840 and `height` to 2160. |
| Walk.RaiseResolutionApplies | inject.js:321-324 | On a writable sub-object the rule succeeds: a numeric `width` below 3840 becomes 3840, a numeric `height` below 2160 becomes 2160, and no other object changes. |
| Walk.ResolutionTargetsFinal | inject.js:293-324 | No rule raises a `width` past 3840 or a `height` past 2160. |
| Walk.TargetFieldStays | inject.js:285-340 | A number that no rule of its name raises further survives any sequence of allowed changes. |
| Walk.KeyStepResolution | inject.js:320-336 | For a resolution-named key holding a writable object, a numeric `width` below 3840 ends at 3840 and a numeric `height` below 2160 ends at 2160, after the nested walk as well. |
| Walk.WalkRaises | inject.js:277-341 | After a walk, every property of every object is unchanged or raised by its key's rules (numbers up to 16000, 2160 or 3840, HDCP strings to "2.2", profile lists completed). |
| Walk.WalkKeysRaises | inject.js:285-340 | The same for the key loop. |
| Walk.KeyStepRaises | inject.js:286-339 | The same for one key. |
| Walk.WalkElementsRaises | inject.js:277-341 | The same for the elements of an array. |
| Walk.PatchRaises | inject.js:277-341 | The same for patching any value. |
| Walk.AudioFieldsUnchanged | inject.js:291 | A property whose lower-cased name is an audio key is never changed. |
| Walk.MinFieldsUnchanged | inject.js:295-309 | A numeric property whose name contains "min" is never changed. |
| Walk.NumbersOnlyRise | inject.js:293-324 | A numeric property stays numeric and never falls, and a changed one holds 16000, 2160 or 3840. |
| Walk.WalkSkips | inject.js:278-279 | An object already in `_patched`, or one past depth 5, is not processed. |
| Walk.WalkTwice | inject.js:279-280 | A second walk from the same root at the same depth changes nothing. |
| Walk.WalkElementsTwice | inject.js:279 | Elements that are already visited, missing or too deep are left as they are. |
| Walk.WalkElementsVisits | inject.js:280 | Every existing object element within depth is visited after the element walk. |
| Walk.PatchTwice | inject.js:277-280 | Patching the same value twice is the same as patching it once. |
| Walk.ValueRuleIdempotent | inject.js:298-330 | Once a key's rules are applied, they fire again with no effect or not at all: 16000, 2160 and 3840 fail the strict bounds, "2.2" stays "2.2", and a complete profile list gets nothing. |
| Walk.KeyStepApplies | inject.js:286-333 | On a writable object, a property whose value is not an object ends with exactly the value its key's rules give: a number becomes its corrected value. When no rule fires, nothing changes; otherwise only that property changes. The visited set stays the same. |
| Walk.AudioKeySkipped | inject.js:291 | An audio key is skipped entirely: nothing is written and nothing below it is walked. |
| Walk.ProfilesKeyNotAudio | inject.js:291-327 | The profile keys are never skipped as audio keys. |
| Walk.CompleteStaysComplete | inject.js:327-333 | A profile list holding the whole catalog still holds it after any legal raise. |
| Walk.KeyStepCompletes | inject.js:327-333 | After the step for a `profiles`/`videoprofiles` key holding an array, the array holds the whole catalog. |
| Walk.WalkKeysCompletes | inject.js:285-340 | After the key loop, every profile array among those keys holds the whole catalog. |
| Walk.WalkCompletesProfiles | inject.js:277-341 | A walk of an unvisited, writable object completes each of its profile arrays. |
| Interception.AssignHook | inject.js:413-431 | The `Object.assign` hook adds no objects, and it leaves the state unchanged for a non-object result or a result whose keys do not trigger it. |
| Interception.ParseHook | inject.js:700-728 | The `JSON.parse` hook only adds objects, and it leaves a non-object result alone. |
| Interception.MaxResolutionStep | inject.js:722-724 | Setting `maxResolution` throws exactly when the property is truthy and the object frozen. Nothing else changes, and the visited set stays the same. |
| Interception.ParseHookForcesMaxResolution | inject.js:722-724 | On a writable result, the hook does not throw. A truthy `maxResolution` afterwards points to a new `{width: 3840, height: 2160}` object. |
| Interception.Interim | inject.js:707-719 | The deep patch runs only when a key triggers it, and it adds no objects. |
| Interception.ProfilesStep | inject.js:569-577 | The profile injection changes nothing unless `profiles` is an array with catalog entries missing; then it replaces the array by the merged one. It throws only on a frozen request object. |
| Interception.HdcpWrite | inject.js:583-584 | An `info` object gets HDCP versions 2.2/2.1/2.0/1.4 and `isHdcpEngaged = true`. Nothing else changes, and the write throws exactly when the object is frozen. |
| Interception.HdcpItems | inject.js:580-588 | The `videoOutputInfo` loop adds no objects and never clears `modified`. |
| Interception.HdcpStep | inject.js:580-588 | The HDCP step adds no objects. |
| Interception.RewriteRequest | inject.js:566-593 | The whole request rewrite (profiles, HDCP, caps) adds no objects. |
| Interception.HdcpItemsFrame | inject.js:580-588 | The HDCP loop writes only the two HDCP fields of object elements. |
| Interception.HdcpItemsSets | inject.js:581-587 | Unless it throws, every object element ends with the HDCP 2.2 list and `isHdcpEngaged = true`. |
| Interception.HdcpItemsModified | inject.js:581-587 | Unless it throws, `modified` ends true if and only if it was true already or some element is an object (arrays count). |
| Interception.HdcpStepFrame | inject.js:580-588 | The HDCP step writes only the HDCP fields. |
| Interception.ProfilesStepCompletes | inject.js:569-577 | Unless it throws, the request's `profiles` array then holds the whole catalog. |
| Interception.PatchKeepsProfiles | inject.js:591 | The caps walk after the injection keeps a complete profile list complete. |
| Interception.RewriteCompletesProfiles | inject.js:566-591 | Unless it throws, the rewritten request's `profiles` holds the whole catalog. |
| Interception.ProfilesName | inject.js:569 | "profiles" is a profile key and not an audio key. |
| Interception.StringifyHook | inject.js:549-602 | The returned text is the original serialization of the value before or after the rewrite, and no objects are added. |
| Interception.StringifyTransparent | inject.js:557-565 | Output that names no profile marker and no manifest field passes unchanged, with no side effect. |
| Interception.StringifyInjectsProfiles | inject.js:557-596 | A gated request missing profiles is rewritten in place (unless a write throws) and serialized again, and the text then carries the whole catalog. |
| Interception.DefineEntries | inject.js:384-405 | The `defineProperties` loop adds no objects. |
| Interception.DefinePropertiesHook | inject.js:383-407 | The `defineProperties` hook adds no objects. |
| Interception.DefineEntriesRaises | inject.js:384-405 | The loop changes only the `value` of descriptor objects, and only raises numbers to a target. |
| Interception.DefineEntriesStep | inject.js:386-404 | One entry with a numeric descriptor `value`: a writable descriptor receives the corrected number and the loop goes on; a frozen one whose rule fires makes the call throw with nothing written for it. |
| Interception.SeparateAfterStep | inject.js:386-404 | Writing one entry's descriptor keeps the remaining entries' descriptors separate and writable. |
| Interception.DefineEntriesFrame | inject.js:386-404 | With separate, writable descriptors the loop does not throw, and it leaves any object that no entry names exactly as it was. |
| Interception.DefineEntriesApply | inject.js:386-404 | With separate, writable descriptors the loop does not throw, and every numeric `value` ends as its corrected number under its entry's name. |
| Interception.DefinePropertiesApply | inject.js:383-407 | The same for the `defineProperties` hook: every numeric descriptor value is handed on corrected. |
| Interception.DefinePropertiesNoHdcp | inject.js:383-407 | `defineProperties` never changes a string `value`: it has no HDCP rule. |
| Interception.DefinePropertiesTransparent | inject.js:383-407 | When no descriptor has a numeric value that a rule raises, the hook leaves the heap as it was and does not throw. |
| Interception.NoRuleNoChange | inject.js:384-405 | The same for the loop over a key list. |
| Encode.HookedParse | inject.js:700-728 | The page's `JSON.parse`, after the hook, returns the same top value as the original parse, and it fails whenever the original fails. |
| Encode.PlainParse | inject.js:614 | The original parse gives the document with an empty visited set, and it fails exactly when the text is unparseable. |
| Encode.RewriteText | inject.js:614-645 | A `null` request throws. A rewritten text is the original serialization of the rewritten request. |
| Encode.ChunkRewrite | inject.js:650-686 | A chunk rewrite produces text only for a chunk that is an object. |
| Encode.EncodeHook | inject.js:608-694 | As written: an input that fails the outer gate reaches the encoder unchanged. |
| Encode.EncodeHookFixed | inject.js:608-694 | The intended hook: a short or unparseable input reaches the encoder unchanged. |
| Encode.RaisedKeepsNonArray | inject.js:629 | The walk never turns a missing `videoOutputInfo` into an array. |
| Encode.HookedParseCompletes | inject.js:614 | The hooked parse of a request with a `profiles` array already completes that array. |
| Encode.CompleteRequestUnchanged | inject.js:615-645 | A request with complete profiles and no `videoOutputInfo` array is not re-serialized. |
| Encode.HookedParseMasksInjection | inject.js:612-645 | As written: a request missing profiles and without `videoOutputInfo` reaches the encoder with its profiles still missing. |
| Encode.RequestRewritten | inject.js:617-645 | A request missing profiles is rewritten to the serialization of the merged request, whose profiles are complete. |
| Encode.FixedHookInjectsProfiles | inject.js:617-645 | The intended hook encodes such a request with the whole catalog in its profiles. |
| Encode.EnvelopeBranchDead | inject.js:646-651 | As written: an unparseable input always reaches the encoder unchanged, since the chunk branch parses the same text again. |
| Encode.ChunkRewriteStoresRequest | inject.js:650-686 | A chunk whose base64 `data` holds a request missing profiles gets its `data` replaced by the encoded rewritten request, and it is serialized again. |
| Encode.FixedHookRewritesEnvelope | inject.js:646-686 | For such a chunk the hook as written passes the input on unchanged. The intended hook passes on the chunk with the rewritten request, whose profiles are complete. |
| Encode.FixedHookTakesChunkPath | inject.js:646-686 | The intended hook sends a long input that parses but does not pass the request gate, and does pass the envelope gate, to the chunk rewrite. It returns that rewrite's text, or the input unchanged when the rewrite gives nothing. |
| Hooks.WithValue | inject.js:361 | `{...descriptor, value: v}` is a new, writable copy in which only `value` differs; `value` keeps its place in the key order, or is appended when absent. |
| Hooks.DescriptorRule | inject.js:355-376 | A numeric descriptor value is rewritten if and only if the numeric rule fires, and then to its corrected value. A string value is rewritten, to "2.2", if and only if the key is an HDCP key. Any other value is never rewritten. |
| Hooks.DefinePropertyHook | inject.js:350-380 | A missing descriptor stays missing. |
| Hooks.DefinePropertyTransparent | inject.js:350-380 | A descriptor that is missing, has an undefined value, is defined under a symbol or matches no rule reaches the original `defineProperty` unchanged. |
| Hooks.DefinePropertyOnlyValue | inject.js:350-379 | A descriptor that the hook changes differs only in `value`. That value either rose to 16000, 2160 or 3840, or was a string under an HDCP key and became "2.2". |
| Hooks.HdcpName | inject.js:374 | "hdcp" is an HDCP key. |
| Hooks.DefinePropertyHdcp | inject.js:374-376 | A string descriptor for `hdcp` is replaced by a copy with value "2.2". |
| Hooks.ProxySet | inject.js:439-450 | The `set` trap leaves non-numbers alone and only raises numbers, to 16000, 2160 or 3840. |
| Hooks.ProxySetOn | inject.js:439-454 | The strict-mode `obj[prop] = value` throws if and only if the target is frozen. Otherwise the property receives the trap's value and no other property changes. |
| Hooks.MaxBitrateName | inject.js:442-450 | "maxbitrate" is a bitrate name without "audio", and it passes neither dimension test. |
| Hooks.AbitrateName | inject.js:442-450 | "abitrate" passes the trap's bitrate test and neither dimension test, although the walk treats it as audio. |
| Hooks.ProxySetLacksGuards | inject.js:442-444 | The trap raises `maxBitrate = -1` and `abitrate = 128` to 16000, which the walk's rule never does. |
| Hooks.ProxyGet | inject.js:455-465 | The `get` trap returns the stored value for every name it does not trap. |
| Hooks.ProxyGetCaps | inject.js:459-462 | The bitrate caps read at least 16000 and at least the stored number (or NaN). The height and width caps read 2160 and 3840, and the HDCP names read "2.2", whatever is stored. |
| Hooks.ProxyGetKeepsHighBitrate | inject.js:459 | A stored bitrate cap of at least 16000 reads back as stored. |
| Hooks.DecodingInfoHook | inject.js:94-122 | A query for a 4K codec family is answered supported, smooth and power-efficient, even when the original query fails. Otherwise a failure is passed on. |
| Hooks.DecodingInfoPassThrough | inject.js:105-120 | Without a 4K codec, a query narrower than 3840 gets the original answer. A successful query 3840 wide or more is answered supported, while keeping its key system access. |
| Hooks.IsTypeSupportedHook | inject.js:132-142 | The hook never denies a type the browser supports. A type naming no 4K family gets the browser's answer, and one naming a family is supported. Every type it adds is forced by the `decodingInfo` hook as well. |
| Hooks.TypeCodecsAreDecodingCodecs | inject.js:95-137 | Every codec family that `isTypeSupported` forces is also forced by `decodingInfo`. |
| Hooks.Av1OnlyDecoding | inject.js:95-136 | "av1" is forced by `decodingInfo` only: `isTypeSupported` still asks the browser. |
| Hooks.Av1NotTypeCodec | inject.js:134-137 | "av1" matches none of the `isTypeSupported` families. |
| Url.DigitRun | inject.js:783 | The `(\d+)` group is a slice of the path made of digits, and it cannot be extended by another digit. |
| Url.WatchId | inject.js:782-785 | An id, when there is one, is a nonempty run of digits. |
| Url.WatchIdFromDigits | inject.js:783 | The same for the search from any position. |
| Url.WatchIdFromSound | inject.js:783 | A found id is the digit run of a match that no earlier match precedes. |
| Url.WatchIdFromComplete | inject.js:783-784 | No id is found if and only if no later position matches. |
| Url.WatchIdSpec | inject.js:782-785 | `getWatchId()` is null if and only if the path has no `/watch/` followed by a digit. Otherwise it is the whole digit run after the leftmost such match. |
| Url.OnWatchPath | inject.js:807 | The `pathname.startsWith('/watch')` test of both scripts' navigation checks (definition; Url.IdAtStartIsWatchPath and Url.WatchlistIsWatchPath show what it admits). |
| Url.IdAtStartIsWatchPath | inject.js:807 | A path that begins with `/watch/` and a digit passes the watch-path test and carries an id. |
| Url.WatchlistIsWatchPath | inject.js:807 | `/watchlist` passes the watch-path test but carries no id. |
| Dom.ShowsVideo | inject.js:824 | The video test of both observers: the node is a `VIDEO` element or has one below it (definition; Content.NodeSignals and Navigation.VideoAddedValid state its effect). |
| Dom.IsPlayerContainer | content.js:86-91 | The player-container test: an element with one of the three player classes or the `appMountPoint` id (definition; Content.NodeSignals states its effect). |
| Navigation.Insert | inject.js:795-797 | Scheduling a timer adds exactly one entry to the queue. |
| Navigation.InsertPerm | inject.js:795-797 | The queue afterwards holds the old timers plus the new one. |
| Navigation.InsertPlacement | inject.js:795-797 | The new timer goes after every timer due no later, and before the first one due strictly later (timers with equal due times run in the order they were set). |
| Navigation.InsertSorted | inject.js:795-797 | A queue ordered by due time stays ordered. |
| Navigation.InsertDueFrom | inject.js:795-797 | A timer set for now or later keeps every queued timer due no earlier than now. |
| Navigation.InsertValid | inject.js:795-797 | Scheduling a timer for now or later keeps the state well formed. |
| Navigation.Armed | inject.js:793-798 | The timers of one schedule, one per delay, are each due at now plus its delay. |
| Navigation.ScheduleAll | inject.js:793-798 | Scheduling a list of delays adds one timer per delay. |
| Navigation.ScheduleAllPerm | inject.js:793-798 | Afterwards the queue holds the old timers plus one timer per delay, each due at now plus its delay. |
| Navigation.ScheduleAllStep | inject.js:794-798 | Scheduling a list is scheduling its head, then its tail. |
| Navigation.ScheduleAllValid | inject.js:793-798 | Non-negative delays keep the queue ordered and due no earlier than now. |
| Navigation.HookCadmium | inject.js:475-522 | Afterwards `cadmiumHooked` holds if and only if it held before or the player is present. |
| Navigation.Init | inject.js:894-908 | The starting state is well formed: its timer queue is ordered and nothing in it is due before the start. |
| Navigation.ForceRehook | inject.js:787-799 | A rehook clears `cadmiumHooked`, counts one rehook and queues one timer per delay. Every other field, `hookInterval` included, stays as it was. |
| Navigation.ForceRehookSpec | inject.js:787-799 | A rehook clears `cadmiumHooked` and counts one rehook. It queues exactly the five attempts at +100, +300, +500, +1000 and +2000 ms, and the queue stays well formed. |
| Navigation.ForceRehookArms | inject.js:793-798 | The rehook adds exactly those five timers to the queue. |
| Navigation.RehookTimersArmed | inject.js:793 | The five timers are the attempts at those delays. |
| Navigation.HookCadmiumIdempotent | inject.js:475-522 | Once hooked, `hookCadmium` is a no-op. Two attempts end hooked if and only if it was hooked already or a player was present at either attempt, and after a successful attempt the next changes nothing. |
| Navigation.PollUnchangedHref | inject.js:802-803 | The poll does nothing while `href` is unchanged. |
| Navigation.Poll | inject.js:802-818 | The poll always ends with `lastHref` at the current href. It rehooks if and only if the href changed, the path is a watch path and its id differs from `lastWatchId`. Without a rehook, the queue and the flag stay. An unchanged href changes nothing. |
| Navigation.PollSpec | inject.js:802-818 | After a changed `href`, `lastHref` is the new href. On a watch path, `lastWatchId` is the path's id and a rehook happens if and only if that id differs; a same id changes only `lastHref`. Off a watch path, `lastWatchId` becomes null and nothing else changes. |
| Navigation.CheckHistory | inject.js:837-844 | The history check changes the state if and only if the path carries an id that differs from `lastWatchId`. It then counts one rehook, records the id and clears `cadmiumHooked`. |
| Navigation.CheckHistorySpec | inject.js:837-844 | The delayed history check rehooks if and only if the path has an id that differs from `lastWatchId`. It then records the id and clears `cadmiumHooked`; otherwise nothing changes. |
| Navigation.OneRehookPerVideo | inject.js:802-844 | A new video seen by both the poll and a history check costs exactly one rehook, in either order, and both orders record its id. |
| Navigation.FireValid | inject.js:794-902 | Firing the earliest timer keeps the state well formed. |
| Navigation.HistoryChanged | inject.js:833-860 | A history call or `popstate` adds exactly the 50 ms check to the queue and changes nothing else. |
| Navigation.Message | inject.js:863-867 | A message costs one rehook if and only if its type is `NETFLIX_4K_REINIT`; any other message changes nothing. |
| Navigation.VideoAdded | inject.js:821-830 | A mutation batch costs one rehook if and only if some added node is or contains a video; otherwise nothing changes. |
| Navigation.Fire | inject.js:794-902 | Firing the earliest timer advances the clock to its due time and never changes `lastHref` or restarts the hook interval. It rehooks if and only if it is a history check that finds a new id. |
| Navigation.HistoryChangedValid | inject.js:833-860 | A history call or `popstate` schedules its check 50 ms ahead and keeps the state well formed. |
| Navigation.MessageValid | inject.js:863-867 | A message keeps the state well formed, and it costs a rehook if and only if its type is `NETFLIX_4K_REINIT`. |
| Navigation.VideoAddedValid | inject.js:821-830 | A mutation batch keeps the state well formed. It costs one rehook if and only if some added node is or contains a video, however many do. |
| Navigation.HookIntervalStaysStopped | inject.js:894-902 | Once the hook interval is cleared, no firing timer turns it back on. |
| Navigation.AttemptAfterHook | inject.js:796 | A rehook attempt that fires while the player is hooked does nothing but leave the queue. |
| Navigation.HookTickStops | inject.js:898-899 | A hook-interval tick that finds the player clears the interval and schedules no further tick. |
| NavigationState.Navigator.Init | inject.js:894-908 | The script's start: the state of `Navigation.Init`. |
| NavigationState.Navigator.SetTimeout | inject.js:795-797 | `setTimeout` inserts the timer into the queue in due-time order, and nothing else changes. |
| NavigationState.Navigator.ArmAll | inject.js:793-798 | The `forEach` over the delays queues exactly their schedule, and every other field is unchanged. |
| NavigationState.Navigator.ForceRehook | inject.js:787-799 | `forceRehook` changes the state as `Navigation.ForceRehook`, whose spec is ForceRehookSpec. |
| NavigationState.Navigator.HookCadmium | inject.js:475-522 | The flag update of `hookCadmium`, as `Navigation.HookCadmium`. |
| NavigationState.Navigator.Poll | inject.js:802-818 | The poll body, as `Navigation.Poll` (spec: PollSpec). |
| NavigationState.Navigator.CheckHistory | inject.js:837-844 | The delayed history check, as `Navigation.CheckHistory` (spec: CheckHistorySpec). |
| NavigationState.Navigator.HistoryChanged | inject.js:833-860 | A history call or `popstate`, as `Navigation.HistoryChanged`. |
| NavigationState.Navigator.Message | inject.js:863-867 | The message listener, as `Navigation.Message`. |
| NavigationState.Navigator.VideoAdded | inject.js:821-830 | The observer's nested loops with their early return, as `Navigation.VideoAdded`: at most one rehook per batch. |
| NavigationState.Navigator.Fire | inject.js:794-902 | Firing the earliest timer, as `Navigation.Fire`. |
| Patcher.ConfigPatcher.Load | inject.js:275 | The patcher starts with the page's objects and an empty `_patched`. |
| Patcher.ConfigPatcher.Assign | inject.js:286-339 | `obj[key] = v` succeeds if and only if the object is writable, and then performs exactly that write; `_patched` is not touched. |
| Patcher.ConfigPatcher.RaiseResolution | inject.js:321-324 | The resolution sub-object update, as `Walk.RaiseResolution`. |
| Patcher.ConfigPatcher.PatchObject | inject.js:277-341 | `patchConfigValues` on an object and its key loop changes the heap and `_patched` exactly as `Walk.Walk` (spec: WalkRaises, WalkTwice, WalkCompletesProfiles). |
| Patcher.ConfigPatcher.PatchKey | inject.js:286-339 | One key's body, as `Walk.KeyStep`. |
| Patcher.ConfigPatcher.PatchValue | inject.js:277-341 | `patchConfigValues` on any value, arrays included, as `Walk.Patch`. |
| Patcher.ConfigPatcher.AssignHook | inject.js:413-431 | The `Object.assign` hook, as `Interception.AssignHook`. |
| Patcher.ConfigPatcher.ParseHook | inject.js:700-728 | The `JSON.parse` hook, as `Interception.ParseHook` (spec: ParseHookForcesMaxResolution). |
| Patcher.ConfigPatcher.InjectProfiles | inject.js:569-577 | The profile injection, as `Interception.ProfilesStep`. |
| Patcher.ConfigPatcher.EnsureHdcp | inject.js:580-588 | The `videoOutputInfo` loop, as `Interception.HdcpStep` (spec: HdcpItemsSets, HdcpItemsModified). |
| Patcher.ConfigPatcher.RewriteRequest | inject.js:566-593 | The request rewrite, as `Interception.RewriteRequest` (spec: RewriteCompletesProfiles). |
| Patcher.ConfigPatcher.StringifyHook | inject.js:549-602 | The `JSON.stringify` hook, as `Interception.StringifyHook`. |
| Patcher.ConfigPatcher.DefinePropertiesHook | inject.js:383-407 | The `defineProperties` loop mutating descriptors in place, as `Interception.DefinePropertiesHook`. |
| Content.CheckNavigation | content.js:37-57 | `checkNavigation` always moves `lastUrl` to the href. It posts at most one signal, a URL reason, and only for a changed href on a watch path. |
| Content.NodeSignals | content.js:84-97 | An added node posts "player container detected" if and only if it carries a player class or the `appMountPoint` id, and "video element detected" if and only if it is or contains a video, in that order. A non-element posts nothing. |
| Content.NodesSignals | content.js:83-99 | The signals for a node list are only the two observer reasons. |
| Content.ObserverSignals | content.js:81-101 | The observer posts only the two observer reasons, never a URL reason. |
| Content.Start | content.js:21-114 | The tracker starts at the page's href, with the path's video id. |
| Content.CheckUnchangedUrl | content.js:38 | `checkNavigation` changes nothing and posts nothing while `href` is unchanged. |
| Content.CheckChangedUrl | content.js:38-56 | After a changed href, `lastUrl` is that href. On a watch path exactly one signal is posted: "new video" with the id (which becomes `lastVideoId`) exactly when the id differs, otherwise "watch URL changed" with `lastVideoId` kept. Off a watch path `lastVideoId` becomes null and nothing is posted. |
| Content.CheckAgreesWithPage | content.js:38-55 | After a check, `lastUrl` is the current href, and `lastVideoId` is the path's id on a watch path and null elsewhere. |
| Content.CheckTwice | content.js:37-57 | A second check at the same location does nothing. |
| Content.NodesSignalsSpec | content.js:83-99 | The signals for a node list are exactly those of its nodes. |
| Content.ObserverSignalsHas | content.js:81-101 | The observer posts a reason if and only if some added node of some mutation posts it. |
| Content.ObserverSignalsSpec | content.js:81-101 | The observer posts "player container detected" if and only if some added node is a player container. It posts "video element detected" if and only if some added node is or contains a video: exactly when the injected script's own observer rehooks. |
| Content.BothSignals | content.js:86-97 | A node that is both a player container and a video posts both signals, container first. |
| Content.DeliverRehooks | content.js:31-34 | Each posted signal costs the injected script exactly one rehook and leaves it unhooked, and its state stays well formed. |
| ContentState.ContentScript.Load | content.js:21-114 | The script starts with the tracker of `Content.Start` and nothing posted. |
| ContentState.ContentScript.SignalReinit | content.js:31-34 | `signalReinit` appends one message and changes no tracker state. |
| ContentState.ContentScript.CheckNavigation | content.js:37-57 | `checkNavigation` updates the tracker and appends its signals as `Content.CheckNavigation` (spec: CheckChangedUrl). |
| ContentState.ContentScript.ObserveNode | content.js:84-98 | One added node appends its signals in order. |
| ContentState.ContentScript.ObserveNodes | content.js:83-99 | The loop over a mutation's added nodes appends their signals in order. |
| ContentState.ContentScript.Observe | content.js:81-101 | The observer callback appends `Content.ObserverSignals` of the batch (spec: ObserverSignalsSpec). |

## Left out

- The screen, user-agent, vendor, platform, HDCP-property and WebGL spoofs (inject.js:72-83, 199-244) are constant getters with no logic.
- Console logging, browser detection and the startup banners (inject.js:10-42, 912-933) are diagnostics only.
- Stats posting and the `video` element monitor (`videoObserver`, inject.js:48-66, 734-773) are not modelled, nor the `currentStats` fields the navigation handlers set (inject.js:810, 815, 841, 908); they only feed the stats overlay.
- Script injection (content.js:5-15) and the observer start-up retries (content.js:104-111, inject.js:874-890) are DOM plumbing.
- The asynchronous parts of `decodingInfo`, `requestMediaKeySystemAccess` and the wrapped player methods (inject.js:152-192, 494-517) are left out. `decodingInfo` is modelled on its settled result, and `hookCadmium` only by its `cadmiumHooked` flag, with the player's presence as an input.
- The hook interval's `patchConfigValues(window.netflix)` (inject.js:895-897) and hookCadmium's namespace walk (inject.js:526 onwards) need the page's objects. The timer model records only their effect on the flags and the queue.
- Real JSON and base64 are parameters of the hooks (`parse`, `stringify`, `toText`, `atob`, `btoa`); `replacer` and `space` are folded into `stringify`.
- Interception.StringifyHook: `stringify` is a total parameter, so the `TypeError` of serializing a cyclic object graph is not modelled. At inject.js:552 that throw escapes the hook, so Interception.StringifyInjectsProfiles assumes a serializable value. Inside the `TextEncoder` hook (inject.js:643, 682-683) the throw would leave the input unchanged, which Encode.EncodeHook and Encode.EncodeHookFixed do not model either.
- Real timers, `MutationObserver`, `history` and `popstate` are replaced by explicit events and a queue of pending timers. The 200 ms intervals are events of their own, not queue entries.
- content.js's 50 ms delay before `checkNavigation` after a history call or `popstate` (content.js:63-78) is modelled as a direct call.
- The reason strings of content.js's messages are the `Reason` datatype, not their text.
- Numbers are integers, so fractional bitrates and NaN from `Number` arithmetic are not modelled (the `get` trap's NaN is).
- `toLowerCase` folds ASCII letters only.
- Classifier.NumberRuleIdempotent: holds only for a name of one numeric family. A name that is both a height and a bitrate name is raised twice (Classifier.MultiFamilyTwoPasses), and for every name Classifier.NumberRuleSettles bounds the passes to three.
- Walk.ValueRuleIdempotent: holds only for a name of one numeric family, for the same reason as Classifier.NumberRuleIdempotent.
- Walk.ValueRule: uses the corrected numeric rule, so a bandwidth name without "min" holding a value in [1280, 3840) gets 16000 where the source writes 3840. Classifier.RulesDiffer shows that this is the only difference.
- Hooks.DescriptorRule: uses the corrected numeric rule, with the same bandwidth difference on [1280, 3840) as Walk.ValueRule.
- Interception.DefineEntries: uses the corrected numeric rule, with the same bandwidth difference on [1280, 3840) as Walk.ValueRule.
- Walk.KeyStepRaises: states an upper bound that holds for every key, nested objects and frozen objects included. The exact value for a non-object property of a writable object is in Walk.KeyStepApplies.
- Interception.DefineEntriesRaises: states an upper bound that holds for any descriptors. The exact values for separate, writable descriptors are in Interception.DefineEntriesApply.
- Arrays are values without identity, so `_patched` holds only objects. The source never recurses into an array it reaches through a key, so this matters only for a top-level array value, which is walked by its elements.
- Walk.Patch: a top-level array is not added to `_patched`, while the source adds it (`typeof [] === 'object'`, inject.js:279-280). When the same array is patched again, the source returns at once; the model walks its elements again, which reaches an object element added since the first pass.
- Patcher.ConfigPatcher.PatchValue: inherits the top-level array difference of Walk.Patch.
- Getter invocation, `this` binding and the monkey-patching itself are left out. Each hook is a function from its inputs to what it passes on.

## Findings

| source | as written | input that shows it | evidently intended | confidence | as-written member | corrected member |
|---|---|---|---|---|---|---|
| inject.js:309-312 | The width rule matches any key containing "width", so "bandwidth" passes it, and since its assignment comes last it overrides the bitrate rule. | `bandwidth = 2000` becomes 3840 (a bandwidth of 3840 kbps). A second pass then raises it to 16000. | Bandwidth keys follow the bitrate rule alone, so 2000 becomes 16000 at once. | not executed | Classifier.BandwidthShadowedAsWritten | Classifier.BandwidthFollowsBitrate |
| inject.js:614 | The `TextEncoder` hook calls `JSON.parse`, which is by then the hooked parse (inject.js:700-728). Its deep patch already completes the parsed `profiles`, so `modified` stays false and the original text is encoded. | A request text over 100 UTF-16 code units with a `profiles` array missing 4K entries and no `videoOutputInfo` array. | The hook's own profile injection sees the request as the page built it, and the rewritten request is encoded. | not executed | Encode.HookedParseMasksInjection | Encode.FixedHookInjectsProfiles |
| inject.js:646-651 | The message-layer chunk branch runs only in the `catch` of the first `JSON.parse`, and it then parses the same input again, which throws again. | Any unparseable input passing the outer gate; and any chunk text that does not mention `"profiles"`, `"viewableIds"` or `"lookupType"` never reaches the branch. | A parseable chunk with base64 `data` carrying a manifest request gets that request rewritten and stored back. | not executed | Encode.EnvelopeBranchDead | Encode.FixedHookRewritesEnvelope |
