# ServerBee: the push relay and the small parsers, verified

This project models two parts of the ServerBee repository in Dafny and proves what they promise.

**The push relay** (`apps/push-relay/src`) forwards encrypted notifications to Apple. Any number of requests interleave
in one isolate and share a slot count, three rate limiters and one cached transport.

- `Limits.dfy`: the bounded fixed-window limiter, as a class, against an unbounded history of admissions. `Clocks.dfy`:
  exactly which clock readings and limits it keeps its budgets for.
- `Relay.dfy`: `fetch` as atomic steps between its `await`s, as a class whose methods are those steps, and the state
  machine of all interleavings. `Requests.dfy`: what each request is answered, from the stream of its body on.
- `Transport.dfy`: the single-flight token cache and the sends that share it, again a class and its state machine.
  `Verdicts.dfy`: what each send is told, by what happened to it.
- `Delivery.dfy`: the relay and its transports in one machine, from a request's charge to what its client is told.
- `Body.dfy`: the bounded read of a chunk stream. `Wire.dfy`: validation and the sizes of what is sent.
  `Validation.dfy`, `Uuids.dfy`: exactly which requests are accepted, and as what.
- `Base64.dfy`: canonical base64 and its unpadded form (sections 3.5, 4 and 5 of RFC 4648), used by relay and device.
- `Envelope.dfy`: how the device opens and shows a notification, with 64-bit times. `Acceptance.dfy`: exactly which
  contents it accepts.

**The parsers and checkers** of the documentation site and the repository's scripts.

- `CssText.dfy`, `CssGrammar.dfy`, `Stylesheet.dfy`: strings and comments, the grammar of nested blocks with the stack
  machine that decides it, and the loop of `cssBlocks` proved equal to that machine. `CssLexing.dfy` proves that the
  strings and comments are the only ones there can be, and `StylesheetLaws.dfy`, `StylesheetPrint.dfy` and `Nesting.dfy`
  what the block tree says about the text.
- `Theme.dfy`, `ThemeLaws.dfy`: declarations and the cascade. `Color.dfy`, `ColorLaws.dfy`: colors over real numbers.
- `Braces.dfy`, `BracePatterns.dfy`, `BraceExpansion.dfy`: brace expansion by text replacement, and what it means.
  `Replacing.dfy`: what a replacement text stands for.
- `Utf8.dfy`, `Query.dfy`, `QueryLaws.dfy`: query strings at the level of bytes. `Ranking.dfy`, `RankingLaws.dfy`: the
  order of search results.

A function of the source that only computes is a Dafny function; one that loops or updates is a method or a class, and
its contract equates it with a function or relation about which the laws are proved. What each main operation computes
is also stated without that function: by the places in the text, the fields of the value, or what has happened in the
run. Time, randomness, the network and
cryptography are parameters or events: a clock reading is an argument of the step that makes it, and "a clock that does
not go back" is always a stated assumption.

Five statements one might expect are false of the code. Each has a concrete input and the exact condition under which
it holds; one condition leaves a remainder, which is named.

- A limiter with a limit under 1 still admits one call a window, and a clock that goes back can reset its counters
  (`Limits.BudgetNeedsItsAssumptions`). The limits kept are exactly those from 1 on (`Clocks.LimitKeptIffPositive`).
  Clock readings keep a window to a limit exactly if the window does not recur once it was left, or has no more readings
  than the limit (`Clocks.BudgetIffUninterrupted`), so they keep all budgets exactly if no window recurs
  (`Clocks.AllBudgetsIffNoReturn`).
- After a failed key import, no later signing can succeed: the rejected promise stays cached
  (`Transport.RejectedKeyStays`). A token can still be made exactly if the key is well formed and not rejected
  (`Transport.RetryPossibleIff`).
- Chunks of no bytes count towards the limit on chunks, so chunking matters (`Body.EmptyChunksMatter`); without them it
  does not, and `Body.ReadChunks` gives the outcome with them.
- Content inside its delivery window is refused by a clock within a minute of the largest 64-bit number
  (`Envelope.RoomCanLack`), and by no other (`Envelope.WindowNeedsRoom`).
- Brace expansion need not end, and may leave braces. A group one of whose options holds `$&` stands for itself for ever
  (`Braces.EchoNeverEnds`), and solid patterns are expanded to the end exactly if they hold no `$&` in a group
  (`BraceExpansion.EndsIffNoEcho`). That is for groups whose dollar signs are each followed by `&` or by a character that
  makes nothing special with them; nothing is stated for ``$` ``, `$'` and `$$` inside a group, and for a dollar sign
  there right before a brace or a comma, which may come to stand before another character. No brace is left exactly if
  no group without a choice can stand for nothing (`BraceExpansion.NoBraceLeftIffSolid`).

One more concerns colors that the notation rules out, as `hslNotation` has no minus sign: the formula is that of the
color wheel exactly for hues from -60 degrees on, and for grays (`Color.HslIsSectorIff`, `Color.NegativeHueIsWhite`).

## Model

| member | source | states |
|---|---|---|
| `Limits.WindowLimiter.Allow` | apps/push-relay/src/limits.ts:19-42 | the answer and the whole new map are those of the specification, from the old map, for every key, limit and time |
| `Limits.WindowLimiter.DeleteStale` | apps/push-relay/src/limits.ts:30-34 | the sweep deletes exactly the entries of other windows |
| `Limits.DecideRefines` | apps/push-relay/src/limits.ts:19-42 | on a clock that does not go back the bounded map decides as the full history of admissions does, and goes on agreeing with it: stored counts are the admissions of their window |
| `Limits.LimiterRefinesIdeal` | apps/push-relay/src/limits.ts:4-43 | over every such run the limiter admits exactly what the history-based counter admits (a key already admitted in the window by its limit, a new one by the number of keys in the window), and never holds more than its slots |
| `Limits.WindowBudget` | apps/push-relay/src/limits.ts:22-28 | no window admits a key more than its limit, or once for a limit under 1 |
| `Limits.SpanBudget` | apps/push-relay/src/limits.ts:20-28 | any span of one window's length admits a key at most twice its limit |
| `Limits.WindowIs` | apps/push-relay/src/limits.ts:20 | windows start at the multiples of their length |
| `Limits.BudgetNeedsItsAssumptions` | apps/push-relay/src/limits.ts:40-41 | two runs: with a clock that goes back, and with a limit of 0, a key gets past its limit |
| `Clocks.BudgetIffUninterrupted` | apps/push-relay/src/limits.ts:19-42 | clock readings keep a window to a limit, whatever the keys and the limits up to it, if and only if the window does not recur once it was left or has no more readings than the limit |
| `Clocks.AllBudgetsIffNoReturn` | apps/push-relay/src/limits.ts:19-42 | clock readings keep every window to every limit if and only if no window recurs once it was left |
| `Clocks.LimitKeptIffPositive` | apps/push-relay/src/limits.ts:22-28 | a limit is kept in every window of every run on a clock that does not go back if and only if it is at least 1 |
| `Relay.Isolate.constructor` | apps/push-relay/src/relay.ts:165-169 | a new isolate is the initial state of the machine |
| `Relay.Isolate.Fetch` | apps/push-relay/src/relay.ts:188-210 | the part of `fetch` before its first `await` is one step of the machine: reply, counters, slot and state |
| `Relay.Isolate.ReadRequest` | apps/push-relay/src/relay.ts:126-136 | what follows the body's arrival is one step: the verdict on the request, and nothing else changes |
| `Relay.Isolate.Proceed` | apps/push-relay/src/relay.ts:213-219 | from the first `await` to the second is one step: refusal, target budget or hand-over to the transport in use |
| `Relay.Isolate.Sender` | apps/push-relay/src/relay.ts:170-181 | the transport is kept while the configuration is the same and is replaced by a new one when it is not |
| `Relay.Isolate.GiveBack` | apps/push-relay/src/relay.ts:222-224 | the `finally` gives back exactly one slot, that of this request |
| `Relay.Isolate.Deliver` | apps/push-relay/src/relay.ts:219-224 | the answer of the transport ends the request and gives its slot back |
| `Relay.ReachableInv` | apps/push-relay/src/relay.ts:165-224 | in every reachable state of every interleaving the invariant of slots, limiters, traffic and transports holds |
| `Relay.SlotAccounting` | apps/push-relay/src/relay.ts:194-224 | in every reachable state `active` is the number of requests in flight and at most 32, and every slot ever taken is either held by one request or was released exactly once |
| `Relay.EveryOutcomeReleases` | apps/push-relay/src/relay.ts:211-224 | every step of a request that holds a slot, whatever its outcome, takes it closer to giving the slot back, and moves no other request |
| `Relay.SomeStepApplies` | apps/push-relay/src/relay.ts:211-224 | a request that holds a slot is never stuck |
| `Relay.BusySpendsNothing` | apps/push-relay/src/relay.ts:194-196 | a request is refused as busy exactly when 32 slots are taken, and that spends no budget |
| `Relay.WindowBudgets` | apps/push-relay/src/relay.ts:197-218 | in every reachable state each window has at most 600 gate admissions, 120 for each client and 60 for each target |
| `Relay.WindowKeys` | apps/push-relay/src/relay.ts:165-219 | in every reachable state a window holds at most 601 clients and 632 targets, so neither map of 4096 ever runs out of slots |
| `Relay.LimitersAreUnbounded` | apps/push-relay/src/relay.ts:165-218 | in every reachable state all three limiters answer as unbounded counters per key and window would |
| `Relay.WhoGetsASlot` | apps/push-relay/src/relay.ts:188-210 | which requests get a slot, and which counters a request is charged to, in terms of the unbounded counters |
| `Requests.FetchAnswers` | apps/push-relay/src/relay.ts:188-210 | in every reachable state, the one answer to a request as it comes in, in terms of the unbounded counters, or that it gets a slot with its own configuration and environments |
| `Requests.JudgeExactly` | apps/push-relay/src/relay.ts:111-137 | which reply each body gets, and that it is accepted as a request exactly if it is the JSON of that request, holds what it must, is for an enabled environment and not expired |
| `Requests.UploadAccepted` | apps/push-relay/src/relay.ts:112-137 | for every stream: it is accepted as a request if and only if it ends within the cap on reads after at most 8192 bytes that are such JSON |
| `Requests.UploadRefused` | apps/push-relay/src/relay.ts:117-123 | it is too large exactly if more than 8192 bytes come, and timed out exactly if it is aborted before it ends |
| `Requests.UploadIsJudged` | apps/push-relay/src/relay.ts:212 | the verdict is for the environments the request came in with, and its configuration goes on |
| `Requests.RefusalIsAnswered` | apps/push-relay/src/relay.ts:213-224 | a refused request is answered with its refusal, spends no target budget and gives its slot back |
| `Relay.WhoIsHandedOver` | apps/push-relay/src/relay.ts:213-219 | an accepted request is handed over exactly when its target is under budget, with its own configuration, reusing the transport if that is the same |
| `Relay.AcceptedIsCurrent` | apps/push-relay/src/relay.ts:126-136 | an accepted request is valid, for an enabled environment, and expires within the next 1800 seconds |
| `Relay.TargetKeysDiffer` | apps/push-relay/src/relay.ts:216 | different (environment, token) pairs have different target keys |
| `Transport.ApnsTransport.Authorization` | apps/push-relay/src/apns.ts:89-119 | a call answers from the cache, joins the flight under way or starts one: a step of the machine |
| `Transport.ApnsTransport.ContinueWithKey` | apps/push-relay/src/apns.ts:110-114 | a flight goes on when the key import settles |
| `Transport.ApnsTransport.ContinueWithSignature` | apps/push-relay/src/apns.ts:115-117 | a signature becomes the cached token, made at the time the flight began |
| `Transport.ApnsTransport.Return` | apps/push-relay/src/apns.ts:119-124 | a caller gets its flight's result, and only the flight's first caller clears it |
| `Transport.RunKeeps` | apps/push-relay/src/apns.ts:67-189 | the invariant of flights, tokens, key and sends holds over every run of events |
| `Transport.OneInFlight` | apps/push-relay/src/apns.ts:94-97 | at most one signing operation is under way, and it is the one new callers join |
| `Transport.FinallyClearsItsOwn` | apps/push-relay/src/apns.ts:119-123 | the `finally` of a first caller clears its own flight and never another's |
| `Transport.SettledForever` | apps/push-relay/src/apns.ts:97-124 | a settled flight never changes again |
| `Transport.SameResultForAll` | apps/push-relay/src/apns.ts:94-124 | all callers of a flight get the same token or the same failure, whenever they wake |
| `Transport.CacheAnswers` | apps/push-relay/src/apns.ts:90-93 | the cache answers exactly while the last token made is under 3000 seconds old, with that token |
| `Transport.TokensAreSpaced` | apps/push-relay/src/apns.ts:91-117 | on a clock that does not go back, tokens are made at least 3000 seconds apart |
| `Transport.NetworkIsGuarded` | apps/push-relay/src/apns.ts:126-170 | what reaches the network is unexpired then, carries a token that was made, and goes out at most once |
| `Transport.AbortedStaysAway` | apps/push-relay/src/apns.ts:149-151 | a send with a verdict keeps it and never reaches the network afterwards |
| `Transport.VerdictsAreGrounded` | apps/push-relay/src/apns.ts:141-188 | a verdict that only the provider can give belongs to a send that went out; which one it is, `Verdicts.VerdictsAreDue` states |
| `Verdicts.VerdictsAreDue` | apps/push-relay/src/apns.ts:36-57 | in every run a send has a verdict exactly once something calls for one, and it is the one due: `Accepted` only for a status of 200, `Unregistered` for 410 with that reason, `Retryable` for 429 and 500 to 599, `Mismatch` and `Rejection` for the rest by the reason, `NetworkUnavailable` for an abort, no answer or any other status, `Expired` and `NotConfigured` exactly for a passed expiry and a missing token |
| `Verdicts.OutIffInTime` | apps/push-relay/src/apns.ts:126-170 | in every run a send has gone out exactly if its expiry had not come at either of its two clock readings |
| `Verdicts.HeldSendGoesOut` | apps/push-relay/src/apns.ts:148-170 | in every reachable state a send that holds a token goes out with it if it is neither settled nor expired, and otherwise is over |
| `Verdicts.EverySendEnds` | apps/push-relay/src/apns.ts:89-188 | in every reachable state whatever a send waits for, however it turns out, brings it closer to its end |
| `Transport.RetrySucceeds` | apps/push-relay/src/apns.ts:97-124 | after a failed flight was cleared the next send starts its own and can get a token |
| `Transport.RetryPossibleIff` | apps/push-relay/src/apns.ts:98-124 | in every reachable state, with a flight under way or failed or none, some continuation makes a token if and only if the key is well formed and its import has not failed |
| `Transport.RejectedKeyStays` | apps/push-relay/src/apns.ts:98-106 | after one failed key import nothing that can follow makes a token |
| `Delivery.ToldOnlyOfDeliveries` | apps/push-relay/src/relay.ts:211-224 | in every run of relay and transports together, a client told a verdict that only the provider can give has a request that was charged to its target, went out exactly once, before it expired and with a token that was made, and was answered so: accepted exactly for a status of 200 |
| `Delivery.ChargesAreApart` | apps/push-relay/src/relay.ts:216-219 | no two requests handed over share a charge or a send, so each delivery spends budget of its own |
| `Body.ReadBytes` | apps/push-relay/src/body.ts:45-95 | for every stream, endless ones included, the outcome is the one its reads call for, after at most `maxBytes` + 2 reads; without a body it is empty |
| `Body.OutcomeExactly` | apps/push-relay/src/body.ts:71-87 | the content is complete if and only if some read within the cap is the end of the stream and all before it delivered bytes, together that content and at most `maxBytes`; a failure, an abort, something else than bytes or a chunk too many or too large decides otherwise exactly if it is what follows such reads |
| `Body.ReadChunks` | apps/push-relay/src/body.ts:71-87 | the outcome for every list of chunks: too large, too many chunks, or the exact content |
| `Body.ChunkingDoesNotMatter` | apps/push-relay/src/body.ts:71-87 | without empty chunks the outcome depends on the content alone and is never `invalid` |
| `Body.EmptyChunksMatter` | apps/push-relay/src/body.ts:77-81 | with empty chunks it does not: two chunkings of nothing with different outcomes |
| `Wire.AcceptedPayloadFits` | apps/push-relay/src/apns.ts:130-140 | every request `validate` accepts makes a payload of at most 4096 bytes, so `PayloadTooLarge` cannot come up |
| `Wire.AcceptedRequestFits` | apps/push-relay/src/relay.ts:40-74 | every accepted request in its compact form fits in the 8192 bytes the relay reads |
| `Wire.Utf8LengthIsSize` | apps/push-relay/src/apns.ts:140 | the size of a text is the number of bytes of its UTF-8 encoding |
| `Wire.DeviceSizesPass` | apps/push-relay/src/relay.ts:60-69 | every nonce and ciphertext size the device opens passes the relay's checks |
| `Validation.AcceptedExactly` | apps/push-relay/src/relay.ts:40-74 | a value is accepted as a request if and only if its fields are exactly the five of that request, each under its name, and every check holds: an even number of 2 to 1024 lower-case hexadecimal digits, one of the two environments, an identifier, an expiry in range and at most 1800 seconds away, a valid envelope |
| `Validation.EnvelopeExactly` | apps/push-relay/src/relay.ts:60-72 | an envelope is valid if and only if its fields are exactly the version 1, an identifier, 64 hexadecimal digits and the base64 of a nonce of 12 bytes and a ciphertext of 16 to 2070 |
| `Validation.RequestOfAccepted` | apps/push-relay/src/relay.ts:44-73 | a request made of given values is accepted as those values if they pass the checks, and refused if any does not |
| `Uuids.UuidIffGroups` | apps/push-relay/src/relay.ts:12 | an identifier is five groups of hexadecimal digits, of 8, 4, 4, 4 and 12, with dashes between them |
| `Wire.ExactlyTheseKeys` | apps/push-relay/src/relay.ts:24-32 | the shape check admits no key but the listed ones |
| `Base64.DecodeEncode` | apps/push-relay/src/relay.ts:37-38 | decoding undoes encoding for every byte string |
| `Base64.DigitsAreBits` | apps/push-relay/src/relay.ts:37-38 | four digits are the bits of three bytes in order, and with padding those of two or one |
| `Base64.CanonicalIffEncoding` | apps/push-relay/src/relay.ts:33-39 | the check accepts exactly the encodings of byte strings whose length is in bounds: the length test rejects no good value |
| `Base64.Base64Url` | apps/push-relay/src/apns.ts:58-64 | the result is in the URL alphabet, and padded again it is canonical base64 that decodes to the bytes |
| `Base64.UrlTextIsUnique` | apps/push-relay/src/apns.ts:58-64 | no other string has both properties |
| `Base64.Repad` | apps/ios/NotificationShared/PushEnvelope.swift:91-92 | the re-padding restores the plain alphabet and the length |
| `Base64.UrlRoundTrip` | apps/ios/NotificationShared/PushEnvelope.swift:91-93 | stripping and re-padding gives every byte string back, in canonical form |
| `Envelope.CheckAlert` | apps/ios/NotificationShared/PushEnvelope.swift:89-96 | whatever bytes a key is made from, the alert is valid exactly if its status is one of the two, the key is at most 4099 characters long and the platform reads those bytes as four parts of which the first two and the last are not empty |
| `Envelope.AlertKeyIsRead` | apps/ios/NotificationShared/PushEnvelope.swift:89-96 | a key made from some bytes is read as exactly those bytes, so it is valid exactly if they are four parts of which the first two and the last are not empty |
| `Envelope.DeliveryWindow` | apps/ios/NotificationShared/PushEnvelope.swift:137-146 | delivery accepts authentic content exactly from a minute before its creation until half an hour after; a tap, without an end; no sum overflows unnoticed |
| `Envelope.DeliveryIsTimelyTap` | apps/ios/NotificationShared/PushEnvelope.swift:124-163 | delivery accepts exactly what a tap accepts before the content expires |
| `Envelope.WindowNeedsRoom` | apps/ios/NotificationShared/PushEnvelope.swift:138-145 | inside the window content is accepted if and only if the clock can be moved a minute ahead |
| `Envelope.RoomCanLack` | apps/ios/NotificationShared/PushEnvelope.swift:138-145 | a time in the window of some content at which it is refused |
| `Acceptance.AcceptedExactly` | apps/ios/NotificationShared/PushEnvelope.swift:118-163 | content is accepted if and only if a box of version 1, for the named key and of the right sizes opens to it, it belongs to this device by each of its five marks, is of one of the five kinds, lives half an hour, and the clock is in its window |
| `Acceptance.SealedIsAccepted` | apps/ios/NotificationShared/PushEnvelope.swift:118-163 | content of each of the five kinds that is sealed for this device is accepted in its window |
| `Acceptance.OpensExactly` | apps/ios/NotificationShared/PushEnvelope.swift:121-131 | which bytes are the secret, the nonce, the ciphertext and the tag, and for which sizes anything is opened |
| `Acceptance.TargetIsExactly` | apps/ios/NotificationShared/PushEnvelope.swift:147-161 | the parts a content may have, for each kind: none; an alert; a run whose counts add up to at most its targets, to nothing exactly for a success, and whose id is the event; a server and a security event that is the event |
| `Acceptance.AlertIsExactly` | apps/ios/NotificationShared/PushEnvelope.swift:89-96 | an alert is valid exactly by its status, the length of its key and the four parts the key was made from |
| `Envelope.KindsAgree` | apps/ios/NotificationShared/PushEnvelope.swift:147-161 | the optional parts of accepted content are exactly those of its kind |
| `Envelope.ShownRun` | apps/ios/NotificationShared/PushEnvelope.swift:68-75 | the counts of a valid run add up to at most its targets without overflow, and to nothing exactly for a success |
| `Envelope.Describe` | apps/ios/NotificationShared/PushEnvelope.swift:218-240 | the branch picked from the parts gives the title and text of the content's kind |
| `Envelope.Render` | apps/ios/NotificationShared/PushEnvelope.swift:207-243 | the new notification shows accepted content by its kind, with it as the target; a fallback has no target |
| `CssText.CssStringEnd` | apps/docs/scripts/check-contracts.ts:120-126 | the string ends past the first quote like its own before which an even number of backslashes stands, and past the text exactly if there is none |
| `CssText.WithoutCssComments` | apps/docs/scripts/check-contracts.ts:129-147 | the loop gives the text of the tokens with a space for each comment |
| `CssText.TextOfTokens` | apps/docs/scripts/check-contracts.ts:129-147 | reading any text into strings, comments and characters loses nothing |
| `CssLexing.ReadingIsUnique` | apps/docs/scripts/check-contracts.ts:119-147 | a list of strings, comments and characters is what a text is read into if and only if it spells the text, each string and comment ends where it first can, and no other character starts one |
| `CssText.TokensWithoutComments` | apps/docs/scripts/check-contracts.ts:128-147 | the result is read as the same tokens with a space for each comment: every string stays as it is |
| `CssText.NoCommentIsLeft` | apps/docs/scripts/check-contracts.ts:128-147 | no comment is left, not even one put together by the removal of another |
| `CssText.WithoutCommentsIsIdempotent` | apps/docs/scripts/check-contracts.ts:129-147 | removing comments twice changes nothing more, for all texts |
| `CssGrammar.ParseExact` | apps/docs/scripts/check-contracts.ts:159-200 | the stack machine finds a reading of the tokens as nested blocks if and only if there is one, and there is at most one |
| `CssGrammar.ParseIffBalanced` | apps/docs/scripts/check-contracts.ts:177-198 | the machine succeeds exactly on balanced braces |
| `Stylesheet.CssBlocks` | apps/docs/scripts/check-contracts.ts:159-200 | the loop with its stack of open blocks and its text positions computes the block tree of the machine's reading |
| `StylesheetLaws.TreeIffBalanced` | apps/docs/scripts/check-contracts.ts:159-200 | there is a block tree exactly when the braces outside strings and comments balance |
| `StylesheetLaws.TreeIsTheReading` | apps/docs/scripts/check-contracts.ts:159-200 | the result is the block tree of the one reading of the text, and nothing else is |
| `StylesheetLaws.TreeFitsText` | apps/docs/scripts/check-contracts.ts:149-200 | at every depth the text is the children in order, each in braces after its declarations and raw prelude, `ownBody` is the rest, and a stored prelude is the raw one collapsed |
| `StylesheetPrint.CollapseJoinsWords` | apps/docs/scripts/check-contracts.ts:175 | collapsing whitespace leaves the words with one space between them |
| `StylesheetPrint.CollapseIsIdempotent` | apps/docs/scripts/check-contracts.ts:175 | it keeps the words and changes nothing the second time |
| `StylesheetPrint.PrintedSheetIsReadBack` | apps/docs/scripts/check-contracts.ts:159-200 | every tidy tree of rules that is written out is read back as that tree |
| `StylesheetPrint.ContentIsReadBack` | apps/docs/scripts/check-contracts.ts:159-200 | so is every reading whose tokens stand on their own, strings included |
| `Nesting.ListingIsTheOpenings` | apps/docs/scripts/check-contracts.ts:221-226 | the listing has one entry for each opening brace, in their order, with the preludes of exactly the blocks open there and the text up to the matching brace, as found by a scan without a tree |
| `Theme.CssDeclarations` | apps/docs/scripts/check-contracts.ts:203-218 | a property has the collapsed value of its last declaration, and no other property is there |
| `ThemeLaws.DeclarationIffPair` | apps/docs/scripts/check-contracts.ts:206-207 | a part declares something if and only if it has a colon after at least one character |
| `ThemeLaws.DeclarationExactly` | apps/docs/scripts/check-contracts.ts:208-215 | its property is what stands before the first colon without the whitespace around it, its value the words after it, one space apart |
| `Theme.Themes` | apps/docs/scripts/check-contracts.ts:489-496 | the nested loops give each theme each color from the strongest setting |
| `Theme.CascadeIsLast` | apps/docs/scripts/check-contracts.ts:468-496 | the value is that of the last rule, by strength and then by source order, that applies and sets the color |
| `ThemeLaws.ColorExactly` | apps/docs/scripts/check-contracts.ts:489-496 | a theme has a color if and only if a rule for the theme names the selector of a block that sets it, and it is the value of the last such block for the last such rule |
| `Theme.HasColorIffSet` | apps/docs/scripts/check-contracts.ts:489-496 | a theme has a color exactly when some rule sets it |
| `Strings.SplitJoined` | apps/docs/scripts/check-contracts.ts:205 | the parts of a split text are what is between the marks |
| `Color.HslIsSector` | apps/docs/scripts/check-contracts.ts:264-275 | the channel formula agrees with the six-sector table of chroma for every hue the notation can spell |
| `Color.HslRange` | apps/docs/scripts/check-contracts.ts:264-275 | the channels are in range, with the stated maximum and minimum |
| `Color.HslIsSectorIff` | apps/docs/scripts/check-contracts.ts:264-275 | over all hues the formula agrees with the table if and only if the hue is at least -60 degrees or the color is a gray |
| `Color.NegativeHueIsWhite` | apps/docs/scripts/check-contracts.ts:268-270 | one hue below, where the formula gives white for red |
| `Color.CompositeIsBetween` | apps/docs/scripts/check-contracts.ts:277-284 | painting over gives an opaque color in range, the color itself if that is opaque |
| `ColorLaws.PaintMoves` | apps/docs/scripts/check-contracts.ts:277-284 | painting moves each channel from the ground towards the color by the part `alpha` of the way |
| `ColorLaws.PaintTwice` | apps/docs/scripts/check-contracts.ts:277-284 | painting a color twice is painting it once, leaving the ground the product of what each leaves |
| `Color.ContrastRange` | apps/docs/scripts/check-contracts.ts:287-294 | the ratio is symmetric, from 1 to 21, 1 for equal luminances alone and 21 for the extreme ones alone, for any growing power function that keeps 0 and 1 |
| `ColorLaws.CurveGrows` | apps/docs/scripts/check-contracts.ts:289-290 | with the power 2.4 itself, the curve of a channel grows from 0 to 1, and its two pieces meet to within a hundred millionth |
| `ColorLaws.Primaries` | apps/docs/scripts/check-contracts.ts:291 | the luminance of each primary, and that of a gray is its channel's alone |
| `Color.CheckedContrast` | apps/docs/scripts/check-contracts.ts:505-515 | what the theme check compares is such a ratio for all colors in range |
| `Braces.FindGroup` | scripts/check-agent-navigation.ts:27 | the match is the leftmost non-empty group without braces, and there is none only if there is no such group |
| `Braces.FoundFirst` | scripts/check-agent-navigation.ts:41 | the found text first occurs where it was found, so it is the one replaced |
| `Replacing.ReplacementExactly` | scripts/check-agent-navigation.ts:41 | each of the four dollar patterns of a replacement text stands for its part of the path, and all else for itself |
| `Braces.DepthDoesNotMatter` | scripts/check-agent-navigation.ts:36-42 | the result does not depend on the bound on nested calls |
| `Braces.ExpansionEnds` | scripts/check-agent-navigation.ts:36-42 | if each dollar sign inside braces is followed by a character that makes no special pattern with it, the recursion ends, no deeper than there are opening braces |
| `Braces.EchoNeverEnds` | scripts/check-agent-navigation.ts:36-42 | for every path whose leftmost group has an option with `$&`, each dollar sign of which has `&` or a harmless character after it, the recursion never ends |
| `BraceExpansion.EndsIffNoEcho` | scripts/check-agent-navigation.ts:36-42 | the recursion on a pattern whose groups each stand for something, with such dollar signs, ends at some depth if and only if no group holds `$&` |
| `BraceExpansion.ExpansionIsMeaning` | scripts/check-agent-navigation.ts:36-42 | innermost-first text replacement expands every nested pattern without `$&` in a group to the set of paths it means, as many as the product of the group sizes, without a brace |
| `BraceExpansion.NoBraceLeftIffSolid` | scripts/check-agent-navigation.ts:27-42 | of what is expanded to the end no brace is left if and only if no group without a choice can stand for nothing |
| `BraceExpansion.BranchingIsSolid` | scripts/check-agent-navigation.ts:36-42 | patterns whose groups all offer a choice are such |
| `Utf8.DecodeEncode` | apps/docs/src/router.tsx:15 | text is read back from its UTF-8 encoding by the decoder that never fails |
| `Query.ParseSerialize` | apps/docs/src/router.tsx:23-31 | parsing what was serialized gives the same pairs in the same order |
| `QueryLaws.ParseParts` | apps/docs/src/router.tsx:15 | any query is read as what is between its ampersands, in order, without what is empty |
| `QueryLaws.PairExactly` | apps/docs/src/router.tsx:15 | a pair is split at its first equals sign, and without one has an empty value |
| `QueryLaws.UnescapeExactly` | apps/docs/src/router.tsx:15 | escapes with digits of either case, plus signs and plain bytes are read as the bytes they stand for, and a percent sign without two digits as itself |
| `QueryLaws.CutShort` | apps/docs/src/router.tsx:15 | a character of UTF-8 that is cut short becomes one replacement character |
| `Query.ParseSearch` | apps/docs/src/router.tsx:13-20 | the loop gives every name its values in order, one as a text and more as a list, with the names in the order in which they come first |
| `QueryLaws.RecordExactly` | apps/docs/src/router.tsx:16-19 | a name that comes once has a text, one that comes more often the list of as many texts, and no other name has anything |
| `QueryLaws.ValuesAreThere` | apps/docs/src/router.tsx:16-19 | each pair's value is in the list of its name, after those of the pairs before it |
| `Query.OwnKeysOrder` | apps/docs/src/router.tsx:24 | `Object.entries` lists all the keys, array indices first and ascending, the others as they were inserted |
| `QueryLaws.IndexExactly` | apps/docs/src/router.tsx:24 | the keys that come first are those that are a number under 4294967295 as JavaScript writes it |
| `Query.StringifySearch` | apps/docs/src/router.tsx:22-33 | the nested loops print the pairs of the object in the order of `Object.entries` |
| `QueryLaws.PrintedExactly` | apps/docs/src/router.tsx:31-32 | the text is a question mark and the pairs, or nothing without pairs |
| `Query.ParseOfPrint` | apps/docs/src/router.tsx:13-33 | parsing after printing gives the normal form, for every order of the keys |
| `Query.ParsePrintParse` | apps/docs/src/router.tsx:13-33 | for every query, printing and parsing its params again gives the same params |
| `Query.ParsedStringified` | apps/docs/src/router.tsx:13-33 | what is read back from any object: its normal form, with the keys that hold something in the order in which they were printed, which is the one JavaScript lists them in |
| `Query.PrintIsStable` | apps/docs/src/router.tsx:22-33 | an object that was printed is printed the same after it was parsed, each time in the order JavaScript gives the keys |
| `Query.RedirectsOnce` | apps/docs/src/router.tsx:8-33 | for every query, what its params are printed as is printed as itself and has the same params, so a redirect to it is the last |
| `Ranking.Outranked` | apps/docs/scripts/check-routes.ts:213-235 | nothing is told exactly when the sections of each page and the bests of the pages with sections never rise; otherwise it is the first result that breaks this, or its page |
| `RankingLaws.OrderedByPlaces` | apps/docs/scripts/check-routes.ts:208-212 | in terms of places in the list: on each page no section comes after one that holds less, and no page with sections after one of which every result holds less than its best |
| `RankingLaws.HeldIsCount` | apps/docs/scripts/check-routes.ts:203-206 | a result holds as many words as occur in its text |
| `RankingLaws.ContainsIffOccurs` | apps/docs/scripts/check-routes.ts:205 | a word is held if and only if it stands somewhere in the text |

## Left out

- Real cryptography, key import, PEM decoding and the random or hashed values made from them: success or failure is a
  parameter or an event. HTTP, streams, Keychain and notification delivery are events or arguments too.
- `deadline` and its timer: it is modelled as an abort that may come at any step, without a duration.
- `configuration`, `allowedEnvironments`, `requestHeadersError` and `cloudflareClientIp`: single expressions whose
  results are inputs of a step. What `reject` does to the unread body is left out.
- Headers and URL of the request to Apple, and the decoding of the provider's answer: only its status and reason appear,
  and an answer whose body cannot be read counts as none. Of the relay's own replies only status and reason appear.
- `JSON.parse` and the decoding of the bytes it is given: a function from bytes to values with distinct names.
- The regular expression engine: each pattern is a predicate on the text.
- Body.ReadBytes: the bytes returned are a sequence, so aliasing of a returned view is not modelled.
- Wire.AcceptedPayloadFits: the three fixed texts of the alert are parameters of at most their lengths.
- Base64.Base64Url: `btoa` is the encoding function on the character codes; its alphabet is that of section 4 of RFC 4648.
- Envelope.CheckAlert: the platform's base64 reader is taken to accept the padded language and ignore unused low bits.
- Envelope.Render: the localized strings are constructors, and reading the envelope out of the notification is an argument.
- The collecting of `colorRules` from the block listing, and the error it raises for a selector it does not know.
- Parsing of the numbers in an `hsl()` notation, and the loops that compare each contrast with its minimum.
- Color.ContrastRange: `** 2.4` is any growing function on [0, 1] that keeps 0 and 1; `ColorLaws` takes the power itself,
  as the one whose fifth power is the twelfth.
- Query.ParseSearch: lone surrogates have already become replacement characters, as `URLSearchParams` makes them.
- Query.StringifySearch: values are texts, lists of texts or `undefined`; other values would first go through `String`.
- Ranking.Outranked: a result's text is given lower-cased and without highlight marks.
- Braces.ExpansionEnds: a dollar sign inside braces that is followed by a backquote, an apostrophe, another dollar sign,
  a brace or a comma is left out, here and in BraceExpansion: what it stands for depends on the text around the group.
- Delivery.ToldOnlyOfDeliveries: each request begins its send in the step that hands it over, as `send` does up to its
  first `await`; the transport's reply reaches the client in one step that comes at any time after it.
- Importing of stylesheets, the document and route checks around these functions, the Rust server and agent, and the
  configuration and UI of the apps.
