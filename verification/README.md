# Soclinq chat core in Dafny

This project models the chat subsystem of Soclinq, a community-safety
platform. The model covers the Django back end's hub and private-chat logic
and the React front end's chat state logic. It is written as immutable
datatypes with pure functions, and the properties the code promises are
proved about them.

**Back end (Python).**

- `Cursor`, `HubHistory`, `CommunityCreate`: the community views. These are:
  - the opaque base64 cursor over `(created_at, id)`;
  - keyset pagination of a hub's messages, with membership gates;
  - posting a hub message;
  - creating a LOCAL hub under the user's district SYSTEM hub.
- `Location`, `HubSerializer`: the community services. These are:
  - strict and nearest administrative-unit resolution;
  - the confidence grade;
  - the tombstone serializer for deleted hub messages.
- `PrivateChat`: the private-chat consumer, which covers:
  - connect gates;
  - frame dispatch;
  - the per-(message, user) receipt ledger (`delivered_at`, `read_at`);
  - broadcast with sender-echo suppression.
- `HubChat`: the hub-chat consumer, which covers:
  - connect gates;
  - dispatch of send, typing and seen frames;
  - the broadcast exclusion rule.
- `Accounts`, `Otp`: the account views, which cover:
  - the profile patch;
  - phone OTP send and verify;
  - username claim;
  - quiet hours;
  - the emergency-contact cap;
  - `OTP.is_expired`.

**Front end (TypeScript).**

- `ThreadEvents`: the WebSocket event reducer of a chat thread. It reconciles
  optimistic messages, receipts, reactions, edits and deletes.
- `WsClient`: the socket client, which covers:
  - clamped reconnect delay;
  - the bounded offline queue;
  - FIFO flush;
  - acknowledgement tracking;
  - typing start and stop.
- `Reactions`: one reaction per user.
- `ChatPanel`: the community chat panel's helpers, which cover:
  - edit and delete windows;
  - the recent-emoji list;
  - range selection;
  - reaction counters.
- `InboxSelection`, `UiController`, `ChatUI`: the selection and UI-mode state
  machines.
- `Hydration`: cache merge and capping.
- `NormalizeHub`: hub normalisation.
- `Severity`: risk scoring.
- `RetryQueue`: the message retry queue.
- `Register`: the registration form validators.
- `Notifications`: the capped notification list.
- `Receipts`: the batched delivery and read receipts.

**Shared support modules.**

- `Json` models JSON values and the Python and JavaScript truthiness rules.
- `Text` models whitespace trimming and splitting.
- `Base64Url`, `IsoTime` and `UuidText` model the text forms the cursor is
  built from.
- `Queries` holds filter, stable sort and reverse.
- `ChatTypes` holds the chat message record shared by the front-end hooks.

**How effects are modelled.**

- The database, the channel layer and the socket are explicit values: a
  consumer answers a frame with a list of outputs.
- Clocks, generated ids and random numbers are parameters.
- React state setters are functions from the old state to the new one.
- Timers and asynchronous requests are separate steps: a request becomes a
  begin step and a finish step.

## Model

| member | source | states |
|---|---|---|
| Cursor.Decode | soclinq_backend/backend/community/views.py:28-37 | a cursor decodes to a pair exactly when it is valid base64 of ASCII text containing a `\|`; every other input gives `None` (the `(None, None)` of the source) rather than an exception, and a decoded pair rejoins with `\|` to the decoded text |
| Cursor.DecodeEncode | soclinq_backend/backend/community/views.py:21-37 | decoding an encoded cursor yields exactly the ISO timestamp and the canonical UUID text of the row it was made from |
| Cursor.SplitAtBar | soclinq_backend/backend/community/views.py:31-33 | `split("\|", 1)` splits at the first bar: no bar means failure, the parts rejoin to the input and the first part holds no bar |
| Cursor.SplitJoined | soclinq_backend/backend/community/views.py:31-33 | splitting `a\|b` gives back `(a, b)` whenever `a` has no bar |
| Cursor.AsciiRoundTrip | soclinq_backend/backend/community/views.py:21-33 | UTF-8 encoding then decoding of ASCII text is the identity |
| Cursor.Encode | soclinq_backend/backend/community/views.py:21-26 | a cursor is non-empty base64 text in whole groups of four, which `DecodeEncode` reads back |
| Base64Url.DecodeEncode | soclinq_backend/backend/community/views.py:21-37 | urlsafe base64 decoding inverts encoding for every byte string |
| Base64Url.EncodeAlphabet | soclinq_backend/backend/community/views.py:21-26 | encoded text uses only the urlsafe alphabet and `=` padding, in groups of four |
| IsoTime.ParseFormat | soclinq_backend/backend/community/views.py:408-412 | `fromisoformat` of an aware UTC `isoformat()` string gives back the same instant |
| IsoTime.FormatHasNoBar | soclinq_backend/backend/community/views.py:21-26 | a formatted timestamp holds no `\|`, so the cursor's first field is recovered whole |
| IsoTime.Format | soclinq_backend/backend/community/views.py:436 | `isoformat()` of an aware UTC time is 25 characters, or 32 with microseconds, and ends in `+00:00` |
| IsoTime.Parse | soclinq_backend/backend/community/views.py:410-412 | a parsed time is a valid `datetime`; a date alone reads as midnight exactly when that date is valid |
| IsoTime.ZeroOffsetsAgree | soclinq_backend/backend/community/views.py:410-412 | `Z`, `+00:00`, `-00:00` and no offset all read as the same UTC time |
| UuidText.ParseFormat | soclinq_backend/backend/community/views.py:414 | `UUID(str(id))` gives back the same id |
| UuidText.Format | soclinq_backend/backend/community/views.py:434 | `str(uuid)` is 36 characters |
| UuidText.Parse | soclinq_backend/backend/community/views.py:414 | `UUID(text)` succeeds iff the text, hyphens removed, is 32 hex digits |
| HubHistory.OlderThanIsKeyOrder | soclinq_backend/backend/community/views.py:416-419 | the filter `created_at < t or (created_at == t and id < u)` is exactly "strictly before `(t, u)` in `(created_at, id)` order" |
| HubHistory.OrderKeyInjective | soclinq_backend/backend/community/views.py:398-402 | two messages with the same ordering key have the same primary key, so the order `(-created_at, -id)` has no ties |
| HubHistory.CursorBound | soclinq_backend/backend/community/views.py:405-422 | a cursor gives a bound only when it decodes and both halves parse, the timestamp with a `Z`, `+00:00` or `-00:00` offset, none, or as a date alone; any cursor that does not is ignored and the page starts from the newest message |
| HubHistory.CursorBoundOfEncoded | soclinq_backend/backend/community/views.py:21-37 | the cursor the view emits for a row always yields that row's `(created_at, id)` as the bound |
| HubHistory.Query | soclinq_backend/backend/community/views.py:398-419 | the query result is a permutation of the hub's messages inside the bound, sorted newest first |
| HubHistory.PageRows | soclinq_backend/backend/community/views.py:425-430 | the page holds min(eligible, 30) rows oldest to newest, each eligible and none more often than it is eligible; `has_more` holds iff more than 30 are eligible, and every eligible row left out is older than the page's oldest row |
| HubHistory.PageFacts | soclinq_backend/backend/community/views.py:425-430 | taking the first rows of the newest-first query and reversing them gives ascending rows drawn from the eligible set, with everything left out older |
| HubHistory.Get | soclinq_backend/backend/community/views.py:384-467 | a non-member gets 403 and nothing else does; a member gets at most 30 messages in page order, each with its row's id, text and time, a sender object of id, display name and a null photo, and `isMine` iff it is the requester's; `nextCursor` iff there is more, encoding the oldest row |
| HubHistory.NextCursorResumes | soclinq_backend/backend/community/views.py:425-459 | following `nextCursor` yields exactly the eligible rows not on this page: none is skipped and none repeats |
| HubHistory.NoGap | soclinq_backend/backend/community/views.py:416-430 | every eligible row is either on the page or after the next cursor |
| HubHistory.NoRepeat | soclinq_backend/backend/community/views.py:416-430 | no row of the page is eligible again after the next cursor |
| HubHistory.NextWithin | soclinq_backend/backend/community/views.py:416-419 | the next cursor's rows are a subset of the current bound's rows |
| HubHistory.Views | soclinq_backend/backend/community/views.py:432-448 | the response has one view per row, in row order |
| Community.DisplayName | soclinq_backend/backend/community/views.py:439-440 | `full_name or username`: a blank full name shows the username |
| HubHistory.SenderCard | soclinq_backend/backend/community/views.py:437-442 | the sender object holds the sender's id, display name and a null `photo`, as `User` has no `photo` attribute |
| HubHistory.Post | soclinq_backend/backend/community/views.py:469-521 | a non-string text raises; blank text gets 400 before membership is checked; a non-member gets 403; otherwise the trimmed message is appended, the reply names the poster by id, display name and null photo, and a `message:new` notice naming the sender as `excludeSenderId` is published |
| HubHistory.Notice | soclinq_backend/backend/community/views.py:508-519 | the published `message:new` notice carries the reply's sender object and the sender's id as `excludeSenderId` |
| HubHistory.PostKeepsStore | soclinq_backend/backend/community/views.py:490-494 | posting with a fresh id keeps the store well formed, with valid timestamps and distinct ids |
| HubHistory.SameIdSameRow | soclinq_backend/backend/community/views.py:398-402 | in a well-formed store a primary key names one row |
| CommunityCreate.FindSystemHub | soclinq_backend/backend/community/views.py:296-306 | the lookup finds an active SYSTEM hub of the unit iff one exists |
| CommunityCreate.Create | soclinq_backend/backend/community/views.py:262-330 | the checks come in the source's order with its statuses: missing name, then no district, then LOW confidence, then a location older than 7 days (each 400); a missing SYSTEM hub gives 500; a duplicate name ignoring case gives 400; a name longer than the 255-character column fails at the insert with a 500. Success appends one active LOCAL hub under the SYSTEM hub and one LEADER membership for the creator, and success happens exactly when every check passes |
| CommunityCreate.CreateTwiceRefused | soclinq_backend/backend/community/views.py:309-320 | creating a name again under the same parent, in any letter case, is refused as a duplicate |
| CommunityCreate.SystemHubStable | soclinq_backend/backend/community/views.py:296-330 | adding a LOCAL hub never changes which SYSTEM hub a unit resolves to |
| Location.ByCountry | soclinq_backend/backend/community/services.py:52-76 | the country filter keeps exactly the units of that country, or all units when no code is given |
| Location.LastPerLevel | soclinq_backend/backend/community/services.py:55-57 | the map has a key for each level present, holding a unit of that level |
| Location.StrictUnits | soclinq_backend/backend/community/services.py:43-59 | the strict result has exactly the levels of the intersecting units of the country, one such unit per level |
| Location.FirstPerLevel | soclinq_backend/backend/community/services.py:80-85 | the loop keeps the first unit of each new level and stops at three levels; with fewer than three, every level seen is present |
| Location.NearestUnits | soclinq_backend/backend/community/services.py:69-87 | the nearest resolution holds at most three levels, each a unit within 25 km of that level |
| Location.NearestIsNearest | soclinq_backend/backend/community/services.py:78-85 | the unit kept for a level is the nearest one of that level within 25 km |
| Location.ConfidenceOf | soclinq_backend/backend/community/services.py:107-117 | LOW iff there are no units; HIGH iff levels 0, 1 and 2 are all present without fallback; MEDIUM otherwise |
| Location.SystemHubs | soclinq_backend/backend/community/services.py:93-101 | a level has a hub iff its unit has one, so the hub keys are a subset of the unit keys |
| Location.Resolve | soclinq_backend/backend/community/services.py:119-142 | fallback is used iff the strict result is empty or lacks level 2; the country code comes from the level-0 unit if present, else from the input |
| Location.ConfidenceGrades | soclinq_backend/backend/community/services.py:107-125 | without a strict district the grade is never HIGH, and with strict levels 0, 1 and 2 it always is |
| HubSerializer.Represent | soclinq_backend/backend/community/services.py:254-267 | `hubId` is always set; a deleted message gets empty text, attachments and reactions, type TEXT and a null `myReaction`; every other field passes through unchanged |
| HubSerializer.TombstoneHidesContent | soclinq_backend/backend/community/services.py:259-265 | two deleted messages that differ only in their content serialize identically |
| HubSerializer.RepresentIdempotent | soclinq_backend/backend/community/services.py:254-267 | serializing a representation again changes nothing |
| PrivateChat.Connect | soclinq_backend/backend/websocket/consumers/private_chat.py:19-50 | no user closes with 4001, no conversation with 4002 and a non-member with 4003; otherwise a session opens and `ws:ready` is sent |
| PrivateChat.Receive | soclinq_backend/backend/websocket/consumers/private_chat.py:60-87 | `ping` answers `pong` with the time; an unknown type answers an error frame and changes nothing; a frame without a payload is handled without raising |
| PrivateChat.HandleSend | soclinq_backend/backend/websocket/consumers/private_chat.py:89-147 | a missing `clientTempId` or blank text sends an error and stores nothing; otherwise the trimmed message is stored, the sender gets `message:ack`, and `message:new` is published tagged with the sender's channel |
| PrivateChat.HandleDelivered | soclinq_backend/backend/websocket/consumers/private_chat.py:149-178 | a delivered frame publishes a room event exactly when it changes the tables, and then exactly one `message:delivered` naming the message; a frame that changes nothing publishes nothing |
| PrivateChat.HandleSeen | soclinq_backend/backend/websocket/consumers/private_chat.py:180-213 | a seen frame publishes a room event exactly when it changes the tables, and then exactly one `message:seen` naming the message and reader; a frame that changes nothing publishes nothing |
| PrivateChat.Broadcast | soclinq_backend/backend/websocket/consumers/private_chat.py:215-229 | a payload reaches every channel except the one that sent it |
| PrivateChat.SendSkipsOwnChannel | soclinq_backend/backend/websocket/consumers/private_chat.py:127-143 | after a send, the ack goes to the sender and the broadcast reaches every other channel but not the sender's, with the same message payload |
| PrivateChat.Deliver | soclinq_backend/backend/websocket/consumers/private_chat.py:263-291 | a receipt's delivery time is set only if it was unset, and then nothing else changes |
| PrivateChat.MarkDelivered | soclinq_backend/backend/websocket/consumers/private_chat.py:263-291 | corrected rule (see Findings): the change reports true iff the message exists in the socket's conversation, is someone else's and was undelivered; only that receipt changes, and its read time is kept |
| PrivateChat.MarkDeliveredIdempotent | soclinq_backend/backend/websocket/consumers/private_chat.py:270-279 | marking delivered twice changes nothing the second time and reports false |
| PrivateChat.MarkSeen | soclinq_backend/backend/websocket/consumers/private_chat.py:293-327 | the change reports true iff the receipt lacked a delivery or read time; afterwards both are set, so read implies delivered, and no other receipt changes |
| PrivateChat.MarkSeenIdempotent | soclinq_backend/backend/websocket/consumers/private_chat.py:312-323 | a second `_mark_seen` reports unchanged and changes nothing |
| PrivateChat.SeenTwiceIsSilent | soclinq_backend/backend/websocket/consumers/private_chat.py:322-323 | a repeated seen frame changes nothing and publishes no room event; at most it repeats the first frame's error answer |
| PrivateChat.ReceiveKeepsLedger | soclinq_backend/backend/websocket/consumers/private_chat.py:263-327 | every handled frame keeps the ledger invariant: a read receipt is also delivered, nobody holds a receipt for their own message, and receipts refer to stored messages |
| PrivateChat.SendKeepsLedger | soclinq_backend/backend/websocket/consumers/private_chat.py:89-147 | storing a sent message under a fresh key keeps the ledger invariant |
| PrivateChat.DeliveredKeepsLedger | soclinq_backend/backend/websocket/consumers/private_chat.py:263-291 | a delivered frame keeps the ledger invariant |
| PrivateChat.SeenKeepsLedger | soclinq_backend/backend/websocket/consumers/private_chat.py:293-327 | a seen frame keeps the ledger invariant, stamping delivery along with reading |
| PrivateChat.ReceiptsNeverRegress | soclinq_backend/backend/websocket/consumers/private_chat.py:263-327 | no frame clears or moves a delivery or read time once set |
| PrivateChat.ReadUuid | soclinq_backend/backend/websocket/consumers/private_chat.py:263-268 | a message id given as text is read as its UUID, and as a number only when it is in the UUID range |
| HubChat.Connect | soclinq_backend/backend/websocket/consumers/chat.py:18-58 | anonymous closes with 4001, a missing hub id with 4002, an unknown hub with 4004 and a non-member with 4003; otherwise the session opens and presence is announced |
| HubChat.Receive | soclinq_backend/backend/websocket/consumers/chat.py:79-105 | a missing type and an unknown type each answer an error frame without closing the socket |
| HubChat.HandleSend | soclinq_backend/backend/websocket/consumers/chat.py:107-129 | blank text answers an error; otherwise the single answer is `message:delivered` echoing the tempId as the message id |
| HubChat.Typing | soclinq_backend/backend/websocket/consumers/chat.py:131-148 | a `typing:update` carrying the user's id and name and the flag, published with the typist's channel for exclusion |
| HubChat.HandleSeen | soclinq_backend/backend/websocket/consumers/chat.py:149-167 | a seen frame without a message id is silently ignored; otherwise a seen update naming the user is published, excluding the sender |
| HubChat.Broadcast | soclinq_backend/backend/websocket/consumers/chat.py:169-200 | corrected rule (see Findings): a payload reaches a receiver unless it names that receiver as `excludeSenderId`, or the receiver is the sending channel of an `exclude_self` broadcast |
| HubChat.ExcludeSelfHonoured | soclinq_backend/backend/websocket/consumers/chat.py:169-200 | with the corrected rule, a typing event reaches every other channel but not the typist's own |
| HubChat.PostedNoticeSkipsSender | soclinq_backend/backend/websocket/consumers/chat.py:187-200 | a message posted over HTTP reaches every member except its sender |
| Otp.TimedeltaSeconds | soclinq_backend/backend/accounts/models.py:133-134 | `timedelta.seconds` always lies in `[0, 86400)` |
| Otp.IsExpiredAsWritten | soclinq_backend/backend/accounts/models.py:133-134 | as written, a code up to 12300 s old is live, and so is one a day and up to 12300 s old |
| Otp.IsExpired | soclinq_backend/backend/accounts/models.py:133-134 | corrected: expired exactly when more than 12300 whole seconds have passed |
| Otp.SecondsAndDays | soclinq_backend/backend/accounts/models.py:134 | whole seconds split into whole days plus `timedelta.seconds` |
| Otp.SameWithinADay | soclinq_backend/backend/accounts/models.py:133-134 | within the first day the code expires after 12300 s, both as written and as corrected |
| Otp.DaysIgnoredAsWritten | soclinq_backend/backend/accounts/models.py:134 | as written, adding whole days to the age never changes the verdict |
| Otp.DayOldCodeAccepted | soclinq_backend/backend/accounts/models.py:134 | as written, a code exactly one day old is not expired; corrected, it is |
| Otp.ExpiryIsFinal | soclinq_backend/backend/accounts/models.py:133-134 | corrected, an expired code stays expired as time passes |
| Accounts.PatchProfile | soclinq_backend/backend/accounts/views.py:529-575 | a phone number in the patch gives 400, as do a name over 255 or a language over 20 characters; otherwise a blank field keeps the stored value and a non-blank one replaces it, trimmed |
| Accounts.BlankPatchKeepsProfile | soclinq_backend/backend/accounts/views.py:556-560 | a patch with only blank fields leaves the profile as it was |
| Accounts.SendPhoneOtp | soclinq_backend/backend/accounts/views.py:766-810 | a trimmed phone of 7 to 20 characters that no other user holds gets one new unused VERIFY code; a phone held by another user gets 409 |
| Accounts.Latest | soclinq_backend/backend/accounts/views.py:839-849 | the newest unused VERIFY code for the phone, if any |
| Accounts.Consume | soclinq_backend/backend/accounts/views.py:863-865 | only the chosen code is marked used |
| Accounts.VerifyPhoneOtp | soclinq_backend/backend/accounts/views.py:820-885 | success needs a phone, a code of length 6, a pending unexpired code and a phone no one else holds; it consumes that code |
| Accounts.AnySixCharCodeVerifies | soclinq_backend/backend/accounts/views.py:832-866 | the submitted code's value is never compared: any two codes of length 6 get the same answer |
| Accounts.SendThenVerify | soclinq_backend/backend/accounts/views.py:766-885 | a code sent now can be verified now with any six characters |
| Accounts.SendKeepsFixedCodes | soclinq_backend/backend/accounts/views.py:790-797 | every stored code is the fixed development code |
| Accounts.Claim | soclinq_backend/backend/accounts/views.py:676-755 | a non-USER entity gets 400, a foreign entity id 403, a BLOCKED or SYSTEM name 403 and a taken name 409; success deactivates the user's old rows and appends one active row |
| Accounts.Deactivate | soclinq_backend/backend/accounts/views.py:732-733 | exactly the user's rows become inactive |
| Accounts.ClaimKeepsRegistryUnique | soclinq_backend/backend/accounts/views.py:726-743 | after a claim, an active name is held by one row and the user's only active row is the new one |
| Accounts.PatchQuietHours | soclinq_backend/backend/accounts/views.py:2027-2060 | a start or end that is neither empty nor HH:MM (00-23, 00-59) gives 400; otherwise each field is kept when absent, cleared by null or `""`, and set to the supplied stripped time |
| Accounts.AddContact | soclinq_backend/backend/accounts/views.py:1709-1735 | a contact is added, name and phone stripped, with its relationship and priority, iff name and phone are non-blank, fit 255 and 30 characters and hold no NUL, the relationship is absent, null or one of the five choices, the priority is absent, null, a number or integer text, and the owner has fewer than 10; otherwise 400 |
| Accounts.ReadRelationship | soclinq_backend/backend/accounts/views.py:1776-1780 | the `ChoiceField` accepts absent, null or one of FAMILY, FRIEND, NEIGHBOR, COLLEAGUE, OTHER, and keeps the choice |
| Accounts.ReadPriority | soclinq_backend/backend/accounts/views.py:1781 | the `IntegerField` accepts absent, null or a number as itself, and refuses arrays, objects, booleans and text over 1000 characters |
| Accounts.ZeroFractionDropped | soclinq_backend/backend/accounts/views.py:1781 | integer text followed by `.` and zeros reads as the integer, as DRF strips `\.0*` before `int()` |
| Accounts.ContactsCapped | soclinq_backend/backend/accounts/views.py:1717-1721 | an owner never ends up with more than 10 contacts |
| HubChat.BroadcastAsWritten | soclinq_backend/backend/websocket/consumers/chat.py:187-200 | as written, a receiver drops only a falsy payload or one that names it as `excludeSenderId`; the sending channel is never consulted |
| HubChat.TypingEchoesAsWritten | soclinq_backend/backend/websocket/consumers/chat.py:187-200 | as written, a typing event published with `exclude_self` comes back to the typist's own socket |
| PrivateChat.MarkDeliveredAsWritten | soclinq_backend/backend/websocket/consumers/private_chat.py:263-291 | as written, a delivery is recorded for any existing message that is not the user's own and was undelivered, whatever its conversation |
| PrivateChat.DeliveredAcrossConversations | soclinq_backend/backend/websocket/consumers/private_chat.py:263-291 | a member of conversation "a" obtains, as written, a delivery receipt for a message of conversation "b"; the corrected rule refuses it |
| ThreadEvents.NormalizeMine | soclinq_frontend/src/hooks/useChatThreadWS.ts:92-95 | only `isMine` changes, and it is true iff the sender's id, read as a string, equals the current user's |
| ThreadEvents.Hash | soclinq_frontend/src/hooks/useChatThreadWS.ts:50-52 | the hash is the temporary id, a `\|` and the text, with missing ones as empty |
| ThreadEvents.HashSeesTempIdAndText | soclinq_frontend/src/hooks/useChatThreadWS.ts:50-52 | messages that agree on temporary id and text hash alike, whatever their other fields |
| ThreadEvents.Upsert | soclinq_frontend/src/hooks/useChatThreadWS.ts:106-123 | an ack matching a pending `clientTempId` merges into that row as `sent` in place; otherwise a message whose id is already listed leaves the list alone, and a new one is appended, defaulting to `sent` |
| ThreadEvents.UpdateReactions | soclinq_frontend/src/hooks/useChatThreadWS.ts:183-227 | an action other than added/removed leaves the reaction list untouched |
| ThreadEvents.MapTarget | soclinq_frontend/src/hooks/useChatThreadWS.ts:131-143 | exactly the messages carrying the target id are rewritten; the rest and the length stay |
| ThreadEvents.OnEvent | soclinq_frontend/src/hooks/useChatThreadWS.ts:88-296 | a new/ack payload already seen by hash is ignored, an unseen one is upserted and remembered; typing, presence, error and unknown events change nothing; other events keep the thread's length and known hashes |
| ThreadEvents.ThreadChanged | soclinq_frontend/src/hooks/useChatThreadWS.ts:317-319 | switching thread forgets every known hash and keeps the messages |
| ThreadEvents.ReplayIgnored | soclinq_frontend/src/hooks/useChatThreadWS.ts:99-104 | delivering the same new/ack event twice has the effect of delivering it once |
| ThreadEvents.AppliedAfterThreadChange | soclinq_frontend/src/hooks/useChatThreadWS.ts:317-319 | after a thread switch a previously seen message is applied again |
| ThreadEvents.DeliveredNeverDowngrades | soclinq_frontend/src/hooks/useChatThreadWS.ts:131-143 | a delivered receipt never turns `seen` back; the target ends `delivered` or `seen` and every other message is untouched |
| ThreadEvents.SeenTouchesOnlyTarget | soclinq_frontend/src/hooks/useChatThreadWS.ts:147-167 | the target gains the reader in `seenBy`, keeps every earlier reader and changes in nothing else; other messages are untouched |
| ThreadEvents.DeleteLeavesTombstone | soclinq_frontend/src/hooks/useChatThreadWS.ts:259-276 | a deleted message keeps its ids, loses its text, attachments and reactions and carries a deletion time |
| ThreadEvents.EditIsIdempotent | soclinq_frontend/src/hooks/useChatThreadWS.ts:280-286 | an edit overlays the payload on the message with that id only, and replaying it changes nothing more |
| ThreadEvents.UpdateKeepsWellKept | soclinq_frontend/src/hooks/useChatThreadWS.ts:183-227 | reaction updates keep every emoji listed once, with distinct users and a positive count |
| ThreadEvents.AddedIsListed | soclinq_frontend/src/hooks/useChatThreadWS.ts:183-206 | after `added` the user appears under that emoji |
| WsClient.Clamp | soclinq_frontend/src/hooks/useWebSocketChat.ts:54-56 | the result is at least the lower bound, at most the upper one when the bounds are ordered, and the input itself when already in range |
| WsClient.Growth | soclinq_frontend/src/hooks/useWebSocketChat.ts:126 | the backoff factor `1.6^n` is at least 1 |
| WsClient.ReconnectDelay | soclinq_frontend/src/hooks/useWebSocketChat.ts:120-134 | the jittered delay always lies between the minimum and the maximum reconnect delay |
| WsClient.DelaySaturates | soclinq_frontend/src/hooks/useWebSocketChat.ts:120-134 | once the lowest jittered base reaches the maximum, every reconnect waits exactly the maximum |
| WsClient.GrowthMonotone | soclinq_frontend/src/hooks/useWebSocketChat.ts:126 | more failed tries never shrink the backoff base |
| WsClient.ClientIdOf | soclinq_frontend/src/hooks/useWebSocketChat.ts:173 | a truthy `clientId` in the payload is kept; otherwise a generated id is used |
| WsClient.Tagged | soclinq_frontend/src/hooks/useWebSocketChat.ts:175-181 | the outgoing event keeps its type and every payload field and carries the client id |
| WsClient.Enqueue | soclinq_frontend/src/hooks/useWebSocketChat.ts:186-195 | a full queue drops its oldest item before the new one is appended |
| WsClient.EnqueueBounded | soclinq_frontend/src/hooks/useWebSocketChat.ts:186-195 | the offline queue never grows past `maxQueue` (at least one) and its newest item is the one just queued |
| WsClient.SendRaw | soclinq_frontend/src/hooks/useWebSocketChat.ts:169-230 | offline or on a throwing send the tagged event is queued and nothing goes out; online it goes out once, and is awaited for an ack iff acknowledgement is required or it is a `message:send` |
| WsClient.Flush | soclinq_frontend/src/hooks/useWebSocketChat.ts:136-167 | a closed socket flushes nothing; an open one sends the queue in order up to the first failing send, which stays queued with everything after it, and every sent `message:send` is awaited |
| WsClient.OnMessage | soclinq_frontend/src/hooks/useWebSocketChat.ts:317-343 | an ack only removes awaited entries; a pong is swallowed and every other message is passed on unchanged |
| WsClient.SendThenAcknowledge | soclinq_frontend/src/hooks/useWebSocketChat.ts:317-331 | a sent message is awaited until a delivered event names its id, by client id or temp id |
| WsClient.Typing | soclinq_frontend/src/hooks/useWebSocketChat.ts:380-391 | `typing:start` goes out only on the first keystroke of a burst |
| WsClient.TypingStop | soclinq_frontend/src/hooks/useWebSocketChat.ts:394-398 | stopping always sends `typing:stop` and ends the burst |
| WsClient.TypingStartsOnce | soclinq_frontend/src/hooks/useWebSocketChat.ts:380-398 | any run of keystrokes sends at most one start, and exactly one after a stop |
| Reactions.RemoveUser | soclinq_frontend/src/hooks/ChatThread/useReactionUI.ts:48-54 | the user is gone from every emoji, emptied emojis are dropped, no new emoji appears, and every other user is listed under exactly the emojis they were before |
| Reactions.ApplyLocal | soclinq_frontend/src/hooks/ChatThread/useChatReactions.ts:25-53 | tapping the current reaction removes the user everywhere and clears `myReaction`; any other emoji lists the user exactly once, under that emoji; every other user keeps exactly their reactions |
| Reactions.ToggleLocal | soclinq_frontend/src/hooks/ChatThread/useReactionUI.ts:39-82 | only the target message's reactions and `myReaction` change |
| Reactions.UpdateMessage | soclinq_frontend/src/hooks/ChatThread/useChatReactions.ts:64-78 | the `updateMessage` callback is a parameter whose body is not in the hook; it is taken as the spread of the patch over the messages with that id, the others untouched |
| Reactions.ReactToMessage | soclinq_frontend/src/hooks/ChatThread/useChatReactions.ts:57-82 | with reactions disabled or on a deleted message nothing changes |
| Reactions.FailedReactRollsBack | soclinq_frontend/src/hooks/ChatThread/useChatReactions.ts:63-79 | when the request fails the message's reactions and `myReaction` return to their values before the tap |
| Reactions.SameEmojiTwiceUndoes | soclinq_frontend/src/hooks/ChatThread/useChatReactions.ts:25-53 | tapping the same emoji twice leaves the user with no reaction at all |
| ChatTypes.FindIndex | soclinq_frontend/src/hooks/useChatThreadWS.ts:106-108 | the index is that of the first match, or -1 iff nothing matches |
| ChatTypes.SpreadLaws | soclinq_frontend/src/hooks/useChatThreadWS.ts:280-286 | overlaying nothing is the identity, and overlaying the same patch twice is overlaying it once |
| ChatTypes.Without | soclinq_frontend/src/components/reg-users/pages/Community/ChatPanel.tsx:124 | every element but the removed one is kept |
| ChatTypes.WithoutDistinct | soclinq_frontend/src/components/reg-users/pages/Community/ChatPanel.tsx:124 | on a list without repeats, removal keeps it repeat-free and shortens it by one exactly when the element was present |
| ChatTypes.Dedup | soclinq_frontend/src/hooks/ChatThread/useMessageReceipts.ts:51-53 | the same elements, each once |
| ChatTypes.DedupUnique | soclinq_frontend/src/hooks/ChatThread/useMessageReceipts.ts:51-53 | a list without repeats passes through unchanged |
| ChatPanel.CanEdit | soclinq_frontend/src/components/reg-users/pages/Community/ChatPanel.tsx:70-77 | only one's own live text message, within 20 minutes of sending, can be edited |
| ChatPanel.CanDeleteForEveryone | soclinq_frontend/src/components/reg-users/pages/Community/ChatPanel.tsx:79-85 | only one's own live message, within 60 minutes of sending, can be deleted for everyone |
| ChatPanel.WindowsNest | soclinq_frontend/src/components/reg-users/pages/Community/ChatPanel.tsx:70-85 | an editable message is deletable, and once either window has closed it stays closed |
| ChatPanel.RecentFrom | soclinq_frontend/src/components/reg-users/pages/Community/ChatPanel.tsx:110-119 | an absent or non-array stored value reads as no recent emojis; otherwise its strings are read |
| ChatPanel.Strings | soclinq_frontend/src/components/reg-users/pages/Community/ChatPanel.tsx:115 | exactly the string elements are kept |
| ChatPanel.Stored | soclinq_frontend/src/components/reg-users/pages/Community/ChatPanel.tsx:125 | the stored array holds each emoji as a string, in order |
| ChatPanel.StringsOfStored | soclinq_frontend/src/components/reg-users/pages/Community/ChatPanel.tsx:110-127 | reading back a stored list gives the list |
| ChatPanel.SaveRecent | soclinq_frontend/src/components/reg-users/pages/Community/ChatPanel.tsx:121-127 | the emoji moves to the front, appears once, the others keep their order and at most five are kept |
| ChatPanel.SaveThenLoad | soclinq_frontend/src/components/reg-users/pages/Community/ChatPanel.tsx:110-127 | what is saved is what is loaded next, and the recent list never repeats an emoji |
| ChatPanel.Selectable | soclinq_frontend/src/components/reg-users/pages/Community/ChatPanel.tsx:272-274 | system and deleted messages are never selectable |
| ChatPanel.Ids | soclinq_frontend/src/components/reg-users/pages/Community/ChatPanel.tsx:276-278 | the ids of the messages, position by position |
| ChatPanel.IndexOf | soclinq_frontend/src/components/reg-users/pages/Community/ChatPanel.tsx:280-282 | the first position of the id, or -1 iff it is absent |
| ChatPanel.SelectRange | soclinq_frontend/src/components/reg-users/pages/Community/ChatPanel.tsx:370-382 | with both ends listed the selection grows by every id between them, without repeats; otherwise it is unchanged |
| ChatPanel.Between | soclinq_frontend/src/components/reg-users/pages/Community/ChatPanel.tsx:376-379 | the slice contains both ends and nothing from outside the list |
| ChatPanel.RangeEitherWay | soclinq_frontend/src/components/reg-users/pages/Community/ChatPanel.tsx:370-382 | shift-selecting from a to b selects the same as from b to a |
| ChatPanel.FindEmoji | soclinq_frontend/src/components/reg-users/pages/Community/ChatPanel.tsx:648 | the position of the first entry of that emoji, or -1 iff none |
| ChatPanel.RemoveAt | soclinq_frontend/src/components/reg-users/pages/Community/ChatPanel.tsx:657 | removes exactly one entry and keeps the rest in order |
| ChatPanel.ApplyUpdate | soclinq_frontend/src/components/reg-users/pages/Community/ChatPanel.tsx:640-664 | an added emoji is counted up or appended with count 1; a removed one is counted down and dropped at zero; an unknown removal or a count-less entry changes nothing |
| ChatPanel.UpdateWellCounted | soclinq_frontend/src/components/reg-users/pages/Community/ChatPanel.tsx:640-664 | updates keep each emoji listed once with a positive count |
| ChatPanel.UpdateTotal | soclinq_frontend/src/components/reg-users/pages/Community/ChatPanel.tsx:640-664 | an addition raises the total count by one, a removal of a listed emoji lowers it by one |
| ChatPanel.AddThenRemove | soclinq_frontend/src/components/reg-users/pages/Community/ChatPanel.tsx:640-664 | adding then removing the same emoji restores the counts |
| ChatPanel.OptimisticReact | soclinq_frontend/src/components/reg-users/pages/Community/ChatPanel.tsx:882-922 | the same emoji again counts it down and retracts the reaction; a different one counts the old one down and raises the new one by `inc`; none before only raises the new one |
| ChatPanel.Inc | soclinq_frontend/src/components/reg-users/pages/Community/ChatPanel.tsx:896-900 | `inc` adds one to a listed emoji or appends it with one, and never drops an entry |
| ChatPanel.IncIsAdded | soclinq_frontend/src/components/reg-users/pages/Community/ChatPanel.tsx:896-900 | where the listed count is not negative, `inc` agrees with the `added` update |
| ChatPanel.IncKeepsNegative | soclinq_frontend/src/components/reg-users/pages/Community/ChatPanel.tsx:896-900 | on a count of -1 `inc` keeps the entry at 0 where the `added` update drops it |
| ChatPanel.ReactTwiceRestores | soclinq_frontend/src/components/reg-users/pages/Community/ChatPanel.tsx:893-912 | reacting and then tapping the same emoji restores the counts and clears the reaction |
| ChatPanel.SwitchKeepsTotal | soclinq_frontend/src/components/reg-users/pages/Community/ChatPanel.tsx:915-919 | switching emoji keeps the total count |
| InboxSelection.KeyOf | soclinq_frontend/src/components/reg-users/pages/Chat/Inbox/state/useInboxSelection.ts:20-24 | a key starts with `c_` exactly for community items |
| InboxSelection.KeysIdentify | soclinq_frontend/src/components/reg-users/pages/Chat/Inbox/state/useInboxSelection.ts:20-24 | two items with the same key are of the same kind and have the same id |
| InboxSelection.Start | soclinq_frontend/src/components/reg-users/pages/Chat/Inbox/state/useInboxSelection.ts:36-38 | a selection starts with that item alone |
| InboxSelection.Toggle | soclinq_frontend/src/components/reg-users/pages/Chat/Inbox/state/useInboxSelection.ts:41-47 | the key flips membership and every other key stays |
| InboxSelection.ToggleTwice | soclinq_frontend/src/components/reg-users/pages/Chat/Inbox/state/useInboxSelection.ts:41-47 | toggling twice restores the selection |
| InboxSelection.SelectAll | soclinq_frontend/src/components/reg-users/pages/Chat/Inbox/state/useInboxSelection.ts:55-57 | exactly the keys of the listed items |
| InboxSelection.Lookup | soclinq_frontend/src/components/reg-users/pages/Chat/Inbox/state/useInboxSelection.ts:66-73 | a listed item with that key, or none iff no item has it |
| InboxSelection.Kind | soclinq_frontend/src/components/reg-users/pages/Chat/Inbox/state/useInboxSelection.ts:77-85 | `group` iff only communities are selected, `private` iff only private chats, `mixed` otherwise, including nothing |
| InboxSelection.CanDelete | soclinq_frontend/src/components/reg-users/pages/Chat/Inbox/state/useInboxSelection.ts:113 | deletion is allowed iff the selection is private-only |
| InboxSelection.CanDeleteMeans | soclinq_frontend/src/components/reg-users/pages/Chat/Inbox/state/useInboxSelection.ts:77-113 | deletion is allowed iff some private chat and no community is selected |
| InboxSelection.MarkLabel | soclinq_frontend/src/components/reg-users/pages/Chat/Inbox/state/useInboxSelection.ts:89-99 | "Mark as read" iff some selected item is unread, else "Mark as unread" |
| InboxSelection.ChatId | soclinq_frontend/src/components/reg-users/pages/Chat/Inbox/state/useInboxSelection.ts:104-108 | a community is named by its hub id, a private chat by its conversation id |
| InboxSelection.SelectedIds | soclinq_frontend/src/components/reg-users/pages/Chat/Inbox/state/useInboxSelection.ts:66-110 | at most one id per selected key |
| InboxSelection.SelectedIdsHas | soclinq_frontend/src/components/reg-users/pages/Chat/Inbox/state/useInboxSelection.ts:66-110 | an id is listed iff some selected key names a listed item with that id |
| InboxSelection.SelectedIdsMeans | soclinq_frontend/src/components/reg-users/pages/Chat/Inbox/state/useInboxSelection.ts:66-110 | the ids sent are exactly the ids of the items in `selectedItems` |
| InboxSelection.OnAction | soclinq_frontend/src/components/reg-users/pages/Chat/Inbox/state/useInboxSelection.ts:103-141 | every action but a refused delete issues its request, and the ids it sends are exactly the hub ids and conversation ids of the selected items; the selection is cleared when that request succeeds and kept when it rejects; mark asks for read iff the label says so; a refused delete keeps the selection |
| InboxSelection.DeleteSparesCommunities | soclinq_frontend/src/components/reg-users/pages/Chat/Inbox/state/useInboxSelection.ts:113-141 | with a community selected, delete does nothing while the other actions still proceed |
| InboxSelection.AllPrivateCanDelete | soclinq_frontend/src/components/reg-users/pages/Chat/Inbox/state/useInboxSelection.ts:113 | selecting all of a non-empty all-private inbox allows deletion |
| UiController.StartSelection | soclinq_frontend/src/hooks/ChatThread/useChatUIController.ts:15-17 | selection mode starts with that message alone |
| UiController.ToggleSelection | soclinq_frontend/src/hooks/ChatThread/useChatUIController.ts:19-33 | toggling outside selection mode starts it; toggling the last selected id ends it; otherwise the id flips and the rest stay |
| UiController.ClearSelection | soclinq_frontend/src/hooks/ChatThread/useChatUIController.ts:35-37 | clearing returns to the normal mode |
| UiController.StartReply | soclinq_frontend/src/hooks/ChatThread/useChatUIController.ts:41-44 | replying replaces any selection by a reply to that message |
| UiController.CancelReply | soclinq_frontend/src/hooks/ChatThread/useChatUIController.ts:46-48 | cancelling returns to the normal mode |
| UiController.SelectionView | soclinq_frontend/src/hooks/ChatThread/useChatUIController.ts:55-72 | selected ids are exposed exactly in selection mode |
| UiController.ReplyView | soclinq_frontend/src/hooks/ChatThread/useChatUIController.ts:55-72 | a reply target is exposed exactly in reply mode |
| UiController.AlwaysValid | soclinq_frontend/src/hooks/ChatThread/useChatUIController.ts:15-72 | after any sequence of actions, selection mode never holds an empty set and selecting and replying never happen together |
| UiController.ToggleOffAndOn | soclinq_frontend/src/hooks/ChatThread/useChatUIController.ts:19-33 | toggling the only selected message off and on again gives a fresh selection of it |
| Hydration.KeyOf | soclinq_frontend/src/hooks/ChatThread/useHydrationState.ts:64-65 | the key is a truthy id, else a truthy temp id, and there is none iff neither is truthy |
| Hydration.Put | soclinq_frontend/src/hooks/ChatThread/useHydrationState.ts:67-73 | the keyed entry receives the message overlaid on what it held; other entries stay and keys stay unique |
| Hydration.Collect | soclinq_frontend/src/hooks/ChatThread/useHydrationState.ts:62-74 | one entry per key that some message carries |
| Hydration.LaterWins | soclinq_frontend/src/hooks/ChatThread/useHydrationState.ts:67-73 | the last message with a key overrides every field it sets in that key's entry |
| Hydration.Values | soclinq_frontend/src/hooks/ChatThread/useHydrationState.ts:76 | the entries' messages in order |
| Hydration.Merge | soclinq_frontend/src/hooks/ChatThread/useHydrationState.ts:57-81 | the merge is ordered by creation time and is a permutation of one merged message per key |
| Hydration.MergeKeys | soclinq_frontend/src/hooks/ChatThread/useHydrationState.ts:57-81 | a key is in the merge iff the current or the incoming messages carry it |
| Hydration.CapCache | soclinq_frontend/src/hooks/ChatThread/useHydrationState.ts:30 | the cache keeps the last 100 messages of a thread |
| Hydration.SaveCache | soclinq_frontend/src/hooks/ChatThread/useHydrationState.ts:26-33 | saving a thread leaves every other thread's cache untouched |
| Hydration.LoadCache | soclinq_frontend/src/hooks/ChatThread/useHydrationState.ts:14-24 | an uncached thread loads as empty |
| Hydration.SaveThenLoad | soclinq_frontend/src/hooks/ChatThread/useHydrationState.ts:14-33 | loading after saving returns the capped messages, ending with the newest |
| NormalizeHub.OneOf | soclinq_frontend/src/components/utils/normalizehub.ts:22-34 | a string from the allowed set is kept, anything else becomes null |
| NormalizeHub.NumberOf | soclinq_frontend/src/components/utils/normalizehub.ts:59-71 | `Number()` of JSON: null is 0, a number itself, text by its digits, an empty array 0, a one-element array its element, a longer array or an object `NaN` |
| NormalizeHub.SingletonNumber | soclinq_frontend/src/components/utils/normalizehub.ts:59-71 | `Number([5])` is 5 and `Number(["12"])` is 12 |
| NormalizeHub.Privacy | soclinq_frontend/src/components/utils/normalizehub.ts:12-15 | privacy is PRIVATE or INVITE_ONLY only when the raw value says so, PUBLIC otherwise |
| NormalizeHub.JoinMode | soclinq_frontend/src/components/utils/normalizehub.ts:17-20 | join mode is REQUEST or APPROVAL only when the raw value says so, OPEN otherwise |
| NormalizeHub.Normalize | soclinq_frontend/src/components/utils/normalizehub.ts:11-117 | enumerations fall back to their defaults, a missing name reads "Unnamed Hub", missing counts read 0, the hub is inactive only on an explicit `false`, and a non-object yields an empty hub stamped now |
| NormalizeHub.NormalizeCanonical | soclinq_frontend/src/components/utils/normalizehub.ts:11-117 | every normalized hub with numeric counts is in canonical form |
| NormalizeHub.FlagRoundTrip | soclinq_frontend/src/components/utils/normalizehub.ts:88-112 | an optional flag written back as a value or null reads as the same flag |
| NormalizeHub.OptionalRoundTrip | soclinq_frontend/src/components/utils/normalizehub.ts:83-87 | an optional non-null value written back, `undefined` as `null`, reads as the same value |
| NormalizeHub.CountRoundTrip | soclinq_frontend/src/components/utils/normalizehub.ts:97-98 | an optional count that is not `NaN` written back reads as the same count |
| NormalizeHub.CarriedIsFixed | soclinq_frontend/src/components/utils/normalizehub.ts:11-117 | a raw object that carries a canonical hub's fields normalizes to that hub |
| NormalizeHub.NormalizeIdempotent | soclinq_frontend/src/components/utils/normalizehub.ts:11-117 | normalizing the serialized result of a normalization gives the same hub |
| Severity.Rank | soclinq-frontend/src/hooks/useAISeverity.ts:63-66 | the four grades have ranks 0 to 3 |
| Severity.RiskPoints | soclinq-frontend/src/hooks/useAISeverity.ts:33-35 | LOW, MEDIUM and HIGH risk score 50, 200 and 400; CRITICAL adds nothing |
| Severity.ZonePoints | soclinq-frontend/src/hooks/useAISeverity.ts:49-55 | a zone scores 0, 200, 400 or 600 by grade |
| Severity.ZoneSum | soclinq-frontend/src/hooks/useAISeverity.ts:49-55 | zones add between 0 and 600 each |
| Severity.ZoneSumAppend | soclinq-frontend/src/hooks/useAISeverity.ts:49-55 | zone points add up over concatenation |
| Severity.SpeedPoints | soclinq-frontend/src/hooks/useAISeverity.ts:42-43 | no speed adds nothing |
| Severity.Score | soclinq-frontend/src/hooks/useAISeverity.ts:29-61 | any non-critical risk scores at least 50, and the score is bounded by 2300 plus 600 per zone |
| Severity.ScoreIncrements | soclinq-frontend/src/hooks/useAISeverity.ts:38-61 | lost network adds 150, media 100, poor accuracy 150 or 450, and each extra zone its points |
| Severity.LevelOf | soclinq-frontend/src/hooks/useAISeverity.ts:63-66 | LOW up to 300, MEDIUM up to 600, HIGH up to 850, CRITICAL above |
| Severity.Evaluate | soclinq-frontend/src/hooks/useAISeverity.ts:29-72 | the level reported is the level of the score reported |
| Severity.LevelMonotone | soclinq-frontend/src/hooks/useAISeverity.ts:63-66 | a higher score never gets a lower level |
| Severity.ScoreMonotone | soclinq-frontend/src/hooks/useAISeverity.ts:29-72 | worse conditions in every factor never lower the score or the level |
| RetryQueue.Pow17 | soclinq_frontend/src/hooks/ChatThread/useChatRetry.ts:45-46 | `1.7^n` is positive, and at least 1 for a non-negative exponent |
| RetryQueue.Pow17Monotone | soclinq_frontend/src/hooks/ChatThread/useChatRetry.ts:45-46 | the backoff base grows with the retry count |
| RetryQueue.Delay | soclinq_frontend/src/hooks/ChatThread/useChatRetry.ts:45-46 | a retry waits at most 15 s, and at least 800 ms for a non-negative count |
| RetryQueue.DelayMonotone | soclinq_frontend/src/hooks/ChatThread/useChatRetry.ts:45-46 | more retries never shorten the wait |
| RetryQueue.DelayBelowCap | soclinq_frontend/src/hooks/ChatThread/useChatRetry.ts:45-46 | the cap is not reached before the retry limit, and holds from the sixth retry on |
| RetryQueue.ReplyToId | soclinq_frontend/src/hooks/ChatThread/useChatRetry.ts:78 | a reply id is only taken from an object `replyTo` |
| RetryQueue.Enqueue | soclinq_frontend/src/hooks/ChatThread/useChatRetry.ts:65-88 | only a text message with a truthy temp id is stored, under that id with the current time; other entries stay |
| RetryQueue.FateOf | soclinq_frontend/src/hooks/ChatThread/useChatRetry.ts:99-119 | an entry in flight is skipped, one past the retry limit expires, one whose delay has passed is sent (or fails on a throw), and the rest wait |
| RetryQueue.SentIn | soclinq_frontend/src/hooks/ChatThread/useChatRetry.ts:98-112 | at most one payload per key, in key order |
| RetryQueue.SentInHas | soclinq_frontend/src/hooks/ChatThread/useChatRetry.ts:98-112 | every entry whose fate is Sent has its payload sent |
| RetryQueue.SentInFrom | soclinq_frontend/src/hooks/ChatThread/useChatRetry.ts:98-112 | only entries whose fate is Sent have their payload sent |
| RetryQueue.Retried | soclinq_frontend/src/hooks/ChatThread/useChatRetry.ts:114-119 | a failed try counts one more retry at the time of failure |
| RetryQueue.Apply | soclinq_frontend/src/hooks/ChatThread/useChatRetry.ts:99-119 | expired and sent entries are removed, failed ones are retried, the rest and all other keys stay |
| RetryQueue.ProcessQueue | soclinq_frontend/src/hooks/ChatThread/useChatRetry.ts:92-124 | offline nothing happens; otherwise every entry meets its fate, the payloads sent are exactly those of the entries that are due and do not throw, in `getAll` order, and every such entry is sent |
| RetryQueue.FailuresExpire | soclinq_frontend/src/hooks/ChatThread/useChatRetry.ts:100-119 | a failure never pushes the count past the limit, and the last allowed failure makes the entry expire next time |
| Register.FieldStateOf | soclinq_frontend/src/components/authenticate/RegisterPage.tsx:43-46 | an untouched field is idle; a touched one is valid iff its condition holds |
| Register.Find | soclinq_frontend/src/components/authenticate/RegisterPage.tsx:70-71 | the first position of the character, or -1 iff it is absent |
| Register.EmailScanMatches | soclinq_frontend/src/components/authenticate/RegisterPage.tsx:70-71 | the character scan accepts exactly the strings the email pattern matches |
| Register.ScanIsPattern | soclinq_frontend/src/components/authenticate/RegisterPage.tsx:70-71 | a string the scan accepts matches the pattern |
| Register.PatternIsScan | soclinq_frontend/src/components/authenticate/RegisterPage.tsx:70-71 | a string matching the pattern is accepted by the scan |
| Register.IsValidEmail | soclinq_frontend/src/components/authenticate/RegisterPage.tsx:70-71 | valid iff the email pattern matches: one `@`, no spaces, a dot after it with text on both sides |
| Register.HintsOf | soclinq_frontend/src/components/authenticate/RegisterPage.tsx:190-196 | the length hint holds iff 8 characters are present, the upper hint iff an upper-case letter is |
| Register.StrongIffHints | soclinq_frontend/src/components/authenticate/RegisterPage.tsx:73-74 | a password is strong iff all five hints hold and it contains no line terminator |
| Register.IsStrongPassword | soclinq_frontend/src/components/authenticate/RegisterPage.tsx:73-74 | a strong password has at least 8 characters and a lower-case letter, an upper-case letter, a digit and a symbol |
| Register.RunsMeansSpace | soclinq_frontend/src/components/authenticate/RegisterPage.tsx:78-79 | a trimmed name splits into two or more parts iff it contains white space |
| Register.IsValidFullName | soclinq_frontend/src/components/authenticate/RegisterPage.tsx:76-81 | valid iff the trimmed name is non-empty and has inner space, and the name has at least 3 characters, all letters, spaces, apostrophes or hyphens |
| Register.Rejection | soclinq_frontend/src/components/authenticate/RegisterPage.tsx:154-172 | a file is rejected iff its type is not allowed or it exceeds 2 MB |
| Register.Sift | soclinq_frontend/src/components/authenticate/RegisterPage.tsx:153-175 | every file is either kept or reported, and exactly the acceptable ones are kept |
| Register.HandleFiles | soclinq_frontend/src/components/authenticate/RegisterPage.tsx:147-181 | rejected files are each reported; with no acceptable file the documents are unchanged; otherwise they become the first 3 of the earlier documents followed by the acceptable new files, so every acceptable file is added while there is room and each added file is acceptable |
| Register.DocumentsStayAcceptable | soclinq_frontend/src/components/authenticate/RegisterPage.tsx:147-181 | acceptable documents stay acceptable after more files are chosen |
| Register.SpliceStart | soclinq_frontend/src/components/authenticate/RegisterPage.tsx:185 | a splice start is clamped into the list and an in-range index is used as is |
| Register.RemoveFile | soclinq_frontend/src/components/authenticate/RegisterPage.tsx:183-187 | an in-range index removes that document only; an index past the end removes nothing; a negative one still removes one document |
| Register.RemoveFileTakesOne | soclinq_frontend/src/components/authenticate/RegisterPage.tsx:183-187 | removing keeps every other document |
| Register.Prechecks | soclinq_frontend/src/components/authenticate/RegisterPage.tsx:375-404 | the submission passes the checks iff the OTP is verified, the name is valid and the password strong |
| Register.SubmitAsWritten | soclinq_frontend/src/components/authenticate/RegisterPage.tsx:375-414 | as written, an organisation posts only with an address and truthy coordinates |
| Register.Submit | soclinq_frontend/src/components/authenticate/RegisterPage.tsx:375-414 | corrected rule (see Findings): the form is posted iff the prechecks pass and an organisation has an address and both coordinates present, zero included |
| Register.ZeroCoordinateRefused | soclinq_frontend/src/components/authenticate/RegisterPage.tsx:406 | as written an organisation at latitude 0 is refused; corrected it is posted |
| Register.SubmitAgreesOffZero | soclinq_frontend/src/components/authenticate/RegisterPage.tsx:375-414 | away from zero coordinates the written and corrected submit agree |
| Notifications.Latest | soclinq_frontend/src/components/utils/NotificationContext.tsx:60 | only the latest three notifications remain |
| Notifications.Notify | soclinq_frontend/src/components/utils/NotificationContext.tsx:53-68 | the new notification is last, older ones keep their order with the oldest dropped past three, and a dismissal timer is set iff a non-zero duration is given |
| Notifications.Remove | soclinq_frontend/src/components/utils/NotificationContext.tsx:70-72 | every notification but the dismissed id stays |
| Notifications.RemoveKeepsOrder | soclinq_frontend/src/components/utils/NotificationContext.tsx:70-72 | dismissal keeps the remaining notifications in order |
| Notifications.RemoveAbsent | soclinq_frontend/src/components/utils/NotificationContext.tsx:70-72 | dismissing an unknown id changes nothing |
| Notifications.RemoveAppend | soclinq_frontend/src/components/utils/NotificationContext.tsx:70-72 | dismissal distributes over concatenation |
| Notifications.NotifyThenDismiss | soclinq_frontend/src/components/utils/NotificationContext.tsx:53-72 | below the cap, dismissing a fresh notification restores the list |
| ChatUI.ModeOf | soclinq_frontend/src/components/reg-users/pages/Chat/Inbox/state/ChatUIContext.tsx:77-81 | the new-chat picker takes precedence, then an open chat, else the inbox |
| ChatUI.RegisterInboxReload | soclinq_frontend/src/components/reg-users/pages/Chat/Inbox/state/ChatUIContext.tsx:100-102 | only the registered reload changes |
| ChatUI.RefreshInbox | soclinq_frontend/src/components/reg-users/pages/Chat/Inbox/state/ChatUIContext.tsx:104-106 | the registered reload is called once, and without one nothing happens |
| ChatUI.RefreshCallsLatest | soclinq_frontend/src/components/reg-users/pages/Chat/Inbox/state/ChatUIContext.tsx:100-106 | refreshing calls the reload registered last |
| ChatUI.FindLGA | soclinq_frontend/src/components/reg-users/pages/Chat/Inbox/state/ChatUIContext.tsx:121-136 | the first block of that id, or none iff no block has it |
| ChatUI.SetInboxLGAs | soclinq_frontend/src/components/reg-users/pages/Chat/Inbox/state/ChatUIContext.tsx:112-128 | the blocks are stored and the current one is the resolved one when listed, else the first, and none for no blocks |
| ChatUI.SetCurrentLGAById | soclinq_frontend/src/components/reg-users/pages/Chat/Inbox/state/ChatUIContext.tsx:130-136 | a listed id becomes current; an unknown one changes nothing |
| ChatUI.ResolvedIdIsSwitch | soclinq_frontend/src/components/reg-users/pages/Chat/Inbox/state/ChatUIContext.tsx:112-136 | loading with a resolved id is loading then switching to that id |
| ChatUI.CurrentIsListed | soclinq_frontend/src/components/reg-users/pages/Chat/Inbox/state/ChatUIContext.tsx:112-136 | with blocks loaded the current block is always one of them |
| ChatUI.OpenChat | soclinq_frontend/src/components/reg-users/pages/Chat/Inbox/state/ChatUIContext.tsx:170-174 | opening a chat shows it, closes the picker and clears the selection |
| ChatUI.OpenNewChat | soclinq_frontend/src/components/reg-users/pages/Chat/Inbox/state/ChatUIContext.tsx:188-192 | the picker opens with an empty search, the open chat is kept and the selection cleared |
| ChatUI.CloseNewChat | soclinq_frontend/src/components/reg-users/pages/Chat/Inbox/state/ChatUIContext.tsx:194-198 | closing the picker returns to the chat or the inbox with an empty search |
| ChatUI.GoHome | soclinq_frontend/src/components/reg-users/pages/Chat/Inbox/state/ChatUIContext.tsx:200-204 | home is the inbox with no chat and no selection |
| ChatUI.PickerReturns | soclinq_frontend/src/components/reg-users/pages/Chat/Inbox/state/ChatUIContext.tsx:188-198 | opening and closing the picker returns to where one was |
| ChatUI.NavigationClearsSelection | soclinq_frontend/src/components/reg-users/pages/Chat/Inbox/state/ChatUIContext.tsx:170-204 | any navigation clears the selection and touches nothing but navigation state |
| ChatUI.OpenChangeLGA | soclinq_frontend/src/components/reg-users/pages/Chat/Inbox/state/ChatUIContext.tsx:179-183 | only the change-LGA dialog opens |
| ChatUI.CloseChangeLGA | soclinq_frontend/src/components/reg-users/pages/Chat/Inbox/state/ChatUIContext.tsx:185 | only the change-LGA dialog closes |
| ChatUI.ChangeLGAToggles | soclinq_frontend/src/components/reg-users/pages/Chat/Inbox/state/ChatUIContext.tsx:179-185 | opening twice is opening once, and open-then-close is close |
| ChatUI.HubForm | soclinq_frontend/src/components/reg-users/pages/Chat/Inbox/state/ChatUIContext.tsx:148-153 | the form holds name and category, a description iff a non-empty one is given and the cover iff one is given |
| ChatUI.BeginCreateHub | soclinq_frontend/src/components/reg-users/pages/Chat/Inbox/state/ChatUIContext.tsx:145-155 | creation is flagged in progress and the form is sent |
| ChatUI.FinishCreateHub | soclinq_frontend/src/components/reg-users/pages/Chat/Inbox/state/ChatUIContext.tsx:155-167 | on success the dialog closes and the inbox reloads; on failure only the progress flag clears and the error is rethrown |
| ChatUI.CreateHubOutcome | soclinq_frontend/src/components/reg-users/pages/Chat/Inbox/state/ChatUIContext.tsx:145-167 | a full create either closes the dialog and reloads once, or leaves everything as before |
| Receipts.FreshInv | soclinq_frontend/src/hooks/ChatThread/useMessageReceipts.ts:37-44 | the empty receipt state satisfies the invariant |
| Receipts.Enqueue | soclinq_frontend/src/hooks/ChatThread/useMessageReceipts.ts:95-103 | the id is marked, queued once and a flush is scheduled; the invariant is kept |
| Receipts.EnqueueKeepsInv | soclinq_frontend/src/hooks/ChatThread/useMessageReceipts.ts:95-103 | queuing an unmarked id keeps every marked id either posted or queued, exactly once |
| Receipts.MarkDelivered | soclinq_frontend/src/hooks/ChatThread/useMessageReceipts.ts:88-106 | an own, id-less or already marked message changes nothing; another queues its id for delivery only |
| Receipts.MarkSeen | soclinq_frontend/src/hooks/ChatThread/useMessageReceipts.ts:128-134 | only the message with that id turns `seen` |
| Receipts.MarkRead | soclinq_frontend/src/hooks/ChatThread/useMessageReceipts.ts:110-137 | a receivable unmarked message queues its id for reading and is shown as seen when an updater is given; otherwise nothing changes |
| Receipts.Flush | soclinq_frontend/src/hooks/ChatThread/useMessageReceipts.ts:48-84 | a non-empty queue is posted as one batch without repeats and emptied; an empty one posts nothing |
| Receipts.FlushPostsQueue | soclinq_frontend/src/hooks/ChatThread/useMessageReceipts.ts:48-84 | under the invariant a flush posts exactly the queue |
| Receipts.TimerFires | soclinq_frontend/src/hooks/ChatThread/useMessageReceipts.ts:98-125 | the timer posts the queue and clears itself, keeping the invariant |
| Receipts.FiringKeepsInv | soclinq_frontend/src/hooks/ChatThread/useMessageReceipts.ts:98-125 | firing a timer keeps the invariant and extends the posted ids by the queue |
| Receipts.Unmount | soclinq_frontend/src/hooks/ChatThread/useMessageReceipts.ts:157-168 | unmounting flushes both queues |
| Receipts.UnmountPostsEverything | soclinq_frontend/src/hooks/ChatThread/useMessageReceipts.ts:157-168 | after unmounting each marked id has been posted exactly once |
| Receipts.AutoDeliver | soclinq_frontend/src/hooks/ChatThread/useMessageReceipts.ts:141-153 | every receivable message not yet delivered is queued once; with no user nothing happens |
| Receipts.AutoIdsStep | soclinq_frontend/src/hooks/ChatThread/useMessageReceipts.ts:141-153 | the auto-delivered ids grow message by message |
| Receipts.NoUserNoIds | soclinq_frontend/src/hooks/ChatThread/useMessageReceipts.ts:143 | without a user no message is auto-delivered |
| Receipts.MarkOnce | soclinq_frontend/src/hooks/ChatThread/useMessageReceipts.ts:88-137 | own messages are never receipted, and marking twice is marking once |
| Text.TrimEmptyIffAllSpace | soclinq_frontend/src/components/authenticate/RegisterPage.tsx:77 | a string trims to empty iff it is all white space |

## Left out

- Database and channel-layer I/O: rows, rooms and group sends are values (`Db`, frame lists); transactions, locking and delivery order between consumers are not modelled.
- `LocationResolver`'s spatial queries (`intersects`, `distance`): each candidate unit arrives with its level, country code, hub and distance already computed.
- `ensure_system_hubs_and_join`, `notify_group` and the other helpers outside the files named above are not part of this model; where the consumers call them, their outcome is an input.
- `utils.normalize_username` and `validate_username_format` are not part of this model; the claim view takes the normalized name and the format verdict as parameters.
- The layout of `send_error` frames in `base.py` is not part of this model beyond the `error` type and its message.
- Location.LastPerLevel: which of two units of the same level wins depends on the database's order among equals; the model keeps the last in the sorted sequence and states only that each level is kept once.
- Python's lenient base64 decoding (ignored non-alphabet characters, missing padding) is not modelled; Base64Url decodes the URL-safe alphabet and refuses anything else.
- Cursor.Decode: the UTF-8 decoder accepts ASCII only; a cursor whose text is not ASCII is refused, whereas the source would decode it.
- UuidText.Parse: removes every hyphen and reads exactly 32 hex digits. Python's `UUID()` is more lenient: it also removes every `urn:` and `uuid:` and any braces at either end, and `int(hex, 16)` then accepts, within the 32 characters, a `0x` prefix, a sign, surrounding white space and underscores between digits. Such texts are refused here, so a cursor or private-chat id written that way is refused where the source accepts it.
- Regular-expression `\d` is read as ASCII digits; Python's Unicode digits are not modelled.
- `iexact` username comparison is modelled with ASCII lower-casing only.
- CommunityCreate.Create: the duplicate-name test folds ASCII letters only, where `name__iexact` folds every letter the database folds; names that differ only in non-ASCII case are both created here. Which database rejects an over-long name, and with what message, is not modelled beyond the 500.
- Accounts.VerifyPhoneOtp: the source marks the code used before it checks that the phone is free, so a 409 answer still consumes the code; the model's error outcome carries no state and does not show that consumption.
- Accounts.PatchProfile: models the first `ProfileUpdateView` (views.py:526). Python rebinds the name to the second definition at line 1220, so that one is what the URL table routes to; it validates through `ProfileUpdateSerializer`, which is not part of this model.
- JSON `null` and an absent field are collapsed for fields the model types as strings or numbers; only `Json`-typed fields keep the difference.
- JavaScript object identity and `Map` key equality are modelled by structural equality; ids are modelled as strings or `Json` values, not as arbitrary JavaScript values.
- Timers, the reconnect watchdog, heartbeat pings and all `setTimeout` scheduling are steps of the model (`TimerFires`, `Flush`, `Typing`), not time.
- WsClient.ReconnectDelay: `Math.random` is a parameter, and floating point is modelled by exact reals.
- Reaction bursts (`spawnBurst`) and other visual effects are not modelled.
- Spreading a truthy string or array into a message (`{...m, ...payload}` with a non-object payload) is not modelled; payloads are objects.
- Hydration.Merge: the sort key is an input function on messages; `NaN` creation dates, which make JavaScript's comparator inconsistent, are not modelled.
- NormalizeHub.Normalize: `Number()` of a string reads blank text as 0 and an optionally signed run of decimal digits as its value; fractions, exponents and hexadecimal forms such as `"1.5"`, `"1e3"` or `"0x1f"` read as `NaN`, and JSON numbers are whole.
- NormalizeHub.NormalizeIdempotent: the round trip is stated for a re-serialization that writes `null` for an absent value, and for hubs whose counts are numbers, not `NaN`.
- RetryQueue.Enqueue: a `retryCount` that is not a number reads as 0.
- Severity.SpeedPoints: a `NaN` speed is not modelled; speed is an optional real.
- Register.IsStrongPassword counts characters, not UTF-16 code units.
- Register.Submit: the `FormData` built for the request, and the formatting of latitude and longitude in it, are not modelled; the posted value is the form itself.
- Receipts: the answers to the receipt `POST`s are ignored, as in the source, and a failed batch is never retried; the optimistic `onLocalUpdate` updater is applied to a given message view.
- ChatUI: a `null` active chat is `None`; the `createHub` request is split into `BeginCreateHub` and `FinishCreateHub` around the network call, and the cover file is named by a string.
- ChatUI: `openCreateHub` and `closeCreateHub` only set a flag and carry no contract; the callbacks held in the selection state are not modelled.
- InboxSelection.OnAction: the iteration order of the selected-key set is a parameter (`order`); JavaScript iterates a `Set` in insertion order, which the model's sets do not keep.
- HubHistory.CursorBound: the timestamp half is read by IsoTime.Parse, which takes `YYYY-MM-DDTHH:MM:SS[.ffffff]` with a zero offset or none, or a date alone. A non-zero UTC offset, a space in place of `T`, fewer fraction digits and the other shapes Python 3.11's `fromisoformat` accepts are refused, so such a cursor is ignored instead of bounding the page.
- IsoTime.Parse: the same narrowing; times are kept in UTC fields, so an offset other than zero would need a calendar shift that is not modelled.
- PrivateChat.Receive: a `message:delivered` frame goes to the corrected `MarkDelivered` (see Findings), so a delivery for another conversation's message is ignored, where the source's `_mark_delivered` records it; PrivateChat.MarkDeliveredAsWritten models the source's rule.
- PrivateChat.HandleDelivered: uses the corrected `MarkDelivered`, as PrivateChat.Receive does.
- Accounts.VerifyPhoneOtp: expiry uses the corrected `Otp.IsExpired` (see Findings), so a code one day and one minute old is refused, where `is_expired` accepts it; Otp.IsExpiredAsWritten models the source's rule.
- HubChat.Broadcast and Register.Submit are the corrected rules of the Findings; their as-written counterparts are HubChat.BroadcastAsWritten and Register.SubmitAsWritten.
- Reactions.UpdateMessage: `updateMessage` is a callback handed to `useChatReactions`; its body lies with the caller and is not part of this model. The model assumes it spreads the patch over the messages with that id, and Reactions.FailedReactRollsBack rests on that assumption.
- Accounts.ReadPriority: `int()` is modelled for ASCII digits with an optional sign and surrounding white space; underscores between digits and non-ASCII digits, which Python also reads, are refused.
- Accounts.ReadPriority: a JSON number with a fraction (`1.5`, refused by `IntegerField`; `2.0`, read as 2) cannot be expressed, as model numbers are integers.
- Accounts.AddContact: name and phone arrive as text. A JSON boolean, array or object there (400 in the source) and a JSON number (read as its decimal text) are not modelled.
- PrivateChat.MarkDelivered is the corrected rule of the Findings: it checks the socket's conversation, where `_mark_delivered` does not; PrivateChat.MarkDeliveredAsWritten models the source's rule.
- Receipts.Unmount: models the final unmount only. The cleanup also runs whenever `adapter` changes while the hook stays mounted; it then clears the timeouts but leaves `deliverTimer.current` and `readTimer.current` set, so ids marked afterwards are queued with no flush scheduled until the next cleanup. That stall is not modelled.
- HubHistory.Get and HubHistory.Notice: `photo` is always null because `User` has no `photo` attribute; `live_photo` is never read.
- The Kalman filter, map rendering, media upload, geocoding search and every component's markup are not part of this model.

## Findings

| source | as written | input that shows it | evidently intended | confidence | as-written member | corrected member |
|---|---|---|---|---|---|---|
| soclinq_backend/backend/accounts/models.py:133-134 | `is_expired` compares `timedelta.seconds`, which drops whole days | a code created exactly one day ago (age 86400 s) reads as not expired | compare the whole age, days included, against 12300 s | not executed | Otp.DayOldCodeAccepted | Otp.ExpiryIsFinal |
| soclinq_backend/backend/websocket/consumers/chat.py:187-200 | `broadcast` never looks at `sender_channel`, so `exclude_self` has no effect | a `typing:update` published with `exclude_self=True` returns to the typist's own socket | a socket skips the events it published with `exclude_self` | not executed | HubChat.TypingEchoesAsWritten | HubChat.ExcludeSelfHonoured |
| soclinq_backend/backend/websocket/consumers/private_chat.py:263-291 | `_mark_delivered` looks the message up by id alone | a member of conversation "a" sends `message:delivered` for a message of conversation "b" and obtains a receipt for it | only messages of the socket's conversation, as `_mark_seen` checks | not executed | PrivateChat.DeliveredAcrossConversations | PrivateChat.MarkDelivered |
| soclinq_frontend/src/components/authenticate/RegisterPage.tsx:406 | `!form.lat \|\| !form.lng` treats a zero coordinate as missing | an organisation whose address lies on the equator (latitude 0) is told to select an address | refuse only a coordinate that is absent | not executed | Register.ZeroCoordinateRefused | Register.Submit |
