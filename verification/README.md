# Verified models of the UnyDesk client

Dafny models of six parts of the client whose correctness spans several functions or a whole run, and
proofs about them. `dafny verify dfyconfig.toml` checks everything.

* **Settings in a file name** (`strings`, `base64url`, `license_json`, `custom_server`,
  `name_round_trip`, `host_grammar`). A record is written as compact JSON, encoded in unpadded
  base64url (RFC 4648 sections 3.2, 3.5 and 5), reversed, and put into the name of the executable;
  the parser strips the extension, removes the markers, cuts the name at `--` and `(` and tries every
  piece. The base64url alphabet contains `-`, so that reading a name back needs an argument on bits:
  in the encoding of ASCII text a dash is always the last symbol of its group of four.
* **Audio playback** (`ring_buffer`, `occupancy`, `audio_buffer`). A circular array that overwrites its oldest
  samples, a histogram of how full it was, and the pass that every twelve seconds drops what the
  histogram shows was never needed.
* **Login passwords** (`login`, `login_runs`). Six sources of a password and their order, the
  provenance of the password in use, and which passwords reach the stored settings of a peer, over
  runs of any number of sessions that hand connection tokens to each other.
* **UI sessions** (`sessions`, `soft_render`). The registry of peers and their UI sessions, and the
  one-slot hand-off of decoded frames to them.
* **Merging and echo** (`lan`, `clipboard`, `server_uid`). The merge of LAN discovery answers, a
  two-ended clipboard that forwards user copies and never what it wrote itself, and a choice that
  depends on a set of uids only.
* **Pacing, fallback and hashing** (`timing`, `tls_fallback`, `colors`).

Code that changes state is modelled by classes and loops; each method is tied to a function of its
inputs and the old state, and the properties are lemmas about these functions and about runs.

## Where the code and its promises part

* `Occupancy.PassBelow600Ms`: the comment at `client.rs:1273` says that nothing is dropped while
  less than 600 ms are buffered. The code asks that of the most frequent occupancy, not of the present
  one. A pass that finds less than 600 ms and drops exists exactly when the most frequent occupancy is
  at least 600 ms and either two empty buckets lead the histogram, or three to five do and the most
  frequent occupancy is below 800 ms (for rates that are multiples of 5 from 60 samples a second on).
* `LoginRuns.SafeExactly`: a shared password is to stay out of the store (`client.rs:2556`). All runs
  keep it out exactly when no switch request comes with a connection token and no two salts the peer
  may send give one text different digests. `LoginRuns.SwitchRun` and `LoginRuns.SaltRun` are the runs
  that let one in otherwise; `LoginRuns.SwitchWithToken` and `LoginRuns.SaltChange` say exactly which
  sessions store it at their next login.
* `Clipboard.CopySent`: a user copy is sent once for its own notification and once for every other that
  waits when it is made, be it of a delivery (`Clipboard.CopySentTwice`) or of an earlier copy, which
  may then never be sent (`Clipboard.SecondSentTwice`). `Clipboard.MoreThanCopied` says exactly when the
  messages come to outnumber the copies, `Clipboard.NoEcho` by how many.
* `LanDiscovery.MergedIsExpected`: the merged list shows what this run answered, and nothing of older
  runs, exactly when what was saved for every peer that first answers after its id has answered under
  another identity agrees with that peer's answers. `LanDiscovery.MergedShows` says what is shown
  in every case, `LanDiscovery.TwoIdentities` gives inputs at which the two differ.
* `Sessions.AgreeExactly`: the query and the removal, documented to agree at `flutter.rs:2128`, agree on
  an id exactly when it is alone at all its holders or at none. Adding an id that another peer holds
  keeps them in agreement in the cases of `Sessions.AddedAgree`; the agreement lasts over all
  later runs exactly when no id is under two peers (`Sessions.RunsAgree`, `Sessions.FreshExactly`), and
  over removals alone exactly when an id under two peers is the only one of each
  (`Sessions.RemovalsAgree`), which is less than the registry invariant
  (`Sessions.AgreeingNotConsistent`).
* `UdpPunch.PacketLimit`: the cut-off and the retry test read the clock separately
  (`common.rs:2523-2526`). While every sleep lasts as long as asked that makes no difference, and 104
  packets are the most; with early timers the separate reading lets one more through.

## Model

| member | source | states |
|---|---|---|
| CustomServerName.GetCustomServerFromString | unydesk-client/src/custom_server.rs:41-110 | The parser with its loops computes the specified result: the host fields when `host=` occurs, else the first candidate that is a licence |
| CustomServerName.TryPieces | unydesk-client/src/custom_server.rs:96-107 | The loop over pieces with early return finds the first candidate that is a licence: each piece whole, then its parts between parentheses |
| CustomServerName.ReadTokens | unydesk-client/src/custom_server.rs:61-82 | The loop over tokens gives every field the value of the last token with its keyword |
| NameRoundTrip.LicensedNameRoundTrip | unydesk-client/src/custom_server.rs:41-110 | For every record with ASCII fields, every marker the parser knows, every tail (nothing, blanks, or blanks and then a parenthesis or a double dash and anything that does not read `host=`) and the extension with each letter small or capital, the parser returns exactly the record that was named |
| NameRoundTrip.NameRoundTrip | unydesk-client/src/naming.rs:5-8 | The same for every record, ASCII or not, whose name holds neither `--` nor `-licensed-`, and for every stem without `-`, `=` and `(` that is no licence itself |
| NameRoundTrip.UsualNames | unydesk-client/src/custom_server.rs:42-48 | The names as users see them: whatever a copy or a download appends behind a parenthesis, with or without a blank, or a double dash |
| NameRoundTrip.AsciiEncodingUncut | unydesk-client/src/naming.rs:6-7 | Neither the encoding of any ASCII bytes nor its reverse contains the piece separator or a marker |
| NameRoundTrip.AsciiNameUncut | unydesk-client/src/custom_server.rs:91-97 | The name of an ASCII record contains neither the piece separator nor a marker |
| NameRoundTrip.GenNameShape | unydesk-client/src/naming.rs:5-8 | Every generated name is in the alphabet, begins with 9, Q or 0 and ends with e |
| NameRoundTrip.ConfigStringBack | unydesk-client/src/custom_server.rs:21-39 | Reading a generated name as a configuration string gives the record, whatever the signature check would say |
| NameRoundTrip.UnmarkAround | unydesk-client/src/custom_server.rs:91-94 | The three replacements turn whichever marker precedes the name into `--` and leave the name alone |
| NameRoundTrip.StripTail | unydesk-client/src/custom_server.rs:42-48 | Stripping the extension never reaches into the name, and leaves a tail a tail |
| NameRoundTrip.PieceGivesRecord | unydesk-client/src/custom_server.rs:97-106 | Of the candidates of the piece that carries the name, the first licence is the record, with or without a duplicate counter behind it |
| NameRoundTrip.ConfigStringMeans | unydesk-client/src/custom_server.rs:21-39 | A configuration string stands for a record exactly when it is the reversed encoding of bytes that are the record, or else a signature of it |
| NameRoundTrip.SignedStringBack | unydesk-client/src/custom_server.rs:34-36 | A signed record is read back where its signature is accepted |
| NameRoundTrip.PlainNameFails | unydesk-client/src/custom_server.rs:95-109 | A name of one plain piece that is no licence gives no record |
| NameRoundTrip.RustdeskFails | unydesk-client/src/custom_server.rs:118-119 | The program's own name, with or without extension, gives no record |
| CustomServerName.ExactlyStripped | unydesk-client/src/custom_server.rs:42-48 | Exactly when just the extension is stripped, whatever the case of its letters |
| CustomServerName.KeywordSpelt | unydesk-client/src/custom_server.rs:70-81 | A token has a keyword exactly when it begins with it, each letter small or capital |
| Strings.LowerSpells | unydesk-client/src/custom_server.rs:42-44 | Lower-casing gives a word without capitals exactly for the texts that read this word, each letter small or capital |
| HostGrammar.HostNameRoundTrip | unydesk-client/src/custom_server.rs:60-89 | Prefix, comma-free tokens that start with a host, a comma and a comma-free rest without keyword: each field is the value of the last token with its keyword |
| HostGrammar.FourFields | unydesk-client/src/custom_server.rs:68-81 | Host first, then key, api and relay in any order and letter case give exactly these fields |
| HostGrammar.FieldsNameRoundTrip | unydesk-client/src/custom_server.rs:60-89 | A prefix, the four fields, a comma and a rest without keyword, and the extension: the parser returns exactly these fields |
| HostGrammar.DescribedNameRoundTrip | unydesk-client/src/custom_server.rs:60-89 | Prefix, any tokens that begin with a host, and the extension right behind them: the parser returns a record exactly when the tokens describe it, a field without a token being empty |
| HostGrammar.FromTokensExactly | unydesk-client/src/custom_server.rs:63-89 | Tokens give a record exactly when each field is what follows the keyword in the last token that bears it, or empty when none does |
| HostGrammar.HostFound | unydesk-client/src/custom_server.rs:60-61 | The first `host=` found is the one after a prefix that holds none |
| HostGrammar.SplitJoin | unydesk-client/src/custom_server.rs:62 | Splitting at commas undoes joining comma-free tokens |
| Base64Url.DecodeEncode | unydesk-client/src/naming.rs:6 | Decoding undoes encoding for all bytes |
| Base64Url.EncodeDecode | unydesk-client/src/custom_server.rs:30 | Every text that decodes is the encoding of what it decodes to |
| Base64Url.DashPlaces | unydesk-client/src/naming.rs:6-7 | In the encoding of ASCII bytes every dash is at a position that is 3 modulo 4 |
| Base64Url.GroupValue | unydesk-client/src/naming.rs:6 | Three bytes and the four symbols they are written as are the same 24-bit number |
| Base64Url.AlphabetOrder | unydesk-client/src/naming.rs:2-6 | The alphabet is capitals, small letters, digits, dash and underscore |
| LicenseJson.ReadWrite | unydesk-client/src/custom_server.rs:9-19 | Reading the JSON text of any record, of any Unicode characters, gives the record back |
| LicenseJson.ReadMembersBack | unydesk-client/src/custom_server.rs:9-19 | Reading any written list of string members collects them, and fails exactly when a field repeats |
| LicenseJson.ReadFields | unydesk-client/src/custom_server.rs:9-19 | An object of string members is a record exactly when no field comes twice; an absent field is empty, other members are skipped |
| LicenseJson.WriteServerText | unydesk-client/src/naming.rs:5-6 | For plain values the text is the compact object: key, host, api, relay, no blanks |
| RingBuffer.HeapRb.PushSliceOverwrite | unydesk-client/src/client.rs:1296-1310 | Afterwards the queue holds the newest of the old samples and the new ones, as many as fit |
| RingBuffer.HeapRb.Skip | unydesk-client/src/client.rs:1287-1290 | Removes the given number of oldest samples, or all |
| RingBuffer.HeapRb.PopSlice | unydesk-client/src/client.rs:1518-1524 | Moves the oldest samples out in order |
| AudioPlayback.AudioBuffer.AppendPcm2 | unydesk-client/src/client.rs:1293-1310 | Everything ever appended is what has left the buffer followed by what is in it; the returned length is the smaller of old plus new length and capacity |
| AudioPlayback.AudioBuffer.AppendPcm | unydesk-client/src/client.rs:1312-1318 | Appends, as one move of the stereo runs; a drop is even, leaves more than twice itself buffered, and is at most two thirds of every occupancy recorded since the last pass and resize, up to rounding; when all of these lie in one tenth of a second from 600 ms on, a pass does drop, a quarter of them |
| AudioPlayback.AudioBuffer.TryShrink | unydesk-client/src/client.rs:1231-1291 | Records the occupancy; runs a pass exactly when 12 s have passed since the last one, and only then drops |
| Occupancy.Statistics.Scan | unydesk-client/src/client.rs:1255-1269 | One pass over the histogram finds the leading run of empty buckets and the first fullest bucket among 1 to 29 of the old counters, and empties all but that one |
| Occupancy.Statistics.Record | unydesk-client/src/client.rs:1235-1239 | Counts one occupancy in its tenth of a second; the counters keep summing to the appends, and hold exactly the occupancies since the last pass when there was no resize |
| AudioPlayback.AudioBuffer.Pass | unydesk-client/src/client.rs:1249-1290 | Empties the statistics and drops the size its two water marks call for, when more than three times as much is buffered |
| AudioPlayback.SampleStream.Append | unydesk-client/src/client.rs:1296-1310 | Evicts the oldest samples only, as many as the capacity asks for |
| Occupancy.Statistics.ScanAndClear | unydesk-client/src/client.rs:1249-1275 | Afterwards all counters are empty, and the drop its water marks call for is at most two thirds of every recorded occupancy, up to rounding |
| AudioPlayback.AudioBuffer.Resize | unydesk-client/src/client.rs:1221-1229 | The capacity stays three seconds; a changed one starts an empty buffer and keeps the counters |
| AudioPlayback.AudioBuffer.Fill | unydesk-client/src/client.rs:1491-1527 | The device gets the oldest samples in order and then silence; played positions increase strictly |
| Occupancy.DropBound | unydesk-client/src/client.rs:1266-1286 | The drop computed from a histogram is at most two thirds of every occupancy counted in it, up to rounding |
| Occupancy.BucketExactly | unydesk-client/src/client.rs:1235-1238 | An occupancy is counted in the tenth of a second it lasts to, from 2.9 s on in the last one, and in no other |
| Occupancy.SteadyPass | unydesk-client/src/client.rs:1231-1290 | From empty counters, when all occupancies lie in one tenth of a second from 600 ms on, the pass drops a positive amount, a quarter of that tenth up to rounding |
| Occupancy.DropIsSmaller | unydesk-client/src/client.rs:1266-1286 | The drop is a quarter of the fullest tenth or two thirds of the leading empty ones, whichever is less, up to rounding |
| Occupancy.FirstPeak | unydesk-client/src/client.rs:1253-1264 | The first of the fullest buckets among 1 to n, or 0 when they are empty |
| Occupancy.LeadingEmpty | unydesk-client/src/client.rs:1251-1258 | The length of the leading run of empty buckets |
| AudioPlayback.StereoRun | unydesk-client/src/client.rs:1286-1310 | Over any run of the moves that appends and device reads make: with even appends, reads and capacity the oldest sample is always at an even position, so channels never swap |
| Occupancy.PassBelow600Ms | unydesk-client/src/client.rs:1249-1290 | Exactly at which water marks some histogram and some recorded occupancy below 600 ms, within capacity, make a pass drop |
| Occupancy.DropsBelow600Ms | unydesk-client/src/client.rs:1270-1286 | Exactly for which water marks every drop finds 600 ms, whatever the present occupancy |
| Login.LoginConfigHandler.Initialize | unydesk-client/src/client.rs:1836-1853 | What a new session takes over from the store and from a token |
| Login.LoginConfigHandler.HandleHash | unydesk-client/src/client.rs:3475-3591 | The session after a hash message, and the reply sent |
| Login.LoginConfigHandler.ApplyPasswordOrder | unydesk-client/src/client.rs:3504-3554 | The password, its source and its origin after the chain of tests |
| Login.FirstOfSix | unydesk-client/src/client.rs:3503-3554 | The chain of tests picks the first non-empty of shared entry, last password, preset, stored, personal entry and built-in default |
| Login.OrderOfSources | unydesk-client/src/client.rs:3503-3554 | Which password, source and origin each of the six sources leads to, and when its turn comes |
| Login.RefusedAsksAgain | unydesk-client/src/client.rs:3396-3403 | After a refusal the next hash message asks for a password exactly when nothing is clicked, preset, stored, in the personal book or built in, and sends nothing of the refused one |
| Login.UntypedLogin | unydesk-client/src/client.rs:3651-3684 | A login without typing uses the last password, else the stored one, and does not change what is remembered |
| Login.TokenCarries | unydesk-client/src/client.rs:1836-1853 | A session opened with the token of another has its password, source and id |
| Login.PersonalIsStored | unydesk-client/src/client.rs:2564-2567 | A password from the personal address book is stored at login, ticked or not |
| Login.NotRemembered | unydesk-client/src/client.rs:2563-2571 | Without "remember" the store keeps exactly a password that is still the one of the personal address book |
| Login.LoginConfigHandler.HandleLoginError | unydesk-client/src/client.rs:3391-3434 | After an empty or wrong password the session has none, after any other error it is as before; which errors ask again |
| Login.LoginConfigHandler.HandleLoginFromUi | unydesk-client/src/client.rs:3651-3684 | A typed password replaces the one in use; without one the last or the stored is used |
| Login.LoginConfigHandler.HandlePeerInfo | unydesk-client/src/client.rs:2548-2602 | What is stored after a successful login, and what is offered to the personal address book |
| Login.LoginConfigHandler.GetConnToken | unydesk-client/src/client.rs:2813-2823 | The token carries password, source and session id, and there is none without a password |
| LoginRuns.SafeExactly | unydesk-client/src/client.rs:2552-2573 | All runs of any number of sessions keep shared and built-in passwords out of the store exactly when no switch request comes with a token and the admitted salts do not tell texts apart |
| LoginRuns.SharedNeverStored | unydesk-client/src/client.rs:2552-2573 | In every run with one salt and no switch request beside a token a shared or built-in password is never the stored one |
| LoginRuns.SwitchRun | unydesk-client/src/client.rs:3483-3502 | A run of two sessions in which a trusted switch request with a token gets a shared password stored |
| LoginRuns.SaltRun | unydesk-client/src/client.rs:1705-1722 | A run of one session in which two salts get a shared password stored |
| LoginRuns.SwitchWithToken | unydesk-client/src/client.rs:3483-3502 | Exactly which tokens a trusted switch request gets into the store |
| LoginRuns.SaltChange | unydesk-client/src/client.rs:1705-1722 | Exactly when a session with a labelled shared password, from wherever it has it, stores it after its next hash message and login |
| LoginRuns.TypedPasswordRemembered | unydesk-client/src/client.rs:2552-2573 | A typed and remembered password is stored and used by the next session; one not remembered empties the store |
| LoginRuns.RefusedIsGone | unydesk-client/src/client.rs:3396-3403 | In every run a refused password is neither in use nor handed out until another one is chosen or typed |
| Sessions.SessionMap.InsertSession | unydesk-client/src/flutter.rs:2236-2249 | Adds a UI session under its peer, creating the peer when needed |
| Sessions.SessionMap.InsertPeerSessionId | unydesk-client/src/flutter.rs:2258-2289 | Attaches a UI session to a known peer, and only then |
| Sessions.SessionMap.RemoveSessionBySessionId | unydesk-client/src/flutter.rs:2105-2126 | Whatever the order of peers, some holder loses the session; the peer goes, and is returned, exactly when it was the last one, else the displays of the others are captured |
| Sessions.SessionMap.WouldRemovePeerBySessionId | unydesk-client/src/flutter.rs:2128-2146 | Whether the first holder met has no other session |
| Sessions.RemainingDisplays | unydesk-client/src/flutter.rs:2148-2179 | A display is among the remaining ones exactly when it is the current one or another session draws it |
| Sessions.RunConsistent | unydesk-client/src/flutter.rs:1326-1332 | Over all runs every peer has a session and no session is under two peers |
| Sessions.AddedConsistent | unydesk-client/src/flutter.rs:2236-2289 | Adding keeps that exactly when no other peer holds the id |
| Sessions.QueryMatchesRemoval | unydesk-client/src/flutter.rs:2128-2134 | After every run the query is true exactly when the removal returns a peer, for any two visiting orders |
| Sessions.AgreeExactly | unydesk-client/src/flutter.rs:2128-2146 | Query and removal agree on an id, for any two visiting orders, exactly when it is alone at all its holders or at none |
| Sessions.AddedAgree | unydesk-client/src/flutter.rs:2236-2289 | After adding an id they agree exactly when every other holder has it alone, for a new peer, or not alone, for a known one |
| Sessions.RunsAgree | unydesk-client/src/flutter.rs:2105-2146 | They agree after all further runs exactly when no id is under two peers |
| Sessions.RemovalsAgree | unydesk-client/src/flutter.rs:2105-2146 | They agree after all further removals exactly when an id under two peers is the only one of each |
| Sessions.FreshExactly | unydesk-client/src/flutter.rs:2236-2289 | After adding an id they agree for ever exactly when no other peer holds it |
| Sessions.AgreeingNotConsistent | unydesk-client/src/flutter.rs:2105-2146 | A registry outside the invariant on which they agree after all further removals, but not after all further runs |
| SoftRender.FlutterHandler.OnRgbaSoftRender | unydesk-client/src/flutter.rs:1190-1249 | A frame is kept and announced unless one is pending; a frame that was announced is in its slot and valid, one nobody was told of is not valid; other slots stay |
| SoftRender.FlutterHandler.Notify | unydesk-client/src/flutter.rs:1219-1236 | Exactly the sessions with a stream that show this display and no other, or that are alone and show at most one, are told |
| SoftRender.FlutterHandler.SwitchDisplay | unydesk-client/src/flutter.rs:2181-2195 | Turning to one display releases its slot |
| SoftRender.FlutterHandler.AttachSession | unydesk-client/src/flutter.rs:2264-2285 | Attaching with one display releases its slot |
| SoftRender.PendingIsAnnounced | unydesk-client/src/flutter.rs:1200-1249 | In every run a valid slot holds the unchanged pixels of a frame that was announced to a session and not released since |
| SoftRender.PendingStays | unydesk-client/src/flutter.rs:1202-1206 | A valid slot keeps its frame until it is released, whatever else happens |
| SoftRender.PendingExactly | unydesk-client/src/flutter.rs:1200-1249 | In every run a slot is pending exactly when a frame of its display was announced and not released since |
| SoftRender.AnnouncedIsPending | unydesk-client/src/flutter.rs:1211-1218 | What was announced and not released since is in its slot, unchanged, and the next fetch takes it |
| SoftRender.SwitchedIsTold | unydesk-client/src/flutter.rs:2181-2195 | The next frame of the display a session turned to alone is accepted and that session told |
| SoftRender.AttachedIsTold | unydesk-client/src/flutter.rs:2264-2285 | The same for a session that attaches to one display and starts |
| SoftRender.ToldHasStarted | unydesk-client/src/flutter.rs:1219-1236 | Only sessions that started, and neither left nor attached anew since, are told |
| SoftRender.SlotKeepsBuffer | unydesk-client/src/flutter.rs:1098-1102 | A slot, pending or not, keeps the pixels of the last frame it accepted |
| SoftRender.FetchedInOrder | unydesk-client/src/flutter.rs:1088-1102 | The frames fetched are decoded frames, whole, at most once each, and in decoding order |
| LanDiscovery.HandleReceivedPeers | unydesk-client/src/lan.rs:305-344 | The loop stores the specified merge |
| LanDiscovery.MergedShows | unydesk-client/src/lan.rs:305-338 | Whatever ids and identities answer: the merged list is the responders, last answer first, with all addresses of this run and, for those mistaken for another, the saved ones, then the others offline in their old order |
| LanDiscovery.MergedIsExpected | unydesk-client/src/lan.rs:305-338 | The responders show exactly the addresses of this run exactly when nothing stale is shown: no saved peer first answers after its id did under another identity, unless its saved addresses agree with its answers |
| LanDiscovery.OneIdentityEach | unydesk-client/src/lan.rs:314-323 | Nothing stale is shown when no id answers under two identities |
| LanDiscovery.RecentOrder | unydesk-client/src/lan.rs:318-325 | A responder comes before another exactly by the later last answer |
| LanDiscovery.EarliestMac | unydesk-client/src/lan.rs:320-322 | A repeated address shows the MAC of its first answer |
| LanDiscovery.OnlyAnswered | unydesk-client/src/lan.rs:318-325 | No address is shown that was not answered from in this run |
| LanDiscovery.TwoIdentities | unydesk-client/src/lan.rs:317-323 | Two identities of one id, the second with a saved address it did not answer from: the merged list is not the expected one |
| Clipboard.ClipboardContext.GetFormatsFilter | unydesk-client/src/clipboard.rs:379-408 | Nothing when a marker is found and the check is not forced, else exactly the entries that are neither of the owner format nor an empty text, in their order |
| Clipboard.ClipboardContext.CheckClipboard | unydesk-client/src/clipboard.rs:54-98 | The message of a check, and the cache it updates; an unforced check gives one exactly when there is no marker, no file list and some entry that travels |
| Clipboard.ClipboardContext.UpdateClipboard | unydesk-client/src/clipboard.rs:230-260 | A delivery is written with a marker, or not at all |
| Clipboard.UpdatesAreNotRead | unydesk-client/src/clipboard.rs:587-592 | A check on either side never reads what an update wrote |
| Clipboard.CheckedExactly | unydesk-client/src/clipboard.rs:379-408 | An unforced check reads something exactly when there is no marker, no file list, and an entry that is neither of the owner format nor an empty text |
| Clipboard.CopyArrives | unydesk-client/src/clipboard.rs:54-63 | What the user copies at one end, checked there and delivered, is on the other clipboard, entry by entry in order with a marker behind it, and is not sent back |
| Clipboard.NoEcho | unydesk-client/src/clipboard.rs:239-269 | In every run of two ends each message comes from a user copy at its sender, and messages, those waiting and those lost are as many as copies and overtaken notifications |
| Clipboard.NoMoreThanCopied | unydesk-client/src/clipboard.rs:54-63 | Without overtaken notifications no end sends more than its user copied |
| Clipboard.CopySent | unydesk-client/src/clipboard.rs:54-63 | After a copy, each of the next checks sends that copy and nothing else, one more than waited before it: twice exactly when one waited |
| Clipboard.MoreThanCopied | unydesk-client/src/clipboard.rs:54-63 | Copying and answering all that waits leaves more messages than copies exactly when messages and notifications outnumbered the copies, that is when overtaken notifications exceed the lost ones |
| Clipboard.FirstSurplus | unydesk-client/src/clipboard.rs:54-63 | From as many messages as copies and none overtaken: exactly when the notification of a delivery waits |
| Clipboard.CopySentTwice | unydesk-client/src/clipboard.rs:54-63 | A run in which the only copy is sent twice |
| Clipboard.SecondSentTwice | unydesk-client/src/clipboard.rs:54-63 | A run without deliveries in which the second copy is sent twice and the first never |
| TlsFallback.HttpClient.PostRequest | unydesk-client/src/common.rs:1412-1494 | The recursive fallback computes the specified attempts, result and cache |
| TlsFallback.HttpClient.GetHttpResponse | unydesk-client/src/common.rs:1502-1603 | The general request makes the same attempts as the POST, and none when its method or header is bad |
| TlsFallback.HttpClient.Post | unydesk-client/src/common.rs:1332-1350 | A request starts from the cached pair |
| TlsFallback.PostedFollows | unydesk-client/src/common.rs:1412-1494 | The attempts are the product of unknown libraries and unknown policies, in order, up to the first not refused with a request error; the pair that worked is cached |
| TlsFallback.PlanShape | unydesk-client/src/common.rs:1457-1487 | Two to the number of unknowns attempts, all different, Rustls before the native library and strict before lax; what is known stays |
| TlsFallback.OneAttemptAfterSuccess | unydesk-client/src/common.rs:1334-1345 | After a success the next request makes one attempt, the one that worked |
| Throttle.ThrottledInterval.PollTick | unydesk-client/src/common.rs:2061-2076 | A tick passes when the minimal interval is over, and then sets the next one |
| Throttle.NeverTooOften | unydesk-client/src/common.rs:2061-2076 | k ticks within a period of time need k - 1 minimal intervals |
| Throttle.NoneSuppressed | unydesk-client/src/common.rs:2046-2054 | Ticks polled within the period less the minimal interval all pass, whatever polls come while none is due |
| UdpPunch.PunchUdp | unydesk-client/src/common.rs:2506-2555 | The loop computes the specified run: packets, retry interval and how it ends |
| UdpPunch.FirstDecides | unydesk-client/src/common.rs:2519-2553 | The first late timer, error or accepted datagram ends the run, and how; an empty datagram is ignored when listening; nothing is sent afterwards |
| UdpPunch.PacketsApart | unydesk-client/src/common.rs:2526-2537 | From one packet to the next passes at least the retry interval |
| UdpPunch.Paced | unydesk-client/src/common.rs:2519-2537 | The interval after n retries, the time they took at least, and that they fit into 20 s, whenever the timer fires |
| UdpPunch.AtMost104Packets | unydesk-client/src/common.rs:2506-2541 | At most 104 packets when each sleep lasts its interval, however often the clock is read and whenever the timing starts |
| UdpPunch.Sends104Packets | unydesk-client/src/common.rs:2506-2541 | A run with punctual timers sends 104 packets |
| UdpPunch.PacketLimit | unydesk-client/src/common.rs:2516-2537 | Whenever the timer fires: at most 104, one more when the timing starts 12 ms or more after the first packet, one more when the clock is read twice |
| UdpPunch.LimitReached | unydesk-client/src/common.rs:2516-2537 | Each of these four limits is reached |
| UdpPunch.RetryGrows | unydesk-client/src/common.rs:2532-2536 | The retry interval never shrinks, whatever happens and whatever the clock shows |
| UdpPunch.IntervalsSettle | unydesk-client/src/common.rs:2532-2536 | The intervals are 20, 30, 45, 67, 100, 150 and then 200 ms |
| ServerUid.SelectServerUid | unydesk-client/src/ipc.rs:1242-1272 | With its sort and dedup in place the choice is a function of the set of uids |
| ServerUid.ChoiceMeaning | unydesk-client/src/ipc.rs:1251-1271 | Which uid is chosen: the active one when no server runs, the only one, else root when preferred and running, before the active one when running; and exactly when it fails, and how |
| ServerUid.SortUnstable | unydesk-client/src/ipc.rs:1248 | Sorted, with the same elements |
| ServerUid.DedupedSet | unydesk-client/src/ipc.rs:1249 | Removing neighbours that are equal removes no element |
| Colors.Str2Color | unydesk-client/src/common.rs:2589-2602 | The wrapping 32-bit loop gives the low 24 bits of the base-31 polynomial with bit 15 cleared, below alpha |
| Colors.HashStep | unydesk-client/src/common.rs:2593-2596 | One step of the loop is one step of the polynomial modulo 2^32 |

## Left out

- Strings.Lower: lower-cases ASCII letters only; the file-name theorems therefore speak of names whose other characters have no lower case.
- LicenseJson.ReadServer: reads objects whose members are strings; serde also accepts members of other types that it ignores, and the record as an array.
- CustomServerName.FromConfigString: the signature check is a parameter; only the name `rustdesk` relies on it refusing texts shorter than a signature.
- The prefix that the name printer's own main function writes; the parser does not recognise it.
- Overflow of machine integers in buffer capacities and counters, and failed allocations.
- AudioPlayback.AudioBuffer.Fill: does not model the wait of the callback before it takes what there is; appends during the wait are earlier steps of the run.
- AudioPlayback.PassTimer: the time of the last pass is a static variable of the program; here an object that several buffers may share.
- Login.LoginConfigHandler.Initialize: the parts about the server in the id, the relay and the recording state.
- Login.LoginConfigHandler.HandlePeerInfo: the options and the keyboard mode it stores beside the password.
- LoginRuns.SafeExactly: a session is created once, and with one salt given the peer sends its hash before it accepts a login.
- The gap between the two locks inside the removal of a session, which is one step here.
- SoftRender.FlutterHandler.OnRgbaSoftRender: plugin hooks, and frames drawn as textures; the lock is let go between storing a frame and announcing it, which is one step here.
- LanDiscovery.HandleReceivedPeers: the throttled intermediate stores; the final one is modelled. Whether two peers are the same is decided in hbb_common, which is not part of this model; here by an identity that includes the id.
- Clipboard.Codec: compression and the conversion of entries are parameters; file lists are never forwarded as entries.
- Forced reads of the clipboard, which the program uses for the first message of a connection.
- UdpPunch.PunchUdp: times are whole milliseconds; the program compares clock readings with the resolution of the system.
- Throttle.ThrottledInterval: the minimal interval is given; the program takes nine tenths of the period in floating point.
- TlsFallback.HttpClient.PostRequest: bodies, headers and time limits of requests.
- Colors.AndMask: the mask is written with division and remainder.
- Sockets, threads and task scheduling; what they deliver are the events of the runs.
