# Gully inspection map — verified model of its core logic

This project models three sequential parts of the gully inspection web map and its
maintenance scripts in Dafny. It proves what each part promises.

- **Asset registry and search filter** (`main.js`, module `AssetRegistry`, file
  `asset_registry.dfy`). A `GullyMap` class holds `gullyData`, the list of
  `{marker, id, layer, status}` records, plus the layer groups of `window.dataLayers`,
  the delete-mode flag and the current marker.
  - `AddGully` is `addGullyToMap`: it picks the marker kind and the group, and appends one record.
  - `FilterAssets` is `filterAssets`: it normalises the search text and runs `ShowEach`,
    the loop over the records that gives each marker one of three treatments (full,
    dimmed, hidden).
  - `Click`, `MouseOver` and `MouseOut` are the handlers each marker gets.
  - A `Marker` class stands for a Leaflet marker, with the opacity, icon display and
    radius this code writes. Leaflet's circle markers have neither `setOpacity` nor an
    `_icon` element. The marker therefore records these two capabilities, and the
    filter leaves a circle marker, which is every gully, exactly as it was. Only
    icon-based markers are dimmed or hidden.
- **Photo upload pipeline** (`enhanced-photo-upload.js`, module `PhotoUpload`, file
  `photo_upload.dfy`). It covers:
  - ordered fail-fast validation;
  - file-name sanitising, the storage path and the metadata record;
  - the progress percentage;
  - the error-message mapping of `handleUploadError`;
  - the progress widget of `updateProgressUI`, a `ProgressWidget` class updated in place;
  - `uploadPhoto` as a method;
  - the best-effort `deletePhoto` and `getPhotoMetadata`.

  The storage service is a collaborator outside the model. Its replies are parameters.
  The requests the pipeline sends it come back as a `seq<StorageRequest>` trace, so a
  contract can say, for example, that a rejected file never reaches the store.
- **User table reconciliation** (`cleanup-db.js` lines 18-50, module `UserCleanup`, file
  `user_cleanup.dfy`). This is the part of `cleanupDatabase` that does the work:
  - `BuildEmailIndex` fills `usersByEmail`;
  - `FindRole` is the inner search with `break`;
  - `Cleanup` builds `cleanData`.

  Each of these methods is proved equal to a specification function. Lemmas then state
  provenance, inclusion and size.

`base.dfy` holds `Option` and `Result`. `text.dfy` (module `Text`) holds the string
operations the code relies on: `trim`, `toLowerCase`, `includes`, `split`, and decimal
`toString` with its inverse.

Behaviour of the code worth knowing:
- `cleanupDatabase` takes the role of the *first* database entry with the email, even
  when that entry has no role. A later entry with a role is never looked at
  (`UserCleanup.LaterDuplicateRoleIgnored`).
- When `getDownloadURL` fails after a completed transfer, `uploadPhoto` rejects but never
  resets the progress widget. The bar stays at the last reported percentage.
- `addGullyToMap` does not check ids: a repeated id gives a second record.
- `deletePhoto` takes the piece after the last '/' of the whole URL, query included. A
  download URL whose query holds a '/' therefore leads the delete to a path other than
  the one the upload wrote (`DeleteTargetsUploadedPath` needs a query without '/').

## Model

| member | source | states |
|---|---|---|
| AssetRegistry.NormalizeSearch | main.js:8 | the query is the input's middle slice lower-cased character by character, with only white space before and after that slice in the input; it holds no capital letter and neither starts nor ends with white space |
| AssetRegistry.TrimLowered | main.js:8 | lower-casing a slice that has only white space around it in the input gives a lower-cased slice of that input with the same white-space ends |
| AssetRegistry.MatchesLayer | main.js:11 | with "all" selected every layer matches; otherwise exactly the record whose layer equals the selection, case-sensitively |
| AssetRegistry.Outcome | main.js:25-31 | full exactly when both tests pass, dimmed exactly when only the layer test passes, hidden exactly when the layer test fails |
| AssetRegistry.KindFor | main.js:154-160 | a circle marker exactly for the gullies layer; an icon marker exactly for another layer that has an entry in layerIcons, with that entry's icon; a plain marker otherwise |
| AssetRegistry.FieldMatches | main.js:17-22 | for a non-empty search text, a field matches exactly when its lower-cased form contains the text at some position; an empty field never matches |
| AssetRegistry.MatchesText | main.js:12-24 | a record matches the text iff the text is empty or the lower-cased id, status or marker title contains it; a missing title never matches |
| AssetRegistry.TreatmentCases | main.js:11-31 | hidden iff a specific layer other than the record's is selected (case-sensitive); dimmed iff the layer matches and the text does not; full iff both match |
| AssetRegistry.SearchIgnoresCase | main.js:8 | two search inputs that agree once lower-cased normalise to the same query (trim and lower-casing commute) |
| AssetRegistry.Restyle | main.js:25-31 | a marker with setOpacity gets opacity 1 for a full match and 0.2 for any other outcome; a marker with an icon element gets display 'none' for a record outside the selected layer and '' for any other outcome; a marker lacking setOpacity or an icon keeps that part |
| AssetRegistry.RestyleIdempotent | main.js:25-31 | applying the same treatment twice gives the display of applying it once |
| AssetRegistry.Marker.ShowMatch | main.js:25-31 | the marker's opacity and icon display become the restyling of their old values under the record's outcome |
| AssetRegistry.GullyMap.constructor | main.js:140-146 | the map starts with no records, a plain group for gullies and cluster groups for playgrounds, walkways, signage and lining |
| AssetRegistry.AppendKeepsPlacement | main.js:162-167 | adding a new marker to its layer's group, or to the map when the group is missing, keeps every earlier marker where it was and places the new one in exactly one place |
| AssetRegistry.GullyMap.AddGully | main.js:152-195 | appends exactly one record at the end with the given id, layer and status, keeping earlier records; the marker is a circle for gullies (title and radius from the status options), the layer icon if one exists, otherwise a plain marker; only a non-circle marker has setOpacity and an icon element; the new marker starts at opacity 1 with its icon shown; it joins its layer's group if that exists, else the map; the handler state is untouched; the registry invariant (which includes: every gully's marker is a circle marker without setOpacity or icon) is kept |
| AssetRegistry.ShowEach | main.js:10-32 | the forEach over the records, for an already normalised query: each record's marker ends with the restyling of its old display under its treatment, and every radius is kept |
| AssetRegistry.GullyMap.FilterAssets | main.js:7-33 | every record's marker ends with the restyling of its old display under the record's treatment for the trimmed, lower-cased search text and the selected layer; the records, their order, the groups and every radius are unchanged; a gully record's marker (consistent as the registry invariant demands) keeps its opacity and icon display exactly |
| AssetRegistry.FilterTwice | main.js:7-33 | running the filter twice with the same inputs leaves every marker as one run does |
| AssetRegistry.GullyMap.Click | main.js:168-175 | in delete mode records one delete call with the marker's id and layer and keeps the current marker; otherwise the marker becomes current and one popup call with its id, position and layer is recorded |
| AssetRegistry.GullyMap.MouseOver | main.js:176-180 | a gully marker in delete mode gets radius 10; every other case keeps the radius |
| AssetRegistry.GullyMap.MouseOut | main.js:181-187 | a gully marker gets radius 8 in delete mode and 6 otherwise; a non-gully marker keeps its radius |
| PhotoUpload.Validate | enhanced-photo-upload.js:9-32 | no error iff a file is given, the gully id is non-empty, the type is one of the five allowed and the size is at most 10 MiB and storage exists; each failure gives its own message, and the first failing check in the order file, id, type, size, storage decides which |
| PhotoUpload.SizeCeilingIsInclusive | enhanced-photo-upload.js:23-27 | 10485760 bytes is accepted and 10485761 bytes is rejected as too large |
| PhotoUpload.Sanitize | enhanced-photo-upload.js:37 | keeps the length; each character in [A-Za-z0-9.-] is kept and each other character becomes '_' |
| PhotoUpload.SanitizedCharacters | enhanced-photo-upload.js:37 | every character of a sanitised name is in [A-Za-z0-9._-] |
| PhotoUpload.SanitizeIdempotent | enhanced-photo-upload.js:37 | sanitising twice equals sanitising once |
| PhotoUpload.SanitizeKeepsSafeNames | enhanced-photo-upload.js:37 | a name made only of [A-Za-z0-9.-] is left unchanged |
| PhotoUpload.UploadFileName | enhanced-photo-upload.js:36-38 | the stored file name contains no '/' and no '?'; it opens with the timestamp's decimal digits, which read back as the timestamp, followed by '_' |
| PhotoUpload.StoragePathSegments | enhanced-photo-upload.js:36-41 | the path ends with the upload file name; when neither the layer nor the gully id holds a '/', splitting the path at '/' gives exactly the layer, the gully id and the file name |
| PhotoUpload.StampsDiffer | enhanced-photo-upload.js:36-38 | two names that each open with the digits of a number and an underscore differ when the numbers differ |
| PhotoUpload.DistinctTimestampsGiveDistinctPaths | enhanced-photo-upload.js:36-41 | for the same layer, gully and name, two different timestamps give two different storage paths |
| PhotoUpload.BuildMetadata | enhanced-photo-upload.js:44-53 | the upload-timestamp and file-size values are non-empty strings of decimal digits; uploaded-by is "unknown" exactly when no user is signed in or the user's email is itself "unknown" |
| PhotoUpload.MetadataDescribesUpload | enhanced-photo-upload.js:44-53 | content type is the file's type; uploaded-by is the user's email or "unknown"; original-filename is the unsanitised name; upload-timestamp and file-size are decimal strings that read back as the path's timestamp and the size; the path can be rebuilt from the metadata |
| PhotoUpload.Percent | enhanced-photo-upload.js:65 | the result is the nearest whole percent of bytes over total, halves rounded up |
| PhotoUpload.PercentBounds | enhanced-photo-upload.js:65 | with bytes at most the total, the percentage is in [0, 100], 0 when nothing is sent and 100 when all is sent |
| PhotoUpload.PercentMonotone | enhanced-photo-upload.js:65 | more bytes sent never gives a smaller percentage |
| PhotoUpload.SteadyTransferReportsMonotone | enhanced-photo-upload.js:62-70 | for snapshots of one transfer, the reported percentages stay within [0, 100], never decrease, and end at 100 when the last snapshot is complete |
| PhotoUpload.StreamProgress | enhanced-photo-upload.js:62-70 | each snapshot's percentage is reported in order and shown on the widget, which ends showing the last one; no hide is scheduled; without the widget's elements nothing changes |
| PhotoUpload.KnownCodeSuffix | enhanced-photo-upload.js:104-125 | a fixed explanation exists exactly for the seven codes the client knows, and it is never empty |
| PhotoUpload.Explanation | enhanced-photo-upload.js:104-134 | the explanation after the prefix is never empty, whichever branch chooses it |
| PhotoUpload.UploadErrorMessage | enhanced-photo-upload.js:99-137 | the message always starts with "Photo upload failed. " and adds a non-empty explanation |
| PhotoUpload.UploadErrorMessageCases | enhanced-photo-upload.js:104-134 | each of the seven known codes gives its fixed text whatever the message; otherwise "CORS" in the message wins over "network"; otherwise the raw message, or "Unknown error occurred." when it is empty |
| PhotoUpload.ProgressTextShowsPercent | enhanced-photo-upload.js:162 | the default progress text starts with "Uploading photo... " and ends with '%'; for a whole percentage exactly its decimal digits stand between them and read back as the percentage |
| PhotoUpload.ProgressWidget.Update | enhanced-photo-upload.js:140-164 | with all three elements present: (0, "Upload failed") hides the container; (100, "Upload complete") sets width 100, text "Upload complete!" and one more pending hide; anything else shows the container at width percent with the caption or "Uploading photo... N%"; without them nothing changes |
| PhotoUpload.ProgressWidget.HideTimerFires | enhanced-photo-upload.js:154-156 | a pending hide fires: the container is hidden and one fewer hide is pending |
| PhotoUpload.UploadPhoto | enhanced-photo-upload.js:6-96 | a failed validation rejects with its message, sends no request and leaves the widget alone; otherwise it refs and puts the storage path with the built metadata; a put that throws rejects with the mapped message; every snapshot's percentage is reported in order; an error event hides the widget, leaving its bar and text at the last report, and rejects with the mapped message; completion asks for the download URL and resolves with it (widget full, text "Upload complete!", one hide pending, container shown if any progress was) or rejects with "Failed to get download URL: " and the reason, leaving the widget at the last report; without the widget's elements the widget never changes; the layer defaults to "inspections" |
| PhotoUpload.FileNameFromUrl | enhanced-photo-upload.js:196-198 | the name taken from a URL contains no '/' and no '?' |
| PhotoUpload.DeleteTargetsUploadedPath | enhanced-photo-upload.js:196-201 | the name taken from a URL ending in "/" + an upload file name + "?" + a query without '/' leads the delete to exactly the path the upload wrote |
| PhotoUpload.DeletePath | enhanced-photo-upload.js:196-201 | when neither the layer nor the gully id holds a '/', the delete path splits at '/' into exactly the layer, the gully id and the object name taken from the URL |
| PhotoUpload.DeletePhoto | enhanced-photo-upload.js:187-211 | an empty URL sends no request; a missing store sends none; otherwise exactly a ref and a delete of the derived path, reported as deleted at that path or, when the store fails, as that path with the store's error, swallowed and never returned; the layer defaults to "inspections" |
| PhotoUpload.GetPhotoMetadata | enhanced-photo-upload.js:214-225 | an empty URL sends no request; the result is metadata exactly when the URL is non-empty, the store exists and the store answers, and then it is the store's answer; otherwise null |
| Text.ToLower | main.js:8 | keeps the length and lower-cases each ASCII capital, leaving every other character |
| Text.Trim | main.js:8 | the result is a slice of the input with only white space before and after it, and it neither starts nor ends with white space |
| Text.TrimToLower | main.js:8 | trimming then lower-casing equals lower-casing then trimming |
| Text.Contains | main.js:17-21 | a found substring is no longer than the string; the empty string is always found; a substring as long as the string is found exactly when the two are equal |
| Text.ContainsIff | main.js:17-21 | includes holds exactly when the substring occurs at some position |
| Text.Split | enhanced-photo-upload.js:197-198 | a split gives at least one piece, and no piece holds the separator |
| Text.SplitThree | enhanced-photo-upload.js:41 | three separator-free pieces joined by the separator split back into exactly those pieces |
| Text.JoinSplit | enhanced-photo-upload.js:197-198 | joining the pieces of a split with the separator gives back the string |
| Text.SplitAround | enhanced-photo-upload.js:197-198 | splitting a + sep + b gives the pieces of a followed by the pieces of b |
| Text.ParseNatToString | enhanced-photo-upload.js:49-51 | the decimal string of a number reads back as that number |
| Text.NatToStringInjective | enhanced-photo-upload.js:36-38 | different numbers have different decimal strings |
| UserCleanup.EmailIndexDomain | cleanup-db.js:20-25 | an email is a key of usersByEmail exactly when some auth user has it |
| UserCleanup.EmailIndexLastWins | cleanup-db.js:23-25 | when several auth users share an email, the last of them decides its uid |
| UserCleanup.EmailOrderEnumeratesIndex | cleanup-db.js:33 | the entries visited are the keys of usersByEmail, each exactly once |
| UserCleanup.BuildEmailIndex | cleanup-db.js:20-25 | the loop builds the last-write-wins email index and its first-insertion key order |
| UserCleanup.FirstRoleIsFirstMatch | cleanup-db.js:35-41 | when entry i is the first database entry whose email equals the auth email, the role is entry i's role, even when it has none |
| UserCleanup.FirstRoleWithoutMatch | cleanup-db.js:35-41 | with no database entry for the email there is no role |
| UserCleanup.LaterDuplicateRoleIgnored | cleanup-db.js:36-41 | a role on a later entry with the same email is not reached when the first entry has none |
| UserCleanup.FindRole | cleanup-db.js:35-41 | the search with break returns the first matching entry's role |
| UserCleanup.CleanTableProvenance | cleanup-db.js:43-49 | every record comes from a visited email, sits under that email's uid, and carries that email's first role, which is truthy, and the server timestamp |
| UserCleanup.CleanTableInclusion | cleanup-db.js:43-49 | every visited email whose first role is truthy has a record under its uid |
| UserCleanup.CleanTableSize | cleanup-db.js:33-50 | the table has at most one record per visited email |
| UserCleanup.Cleanup | cleanup-db.js:18-50 | the two nested loops build exactly the table `CleanTable` describes for the email index and key order of the auth users and the database entries |
| UserCleanup.CleanupGuarantees | cleanup-db.js:18-50 | each record is keyed by the uid the auth list gives its email and carries that email's first truthy role and the server timestamp; entries whose email has no auth user are gone; each auth email with a truthy first role is present; there are at most as many records as distinct auth emails |

## Left out

- The storage transfer itself (put, the state_changed subscription, getDownloadURL, refFromURL, getMetadata) and the promise machinery are not modelled: their outcomes are parameters and their calls a request trace.
- testConnection is not modelled: it only writes and deletes a probe object.
- The DOMContentLoaded hook, the loading spinner and the rebinding of window functions in main.js are not modelled: they are page glue with no logic.
- The setTimeout hide is modelled only as a count of pending hides (`ProgressWidget.HideTimerFires`); the one-second delay is not.
- PhotoUpload.Percent: requires a positive total. A zero-byte transfer, where the browser would show NaN, is not modelled, and Math.round's floating point is replaced by exact integer rounding (halves up).
- PhotoUpload.UploadPhoto: requires every progress snapshot to have a positive total, for the same reason as Percent.
- AssetRegistry.GullyMap.FilterAssets: requires that no two records share a marker. AddGully guarantees this, because each call creates a new marker.
- Text.ToLower and Text.Trim cover ASCII only: Unicode case mapping and Unicode white space are not modelled. Strings are sequences of characters, not UTF-16 code units.
- Falsy non-string values (an undefined id, status, code or message) are modelled as the empty string, and a file as present or absent; other JavaScript values are not modelled.
- The order in which Object.entries visits integer-like keys (which JavaScript lists first, numerically) is not modelled: usersByEmail is visited in insertion order.
- A database role that is not a string (a number, a boolean) is not modelled: roles are optional strings, truthy when non-empty.
- Auth users without an email (keyed "undefined" in JavaScript) are not modelled apart from other emails.
- The database read, the wholesale write of the new table, the verification printout and process.exit in cleanup-db.js are not modelled.
- getMarkerOptions, layerIcons, handleGullyDelete, showInspectionPopup and Leaflet itself are not part of this model: the marker options are a parameter, the handlers are recorded calls, and a marker keeps only the fields this code reads or writes.
- How cluster groups hide or merge their markers is not modelled: a group is the sequence of its members.
- Id uniqueness is not enforced by addGullyToMap, so no lemma claims it.
- A marker with an icon is treated as always having its `_icon` element. A cluster group removes that element from a marker while it is merged into a cluster, and the filter then leaves the marker's display alone; that case is not modelled.
