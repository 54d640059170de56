/**
  The photo upload pipeline of the inspection client: validation of the chosen file,
  derivation of the storage path and metadata, progress reporting, the mapping of
  storage errors to one user message, the progress widget, and the best-effort
  delete and metadata lookups.

  The blob store is an outside collaborator. Its replies are parameters of the
  operations below, and the requests the pipeline sends it are returned as a trace.
 */
module PhotoUpload {
  import opened Base
  import opened Text

  // ---------------------------------------------------------------------------
  // Validation
  // ---------------------------------------------------------------------------

  /** The browser File the user picked: its name, declared MIME type and byte length. */
  datatype PhotoFile = PhotoFile(name: string, mimeType: string, size: nat)

  const AllowedTypes: seq<string> := ["image/jpeg", "image/jpg", "image/png", "image/gif", "image/webp"]

  /** 10 MiB, the largest accepted file. */
  const MaxSize: nat := 10 * 1024 * 1024

  const NoFileMessage: string := "No file provided for upload"
  const NoGullyIdMessage: string := "No gully ID provided for upload"
  const BadTypeMessage: string := "Invalid file type. Only JPG, PNG, GIF, and WebP images are allowed."
  const TooLargeMessage: string := "File too large. Maximum size is 10MB."
  const NoStorageMessage: string := "Firebase Storage not initialized"

  /**
    The fail-fast checks made before anything touches storage, in their order:
    the first check that fails gives the error. An empty gully id is JavaScript's
    falsy id; `storageReady` says whether the storage service object exists.
   */
  function Validate(file: Option<PhotoFile>, gullyId: string, storageReady: bool): (error: Option<string>)
    ensures error == None <==>
      file.Some? && gullyId != "" && file.value.mimeType in AllowedTypes && file.value.size <= MaxSize && storageReady
    ensures error == Some(NoFileMessage) <==> file.None?
    ensures error == Some(NoGullyIdMessage) <==> file.Some? && gullyId == ""
    ensures error == Some(BadTypeMessage) <==>
      file.Some? && gullyId != "" && file.value.mimeType !in AllowedTypes
    ensures error == Some(TooLargeMessage) <==>
      file.Some? && gullyId != "" && file.value.mimeType in AllowedTypes && file.value.size > MaxSize
    ensures error == Some(NoStorageMessage) <==>
      file.Some? && gullyId != "" && file.value.mimeType in AllowedTypes && file.value.size <= MaxSize && !storageReady
  {
    if file.None? then Some(NoFileMessage)
    else if gullyId == "" then Some(NoGullyIdMessage)
    else if file.value.mimeType !in AllowedTypes then Some(BadTypeMessage)
    else if file.value.size > MaxSize then Some(TooLargeMessage)
    else if !storageReady then Some(NoStorageMessage)
    else None
  }

  /** The size ceiling is inclusive: exactly 10485760 bytes passes, one byte more fails. */
  lemma SizeCeilingIsInclusive(name: string, mimeType: string, gullyId: string)
    requires mimeType in AllowedTypes && gullyId != ""
    ensures Validate(Some(PhotoFile(name, mimeType, 10485760)), gullyId, true) == None
    ensures Validate(Some(PhotoFile(name, mimeType, 10485761)), gullyId, true) == Some(TooLargeMessage)
  {
  }

  // ---------------------------------------------------------------------------
  // File name, storage path and metadata
  // ---------------------------------------------------------------------------

  /** The characters the sanitiser leaves alone: [A-Za-z0-9.-]. */
  predicate IsKept(c: char)
  {
    'A' <= c <= 'Z' || 'a' <= c <= 'z' || '0' <= c <= '9' || c == '.' || c == '-'
  }

  /** The file name with every character outside [A-Za-z0-9.-] replaced by '_'. */
  function Sanitize(name: string): (r: string)
    ensures |r| == |name|
    ensures forall i :: 0 <= i < |name| && IsKept(name[i]) ==> r[i] == name[i]
    ensures forall i :: 0 <= i < |name| && !IsKept(name[i]) ==> r[i] == '_'
  {
    if name == [] then []
    else [if IsKept(name[0]) then name[0] else '_'] + Sanitize(name[1..])
  }

  /** Every character of a sanitised name is in [A-Za-z0-9._-]. */
  lemma SanitizedCharacters(name: string)
    ensures forall c :: c in Sanitize(name) ==> IsKept(c) || c == '_'
  {
    var r := Sanitize(name);
    forall c | c in r ensures IsKept(c) || c == '_' {
      var i :| 0 <= i < |r| && r[i] == c;
    }
  }

  /** Sanitising twice is sanitising once. */
  lemma {:induction false} SanitizeIdempotent(name: string)
    ensures Sanitize(Sanitize(name)) == Sanitize(name)
  {
    if name != [] {
      var r := Sanitize(name);
      assert r[1..] == Sanitize(name[1..]);
      SanitizeIdempotent(name[1..]);
    }
  }

  /** A name made only of kept characters is its own sanitisation. */
  lemma {:induction false} SanitizeKeepsSafeNames(name: string)
    requires forall i :: 0 <= i < |name| ==> IsKept(name[i])
    ensures Sanitize(name) == name
  {
    if name != [] {
      assert forall i :: 0 <= i < |name[1..]| ==> name[1..][i] == name[i + 1];
      SanitizeKeepsSafeNames(name[1..]);
    }
  }

  /**
    `${timestamp}_${sanitizedName}`: the object name the upload stores under. It is one
    path segment without a query mark, and it starts with the timestamp's digits and
    an underscore, so the timestamp can be read back from it.
   */
  function UploadFileName(timestamp: nat, name: string): (fileName: string)
    ensures '/' !in fileName && '?' !in fileName
    ensures var n := |NatToString(timestamp)|;
      && n < |fileName| && fileName[n] == '_'
      && (forall i :: 0 <= i < n ==> IsDigit(fileName[i]))
      && ParseNat(fileName[..n]) == timestamp
  {
    var digits := NatToString(timestamp);
    var fileName := digits + "_" + Sanitize(name);
    SanitizedCharacters(name);
    assert '/' !in digits && '?' !in digits by {
      forall i | 0 <= i < |digits| ensures digits[i] != '/' && digits[i] != '?' {
        assert IsDigit(digits[i]);
      }
    }
    assert fileName[..|digits|] == digits;
    ParseNatToString(timestamp);
    fileName
  }

  /** `${layerType}/${gullyId}/${fileName}`: where an upload is stored. */
  function StoragePath(layerType: string, gullyId: string, timestamp: nat, name: string): string
  {
    layerType + "/" + gullyId + "/" + UploadFileName(timestamp, name)
  }

  /**
    A storage path ends with its upload file name, and when neither the layer nor the
    id holds a '/', splitting it at '/' gives back exactly the layer, the id and the
    file name.
   */
  lemma StoragePathSegments(layerType: string, gullyId: string, timestamp: nat, name: string)
    ensures var path, fileName := StoragePath(layerType, gullyId, timestamp, name), UploadFileName(timestamp, name);
      |fileName| < |path| && path[|path| - |fileName|..] == fileName
    ensures '/' !in layerType && '/' !in gullyId ==>
      Split(StoragePath(layerType, gullyId, timestamp, name), '/') == [layerType, gullyId, UploadFileName(timestamp, name)]
  {
    var fileName := UploadFileName(timestamp, name);
    var path := StoragePath(layerType, gullyId, timestamp, name);
    assert path == layerType + ['/'] + gullyId + ['/'] + fileName;
    if '/' !in layerType && '/' !in gullyId {
      SplitThree(layerType, gullyId, fileName, '/');
    }
  }

  /** Strings with equal ends and different middles differ. */
  lemma MiddleDiffers(prefix: string, m1: string, m2: string, tail: string)
    requires m1 != m2
    ensures prefix + m1 + tail != prefix + m2 + tail
  {
    var p1, p2 := prefix + m1 + tail, prefix + m2 + tail;
    if |m1| == |m2| {
      assert p1[|prefix|..|prefix| + |m1|] == m1;
      assert p2[|prefix|..|prefix| + |m2|] == m2;
    } else {
      assert |p1| != |p2|;
    }
  }

  /** Names that open with the digits of different numbers and an underscore differ. */
  lemma StampsDiffer(f1: string, n1: nat, t1: nat, f2: string, n2: nat, t2: nat)
    requires n1 < |f1| && f1[n1] == '_' && (forall i :: 0 <= i < n1 ==> IsDigit(f1[i])) && ParseNat(f1[..n1]) == t1
    requires n2 < |f2| && f2[n2] == '_' && (forall i :: 0 <= i < n2 ==> IsDigit(f2[i])) && ParseNat(f2[..n2]) == t2
    requires t1 != t2
    ensures f1 != f2
  {
    if n1 < n2 {
      assert IsDigit(f2[n1]) && f1[n1] != f2[n1];
    } else if n2 < n1 {
      assert IsDigit(f1[n2]) && f1[n2] != f2[n2];
    } else {
      assert f1[..n1] != f2[..n2];
    }
  }

  /** Two uploads of the same name for the same gully at different instants get different paths. */
  lemma DistinctTimestampsGiveDistinctPaths(layerType: string, gullyId: string, name: string, t1: nat, t2: nat)
    requires t1 != t2
    ensures StoragePath(layerType, gullyId, t1, name) != StoragePath(layerType, gullyId, t2, name)
  {
    var prefix := layerType + "/" + gullyId + "/";
    var f1, f2 := UploadFileName(t1, name), UploadFileName(t2, name);
    StampsDiffer(f1, |NatToString(t1)|, t1, f2, |NatToString(t2)|, t2);
    assert StoragePath(layerType, gullyId, t1, name) == prefix + f1;
    assert StoragePath(layerType, gullyId, t2, name) == prefix + f2;
    MiddleDiffers(prefix, f1, f2, []);
  }

  /** The custom metadata attached to an uploaded object, all values strings. */
  datatype UploadMetadata = UploadMetadata(
    contentType: string,
    uploadedBy: string,
    gullyId: string,
    uploadTimestamp: string,
    originalFilename: string,
    fileSize: string)

  const UnknownUploader: string := "unknown"

  /** The metadata record of an upload; `currentUserEmail` is the signed-in user's email, if any. */
  function BuildMetadata(file: PhotoFile, gullyId: string, timestamp: nat, currentUserEmail: Option<string>): (m: UploadMetadata)
    ensures m.uploadTimestamp != "" && forall i :: 0 <= i < |m.uploadTimestamp| ==> IsDigit(m.uploadTimestamp[i])
    ensures m.fileSize != "" && forall i :: 0 <= i < |m.fileSize| ==> IsDigit(m.fileSize[i])
    ensures m.uploadedBy == UnknownUploader <==> currentUserEmail.None? || currentUserEmail.value == UnknownUploader
  {
    UploadMetadata(
      file.mimeType,
      if currentUserEmail.Some? then currentUserEmail.value else UnknownUploader,
      gullyId,
      NatToString(timestamp),
      file.name,
      NatToString(file.size))
  }

  /**
    The metadata describes the upload it travels with: the declared type, the uploader
    or "unknown", the unsanitised name, the size and the very timestamp in the path,
    so that the storage path can be rebuilt from the metadata alone.
   */
  lemma MetadataDescribesUpload(file: PhotoFile, layerType: string, gullyId: string, timestamp: nat, currentUserEmail: Option<string>)
    ensures var m := BuildMetadata(file, gullyId, timestamp, currentUserEmail);
      && m.contentType == file.mimeType
      && m.uploadedBy == (if currentUserEmail.Some? then currentUserEmail.value else UnknownUploader)
      && m.originalFilename == file.name
      && m.gullyId == gullyId
      && (forall i :: 0 <= i < |m.uploadTimestamp| ==> IsDigit(m.uploadTimestamp[i]))
      && ParseNat(m.uploadTimestamp) == timestamp
      && (forall i :: 0 <= i < |m.fileSize| ==> IsDigit(m.fileSize[i]))
      && ParseNat(m.fileSize) == file.size
      && StoragePath(layerType, gullyId, timestamp, file.name)
         == layerType + "/" + m.gullyId + "/" + m.uploadTimestamp + "_" + Sanitize(m.originalFilename)
  {
    ParseNatToString(timestamp);
    ParseNatToString(file.size);
  }

  // ---------------------------------------------------------------------------
  // Progress
  // ---------------------------------------------------------------------------

  /**
    Math.round(bytesTransferred / totalBytes * 100) in integer arithmetic: the
    nearest whole percent, halves rounded up.
   */
  function Percent(bytesTransferred: nat, totalBytes: nat): (p: nat)
    requires totalBytes > 0
    ensures 2 * totalBytes * p <= 200 * bytesTransferred + totalBytes < 2 * totalBytes * (p + 1)
  {
    (200 * bytesTransferred + totalBytes) / (2 * totalBytes)
  }

  lemma MulLeft(k: nat, a: int, b: int)
    requires a <= b
    ensures k * a <= k * b
  {
    assert k * b - k * a == k * (b - a);
  }

  /** A transfer in progress shows between 0 and 100 percent; nothing sent is 0, everything sent is 100. */
  lemma PercentBounds(bytesTransferred: nat, totalBytes: nat)
    requires 0 < totalBytes && bytesTransferred <= totalBytes
    ensures Percent(bytesTransferred, totalBytes) <= 100
    ensures bytesTransferred == 0 ==> Percent(bytesTransferred, totalBytes) == 0
    ensures bytesTransferred == totalBytes ==> Percent(bytesTransferred, totalBytes) == 100
  {
    var p := Percent(bytesTransferred, totalBytes);
    var t := 2 * totalBytes;
    if p >= 101 {
      MulLeft(t, 101, p);
      assert false;
    }
    if bytesTransferred == 0 && p >= 1 {
      MulLeft(t, 1, p);
      assert false;
    }
    if bytesTransferred == totalBytes && p <= 99 {
      MulLeft(t, p + 1, 100);
      assert false;
    }
  }

  /** More bytes sent never shows a smaller percentage. */
  lemma PercentMonotone(b1: nat, b2: nat, totalBytes: nat)
    requires 0 < totalBytes && b1 <= b2
    ensures Percent(b1, totalBytes) <= Percent(b2, totalBytes)
  {
    var p1, p2 := Percent(b1, totalBytes), Percent(b2, totalBytes);
    if p1 > p2 {
      MulLeft(2 * totalBytes, p2 + 1, p1);
      assert false;
    }
  }

  /** A progress snapshot from the storage SDK. */
  datatype Snapshot = Snapshot(bytesTransferred: nat, totalBytes: nat)

  ghost predicate PositiveTotals(progress: seq<Snapshot>)
  {
    forall i :: 0 <= i < |progress| ==> progress[i].totalBytes > 0
  }

  /** The snapshots of one transfer: a fixed positive total and a byte count that only grows up to it. */
  ghost predicate SteadyTransfer(progress: seq<Snapshot>)
  {
    && (forall i :: 0 <= i < |progress| ==>
          0 < progress[i].totalBytes == progress[0].totalBytes
          && progress[i].bytesTransferred <= progress[i].totalBytes)
    && (forall i, j :: 0 <= i <= j < |progress| ==> progress[i].bytesTransferred <= progress[j].bytesTransferred)
  }

  /** `reported` holds the percentage computed for each snapshot, in order. */
  ghost predicate ReportsProgress(reported: seq<nat>, progress: seq<Snapshot>)
  {
    && |reported| == |progress|
    && forall i :: 0 <= i < |progress| ==>
         progress[i].totalBytes > 0 && reported[i] == Percent(progress[i].bytesTransferred, progress[i].totalBytes)
  }

  /**
    The percentages reported for a steady transfer stay in [0, 100], never go down,
    and end at 100 when the last snapshot has every byte.
   */
  lemma SteadyTransferReportsMonotone(progress: seq<Snapshot>, reported: seq<nat>)
    requires SteadyTransfer(progress) && ReportsProgress(reported, progress)
    ensures forall i :: 0 <= i < |reported| ==> reported[i] <= 100
    ensures forall i, j :: 0 <= i <= j < |reported| ==> reported[i] <= reported[j]
    ensures |progress| > 0 && progress[|progress| - 1].bytesTransferred == progress[|progress| - 1].totalBytes
            ==> reported[|reported| - 1] == 100
  {
    forall i | 0 <= i < |reported| ensures reported[i] <= 100 {
      PercentBounds(progress[i].bytesTransferred, progress[i].totalBytes);
    }
    forall i, j | 0 <= i <= j < |reported| ensures reported[i] <= reported[j] {
      PercentMonotone(progress[i].bytesTransferred, progress[j].bytesTransferred, progress[0].totalBytes);
    }
    if |progress| > 0 {
      var last := progress[|progress| - 1];
      PercentBounds(last.bytesTransferred, last.totalBytes);
    }
  }

  // ---------------------------------------------------------------------------
  // Error messages
  // ---------------------------------------------------------------------------

  /** An error from the storage SDK; an absent code or message is the empty string. */
  datatype StorageError = StorageError(code: string, message: string)

  const FailurePrefix: string := "Photo upload failed. "
  const CorsSuffix: string := "CORS error detected. Please contact administrator to fix Firebase Storage CORS settings."
  const NetworkSuffix: string := "Network error. Please check your connection and try again."
  const UnknownSuffix: string := "Unknown error occurred."

  const UnauthorizedSuffix: string := "Permission denied. Please check your authentication."
  const CanceledSuffix: string := "Upload was canceled."
  const UnknownCodeSuffix: string := "Unknown error occurred. Please try again."
  const ChecksumSuffix: string := "File corruption detected. Please try uploading again."
  const RetryLimitSuffix: string := "Upload failed after multiple attempts. Please check your connection and try again."
  const FormatSuffix: string := "Invalid file format. Please use JPG, PNG, GIF, or WebP images."
  const SliceSuffix: string := "File processing error. Please try a different image."

  /** The storage error codes the client explains in its own words. */
  const KnownCodes: seq<string> := [
    "storage/unauthorized", "storage/canceled", "storage/unknown", "storage/invalid-checksum",
    "storage/retry-limit-exceeded", "storage/invalid-format", "storage/cannot-slice-blob"]

  /** The fixed explanation for each of the seven storage error codes the client knows. */
  function KnownCodeSuffix(code: string): (suffix: Option<string>)
    ensures suffix.Some? <==> code in KnownCodes
    ensures suffix.Some? ==> suffix.value != ""
  {
    if code == "storage/unauthorized" then Some(UnauthorizedSuffix)
    else if code == "storage/canceled" then Some(CanceledSuffix)
    else if code == "storage/unknown" then Some(UnknownCodeSuffix)
    else if code == "storage/invalid-checksum" then Some(ChecksumSuffix)
    else if code == "storage/retry-limit-exceeded" then Some(RetryLimitSuffix)
    else if code == "storage/invalid-format" then Some(FormatSuffix)
    else if code == "storage/cannot-slice-blob" then Some(SliceSuffix)
    else None
  }

  /** What follows the prefix: the known code's text, the CORS or network hint, or the raw message. */
  function Explanation(e: StorageError): (suffix: string)
    ensures suffix != ""
  {
    match KnownCodeSuffix(e.code)
    case Some(suffix) => suffix
    case None =>
      if Contains(e.message, "CORS") then CorsSuffix
      else if Contains(e.message, "network") then NetworkSuffix
      else if e.message != "" then e.message
      else UnknownSuffix
  }

  /** The single user-facing message for a failed upload. */
  function UploadErrorMessage(e: StorageError): (message: string)
    ensures |message| > |FailurePrefix| && message[..|FailurePrefix|] == FailurePrefix
  {
    var suffix := Explanation(e);
    assert (FailurePrefix + suffix)[..|FailurePrefix|] == FailurePrefix;
    FailurePrefix + suffix
  }

  /**
    How the message is chosen: a known code decides it whatever the message says;
    otherwise "CORS" in the message wins over "network"; otherwise the raw message,
    or "Unknown error occurred." when there is none.
   */
  lemma UploadErrorMessageCases(e: StorageError)
    ensures KnownCodeSuffix(e.code).Some? ==>
      forall m :: UploadErrorMessage(StorageError(e.code, m)) == FailurePrefix + KnownCodeSuffix(e.code).value
    ensures KnownCodeSuffix(e.code).None? && (exists i :: OccursAt(e.message, "CORS", i)) ==>
      UploadErrorMessage(e) == FailurePrefix + CorsSuffix
    ensures KnownCodeSuffix(e.code).None? && (forall i :: !OccursAt(e.message, "CORS", i))
            && (exists i :: OccursAt(e.message, "network", i)) ==>
      UploadErrorMessage(e) == FailurePrefix + NetworkSuffix
    ensures KnownCodeSuffix(e.code).None? && (forall i :: !OccursAt(e.message, "CORS", i))
            && (forall i :: !OccursAt(e.message, "network", i)) ==>
      UploadErrorMessage(e) == FailurePrefix + (if e.message != "" then e.message else UnknownSuffix)
  {
    ContainsIff(e.message, "CORS");
    ContainsIff(e.message, "network");
  }

  // ---------------------------------------------------------------------------
  // The progress widget
  // ---------------------------------------------------------------------------

  /** The container's style.display: never set (''), 'block' or 'none'. */
  datatype Display = Unset | Block | Hidden

  const FailedLabel: string := "Upload failed"
  const CompleteLabel: string := "Upload complete"
  const CompleteText: string := "Upload complete!"

  const ProgressPrefix: string := "Uploading photo... "

  /** The text shown while uploading when no caption is given. */
  function ProgressText(percent: int): string
  {
    ProgressPrefix + IntToString(percent) + "%"
  }

  /**
    The progress text is the prefix, then the percentage, then '%'; for a whole
    percentage exactly its decimal digits stand between the two, so it reads back.
   */
  lemma ProgressTextShowsPercent(percent: int)
    ensures var text := ProgressText(percent);
      && |ProgressPrefix| + 1 < |text| && text[..|ProgressPrefix|] == ProgressPrefix && text[|text| - 1] == '%'
      && (percent >= 0 ==>
            var digits := text[|ProgressPrefix|..|text| - 1];
            (forall i :: 0 <= i < |digits| ==> IsDigit(digits[i])) && ParseNat(digits) == percent)
  {
    var text := ProgressText(percent);
    assert text[..|ProgressPrefix|] == ProgressPrefix;
    assert text[|ProgressPrefix|..|text| - 1] == IntToString(percent);
    if percent >= 0 {
      ParseNatToString(percent);
    }
  }

  /**
    The page's upload progress widget: a container, a bar and a text element.
    `present` says whether all three elements exist on the page.
   */
  class ProgressWidget {
    const present: bool
    var display: Display
    /** The bar's style.width, in percent. */
    var barWidth: int
    var text: string
    /** Hide timers scheduled after a completed upload and not yet fired. */
    var pendingHides: nat

    constructor (present: bool)
      ensures this.present == present
      ensures display == Unset && barWidth == 0 && text == "" && pendingHides == 0
    {
      this.present := present;
      display := Unset;
      barWidth := 0;
      text := "";
      pendingHides := 0;
    }

    /**
      Shows progress: a failure hides the container, a completion fills the bar and
      schedules a hide, anything else shows the bar at `percent` with the caption or
      the default progress text. Without all three elements nothing happens.
     */
    method Update(percent: int, caption: Option<string>)
      modifies this
      ensures !present ==> unchanged(this)
      ensures present && percent == 0 && caption == Some(FailedLabel) ==>
        display == Hidden && barWidth == old(barWidth) && text == old(text) && pendingHides == old(pendingHides)
      ensures present && percent == 100 && caption == Some(CompleteLabel) ==>
        display == old(display) && barWidth == 100 && text == CompleteText && pendingHides == old(pendingHides) + 1
      ensures present && !(percent == 0 && caption == Some(FailedLabel)) && !(percent == 100 && caption == Some(CompleteLabel)) ==>
        && display == Block && barWidth == percent && pendingHides == old(pendingHides)
        && text == (if caption.Some? && caption.value != "" then caption.value else ProgressText(percent))
    {
      if present {
        if percent == 0 && caption == Some(FailedLabel) {
          display := Hidden;
          return;
        }
        if percent == 100 && caption == Some(CompleteLabel) {
          barWidth := 100;
          text := CompleteText;
          pendingHides := pendingHides + 1;
          return;
        }
        display := Block;
        barWidth := percent;
        text := if caption.Some? && caption.value != "" then caption.value else ProgressText(percent);
      }
    }

    /** One scheduled hide timer fires and hides the container. */
    method HideTimerFires()
      requires pendingHides > 0
      modifies this
      ensures display == Hidden && pendingHides == old(pendingHides) - 1
      ensures barWidth == old(barWidth) && text == old(text)
    {
      display := Hidden;
      pendingHides := pendingHides - 1;
    }
  }

  // ---------------------------------------------------------------------------
  // Upload
  // ---------------------------------------------------------------------------

  /** A request the pipeline sends to the blob store. */
  datatype StorageRequest =
    | Ref(path: string)
    | Put(path: string, metadata: UploadMetadata)
    | GetDownloadUrl(path: string)
    | Delete(path: string)
    | RefFromUrl(url: string)
    | GetMetadata(url: string)

  /** How the terminal event of a started transfer went. */
  datatype TransferEnd = Completed | Errored(error: StorageError)

  /**
    What the blob store does with a put: either the call throws at once, or it
    reports progress snapshots and then exactly one terminal event.
   */
  datatype Transfer =
    | PutThrew(error: StorageError)
    | Streamed(progress: seq<Snapshot>, end: TransferEnd)

  const DownloadUrlFailurePrefix: string := "Failed to get download URL: "

  /** The layer an upload or a delete uses when the caller names none. */
  const InspectionsLayer: string := "inspections"

  /**
    The state_changed progress callback, once per snapshot in order: each snapshot's
    percentage is reported and shown on the widget.
   */
  method StreamProgress(progress: seq<Snapshot>, widget: ProgressWidget) returns (reported: seq<nat>)
    requires PositiveTotals(progress)
    modifies widget
    ensures ReportsProgress(reported, progress)
    ensures widget.pendingHides == old(widget.pendingHides)
    ensures !widget.present || |progress| == 0 ==> unchanged(widget)
    ensures widget.present && |progress| > 0 ==>
      && widget.display == Block
      && widget.barWidth == reported[|reported| - 1]
      && widget.text == ProgressText(reported[|reported| - 1])
  {
    reported := [];
    var i := 0;
    while i < |progress|
      invariant 0 <= i <= |progress|
      invariant |reported| == i
      invariant forall k :: 0 <= k < i ==>
        reported[k] == Percent(progress[k].bytesTransferred, progress[k].totalBytes)
      invariant widget.pendingHides == old(widget.pendingHides)
      invariant !widget.present || i == 0 ==> unchanged(widget)
      invariant widget.present && i > 0 ==>
        && widget.display == Block
        && widget.barWidth == reported[i - 1]
        && widget.text == ProgressText(reported[i - 1])
    {
      var percent := Percent(progress[i].bytesTransferred, progress[i].totalBytes);
      reported := reported + [percent];
      widget.Update(percent, None);
      i := i + 1;
    }
  }

  /**
    Uploads a photo. After validation it stores under StoragePath with BuildMetadata,
    reports one percentage per snapshot to the widget, and settles with the download
    URL or exactly one error message. `now` is Date.now(); `urlReply` is the store's
    answer to getDownloadURL (a URL or an error message). Validation failures send
    no request at all.
   */
  method UploadPhoto(
    file: Option<PhotoFile>, gullyId: string, layerType: string := InspectionsLayer, storageReady: bool,
    now: nat, currentUserEmail: Option<string>, transfer: Transfer, urlReply: Result<string, string>,
    widget: ProgressWidget)
    returns (outcome: Result<string, string>, requests: seq<StorageRequest>, reported: seq<nat>)
    requires transfer.Streamed? ==> PositiveTotals(transfer.progress)
    modifies widget
    ensures !widget.present ==> unchanged(widget)
    ensures Validate(file, gullyId, storageReady).Some? ==>
      && outcome == Failure(Validate(file, gullyId, storageReady).value)
      && requests == [] && reported == [] && unchanged(widget)
    ensures Validate(file, gullyId, storageReady).None? ==>
      var path := StoragePath(layerType, gullyId, now, file.value.name);
      var start := [Ref(path), Put(path, BuildMetadata(file.value, gullyId, now, currentUserEmail))];
      match transfer
      case PutThrew(e) =>
        outcome == Failure(UploadErrorMessage(e)) && requests == start && reported == [] && unchanged(widget)
      case Streamed(progress, Errored(e)) =>
        && outcome == Failure(UploadErrorMessage(e)) && requests == start
        && ReportsProgress(reported, progress)
        && (widget.present ==>
              && widget.display == Hidden && widget.pendingHides == old(widget.pendingHides)
              && (|progress| == 0 ==> widget.barWidth == old(widget.barWidth) && widget.text == old(widget.text))
              && (|progress| > 0 ==>
                    widget.barWidth == reported[|reported| - 1] && widget.text == ProgressText(reported[|reported| - 1])))
      case Streamed(progress, Completed) =>
        && requests == start + [GetDownloadUrl(path)]
        && ReportsProgress(reported, progress)
        && (urlReply.Success? ==>
              && outcome == Success(urlReply.value)
              && (widget.present ==>
                    && widget.barWidth == 100 && widget.text == CompleteText
                    && widget.pendingHides == old(widget.pendingHides) + 1
                    && widget.display == (if |progress| > 0 then Block else old(widget.display))))
        && (urlReply.Failure? ==>
              && outcome == Failure(DownloadUrlFailurePrefix + urlReply.error)
              && (|progress| == 0 ==> unchanged(widget))
              && (widget.present && |progress| > 0 ==>
                    && widget.display == Block && widget.pendingHides == old(widget.pendingHides)
                    && widget.barWidth == reported[|reported| - 1]
                    && widget.text == ProgressText(reported[|reported| - 1])))
  {
    var invalid := Validate(file, gullyId, storageReady);
    if invalid.Some? {
      return Failure(invalid.value), [], [];
    }
    var path := StoragePath(layerType, gullyId, now, file.value.name);
    var metadata := BuildMetadata(file.value, gullyId, now, currentUserEmail);
    requests := [Ref(path), Put(path, metadata)];
    reported := [];
    match transfer {
      case PutThrew(e) =>
        outcome := Failure(UploadErrorMessage(e));
      case Streamed(progress, end) =>
        reported := StreamProgress(progress, widget);
        match end {
          case Errored(e) =>
            widget.Update(0, Some(FailedLabel));
            outcome := Failure(UploadErrorMessage(e));
          case Completed =>
            requests := requests + [GetDownloadUrl(path)];
            match urlReply {
              case Success(url) =>
                widget.Update(100, Some(CompleteLabel));
                outcome := Success(url);
              case Failure(message) =>
                outcome := Failure(DownloadUrlFailurePrefix + message);
            }
        }
    }
  }

  // ---------------------------------------------------------------------------
  // Delete and metadata lookup
  // ---------------------------------------------------------------------------

  /** url.split('/') last piece, then split('?') first piece: the object name in a URL. */
  function FileNameFromUrl(url: string): (name: string)
    ensures '/' !in name && '?' !in name
  {
    var segments := Split(url, '/');
    var last := segments[|segments| - 1];
    SplitKeepsAbsent(last, '?', '/');
    Split(last, '?')[0]
  }

  /**
    The path a delete targets: `${layerType}/${gullyId}/${fileName}`. When neither the
    layer nor the id holds a '/', the path splits at '/' into exactly the layer, the id
    and the object name of the URL.
   */
  function DeletePath(url: string, gullyId: string, layerType: string): (path: string)
    ensures '/' !in layerType && '/' !in gullyId ==>
      Split(path, '/') == [layerType, gullyId, FileNameFromUrl(url)]
  {
    var fileName := FileNameFromUrl(url);
    var path := layerType + "/" + gullyId + "/" + fileName;
    assert path == layerType + ['/'] + gullyId + ['/'] + fileName;
    if '/' !in layerType && '/' !in gullyId then
      SplitThree(layerType, gullyId, fileName, '/');
      path
    else path
  }

  /**
    A URL that ends in "/" + name + "?" + query, with an upload file name and a query
    free of '/', leads the delete back to the very path the upload wrote.
   */
  lemma DeleteTargetsUploadedPath(prefix: string, timestamp: nat, name: string, query: string, layerType: string, gullyId: string)
    requires '/' !in query
    ensures DeletePath(prefix + "/" + UploadFileName(timestamp, name) + "?" + query, gullyId, layerType)
            == StoragePath(layerType, gullyId, timestamp, name)
  {
    var fileName := UploadFileName(timestamp, name);
    var tail := fileName + "?" + query;
    assert '/' !in tail by {
      forall i | 0 <= i < |tail| ensures tail[i] != '/' {
        if i < |fileName| { assert tail[i] == fileName[i]; }
        else if i > |fileName| { assert tail[i] == query[i - |fileName| - 1]; }
      }
    }
    var url := prefix + "/" + fileName + "?" + query;
    assert url == prefix + ['/'] + tail;
    SplitAround(prefix, '/', tail);
    SplitWithoutSeparator(tail, '/');
    var segments := Split(url, '/');
    assert segments[|segments| - 1] == tail;
    assert tail == fileName + ['?'] + query;
    SplitAround(fileName, '?', query);
    SplitWithoutSeparator(fileName, '?');
    assert FileNameFromUrl(url) == fileName;
  }

  /** What deletePhoto logged: nothing to delete, deleted, or a swallowed failure. */
  datatype DeleteReport =
    | NoUrl
    | StorageMissing
    | Deleted(path: string)
    | DeleteFailed(path: string, error: StorageError)

  /** The requests a delete sent and what it reported; a delete never rejects. */
  datatype DeleteRun = DeleteRun(requests: seq<StorageRequest>, report: DeleteReport)

  /**
    deletePhoto: best effort. An empty URL sends nothing; otherwise the object name is
    taken from the URL and a delete is sent; `reply` is the store's error, if any,
    which is logged and swallowed.
   */
  function DeletePhoto(url: string, gullyId: string, layerType: string := InspectionsLayer, storageReady: bool, reply: Option<StorageError>): (run: DeleteRun)
    ensures url == "" ==> run == DeleteRun([], NoUrl)
    ensures url != "" && !storageReady ==> run == DeleteRun([], StorageMissing)
    ensures url != "" && storageReady ==>
      && run.requests == [Ref(DeletePath(url, gullyId, layerType)), Delete(DeletePath(url, gullyId, layerType))]
      && (run.report.DeleteFailed? <==> reply.Some?)
    ensures url != "" && storageReady ==>
      run.report == (if reply.Some? then DeleteFailed(DeletePath(url, gullyId, layerType), reply.value)
                     else Deleted(DeletePath(url, gullyId, layerType)))
  {
    if url == "" then DeleteRun([], NoUrl)
    else if !storageReady then DeleteRun([], StorageMissing)
    else
      var path := DeletePath(url, gullyId, layerType);
      var requests := [Ref(path), Delete(path)];
      match reply
      case None => DeleteRun(requests, Deleted(path))
      case Some(e) => DeleteRun(requests, DeleteFailed(path, e))
  }

  /** The requests a metadata lookup sent and its answer; a lookup never rejects. */
  datatype MetadataRun = MetadataRun(requests: seq<StorageRequest>, metadata: Option<UploadMetadata>)

  /**
    getPhotoMetadata: null for an empty URL, a missing store or any error of the store
    (`reply` is its answer), the object's metadata otherwise.
   */
  function GetPhotoMetadata(url: string, storageReady: bool, reply: Result<UploadMetadata, StorageError>): (run: MetadataRun)
    ensures url == "" ==> run.requests == []
    ensures run.metadata.Some? <==> url != "" && storageReady && reply.Success?
    ensures run.metadata.Some? ==> run.metadata.value == reply.value
  {
    if url == "" then MetadataRun([], None)
    else if !storageReady then MetadataRun([], None)
    else
      var requests := [RefFromUrl(url), GetMetadata(url)];
      match reply
      case Success(m) => MetadataRun(requests, Some(m))
      case Failure(_) => MetadataRun(requests, None)
  }
}
