/**
 * The drag-and-drop hook of hooks/useDragAndDrop.ts.
 *
 * The `dragActive` state becomes the field of a `DragState` object. A drop
 * event is its list of files (only the first is examined), and the hook's
 * callbacks are represented by the `Callback` value naming the one that runs
 * and its argument.
 */
module UseDragAndDrop {
  import opened Common

  /** The two properties of a `File` the hook reads: its MIME type and size in bytes. */
  datatype FileInfo = FileInfo(mimeType: string, size: nat)

  /** The default of `maxFileSize`: 10 MiB. */
  const Mebibyte := 1024 * 1024
  const DefaultMaxFileSize := 10 * Mebibyte

  /** `isValidFileType`: any type when no list (or an empty one) is given. */
  function IsValidFileType(acceptedTypes: Option<seq<string>>, file: FileInfo): (r: bool)
    ensures r <==> (acceptedTypes.None? || |acceptedTypes.value| == 0 ||
                    exists k :: 0 <= k < |acceptedTypes.value| && acceptedTypes.value[k] == file.mimeType)
  {
    acceptedTypes.None? || acceptedTypes.value == [] || file.mimeType in acceptedTypes.value
  }

  /** `isValidFileSize`: the limit itself is allowed. */
  function IsValidFileSize(maxFileSize: int, file: FileInfo): bool {
    file.size <= maxFileSize
  }

  /** `Math.round(maxFileSize / (1024 * 1024))`: halves round upwards. */
  function RoundedMegabytes(maxFileSize: int): (m: int)
    ensures 2 * Mebibyte * m - Mebibyte <= 2 * maxFileSize < 2 * Mebibyte * m + Mebibyte
  {
    (maxFileSize + Mebibyte / 2) / Mebibyte
  }

  /** A whole number of mebibytes is printed as itself. */
  lemma RoundedWholeMegabytes(k: int)
    ensures RoundedMegabytes(k * Mebibyte) == k
  {
    var m := RoundedMegabytes(k * Mebibyte);
    assert 2 * Mebibyte * (m - k) - Mebibyte <= 0 < 2 * Mebibyte * (m - k) + Mebibyte;
  }

  const TypeErrorPrefix := "サポートされていないファイル形式です。許可された形式: "
  const SizeErrorPrefix := "ファイルサイズが大きすぎます。最大サイズ: "

  /** The message for a file of an unlisted type. */
  function TypeError(acceptedTypes: seq<string>): string {
    TypeErrorPrefix + Join(acceptedTypes, ", ")
  }

  /** The message for a file over the limit. */
  function SizeError(maxFileSize: int): string {
    SizeErrorPrefix + IntToString(RoundedMegabytes(maxFileSize)) + "MB"
  }

  /** Which of the hook's callbacks a drop runs. */
  datatype Callback = NoCallback | OnError(error: string) | OnDrop(files: seq<FileInfo>)

  /** The outcome of a drop for the options `acceptedTypes`, `maxFileSize`,
      and whether an `onError` callback was given. */
  function DropCall(files: seq<FileInfo>, acceptedTypes: Option<seq<string>>, maxFileSize: int, hasOnError: bool): (r: Callback)
    ensures files == [] ==> r == NoCallback
    ensures r.OnError? ==> hasOnError && r.error != []
    ensures r.OnDrop? ==> r.files == files
  {
    if files == [] then NoCallback
    else if !IsValidFileType(acceptedTypes, files[0]) then
      if hasOnError then OnError(TypeError(acceptedTypes.value)) else NoCallback
    else if !IsValidFileSize(maxFileSize, files[0]) then
      if hasOnError then OnError(SizeError(maxFileSize)) else NoCallback
    else OnDrop(files)
  }

  /** `onDrop` receives the dropped files exactly when there is a first file
      and it passes both checks; otherwise `onError`, when given, receives the
      message of the first check that fails, the type check first. */
  lemma DropCallCases(files: seq<FileInfo>, acceptedTypes: Option<seq<string>>, maxFileSize: int, hasOnError: bool)
    ensures DropCall(files, acceptedTypes, maxFileSize, hasOnError).OnDrop? <==>
      files != [] && IsValidFileType(acceptedTypes, files[0]) && files[0].size <= maxFileSize
    ensures DropCall(files, acceptedTypes, maxFileSize, hasOnError).OnDrop? ==>
      DropCall(files, acceptedTypes, maxFileSize, hasOnError).files == files
    ensures DropCall(files, acceptedTypes, maxFileSize, hasOnError).OnError? <==>
      hasOnError && files != [] &&
      (!IsValidFileType(acceptedTypes, files[0]) || files[0].size > maxFileSize)
    ensures files != [] && !IsValidFileType(acceptedTypes, files[0]) && hasOnError ==>
      DropCall(files, acceptedTypes, maxFileSize, hasOnError) == OnError(TypeError(acceptedTypes.value))
    ensures files != [] && IsValidFileType(acceptedTypes, files[0]) && files[0].size > maxFileSize && hasOnError ==>
      DropCall(files, acceptedTypes, maxFileSize, hasOnError) == OnError(SizeError(maxFileSize))
  {
  }

  /** Only the first file is examined: the others never cause a rejection. */
  lemma OnlyFirstFileChecked(first: FileInfo, rest: seq<FileInfo>, rest': seq<FileInfo>,
                             acceptedTypes: Option<seq<string>>, maxFileSize: int, hasOnError: bool)
    ensures DropCall([first] + rest, acceptedTypes, maxFileSize, hasOnError).OnDrop? ==
            DropCall([first] + rest', acceptedTypes, maxFileSize, hasOnError).OnDrop?
    ensures DropCall([first] + rest, acceptedTypes, maxFileSize, hasOnError).OnError? ==>
            DropCall([first] + rest, acceptedTypes, maxFileSize, hasOnError) ==
            DropCall([first] + rest', acceptedTypes, maxFileSize, hasOnError)
  {
    assert ([first] + rest)[0] == first && ([first] + rest')[0] == first;
  }

  /** Without a type list every type is accepted, and with the default limit
      a file of exactly 10 MiB is accepted. */
  lemma DefaultsAccept(mimeType: string, rest: seq<FileInfo>, hasOnError: bool)
    ensures DropCall([FileInfo(mimeType, DefaultMaxFileSize)] + rest, None, DefaultMaxFileSize, hasOnError) ==
            OnDrop([FileInfo(mimeType, DefaultMaxFileSize)] + rest)
  {
  }

  class DragState {
    var dragActive: bool

    constructor()
      ensures !dragActive
    {
      dragActive := false;
    }

    /** `handleDrag`: entering or moving over the zone activates it, leaving
        deactivates it, and any other event type leaves the flag alone. */
    method HandleDrag(eventType: string)
      modifies this
      ensures eventType == "dragenter" || eventType == "dragover" ==> dragActive
      ensures eventType == "dragleave" ==> !dragActive
      ensures eventType !in {"dragenter", "dragover", "dragleave"} ==> dragActive == old(dragActive)
    {
      if eventType == "dragenter" || eventType == "dragover" {
        dragActive := true;
      } else if eventType == "dragleave" {
        dragActive := false;
      }
    }

    /** `handleDrop`: the zone is deactivated and at most one callback runs. */
    method HandleDrop(files: seq<FileInfo>, acceptedTypes: Option<seq<string>>, maxFileSize: int, hasOnError: bool)
      returns (call: Callback)
      modifies this
      ensures !dragActive
      ensures call == DropCall(files, acceptedTypes, maxFileSize, hasOnError)
    {
      dragActive := false;
      if files == [] {
        return NoCallback;
      }
      var file := files[0];
      if !IsValidFileType(acceptedTypes, file) {
        var error := TypeError(acceptedTypes.value);
        return if hasOnError then OnError(error) else NoCallback;
      }
      if !IsValidFileSize(maxFileSize, file) {
        var error := SizeError(maxFileSize);
        return if hasOnError then OnError(error) else NoCallback;
      }
      return OnDrop(files);
    }
  }
}
