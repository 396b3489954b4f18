/**
 * The parts of `ImageExportUtils.exportImage` that are not I/O: the guard on
 * the file suffix and the name of the file written. Its `cropImage` is the
 * same text as `ImageUtils.cropImage` and is modelled once, in CropGeometry.
 */
module ExportUtils {
  import opened Wrappers

  /** The alerts after which `exportImage` writes nothing. */
  datatype ExportError = InvalidExtension | NoDirectorySelected

  const FileStem: string := "/exportedImage."

  /** A suffix the guard lets through: not null and not empty. */
  predicate ValidSuffix(suffix: Option<string>) {
    suffix.Some? && |suffix.value| > 0
  }

  /**
   * The path `exportImage` writes to, for the suffix it was given and the
   * directory the chooser returned (None when the dialog was cancelled). The
   * suffix is checked first, before any snapshot or dialog.
   */
  function ExportPath(suffix: Option<string>, directory: Option<string>): (r: Result<string, ExportError>)
    ensures !ValidSuffix(suffix) ==> r == Failure(InvalidExtension)
    ensures ValidSuffix(suffix) && directory.None? ==> r == Failure(NoDirectorySelected)
    ensures r.Success? <==> ValidSuffix(suffix) && directory.Some?
    ensures r.Success? ==>
      var path := r.value;
      var dir := directory.value;
      var ext := suffix.value;
      && |path| == |dir| + |FileStem| + |ext|
      && path[..|dir|] == dir
      && path[|dir|..|dir| + |FileStem|] == FileStem
      && path[|path| - |ext|..] == ext
  {
    if suffix.None? || |suffix.value| == 0 then Failure(InvalidExtension)
    else if directory.None? then Failure(NoDirectorySelected)
    else Success(directory.value + FileStem + suffix.value)
  }
}
