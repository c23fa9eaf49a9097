/** The error and result types of the whole of `process` (used by `Pipeline` as
    well), and the extension allowlist check. */
module Formats {

  /** The exceptions of `process`, one constructor per distinct failure. */
  datatype Error =
    | FileNotFound(path: string)                         // FileNotFoundError
    | UnsupportedFormat(suffix: string, supported: seq<string>)  // ValueError of check_file_format
    | DecodeError(path: string)                          // Pillow cannot identify the file
    | DirectoryError(dir: string)                        // mkdir of the output's parent fails
    | EncodeError(path: string)                          // Pillow cannot save the result

  datatype Result<T> = Ok(value: T) | Err(error: Error)

  /** `SUPPORTED_FORMATS`: dot-prefixed, lower-case, compared case-sensitively. */
  const SupportedFormats: seq<string> := [".png", ".jpg", ".jpeg", ".gif", ".bmp", ".webp", ".tiff"]

  /** `check_file_format`: passes when `suffix` is one of `supported`, and
      otherwise fails naming the offending suffix and the allowlist. */
  function CheckFileFormat(suffix: string, supported: seq<string>): (r: Result<()>)
    ensures r.Ok? <==> exists i :: 0 <= i < |supported| && supported[i] == suffix
    ensures r.Err? ==> r.error == UnsupportedFormat(suffix, supported)
  {
    if suffix in supported then Ok(()) else Err(UnsupportedFormat(suffix, supported))
  }

  predicate Supported(suffix: string) {
    CheckFileFormat(suffix, SupportedFormats).Ok?
  }

  /** The allowlist accepts exactly the seven listed suffixes. */
  lemma SupportedExactly(suffix: string)
    ensures Supported(suffix) <==>
              suffix == ".png" || suffix == ".jpg" || suffix == ".jpeg" || suffix == ".gif" ||
              suffix == ".bmp" || suffix == ".webp" || suffix == ".tiff"
  {
  }

  /** Every accepted suffix starts with a dot and has something after it. */
  lemma SupportedAreDotted(suffix: string)
    requires Supported(suffix)
    ensures |suffix| >= 2 && suffix[0] == '.'
  {
    SupportedExactly(suffix);
  }

  /** The check is case-sensitive and knows no aliases: `.JPG`, `.tif` and the
      empty suffix (a path with no extension) are rejected, and the error names them. */
  lemma RejectedExamples()
    ensures CheckFileFormat(".JPG", SupportedFormats) == Err(UnsupportedFormat(".JPG", SupportedFormats))
    ensures CheckFileFormat(".tif", SupportedFormats) == Err(UnsupportedFormat(".tif", SupportedFormats))
    ensures CheckFileFormat("", SupportedFormats) == Err(UnsupportedFormat("", SupportedFormats))
  {
    SupportedExactly(".JPG");
    SupportedExactly(".tif");
    SupportedExactly("");
  }
}
