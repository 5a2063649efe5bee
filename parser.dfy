/**
 * The interface of the markdown parser that the linker consumes. The parser
 * itself is not part of this model: `JsLinker` is given it as a function value.
 */
module Parser {
  import opened Wrappers

  /** The error kinds of the crate's error type, as far as the linker tells them apart. */
  datatype Error =
    | ParseError(path: string)   // the note at `path` could not be parsed
    | Other                      // every other kind (alias extraction, inner string, ...)

  /**
   * A linkable text span (`StringPosition`): its absolute start and end in the
   * raw note, and the text of its node as `get_inner_string` reads it.
   */
  datatype StringPosition = StringPosition(start: nat, end: nat, inner: Result<string, Error>)

  /**
   * A parsed note: its path, its title (`get_title`), its declared aliases
   * (`get_aliases`, which may fail) and its linkable spans (`get_string_nodes`).
   */
  datatype MDFile = MDFile(
    path: string,
    title: string,
    aliases: Result<seq<string>, Error>,
    stringNodes: seq<StringPosition>)

  type ParseOutcome = Result<MDFile, Error>

  /** `parse_md_file_wrapper(content, path)`. */
  type ParseFn = (string, string) -> ParseOutcome
}
