/**
 * The interface of the regex crate that the linker uses. Escaping, compiling
 * and matching are not part of this model; they reach the linker as function
 * values of the types below.
 */
module Regex {
  import opened Wrappers

  /** A matched group: its offset inside the searched text and the matched text. */
  datatype Match = Match(start: nat, text: string)

  /** The groups of one match; index 0 is the whole match, index i group i. */
  type Captures = seq<Option<Match>>

  /** `Captures::get`: a group index beyond the pattern's groups yields nothing. */
  function Get(caps: Captures, i: nat): (r: Option<Match>)
    ensures i >= |caps| ==> r.None?
  {
    if i < |caps| then caps[i] else None
  }

  /** `Regex::captures`: the groups of the leftmost match in a text, if any. */
  type Regex = string -> Option<Captures>

  /** `RegexBuilder::new(pattern).case_insensitive(flag).build()`, `None` for an invalid pattern. */
  type Builder = (string, bool) -> Option<Regex>

  /** `regex::escape`. */
  type Escape = string -> string
}
