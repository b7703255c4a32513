/** The regular-expression engine is not modelled: `re.findall` is an
    uninterpreted oracle passed in as a function value. */
module Regex {

  /** The captured groups of one hit of `re.findall` (a single element when
      the pattern has at most one group). */
  type Match = seq<string>

  /** `re.findall(pattern, text)`: every hit, in order. */
  type Finder = (string, string) -> seq<Match>

  /** `len(re.findall(pattern, text)) > 0`. */
  predicate Found(find: Finder, pattern: string, text: string) {
    |find(pattern, text)| > 0
  }

  /** The "server finished starting" marker. It is a regular expression, not
      a literal: the dot matches any character. */
  const LoadedMarker: string := "Done."
}
