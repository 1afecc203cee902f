/**
 * The checker's failure values. Every `raise` of the checker becomes one
 * constructor of `Error`; operations that can raise return a `Result`.
 * A Python generator that yields some items and then raises is a `Stream`:
 * the items it yields, then the error it stops with, if any.
 */
module Failures {

  datatype Option<+T> = None | Some(value: T)

  datatype Error =
      // directive source
    | TrailingBackslash
    | InvalidTemplateSyntax(line: nat)
    | ArgumentQuoting
      // markup parsing (all wrapped as CannotParse by the cache)
    | MarkupSyntax
    | UnknownEntity(name: string)
    | BadCharRef(name: string)
    | UnbalancedEndTag(tag: string)
    | EndTagMismatch(expected: string, found: string)
    | MissingEndTags
    | MissingTopLevel
      // path queries, patterns and counts
    | NonAbsoluteXPath(path: string)
    | XPathSyntax(path: string)
    | RegexSyntax(pattern: string)
    | NotAnInteger(text: string)
      // resource cache
    | PreviousPathUnset
    | CannotOpen(path: string)
    | CannotParse(path: string)
      // check engine
    | InvalidArgumentCount(cmd: string, line: nat)
    | Unimplemented(cmd: string, line: nat)
    | Unrecognized(cmd: string, line: nat)
    | CheckFailed(negated: bool, cmd: string, line: nat)

  datatype Result<+T> = Ok(value: T) | Err(error: Error)

  /** What a generator produces: the items it yields, then the error it raises (if any). */
  datatype Stream<+T> = Stream(items: seq<T>, end: Option<Error>)

  /** The outcome of a whole run: silent success, or the first error raised. */
  datatype Outcome = Pass | Fail(error: Error)

  /** Items `pre` yielded before everything `s` yields. */
  function Prepend<T>(pre: seq<T>, s: Stream<T>): Stream<T>
  {
    Stream(pre + s.items, s.end)
  }
}
