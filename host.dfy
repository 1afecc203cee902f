/**
 * What the checker takes from its surroundings and does not define itself:
 * the file system, path manipulation, the HTML tokenizer, the XPath engine,
 * the regular-expression engine and shell-style word splitting. Each is a
 * field of `Host`, and every operation that needs one is given the host.
 */
module Environment {
  import opened Failures
  import opened Tree
  import opened Markup

  datatype Host = Host(
    /** The files under the documentation root, by full path. */
    disk: map<string, string>,
    /** `os.path.normpath`. */
    normpath: string -> string,
    /** `os.path.join`. */
    join: (string, string) -> string,
    /** `HTMLParser`'s tokenizer: the events a document produces, then the error it stops with, if any. */
    tokenize: string -> Stream<Event>,
    /** The standard HTML entity table, `htmlentitydefs.entitydefs`. */
    entitydefs: map<string, string>,
    /** `ElementTree.findall`: the matching elements in document order, or `None` for a malformed path. */
    findall: (Node, string) -> Option<seq<Node>>,
    /** `re.search(pattern, data) is not None`, or `None` for a malformed pattern. */
    search: (string, string) -> Option<bool>,
    /** `shlex.split`: the words of an argument string, or `None` on unbalanced quoting. */
    split: string -> Option<seq<string>>
  )

  /** `ET.parse(f, CustomHTMLParser())` on the contents of a file. */
  function ParseHtml(h: Host, data: string): Result<Node> {
    ParseEvents(Entities(h.entitydefs), h.tokenize(data))
  }
}
