/**
 * The parts of the harness that call into code outside the repository,
 * reduced to values: `xml.etree.ElementTree.canonicalize` becomes a function
 * from a document and its flag arguments to a canonical text or a parse
 * error code, and a program run becomes its outcome.
 */
module Oracles {

  /** Keyword arguments given to `ET.canonicalize` whose values are flags (`strip_text`, `with_comments`). */
  type Kwargs = map<string, bool>

  /** What `ET.canonicalize` makes of a document: its canonical text, or the code of the `ParseError` it raises. */
  datatype Canon = Canonical(text: string) | ParseFault(code: int)

  /** `ET.canonicalize` over the document text and the flag arguments. */
  type Canonicalizer = (string, Kwargs) -> Canon

  /** Expat's `XML_ERROR_NO_ELEMENTS` ("no element found"), raised for a document without elements. */
  const NoElementsCode: int := 3

  /** How a run of the program under test ended: killed by the timeout, or exited with a code and its output. */
  datatype Run = TimedOut | Exited(code: int, stdout: string, stderr: string)
}
