/** What a node carries besides its links. */
module DomLabels {
  import opened Sequences

  datatype Attr = Attr(namespaceURI: Option<string>, prefix: Option<string>, localName: string, value: string)

  /**
   * Comment is a CommentImp; Characters is a plain CharacterDataImp, which only cloning a
   * comment makes; Plain is a plain NodeImp, which only cloning a document or a
   * document type makes.
   */
  datatype Label =
    | Element(namespaceURI: string, prefix: string, localName: string, attributes: seq<Attr>)
    | Text(data: string)
    | Comment(data: string)
    | Characters(data: string)
    | Document
    | DocumentType(name: string, publicId: string, systemId: string)
    | Plain

  function NodeType(l: Label): nat {
    match l
    case Element(_, _, _, _) => 1
    case Text(_) => 3
    case Comment(_) => 8
    case Document => 9
    case DocumentType(_, _, _) => 10
    case Characters(_) => 0
    case Plain => 0
  }
}
