/**
 * The values that the clipboard code of the canvas reads and produces: a position in
 * canvas space, the kind of a card, a card (or a request to create one, which has the
 * same shape) and the id-less record that the copy path writes to the clipboard.
 */
module Cards {

  /** A point in canvas space; JavaScript numbers are modelled as unbounded integers. */
  datatype Pos = Pos(x: int, y: int)

  /**
   * The `type` tag of a card. Kinds other than text and image are carried through unchanged.
   * The type does not rule out `Other("text")` or `Other("image")`. The model assumes of the
   * clipboard parse that it never yields them: it reads a tag as a kind as `KindOf` does.
   */
  datatype Kind = Text | Image | Other(name: string)

  /** Whether `k` is the one kind its tag stands for (`Other` holds neither `text` nor `image`). */
  predicate Canonical(k: Kind) {
    k.Other? ==> k.name != "text" && k.name != "image"
  }

  /** The JavaScript string a kind stands for. */
  function TagOf(k: Kind): string {
    match k
    case Text => "text"
    case Image => "image"
    case Other(name) => name
  }

  /** The kind a JavaScript `type` string stands for; it always reads back as that string. */
  function KindOf(tag: string): (k: Kind)
    ensures Canonical(k)
    ensures TagOf(k) == tag
  {
    if tag == "text" then Text else if tag == "image" then Image else Other(tag)
  }

  /** Canonical kinds and tags are in one-to-one correspondence. */
  lemma KindOfTagOf(k: Kind)
    requires Canonical(k)
    ensures KindOf(TagOf(k)) == k
  {
  }

  /** A card, or a creation request handed to the card factory (identical shape). */
  datatype Card = Card(id: real, kind: Kind, pos: Pos, content: string)

  /** One element of the structured `cards` representation: `{type, pos, content}`. */
  datatype CardData = CardData(kind: Kind, pos: Pos, content: string)

  /** The vector from `q` to `p`. */
  function Delta(p: Pos, q: Pos): Pos {
    Pos(p.x - q.x, p.y - q.y)
  }

  /** `p` moved by the vector `d`. */
  function Translate(p: Pos, d: Pos): Pos {
    Pos(p.x + d.x, p.y + d.y)
  }
}
