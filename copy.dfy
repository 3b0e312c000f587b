/**
 * The copy path (`copyCards`, src/clipboard.ts:7-30): when the copy event fires with a
 * clipboard, the selected cards are sorted into reading order in the caller's array and
 * two representations are written: the contents joined by a blank line (`text/plain`)
 * and the list of `{type, pos, content}` records (`cards`).
 */
module Copy {
  import opened Wrappers
  import opened Cards
  import opened ReadingOrder

  /** The separator `join` puts between two card contents in the plain-text form. */
  const SEPARATOR: string := "\n\n"

  /** The data the copy handler hands to `setData`, before JSON encoding of `cards`. */
  datatype ClipboardData = ClipboardData(plainText: string, cards: seq<CardData>)

  /** `Array.prototype.join`: the parts in order with `sep` between consecutive ones. */
  function Join(parts: seq<string>, sep: string): (r: string)
    ensures |parts| == 0 ==> |r| == 0
    ensures |parts| > 0 ==> parts[0] <= r
  {
    if |parts| == 0 then ""
    else if |parts| == 1 then parts[0]
    else parts[0] + sep + Join(parts[1..], sep)
  }

  /** Joining two non-empty lists puts exactly one separator where they meet. */
  lemma {:induction false} JoinAppend(xs: seq<string>, ys: seq<string>, sep: string)
    requires |xs| > 0 && |ys| > 0
    ensures Join(xs + ys, sep) == Join(xs, sep) + sep + Join(ys, sep)
    decreases |xs|
  {
    var zs := xs + ys;
    assert zs[0] == xs[0];
    if |xs| > 1 {
      assert zs[1..] == xs[1..] + ys;
      JoinAppend(xs[1..], ys, sep);
      calc {
        Join(zs, sep);
        xs[0] + sep + Join(xs[1..] + ys, sep);
        xs[0] + sep + (Join(xs[1..], sep) + sep + Join(ys, sep));
        (xs[0] + sep + Join(xs[1..], sep)) + sep + Join(ys, sep);
      }
    } else {
      assert zs[1..] == ys;
    }
  }

  /** The `content` fields of `cards`, in order. */
  function Contents(cards: seq<Card>): (r: seq<string>)
    ensures |r| == |cards|
    ensures forall i :: 0 <= i < |cards| ==> r[i] == cards[i].content
  {
    seq(|cards|, i requires 0 <= i < |cards| => cards[i].content)
  }

  /** The `text/plain` representation. */
  function PlainText(cards: seq<Card>): (r: string)
    ensures |cards| == 0 ==> r == ""
    ensures |cards| == 1 ==> r == cards[0].content
  {
    Join(Contents(cards), SEPARATOR)
  }

  /** The plain text of two non-empty groups of cards is theirs with a blank line between. */
  lemma PlainTextAppend(xs: seq<Card>, ys: seq<Card>)
    requires |xs| > 0 && |ys| > 0
    ensures PlainText(xs + ys) == PlainText(xs) + SEPARATOR + PlainText(ys)
  {
    assert Contents(xs + ys) == Contents(xs) + Contents(ys);
    JoinAppend(Contents(xs), Contents(ys), SEPARATOR);
  }

  /** The `cards` representation: each card without its id. */
  function Structured(cards: seq<Card>): seq<CardData> {
    seq(|cards|, i requires 0 <= i < |cards| => CardData(cards[i].kind, cards[i].pos, cards[i].content))
  }

  /** Both representations of `cards`, in the order given. */
  function Serialize(cards: seq<Card>): ClipboardData {
    ClipboardData(PlainText(cards), Structured(cards))
  }

  /** The structured form keeps every card's type, position and content, in order. */
  lemma StructuredKeepsCards(cards: seq<Card>)
    ensures |Structured(cards)| == |cards|
    ensures forall i :: 0 <= i < |cards| ==>
      Structured(cards)[i].kind == cards[i].kind
      && Structured(cards)[i].pos == cards[i].pos
      && Structured(cards)[i].content == cards[i].content
  {
  }

  /**
   * The copy handler. `hasClipboardData` says whether the event carries a clipboard; without
   * one the handler returns before sorting. Otherwise the caller's array ends up in reading
   * order and the result is what is written under `text/plain` and `cards`.
   */
  method CopyCards(cards: array<Card>, hasClipboardData: bool) returns (data: Option<ClipboardData>)
    modifies cards
    ensures !hasClipboardData ==> data == None && cards[..] == old(cards[..])
    ensures hasClipboardData ==> cards[..] == SortByReadingOrder(old(cards[..]))
    ensures hasClipboardData ==> data == Some(Serialize(cards[..]))
  {
    if !hasClipboardData {
      return None;
    }
    SortCards(cards);
    data := Some(Serialize(cards[..]));
  }
}
