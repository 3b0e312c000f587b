/**
 * The copy path and the paste path together: the `cards` representation written by a copy,
 * once parsed back, replays the copied cards with their layout.
 */
module CopyPaste {
  import opened Wrappers
  import opened Cards
  import opened ReadingOrder
  import opened Copy
  import opened Paste
  import opened PasteProperties

  /**
   * Pasting the structured form of `copied` reproduces every card's type and content in
   * order and moves the whole group rigidly so that its first card lands on the drop position.
   */
  lemma {:induction false} CopyThenPaste(copied: seq<Card>, t: Transfer, drop: Pos, env: Env)
    requires |copied| > 0
    requires Images(t.files) == []
    requires Classify(t).cardsItem.Some?
    requires env.parseCards(Classify(t).cardsItem.value) == Some(Structured(copied))
    ensures var r := Resolve(Some(t), drop, env);
      && |r| == |copied|
      && forall i :: 0 <= i < |r| ==>
        && r[i].kind == copied[i].kind
        && r[i].content == copied[i].content
        && r[i].pos == Translate(copied[i].pos, Delta(drop, copied[0].pos))
  {
    StructuredKeepsCards(copied);
    assert UsableCards(Classify(t).cardsItem, env) == Some(Structured(copied));
    CardsReplayed(t, drop, env);
  }

  /**
   * A copy pasted back at its first card's position, which after the sort is the card that
   * reads first, lands every card exactly where it was.
   */
  lemma CopyPastedInPlace(selected: seq<Card>, t: Transfer, env: Env)
    requires |selected| > 0
    requires Images(t.files) == []
    requires Classify(t).cardsItem.Some?
    requires env.parseCards(Classify(t).cardsItem.value)
          == Some(Serialize(SortByReadingOrder(selected)).cards)
    ensures var sorted := SortByReadingOrder(selected);
      var r := Resolve(Some(t), sorted[0].pos, env);
      && |r| == |selected|
      && forall i :: 0 <= i < |r| ==>
        && r[i].kind == sorted[i].kind
        && r[i].pos == sorted[i].pos
        && r[i].content == sorted[i].content
        && InOrder(sorted[0], sorted[i])
  {
    var sorted := SortByReadingOrder(selected);
    CopyThenPaste(sorted, t, sorted[0].pos, env);
  }
}
