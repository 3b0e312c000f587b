/**
 * The paste path (`pasteOnCanvas`, src/clipboard.ts:35-132): classifies what a clipboard or
 * drag-and-drop payload offers and runs a fixed-priority cascade (image files, replay of
 * copied cards, text that loads as an image, text as a card, optionally formatted as code)
 * that yields the card-creation requests anchored at the drop position.
 *
 * The foreign collaborators (file encoding, the image probe, the two JSON parses, the clock
 * and the random source) are the fields of `Env`; `createCard` is the identity on a request.
 */
module Paste {
  import opened Wrappers
  import opened Cards

  /** The offset added to both axes of each successive pasted image. */
  const STAGGER: int := 20
  const CARDS_TYPE: string := "cards"
  const TEXT_TYPE: string := "text/plain"
  const EDITOR_TYPE: string := "vscode-editor-data"
  const FENCE: string := "```"

  /** An offered file: its MIME type and its bytes. */
  datatype File = File(mime: string, bytes: seq<bv8>)

  /** An offered item, with the string `getAsString` delivered for it. */
  datatype Item = Item(kind: string, mime: string, data: string)

  /** A non-null `DataTransfer`: its files and its items. */
  datatype Transfer = Transfer(files: seq<File>, items: seq<Item>)

  /** The `mode` field of parsed editor metadata; `Missing` when the object has none. */
  datatype EditorMode = Missing | Named(name: string)

  /**
   * The collaborators the paste path calls:
   * `encode` is `fileToBase64`; `loadsImage(s)` says whether `loadImage(s)` resolves;
   * `parseCards` and `parseEditorData` are the JSON parses, `None` when they throw or when
   * reading the result throws; `now(k)` and `random(k)` are the k-th readings of `Date.now()`
   * and `Math.random()` counted from the start of the branch that returns. `encode` is total:
   * a rejected `fileToBase64`, which leaves the source's paste pending for ever, is not modelled.
   */
  datatype Env = Env(
    encode: File -> string,
    loadsImage: string -> bool,
    parseCards: string -> Option<seq<CardData>>,
    parseEditorData: string -> Option<EditorMode>,
    now: nat -> int,
    random: nat -> real)

  /** A clock whose readings never go backwards. */
  ghost predicate NonDecreasing(now: nat -> int) {
    forall i: nat, j: nat :: i <= j ==> now(i) <= now(j)
  }

  // ---------------------------------------------------------------------------------
  // Classification of the payload (src/clipboard.ts:39-46)
  // ---------------------------------------------------------------------------------

  predicate IsImageFile(f: File) {
    "image" <= f.mime
  }

  /** `files.filter(file => file.type.startsWith('image'))`. */
  function Images(files: seq<File>): (r: seq<File>)
    ensures |r| <= |files|
    ensures forall f :: f in r <==> f in files && IsImageFile(f)
  {
    if files == [] then []
    else (if IsImageFile(files[0]) then [files[0]] else []) + Images(files[1..])
  }

  /** `items.filter(item => item.kind !== 'file')`. */
  function NonFileItems(items: seq<Item>): (r: seq<Item>)
    ensures |r| <= |items|
    ensures forall it :: it in r <==> it in items && it.kind != "file"
  {
    if items == [] then []
    else (if items[0].kind != "file" then [items[0]] else []) + NonFileItems(items[1..])
  }

  /** Filtering a concatenation filters each part: the image files keep their relative order. */
  lemma {:induction false} ImagesAppend(xs: seq<File>, ys: seq<File>)
    ensures Images(xs + ys) == Images(xs) + Images(ys)
  {
    if xs == [] {
      assert xs + ys == ys;
    } else {
      assert (xs + ys)[1..] == xs[1..] + ys;
      ImagesAppend(xs[1..], ys);
    }
  }

  /** An image file is kept exactly as often as it is offered; any other file never. */
  lemma {:induction false} ImagesCount(files: seq<File>, f: File)
    ensures multiset(Images(files))[f] == if IsImageFile(f) then multiset(files)[f] else 0
  {
    if files != [] {
      ImagesCount(files[1..], f);
      assert files == [files[0]] + files[1..];
    }
  }

  /** Filtering a concatenation filters each part: the kept items keep their relative order. */
  lemma {:induction false} NonFileItemsAppend(xs: seq<Item>, ys: seq<Item>)
    ensures NonFileItems(xs + ys) == NonFileItems(xs) + NonFileItems(ys)
  {
    if xs == [] {
      assert xs + ys == ys;
    } else {
      assert (xs + ys)[1..] == xs[1..] + ys;
      NonFileItemsAppend(xs[1..], ys);
    }
  }

  /** A non-file item is kept exactly as often as it is offered; a file item never. */
  lemma {:induction false} NonFileItemsCount(items: seq<Item>, it: Item)
    ensures multiset(NonFileItems(items))[it] == if it.kind != "file" then multiset(items)[it] else 0
  {
    if items != [] {
      NonFileItemsCount(items[1..], it);
      assert items == [items[0]] + items[1..];
    }
  }

  /** The index of the first item of type `mime`, if any. */
  function FirstIndex(items: seq<Item>, mime: string): (r: Option<nat>)
    ensures r.None? <==> forall i :: 0 <= i < |items| ==> items[i].mime != mime
    ensures r.Some? ==> r.value < |items| && items[r.value].mime == mime
    ensures r.Some? ==> forall j :: 0 <= j < r.value ==> items[j].mime != mime
  {
    if items == [] then None
    else if items[0].mime == mime then Some(0)
    else match FirstIndex(items[1..], mime)
      case None => None
      case Some(k) => Some(k + 1)
  }

  /** `items.find(item => item.type === mime)`, as the string content of the match. */
  function Find(items: seq<Item>, mime: string): Option<string> {
    match FirstIndex(items, mime)
    case None => None
    case Some(k) => Some(items[k].data)
  }

  /** What the cascade looks at: the image files and the first item of each known type. */
  datatype Payload = Payload(
    images: seq<File>,
    cardsItem: Option<string>,
    textItem: Option<string>,
    editorItem: Option<string>)

  /** Whether `it` is a non-file item of type `mime`: what the filter and `find` together accept. */
  predicate IsOffer(it: Item, mime: string) {
    it.kind != "file" && it.mime == mime
  }

  /** Whether the transfer offers a non-file item of type `mime`. */
  predicate Offers(items: seq<Item>, mime: string) {
    exists i :: 0 <= i < |items| && IsOffer(items[i], mime)
  }

  /** Whether index `k` holds the first non-file item of type `mime` among `items`. */
  predicate FirstOffered(items: seq<Item>, mime: string, k: int) {
    && 0 <= k < |items| && IsOffer(items[k], mime)
    && forall j :: 0 <= j < k ==> !IsOffer(items[j], mime)
  }

  /** The data of the first non-file item of type `mime`, read straight off the transfer. */
  function FirstOffer(items: seq<Item>, mime: string): Option<string> {
    if items == [] then None
    else if IsOffer(items[0], mime) then Some(items[0].data)
    else FirstOffer(items[1..], mime)
  }

  /**
   * `find` over the filtered items picks the first non-file item of the transfer with that
   * type, and finds nothing exactly when the transfer offers none.
   */
  lemma FindFirstOffered(items: seq<Item>, mime: string)
    ensures Find(NonFileItems(items), mime).None? <==> !Offers(items, mime)
    ensures Find(NonFileItems(items), mime).Some? ==>
      exists k :: FirstOffered(items, mime, k) && Find(NonFileItems(items), mime).value == items[k].data
  {
    FindIsFirstOffer(items, mime);
    FirstOfferNoneIff(items, mime);
    if FirstOffer(items, mime).Some? {
      FirstOfferIsFirst(items, mime);
    }
  }

  /** `find` over the filtered items is the reference `FirstOffer`. */
  lemma {:induction false} FindIsFirstOffer(items: seq<Item>, mime: string)
    ensures Find(NonFileItems(items), mime) == FirstOffer(items, mime)
  {
    if items != [] {
      FindStep(items, mime);
      FindIsFirstOffer(items[1..], mime);
    }
  }

  /** The reference finds nothing exactly when nothing is offered. */
  lemma {:induction false} FirstOfferNoneIff(items: seq<Item>, mime: string)
    ensures FirstOffer(items, mime).None? <==> !Offers(items, mime)
  {
    if items != [] {
      FirstOfferNoneIff(items[1..], mime);
      if Offers(items, mime) && !IsOffer(items[0], mime) {
        var i :| 0 <= i < |items| && IsOffer(items[i], mime);
        assert items[1..][i - 1] == items[i];
      }
      if Offers(items[1..], mime) {
        var i :| 0 <= i < |items[1..]| && IsOffer(items[1..][i], mime);
        assert items[i + 1] == items[1..][i];
      }
    }
  }

  /** What the reference finds is the data of the first offered item. */
  lemma {:induction false} FirstOfferIsFirst(items: seq<Item>, mime: string)
    requires FirstOffer(items, mime).Some?
    ensures exists k :: FirstOffered(items, mime, k) && FirstOffer(items, mime).value == items[k].data
  {
    if IsOffer(items[0], mime) {
      assert FirstOffered(items, mime, 0);
    } else {
      FirstOfferIsFirst(items[1..], mime);
      var k :| FirstOffered(items[1..], mime, k) && FirstOffer(items[1..], mime).value == items[1..][k].data;
      assert FirstOffered(items, mime, k + 1);
    }
  }

  /** One step of `find` over the filtered items: the head is taken when it is offered, else skipped. */
  lemma FindStep(items: seq<Item>, mime: string)
    requires items != []
    ensures Find(NonFileItems(items), mime) ==
      if IsOffer(items[0], mime) then Some(items[0].data)
      else Find(NonFileItems(items[1..]), mime)
  {
    var rest := NonFileItems(items[1..]);
    if items[0].kind != "file" {
      assert NonFileItems(items) == [items[0]] + rest;
      if items[0].mime != mime {
        assert ([items[0]] + rest)[1..] == rest;
      }
    } else {
      assert NonFileItems(items) == rest;
    }
  }

  function Classify(t: Transfer): Payload {
    var items := NonFileItems(t.items);
    Payload(Images(t.files), Find(items, CARDS_TYPE), Find(items, TEXT_TYPE), Find(items, EDITOR_TYPE))
  }

  // ---------------------------------------------------------------------------------
  // The handlers of the cascade
  // ---------------------------------------------------------------------------------

  /** The request for the `i`-th image file, offset `STAGGER * i` on both axes. */
  function ImageCard(images: seq<File>, i: nat, drop: Pos, env: Env): Card
    requires i < |images|
  {
    Card(env.now(i) as real + env.random(i), Image,
         Pos(drop.x + STAGGER * i, drop.y + STAGGER * i), env.encode(images[i]))
  }

  /** One image request per image file, in file order (src/clipboard.ts:49-66). */
  function ImageCards(images: seq<File>, drop: Pos, env: Env): (r: seq<Card>)
    ensures |r| == |images|
    ensures forall i :: 0 <= i < |r| ==>
      && r[i].kind == Image
      && r[i].pos == Translate(drop, Pos(STAGGER * i, STAGGER * i))
      && r[i].content == env.encode(images[i])
      && r[i].id == env.now(i) as real + env.random(i)
  {
    seq(|images|, i requires 0 <= i < |images| => ImageCard(images, i, drop, env))
  }

  /**
   * The image branch as the source runs it: a running `offset` that grows by `STAGGER`
   * after each image.
   */
  method PasteImages(images: seq<File>, drop: Pos, env: Env) returns (r: seq<Card>)
    ensures r == ImageCards(images, drop, env)
  {
    var offset := 0;
    r := [];
    var i := 0;
    while i < |images|
      invariant 0 <= i <= |images|
      invariant offset == STAGGER * i
      invariant |r| == i
      invariant forall k :: 0 <= k < i ==> r[k] == ImageCard(images, k, drop, env)
    {
      var data := env.encode(images[i]);
      var card := Card(env.now(i) as real + env.random(i), Image,
                       Pos(drop.x + offset, drop.y + offset), data);
      r := r + [card];
      offset := offset + STAGGER;
      i := i + 1;
    }
  }

  /** The parsed `cards` list when it is present, parses and is non-empty (src/clipboard.ts:70-74). */
  function UsableCards(cardsItem: Option<string>, env: Env): (r: Option<seq<CardData>>)
    ensures r.Some? ==> |r.value| > 0
    ensures r.Some? <==> cardsItem.Some? && env.parseCards(cardsItem.value).Some?
                          && |env.parseCards(cardsItem.value).value| > 0
  {
    match cardsItem
    case None => None
    case Some(data) =>
      match env.parseCards(data)
      case None => None
      case Some(cards) => if |cards| > 0 then Some(cards) else None
  }

  /**
   * Replays copied cards (src/clipboard.ts:75-85): the first card lands on the drop
   * position, every other keeps its offset from the first, and the `i`-th request gets the
   * id `Date.now() + i`.
   */
  function Replayed(cards: seq<CardData>, drop: Pos, env: Env): (r: seq<Card>)
    requires |cards| > 0
    ensures |r| == |cards|
    ensures r[0].pos == drop
    ensures forall i :: 0 <= i < |r| ==> r[i].kind == cards[i].kind && r[i].content == cards[i].content
    ensures forall i, j :: 0 <= i < |r| && 0 <= j < |r| ==>
      Delta(r[i].pos, r[j].pos) == Delta(cards[i].pos, cards[j].pos)
    ensures NonDecreasing(env.now) ==> forall i, j :: 0 <= i < j < |r| ==> r[i].id < r[j].id
  {
    var corner := cards[0].pos;
    seq(|cards|, i requires 0 <= i < |cards| =>
      Card((env.now(i) + i) as real, cards[i].kind,
           Pos(drop.x + cards[i].pos.x - corner.x, drop.y + cards[i].pos.y - corner.y),
           cards[i].content))
  }

  /** `plaintext` and `markdown` are pasted as they are. */
  predicate IsProseMode(mode: EditorMode) {
    mode == Named("plaintext") || mode == Named("markdown")
  }

  /** How the mode appears in the fence: an absent `mode` is `undefined` in a template string. */
  function Label(mode: EditorMode): string {
    match mode
    case Missing => "undefined"
    case Named(name) => name
  }

  /** Whether the text is rewritten as code: the metadata parsed and names a non-prose mode. */
  predicate WrapsAsCode(mode: Option<EditorMode>) {
    mode.Some? && !IsProseMode(mode.value)
  }

  /** The editor mode, when editor metadata is offered and parses (src/clipboard.ts:107-109). */
  function EditorModeOf(editorItem: Option<string>, env: Env): (r: Option<EditorMode>)
    ensures r.None? <==> editorItem.None? || env.parseEditorData(editorItem.value).None?
  {
    match editorItem
    case None => None
    case Some(data) => env.parseEditorData(data)
  }

  /**
   * The text of a text card (src/clipboard.ts:107-119): a fenced block tagged with the mode
   * when the text spans lines, inline code otherwise, unchanged for prose modes and for
   * absent or unparseable metadata.
   */
  function FormatPasted(text: string, mode: Option<EditorMode>): (r: string)
    ensures r == text <==> !WrapsAsCode(mode)
    ensures '\n' in r <==> '\n' in text
    ensures |r| >= |text|
  {
    if !WrapsAsCode(mode) then text
    else if '\n' in text then FENCE + Label(mode.value) + "\n" + text + "\n" + FENCE
    else "`" + text + "`"
  }

  /**
   * The text branch (src/clipboard.ts:91-126): one request at the drop position, an image
   * referencing the raw text when it loads as one, a text card otherwise.
   */
  function TextCards(text: string, editorItem: Option<string>, drop: Pos, env: Env): (r: seq<Card>)
    ensures |r| == 1 && r[0].pos == drop && r[0].id == env.now(0) as real
    ensures r[0].kind == Image <==> env.loadsImage(text)
    ensures env.loadsImage(text) ==> r[0].content == text
    ensures !env.loadsImage(text) ==> r[0].kind == Text
  {
    if env.loadsImage(text) then [Card(env.now(0) as real, Image, drop, text)]
    else [Card(env.now(0) as real, Text, drop, FormatPasted(text, EditorModeOf(editorItem, env)))]
  }

  // ---------------------------------------------------------------------------------
  // The cascade
  // ---------------------------------------------------------------------------------

  /** The priority cascade over a classified payload; the first handler that applies wins. */
  function Cascade(p: Payload, drop: Pos, env: Env): seq<Card> {
    if |p.images| > 0 then ImageCards(p.images, drop, env)
    else match UsableCards(p.cardsItem, env)
      case Some(cards) => Replayed(cards, drop, env)
      case None =>
        match p.textItem
        case Some(text) => TextCards(text, p.editorItem, drop, env)
        case None => []
  }

  /** What `pasteOnCanvas` resolves to; a null transfer gives nothing. */
  function Resolve(transfer: Option<Transfer>, drop: Pos, env: Env): seq<Card> {
    match transfer
    case None => []
    case Some(t) => Cascade(Classify(t), drop, env)
  }

  /** `pasteOnCanvas` as the source writes it: early returns and a reassigned `text`. */
  method PasteOnCanvas(transfer: Option<Transfer>, drop: Pos, env: Env) returns (r: seq<Card>)
    ensures r == Resolve(transfer, drop, env)
  {
    if transfer.None? {
      return [];
    }
    var t := transfer.value;
    var images := Images(t.files);
    var items := NonFileItems(t.items);
    var cardsItem := Find(items, CARDS_TYPE);
    var textItem := Find(items, TEXT_TYPE);
    var editorItem := Find(items, EDITOR_TYPE);

    if |images| > 0 {
      r := PasteImages(images, drop, env);
      return;
    }

    if cardsItem.Some? {
      var parsed := env.parseCards(cardsItem.value);
      if parsed.Some? && |parsed.value| > 0 {
        return Replayed(parsed.value, drop, env);
      }
    }

    if textItem.Some? {
      var text := textItem.value;
      if env.loadsImage(text) {
        return [Card(env.now(0) as real, Image, drop, text)];
      }
      if editorItem.Some? {
        var meta := env.parseEditorData(editorItem.value);
        if meta.Some? {
          var mode := meta.value;
          if mode != Named("plaintext") && mode != Named("markdown") {
            if '\n' in text {
              text := FENCE + Label(mode) + "\n" + text + "\n" + FENCE;
            } else {
              text := "`" + text + "`";
            }
          }
        }
      }
      return [Card(env.now(0) as real, Text, drop, text)];
    }

    return [];
  }
}
