# Clipboard of the vue-canvas card canvas, modelled in Dafny

The canvas holds cards: positioned blocks of text, images or other content. `src/clipboard.ts`
moves cards to and from the clipboard, and it does so in two directions.

- **Copy** (`copyCards`). The selected cards are sorted in place into reading order: ascending
  `y`, with ties broken by ascending `x`. The copy handler then writes two representations of
  them. The `text/plain` one joins the contents with a blank line. The `cards` one is a list of
  `{type, pos, content}` records.
- **Paste** (`pasteOnCanvas`). This handles a paste or a drop. It looks at what the payload
  offers and runs a fixed-priority cascade:
  1. image files;
  2. a replay of previously copied cards, re-anchored at the drop point;
  3. text that loads as an image;
  4. text, wrapped as a fenced or inline code block when VS Code metadata names a non-prose mode;
  5. nothing.

  It returns the card-creation requests.

The project has these modules:

| file | module | contents |
|---|---|---|
| `wrappers.dfy` | `Wrappers` | `Option` |
| `cards.dfy` | `Cards` | positions, card kinds, cards (and requests, which have the same shape), the id-less `CardData` record |
| `reading_order.dfy` | `ReadingOrder` | the sort comparator; `SortByReadingOrder`, a specification of the sort (insertion sort on sequences); the in-place array sort `SortCards` proved against it; proofs that the order is sorted, a permutation and stable, and that it is the only such order |
| `copy.dfy` | `Copy` | `join`, the two representations, and the copy handler `CopyCards` |
| `paste.dfy` | `Paste` | payload classification (`filter`/`find`), the handlers, `Resolve` (the cascade as a specification), and `PasteOnCanvas` (the early-return method, with its running `offset` and reassigned `text`) proved equal to it |
| `paste_properties.dfy` | `PasteProperties` | priority, fall-through and the empty result; the worked examples for Python, Rust and plaintext metadata |
| `copy_paste.dfy` | `CopyPaste` | copy then paste reproduces the copied layout |

The collaborators the paste path calls are the fields of `Paste.Env`:

- `fileToBase64` is `encode`;
- whether `loadImage` resolves is `loadsImage`;
- the two `JSON.parse` calls are `parseCards` and `parseEditorData`;
- the k-th readings of `Date.now()` and `Math.random()`, counted from the start of the branch
  that returns, are `now(k)` and `random(k)`.

A parse oracle answers `None` when the parse throws, and also when reading its result throws: a
`null` result, or a list whose first card has no `pos`. `createCard` is the identity on a request.
Ids are `real` because an image id is `Date.now() + Math.random()`.

When VS Code metadata parses but has no `mode` field, the mode is `undefined`, which is not
`'plaintext'`. The text is therefore wrapped, and a fence carries the label `undefined`. The model
keeps this behaviour as the source has it (`EditorMode.Missing`, `PasteProperties.MissingModeIsUndefined`).
Three behaviours of the code are worth noting:

- Metadata without a mode is not ignored: the text is wrapped as code, as described above. The
  model keeps this.
- Image ids are `Date.now() + Math.random()`, so nothing makes them unique. The model keeps this
  and proves no uniqueness for them.
- Image offsets follow the order in which the encodings complete, because `offset += 20` runs as
  each one finishes. The model does not capture this: it idealises the encodings as sequential
  (see "## Left out").
- When `fileToBase64` rejects, the `resolve` of that image's promise is never called, so
  `Promise.all` never settles and the paste never finishes. The model does not capture this:
  `encode` never fails (see "## Left out").

## Model

| member | source | states |
|---|---|---|
| ReadingOrder.Compare | src/clipboard.ts:14-19 | the comparator is negative exactly when `a` is above `b`, or on the same row and to its left; it is zero exactly when the positions are equal |
| ReadingOrder.SortByReadingOrder | src/clipboard.ts:14-19 | the reading order of the cards is a permutation of them (same multiset, same length), non-decreasing in `y` and, among cards of equal `y`, in `x` |
| ReadingOrder.InsertKeepsOrder | src/clipboard.ts:14-19 | inserting a card into a sorted sequence keeps it sorted |
| ReadingOrder.InsertAddsCard | src/clipboard.ts:14-19 | insertion adds exactly the inserted card (multiset and length) |
| ReadingOrder.SortIsStable | src/clipboard.ts:14 | the cards at any one position appear in the sorted order exactly as in the input order (a stable sort, like `Array.prototype.sort`) |
| ReadingOrder.StableSortIsUnique | src/clipboard.ts:14-19 | any sorted arrangement of the cards that keeps each same-position group in input order equals `SortByReadingOrder`, so the model agrees with every stable sort |
| ReadingOrder.SortedTiesDetermine | src/clipboard.ts:14-19 | two sorted sequences with the same cards, in the same order, at every position are equal |
| ReadingOrder.SortCards | src/clipboard.ts:14-19 | sorting the caller's array in place leaves it holding exactly `SortByReadingOrder` of its old contents |
| Copy.Join | src/clipboard.ts:22 | a non-empty join starts with the first part |
| Copy.JoinAppend | src/clipboard.ts:22 | joining two non-empty lists puts exactly one separator between the joins of the two |
| Copy.Contents | src/clipboard.ts:22 | the plain-text parts are the cards' `content` fields, same length and order |
| Cards.KindOf | src/clipboard.ts:24 | a card's `type` string maps to one kind, `text` and `image` to `Text` and `Image` and never to `Other`, and the kind reads back as the same string |
| Cards.KindOfTagOf | src/clipboard.ts:24 | every canonical kind is the kind of its own tag, so tags and canonical kinds correspond one to one |
| Copy.PlainText | src/clipboard.ts:22 | the `text/plain` form of no cards is empty, and of one card is its content |
| Copy.PlainTextAppend | src/clipboard.ts:22 | the `text/plain` form of two non-empty groups of cards is theirs with one blank line between |
| Copy.Structured | src/clipboard.ts:23-27 | definition of the `cards` form; no contract of its own, `Copy.StructuredKeepsCards` states it |
| Copy.Serialize | src/clipboard.ts:22-27 | definition of the pair of representations; no contract of its own |
| Copy.StructuredKeepsCards | src/clipboard.ts:23-27 | the structured form has one record per card, in order, with the card's `type`, `pos` and `content` |
| Copy.CopyCards | src/clipboard.ts:9-28 | without clipboard data, nothing is sorted and nothing is written; otherwise the array ends in reading order, and the data written is its contents joined by `"\n\n"` plus its structured form |
| Paste.Images | src/clipboard.ts:40 | the image list holds exactly the files whose MIME type starts with `image`, and never more files than were offered |
| Paste.ImagesAppend | src/clipboard.ts:40 | filtering a concatenation is the concatenation of the filtered parts, so the image files keep their order |
| Paste.ImagesCount | src/clipboard.ts:40 | each image file is kept exactly as many times as it is offered, and any other file never |
| Paste.NonFileItems | src/clipboard.ts:41-43 | the items kept are exactly those whose kind is not `file` |
| Paste.NonFileItemsAppend | src/clipboard.ts:41-43 | filtering a concatenation is the concatenation of the filtered parts, so the kept items keep their order |
| Paste.NonFileItemsCount | src/clipboard.ts:41-43 | each non-file item is kept exactly as many times as it is offered, and a file item never |
| Paste.FirstIndex | src/clipboard.ts:44-46 | `find` yields the first item of the asked type: a match, with no match before it; it yields nothing exactly when no item has that type |
| Paste.Find | src/clipboard.ts:44-46 | definition of `find` (the data of the item at `FirstIndex`); no contract of its own |
| Paste.FindIsFirstOffer | src/clipboard.ts:41-46 | `find` over the filtered items equals `FirstOffer`, the first non-file item of that type read straight off the transfer |
| Paste.FindFirstOffered | src/clipboard.ts:41-46 | `find` over the filtered items gives the data of the first non-file item of the transfer with that type, and nothing exactly when the transfer offers none |
| Paste.Classify | src/clipboard.ts:39-46 | definition of the classified payload (image files and the three `find`s); no contract of its own, `Paste.FindFirstOffered` and the filter lemmas state what it picks |
| Paste.ImageCards | src/clipboard.ts:49-66 | one image request per image file, in file order, at offset `20·i` on both axes from the drop position, holding the file's encoding, with id `Date.now() + Math.random()` |
| Paste.PasteImages | src/clipboard.ts:50-66 | the loop with its running `offset` computes exactly `ImageCards` |
| Paste.UsableCards | src/clipboard.ts:70-74 | replay applies exactly when the `cards` item is present, parses, and is non-empty |
| Paste.Replayed | src/clipboard.ts:75-85 | same length as the copied list, `type` and `content` kept in order; the first request lands on the drop position and every pairwise position difference is kept; with a clock that never goes backwards, the ids `Date.now() + i` strictly increase |
| Paste.Label | src/clipboard.ts:109-114 | definition of the fence label: the mode's name, and `undefined` when `mode` is absent; no contract of its own |
| Paste.EditorModeOf | src/clipboard.ts:107-109 | there is no mode exactly when the metadata item is absent or does not parse |
| Paste.FormatPasted | src/clipboard.ts:107-119 | the text is changed exactly when the metadata parsed and names a mode other than `plaintext` or `markdown`; the result has a line break exactly when the text has one; it is never shorter |
| Paste.TextCards | src/clipboard.ts:91-126 | exactly one request at the drop position with id `Date.now()`; it is an image exactly when the text loads as one, and then its content is the raw text; otherwise it is a text card |
| Paste.Cascade | src/clipboard.ts:48-131 | definition of the priority cascade over a classified payload; no contract of its own, the `PasteProperties` lemmas state its properties |
| Paste.Resolve | src/clipboard.ts:35-131 | definition of what `pasteOnCanvas` resolves to, a null transfer giving nothing; no contract of its own, the `PasteProperties` lemmas state its properties |
| Paste.PasteOnCanvas | src/clipboard.ts:35-132 | the early-return method returns exactly `Resolve`, the cascade |
| PasteProperties.EmptyExactlyWhenNothingUsable | src/clipboard.ts:35-132 | nothing is pasted exactly when the transfer is null, or when it offers no image file, no usable `cards` list and no `text/plain` item |
| PasteProperties.ResolveWithImages | src/clipboard.ts:49-66 | with image files, the result is the image requests for them |
| PasteProperties.ImagesWin | src/clipboard.ts:49-66 | if any file is an image, the result does not depend on the items at all; it holds one image request per image file, staggered by 20, holding the encodings |
| PasteProperties.ImagesOfImageFiles | src/clipboard.ts:40 | filtering a list of image files keeps all of them |
| PasteProperties.NonImageFilesIgnored | src/clipboard.ts:40 | dropping the non-image files never changes what is pasted |
| PasteProperties.CardsReplayed | src/clipboard.ts:70-86 | without images, a usable `cards` list is replayed: same length, types and contents, each card moved by drop minus first card's position, ids pairwise distinct under a monotone clock |
| PasteProperties.UnusableCardsFallThrough | src/clipboard.ts:70-88 | a `cards` item that fails to parse or parses empty gives the same result as a payload without it |
| PasteProperties.TextThatLoadsIsImage | src/clipboard.ts:94-104 | text that loads as an image becomes one image request at the drop position holding the raw text |
| PasteProperties.TextIsTextCard | src/clipboard.ts:106-126 | other text becomes one text request at the drop position holding the formatted text |
| PasteProperties.CodeIsWrapped | src/clipboard.ts:112-117 | for a non-prose mode: a fenced block labelled with the mode when the text has a line break, inline backticks otherwise |
| PasteProperties.MissingModeIsUndefined | src/clipboard.ts:109-116 | metadata without `mode` fences multi-line text with the label `undefined` |
| PasteProperties.ClassifyEditorPayload | src/clipboard.ts:44-46 | a payload with a text item and a metadata item classifies to exactly those, with no `cards` item |
| PasteProperties.ResolveEditorPayload | src/clipboard.ts:91-126 | such a payload, when the text is not an image, pastes one text card formatted by the parsed metadata |
| PasteProperties.PythonIsFenced | src/clipboard.ts:107-126 | `print(1)\nprint(2)` with mode `python` is pasted as a fenced block tagged `python` |
| PasteProperties.RustLineIsInline | src/clipboard.ts:107-126 | `x=1` with mode `rust` is pasted as inline code |
| PasteProperties.PlaintextIsUnchanged | src/clipboard.ts:107-126 | any text with mode `plaintext` is pasted unchanged |
| CopyPaste.CopyThenPaste | src/clipboard.ts:23-85 | pasting the structured form of copied cards reproduces their types and contents in order and moves the group rigidly so that the first card lands on the drop position |
| CopyPaste.CopyPastedInPlace | src/clipboard.ts:14-85 | a copy pasted at the position of its first card in reading order (the top-left card) puts every card back at its own position |

## Left out

- DOM event plumbing is not modelled: registering the `copy` listener with `{ once: true }`, `preventDefault`, `document.execCommand('copy')` and the `setData` transport. `CopyCards` returns the data the handler would set. Whether the event carries clipboard data is the parameter `hasClipboardData`.
- `JSON.stringify` of the `cards` list is not modelled. The structured representation is kept as the list of records; `CopyThenPaste` takes it as given that parsing returns that list.
- `JSON.parse` is not modelled either. Each parse is an oracle in `Env`. An oracle answers `None` for every input where the source's `try` block would throw. The `cards` oracle also never returns an entry that has a `pos` but lacks `type` or `content`: the source copies `undefined` through for such an entry without throwing, and `CardData` cannot hold that value, so such entries are outside the oracle's range. The model assumes that every `type` tag the oracle returns is read as `Cards.KindOf` reads it, so `Other` never holds `text` or `image`. Nothing in `Env` enforces this assumption. Editor metadata whose `mode` is not a string (a number, say) is not modelled; only a string `mode` or a missing one is.
- `getAsString`, `getAsFile` and the `Promise.all` over items are async platform accessors. Each item carries its string already extracted.
- `fileToBase64`, `loadImage` and `createCard` are foreign code. The first two are the oracles `encode` and `loadsImage`; `createCard` is the identity on the request.
- A failing `fileToBase64` is not modelled: `encode` is total. In the source, a rejected encoding leaves that image's promise unresolved, so `pasteOnCanvas` never returns. In the model the image branch always yields its requests.
- Clock readings taken by a branch that throws part-way are not counted. A `cards` list can parse non-empty and then throw inside the `map`, for example when one of its cards has no `pos`. By then `Date.now()` has already been read for that card and for every card before it. The text branch's `Date.now()` is then a later reading than the model's `now(0)`. No property proved here depends on which reading it is.
- The image encodings run concurrently, and `offset += 20` runs as each one completes. So the source staggers images in completion order, and reads `Date.now()` in that order too. `ImageCards` and `PasteImages` idealise this as sequential: image `i` gets offset `20·i` and the i-th clock reading.
- `Math.random()` is an oracle reading in image ids. Image ids are therefore not proved distinct, and the source does not guarantee it either. Only replay ids are proved distinct (`Replayed`, `CardsReplayed`).
- JavaScript numbers (floating point, `NaN`, rounding) are modelled as unbounded integers for positions and reals for ids.
- The `console.log(items)` diagnostic is not modelled.
- `ReadingOrder.SortCards` is an insertion sort. The source calls the engine's `Array.prototype.sort`. `StableSortIsUnique` shows that every stable sort gives the same order.
- Copy.Join: states that the join starts with the first part, not its length. `JoinAppend` gives the separator structure.
