/**
 * What the paste cascade promises: which handler wins, what each handler produces, and
 * when nothing is pasted.
 */
module PasteProperties {
  import opened Wrappers
  import opened Cards
  import opened Paste

  /** Nothing is pasted exactly when there is no transfer or it offers nothing usable. */
  lemma EmptyExactlyWhenNothingUsable(transfer: Option<Transfer>, drop: Pos, env: Env)
    ensures Resolve(transfer, drop, env) == [] <==>
      transfer.None?
      || (var p := Classify(transfer.value);
          p.images == [] && UsableCards(p.cardsItem, env).None? && p.textItem.None?)
  {
  }

  /** With image files, the result is the image requests for them, whatever the items. */
  lemma ResolveWithImages(t: Transfer, drop: Pos, env: Env)
    requires Images(t.files) != []
    ensures Resolve(Some(t), drop, env) == ImageCards(Images(t.files), drop, env)
  {
    assert Classify(t).images == Images(t.files);
  }

  /**
   * Image files win: one image request per image file, staggered by `STAGGER` on both
   * axes, and no item of the payload is consulted.
   */
  lemma ImagesWin(files: seq<File>, items: seq<Item>, otherItems: seq<Item>, drop: Pos, env: Env)
    requires exists f :: f in files && IsImageFile(f)
    ensures var r := Resolve(Some(Transfer(files, items)), drop, env);
      && r == Resolve(Some(Transfer(files, otherItems)), drop, env)
      && |r| == |Images(files)|
      && forall i :: 0 <= i < |r| ==>
        && r[i].kind == Image
        && r[i].pos == Translate(drop, Pos(STAGGER * i, STAGGER * i))
        && r[i].content == env.encode(Images(files)[i])
  {
    var f :| f in files && IsImageFile(f);
    assert f in Images(files);
    ResolveWithImages(Transfer(files, items), drop, env);
    ResolveWithImages(Transfer(files, otherItems), drop, env);
  }

  lemma {:induction false} ImagesOfImageFiles(files: seq<File>)
    requires forall f :: f in files ==> IsImageFile(f)
    ensures Images(files) == files
  {
    if files != [] {
      assert files[0] in files;
      assert forall f :: f in files[1..] ==> f in files;
      ImagesOfImageFiles(files[1..]);
    }
  }

  /** Files that are not images never change what is pasted. */
  lemma NonImageFilesIgnored(files: seq<File>, items: seq<Item>, drop: Pos, env: Env)
    ensures Resolve(Some(Transfer(files, items)), drop, env)
         == Resolve(Some(Transfer(Images(files), items)), drop, env)
  {
    ImagesOfImageFiles(Images(files));
  }

  /**
   * Without image files, a usable `cards` list is replayed: same length, types and contents
   * in order, the first card on the drop position, every card translated by the same vector,
   * and ids strictly increasing (hence distinct) under a clock that never goes backwards.
   */
  lemma CardsReplayed(t: Transfer, drop: Pos, env: Env)
    requires Images(t.files) == []
    requires UsableCards(Classify(t).cardsItem, env).Some?
    ensures var cards := UsableCards(Classify(t).cardsItem, env).value;
      var r := Resolve(Some(t), drop, env);
      && |r| == |cards|
      && r[0].pos == drop
      && (forall i :: 0 <= i < |r| ==>
            && r[i].kind == cards[i].kind
            && r[i].content == cards[i].content
            && r[i].pos == Translate(cards[i].pos, Delta(drop, cards[0].pos)))
      && (NonDecreasing(env.now) ==> forall i, j :: 0 <= i < j < |r| ==> r[i].id != r[j].id)
  {
    var cards := UsableCards(Classify(t).cardsItem, env).value;
    var r := Resolve(Some(t), drop, env);
    assert r == Replayed(cards, drop, env);
    forall i | 0 <= i < |r| ensures r[i].pos == Translate(cards[i].pos, Delta(drop, cards[0].pos)) {
      assert Delta(r[i].pos, r[0].pos) == Delta(cards[i].pos, cards[0].pos);
    }
  }

  /**
   * A `cards` item that fails to parse or parses to an empty list is passed over: the
   * result is what the payload gives without it.
   */
  lemma UnusableCardsFallThrough(t: Transfer, drop: Pos, env: Env)
    requires Images(t.files) == []
    requires UsableCards(Classify(t).cardsItem, env).None?
    ensures Resolve(Some(t), drop, env) == Cascade(Classify(t).(cardsItem := None), drop, env)
  {
  }

  /** Text that loads as an image becomes one image request holding the raw text. */
  lemma TextThatLoadsIsImage(t: Transfer, drop: Pos, env: Env)
    requires Images(t.files) == [] && UsableCards(Classify(t).cardsItem, env).None?
    requires Classify(t).textItem.Some? && env.loadsImage(Classify(t).textItem.value)
    ensures Resolve(Some(t), drop, env)
         == [Card(env.now(0) as real, Image, drop, Classify(t).textItem.value)]
  {
  }

  /** Other text becomes one text request, formatted according to the editor metadata. */
  lemma TextIsTextCard(t: Transfer, drop: Pos, env: Env)
    requires Images(t.files) == [] && UsableCards(Classify(t).cardsItem, env).None?
    requires Classify(t).textItem.Some? && !env.loadsImage(Classify(t).textItem.value)
    ensures var p := Classify(t);
      Resolve(Some(t), drop, env)
      == [Card(env.now(0) as real, Text, drop, FormatPasted(p.textItem.value, EditorModeOf(p.editorItem, env)))]
  {
  }

  /** Multi-line code is fenced with its mode; single-line code is inline. */
  lemma CodeIsWrapped(text: string, mode: EditorMode)
    requires !IsProseMode(mode)
    ensures '\n' in text ==> FormatPasted(text, Some(mode)) == "```" + Label(mode) + "\n" + text + "\n```"
    ensures '\n' !in text ==> FormatPasted(text, Some(mode)) == "`" + text + "`"
  {
  }

  /**
   * Metadata that parses but has no `mode` still wraps the text, with the label `undefined`.
   */
  lemma MissingModeIsUndefined(text: string)
    requires '\n' in text
    ensures FormatPasted(text, Some(Missing)) == "```undefined\n" + text + "\n```"
  {
  }

  const PYTHON_META: string := "{\"mode\":\"python\"}"
  const RUST_META: string := "{\"mode\":\"rust\"}"
  const PLAIN_META: string := "{\"mode\":\"plaintext\"}"

  /** A payload offering only text and its editor metadata. */
  function EditorPayload(text: string, meta: string): Transfer {
    Transfer([], [Item("string", TEXT_TYPE, text), Item("string", EDITOR_TYPE, meta)])
  }

  /** Such a payload offers no `cards` item, the text and the metadata. */
  lemma ClassifyEditorPayload(text: string, meta: string)
    ensures Classify(EditorPayload(text, meta)) == Payload([], None, Some(text), Some(meta))
  {
    var items := EditorPayload(text, meta).items;
    assert NonFileItems(items[1..]) == items[1..];
    assert NonFileItems(items) == items;
    assert |TEXT_TYPE| != |CARDS_TYPE| && |EDITOR_TYPE| != |CARDS_TYPE| && |EDITOR_TYPE| != |TEXT_TYPE|;
    assert FirstIndex(items[1..], CARDS_TYPE) == None;
    assert FirstIndex(items, CARDS_TYPE) == None;
    assert FirstIndex(items, TEXT_TYPE) == Some(0);
    assert FirstIndex(items[1..], EDITOR_TYPE) == Some(0);
    assert FirstIndex(items, EDITOR_TYPE) == Some(1);
  }

  /** Such a payload pastes one text card, formatted by the parsed metadata. */
  lemma ResolveEditorPayload(text: string, meta: string, drop: Pos, env: Env)
    requires !env.loadsImage(text)
    ensures Resolve(Some(EditorPayload(text, meta)), drop, env)
         == [Card(env.now(0) as real, Text, drop, FormatPasted(text, env.parseEditorData(meta)))]
  {
    ClassifyEditorPayload(text, meta);
  }

  /** Two lines of Python, `print(1)` and `print(2)`, become a fenced block tagged `python`. */
  lemma PythonIsFenced(drop: Pos, env: Env)
    requires !env.loadsImage("print(1)" + "\n" + "print(2)")
    requires env.parseEditorData(PYTHON_META) == Some(Named("python"))
    ensures Resolve(Some(EditorPayload("print(1)" + "\n" + "print(2)", PYTHON_META)), drop, env)
         == [Card(env.now(0) as real, Text, drop, FENCE + "python" + "\n" + ("print(1)" + "\n" + "print(2)") + "\n" + FENCE)]
  {
    var text := "print(1)" + "\n" + "print(2)";
    ResolveEditorPayload(text, PYTHON_META, drop, env);
    assert text[|"print(1)"|] == '\n';
    assert !IsProseMode(Named("python"));
  }

  /** One line of Rust becomes inline code. */
  lemma RustLineIsInline(drop: Pos, env: Env)
    requires !env.loadsImage("x=1")
    requires env.parseEditorData(RUST_META) == Some(Named("rust"))
    ensures Resolve(Some(EditorPayload("x=1", RUST_META)), drop, env)
         == [Card(env.now(0) as real, Text, drop, "`" + "x=1" + "`")]
  {
    ResolveEditorPayload("x=1", RUST_META, drop, env);
    assert '\n' !in "x=1" by { assert "x=1" == ['x', '=', '1']; }
    assert !IsProseMode(Named("rust"));
  }

  /** Text in plaintext mode is pasted unchanged. */
  lemma PlaintextIsUnchanged(text: string, drop: Pos, env: Env)
    requires !env.loadsImage(text)
    requires env.parseEditorData(PLAIN_META) == Some(Named("plaintext"))
    ensures Resolve(Some(EditorPayload(text, PLAIN_META)), drop, env)
         == [Card(env.now(0) as real, Text, drop, text)]
  {
    ResolveEditorPayload(text, PLAIN_META, drop, env);
  }
}
