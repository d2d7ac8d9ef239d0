/** The two chat modes of the bot. `cb_text_only` sends the text elements
    only, each cut into pieces of at most 4096 characters. `cb_chat_all`
    sends every element in order, text as such pieces and each image as a
    photo, except that an image whose fingerprint (Python's `hash` of its
    bytes) was already seen in the same call is skipped. */
module Chat {
  import opened Strings
  import opened Elements
  import opened Chunking
  import opened Messages

  /** One text message per piece, in order. */
  function TextMessages(pieces: seq<string>): seq<Message> {
    if pieces == [] then [] else TextMessages(pieces[..|pieces| - 1]) + [SendMessage(pieces[|pieces| - 1])]
  }

  lemma {:induction false} TextMessagesPayloads(pieces: seq<string>)
    ensures MessageTexts(TextMessages(pieces)) == pieces
    ensures Photos(TextMessages(pieces)) == []
    ensures forall m :: m in TextMessages(pieces) ==> m.SendMessage? && m.text in pieces
    decreases |pieces|
  {
    if pieces != [] {
      var init := pieces[..|pieces| - 1];
      TextMessagesPayloads(init);
      var ms := TextMessages(pieces);
      assert ms[..|ms| - 1] == TextMessages(init);
    }
  }

  lemma {:induction false} TextMessagesAppend(a: seq<string>, b: seq<string>)
    ensures TextMessages(a + b) == TextMessages(a) + TextMessages(b)
    decreases |b|
  {
    if b == [] {
      assert a + b == a;
    } else {
      assert (a + b)[..|a + b| - 1] == a + b[..|b| - 1];
      TextMessagesAppend(a, b[..|b| - 1]);
    }
  }

  /** The messages of one block: one per piece. */
  function BlockMessages(block: string): seq<Message> {
    TextMessages(Chunks(block))
  }

  /** One step of `SendBlock`'s loop: the piece at `i` is the next one due,
      and sending it extends the messages by one text message. */
  lemma SendBlockStep(block: string, i: nat, done: seq<string>)
    requires i < |block|
    requires done + ChunksFrom(block, i) == Chunks(block)
    ensures var piece := block[i..Min(i + MaxMessageLength, |block|)];
      (done + [piece]) + ChunksFrom(block, i + MaxMessageLength) == Chunks(block)
      && TextMessages(done + [piece]) == TextMessages(done) + [SendMessage(piece)]
  {
    var piece := block[i..Min(i + MaxMessageLength, |block|)];
    var rest := ChunksFrom(block, i + MaxMessageLength);
    assert ChunksFrom(block, i) == [piece] + rest;
    assert (done + [piece]) + rest == done + ([piece] + rest);
    assert (done + [piece])[..|done|] == done;
  }

  /** `for i in range(0, len(block), 4096): send_message(block[i:i+4096])`. */
  method SendBlock(block: string) returns (msgs: seq<Message>)
    ensures msgs == BlockMessages(block)
  {
    msgs := [];
    ghost var done: seq<string> := [];
    var i := 0;
    while i < |block|
      invariant done + ChunksFrom(block, i) == Chunks(block)
      invariant msgs == TextMessages(done)
      decreases |block| - i
    {
      var piece := block[i..Min(i + MaxMessageLength, |block|)];
      SendBlockStep(block, i, done);
      msgs := msgs + [SendMessage(piece)];
      done := done + [piece];
      i := i + MaxMessageLength;
    }
    assert done == Chunks(block);
  }

  /** The whole `cb_text_only` stream for the text payloads `parts`. */
  function TextOnlyStream(parts: seq<string>): seq<Message> {
    if parts == [] then [] else TextOnlyStream(parts[..|parts| - 1]) + BlockMessages(parts[|parts| - 1])
  }

  /** The loops of `cb_text_only` once the text payloads are known. */
  method SendTextOnly(elements: seq<Element>) returns (msgs: seq<Message>)
    ensures msgs == TextOnlyStream(Texts(elements))
  {
    var parts := Texts(elements);
    msgs := [];
    for j := 0 to |parts|
      invariant msgs == TextOnlyStream(parts[..j])
    {
      var m := SendBlock(parts[j]);
      msgs := msgs + m;
      assert parts[..j + 1][..j] == parts[..j];
    }
    assert parts[..|parts|] == parts;
  }

  /** The pieces of one block, sent one after another, spell the block, and
      every piece is a text message of 1 to 4096 characters. */
  lemma BlockMessagesProperties(block: string)
    ensures Concat(MessageTexts(BlockMessages(block))) == block
    ensures Photos(BlockMessages(block)) == []
    ensures forall m :: m in BlockMessages(block) ==>
      m.SendMessage? && 1 <= |m.text| <= MaxMessageLength
  {
    TextMessagesPayloads(Chunks(block));
    ChunksConcat(block);
  }

  /** The text-only stream sends nothing but text messages of 1 to 4096
      characters, and their texts, put together, are the text payloads put
      together: no text is lost, repeated or reordered. */
  lemma {:induction false} TextOnlyStreamProperties(parts: seq<string>)
    ensures Concat(MessageTexts(TextOnlyStream(parts))) == Concat(parts)
    ensures forall m :: m in TextOnlyStream(parts) ==>
      m.SendMessage? && 1 <= |m.text| <= MaxMessageLength
    decreases |parts|
  {
    if parts != [] {
      var init, last := parts[..|parts| - 1], parts[|parts| - 1];
      TextOnlyStreamProperties(init);
      BlockMessagesProperties(last);
      PayloadsAppend(TextOnlyStream(init), BlockMessages(last));
      ConcatAppend(MessageTexts(TextOnlyStream(init)), MessageTexts(BlockMessages(last)));
      assert [last][..0] == [];
    }
  }

  /** The fingerprints of `images`: `{hash(b) for b in images}`. */
  function HashSet(images: seq<Bytes>, hash: Bytes -> int): set<int> {
    if images == [] then {} else HashSet(images[..|images| - 1], hash) + {hash(images[|images| - 1])}
  }

  /** The fingerprints of the images among `es`. */
  function Fingerprints(es: seq<Element>, hash: Bytes -> int): set<int> {
    HashSet(Images(es), hash)
  }

  /** No two of `images` have the same fingerprint. */
  predicate DistinctFingerprints(images: seq<Bytes>, hash: Bytes -> int) {
    forall i, j :: 0 <= i < j < |images| ==> hash(images[i]) != hash(images[j])
  }

  lemma {:induction false} HashSetMember(images: seq<Bytes>, hash: Bytes -> int, k: nat)
    requires k < |images|
    ensures hash(images[k]) in HashSet(images, hash)
    decreases |images|
  {
    if k < |images| - 1 {
      HashSetMember(images[..|images| - 1], hash, k);
    }
  }

  /** The elements `cb_chat_all` sends, in order: every text element, and an
      image element only when no image before it in `es` has its
      fingerprint. */
  function Dedup(es: seq<Element>, hash: Bytes -> int): seq<Element> {
    if es == [] then []
    else
      var init, e := es[..|es| - 1], es[|es| - 1];
      Dedup(init, hash) + (if e.Text? || hash(e.data) !in Fingerprints(init, hash) then [e] else [])
  }

  /** The messages for one element: the pieces of a text, the photo of an image. */
  function ElementMessages(e: Element): seq<Message> {
    match e
    case Text(s) => BlockMessages(s)
    case Img(b) => [SendPhoto(b)]
  }

  /** The messages for `es`, element by element. */
  function Render(es: seq<Element>): seq<Message> {
    if es == [] then [] else Render(es[..|es| - 1]) + ElementMessages(es[|es| - 1])
  }

  lemma HashSetSnoc(images: seq<Bytes>, b: Bytes, hash: Bytes -> int)
    ensures HashSet(images + [b], hash) == HashSet(images, hash) + {hash(b)}
  {
    assert (images + [b])[..|images|] == images;
  }

  lemma ImagesSnoc(es: seq<Element>, e: Element)
    ensures Images(es + [e]) == Images(es) + (if e.Img? then [e.data] else [])
  {
    assert (es + [e])[..|es|] == es;
  }

  lemma FingerprintsSnoc(es: seq<Element>, e: Element, hash: Bytes -> int)
    ensures Fingerprints(es + [e], hash) == Fingerprints(es, hash) + (if e.Img? then {hash(e.data)} else {})
  {
    ImagesSnoc(es, e);
    if e.Img? {
      HashSetSnoc(Images(es), e.data, hash);
    } else {
      assert Images(es + [e]) == Images(es);
    }
  }

  lemma DedupSnoc(es: seq<Element>, e: Element, hash: Bytes -> int)
    ensures Dedup(es + [e], hash)
      == Dedup(es, hash) + (if e.Text? || hash(e.data) !in Fingerprints(es, hash) then [e] else [])
  {
    assert (es + [e])[..|es|] == es;
  }

  lemma RenderSnoc(es: seq<Element>, e: Element)
    ensures Render(es + [e]) == Render(es) + ElementMessages(e)
  {
    assert (es + [e])[..|es|] == es;
  }

  /** One step of `cb_chat_all`'s loop: what element `e` adds to the
      fingerprints seen and to the messages sent after `done`. */
  lemma SendAllStep(done: seq<Element>, e: Element, hash: Bytes -> int)
    ensures Fingerprints(done + [e], hash)
      == Fingerprints(done, hash) + (if e.Img? then {hash(e.data)} else {})
    ensures Render(Dedup(done + [e], hash)) == Render(Dedup(done, hash))
      + (if e.Text? then BlockMessages(e.content)
         else if hash(e.data) !in Fingerprints(done, hash) then [SendPhoto(e.data)]
         else [])
  {
    FingerprintsSnoc(done, e, hash);
    DedupSnoc(done, e, hash);
    var kept := Dedup(done, hash);
    if e.Text? || hash(e.data) !in Fingerprints(done, hash) {
      assert Dedup(done + [e], hash) == kept + [e];
      RenderSnoc(kept, e);
    } else {
      assert Dedup(done + [e], hash) == kept + [];
      assert kept + [] == kept;
    }
  }

  /** `cb_chat_all`'s loop: the `sent` set starts empty, and an image is sent
      only when its fingerprint is not yet in `sent`. */
  method SendAll(elements: seq<Element>, hash: Bytes -> int) returns (msgs: seq<Message>)
    ensures msgs == Render(Dedup(elements, hash))
  {
    var sent: set<int> := {};
    msgs := [];
    for i := 0 to |elements|
      invariant sent == Fingerprints(elements[..i], hash)
      invariant msgs == Render(Dedup(elements[..i], hash))
    {
      var e := elements[i];
      assert elements[..i + 1] == elements[..i] + [e];
      SendAllStep(elements[..i], e, hash);
      if e.Text? {
        var m := SendBlock(e.content);
        msgs := msgs + m;
      } else {
        var h := hash(e.data);
        if h !in sent {
          sent := sent + {h};
          msgs := msgs + [SendPhoto(e.data)];
        }
      }
    }
    assert elements[..|elements|] == elements;
  }

  /** De-duplication never touches text: the text payloads sent are all of
      them, in order. */
  lemma {:induction false} DedupTexts(es: seq<Element>, hash: Bytes -> int)
    ensures Texts(Dedup(es, hash)) == Texts(es)
    decreases |es|
  {
    if es != [] {
      var init, e := es[..|es| - 1], es[|es| - 1];
      DedupTexts(init, hash);
      var keep := (if e.Text? || hash(e.data) !in Fingerprints(init, hash) then [e] else []);
      TextsAppend(Dedup(init, hash), keep);
      if keep != [] { assert keep[..0] == []; }
    }
  }

  /** Every fingerprint in the input is sent (once), and no other. */
  lemma {:induction false} DedupFingerprints(es: seq<Element>, hash: Bytes -> int)
    ensures Fingerprints(Dedup(es, hash), hash) == Fingerprints(es, hash)
    decreases |es|
  {
    if es != [] {
      var init, e := es[..|es| - 1], es[|es| - 1];
      DedupFingerprints(init, hash);
      assert es == init + [e];
      FingerprintsSnoc(init, e, hash);
      DedupSnoc(init, e, hash);
      if e.Text? || hash(e.data) !in Fingerprints(init, hash) {
        FingerprintsSnoc(Dedup(init, hash), e, hash);
        assert Dedup(es, hash) == Dedup(init, hash) + [e];
      } else {
        assert Dedup(es, hash) == Dedup(init, hash);
        assert Fingerprints(es, hash) == Fingerprints(init, hash) + {hash(e.data)};
        assert hash(e.data) in Fingerprints(init, hash);
      }
    }
  }

  /** The images sent have pairwise different fingerprints. */
  lemma {:induction false} DedupDistinct(es: seq<Element>, hash: Bytes -> int)
    ensures DistinctFingerprints(Images(Dedup(es, hash)), hash)
    decreases |es|
  {
    if es != [] {
      var init, e := es[..|es| - 1], es[|es| - 1];
      DedupDistinct(init, hash);
      DedupFingerprints(init, hash);
      var keep := (if e.Text? || hash(e.data) !in Fingerprints(init, hash) then [e] else []);
      var before := Images(Dedup(init, hash));
      ImagesAppend(Dedup(init, hash), keep);
      if keep != [] && e.Img? {
        assert keep[..0] == [];
        var after := Images(Dedup(es, hash));
        assert after == before + [e.data];
        forall i, j | 0 <= i < j < |after| ensures hash(after[i]) != hash(after[j]) {
          if j == |before| {
            HashSetMember(before, hash, i);
          } else {
            assert after[i] == before[i] && after[j] == before[j];
          }
        }
      }
    }
  }

  /** `a` can be obtained from `b` by deleting elements. */
  predicate IsSubsequence<T(==)>(a: seq<T>, b: seq<T>)
    decreases |b|
  {
    a == [] || (b != [] &&
      ((a[|a| - 1] == b[|b| - 1] && IsSubsequence(a[..|a| - 1], b[..|b| - 1]))
       || IsSubsequence(a, b[..|b| - 1])))
  }

  /** What is sent keeps the input order: it is the input with some images
      deleted. */
  lemma {:induction false} DedupSubsequence(es: seq<Element>, hash: Bytes -> int)
    ensures IsSubsequence(Dedup(es, hash), es)
    decreases |es|
  {
    if es != [] {
      var init := es[..|es| - 1];
      DedupSubsequence(init, hash);
      var d := Dedup(es, hash);
      if d != Dedup(init, hash) {
        assert d[..|d| - 1] == Dedup(init, hash);
      }
    }
  }

  lemma {:induction false} DedupPrefix(es: seq<Element>, hash: Bytes -> int, n: nat)
    requires n <= |es|
    ensures Dedup(es[..n], hash) <= Dedup(es, hash)
    decreases |es|
  {
    if n < |es| {
      var init := es[..|es| - 1];
      assert es[..n] == init[..n];
      DedupPrefix(init, hash, n);
    } else {
      assert es[..n] == es;
    }
  }

  /** The first image with a given fingerprint is the one sent, at the point
      where it occurs: everything sent for the elements before it, then it. */
  lemma DedupKeepsFirst(es: seq<Element>, hash: Bytes -> int, k: nat)
    requires k < |es| && es[k].Img? && hash(es[k].data) !in Fingerprints(es[..k], hash)
    ensures Dedup(es[..k], hash) + [es[k]] <= Dedup(es, hash)
  {
    DedupPrefix(es, hash, k + 1);
    assert es[..k + 1][..k] == es[..k];
  }

  lemma {:induction false} RenderPayloads(es: seq<Element>)
    ensures Concat(MessageTexts(Render(es))) == Concat(Texts(es))
    ensures Photos(Render(es)) == Images(es)
    ensures forall m :: m in Render(es) ==>
      (m.SendMessage? && 1 <= |m.text| <= MaxMessageLength) || m.SendPhoto?
    decreases |es|
  {
    if es != [] {
      var init, e := es[..|es| - 1], es[|es| - 1];
      RenderPayloads(init);
      var step := ElementMessages(e);
      PayloadsAppend(Render(init), step);
      ConcatAppend(MessageTexts(Render(init)), MessageTexts(step));
      match e {
        case Text(s) =>
          BlockMessagesProperties(s);
          ConcatAppend(Texts(init), [s]);
          assert [s][..0] == [];
        case Img(b) =>
          assert step[..0] == [];
          assert MessageTexts(step) == [];
          assert Texts(es) == Texts(init);
      }
    }
  }

  /** The `cb_chat_all` stream: its text messages, put together, are all the
      text payloads put together, each 1 to 4096 characters; its photos are
      the de-duplicated images in order, with pairwise different
      fingerprints that cover every fingerprint of the input. */
  lemma ChatAllStreamProperties(es: seq<Element>, hash: Bytes -> int)
    ensures var msgs := Render(Dedup(es, hash));
      && Concat(MessageTexts(msgs)) == Concat(Texts(es))
      && Photos(msgs) == Images(Dedup(es, hash))
      && DistinctFingerprints(Photos(msgs), hash)
      && HashSet(Photos(msgs), hash) == Fingerprints(es, hash)
      && (forall m :: m in msgs ==> (m.SendMessage? && 1 <= |m.text| <= MaxMessageLength) || m.SendPhoto?)
  {
    RenderPayloads(Dedup(es, hash));
    DedupTexts(es, hash);
    DedupDistinct(es, hash);
    DedupFingerprints(es, hash);
  }

}
