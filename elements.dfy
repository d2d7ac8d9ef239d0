/** `extract_pdf_elements`: walks the pages of a PDF in order and lists, per
    page, its stripped text (when there is any) followed by every embedded
    image, as tagged elements. The PDF parser itself is not modelled: a page
    is given as the text the parser returns for it and the raw bytes of the
    images it references, in the parser's order. */
module Elements {
  import opened Strings

  newtype byte = x: int | 0 <= x < 256

  type Bytes = seq<byte>

  /** `("text", txt)` or `("img", data)`. */
  datatype Element = Text(content: string) | Img(data: Bytes)

  /** What the parser yields for one page: its raw text and the bytes of each
      image reference, duplicates included. */
  datatype Page = Page(text: string, images: seq<Bytes>)

  /** One image element per image reference. */
  function ImageElements(images: seq<Bytes>): seq<Element> {
    if images == [] then [] else ImageElements(images[..|images| - 1]) + [Img(images[|images| - 1])]
  }

  /** The elements one page contributes: the stripped text if it is not
      empty, then one image element per image reference. */
  function PageElements(p: Page): seq<Element> {
    (if Strip(p.text) != [] then [Text(Strip(p.text))] else []) + ImageElements(p.images)
  }

  /** `f(x)` for each `x` of `xs`, one after another. */
  function Flatten<T, U>(xs: seq<T>, f: T -> seq<U>): seq<U> {
    if xs == [] then [] else Flatten(xs[..|xs| - 1], f) + f(xs[|xs| - 1])
  }

  lemma {:induction false} FlattenAppend<T, U>(a: seq<T>, b: seq<T>, f: T -> seq<U>)
    ensures Flatten(a + b, f) == Flatten(a, f) + Flatten(b, f)
    decreases |b|
  {
    if b == [] {
      assert a + b == a;
    } else {
      assert (a + b)[..|a + b| - 1] == a + b[..|b| - 1];
      FlattenAppend(a, b[..|b| - 1], f);
    }
  }

  /** The elements of the pages, page by page. */
  function Extract(pages: seq<Page>): seq<Element> {
    Flatten(pages, PageElements)
  }

  lemma ImageElementsSnoc(images: seq<Bytes>, j: nat)
    requires j < |images|
    ensures ImageElements(images[..j + 1]) == ImageElements(images[..j]) + [Img(images[j])]
  {
    assert images[..j + 1][..j] == images[..j];
  }

  lemma ExtractPush(pages: seq<Page>, p: Page)
    ensures Extract(pages + [p]) == Extract(pages) + PageElements(p)
  {
    assert (pages + [p])[..|pages|] == pages;
  }

  lemma ExtractSnoc(pages: seq<Page>, i: nat)
    requires i < |pages|
    ensures Extract(pages[..i + 1]) == Extract(pages[..i]) + PageElements(pages[i])
  {
    assert pages[..i + 1] == pages[..i] + [pages[i]];
    ExtractPush(pages[..i], pages[i]);
  }

  /** One pass of the outer loop: the stripped text, if any, then the
      page's images extend the elements of the pages before. */
  lemma ExtractStep(pages: seq<Page>, i: nat, head: seq<Element>, out: seq<Element>)
    requires i < |pages|
    requires head == Extract(pages[..i])
      + (if Strip(pages[i].text) != [] then [Text(Strip(pages[i].text))] else [])
    requires out == head + ImageElements(pages[i].images)
    ensures out == Extract(pages[..i + 1])
  {
    ExtractSnoc(pages, i);
  }

  /** `extract_pdf_elements`: the nested loops that append to `out`. */
  method ExtractPdfElements(pages: seq<Page>) returns (out: seq<Element>)
    ensures out == Extract(pages)
  {
    out := [];
    for i := 0 to |pages|
      invariant out == Extract(pages[..i])
    {
      var page := pages[i];
      var txt := Strip(page.text);
      if txt != [] {
        out := out + [Text(txt)];
      }
      ghost var head := out;
      for j := 0 to |page.images|
        invariant out == head + ImageElements(page.images[..j])
      {
        ImageElementsSnoc(page.images, j);
        out := out + [Img(page.images[j])];
      }
      assert page.images[..|page.images|] == page.images;
      ExtractStep(pages, i, head, out);
    }
    assert pages[..|pages|] == pages;
  }

  /** Text payloads of `es`, in order: `[t for typ, t in es if typ == "text"]`. */
  function Texts(es: seq<Element>): seq<string> {
    if es == [] then []
    else Texts(es[..|es| - 1]) + (if es[|es| - 1].Text? then [es[|es| - 1].content] else [])
  }

  /** Image payloads of `es`, in order. */
  function Images(es: seq<Element>): seq<Bytes> {
    if es == [] then []
    else Images(es[..|es| - 1]) + (if es[|es| - 1].Img? then [es[|es| - 1].data] else [])
  }

  lemma {:induction false} TextsAppend(a: seq<Element>, b: seq<Element>)
    ensures Texts(a + b) == Texts(a) + Texts(b)
    decreases |b|
  {
    if b == [] {
      assert a + b == a;
    } else {
      assert (a + b)[..|a + b| - 1] == a + b[..|b| - 1];
      TextsAppend(a, b[..|b| - 1]);
    }
  }

  lemma {:induction false} ImagesAppend(a: seq<Element>, b: seq<Element>)
    ensures Images(a + b) == Images(a) + Images(b)
    decreases |b|
  {
    if b == [] {
      assert a + b == a;
    } else {
      assert (a + b)[..|a + b| - 1] == a + b[..|b| - 1];
      ImagesAppend(a, b[..|b| - 1]);
    }
  }

  /** Stripped texts of the pages whose stripped text is not empty, in page order. */
  function PageTexts(pages: seq<Page>): seq<string> {
    if pages == [] then []
    else
      var t := Strip(pages[|pages| - 1].text);
      PageTexts(pages[..|pages| - 1]) + (if t != [] then [t] else [])
  }

  /** All image references of all pages, in page order. */
  function PageImages(pages: seq<Page>): seq<Bytes> {
    if pages == [] then [] else PageImages(pages[..|pages| - 1]) + pages[|pages| - 1].images
  }

  /** Number of pages whose stripped text is not empty. */
  function TextPageCount(pages: seq<Page>): nat {
    if pages == [] then 0
    else TextPageCount(pages[..|pages| - 1]) + (if Strip(pages[|pages| - 1].text) != [] then 1 else 0)
  }

  lemma {:induction false} ImageElementsProjections(images: seq<Bytes>)
    ensures Texts(ImageElements(images)) == []
    ensures Images(ImageElements(images)) == images
    ensures |ImageElements(images)| == |images|
    ensures forall e :: e in ImageElements(images) ==> e.Img?
    decreases |images|
  {
    if images != [] {
      var init := images[..|images| - 1];
      var es := ImageElements(images);
      assert es[..|es| - 1] == ImageElements(init);
      ImageElementsProjections(init);
    }
  }

  /** The text element a page contributes for stripped text `t`, if any. */
  lemma TextHeadProjections(t: string)
    ensures Texts(if t != [] then [Text(t)] else []) == (if t != [] then [t] else [])
    ensures Images(if t != [] then [Text(t)] else []) == []
  {
    if t != [] {
      assert [Text(t)][..0] == [];
    }
  }

  /** The text elements of one page: its stripped text, if not empty. */
  lemma PageElementsTexts(p: Page)
    ensures Texts(PageElements(p)) == (if Strip(p.text) != [] then [Strip(p.text)] else [])
    ensures Images(PageElements(p)) == p.images
  {
    var t := Strip(p.text);
    var head := (if t != [] then [Text(t)] else []);
    TextsAppend(head, ImageElements(p.images));
    ImagesAppend(head, ImageElements(p.images));
    ImageElementsProjections(p.images);
    TextHeadProjections(t);
  }

  /** Extraction loses no text and invents none: its text payloads are
      exactly the non-empty stripped page texts, in page order. */
  lemma {:induction false} ExtractTexts(pages: seq<Page>)
    ensures Texts(Extract(pages)) == PageTexts(pages)
    decreases |pages|
  {
    if pages != [] {
      var init, p := pages[..|pages| - 1], pages[|pages| - 1];
      ExtractTexts(init);
      TextsAppend(Extract(init), PageElements(p));
      PageElementsTexts(p);
    }
  }

  /** Extraction drops no image reference, duplicates included: its image
      payloads are all image references, in page order. */
  lemma {:induction false} ExtractImages(pages: seq<Page>)
    ensures Images(Extract(pages)) == PageImages(pages)
    decreases |pages|
  {
    if pages != [] {
      var init, p := pages[..|pages| - 1], pages[|pages| - 1];
      ExtractImages(init);
      ImagesAppend(Extract(init), PageElements(p));
      PageElementsTexts(p);
    }
  }

  /** One element per page with non-blank text plus one per image reference. */
  lemma {:induction false} ExtractCount(pages: seq<Page>)
    ensures |Extract(pages)| == TextPageCount(pages) + |PageImages(pages)|
    decreases |pages|
  {
    if pages != [] {
      var init, p := pages[..|pages| - 1], pages[|pages| - 1];
      ExtractCount(init);
      ImageElementsProjections(p.images);
    }
  }

  /** Every text payload of `es` is the content of one of its text elements. */
  lemma {:induction false} TextsMember(es: seq<Element>, e: Element)
    requires e in es && e.Text?
    ensures e.content in Texts(es)
    decreases |es|
  {
    var init := es[..|es| - 1];
    if e != es[|es| - 1] {
      assert e in init by {
        var k :| 0 <= k < |es| && es[k] == e;
        assert init[k] == e;
      }
      TextsMember(init, e);
    }
  }

  /** Every page text kept is non-empty and starts and ends with a
      character that is not whitespace. */
  lemma {:induction false} PageTextsStripped(pages: seq<Page>)
    ensures forall t :: t in PageTexts(pages) ==>
      t != [] && !IsSpace(t[0]) && !IsSpace(t[|t| - 1])
    decreases |pages|
  {
    if pages != [] {
      PageTextsStripped(pages[..|pages| - 1]);
      StripEnds(pages[|pages| - 1].text);
    }
  }

  /** Every text element that extraction emits is a stripped page text that
      is not empty: it neither starts nor ends with whitespace. */
  lemma ExtractTextsNonEmpty(pages: seq<Page>)
    ensures forall e :: e in Extract(pages) && e.Text? ==>
      e.content != [] && !IsSpace(e.content[0]) && !IsSpace(e.content[|e.content| - 1])
  {
    ExtractTexts(pages);
    PageTextsStripped(pages);
    forall e | e in Extract(pages) && e.Text?
      ensures e.content in PageTexts(pages)
    {
      TextsMember(Extract(pages), e);
    }
  }

  /** Extraction is page by page: the elements of `a + b` are those of `a`
      followed by those of `b`. */
  lemma ExtractAppend(a: seq<Page>, b: seq<Page>)
    ensures Extract(a + b) == Extract(a) + Extract(b)
  {
    FlattenAppend(a, b, PageElements);
  }

  /** Page `i`'s elements sit, as one block with the text first, between the
      elements of the pages before it and those of the pages after it. */
  lemma ExtractPageOrder(pages: seq<Page>, i: nat)
    requires i < |pages|
    ensures Extract(pages) == Extract(pages[..i]) + PageElements(pages[i]) + Extract(pages[i + 1..])
  {
    var a, b := pages[..i + 1], pages[i + 1..];
    assert pages == a + b;
    ExtractAppend(a, b);
    ExtractSnoc(pages, i);
  }

}
