/** The bot's handlers: the upload handler records the PDF's path in the
    user's session, each action button looks that path up and answers from
    the parsed PDF, and the reset button empties the session. Telegram calls
    are the messages returned; the parsers' view of every file on disk is
    the parameter `files`, and Python's `hash` of a byte string is the
    parameter `hash`. */
module Bot {
  import opened Options
  import opened Strings
  import opened Elements
  import opened Chunking
  import opened Tables
  import opened Messages
  import opened Chat

  const PdfMime: string := "application/pdf"
  const PdfPathKey: string := "pdf_path"

  const NotPdf: string := "Это не PDF."
  const ChooseAction: string := "Выбери действие:"
  const FileNotFound: string := "Файл не найден."
  const NoContent: string := "Контент не найден."
  const NoText: string := "В PDF нет текста."
  const NoTables: string := "Таблиц не найдено."
  const SendNewPdf: string := "Отправь новый PDF-файл."

  const DocxName: string := "converted.docx"
  const TxtName: string := "converted.txt"
  const XlsxName: string := "tables.xlsx"

  /** The separator between page texts in the TXT file. */
  const ParagraphBreak: string := "\n\n"

  /** The document attached to an incoming message. */
  datatype Document = Document(mimeType: string, fileUniqueId: string)

  /** What the two parsers make of one file: the pages as the element
      extractor sees them, and the tables the table detector finds on each
      page. */
  datatype Pdf = Pdf(pages: seq<Page>, tables: seq<seq<Table>>)

  /** How a handler ends: having sent `msgs`, or by an exception out of a
      parser (the session names a file the parsers cannot open), before it
      sent anything. */
  datatype Outcome = Completed(msgs: seq<Message>) | Raised

  /** The buttons of the action keyboard. */
  datatype Action = WordAll | TxtFile | TablesFile | TextOnly | ChatAll

  /** `f"/tmp/{file_unique_id}.pdf"`. */
  function PdfPath(id: string): (p: string)
    ensures |p| == |id| + 9 && p != ""
  {
    "/tmp/" + id + ".pdf"
  }

  /** Different uploads are stored under different paths. */
  lemma PdfPathInjective(a: string, b: string)
    requires PdfPath(a) == PdfPath(b)
    ensures a == b
  {
    assert a == PdfPath(a)[5..5 + |a|];
    assert b == PdfPath(b)[5..5 + |b|];
  }

  /** `not doc or doc.mime_type != "application/pdf"`, negated. */
  predicate IsPdf(doc: Option<Document>) {
    doc.Some? && doc.value.mimeType == PdfMime
  }

  /** `c.user_data`: the per-user key-value session. */
  class UserData {
    var entries: map<string, string>

    constructor()
      ensures entries == map[]
    {
      entries := map[];
    }
  }

  /** `path = c.user_data.get("pdf_path")` followed by `if not path`: a path
      is there only when the key is set to a string that is not empty. */
  function PathOf(entries: map<string, string>): (r: Option<string>)
    ensures r.Some? <==> PdfPathKey in entries && entries[PdfPathKey] != ""
    ensures r.Some? ==> r.value == entries[PdfPathKey]
  {
    if PdfPathKey in entries && entries[PdfPathKey] != "" then Some(entries[PdfPathKey]) else None
  }

  /** The session after `handle_pdf`: a PDF upload sets the path to its own
      file, whatever was there before, and touches no other key; any other
      message leaves the session as it was. */
  function Upload(entries: map<string, string>, doc: Option<Document>): (r: map<string, string>)
    ensures !IsPdf(doc) ==> r == entries
    ensures IsPdf(doc) ==> PathOf(r) == Some(PdfPath(doc.value.fileUniqueId))
    ensures forall k :: k != PdfPathKey ==> (k in r <==> k in entries)
    ensures forall k :: k != PdfPathKey && k in entries ==> r[k] == entries[k]
  {
    if IsPdf(doc) then entries[PdfPathKey := PdfPath(doc.value.fileUniqueId)] else entries
  }

  /** Of two uploads the later one decides which file the actions read. */
  lemma LastUploadWins(entries: map<string, string>, first: Option<Document>, second: Option<Document>)
    requires IsPdf(second)
    ensures PathOf(Upload(Upload(entries, first), second)) == Some(PdfPath(second.value.fileUniqueId))
  {
  }

  /** `handle_pdf`. */
  method HandlePdf(ud: UserData, doc: Option<Document>) returns (reply: seq<Message>)
    modifies ud
    ensures ud.entries == Upload(old(ud.entries), doc)
    ensures reply == if IsPdf(doc) then [ReplyText(ChooseAction)] else [ReplyText(NotPdf)]
  {
    if !IsPdf(doc) {
      return [ReplyText(NotPdf)];
    }
    var path := "/tmp/" + doc.value.fileUniqueId + ".pdf";
    ud.entries := ud.entries[PdfPathKey := path];
    reply := [ReplyText(ChooseAction)];
  }

  /** `cb_new_pdf`: the session is emptied, so every action afterwards
      answers that there is no file, until the next upload. */
  method CbNewPdf(ud: UserData) returns (msgs: seq<Message>)
    modifies ud
    ensures ud.entries == map[]
    ensures PathOf(ud.entries) == None
    ensures msgs == [SendMessage(SendNewPdf)]
  {
    ud.entries := map[];
    msgs := [SendMessage(SendNewPdf)];
  }

  /** The reply when the session holds no path. */
  function NotFoundReply(): Outcome {
    Completed([EditMessageText(FileNotFound)])
  }

  /** What `cb_text_only` sends for a file it has parsed. */
  function TextOnlyMessages(pdf: Pdf): seq<Message> {
    TextOnlyStream(Texts(Extract(pdf.pages)))
  }

  /** What `cb_chat_all` sends for a file it has parsed. */
  function ChatAllMessages(pdf: Pdf, hash: Bytes -> int): seq<Message> {
    Render(Dedup(Extract(pdf.pages), hash))
  }

  /** What `cb_word_all` sends for a file it has parsed. */
  function WordAllMessages(pdf: Pdf): seq<Message> {
    var es := Extract(pdf.pages);
    if es == [] then [EditMessageText(NoContent)] else [SendDocument(DocxName, Docx(es))]
  }

  /** What `cb_txt` sends for a file it has parsed. */
  function TxtMessages(pdf: Pdf): seq<Message> {
    var parts := Texts(Extract(pdf.pages));
    if parts == [] then [EditMessageText(NoText)]
    else [SendDocument(TxtName, Txt(Join(parts, ParagraphBreak)))]
  }

  /** What `cb_tables` sends for a file it has parsed. */
  function TablesMessages(pdf: Pdf): seq<Message> {
    var kept := AllKept(pdf.tables);
    if kept == [] then [EditMessageText(NoTables)]
    else [SendDocument(XlsxName, Xlsx(Workbook(kept)))]
  }

  /** What an action sends, given the path the session holds. */
  function Respond(a: Action, path: Option<string>, files: map<string, Pdf>, hash: Bytes -> int): Outcome {
    if path.None? then NotFoundReply()
    // the parser cannot open the file: the exception ends the handler
    else if path.value !in files then Raised
    else
      var pdf := files[path.value];
      match a
      case TextOnly => Completed(TextOnlyMessages(pdf))
      case ChatAll => Completed(ChatAllMessages(pdf, hash))
      case WordAll => Completed(WordAllMessages(pdf))
      case TxtFile => Completed(TxtMessages(pdf))
      case TablesFile => Completed(TablesMessages(pdf))
  }

  /** `cb_text_only`. */
  method CbTextOnly(ud: UserData, files: map<string, Pdf>) returns (out: Outcome)
    ensures forall hash :: out == Respond(TextOnly, PathOf(ud.entries), files, hash)
  {
    var path := PathOf(ud.entries);
    if path.None? {
      return NotFoundReply();
    }
    if path.value !in files {
      return Raised;
    }
    var pdf := files[path.value];
    var elements := ExtractPdfElements(pdf.pages);
    var msgs := SendTextOnly(elements);
    out := Completed(msgs);
  }

  /** `cb_chat_all`. */
  method CbChatAll(ud: UserData, files: map<string, Pdf>, hash: Bytes -> int) returns (out: Outcome)
    ensures out == Respond(ChatAll, PathOf(ud.entries), files, hash)
  {
    var path := PathOf(ud.entries);
    if path.None? {
      return NotFoundReply();
    }
    if path.value !in files {
      return Raised;
    }
    var pdf := files[path.value];
    var elements := ExtractPdfElements(pdf.pages);
    var msgs := SendAll(elements, hash);
    assert msgs == ChatAllMessages(pdf, hash);
    out := Completed(msgs);
  }

  /** `cb_word_all`. */
  method CbWordAll(ud: UserData, files: map<string, Pdf>) returns (out: Outcome)
    ensures forall hash :: out == Respond(WordAll, PathOf(ud.entries), files, hash)
  {
    var path := PathOf(ud.entries);
    if path.None? {
      return NotFoundReply();
    }
    if path.value !in files {
      return Raised;
    }
    var pdf := files[path.value];
    var elements := ExtractPdfElements(pdf.pages);
    if elements == [] {
      return Completed([EditMessageText(NoContent)]);
    }
    out := Completed([SendDocument(DocxName, Docx(elements))]);
  }

  /** `cb_txt`. */
  method CbTxt(ud: UserData, files: map<string, Pdf>) returns (out: Outcome)
    ensures forall hash :: out == Respond(TxtFile, PathOf(ud.entries), files, hash)
  {
    var path := PathOf(ud.entries);
    if path.None? {
      return NotFoundReply();
    }
    if path.value !in files {
      return Raised;
    }
    var pdf := files[path.value];
    var elements := ExtractPdfElements(pdf.pages);
    var parts := Texts(elements);
    if parts == [] {
      return Completed([EditMessageText(NoText)]);
    }
    out := Completed([SendDocument(TxtName, Txt(Join(parts, ParagraphBreak)))]);
  }

  /** `cb_tables`. */
  method CbTables(ud: UserData, files: map<string, Pdf>) returns (out: Outcome)
    ensures forall hash :: out == Respond(TablesFile, PathOf(ud.entries), files, hash)
  {
    var path := PathOf(ud.entries);
    if path.None? {
      return NotFoundReply();
    }
    if path.value !in files {
      return Raised;
    }
    var pdf := files[path.value];
    var all := CollectTables(pdf.tables);
    if all == [] {
      return Completed([EditMessageText(NoTables)]);
    }
    out := Completed([SendDocument(XlsxName, Xlsx(Workbook(all)))]);
  }

  /** An action answers "Файл не найден." exactly when the session holds no
      path; otherwise that message is never among what it sends. */
  lemma NotFoundExactlyWithoutPath(a: Action, path: Option<string>, files: map<string, Pdf>, hash: Bytes -> int)
    ensures var r := Respond(a, path, files, hash);
      (r.Completed? && EditMessageText(FileNotFound) in r.msgs) <==> path.None?
  {
    if path.Some? && path.value in files {
      var es := Extract(files[path.value].pages);
      match a
      case TextOnly => TextOnlyStreamProperties(Texts(es));
      case ChatAll => ChatAllStreamProperties(es, hash);
      case WordAll =>
      case TxtFile =>
      case TablesFile =>
    }
  }

  /** Whatever the action, a session without a path gets the one "not
      found" reply and nothing else, and a session whose file cannot be
      parsed gets nothing at all. */
  lemma NoPathNoWork(a: Action, path: Option<string>, files: map<string, Pdf>, hash: Bytes -> int)
    ensures path.None? ==> Respond(a, path, files, hash) == Completed([EditMessageText(FileNotFound)])
    ensures path.Some? && path.value !in files ==> Respond(a, path, files, hash).Raised?
    ensures path.Some? && path.value in files ==> Respond(a, path, files, hash).Completed?
  {
  }

  /** The text-only action sends the non-empty stripped page texts, in page
      order, cut into messages of 1 to 4096 characters: put together they
      are those texts put together. */
  lemma TextOnlyReply(pdf: Pdf)
    ensures Concat(MessageTexts(TextOnlyMessages(pdf))) == Concat(PageTexts(pdf.pages))
    ensures forall m :: m in TextOnlyMessages(pdf) ==> m.SendMessage? && 1 <= |m.text| <= MaxMessageLength
  {
    ExtractTexts(pdf.pages);
    TextOnlyStreamProperties(PageTexts(pdf.pages));
  }

  /** The text-and-images action sends every page text, cut into messages of
      1 to 4096 characters, and one photo per distinct fingerprint among all
      image references of the file. */
  lemma ChatAllReply(pdf: Pdf, hash: Bytes -> int)
    ensures var msgs := ChatAllMessages(pdf, hash);
      && Concat(MessageTexts(msgs)) == Concat(PageTexts(pdf.pages))
      && DistinctFingerprints(Photos(msgs), hash)
      && HashSet(Photos(msgs), hash) == HashSet(PageImages(pdf.pages), hash)
      && forall m :: m in msgs ==> (m.SendMessage? && 1 <= |m.text| <= MaxMessageLength) || m.SendPhoto?
  {
    var es := Extract(pdf.pages);
    ChatAllStreamProperties(es, hash);
    ExtractTexts(pdf.pages);
    ExtractImages(pdf.pages);
  }

  /** The Word action answers "Контент не найден." exactly when no page has
      text and no page has an image; otherwise it sends one document holding
      every element. */
  lemma WordAllReply(pdf: Pdf)
    ensures var msgs := WordAllMessages(pdf);
      (msgs == [EditMessageText(NoContent)] <==> TextPageCount(pdf.pages) == 0 && PageImages(pdf.pages) == [])
      && (msgs != [EditMessageText(NoContent)] ==>
            msgs == [SendDocument(DocxName, Docx(Extract(pdf.pages)))]
            && Texts(msgs[0].file.elements) == PageTexts(pdf.pages)
            && Images(msgs[0].file.elements) == PageImages(pdf.pages))
  {
    ExtractCount(pdf.pages);
    ExtractTexts(pdf.pages);
    ExtractImages(pdf.pages);
  }

  /** The TXT action answers "В PDF нет текста." exactly when no page has
      text; otherwise it sends one file that is the page texts separated by
      blank lines: every text at its place, two characters between
      neighbours. */
  lemma TxtReply(pdf: Pdf)
    ensures var msgs, parts := TxtMessages(pdf), PageTexts(pdf.pages);
      (msgs == [EditMessageText(NoText)] <==> parts == [])
      && (parts != [] ==>
            msgs == [SendDocument(TxtName, Txt(Join(parts, ParagraphBreak)))]
            && |Join(parts, ParagraphBreak)| == TotalLength(parts) + 2 * (|parts| - 1))
  {
    ExtractTexts(pdf.pages);
    var parts := PageTexts(pdf.pages);
    if parts != [] {
      JoinLength(parts, ParagraphBreak);
    }
  }

  /** Some detected table has at least two rows. */
  predicate SomeTableKept(tables: seq<seq<Table>>) {
    exists i, j :: 0 <= i < |tables| && 0 <= j < |tables[i]| && |tables[i][j]| >= 2
  }

  /** The tables action answers "Таблиц не найдено." exactly when no
      detected table has two rows; otherwise it sends one workbook with a
      sheet per kept table, in the order found. */
  lemma TablesReply(pdf: Pdf)
    ensures (TablesMessages(pdf) == [EditMessageText(NoTables)]) <==> !SomeTableKept(pdf.tables)
    ensures SomeTableKept(pdf.tables) ==>
      TablesMessages(pdf) == [SendDocument(XlsxName, Xlsx(Workbook(AllKept(pdf.tables))))]
  {
    var kept := AllKept(pdf.tables);
    if SomeTableKept(pdf.tables) {
      var i, j :| 0 <= i < |pdf.tables| && 0 <= j < |pdf.tables[i]| && |pdf.tables[i][j]| >= 2;
      KeptComplete(pdf.tables, i + 1, j + 1);
    }
    if kept != [] {
      KeptSound(pdf.tables);
      var k := kept[0];
      assert k in kept;
      assert |pdf.tables[k.page - 1][k.index - 1]| >= 2;
    }
  }

  /** The elements of a file whose first page holds a text and an image and
      whose second page holds neither. */
  lemma TwoPageElements(para: string, blank: string, img: Bytes)
    requires para != [] && !IsSpace(para[0]) && !IsSpace(para[|para| - 1])
    requires forall k :: 0 <= k < |blank| ==> IsSpace(blank[k])
    ensures Extract([Page(para, [img]), Page(blank, [])]) == [Text(para), Img(img)]
  {
    var p0, p1 := Page(para, [img]), Page(blank, []);
    StripUnchanged(para);
    StripEnds(blank);
    assert [img][..0] == [];
    assert ImageElements([img]) == [Img(img)];
    assert PageElements(p0) == [Text(para), Img(img)];
    assert PageElements(p1) == [];
    ExtractPush([], p0);
    ExtractPush([p0], p1);
    assert [] + [p0] == [p0] && [p0] + [p1] == [p0, p1];
  }

  /** The chat stream of one text followed by one image. */
  lemma TextThenImage(para: string, img: Bytes, hash: Bytes -> int)
    requires MaxMessageLength < |para| <= 2 * MaxMessageLength
    ensures Render(Dedup([Text(para), Img(img)], hash))
      == [SendMessage(para[..MaxMessageLength]), SendMessage(para[MaxMessageLength..]), SendPhoto(img)]
  {
    var es := [Text(para), Img(img)];
    ChunksTwo(para);
    var c := Chunks(para);
    assert c[..1] == [para[..MaxMessageLength]];
    assert c[..1][..0] == [];
    assert TextMessages(c[..1]) == [SendMessage(para[..MaxMessageLength])];
    assert BlockMessages(para) == [SendMessage(para[..MaxMessageLength]), SendMessage(para[MaxMessageLength..])];
    assert es[..1] == [Text(para)];
    assert es[..1][..0] == [];
    assert Images(es[..1]) == [];
    assert Fingerprints(es[..1], hash) == {};
    assert Dedup(es[..1], hash) == [Text(para)];
    assert Dedup(es, hash) == es;
    assert Render(es[..1]) == BlockMessages(para);
  }

  /** The text payloads of one text followed by one image. */
  lemma TextThenImageTexts(para: string, img: Bytes)
    ensures Texts([Text(para), Img(img)]) == [para]
  {
    var es := [Text(para), Img(img)];
    assert es[..1] == [Text(para)];
    assert es[..1][..0] == [];
    assert Texts(es[..1]) == [para];
  }

  /** The tables kept from a file whose first page has no table and whose
      second page has one table of three rows. */
  lemma SecondPageTable(grid: Table)
    requires |grid| == 3
    ensures Workbook(AllKept([[], [grid]])) == [Sheet("S2_T1", grid[0], grid[1..])]
  {
    var tables: seq<seq<Table>> := [[], [grid]];
    assert tables[..1] == [[]];
    assert tables[..1][..0] == [];
    assert [grid][..0] == [];
    assert PageKept(2, [grid]) == [Keep(2, 1, grid)];
    assert SheetName(2, 1) == "S2_T1";
    assert AllKept(tables[..1]) == [];
    assert AllKept(tables) == [Keep(2, 1, grid)];
  }

  /** A two-page file: page 1 holds one 5000-character paragraph and one
      image, page 2 no text, no image and one table of three rows. The chat
      stream is the paragraph's first 4096 characters, its last 904, then the
      photo; the TXT file is the paragraph unchanged; the workbook has the
      one sheet `S2_T1` with a header and two data rows. */
  lemma TwoPageExample(para: string, blank: string, img: Bytes, grid: Table, hash: Bytes -> int)
    requires |para| == 5000 && !IsSpace(para[0]) && !IsSpace(para[|para| - 1])
    requires forall k :: 0 <= k < |blank| ==> IsSpace(blank[k])
    requires |grid| == 3
    ensures var pdf := Pdf([Page(para, [img]), Page(blank, [])], [[], [grid]]);
      && ChatAllMessages(pdf, hash)
           == [SendMessage(para[..4096]), SendMessage(para[4096..]), SendPhoto(img)]
      && |para[4096..]| == 904
      && TxtMessages(pdf) == [SendDocument(TxtName, Txt(para))]
      && TablesMessages(pdf) == [SendDocument(XlsxName, Xlsx([Sheet("S2_T1", grid[0], grid[1..])]))]
      && |grid[1..]| == 2
  {
    TwoPageElements(para, blank, img);
    TextThenImage(para, img, hash);
    TextThenImageTexts(para, img);
    SecondPageTable(grid);
  }

}
