# PDF conversion bot — verified model of its content pipeline

`bot.py` is a Telegram bot. A user uploads a PDF, and the bot remembers the
file's path in the user's session. The user then picks an action from a
keyboard:
- send the page texts to the chat;
- send the texts and the images to the chat, each image only once;
- send a Word file with everything;
- send a TXT file with the texts;
- send an Excel workbook with the tables;
- start over with a new PDF.

This project models the deterministic part under the Telegram and PDF-library
plumbing, and proves what it does.

- `Strings` (strings.dfy): the Python string operations the pipeline needs:
  - `str.strip()` over Python's `isspace` characters;
  - `"sep".join`;
  - `str(n)` and its inverse;
  - the slice `s[:n]`.
- `Elements` (elements.dfy): `extract_pdf_elements`, as nested loops over
  pages and image references. The pages are given as the parser would
  return them.
- `Chunking` (chunking.dfy): the slices `block[i:i+4096]` for `i` in
  `range(0, len(block), 4096)`.
- `Messages` (messages.dfy): the Telegram calls, as values in the order they
  are made.
- `Chat` (chat.dfy):
  - the loops of `cb_text_only`;
  - the loop of `cb_chat_all`, with its `sent` set of fingerprints;
  - the de-duplicated element stream that `cb_chat_all` specifies.
- `Tables` (tables.dfy):
  - the nested loops of `cb_tables` that fill `all_tbl`;
  - the 1-based page and table numbering;
  - the two-row filter;
  - the header/data split;
  - sheet names `S{p}_T{t}` cut to 31 characters.
- `Bot` (bot.dfy):
  - the session `c.user_data`, a class with a map field;
  - `handle_pdf` and `cb_new_pdf`, which change the session;
  - the five action handlers, each specified by the function `Respond`;
  - lemmas that state each handler's outcomes in terms of the pages.

Every loop is a method. It is proved equal to a function defined by recursion
on prefixes, so each invariant reads "the output so far is the function of
the input so far". The properties are proved about those functions.

External inputs are parameters:
- `files: map<string, Pdf>` is what the two PDF parsers (PyMuPDF and
  pdfplumber) make of each path on disk. A path missing from the map is a
  file they fail to open: the handler raises before sending anything
  (`Raised`).
- `hash: Bytes -> int` is Python's `hash` of a byte string. Python randomises
  it per process, so the model makes no assumption about it.

## Model

| member | source | states |
|---|---|---|
| Strings.Strip | bot.py:48 | `str.strip()` over Python's `isspace` characters; what it keeps and drops is proved in `StripEnds`, `StripIsSlice`, `StripUnchanged` and `StripIdempotent` |
| Strings.LeadingSpacesRun | bot.py:48 | the number of leading `isspace` characters: all of them are whitespace, and the next one is not |
| Strings.UntrailedRun | bot.py:48 | the length without trailing whitespace: everything after it is whitespace, and the character before it is not |
| Strings.StripEnds | bot.py:48-49 | `strip()` is empty exactly when every character is whitespace; otherwise the result starts and ends with a non-whitespace character |
| Strings.StripIsSlice | bot.py:48 | `strip()` keeps one contiguous slice of the text, and everything dropped on either side is whitespace |
| Strings.StripUnchanged | bot.py:48 | a text that neither starts nor ends with whitespace is left unchanged by `strip()` |
| Strings.StripIdempotent | bot.py:48 | stripping twice is stripping once |
| Strings.ConcatAppend | bot.py:97-99 | concatenating a list of strings distributes over list concatenation |
| Strings.Join | bot.py:144 | `sep.join(parts)`; its length and the place of each part are proved in `JoinLength` and `JoinPiece` |
| Strings.JoinLength | bot.py:144 | `"\n\n".join(parts)` is as long as all the parts plus one separator between each two neighbours |
| Strings.JoinPiece | bot.py:144 | in the joined string, each part appears unchanged at its offset, followed by the separator unless it is last |
| Strings.Dec | bot.py:160 | `str(n)` is at least one character long and all decimal digits |
| Strings.DecRoundTrip | bot.py:160 | `int(str(n)) == n`, so the page and table numbers can be read back from a name |
| Strings.DecLength | bot.py:160 | a number below 10^k has at most k digits |
| Strings.Truncate | bot.py:165 | `s[:n]` is a prefix of `s` of length `min(len(s), n)` |
| Elements.ExtractPdfElements | bot.py:44-54 | the nested loops build exactly `Extract(pages)`: page by page, the stripped text if it is not empty, then one image element per image reference |
| Elements.ImageElementsProjections | bot.py:51-52 | the image references of a page become image elements only, one per reference, in order |
| Elements.PageElementsTexts | bot.py:48-52 | a page contributes its stripped text (only if non-empty) and all of its images |
| Elements.Texts | bot.py:96 | `[t for typ, t in elements if typ == "text"]`; `ExtractTexts` proves that for extracted elements these are the non-empty stripped page texts |
| Elements.ExtractTexts | bot.py:47-50 | the text payloads are exactly the non-empty stripped page texts, in page order |
| Elements.ExtractImages | bot.py:47-52 | the image payloads are all image references of all pages, in order, duplicates included |
| Elements.ExtractCount | bot.py:47-52 | the element count is the number of pages with text plus the number of image references |
| Elements.ExtractTextsNonEmpty | bot.py:48-50 | every text element is non-empty and starts and ends with non-whitespace |
| Elements.ExtractAppend | bot.py:47-52 | extraction is page by page: the elements of `a + b` are those of `a`, then those of `b` |
| Elements.ExtractPageOrder | bot.py:47-52 | a page's elements, text first, sit between those of the pages before it and those after it |
| Chunking.ChunksFrom | bot.py:98-99 | every slice has 1 to 4096 characters, and every slice but the last has exactly 4096 |
| Chunking.Chunks | bot.py:98-99 | an empty block gives no slice, and a block of at most 4096 characters is its own single slice |
| Chunking.ChunksConcat | bot.py:98-99 | the slices, concatenated, are the block: nothing lost, repeated or reordered |
| Chunking.ChunksCount | bot.py:98 | there are ⌈len/4096⌉ slices |
| Chunking.ChunksTwo | bot.py:98-99 | a block of 4097 to 8192 characters is sent as its first 4096 characters, then the rest |
| Chat.SendBlock | bot.py:98-99 | the inner `range` loop sends one text message per slice of the block, in order |
| Chat.SendTextOnly | bot.py:96-99 | `cb_text_only`'s loops send the slices of each text payload, payload after payload |
| Chat.TextMessagesPayloads | bot.py:99 | the texts of the messages for some slices are those slices, and no photo is among them |
| Chat.BlockMessagesProperties | bot.py:98-99 | a block's messages are text messages of 1 to 4096 characters that spell the block |
| Chat.TextOnlyStreamProperties | bot.py:96-99 | the text-only stream is text messages of 1 to 4096 characters whose concatenation is the concatenated payloads |
| Chat.SendAllStep | bot.py:109-118 | one loop step: a text adds its slices; an unseen image adds its fingerprint and one photo; a seen image adds nothing |
| Chat.SendAll | bot.py:108-118 | the loop with the `sent` set, which starts empty, sends exactly `Render(Dedup(elements))` |
| Chat.HashSetMember | bot.py:116 | every recorded image's fingerprint is in the set |
| Chat.Dedup | bot.py:108-118 | the elements `cb_chat_all` sends: every text, and each image whose fingerprint no earlier image had; `SendAll` is proved to send exactly these, and the `Dedup…` lemmas state what is kept |
| Chat.DedupTexts | bot.py:110-112 | de-duplication never drops or reorders a text element |
| Chat.DedupFingerprints | bot.py:113-116 | the images sent cover every fingerprint of the input, and no other |
| Chat.DedupDistinct | bot.py:113-116 | the images sent have pairwise different fingerprints |
| Chat.DedupSubsequence | bot.py:109-118 | what is sent is the input with some images deleted, in the input's order |
| Chat.DedupPrefix | bot.py:109 | what is sent for a prefix of the elements is a prefix of what is sent for all of them |
| Chat.DedupKeepsFirst | bot.py:113-118 | the first image with a given fingerprint is sent, at its own place in the stream |
| Chat.RenderPayloads | bot.py:109-118 | the stream's texts concatenate to the texts, its photos are the images, and each message is a photo or a text of 1 to 4096 characters |
| Chat.ChatAllStreamProperties | bot.py:108-118 | the `cb_chat_all` stream keeps all text, sends photos with pairwise different fingerprints that cover every input fingerprint, and sends no message over 4096 characters |
| Tables.CollectTables | bot.py:154-160 | the nested loops build exactly `AllKept(pages)` |
| Tables.PageKeptSound | bot.py:157-160 | every table kept on a page is one of its tables with at least two rows, under its own 1-based number |
| Tables.KeptSound | bot.py:156-160 | every kept table is a detected table with at least two rows, with that table's first row as header, its other rows as data, and the name `S{page}_T{index}` |
| Tables.PageKeptComplete | bot.py:157-160 | every table on a page with at least two rows is kept |
| Tables.KeptComplete | bot.py:156-160 | every detected table with at least two rows is kept |
| Tables.PageKeptOrdered | bot.py:157-160 | a page's kept tables are in detection order |
| Tables.KeptOrdered | bot.py:156-160 | kept tables are in order: by page, and by table number within a page |
| Tables.LeadingDigitsOf | bot.py:160 | a digit string followed by a non-digit has exactly its own length in leading digits |
| Tables.SheetName | bot.py:160 | `f"S{p}_T{t}"`; `SheetNameInjective` and `SheetNameFits` state what it guarantees |
| Tables.SheetNameInjective | bot.py:160 | different (page, table) pairs give different untruncated names |
| Tables.SheetNameFits | bot.py:160-165 | a name with page and table numbers below 10^13 has at most 30 characters, so `[:31]` does not cut it |
| Tables.Workbook | bot.py:164-165 | one sheet per kept table, in order, with the same header and data, named by the first min(length, 31) characters of its name |
| Tables.WorkbookSheetNames | bot.py:160-165 | below 10^13 pages and tables per page, every sheet is named `S{page}_T{index}` in full |
| Tables.WorkbookNamesDistinct | bot.py:156-165 | below 10^13 pages and tables per page, no two sheets share a name |
| Messages.PayloadsAppend | bot.py:99 | the texts and photos of two message lists in a row are those of the first list, then those of the second |
| Bot.PdfPath | bot.py:85 | the upload path is nine characters longer than the file id and is never empty |
| Bot.PdfPathInjective | bot.py:85 | different file ids get different paths |
| Bot.PathOf | bot.py:93-94 | `user_data.get("pdf_path")` followed by `if not path`: a path exists exactly when the key is set to a non-empty string |
| Bot.Upload | bot.py:83-87 | a non-PDF message leaves the session unchanged; a PDF sets the path to `/tmp/{id}.pdf` and leaves every other key alone |
| Bot.LastUploadWins | bot.py:87 | after two uploads, the actions read the second one's file |
| Bot.HandlePdf | bot.py:81-88 | the session becomes `Upload(old session, doc)`; the reply is "Выбери действие:" for a PDF and "Это не PDF." otherwise |
| Bot.CbNewPdf | bot.py:170-173 | the session is emptied, so no path is found afterwards, and "Отправь новый PDF-файл." is sent |
| Bot.CbTextOnly | bot.py:91-100 | the handler sends `Respond(TextOnly, …)` |
| Bot.CbChatAll | bot.py:103-118 | the handler sends `Respond(ChatAll, …)` |
| Bot.CbWordAll | bot.py:121-132 | the handler sends `Respond(WordAll, …)` |
| Bot.CbTxt | bot.py:135-146 | the handler sends `Respond(TxtFile, …)` |
| Bot.CbTables | bot.py:149-167 | the handler sends `Respond(TablesFile, …)` |
| Bot.Respond | bot.py:91-167 | what each action sends, given the session's path: the not-found reply, the parser's exception, or the action's messages; each handler method is proved to return it |
| Bot.NotFoundExactlyWithoutPath | bot.py:93-95 | every action answers "Файл не найден." exactly when the session holds no path; otherwise that message is never sent |
| Bot.NoPathNoWork | bot.py:93-95 | with no path the only reply is "Файл не найден."; a file the parser cannot open means nothing is sent |
| Bot.TextOnlyReply | bot.py:91-99 | the text-only action sends the stripped page texts, in page order, as messages of 1 to 4096 characters |
| Bot.ChatAllReply | bot.py:103-118 | the text-and-images action sends all page texts in pieces of at most 4096 characters, plus one photo per distinct fingerprint among all image references |
| Bot.WordAllReply | bot.py:121-132 | "Контент не найден." exactly when no page has text or images; otherwise one `converted.docx` holding every text and every image in order |
| Bot.TxtReply | bot.py:135-146 | "В PDF нет текста." exactly when no page has text; otherwise one `converted.txt` that is the page texts joined by blank lines, of length sum + 2·(n−1) |
| Bot.TablesReply | bot.py:149-167 | "Таблиц не найдено." exactly when no detected table has two rows; otherwise one `tables.xlsx` with a sheet per kept table |
| Bot.TwoPageElements | bot.py:44-54 | a page with a paragraph and an image, then a blank page, give that text then that image |
| Bot.TextThenImage | bot.py:108-118 | a 4097–8192-character text followed by an image is sent as 4096 characters, the rest, then the photo |
| Bot.TextThenImageTexts | bot.py:140 | the text payloads of a text followed by an image are that text alone |
| Bot.SecondPageTable | bot.py:154-165 | one three-row table on page 2 becomes the single sheet `S2_T1`, with a header and two data rows |
| Bot.TwoPageExample | bot.py:91-167 | for a 5000-character paragraph with an image on page 1, and a page 2 whose text is all whitespace, with no image and one three-row table: the chat stream is 4096 + 904 characters then the photo; the TXT file is the paragraph unchanged; the workbook is the one sheet `S2_T1` with two data rows |

## Left out

- PDF parsing (`fitz.open`, `get_text`, `get_images`, `extract_image`, `pdfplumber.open`, `extract_tables`) is a foreign library. Its output is the `files` parameter: each page's raw text, the bytes of each image reference, and each page's tables as rows of cells.
- A parser that fails to open the file is the single outcome `Raised`. Any other exception a parser may raise part-way is not modelled.
- Python's `hash` of bytes is the parameter `hash`. Two different images with the same hash count as the same image, as they do in the code.
- The writers (python-docx `convert_to_word`, pandas `DataFrame` and `to_excel`, the TXT file write) are libraries. The model records what is handed to them (`Docx`, `Txt`, `Xlsx`), not the bytes they produce.
- Writer failures are not modelled:
  - `pd.DataFrame(tbl[1:], columns=tbl[0])` raises when the data rows' width differs from the header's length, shorter as well as longer;
  - `add_picture` raises on an image format python-docx does not read.
- Bot.WordAllReply: states the elements handed to the Word writer, not the document's paragraphs and pictures.
- Telegram I/O is modelled only as the list of calls made, in order:
  - not modelled: the network, the `callback_query.answer()` made first by every action, the chat and user ids, the `/tmp/{user id}…` output paths, and the `asyncio.sleep(0.05)` between text messages;
  - not modelled: the download of the uploaded file to `/tmp` and the temporary files written and read back.
- Message length is counted in Python characters (code points), as the code does. How Telegram itself counts the 4096-character limit is not modelled.
- Not modelled because none of it is pipeline logic:
  - `start`, the keyboard (`main_kb`) and handler registration;
  - configuration and environment checks, and logging;
  - the Flask app, the webhook route, `/ping`, the event-loop bridge and `setWebhook`.
- Tables.WorkbookSheetNames: proved only for page and table numbers below 10^13, where no name is longer than 31 characters.
- Tables.WorkbookNamesDistinct: proved only for page and table numbers below 10^13. Above that, names cut at 31 characters could collide. No PDF reaches that size.
- What `bot.py` does, and the model with it:
  - de-duplication covers every image of one `cb_chat_all` call, wherever it occurs in the element list;
  - every action parses the file again, and nothing is cached between actions;
  - there is no page-batch chunking;
  - there is no fallback that re-encodes an image python-docx cannot read;
  - there is no handling of sheet-name collisions.
