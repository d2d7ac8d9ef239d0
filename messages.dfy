/** What the bot sends back to the chat. The Telegram calls are modelled as
    values in the order they are made; the network itself is not modelled. */
module Messages {
  import opened Elements
  import opened Tables

  /** A file the bot sends. The library writers that turn it into bytes
      (python-docx, pandas/openpyxl, the text file) are not modelled: the
      artifact records what is handed to them. */
  datatype Artifact =
    | Docx(elements: seq<Element>)
    | Txt(body: string)
    | Xlsx(sheets: seq<Sheet>)

  datatype Message =
    | SendMessage(text: string)
    | SendPhoto(photo: Bytes)
    | SendDocument(filename: string, file: Artifact)
    | EditMessageText(text: string)
    | ReplyText(text: string)

  /** The texts of the plain text messages among `msgs`, in order. */
  function MessageTexts(msgs: seq<Message>): seq<string> {
    if msgs == [] then []
    else
      var m := msgs[|msgs| - 1];
      MessageTexts(msgs[..|msgs| - 1]) + (if m.SendMessage? then [m.text] else [])
  }

  /** The images of the photo messages among `msgs`, in order. */
  function Photos(msgs: seq<Message>): seq<Bytes> {
    if msgs == [] then []
    else
      var m := msgs[|msgs| - 1];
      Photos(msgs[..|msgs| - 1]) + (if m.SendPhoto? then [m.photo] else [])
  }

  lemma {:induction false} PayloadsAppend(a: seq<Message>, b: seq<Message>)
    ensures MessageTexts(a + b) == MessageTexts(a) + MessageTexts(b)
    ensures Photos(a + b) == Photos(a) + Photos(b)
    decreases |b|
  {
    if b == [] {
      assert a + b == a;
    } else {
      assert (a + b)[..|a + b| - 1] == a + b[..|b| - 1];
      PayloadsAppend(a, b[..|b| - 1]);
    }
  }

}
