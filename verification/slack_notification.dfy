/** `SlackNotification.deliver_message`: a single call of the chat client,
    chosen by whether a file goes with the message.  With a file the message
    is an upload whose comment is the body and whose title is the subject;
    without one it is a plain post of the body, and the subject is not sent. */
module SlackNotification {
  import opened Wrappers

  /** The value of a keyword argument: text or the content of a file. */
  datatype Arg = Str(text: string) | Blob(content: Bytes)

  /** One call of the chat client, with its keyword arguments. */
  datatype ApiCall =
    | FilesUpload(kwargs: map<string, Arg>)
    | ChatPostMessage(kwargs: map<string, Arg>)

  function DeliverMessage(channel: string, subject: string, body: string, file: Option<Bytes>): (call: ApiCall)
    ensures call.FilesUpload? <==> file.Some?
  {
    match file
    case Some(content) =>
      FilesUpload(map["channels" := Str(channel), "file" := Blob(content),
                      "initial_comment" := Str(body), "title" := Str(subject)])
    case None =>
      ChatPostMessage(map["channel" := Str(channel), "text" := Str(body)])
  }

  /** What the chat service receives from a call: the channel, the text shown
      and the file, when the call is well formed. */
  function Received(call: ApiCall): Option<(string, string, Option<Bytes>)> {
    match call
    case FilesUpload(kw) =>
      if "channels" in kw && kw["channels"].Str? && "initial_comment" in kw && kw["initial_comment"].Str?
         && "file" in kw && kw["file"].Blob?
      then Some((kw["channels"].text, kw["initial_comment"].text, Some(kw["file"].content)))
      else None
    case ChatPostMessage(kw) =>
      if "channel" in kw && kw["channel"].Str? && "text" in kw && kw["text"].Str?
      then Some((kw["channel"].text, kw["text"].text, None))
      else None
  }

  /** The channel, the body and the file all arrive unchanged, whichever call is made. */
  lemma ReceivedUnchanged(channel: string, subject: string, body: string, file: Option<Bytes>)
    ensures Received(DeliverMessage(channel, subject, body, file)) == Some((channel, body, file))
  {
  }

  /** The keyword arguments of each call are exactly these names. */
  lemma CallArguments(channel: string, subject: string, body: string, file: Option<Bytes>)
    ensures var call := DeliverMessage(channel, subject, body, file);
      && (file.Some? ==> call.kwargs.Keys == {"channels", "file", "initial_comment", "title"})
      && (file.None? ==> call.kwargs.Keys == {"channel", "text"})
  {
  }

  /** The subject reaches the chat service only as the title of an upload:
      without a file, two messages that differ only in subject make the same call. */
  lemma SubjectOnlyAsTitle(channel: string, subject: string, other: string, body: string, file: Option<Bytes>)
    ensures file.Some? ==> DeliverMessage(channel, subject, body, file).kwargs["title"] == Str(subject)
    ensures file.None? ==> DeliverMessage(channel, subject, body, file) == DeliverMessage(channel, other, body, file)
  {
  }

  /** An upload of an image: the channel, the image itself, the body as the
      comment and the subject as the title. */
  lemma UploadWithFile(image: Bytes)
    ensures DeliverMessage("#test_channel", "Your slack subject", "You have a new message", Some(image))
      == FilesUpload(map["channels" := Str("#test_channel"), "file" := Blob(image),
                         "initial_comment" := Str("You have a new message"),
                         "title" := Str("Your slack subject")])
  {
  }

  /** A message without a file: the channel and the body, nothing else. */
  lemma PostWithoutFile()
    ensures DeliverMessage("#test_channel_without", "Your slack subject", "You have a new message without file", None)
      == ChatPostMessage(map["channel" := Str("#test_channel_without"),
                             "text" := Str("You have a new message without file")])
  {
  }
}
