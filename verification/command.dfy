/** The `!groupid` responder: a chat message whose text is `!groupid`, up to
    surrounding white space and letter case, is answered with the
    conversation's own identifier. */
module Command {
  import opened Wrappers
  import opened Text

  const Token: string := "!groupid"

  /** The trigger test: trimmed, lower-cased text equals the token. */
  predicate IsGroupIdCommand(text: string) {
    Lower(Trim(text)) == Token
  }

  /** `text` is `word` with white space before and after it. */
  ghost predicate Framed(text: string, pre: string, word: string, post: string) {
    AllSpace(pre) && AllSpace(post) && text == pre + word + post
  }

  /** The trigger fires only for the eight characters `!groupid`, in any
      mix of letter case, with white space around them. */
  lemma CommandIsFramedToken(text: string)
    requires IsGroupIdCommand(text)
    ensures exists pre, word, post :: Framed(text, pre, word, post) && |word| == 8 && Lower(word) == Token
  {
    var lo := TrimWindow(text);
    var w := Trim(text);
    assert |w| == |Lower(w)| == |Token|;
    assert Framed(text, text[..lo], w, text[lo + |w|..]);
  }

  /** ... and it fires for every such text. */
  lemma FramedTokenIsCommand(pre: string, word: string, post: string)
    requires AllSpace(pre) && AllSpace(post)
    requires |word| == 8 && Lower(word) == Token
    ensures IsGroupIdCommand(pre + word + post)
  {
    assert Lower(word)[0] == '!' && Lower(word)[7] == 'd';
    assert !IsSpace(word[0]) && !IsSpace(word[7]);
    TrimFramed(pre, word, post);
  }

  /** A message's content: its plain text and its extended-message text, as
      the messaging session delivers them (empty or missing is None or ""). */
  datatype Content = Content(conversation: Option<string>, extendedText: Option<string>)

  datatype Message = Message(remoteJid: string, content: Option<Content>)

  /** One `messages.upsert` event: its type and its messages. */
  datatype Upsert = Upsert(kind: string, messages: seq<Message>)

  datatype Reply = Reply(to: string, text: string)

  /** The plain text if non-empty, else the extended text if non-empty,
      else the empty string. */
  function TextOf(c: Content): (text: string)
    ensures text == [] || (c.conversation.Some? && text == c.conversation.value)
                       || (c.extendedText.Some? && text == c.extendedText.value)
    ensures c.conversation.Some? && c.conversation.value != [] ==> text == c.conversation.value
    ensures !(c.conversation.Some? && c.conversation.value != []) && c.extendedText.Some? ==>
              text == c.extendedText.value
  {
    if c.conversation.Some? && c.conversation.value != [] then c.conversation.value
    else if c.extendedText.Some? && c.extendedText.value != [] then c.extendedText.value
    else []
  }

  function ReplyText(jid: string): string {
    "\U{1F465} This group JID is:\n*" + jid + "*"
  }

  /** The handler looks only at the first message of a `notify` event that
      has content, and answers to its sender when the text is the command. */
  function OnUpsert(u: Upsert): (r: Option<Reply>)
    ensures r.Some? <==>
              u.kind == "notify" && |u.messages| > 0 && u.messages[0].content.Some?
              && IsGroupIdCommand(TextOf(u.messages[0].content.value))
    ensures r.Some? ==> r.value.to == u.messages[0].remoteJid && IsSuffix(u.messages[0].remoteJid + "*", r.value.text)
  {
    if u.kind != "notify" || |u.messages| == 0 || u.messages[0].content.None? then None
    else
      var m := u.messages[0];
      if IsGroupIdCommand(TextOf(m.content.value)) then
        var text := ReplyText(m.remoteJid);
        assert text[|text| - |m.remoteJid + "*"|..] == m.remoteJid + "*";
        Some(Reply(m.remoteJid, text))
      else None
  }
}
