/** The chat with the driver: a message list and the text being typed. */
module ChatScreen {
  import opened Text

  datatype Sender = System | DriverSender | User

  datatype Message = Message(id: int, sender: Sender, text: string)

  const InitialMessages: seq<Message> := [
    Message(1, System, "기사님과 대화가 시작되었습니다."),
    Message(2, DriverSender, "안녕하세요, 곧 도착합니다!")
  ]

  class Chat {
    var messages: seq<Message>
    var input: string

    constructor ()
      ensures messages == InitialMessages && input == ""
    {
      messages := InitialMessages;
      input := "";
    }

    method Type(text: string)
      modifies this
      ensures input == text && messages == old(messages)
    {
      input := text;
    }

    /** `sendMessage`: blank input is ignored; otherwise the text, untrimmed, goes last and the box clears. */
    method Send(now: int)
      modifies this
      ensures IsBlank(old(input)) ==> messages == old(messages) && input == old(input)
      ensures !IsBlank(old(input)) ==>
        messages == old(messages) + [Message(now, User, old(input))] && input == ""
    {
      TrimEmptyIffBlank(input);
      if |Trim(input)| == 0 {
        return;
      }
      messages := messages + [Message(now, User, input)];
      input := "";
    }
  }

  /** The conversation opens with the system notice, then the driver's greeting. */
  lemma InitialConversation()
    ensures |InitialMessages| == 2
    ensures InitialMessages[0].sender == System && InitialMessages[1].sender == DriverSender
  {
  }

  /** Typing then sending keeps every earlier message, in order, and adds exactly one user message. */
  method TypeAndSend(chat: Chat, text: string, now: int)
    modifies chat
    ensures !IsBlank(text) ==>
      |chat.messages| == |old(chat.messages)| + 1
      && chat.messages[..|old(chat.messages)|] == old(chat.messages)
      && chat.messages[|chat.messages| - 1] == Message(now, User, text)
    ensures IsBlank(text) ==> chat.messages == old(chat.messages) && chat.input == text
  {
    chat.Type(text);
    chat.Send(now);
  }
}
