/** The turn orchestration of the bot: read the user's history, ask the
    knowledge manager for a reply, and store the turn only once a reply
    exists. The knowledge manager's `chat` is the parameter `chat`; it may
    fail, and a failure reaches the bot's outer handler unchanged. */
module TelegramBot {
  import opened Common
  import opened Database

  class AIResponder {
    const chatManager: ChatManager

    constructor (chatManager: ChatManager)
      ensures this.chatManager == chatManager
    {
      this.chatManager := chatManager;
    }

    /** Passes chat the user's history as it was before this turn, stores
        (text, reply) in the user's namespace only when chat succeeds, and
        returns chat's outcome unchanged. */
    method GenerateResponse(text: string, userId: string, chat: (string, seq<(string, string)>) -> Result<string>)
      returns (r: Result<string>)
      requires chatManager.Valid()
      modifies chatManager
      ensures chatManager.Valid()
      ensures r == chat(text, History(old(chatManager.rows), userId))
      ensures r.Failure? ==> chatManager.rows == old(chatManager.rows)
      ensures r.Success? ==> chatManager.rows == Append(old(chatManager.rows), userId, r.value, text)
      ensures r.Success? ==> History(chatManager.rows, userId) == History(old(chatManager.rows), userId) + [(text, r.value)]
      ensures forall other :: other != userId ==> History(chatManager.rows, other) == History(old(chatManager.rows), other)
    {
      var history := chatManager.RetrieveAllMessages(userId);
      var aiResponse := chat(text, history);
      if aiResponse.Failure? {
        return aiResponse;
      }
      chatManager.AddMessage(userId, aiResponse.value, text);
      forall other | other != userId
        ensures History(chatManager.rows, other) == History(old(chatManager.rows), other)
      {
        AppendHistory(old(chatManager.rows), userId, aiResponse.value, text, other);
      }
      AppendHistory(old(chatManager.rows), userId, aiResponse.value, text, userId);
      r := aiResponse;
    }
  }
}
