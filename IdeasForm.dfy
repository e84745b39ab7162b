/** The older ideas form: one button that fills a list of suggestion lines. */
module IdeasForm {
  import opened Wrappers
  import opened Records
  import ChatGpt

  class Form {
    const giftee: Giftee
    var suggestions: seq<string>
    var isFetching: bool

    constructor (g: Giftee)
      ensures giftee == g && suggestions == [] && !isFetching
    {
      giftee := g;
      suggestions := [];
      isFetching := false;
    }

    /**
     * `handleFetchSuggestions`: without a name nothing happens; otherwise the list is
     * emptied, the model is asked with the bio (`""` when there is none), a successful
     * answer becomes the list, and the flag is down again afterwards. `apiKey` and
     * `reply` stand for the environment and the service.
     */
    method HandleFetchSuggestions(apiKey: Option<string>, reply: ChatGpt.Reply)
      returns (sent: Option<ChatGpt.ChatRequest>)
      modifies this
      ensures giftee.name == [] ==> (sent == None
        && suggestions == old(suggestions) && isFetching == old(isFetching))
      ensures giftee.name != [] ==> !isFetching && (sent.Some? <==> !ChatGpt.MissingKey(apiKey))
      ensures giftee.name != [] && sent.Some?
        ==> |sent.value.messages| == 2 && ChatGpt.PromptFor(sent.value.messages[1].content, giftee.name, Some(giftee.bio.GetOr("")))
      ensures giftee.name != [] && (ChatGpt.MissingKey(apiKey) || reply.NoResponse? || !reply.ok)
        ==> suggestions == []
      ensures giftee.name != [] && !ChatGpt.MissingKey(apiKey) && reply.Reply? && reply.ok
        ==> suggestions == ChatGpt.ParseSuggestions(reply.completion)
    {
      sent := None;
      if giftee.name == [] {
        return;
      }
      isFetching := true;
      suggestions := [];
      var outcome;
      outcome, sent := ChatGpt.GetSuggestionsForGiftee(apiKey, giftee.name, Some(giftee.bio.GetOr("")), reply);
      if outcome.Suggestions? {
        suggestions := outcome.items;
      }
      isFetching := false;
    }
  }
}
