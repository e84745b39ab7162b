/**
 * `getSuggestionsForGiftee`: the API-key guard, the prompt built piece by piece, the
 * chat-completion request, and the split of the completion into one suggestion per line.
 * The HTTP exchange is a parameter: the reply the service would give.
 */
module ChatGpt {
  import opened Wrappers
  import opened Text

  const Model: string := "gpt-4o-mini"
  const Endpoint: string := "https://api.openai.com/v1/chat/completions"
  const SystemMessage: string := "You are a helpful assistant."
  const MaxTokens: int := 100
  const Temperature: real := 0.7
  const Instruction: string :=
    "Provide three distinct, creative, one-line gift suggestions. No explanations, just the suggestions, each on a separate line."

  /** `!apiKey`: no key, or the empty string. */
  predicate MissingKey(apiKey: Option<string>) {
    apiKey.None? || apiKey.value == ""
  }

  /** `bio && bio.trim().length > 0`. */
  predicate HasBio(bio: Option<string>) {
    bio.Some? && Trim(bio.value) != []
  }

  function Intro(name: string): string {
    "The giftee's name is \"" + name + "\". "
  }

  function BioSentence(bio: string): string {
    "Here is some information about them: \"" + bio + "\". "
  }

  /**
   * `p` is `head`, then `mid`, then `tail`: the three pieces are found at their
   * places, and nothing else is there.
   */
  predicate Framed(p: string, head: string, mid: string, tail: string) {
    && |p| == |head| + |mid| + |tail|
    && p[..|head|] == head
    && p[|head|..|p| - |tail|] == mid
    && p[|p| - |tail|..] == tail
  }

  lemma FramedConcat(head: string, mid: string, tail: string)
    ensures Framed(head + mid + tail, head, mid, tail)
  {
    var p := head + mid + tail;
    assert p[..|head|] == head;
    assert p[|head|..|p| - |tail|] == mid;
    assert p[|p| - |tail|..] == tail;
  }

  /** The framing pins a text down: it is the concatenation of its pieces. */
  lemma FramedUnique(p: string, head: string, mid: string, tail: string)
    requires Framed(p, head, mid, tail)
    ensures p == head + mid + tail
  {
    assert p == p[..|head|] + p[|head|..|p| - |tail|] + p[|p| - |tail|..];
  }

  /** The middle of the prompt: the bio sentence, or nothing. */
  function BioPart(bio: Option<string>): (r: string)
    ensures r != [] <==> HasBio(bio)
  {
    if HasBio(bio) then BioSentence(bio.value) else ""
  }

  /**
   * The shape of the prompt: it opens with the name sentence, ends with the fixed
   * instruction, and between them carries the bio sentence, with the bio as given
   * (untrimmed), when the bio is present and not blank, and nothing otherwise.
   */
  predicate PromptFor(prompt: string, name: string, bio: Option<string>) {
    Framed(prompt, Intro(name), BioPart(bio), Instruction)
  }

  /**
   * Read off the text alone: the prompt is longer than the name sentence and the
   * instruction together exactly when there is a bio, and it is then the bio sentence
   * that sits between them.
   */
  lemma PromptBio(prompt: string, name: string, bio: Option<string>)
    requires PromptFor(prompt, name, bio)
    ensures |prompt| > |Intro(name)| + |Instruction| <==> HasBio(bio)
    ensures HasBio(bio) ==> prompt[|Intro(name)|..|prompt| - |Instruction|] == BioSentence(bio.value)
    ensures prompt == Intro(name) + BioPart(bio) + Instruction
  {
    FramedUnique(prompt, Intro(name), BioPart(bio), Instruction);
  }

  /** The prompt, built with `let prompt` and `+=`. */
  method AssemblePrompt(name: string, bio: Option<string>) returns (prompt: string)
    ensures PromptFor(prompt, name, bio)
  {
    var head, tail := Intro(name), Instruction;
    prompt := head;
    if bio.Some? && |Trim(bio.value)| > 0 {
      prompt := prompt + BioSentence(bio.value);
    } else {
      assert prompt == head + [];
    }
    prompt := prompt + tail;
    FramedConcat(head, BioPart(bio), tail);
  }

  datatype Message = Message(role: string, content: string)

  datatype ChatRequest = ChatRequest(
    url: string,
    authorization: string,
    model: string,
    messages: seq<Message>,
    maxTokens: int,
    temperature: real)

  /** What the service answers: no answer at all, or an HTTP status and the completion text. */
  datatype Reply = NoResponse | Reply(ok: bool, completion: string)

  datatype Failure = MissingApiKey | ServiceError | NetworkError

  datatype Outcome = Failed(failure: Failure) | Suggestions(items: seq<string>)

  /**
   * One call: a missing key fails before any request exists; otherwise one request is
   * sent, a non-ok status fails, and an ok reply yields the parsed lines of the completion.
   */
  method GetSuggestionsForGiftee(apiKey: Option<string>, name: string, bio: Option<string>, reply: Reply)
    returns (outcome: Outcome, sent: Option<ChatRequest>)
    ensures MissingKey(apiKey) ==> outcome == Failed(MissingApiKey) && sent == None
    ensures !MissingKey(apiKey) ==> (
      && sent.Some?
      && sent.value.url == Endpoint && sent.value.model == Model
      && sent.value.authorization == "Bearer " + apiKey.value
      && |sent.value.messages| == 2
      && sent.value.messages[0] == Message("system", SystemMessage)
      && sent.value.messages[1].role == "user"
      && PromptFor(sent.value.messages[1].content, name, bio)
      && sent.value.maxTokens == MaxTokens && sent.value.temperature == Temperature)
    ensures !MissingKey(apiKey) && reply.NoResponse? ==> outcome == Failed(NetworkError)
    ensures !MissingKey(apiKey) && reply.Reply? && !reply.ok ==> outcome == Failed(ServiceError)
    ensures !MissingKey(apiKey) && reply.Reply? && reply.ok
      ==> outcome == Suggestions(ParseSuggestions(reply.completion))
  {
    if MissingKey(apiKey) {
      return Failed(MissingApiKey), None;
    }
    var prompt := AssemblePrompt(name, bio);
    var request := ChatRequest(Endpoint, "Bearer " + apiKey.value, Model,
      [Message("system", SystemMessage), Message("user", prompt)], MaxTokens, Temperature);
    sent := Some(request);
    if reply.NoResponse? {
      outcome := Failed(NetworkError);
    } else if !reply.ok {
      outcome := Failed(ServiceError);
    } else {
      outcome := Suggestions(ParseSuggestions(reply.completion));
    }
  }

  // ---------------------------------------------------------------- reading the completion

  function TrimEach(lines: seq<string>): (r: seq<string>)
    ensures |r| == |lines| && forall k | 0 <= k < |r| :: r[k] == Trim(lines[k])
  {
    if lines == [] then [] else [Trim(lines[0])] + TrimEach(lines[1..])
  }

  /** `filter(Boolean)` on strings: drops the empty ones, keeping the order of the rest. */
  function NonEmpty(items: seq<string>): (r: seq<string>)
    ensures |r| <= |items|
    ensures forall x :: x in r <==> x in items && x != []
    ensures forall x :: multiset(r)[x] == if x == [] then 0 else multiset(items)[x]
  {
    if items == [] then []
    else
      assert items == [items[0]] + items[1..];
      if items[0] == [] then NonEmpty(items[1..]) else [items[0]] + NonEmpty(items[1..])
  }

  /** The filter works line by line, so the lines it keeps stay in their order. */
  lemma {:induction false} NonEmptyAppend(a: seq<string>, b: seq<string>)
    ensures NonEmpty(a + b) == NonEmpty(a) + NonEmpty(b)
  {
    if a == [] {
      assert a + b == b;
    } else {
      assert (a + b)[0] == a[0] && (a + b)[1..] == a[1..] + b;
      NonEmptyAppend(a[1..], b);
    }
  }

  /** One line is kept exactly when it is non-empty. */
  lemma NonEmptyOne(x: string)
    ensures NonEmpty([x]) == if x == [] then [] else [x]
  {
    assert [x][1..] == [];
  }

  /** The completion trimmed, split at line breaks, each line trimmed, empty lines dropped. */
  function ParseSuggestions(completion: string): seq<string> {
    NonEmpty(TrimEach(Split(Trim(completion), '\n')))
  }

  /**
   * Every suggestion is one non-empty line, trimmed, and came from a line of the
   * completion; there are never more suggestions than lines.
   */
  lemma ParsedSuggestionsAreLines(completion: string)
    ensures var lines := Split(Trim(completion), '\n');
      var r := ParseSuggestions(completion);
      && |r| <= |lines|
      && (forall x | x in r ::
            && x != [] && Trimmed(x) && '\n' !in x
            && exists k | 0 <= k < |lines| :: x == Trim(lines[k]))
      && (forall x :: multiset(r)[x] == if x == [] then 0 else multiset(TrimEach(lines))[x])
  {
    var lines := Split(Trim(completion), '\n');
    var r := ParseSuggestions(completion);
    forall x | x in r
      ensures x != [] && Trimmed(x) && '\n' !in x
      ensures exists k | 0 <= k < |lines| :: x == Trim(lines[k])
    {
      var k :| 0 <= k < |lines| && TrimEach(lines)[k] == x;
      TrimSubset(lines[k], '\n');
    }
  }

  /**
   * Any number of non-empty, trimmed lines written one per line comes back exactly:
   * the count is whatever the completion holds, not forced to three.
   */
  lemma {:induction false} ParseSuggestionsOfLines(lines: seq<string>)
    requires |lines| >= 1
    requires forall k | 0 <= k < |lines| :: lines[k] != [] && Trimmed(lines[k]) && '\n' !in lines[k]
    ensures ParseSuggestions(Join(lines, '\n')) == lines
  {
    var text := Join(lines, '\n');
    JoinLast(lines, '\n');
    assert text[0] == lines[0][0];
    TrimOfTrimmed(text);
    SplitJoin(lines, '\n');
    TrimEachOfTrimmed(lines);
    NonEmptyOfNonEmpty(lines);
  }

  lemma TrimEachOfTrimmed(lines: seq<string>)
    requires forall k | 0 <= k < |lines| :: Trimmed(lines[k])
    ensures TrimEach(lines) == lines
  {
    forall k | 0 <= k < |lines| ensures TrimEach(lines)[k] == lines[k] {
      TrimOfTrimmed(lines[k]);
    }
  }

  lemma {:induction false} NonEmptyOfNonEmpty(items: seq<string>)
    requires forall k | 0 <= k < |items| :: items[k] != []
    ensures NonEmpty(items) == items
  {
    if items != [] {
      NonEmptyOfNonEmpty(items[1..]);
    }
  }
}
