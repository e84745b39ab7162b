/**
 * `buildGiftPrompt`: the system and user messages of the gift-concierge prompt,
 * each written as an indented template and then trimmed.
 */
module GiftPrompt {
  import opened Wrappers
  import opened Text

  const SystemOpening: string := "You are a thoughtful gift-concierge."
  const SystemRules: string :=
    "\n  - Suggest 3 realistic gift ideas."
    + "\n  - Avoid quoting the bio; infer interests subtly."
    + "\n  - Cover at least one experience and one tangible item."
    + "\n  - Vary price bands (~£25, ~£75, ~£150)."
    + "\n  "
  const JsonInstruction: string := "Return JSON: [\"idea1\",\"idea2\",\"idea3\"]"

  /** The system message after trimming. */
  const SystemPrompt: string := SystemOpening + SystemRules + JsonInstruction

  /** The system template as written: a line break and indentation before the text. */
  const SystemTemplate: string := "\n  " + SystemPrompt

  /** The user message: the name, then on an indented second line the bio. */
  function UserPrompt(name: string, bioText: string): string {
    "Name: \"" + name + "\"\n  Bio: \"" + bioText + "\""
  }

  /** The user template as written, with `bio ?? 'N/A'` substituted. */
  function UserTemplate(name: string, bio: Option<string>): string {
    "\n  " + UserPrompt(name, bio.GetOr("N/A"))
  }

  datatype Prompt = Prompt(system: string, user: string)

  /** `buildGiftPrompt(name, bio)`: both templates trimmed. */
  function BuildGiftPrompt(name: string, bio: Option<string>): Prompt {
    Prompt(Trim(SystemTemplate), Trim(UserTemplate(name, bio)))
  }

  lemma {:induction false} PaddedTrim(w: string, a: string, b: string, c: string)
    requires IsBlank(w) && a != [] && c != [] && !IsSpace(a[0]) && !IsSpace(c[|c| - 1])
    ensures Trim(w + (a + b + c)) == a + b + c
  {
    var t := a + b + c;
    assert t[0] == a[0] && t[|t| - 1] == c[|c| - 1];
    assert w + t == w + t + [];
    TrimOfPadded(w, t, []);
  }

  /** The system message is the same fixed text whatever the name and the bio. */
  lemma SystemMessageFixed(name: string, bio: Option<string>)
    ensures BuildGiftPrompt(name, bio).system == SystemPrompt
  {
    assert IsBlank("\n  ");
    assert SystemOpening[0] == 'Y' && JsonInstruction[|JsonInstruction| - 1] == ']';
    PaddedTrim("\n  ", SystemOpening, SystemRules, JsonInstruction);
  }

  /** The user message is the name and the bio, with `N/A` for a missing bio. */
  lemma UserMessage(name: string, bio: Option<string>)
    ensures BuildGiftPrompt(name, bio).user == UserPrompt(name, bio.GetOr("N/A"))
  {
    assert IsBlank("\n  ");
    var text := bio.GetOr("N/A");
    assert UserPrompt(name, text) == "Name: \"" + (name + "\"\n  Bio: \"" + text) + "\"";
    PaddedTrim("\n  ", "Name: \"", name + "\"\n  Bio: \"" + text, "\"");
  }

  /** The system message opens with the concierge role and closes with the JSON-array instruction. */
  lemma SystemPromptEnds()
    ensures SystemPrompt[..|SystemOpening|] == SystemOpening
    ensures SystemPrompt[|SystemPrompt| - |JsonInstruction|..] == JsonInstruction
  {
    ConcatEnds(SystemOpening, SystemRules, JsonInstruction);
  }

  lemma ConcatEnds(a: string, b: string, c: string)
    ensures (a + b + c)[..|a|] == a && (a + b + c)[|a + b + c| - |c|..] == c
  {
  }

  /** `??` only replaces a missing bio: an empty bio stays empty, an absent one reads `N/A`. */
  lemma UserPromptBio(name: string)
    ensures BuildGiftPrompt(name, None).user == UserPrompt(name, "N/A")
    ensures BuildGiftPrompt(name, Some("")).user == UserPrompt(name, "")
  {
    UserMessage(name, None);
    UserMessage(name, Some(""));
  }
}
