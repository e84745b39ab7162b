/** The add-idea form: a blank name is not submitted; a submitted one clears the field. */
module AddIdeaForm {
  import opened Text

  class Form {
    var ideaName: string
    /** The names handed to `onAddIdea`, oldest first. */
    var submitted: seq<string>

    constructor ()
      ensures ideaName == "" && submitted == []
    {
      ideaName := "";
      submitted := [];
    }

    method OnInput(text: string)
      modifies this
      ensures ideaName == text && submitted == old(submitted)
    {
      ideaName := text;
    }

    /**
     * `handleSubmit`: a blank name changes nothing; otherwise the name as typed
     * (untrimmed) is handed on once and the field is cleared.
     */
    method HandleSubmit()
      modifies this
      ensures IsBlank(old(ideaName)) ==> ideaName == old(ideaName) && submitted == old(submitted)
      ensures !IsBlank(old(ideaName)) ==> ideaName == "" && submitted == old(submitted) + [old(ideaName)]
    {
      if Trim(ideaName) != [] {
        submitted := submitted + [ideaName];
        ideaName := "";
      }
    }
  }
}
