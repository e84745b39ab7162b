/** The dashboard's giftee list and its add-giftee form. */
module Dashboard {
  import opened Wrappers
  import opened Text
  import opened Records

  class Board {
    var giftees: seq<Giftee>
    var newGifteeName: string

    constructor ()
      ensures giftees == [] && newGifteeName == ""
    {
      giftees := [];
      newGifteeName := "";
    }

    /** The initial load: the fetched giftees, or still none when the call fails. */
    method Load(fetched: Option<seq<Giftee>>)
      modifies this
      ensures giftees == if fetched.Some? then fetched.value else old(giftees)
      ensures newGifteeName == old(newGifteeName)
    {
      if fetched.Some? {
        giftees := fetched.value;
      }
    }

    method OnInput(text: string)
      modifies this
      ensures newGifteeName == text && giftees == old(giftees)
    {
      newGifteeName := text;
    }

    /**
     * `handleSubmit` / `handleAddGiftee`: a blank name sends nothing; otherwise the name
     * as typed is sent, and only a created giftee is appended and clears the input.
     */
    method HandleSubmit(created: Option<Giftee>) returns (requested: Option<string>)
      modifies this
      ensures requested == if IsBlank(old(newGifteeName)) then None else Some(old(newGifteeName))
      ensures giftees == if requested.Some? && created.Some? then old(giftees) + [created.value] else old(giftees)
      ensures newGifteeName == if requested.Some? && created.Some? then "" else old(newGifteeName)
    {
      requested := None;
      if Trim(newGifteeName) != [] {
        requested := Some(newGifteeName);
        if created.Some? {
          giftees := giftees + [created.value];
          newGifteeName := "";
        }
      }
    }
  }
}
