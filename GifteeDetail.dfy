/**
 * The page of one giftee: the date-of-birth fields (split from and saved back to
 * `YYYY-MM-DD`), the digits-only inputs, the add-idea form and the per-idea handlers.
 */
module GifteeDetail {
  import opened Wrappers
  import opened Text
  import opened Calendar
  import opened Records
  import opened IdeaLists

  /** `date_of_birth?.split("-")[k] || ""`. */
  function DobField(dob: Option<string>, k: nat): string {
    if dob.None? then ""
    else
      var parts := Split(dob.value, '-');
      if k < |parts| then parts[k] else ""
  }

  /** The saved form: year padded to four digits, month and day to two, joined by `-`. */
  function DobText(year: string, month: string, day: string): string {
    PadStart(year, 4, '0') + "-" + PadStart(month, 2, '0') + "-" + PadStart(day, 2, '0')
  }

  /** Splitting a saved date of birth gives back its three padded fields. */
  lemma DobSplit(year: string, month: string, day: string)
    requires '-' !in year && '-' !in month && '-' !in day
    ensures Split(DobText(year, month, day), '-')
      == [PadStart(year, 4, '0'), PadStart(month, 2, '0'), PadStart(day, 2, '0')]
  {
    var y, m, d := PadStart(year, 4, '0'), PadStart(month, 2, '0'), PadStart(day, 2, '0');
    PadStartFree(year, 4, '0', '-');
    PadStartFree(month, 2, '0', '-');
    PadStartFree(day, 2, '0', '-');
    SplitThree(y, m, d, '-');
  }

  /** Loading a saved date of birth fills the year, month and day inputs with its padded fields. */
  lemma DobFieldsOfSaved(year: string, month: string, day: string)
    requires '-' !in year && '-' !in month && '-' !in day
    ensures DobField(Some(DobText(year, month, day)), 0) == PadStart(year, 4, '0')
    ensures DobField(Some(DobText(year, month, day)), 1) == PadStart(month, 2, '0')
    ensures DobField(Some(DobText(year, month, day)), 2) == PadStart(day, 2, '0')
  {
    DobSplit(year, month, day);
  }

  /**
   * Digit fields of at most four, two and two digits that name a real day are saved as
   * text that reads back as exactly that day.
   */
  lemma DobTextParses(year: string, month: string, day: string)
    requires AllDigits(year) && AllDigits(month) && AllDigits(day)
    requires |year| <= 4 && |month| <= 2 && |day| <= 2
    requires ValidDate(Date(DigitsValue(year), DigitsValue(month), DigitsValue(day)))
    ensures ParseIso(DobText(year, month, day))
      == Some(Date(DigitsValue(year), DigitsValue(month), DigitsValue(day)))
  {
    PadStartDigits(year, 4);
    PadStartDigits(month, 2);
    PadStartDigits(day, 2);
    DobSplit(year, month, day);
  }

  /** The `\D` filter on the day, month and year inputs is idempotent and keeps digits in order. */
  lemma DigitFilter(a: string, b: string)
    ensures KeepDigits(KeepDigits(a)) == KeepDigits(a)
    ensures KeepDigits(a + b) == KeepDigits(a) + KeepDigits(b)
  {
    KeepDigitsAppend(a, b);
  }

  datatype SaveDobOutcome = MissingField | NoGiftee | Sent(dob: string)

  class Detail {
    const gifteeId: Option<string>
    var giftee: Option<Giftee>
    var ideas: seq<Idea>
    var ideaName: string
    var day: string
    var month: string
    var year: string

    constructor (routeId: Option<string>)
      ensures gifteeId == routeId && giftee == None && ideas == [] && ideaName == ""
      ensures day == "" && month == "" && year == ""
    {
      gifteeId := routeId;
      giftee := None;
      ideas := [];
      ideaName := "";
      day, month, year := "", "", "";
    }

    /** The load effect: the giftee and the three date-of-birth fields split from its DOB. */
    method LoadGiftee(g: Giftee)
      modifies this
      ensures giftee == Some(g) && ideas == old(ideas) && ideaName == old(ideaName)
      ensures day == DobField(g.dateOfBirth, 2) && month == DobField(g.dateOfBirth, 1)
      ensures year == DobField(g.dateOfBirth, 0)
    {
      giftee := Some(g);
      day := DobField(g.dateOfBirth, 2);
      month := DobField(g.dateOfBirth, 1);
      year := DobField(g.dateOfBirth, 0);
    }

    /** Typing into the day, month or year input keeps only its digits. */
    method OnDobInput(field: nat, text: string)
      requires field < 3
      modifies this
      ensures day == (if field == 0 then KeepDigits(text) else old(day))
      ensures month == (if field == 1 then KeepDigits(text) else old(month))
      ensures year == (if field == 2 then KeepDigits(text) else old(year))
      ensures giftee == old(giftee) && ideas == old(ideas) && ideaName == old(ideaName)
    {
      if field == 0 {
        day := KeepDigits(text);
      } else if field == 1 {
        month := KeepDigits(text);
      } else {
        year := KeepDigits(text);
      }
    }

    /**
     * `handleSaveDob`: refuses when any field is empty; otherwise sends the padded date
     * and, when the update succeeds, stores it on the giftee.
     */
    method HandleSaveDob(updateOk: bool) returns (outcome: SaveDobOutcome)
      modifies this
      ensures (day == "" || month == "" || year == "") ==> outcome == MissingField
      ensures outcome.Sent? ==> outcome.dob == DobText(year, month, day)
      ensures outcome.Sent? <==> day != "" && month != "" && year != "" && gifteeId.Some? && old(giftee).Some?
      ensures giftee == if outcome.Sent? && updateOk
        then Some(old(giftee).value.(dateOfBirth := Some(outcome.dob)))
        else old(giftee)
      ensures ideas == old(ideas) && ideaName == old(ideaName)
      ensures day == old(day) && month == old(month) && year == old(year)
    {
      if day == "" || month == "" || year == "" {
        return MissingField;
      }
      var dob := DobText(year, month, day);
      if gifteeId.None? || giftee.None? {
        return NoGiftee;
      }
      outcome := Sent(dob);
      if updateOk {
        giftee := Some(giftee.value.(dateOfBirth := Some(dob)));
      }
    }

    /** Typing into the idea-name input. */
    method OnIdeaNameInput(text: string)
      modifies this
      ensures ideaName == text && ideas == old(ideas) && giftee == old(giftee)
    {
      ideaName := text;
    }

    /**
     * `handleSubmit` / `handleAddIdea`: a blank name sends nothing; otherwise the name as
     * typed is sent, and a created row is appended and the input cleared.
     */
    method HandleSubmit(created: Option<Idea>) returns (requested: Option<(string, string)>)
      modifies this
      ensures requested.Some? <==> !IsBlank(old(ideaName)) && gifteeId.Some?
      ensures requested.Some? ==> requested.value == (gifteeId.value, old(ideaName))
      ensures ideas == if requested.Some? && created.Some? then old(ideas) + [created.value] else old(ideas)
      ensures ideaName == if requested.Some? && created.Some? then "" else old(ideaName)
      ensures giftee == old(giftee)
    {
      requested := None;
      if Trim(ideaName) != [] && gifteeId.Some? {
        requested := Some((gifteeId.value, ideaName));
        if created.Some? {
          ideas := ideas + [created.value];
          ideaName := "";
        }
      }
    }

    /** The toggle of one idea: sends the toggled `purchased_at` and replaces the matching entry. */
    method HandleToggleChosen(ideaId: string, current: Option<Timestamp>, now: Timestamp, updated: Option<Idea>)
      returns (patch: IdeaPatch)
      modifies this
      ensures patch == SetPurchasedAt(Toggled(current, now))
      ensures ideas == if updated.Some? then ReplaceById(old(ideas), ideaId, updated.value) else old(ideas)
      ensures giftee == old(giftee) && ideaName == old(ideaName)
    {
      patch := SetPurchasedAt(Toggled(current, now));
      if updated.Some? {
        ideas := ReplaceById(ideas, ideaId, updated.value);
      }
    }

    /** Deleting one idea: after a successful delete every entry with that id is gone. */
    method HandleDeleteIdea(ideaId: string, deleted: bool)
      modifies this
      ensures ideas == if deleted then RemoveById(old(ideas), ideaId) else old(ideas)
      ensures giftee == old(giftee) && ideaName == old(ideaName)
    {
      if deleted {
        ideas := RemoveById(ideas, ideaId);
      }
    }

    /** Rating one idea: sends the rating and replaces the matching entry. */
    method HandleRating(ideaId: string, rating: int, updated: Option<Idea>) returns (patch: IdeaPatch)
      modifies this
      ensures patch == SetRating(rating)
      ensures ideas == if updated.Some? then ReplaceById(old(ideas), ideaId, updated.value) else old(ideas)
      ensures giftee == old(giftee) && ideaName == old(ideaName)
    {
      patch := SetRating(rating);
      if updated.Some? {
        ideas := ReplaceById(ideas, ideaId, updated.value);
      }
    }
  }
}
