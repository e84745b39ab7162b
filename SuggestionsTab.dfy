/**
 * The suggestions tab: the fetch / refine flow around the model call, with the
 * giftee's age worked out from the stored date of birth.
 */
module SuggestionsTab {
  import opened Wrappers
  import opened Text
  import opened JsNumbers
  import opened Calendar
  import opened Records

  datatype Suggestion = Suggestion(description: string, shortDescription: string, cost: string)

  datatype FollowUp = FollowUp(text: string)

  /** What a successful model call hands back. */
  datatype Response = Response(suggestions: seq<Suggestion>, followUps: seq<FollowUp>)

  /** The arguments of one model call: name, bio, age and the follow-up question. */
  datatype Query = Query(name: string, bio: string, age: Num, followUp: Option<string>)

  /** The `k`-th anniversary of `b`, as a (year, month, day) triple compared field by field. */
  function Anniversary(b: Date, k: int): Date {
    Date(b.year + k, b.month, b.day)
  }

  /**
   * `age` is the number of whole years lived on `today`: the anniversary that many
   * years on has been reached, the next one has not.
   */
  predicate IsAgeOn(b: Date, today: Date, age: int) {
    !Before(today, Anniversary(b, age)) && Before(today, Anniversary(b, age + 1))
  }

  /** At most one age fits a birth date and a day. */
  lemma AgeUnique(b: Date, today: Date, a1: int, a2: int)
    requires IsAgeOn(b, today, a1) && IsAgeOn(b, today, a2)
    ensures a1 == a2
  {
  }

  /** The age a fetch sends: what `AgeOf` promises for that date of birth on `today`. */
  predicate AgeSent(dateOfBirth: Option<string>, today: Date, age: Num) {
    if dateOfBirth.None? || dateOfBirth.value == [] then age == Undefined
    else match ParseIso(dateOfBirth.value)
      case None => age == NaN
      case Some(b) => age.Int? && IsAgeOn(b, today, age.value)
  }

  /**
   * The age computed before a fetch: `undefined` without a date of birth, `NaN` for a
   * text that is not a date, otherwise the year difference, less one while this
   * year's birthday (by month, then day) is still ahead.
   */
  method AgeOf(dateOfBirth: Option<string>, today: Date) returns (age: Num)
    ensures dateOfBirth.None? || dateOfBirth.value == [] ==> age == Undefined
    ensures dateOfBirth.Some? && dateOfBirth.value != [] && ParseIso(dateOfBirth.value).None? ==> age == NaN
    ensures dateOfBirth.Some? && ParseIso(dateOfBirth.value).Some?
      ==> age.Int? && IsAgeOn(ParseIso(dateOfBirth.value).value, today, age.value)
  {
    if dateOfBirth.None? || dateOfBirth.value == [] {
      return Undefined;
    }
    var parsed := ParseIso(dateOfBirth.value);
    if parsed.None? {
      return NaN;
    }
    var birth := parsed.value;
    var years := today.year - birth.year;
    var m := today.month - birth.month;
    if m < 0 || (m == 0 && today.day < birth.day) {
      years := years - 1;
    }
    age := Int(years);
  }

  /** On the birthday itself the age is the plain year difference. */
  lemma AgeOnBirthday(b: Date, y: int)
    ensures IsAgeOn(b, Date(y, b.month, b.day), y - b.year)
  {
  }

  /** The day before a birthday, the age is one less than the year difference. */
  lemma AgeBeforeBirthday(b: Date, today: Date)
    requires today.year > b.year && today.month == b.month && today.day + 1 == b.day
    ensures IsAgeOn(b, today, today.year - b.year - 1)
  {
  }

  class Tab {
    const giftee: Giftee
    var suggestions: seq<Suggestion>
    var followUps: seq<FollowUp>
    var isFetching: bool
    /** The follow-up question the shown suggestions answer, if any. */
    var selectedFollowUp: Option<string>
    var customFollowUp: string
    /** The model calls made so far, oldest first. */
    var calls: seq<Query>

    constructor (g: Giftee)
      ensures giftee == g && suggestions == [] && followUps == [] && !isFetching
      ensures selectedFollowUp == None && customFollowUp == "" && calls == []
    {
      giftee := g;
      suggestions := [];
      followUps := [];
      isFetching := false;
      selectedFollowUp := None;
      customFollowUp := "";
      calls := [];
    }

    /**
     * The synchronous part of `handleFetchSuggestions`: without a name nothing
     * happens; otherwise the flag is raised, both lists are emptied, the active
     * follow-up becomes the argument and the call is made.
     */
    method BeginFetch(followUp: Option<string>, today: Date) returns (query: Option<Query>)
      modifies this
      ensures giftee.name == [] ==> (query == None
        && suggestions == old(suggestions) && followUps == old(followUps) && isFetching == old(isFetching)
        && selectedFollowUp == old(selectedFollowUp) && calls == old(calls))
      ensures giftee.name != [] ==> (query.Some?
        && isFetching && suggestions == [] && followUps == [] && selectedFollowUp == followUp
        && query.value.name == giftee.name && query.value.bio == giftee.bio.GetOr("")
        && query.value.followUp == followUp
        && calls == old(calls) + [query.value])
      ensures query.Some? ==> AgeSent(giftee.dateOfBirth, today, query.value.age)
      ensures customFollowUp == old(customFollowUp)
    {
      if giftee.name == [] {
        return None;
      }
      isFetching := true;
      suggestions := [];
      followUps := [];
      selectedFollowUp := followUp;
      var age := AgeOf(giftee.dateOfBirth, today);
      query := Some(Query(giftee.name, giftee.bio.GetOr(""), age, followUp));
      calls := calls + [query.value];
    }

    /** The part after the call: a response fills both lists; in every case the flag drops. */
    method FinishFetch(reply: Option<Response>)
      modifies this
      ensures reply.Some? ==> suggestions == reply.value.suggestions && followUps == reply.value.followUps
      ensures reply.None? ==> suggestions == old(suggestions) && followUps == old(followUps)
      ensures !isFetching
      ensures selectedFollowUp == old(selectedFollowUp) && customFollowUp == old(customFollowUp)
      ensures calls == old(calls)
    {
      if reply.Some? {
        suggestions := reply.value.suggestions;
        followUps := reply.value.followUps;
      }
      isFetching := false;
    }

    /**
     * `handleFetchSuggestions(followUp)`, one fetch at a time: `reply` is the model's
     * response, `None` when the call fails.
     */
    method HandleFetchSuggestions(followUp: Option<string>, today: Date, reply: Option<Response>)
      returns (query: Option<Query>)
      modifies this
      ensures giftee.name == [] ==> (query == None
        && suggestions == old(suggestions) && followUps == old(followUps) && isFetching == old(isFetching)
        && selectedFollowUp == old(selectedFollowUp) && calls == old(calls))
      ensures giftee.name != [] ==> (query.Some? && !isFetching && selectedFollowUp == followUp
        && calls == old(calls) + [query.value] && query.value.followUp == followUp
        && suggestions == (if reply.Some? then reply.value.suggestions else [])
        && followUps == (if reply.Some? then reply.value.followUps else []))
      ensures query.Some? ==> AgeSent(giftee.dateOfBirth, today, query.value.age)
      ensures customFollowUp == old(customFollowUp)
    {
      query := BeginFetch(followUp, today);
      if query.Some? {
        FinishFetch(reply);
      }
    }

    method OnCustomFollowUpInput(text: string)
      modifies this
      ensures customFollowUp == text
      ensures suggestions == old(suggestions) && followUps == old(followUps)
      ensures isFetching == old(isFetching) && selectedFollowUp == old(selectedFollowUp) && calls == old(calls)
    {
      customFollowUp := text;
    }

    /**
     * `handleCustomFollowUp`: a blank question is ignored; otherwise the trimmed
     * question is fetched and the input cleared.
     */
    method HandleCustomFollowUp(today: Date, reply: Option<Response>) returns (query: Option<Query>)
      modifies this
      ensures query.Some? <==> !IsBlank(old(customFollowUp)) && giftee.name != []
      ensures customFollowUp == if IsBlank(old(customFollowUp)) then old(customFollowUp) else ""
      ensures query.None? ==> (suggestions == old(suggestions) && followUps == old(followUps)
        && isFetching == old(isFetching) && selectedFollowUp == old(selectedFollowUp) && calls == old(calls))
      ensures query.Some? ==> (query.value.followUp == Some(Trim(old(customFollowUp)))
        && selectedFollowUp == Some(Trim(old(customFollowUp))) && !isFetching
        && calls == old(calls) + [query.value])
      ensures query.Some? ==> AgeSent(giftee.dateOfBirth, today, query.value.age)
    {
      var question := Trim(customFollowUp);
      if question == [] {
        assert IsBlank(customFollowUp);
        return None;
      }
      assert !IsBlank(customFollowUp) && question == Trim(old(customFollowUp));
      // The fetch is asynchronous: the input is cleared before its reply arrives.
      customFollowUp := "";
      query := HandleFetchSuggestions(Some(question), today, reply);
    }
  }
}
